/**
 Comparison of a resume's skills with a job description's: the missing-skill
 list and the category-weighted coverage score with its matched, missing and
 extra breakdown.
 */
module Coverage {
  import opened Text
  import opened Order
  import opened Taxonomy
  import opened Extraction

  /** The coarse category of each listed canonical skill, in lookup order. */
  const CategoryTable: seq<(string, set<string>)> := [
    ("Languages", {
      "Python", "Java", "JavaScript", "TypeScript", "SQL", "Bash", "C", "C++"
    }),
    ("Frontend", {
      "React.js", "React Native", "Next.js", "Redux", "AngularJS", "HTML5", "CSS3",
      "Bootstrap", "Figma", "D3.js"
    }),
    ("Backend", {
      "Node.js", "Express.js", "Spring Boot", "FastAPI", "Flask", "REST APIs",
      "Microservices Architecture"
    }),
    ("Databases", {
      "PostgreSQL", "MySQL", "MongoDB", "SQLite", "Redis", "Oracle", "Redshift",
      "BigQuery", "Cassandra", "DynamoDB", "Vector Databases", "FAISS", "Pinecone",
      "Weaviate"
    }),
    ("Cloud & DevOps", {
      "AWS", "Azure", "Google Cloud Platform", "AWS EC2", "AWS S3", "AWS RDS",
      "AWS Lambda", "IAM", "CloudWatch", "Docker", "Kubernetes", "EKS", "ECS", "Terraform",
      "Jenkins", "Git", "GitHub Actions", "Ansible", "CI/CD", "VPC"
    }),
    ("Data / ML / MLOps", {
      "Scikit-learn", "PyTorch", "TensorFlow", "MLflow", "TorchServe",
      "TensorFlow Serving", "Feature Stores", "Data Modeling", "ETL", "Data Warehousing",
      "Airflow", "Spark", "Kafka", "Data Quality", "Data Governance", "Streaming",
      "Kinesis", "PubSub", "RabbitMQ"
    }),
    ("NLP / LLM", {
      "Natural Language Processing", "Large Language Models", "Hugging Face Transformers",
      "OpenAI APIs", "LangChain", "RAG Pipelines", "Prompt Engineering", "BERT", "RoBERTa",
      "GPT"
    }),
    ("Monitoring / Analytics", {
      "Amazon CloudWatch", "Prometheus", "Grafana", "ELK Stack", "Elasticsearch",
      "Logstash", "Kibana", "Tableau", "Power BI"
    }),
    ("Testing / Practices", {
      "Unit Testing", "Integration Testing", "Debugging", "TDD", "Agile/Scrum", "Jest",
      "Cypress", "JUnit", "Mockito", "A/B Testing", "Experiment Tracking"
    })
  ]

  /** The category of every skill the table does not list. */
  const Other: string := "Other"

  /** The category weights, scaled by ten so that they are whole numbers. */
  const CategoryWeights: map<string, nat> := map[
    "Languages" := 10,
    "Frontend" := 8,
    "Backend" := 10,
    "Databases" := 9,
    "Cloud & DevOps" := 11,
    "Data / ML / MLOps" := 11,
    "NLP / LLM" := 10,
    "Monitoring / Analytics" := 6,
    "Testing / Practices" := 7
  ]

  /** `CATEGORY_WEIGHTS.get(cat, 1.0)`, scaled by ten. */
  function WeightOf(cat: string): (w: nat)
    ensures w > 0
    ensures cat in CategoryWeights ==> w == CategoryWeights[cat]
    ensures cat !in CategoryWeights ==> w == 10
  {
    if cat in CategoryWeights then CategoryWeights[cat] else 10
  }

  /** The first table category listing `canon`, else `Other`. */
  function FirstCategory(table: seq<(string, set<string>)>, canon: string): (c: string)
    ensures (forall i :: 0 <= i < |table| ==> canon !in table[i].1) ==> c == Other
    ensures (exists i :: 0 <= i < |table| && canon in table[i].1) ==>
              exists i :: 0 <= i < |table| && c == table[i].0 && canon in table[i].1 &&
                          forall j :: 0 <= j < i ==> canon !in table[j].1
  {
    if table == [] then Other
    else if canon in table[0].1 then table[0].0
    else
      var c := FirstCategory(table[1..], canon);
      FirstCategoryStep(table, canon, c);
      c
  }

  /** The first listing category of a table whose head does not list the
      skill is the first listing category of its tail. */
  lemma FirstCategoryStep(table: seq<(string, set<string>)>, canon: string, c: string)
    requires table != [] && canon !in table[0].1
    requires (forall i :: 0 <= i < |table[1..]| ==> canon !in table[1..][i].1) ==> c == Other
    requires (exists i :: 0 <= i < |table[1..]| && canon in table[1..][i].1) ==>
               exists i :: 0 <= i < |table[1..]| && c == table[1..][i].0 && canon in table[1..][i].1 &&
                           forall j :: 0 <= j < i ==> canon !in table[1..][j].1
    ensures (forall i :: 0 <= i < |table| ==> canon !in table[i].1) ==> c == Other
    ensures (exists i :: 0 <= i < |table| && canon in table[i].1) ==>
              exists i :: 0 <= i < |table| && c == table[i].0 && canon in table[i].1 &&
                          forall j :: 0 <= j < i ==> canon !in table[j].1
  {
    var tail := table[1..];
    if exists i :: 0 <= i < |table| && canon in table[i].1 {
      var i :| 0 <= i < |table| && canon in table[i].1;
      assert tail[i - 1] == table[i];
      var i' :| 0 <= i' < |tail| && c == tail[i'].0 && canon in tail[i'].1 &&
                forall j :: 0 <= j < i' ==> canon !in tail[j].1;
      assert table[i' + 1] == tail[i'];
      forall j | 0 <= j < i' + 1 ensures canon !in table[j].1 {
        if j > 0 { assert table[j] == tail[j - 1]; }
      }
    } else {
      forall i | 0 <= i < |tail| ensures canon !in tail[i].1 {
        assert tail[i] == table[i + 1];
      }
    }
  }

  function TableNames(table: seq<(string, set<string>)>): (r: seq<string>)
    ensures |r| == |table|
    ensures forall i :: 0 <= i < |table| ==> r[i] == table[i].0
  {
    seq(|table|, i requires 0 <= i < |table| => table[i].0)
  }

  /** A category table: names with the skills they list, in lookup order. */
  type Table = seq<(string, set<string>)>

  /** `_category_of(canon)` for a table. */
  function CategoryOf(table: Table, canon: string): string {
    FirstCategory(table, canon)
  }

  /** Every category a skill can fall in. */
  function CategoryNames(table: Table): seq<string> {
    TableNames(table) + [Other]
  }

  lemma CategoryOfListed(table: Table, canon: string)
    ensures CategoryOf(table, canon) in CategoryNames(table)
  {
    var c := CategoryOf(table, canon);
    if c != Other {
      var i :| 0 <= i < |table| && c == table[i].0 && canon in table[i].1;
      assert CategoryNames(table)[i] == c;
    } else {
      assert CategoryNames(table)[|table|] == Other;
    }
  }

  /** `cat_req[cat]` (or `cat_hit[cat]`): how many of `skills` fall in `cat`. */
  function CountIn(table: Table, skills: set<string>, cat: string): nat {
    |set s | s in skills && CategoryOf(table, s) == cat|
  }

  /** The weighted tally over the categories `cats`. */
  function WeightedCount(table: Table, cats: seq<string>, skills: set<string>): nat
  {
    if cats == [] then 0
    else WeightOf(cats[0]) * CountIn(table, skills, cats[0]) + WeightedCount(table, cats[1..], skills)
  }

  lemma SubsetCard(a: set<string>, b: set<string>)
    requires a <= b
    ensures |a| <= |b|
  {
    assert b == a + (b - a);
  }

  lemma ProperSubsetCard(a: set<string>, b: set<string>, x: string)
    requires a <= b && x in b && x !in a
    ensures |a| < |b|
  {
    assert b == a + (b - a);
    assert x in b - a;
  }

  lemma {:induction false} WeightedCountMonotone(table: Table, cats: seq<string>, a: set<string>, b: set<string>)
    requires a <= b
    ensures WeightedCount(table, cats, a) <= WeightedCount(table, cats, b)
    decreases |cats|
  {
    if cats != [] {
      var c := cats[0];
      SubsetCard(set s | s in a && CategoryOf(table, s) == c, set s | s in b && CategoryOf(table, s) == c);
      WeightedCountMonotone(table, cats[1..], a, b);
      MulMonotone(WeightOf(c), |set s | s in a && CategoryOf(table, s) == c|, |set s | s in b && CategoryOf(table, s) == c|);
    }
  }

  lemma MulMonotone(w: nat, a: nat, b: nat)
    requires a <= b
    ensures w * a <= w * b
  {
  }

  lemma MulStrict(w: nat, a: nat, b: nat)
    requires w > 0 && a < b
    ensures w * a < w * b
  {
  }

  /** A skill in `b` but not in `a`, in a category of `cats`, makes the tally
      of `b` strictly larger. */
  lemma {:induction false} WeightedCountStrict(table: Table, cats: seq<string>, a: set<string>, b: set<string>, x: string)
    requires a <= b && x in b && x !in a
    requires CategoryOf(table, x) in cats
    ensures WeightedCount(table, cats, a) < WeightedCount(table, cats, b)
    decreases |cats|
  {
    var c := cats[0];
    var ca := set s | s in a && CategoryOf(table, s) == c;
    var cb := set s | s in b && CategoryOf(table, s) == c;
    SubsetCard(ca, cb);
    if CategoryOf(table, x) == c {
      ProperSubsetCard(ca, cb, x);
      WeightedCountMonotone(table, cats[1..], a, b);
      MulStrict(WeightOf(c), |ca|, |cb|);
    } else {
      assert CategoryOf(table, x) in cats[1..];
      WeightedCountStrict(table, cats[1..], a, b, x);
      MulMonotone(WeightOf(c), |ca|, |cb|);
    }
  }

  /** The score for `got` out of `total` weight, as a percentage. */
  function Percent(got: nat, total: nat): (p: real)
    requires got <= total
    ensures 0.0 <= p <= 100.0
    ensures total == 0 ==> p == 0.0
    ensures 0 < total && got == total ==> p == 100.0
  {
    if total == 0 then 0.0
    else
      Fraction(got as real, total as real);
      100.0 * ((got as real) / (total as real))
  }

  /** A part of a positive whole is a fraction between 0 and 1, and 1 for
      the whole. */
  lemma Fraction(a: real, b: real)
    requires 0.0 <= a <= b && b > 0.0
    ensures 0.0 <= a / b <= 1.0
    ensures a == b ==> a / b == 1.0
  {
  }

  /** The alias-normalised set of a skill list. */
  function NormSet(tax: Taxonomy, skills: seq<string>): set<string> {
    set s | s in skills :: NormSkill(tax, s)
  }

  /** `compare_skills(resume_skills, jd_skills)`: the normalised job skills
      the normalised resume lacks, sorted. */
  function CompareSkills(tax: Taxonomy, resume: seq<string>, jd: seq<string>): (r: seq<string>)
    ensures StrictlySorted(r)
    ensures forall s :: s in r <==> s in NormSet(tax, jd) && s !in NormSet(tax, resume)
  {
    var r := SortedOf(NormSet(tax, jd) - NormSet(tax, resume));
    assert forall s :: s in r <==> s in Elems(r);
    r
  }

  /** The result of `coverage_score`: the score and the detail lists. */
  datatype CoverageReport = CoverageReport(
    score: real,
    matched: seq<string>,
    missing: seq<string>,
    extra: seq<string>)

  /** `coverage_score` with the category table as a parameter: every job
      skill is matched or missing and not both, extra holds the resume's
      surplus, and the score is a percentage that is 0 with no job skills
      and 100 when the resume covers them all. */
  function CoverageWith(table: Table, tax: Taxonomy, resume: seq<string>, jd: seq<string>): (c: CoverageReport)
    ensures StrictlySorted(c.matched) && StrictlySorted(c.missing) && StrictlySorted(c.extra)
    ensures Elems(c.matched) !! Elems(c.missing)
    ensures Elems(c.matched) + Elems(c.missing) == NormSet(tax, jd)
    ensures Elems(c.matched) <= NormSet(tax, resume)
    ensures Elems(c.extra) == NormSet(tax, resume) - NormSet(tax, jd)
    ensures 0.0 <= c.score <= 100.0
    ensures NormSet(tax, jd) == {} ==> c.score == 0.0
    ensures NormSet(tax, jd) != {} && NormSet(tax, jd) <= NormSet(tax, resume) ==> c.score == 100.0
  {
    var r := NormSet(tax, resume);
    var j := NormSet(tax, jd);
    var m := j * r;
    assert j <= r ==> m == j;
    assert m + (j - r) == j && m !! (j - r);
    TotalBounds(table, j, m);
    var total := WeightedCount(table, CategoryNames(table), j);
    var got := WeightedCount(table, CategoryNames(table), m);
    CoverageReport(Percent(got, total), SortedOf(m), SortedOf(j - r), SortedOf(r - j))
  }

  /** `coverage_score(resume_skills, jd_skills)` with the source's category
      table; the score is exact, before rounding to two decimals. */
  function CoverageScore(tax: Taxonomy, resume: seq<string>, jd: seq<string>): CoverageReport {
    CoverageWith(CategoryTable, tax, resume, jd)
  }

  // ------------------------------------------------------------ weighted share

  /** The summed category weights of a list of skills, one term per entry:
      `sum(CATEGORY_WEIGHTS.get(_category_of(s), 1.0) for s in skills)`,
      scaled by ten. */
  function SkillWeights(table: Table, skills: seq<string>): nat {
    if skills == [] then 0
    else WeightOf(CategoryOf(table, skills[0])) + SkillWeights(table, skills[1..])
  }

  lemma {:induction false} SkillWeightsAppend(table: Table, a: seq<string>, b: seq<string>)
    ensures SkillWeights(table, a + b) == SkillWeights(table, a) + SkillWeights(table, b)
    decreases |a|
  {
    if a == [] {
      assert a + b == b;
    } else {
      assert (a + b)[0] == a[0] && (a + b)[1..] == a[1..] + b;
      SkillWeightsAppend(table, a[1..], b);
    }
  }

  predicate NoDuplicates(xs: seq<string>) {
    forall i, j :: 0 <= i < j < |xs| ==> xs[i] != xs[j]
  }

  lemma NoDuplicatesTail(xs: seq<string>)
    requires xs != [] && NoDuplicates(xs)
    ensures NoDuplicates(xs[1..]) && xs[0] !in xs[1..]
  {
    var tail := xs[1..];
    forall i, j | 0 <= i < j < |tail| ensures tail[i] != tail[j] {
      assert tail[i] == xs[i + 1] && tail[j] == xs[j + 1];
    }
    forall i | 0 <= i < |tail| ensures tail[i] != xs[0] {
      assert tail[i] == xs[i + 1];
    }
  }

  /** The per-category tallies of the source name every category once:
      no table name repeats and none is `Other`. */
  predicate DistinctCategories(table: Table) {
    NoDuplicates(CategoryNames(table))
  }

  /** The source's table names its nine categories and `Other` once each. */
  lemma CategoryTableDistinct()
    ensures DistinctCategories(CategoryTable)
  {
    CategoryTableNames();
    ListedNamesDistinct();
  }

  /** The names of the source's categories, in table order, then "Other". */
  const ListedNames: seq<string> := [
    "Languages", "Frontend", "Backend", "Databases", "Cloud & DevOps",
    "Data / ML / MLOps", "NLP / LLM", "Monitoring / Analytics",
    "Testing / Practices", "Other"
  ]

  lemma CategoryTableNames()
    ensures CategoryNames(CategoryTable) == ListedNames
  {
    var t := CategoryTable;
    assert t[0].0 == "Languages" && t[1].0 == "Frontend" && t[2].0 == "Backend";
    assert t[3].0 == "Databases" && t[4].0 == "Cloud & DevOps";
    assert t[5].0 == "Data / ML / MLOps" && t[6].0 == "NLP / LLM";
    assert t[7].0 == "Monitoring / Analytics" && t[8].0 == "Testing / Practices";
  }

  lemma ListedNamesDistinct()
    ensures NoDuplicates(ListedNames)
  {
  }

  lemma CountInAddOne(table: Table, s: set<string>, x: string, c: string)
    requires x !in s
    ensures CountIn(table, s + {x}, c) == CountIn(table, s, c) + (if CategoryOf(table, x) == c then 1 else 0)
  {
    var a := set y | y in s && CategoryOf(table, y) == c;
    var b := set y | y in s + {x} && CategoryOf(table, y) == c;
    if CategoryOf(table, x) == c {
      assert b == a + {x};
    } else {
      assert b == a;
    }
  }

  lemma MulAddOne(w: nat, n: nat)
    ensures w * (n + 1) == w * n + w
  {
  }

  /** One more skill adds its category's weight to the tally, when that
      category is tallied once. */
  lemma {:induction false} WeightedCountAddOne(table: Table, cats: seq<string>, s: set<string>, x: string)
    requires NoDuplicates(cats) && x !in s
    ensures WeightedCount(table, cats, s + {x}) ==
            WeightedCount(table, cats, s) + (if CategoryOf(table, x) in cats then WeightOf(CategoryOf(table, x)) else 0)
    decreases |cats|
  {
    if cats != [] {
      var c := cats[0];
      NoDuplicatesTail(cats);
      WeightedCountAddOne(table, cats[1..], s, x);
      CountInAddOne(table, s, x, c);
      if CategoryOf(table, x) == c {
        MulAddOne(WeightOf(c), CountIn(table, s, c));
      } else {
        assert CategoryOf(table, x) in cats <==> CategoryOf(table, x) in cats[1..];
      }
    }
  }

  /** With distinct categories, the source's per-category tally of a set of
      skills is the sum of each skill's own weight. */
  lemma {:induction false} WeightedCountIsSkillWeights(table: Table, xs: seq<string>)
    requires DistinctCategories(table) && NoDuplicates(xs)
    ensures WeightedCount(table, CategoryNames(table), Elems(xs)) == SkillWeights(table, xs)
    decreases |xs|
  {
    if xs == [] {
      assert Elems(xs) == {};
      EmptyWeightedCount(table, CategoryNames(table));
    } else {
      var tail := xs[1..];
      NoDuplicatesTail(xs);
      WeightedCountIsSkillWeights(table, tail);
      assert Elems(xs) == Elems(tail) + {xs[0]} by {
        assert xs == [xs[0]] + tail;
      }
      WeightedCountAddOne(table, CategoryNames(table), Elems(tail), xs[0]);
      CategoryOfListed(table, xs[0]);
    }
  }

  lemma SortedNoDuplicates(xs: seq<string>)
    requires StrictlySorted(xs)
    ensures NoDuplicates(xs)
  {
    forall i, j | 0 <= i < j < |xs| ensures xs[i] != xs[j] {
      SortedDistinct(xs, i, j);
    }
  }

  lemma DisjointAppendNoDuplicates(a: seq<string>, b: seq<string>)
    requires NoDuplicates(a) && NoDuplicates(b) && Elems(a) !! Elems(b)
    ensures NoDuplicates(a + b)
  {
    var ab := a + b;
    forall i, j | 0 <= i < j < |ab| ensures ab[i] != ab[j] {
      if j < |a| {
        assert ab[i] == a[i] && ab[j] == a[j];
      } else if i >= |a| {
        assert ab[i] == b[i - |a|] && ab[j] == b[j - |a|];
      } else {
        assert ab[i] == a[i] && ab[j] == b[j - |a|];
        assert a[i] in Elems(a) && b[j - |a|] in Elems(b);
      }
    }
  }

  /** The tallies of two disjoint sorted lists are their summed weights. */
  lemma TallyIsSkillWeights(table: Table, ms: seq<string>, xs: seq<string>)
    requires DistinctCategories(table)
    requires StrictlySorted(ms) && StrictlySorted(xs) && Elems(ms) !! Elems(xs)
    ensures WeightedCount(table, CategoryNames(table), Elems(ms)) == SkillWeights(table, ms)
    ensures WeightedCount(table, CategoryNames(table), Elems(ms) + Elems(xs)) ==
            SkillWeights(table, ms) + SkillWeights(table, xs)
  {
    SortedNoDuplicates(ms);
    SortedNoDuplicates(xs);
    DisjointAppendNoDuplicates(ms, xs);
    assert Elems(ms + xs) == Elems(ms) + Elems(xs);
    WeightedCountIsSkillWeights(table, ms);
    WeightedCountIsSkillWeights(table, ms + xs);
    SkillWeightsAppend(table, ms, xs);
  }

  /** The report's score is 100 times the summed weights of its matched
      skills over the summed weights of its matched and missing ones. */
  predicate WeightedShare(table: Table, c: CoverageReport) {
    var got := SkillWeights(table, c.matched);
    var total := got + SkillWeights(table, c.missing);
    got <= total && c.score == Percent(got, total)
  }

  /** The score is the weighted share of the job skills the resume covers:
      100 times the summed weights of the matched skills over the summed
      weights of the matched and missing ones, each skill weighted by its
      category. */
  lemma CoverageIsWeightedShare(table: Table, tax: Taxonomy, resume: seq<string>, jd: seq<string>)
    requires DistinctCategories(table)
    ensures WeightedShare(table, CoverageWith(table, tax, resume, jd))
  {
    var c := CoverageWith(table, tax, resume, jd);
    CoverageTallies(table, tax, resume, jd);
    ShareOfTallies(table, c);
  }

  /** The report's score is 100 times the tally of its matched skills over
      the tally of its matched and missing ones. */
  predicate TallyShare(table: Table, c: CoverageReport) {
    var cats := CategoryNames(table);
    var got := WeightedCount(table, cats, Elems(c.matched));
    var total := WeightedCount(table, cats, Elems(c.matched) + Elems(c.missing));
    got <= total && c.score == Percent(got, total)
  }

  lemma CoverageTallies(table: Table, tax: Taxonomy, resume: seq<string>, jd: seq<string>)
    ensures var c := CoverageWith(table, tax, resume, jd);
            && StrictlySorted(c.matched) && StrictlySorted(c.missing)
            && Elems(c.matched) !! Elems(c.missing)
            && TallyShare(table, c)
  {
    var c := CoverageWith(table, tax, resume, jd);
    var j := NormSet(tax, jd);
    var m := j * NormSet(tax, resume);
    assert Elems(c.matched) == m;
    assert Elems(c.matched) + Elems(c.missing) == j;
    TotalBounds(table, j, m);
    assert TallyShare(table, c);
  }

  lemma ShareOfTallies(table: Table, c: CoverageReport)
    requires DistinctCategories(table) && TallyShare(table, c)
    requires StrictlySorted(c.matched) && StrictlySorted(c.missing)
    requires Elems(c.matched) !! Elems(c.missing)
    ensures WeightedShare(table, c)
  {
    var cats := CategoryNames(table);
    var got := WeightedCount(table, cats, Elems(c.matched));
    var total := WeightedCount(table, cats, Elems(c.matched) + Elems(c.missing));
    assert got <= total && c.score == Percent(got, total);
    TallyIsSkillWeights(table, c.matched, c.missing);
    ShareOfNumbers(table, c, got, total);
  }

  lemma ShareOfNumbers(table: Table, c: CoverageReport, got: nat, total: nat)
    requires got == SkillWeights(table, c.matched)
    requires total == got + SkillWeights(table, c.missing)
    requires got <= total && c.score == Percent(got, total)
    ensures WeightedShare(table, c)
  {
  }

  /** `coverage_score` itself is the weighted share. */
  lemma CoverageScoreIsWeightedShare(tax: Taxonomy, resume: seq<string>, jd: seq<string>)
    ensures WeightedShare(CategoryTable, CoverageScore(tax, resume, jd))
  {
    var c := CoverageScore(tax, resume, jd);
    assert c == CoverageWith(CategoryTable, tax, resume, jd);
    CategoryTableDistinct();
    CoverageIsWeightedShare(CategoryTable, tax, resume, jd);
  }

  /** Two categories of the source's table, one skill each. */
  const TwoCategories: Table := [("Languages", {"Python"}), ("Frontend", {"Figma"})]

  /** The weights matter: with Python (Languages, weight 1.0) matched and
      Figma (Frontend, weight 0.8) missing, the score is 100 * 1.0 / 1.8,
      not the unweighted 50. */
  lemma OneOfTwoWeighted()
    ensures CoverageWith(TwoCategories, [], ["Python"], ["Python", "Figma"]).score == 100.0 * (10.0 / 18.0)
    ensures CoverageWith(TwoCategories, [], ["Python"], ["Python", "Figma"]).score != 50.0
  {
    OneOfTwoShare();
    PercentTenOfEighteen();
  }

  lemma OneOfTwoShare()
    ensures CoverageWith(TwoCategories, [], ["Python"], ["Python", "Figma"]).score == Percent(10, 18)
  {
    PythonFigmaLists(TwoCategories);
    PythonFigmaWeights();
    TwoCategoriesDistinct();
    CoverageIsWeightedShare(TwoCategories, [], ["Python"], ["Python", "Figma"]);
  }

  lemma TwoCategoriesDistinct()
    ensures DistinctCategories(TwoCategories)
  {
    assert CategoryNames(TwoCategories) == ["Languages", "Frontend", "Other"];
  }

  lemma PercentTenOfEighteen()
    ensures Percent(10, 18) == 100.0 * (10.0 / 18.0) && Percent(10, 18) != 50.0
  {
  }

  /** Under a taxonomy without aliases, Python is matched and Figma missing. */
  lemma PythonFigmaLists(table: Table)
    ensures var c := CoverageWith(table, [], ["Python"], ["Python", "Figma"]);
            c.matched == ["Python"] && c.missing == ["Figma"]
  {
    NormSkillUnknown([], "Python");
    NormSkillUnknown([], "Figma");
    assert NormSet([], ["Python"]) == {"Python"};
    assert NormSet([], ["Python", "Figma"]) == {"Python", "Figma"};
    assert {"Python", "Figma"} * {"Python"} == Elems(["Python"]);
    assert {"Python", "Figma"} - {"Python"} == Elems(["Figma"]);
    SortedOfSorted(["Python"]);
    SortedOfSorted(["Figma"]);
  }

  /** Python weighs 1.0 (Languages) and Figma 0.8 (Frontend). */
  lemma PythonFigmaWeights()
    ensures SkillWeights(TwoCategories, ["Python"]) == 10
    ensures SkillWeights(TwoCategories, ["Figma"]) == 8
  {
    assert CategoryOf(TwoCategories, "Python") == "Languages";
    assert CategoryOf(TwoCategories, "Figma") == "Frontend";
  }

  /** The matched weight never exceeds the total, and the total is zero
      exactly when there are no job skills. */
  lemma TotalBounds(table: Table, j: set<string>, m: set<string>)
    requires m <= j
    ensures WeightedCount(table, CategoryNames(table), m) <= WeightedCount(table, CategoryNames(table), j)
    ensures j == {} <==> WeightedCount(table, CategoryNames(table), j) == 0
  {
    WeightedCountMonotone(table, CategoryNames(table), m, j);
    if j != {} {
      var x :| x in j;
      CategoryOfListed(table, x);
      WeightedCountStrict(table, CategoryNames(table), {}, j, x);
    } else {
      EmptyWeightedCount(table, CategoryNames(table));
    }
  }

  lemma {:induction false} EmptyWeightedCount(table: Table, cats: seq<string>)
    ensures WeightedCount(table, cats, {}) == 0
    decreases |cats|
  {
    if cats != [] {
      EmptyWeightedCount(table, cats[1..]);
    }
  }

  /** Percent grows with the weight obtained. */
  lemma PercentMonotone(g1: nat, g2: nat, total: nat)
    requires g1 <= g2 <= total
    ensures Percent(g1, total) <= Percent(g2, total)
  {
    if total > 0 {
      assert (g1 as real) <= (g2 as real);
      assert 100.0 * (g1 as real) <= 100.0 * (g2 as real);
      DivMonotone(100.0 * (g1 as real), 100.0 * (g2 as real), total as real);
    }
  }

  /** Percent grows strictly with the weight obtained. */
  lemma PercentStrict(g1: nat, g2: nat, total: nat)
    requires g1 < g2 <= total
    ensures Percent(g1, total) < Percent(g2, total)
  {
    assert (g1 as real) < (g2 as real);
    assert 100.0 * (g1 as real) < 100.0 * (g2 as real);
    DivStrict(100.0 * (g1 as real), 100.0 * (g2 as real), total as real);
  }

  lemma DivMonotone(a: real, b: real, d: real)
    requires a <= b && d > 0.0
    ensures a / d <= b / d
  {
  }

  lemma DivStrict(a: real, b: real, d: real)
    requires a < b && d > 0.0
    ensures a / d < b / d
  {
  }

  /** Enlarging the normalised resume skills never lowers the score. */
  lemma CoverageMonotone(table: Table, tax: Taxonomy, r1: seq<string>, r2: seq<string>, jd: seq<string>)
    requires NormSet(tax, r1) <= NormSet(tax, r2)
    ensures CoverageWith(table, tax, r1, jd).score <= CoverageWith(table, tax, r2, jd).score
  {
    var j := NormSet(tax, jd);
    var cats := CategoryNames(table);
    TotalBounds(table, j, j * NormSet(tax, r1));
    TotalBounds(table, j, j * NormSet(tax, r2));
    WeightedCountMonotone(table, cats, j * NormSet(tax, r1), j * NormSet(tax, r2));
    PercentMonotone(WeightedCount(table, cats, j * NormSet(tax, r1)), WeightedCount(table, cats, j * NormSet(tax, r2)), WeightedCount(table, cats, j));
  }

  /** Adding one skill to the resume never lowers the score. */
  lemma AddingResumeSkillNeverLowers(table: Table, tax: Taxonomy, resume: seq<string>, jd: seq<string>, x: string)
    ensures CoverageWith(table, tax, resume, jd).score <= CoverageWith(table, tax, resume + [x], jd).score
  {
    assert NormSet(tax, resume) <= NormSet(tax, resume + [x]) by {
      forall s | s in resume ensures s in resume + [x] { }
    }
    CoverageMonotone(table, tax, resume, resume + [x], jd);
  }

  /** Adding a skill the job asks for and the resume lacks strictly raises
      the score. */
  lemma AddingMissingSkillRaises(table: Table, tax: Taxonomy, resume: seq<string>, jd: seq<string>, x: string)
    requires NormSkill(tax, x) in NormSet(tax, jd) - NormSet(tax, resume)
    ensures CoverageWith(table, tax, resume, jd).score < CoverageWith(table, tax, resume + [x], jd).score
  {
    var j := NormSet(tax, jd);
    var r1 := NormSet(tax, resume);
    var r2 := NormSet(tax, resume + [x]);
    var cats := CategoryNames(table);
    var n := NormSkill(tax, x);
    assert r1 <= r2 by {
      forall s | s in resume ensures s in resume + [x] { }
    }
    assert n in r2 by { assert x in resume + [x]; }
    CategoryOfListed(table, n);
    WeightedCountStrict(table, cats, j * r1, j * r2, n);
    TotalBounds(table, j, j * r2);
    PercentStrict(WeightedCount(table, cats, j * r1), WeightedCount(table, cats, j * r2), WeightedCount(table, cats, j));
  }

  /** The score is 100 exactly when there are job skills and the resume
      covers every one of them. */
  lemma FullScoreIffCovered(table: Table, tax: Taxonomy, resume: seq<string>, jd: seq<string>)
    ensures CoverageWith(table, tax, resume, jd).score == 100.0 <==>
            NormSet(tax, jd) != {} && NormSet(tax, jd) <= NormSet(tax, resume)
  {
    var j := NormSet(tax, jd);
    var r := NormSet(tax, resume);
    var cats := CategoryNames(table);
    TotalBounds(table, j, j * r);
    if j != {} && !(j <= r) {
      var x :| x in j && x !in r;
      CategoryOfListed(table, x);
      WeightedCountStrict(table, cats, j * r, j, x);
      var g := WeightedCount(table, cats, j * r);
      var t := WeightedCount(table, cats, j);
      PercentStrict(g, t, t);
    }
  }

  /** `compare_skills` returns exactly the missing list of the coverage
      report. */
  lemma CompareSkillsIsMissing(table: Table, tax: Taxonomy, resume: seq<string>, jd: seq<string>)
    ensures CompareSkills(tax, resume, jd) == CoverageWith(table, tax, resume, jd).missing
  {
    var a := CompareSkills(tax, resume, jd);
    var b := CoverageWith(table, tax, resume, jd).missing;
    assert Elems(a) == Elems(b) by {
      forall s ensures s in Elems(a) <==> s in Elems(b) {
        assert s in Elems(a) <==> s in a;
      }
    }
    SortedUnique(a, b);
  }

  /** Over skills that are canonical names of a stable taxonomy,
      normalisation changes nothing. */
  lemma NormSetOfCanonicals(tax: Taxonomy, skills: seq<string>)
    requires CanonStable(tax)
    requires Elems(skills) <= Canonicals(tax)
    ensures NormSet(tax, skills) == Elems(skills)
  {
    forall s | s in skills ensures NormSkill(tax, s) == s {
      assert s in Elems(skills);
    }
  }

  /** The result of `analyze_skills`. */
  datatype SkillReport = SkillReport(
    resumeSkills: seq<string>,
    jdSkills: seq<string>,
    matched: seq<string>,
    missing: seq<string>,
    extra: seq<string>,
    score: real)

  /** `analyze_skills(resume_text, jd_text)`. */
  function AnalyzeSkills(tax: Taxonomy, ratio: Ratio, resumeText: string, jdText: string): (a: SkillReport)
    ensures StrictlySorted(a.resumeSkills) && StrictlySorted(a.jdSkills)
    ensures Elems(a.matched) + Elems(a.missing) == NormSet(tax, a.jdSkills)
    ensures Elems(a.matched) !! Elems(a.missing)
    ensures Elems(a.extra) == NormSet(tax, a.resumeSkills) - NormSet(tax, a.jdSkills)
    ensures a.resumeSkills == ExtractSkills(tax, ratio, resumeText)
    ensures a.jdSkills == ExtractJdSkills(tax, ratio, jdText)
    ensures StrictlySorted(a.matched) && StrictlySorted(a.missing) && StrictlySorted(a.extra)
    ensures Elems(a.matched) <= NormSet(tax, a.resumeSkills)
    ensures 0.0 <= a.score <= 100.0
    ensures WeightedShare(CategoryTable, CoverageReport(a.score, a.matched, a.missing, a.extra))
  {
    var rs := ExtractSkills(tax, ratio, resumeText);
    var js := ExtractJdSkills(tax, ratio, jdText);
    var c := CoverageScore(tax, rs, js);
    SortedOfSorted(rs);
    SortedOfSorted(js);
    CoverageScoreIsWeightedShare(tax, rs, js);
    assert c == CoverageReport(c.score, c.matched, c.missing, c.extra);
    SkillReport(SortedOf(Elems(rs)), SortedOf(Elems(js)), c.matched, c.missing, c.extra, c.score)
  }

  /** For a well-formed, stable taxonomy the report's lists are the plain
      set operations on the extracted skills: matched is their intersection,
      missing the job's surplus, extra the resume's. */
  lemma AnalyzeSkillsOfStable(tax: Taxonomy, ratio: Ratio, resumeText: string, jdText: string)
    requires WellFormed(tax) && CanonStable(tax)
    ensures var a := AnalyzeSkills(tax, ratio, resumeText, jdText);
            && a.resumeSkills == ExtractSkills(tax, ratio, resumeText)
            && a.jdSkills == ExtractJdSkills(tax, ratio, jdText)
            && Elems(a.matched) == Elems(a.resumeSkills) * Elems(a.jdSkills)
            && Elems(a.missing) == Elems(a.jdSkills) - Elems(a.resumeSkills)
            && Elems(a.extra) == Elems(a.resumeSkills) - Elems(a.jdSkills)
  {
    var rs := ExtractSkills(tax, ratio, resumeText);
    var js := ExtractJdSkills(tax, ratio, jdText);
    SortedOfSorted(rs);
    SortedOfSorted(js);
    ExtractSkillsCanonical(tax, ratio, resumeText);
    ExtractJdSkillsCanonical(tax, ratio, jdText);
    CoverageOfCanonicals(CategoryTable, tax, rs, js);
  }

  /** Over canonical names of a stable taxonomy the report's lists are the
      plain set operations on the two lists. */
  lemma CoverageOfCanonicals(table: Table, tax: Taxonomy, rs: seq<string>, js: seq<string>)
    requires CanonStable(tax) && Elems(rs) <= Canonicals(tax) && Elems(js) <= Canonicals(tax)
    ensures var c := CoverageWith(table, tax, rs, js);
            && Elems(c.matched) == Elems(rs) * Elems(js)
            && Elems(c.missing) == Elems(js) - Elems(rs)
            && Elems(c.extra) == Elems(rs) - Elems(js)
  {
    NormSetOfCanonicals(tax, rs);
    NormSetOfCanonicals(tax, js);
  }
}
