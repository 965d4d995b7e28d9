/**
 The analysis entry point behind the UI: input guards, skill comparison
 between the resume and the job description, word counts, chunking for the
 similarity score, the score gauge and the escaped resume previews.
*/
module App {
  import opened Wrappers
  import opened Text
  import opened Order
  import opened Taxonomy
  import opened Extraction
  import opened Coverage
  import opened Chunking
  import opened Escape
  import opened Badge

  /** Why an analysis was refused. */
  datatype Rejection = NoResume | NoJobDescription | UnreadableResume {
    /** The message shown in place of the results. */
    function Message(): string {
      match this
      case NoResume => "Please upload a PDF resume."
      case NoJobDescription => "Please paste a job description to analyze."
      case UnreadableResume => "Error: Resume text could not be extracted. Try another PDF."
    }
  }

  /** What a completed analysis shows. */
  datatype Analysis = Analysis(
    skills: SkillSummary,
    resumeWords: nat,
    jdWords: nat,
    gauge: Gauge,
    snippet: string,
    raw: string)

  datatype Outcome = Rejected(reason: Rejection) | Analysed(analysis: Analysis)

  /** Python's `s[:n]` for a non-negative `n`. */
  function Prefix(s: string, n: nat): (r: string)
    ensures |r| == if |s| < n then |s| else n
    ensures r <= s
  {
    if |s| < n then s else s[..n]
  }

  /** The circumference of the gauge's circle, `2 * pi * 56`, to two
      decimals; the model only needs it positive. */
  const Circumference: real := 351.86

  /** The preview windows of the resume text, in characters. */
  const SnippetLength: nat := 3000
  const RawLength: nat := 8000

  /** The chunking the similarity score uses. */
  const ChunkSize: int := 900
  const ChunkOverlap: int := 100

  /** The skill comparison of `analyze`: both texts through
      `extract_skills`, the normalised missing list, the plain intersection
      as the matched list, and the number of distinct job skills. */
  datatype SkillSummary = SkillSummary(
    resumeSkills: seq<string>,
    jdSkills: seq<string>,
    matched: seq<string>,
    missing: seq<string>,
    totalJd: nat)

  function Summarise(tax: Taxonomy, ratio: Ratio, resume: string, job: string): (m: SkillSummary)
    ensures m.resumeSkills == ExtractSkills(tax, ratio, resume)
    ensures m.jdSkills == ExtractSkills(tax, ratio, job)
    ensures StrictlySorted(m.matched)
    ensures Elems(m.matched) == Elems(m.resumeSkills) * Elems(m.jdSkills)
    ensures m.missing == CompareSkills(tax, m.resumeSkills, m.jdSkills)
    ensures m.totalJd == |m.jdSkills|
    ensures |m.matched| <= m.totalJd
  {
    var rs := ExtractSkills(tax, ratio, resume);
    var js := ExtractSkills(tax, ratio, job);
    var matched := SortedOf(Elems(rs) * Elems(js));
    DistinctCard(js);
    SubsetCard(Elems(rs) * Elems(js), Elems(js));
    SkillSummary(rs, js, matched, CompareSkills(tax, rs, js), |Elems(js)|)
  }

  /** An escaped preview of the first `n` characters of the resume, or
      nothing when the resume is not to be shown. */
  function Preview(resume: string, n: nat, show: bool): (p: string)
    ensures show ==> Unescape(p) == Prefix(resume, n)
    ensures !show ==> p == []
    ensures '<' !in p && '>' !in p
  {
    if show then
      UnescapeEsc(Prefix(resume, n));
      Esc(Prefix(resume, n))
    else []
  }

  /** `analyze(pdf_file, jd_text, show_resume)`. `pdf` is absent when no
      file was uploaded and otherwise holds the text extracted from it;
      `jd` is absent when the text box holds `None`. The embedding
      similarity of the two chunk lists is the parameter `similarity`. */
  method Analyze(tax: Taxonomy, ratio: Ratio, similarity: (seq<string>, seq<string>) -> real,
                 pdf: Option<string>, jd: Option<string>, showResume: bool)
    returns (out: Outcome)
    ensures pdf.None? <==> out == Rejected(NoResume)
    ensures pdf.Some? && Strip(jd.GetOr("")) == [] <==> out == Rejected(NoJobDescription)
    ensures pdf.Some? && Strip(jd.GetOr("")) != [] && Strip(pdf.value) == [] <==> out == Rejected(UnreadableResume)
    ensures out.Analysed? ==>
              var a := out.analysis;
              var resume := pdf.value;
              var job := Strip(jd.GetOr(""));
              && a.skills == Summarise(tax, ratio, resume, job)
              && a.resumeWords == |Words(resume)| && a.jdWords == |Words(job)|
              && a.snippet == Preview(resume, SnippetLength, showResume)
              && a.raw == Preview(resume, RawLength, showResume)
              && GaugeOfSimilarity(similarity, resume, job, a.gauge)
              && 0.0 <= a.gauge.shown <= 100.0
  {
    if pdf.None? {
      return Rejected(NoResume);
    }
    var job := Strip(jd.GetOr(""));
    if job == [] {
      return Rejected(NoJobDescription);
    }
    var resume := pdf.value;
    if Strip(resume) == [] {
      return Rejected(UnreadableResume);
    }
    var skills := Summarise(tax, ratio, resume, job);
    var gauge := SimilarityGauge(similarity, resume, job);
    var snippet := Preview(resume, SnippetLength, showResume);
    var raw := Preview(resume, RawLength, showResume);
    return Analysed(Analysis(skills, |Words(resume)|, |Words(job)|, gauge, snippet, raw));
  }

  /** `gauge` is the score badge of the similarity, as a percentage, of the
      resume's and the job's chunkings with the default size and overlap
      (the chunkings are unique, by `ChunkingUnique`). */
  ghost predicate GaugeOfSimilarity(similarity: (seq<string>, seq<string>) -> real, resume: string, job: string, gauge: Gauge) {
    exists rc, jc ::
      && IsChunking(resume, ChunkSize, ChunkOverlap, rc)
      && IsChunking(job, ChunkSize, ChunkOverlap, jc)
      && gauge == ScoreBadge(Circumference, similarity(rc, jc) * 100.0)
  }

  /** The similarity gauge: both texts chunked as `chunk_text` does with
      its defaults, the similarity of the chunk lists as a percentage, drawn
      as the score badge. */
  method SimilarityGauge(similarity: (seq<string>, seq<string>) -> real, resume: string, job: string)
    returns (gauge: Gauge)
    ensures GaugeOfSimilarity(similarity, resume, job, gauge)
    ensures 0.0 <= gauge.shown <= 100.0
    ensures gauge.band == BandOf(gauge.shown)
  {
    var jdChunks := ChunkText(job, ChunkSize, ChunkOverlap);
    var resumeChunks := ChunkText(resume, ChunkSize, ChunkOverlap);
    var overall := similarity(resumeChunks, jdChunks) * 100.0;
    gauge := ScoreBadge(Circumference, overall);
    assert IsChunking(resume, ChunkSize, ChunkOverlap, resumeChunks);
    assert IsChunking(job, ChunkSize, ChunkOverlap, jdChunks);
  }

  /** A strictly sorted list has as many distinct elements as entries. */
  lemma {:induction false} DistinctCard(xs: seq<string>)
    requires StrictlySorted(xs)
    ensures |Elems(xs)| == |xs|
  {
    SortedOfSorted(xs);
  }

  /** On a well-formed, stable taxonomy the matched and missing lists split
      the job's skills: every job skill is in exactly one of them. */
  lemma MatchedMissingPartition(tax: Taxonomy, ratio: Ratio, resume: string, job: string)
    requires WellFormed(tax) && CanonStable(tax)
    ensures var m := Summarise(tax, ratio, resume, job);
            && Elems(m.matched) !! Elems(m.missing)
            && Elems(m.matched) + Elems(m.missing) == Elems(m.jdSkills)
  {
    var m := Summarise(tax, ratio, resume, job);
    ExtractSkillsCanonical(tax, ratio, resume);
    ExtractSkillsCanonical(tax, ratio, job);
    PartitionOfCanonicals(tax, m.resumeSkills, m.jdSkills, m.matched, m.missing);
  }

  /** The partition for any two lists of canonical names. */
  lemma PartitionOfCanonicals(tax: Taxonomy, rs: seq<string>, js: seq<string>, matched: seq<string>, missing: seq<string>)
    requires CanonStable(tax) && Elems(rs) <= Canonicals(tax) && Elems(js) <= Canonicals(tax)
    requires Elems(matched) == Elems(rs) * Elems(js)
    requires missing == CompareSkills(tax, rs, js)
    ensures Elems(matched) !! Elems(missing)
    ensures Elems(matched) + Elems(missing) == Elems(js)
  {
    NormSetOfCanonicals(tax, rs);
    NormSetOfCanonicals(tax, js);
    MissingIsDifference(tax, rs, js);
  }

  /** Over canonical names of a stable taxonomy, the missing list holds
      exactly the job skills the resume lacks. */
  lemma MissingIsDifference(tax: Taxonomy, rs: seq<string>, js: seq<string>)
    requires NormSet(tax, rs) == Elems(rs) && NormSet(tax, js) == Elems(js)
    ensures Elems(CompareSkills(tax, rs, js)) == Elems(js) - Elems(rs)
  {
    var missing := CompareSkills(tax, rs, js);
    forall s ensures s in Elems(missing) <==> s in Elems(js) - Elems(rs) {
      assert s in Elems(missing) <==> s in missing;
    }
  }
}
