/**
 The skill taxonomy and the lookup tables built from it once at start-up:
 the alias map (`ALIAS2CANON`) and the exact-match pattern table
 (`EXACT_PATTERNS`). The taxonomy itself is a parameter: an ordered list of
 entries, in the order the source's dictionary literal lists them.
 */
module Taxonomy {
  import opened Text

  /** One taxonomy entry: a canonical skill name and its alternate spellings. */
  datatype Entry = Entry(canon: string, aliases: set<string>)

  type Taxonomy = seq<Entry>

  /** `CANONICAL`: the set of canonical names. */
  function Canonicals(tax: Taxonomy): set<string> {
    set i | 0 <= i < |tax| :: tax[i].canon
  }

  /** The lower-cased surface forms of an entry: its canonical name and every
      alias. These are both the alias-map keys the entry writes and the fuzzy
      targets of the entry. */
  function Keys(e: Entry): set<string> {
    {Lower(e.canon)} + set a | a in e.aliases :: Lower(a)
  }

  /** What one entry writes into the alias map: each of its keys to its
      canonical name. */
  function EntryMap(e: Entry): map<string, string> {
    map k | k in Keys(e) :: e.canon
  }

  /** `ALIAS2CANON`: entries are written in order, each mapping all of its
      keys to its canonical name, so a later entry overwrites an earlier one
      on a shared key. */
  function AliasMap(tax: Taxonomy): (m: map<string, string>)
    ensures forall k :: k in m ==> m[k] in Canonicals(tax)
  {
    if tax == [] then map[]
    else
      var init := tax[..|tax| - 1];
      var last := tax[|tax| - 1];
      var m := AliasMap(init) + EntryMap(last);
      AliasMapValuesStep(tax, AliasMap(init), m);
      m
  }

  lemma AliasMapValuesStep(tax: Taxonomy, prev: map<string, string>, m: map<string, string>)
    requires tax != []
    requires forall k :: k in prev ==> prev[k] in Canonicals(tax[..|tax| - 1])
    requires m == prev + EntryMap(tax[|tax| - 1])
    ensures forall k :: k in m ==> m[k] in Canonicals(tax)
  {
    var init := tax[..|tax| - 1];
    forall k | k in m ensures m[k] in Canonicals(tax) {
      if k !in Keys(tax[|tax| - 1]) {
        var i :| 0 <= i < |init| && init[i].canon == prev[k];
        assert tax[i].canon == m[k];
      }
    }
  }

  /** The alias map's keys are exactly the entries' keys. */
  lemma {:induction false} AliasMapKeys(tax: Taxonomy, k: string)
    ensures k in AliasMap(tax) <==> exists i :: 0 <= i < |tax| && k in Keys(tax[i])
    decreases |tax|
  {
    if tax != [] {
      var init := tax[..|tax| - 1];
      AliasMapKeys(init, k);
      if exists i :: 0 <= i < |init| && k in Keys(init[i]) {
        var i :| 0 <= i < |init| && k in Keys(init[i]);
        assert init[i] == tax[i];
      }
      if exists i :: 0 <= i < |tax| && k in Keys(tax[i]) {
        var i :| 0 <= i < |tax| && k in Keys(tax[i]);
        if i < |init| { assert init[i] == tax[i]; }
      }
    }
  }

  /** Last writer wins: a key maps to the canonical name of the last entry
      that has it. */
  lemma {:induction false} AliasMapLastWriter(tax: Taxonomy, i: int, k: string)
    requires 0 <= i < |tax| && k in Keys(tax[i])
    requires forall j :: i < j < |tax| ==> k !in Keys(tax[j])
    ensures k in AliasMap(tax) && AliasMap(tax)[k] == tax[i].canon
    decreases |tax|
  {
    var init := tax[..|tax| - 1];
    if i < |tax| - 1 {
      assert forall j :: i < j < |init| ==> k !in Keys(init[j]) by {
        forall j | i < j < |init| ensures k !in Keys(init[j]) {
          assert init[j] == tax[j];
        }
      }
      AliasMapLastWriter(init, i, k);
      assert k !in Keys(tax[|tax| - 1]);
    }
  }

  /** `alias.split("__", 1)[0]`: the part of a pattern key before the first
      `"__"`, or the whole key when there is none. */
  function KeyCanon(key: string): (r: string)
    ensures |r| <= |key| && r == key[..|r|]
    decreases |key|
  {
    if |key| < 2 then key
    else if key[0] == '_' && key[1] == '_' then []
    else [key[0]] + KeyCanon(key[1..])
  }

  /** A name that survives being used as the prefix of a `"name__alias"`
      key: no `'_'` in it is followed by another `'_'` or ends the name. */
  predicate DunderFree(c: string) {
    forall i :: 0 <= i < |c| && c[i] == '_' ==> i + 1 < |c| && c[i + 1] != '_'
  }

  lemma {:induction false} KeyCanonOfComposite(c: string, alias: string)
    requires DunderFree(c)
    ensures KeyCanon(c + "__" + alias) == c
    decreases |c|
  {
    var key := c + "__" + alias;
    if c != [] {
      assert key[0] == c[0];
      assert key[1] == if |c| > 1 then c[1] else '_';
      assert !(key[0] == '_' && key[1] == '_');
      assert key[1..] == c[1..] + "__" + alias;
      assert DunderFree(c[1..]) by {
        forall i | 0 <= i < |c[1..]| && c[1..][i] == '_'
          ensures i + 1 < |c[1..]| && c[1..][i + 1] != '_'
        {
          assert c[i + 1] == '_';
        }
      }
      KeyCanonOfComposite(c[1..], alias);
    } else {
      assert key[0] == '_' && key[1] == '_';
    }
  }

  lemma {:induction false} KeyCanonOfName(c: string)
    requires DunderFree(c)
    ensures KeyCanon(c) == c
    decreases |c|
  {
    if |c| >= 2 {
      assert !(c[0] == '_' && c[1] == '_');
      assert DunderFree(c[1..]) by {
        forall i | 0 <= i < |c[1..]| && c[1..][i] == '_'
          ensures i + 1 < |c[1..]| && c[1..][i + 1] != '_'
        {
          assert c[i + 1] == '_';
        }
      }
      KeyCanonOfName(c[1..]);
      assert c == [c[0]] + c[1..];
    }
  }

  /** The structural facts the source's taxonomy literal has: canonical
      names are distinct, non-empty and can be recovered from a pattern key,
      and no alias is empty. */
  predicate WellFormed(tax: Taxonomy) {
    && (forall i, j :: 0 <= i < j < |tax| ==> tax[i].canon != tax[j].canon)
    && (forall i :: 0 <= i < |tax| ==> tax[i].canon != [] && DunderFree(tax[i].canon))
    && (forall i :: 0 <= i < |tax| ==> [] !in tax[i].aliases)
  }

  /** No canonical name is overwritten in the alias map by a later entry, so
      every canonical name normalises to itself. */
  predicate CanonStable(tax: Taxonomy) {
    forall i :: 0 <= i < |tax| ==>
      Lower(tax[i].canon) in AliasMap(tax) && AliasMap(tax)[Lower(tax[i].canon)] == tax[i].canon
  }

  /** One entry of `EXACT_PATTERNS`: the key and the literal it matches. */
  datatype Pattern = Pattern(key: string, literal: string)

  /** `EXACT_PATTERNS`: one pattern per canonical name, keyed by the name,
      and one per alias-map key that is not its own canonical name in lower
      case, keyed `"canon__alias"`. */
  function Patterns(tax: Taxonomy): (r: set<Pattern>)
    ensures forall k :: k in AliasMap(tax) ==>
              exists p :: p in r && (p.literal == k || Lower(p.literal) == k)
  {
    var m := AliasMap(tax);
    var r := (set i | 0 <= i < |tax| :: Pattern(tax[i].canon, tax[i].canon))
             + (set k | k in m && k != Lower(m[k]) :: Pattern(m[k] + "__" + k, k));
    forall k | k in m
      ensures exists p :: p in r && (p.literal == k || Lower(p.literal) == k)
    {
      if k != Lower(m[k]) {
        assert Pattern(m[k] + "__" + k, k) in r;
      } else {
        var i :| 0 <= i < |tax| && tax[i].canon == m[k];
        assert Pattern(m[k], m[k]) in r;
      }
    }
    r
  }

  /** Every pattern key names, before its `"__"`, a canonical skill. */
  lemma PatternKeysNameCanonicals(tax: Taxonomy, p: Pattern)
    requires WellFormed(tax)
    requires p in Patterns(tax)
    ensures KeyCanon(p.key) in Canonicals(tax)
  {
    var m := AliasMap(tax);
    if i :| 0 <= i < |tax| && p == Pattern(tax[i].canon, tax[i].canon) {
      KeyCanonOfName(tax[i].canon);
    } else {
      var k :| k in m && k != Lower(m[k]) && p == Pattern(m[k] + "__" + k, k);
      var i :| 0 <= i < |tax| && tax[i].canon == m[k];
      KeyCanonOfComposite(m[k], k);
    }
  }

  /** `ALIAS2CANON.get(s.lower(), s)`. */
  function NormSkill(tax: Taxonomy, s: string): (r: string)
    ensures r in Canonicals(tax) || r == s
    ensures CanonStable(tax) && s in Canonicals(tax) ==> r == s
  {
    var m := AliasMap(tax);
    if Lower(s) in m then m[Lower(s)] else s
  }

  /** An alias or name resolves to the canonical name of the last entry
      that has it, in any letter case. */
  lemma NormSkillResolves(tax: Taxonomy, s: string, i: int)
    requires 0 <= i < |tax| && Lower(s) in Keys(tax[i])
    requires forall j :: i < j < |tax| ==> Lower(s) !in Keys(tax[j])
    ensures NormSkill(tax, s) == tax[i].canon
  {
    AliasMapLastWriter(tax, i, Lower(s));
  }

  /** A string no entry has as a name or alias is kept as it is. */
  lemma NormSkillUnknown(tax: Taxonomy, s: string)
    requires forall i :: 0 <= i < |tax| ==> Lower(s) !in Keys(tax[i])
    ensures NormSkill(tax, s) == s
  {
    AliasMapKeys(tax, Lower(s));
  }

  /** The two entries of the source's taxonomy that share the key
      `"amazon cloudwatch"`, in their order. */
  const CloudWatchEntries: Taxonomy := [
    Entry("CloudWatch", {"amazon cloudwatch"}),
    Entry("Amazon CloudWatch", {})
  ]

  /** The alias `"amazon cloudwatch"` of CloudWatch is overwritten by the
      later canonical name Amazon CloudWatch. */
  lemma AmazonCloudWatchOverwritten()
    ensures "amazon cloudwatch" in Keys(CloudWatchEntries[0])
    ensures AliasMap(CloudWatchEntries)["amazon cloudwatch"] == "Amazon CloudWatch"
  {
    assert Lower("amazon cloudwatch") == "amazon cloudwatch";
    assert Lower("Amazon CloudWatch") == "amazon cloudwatch";
    AliasMapLastWriter(CloudWatchEntries, 1, "amazon cloudwatch");
  }
}
