/**
 Skill extraction: an exact, boundary-aware pass over the pattern table and a
 fuzzy pass over one- to three-token windows, plus the job-description
 variant that also mines requirement sections. The string-similarity ratio
 (`difflib.SequenceMatcher(a=w, b=t).ratio()`) is a parameter.
 */
module Extraction {
  import opened Wrappers
  import opened Text
  import opened Order
  import opened Normalize
  import opened Taxonomy

  /** The similarity ratio of a window and a target, both lower-cased. */
  type Ratio = (string, string) -> real

  // ---------------------------------------------------------------- exact pass

  /** `(?<![#\w])LIT(?![-\w])` with IGNORECASE matches `text` at index `i`. */
  predicate BoundaryMatchAt(text: string, lit: string, i: int) {
    && 0 <= i && i + |lit| <= |text|
    && Lower(text[i..i + |lit|]) == Lower(lit)
    && (i == 0 || !(text[i - 1] == '#' || IsWordChar(text[i - 1])))
    && (i + |lit| == |text| || !(text[i + |lit|] == '-' || IsWordChar(text[i + |lit|])))
  }

  /** `pattern.search(text)` finds a match. */
  predicate BoundaryMatch(text: string, lit: string) {
    exists i :: 0 <= i <= |text| - |lit| && BoundaryMatchAt(text, lit, i)
  }

  /** Matching ignores the case of the literal. */
  lemma BoundaryMatchIgnoresCase(text: string, lit: string)
    ensures BoundaryMatch(text, lit) <==> BoundaryMatch(text, Lower(lit))
  {
    var low := Lower(lit);
    LowerIdempotent(lit);
    if BoundaryMatch(text, lit) {
      var i :| 0 <= i <= |text| - |lit| && BoundaryMatchAt(text, lit, i);
      SameLowerMatchesAt(text, lit, low, i);
    }
    if BoundaryMatch(text, low) {
      var i :| 0 <= i <= |text| - |low| && BoundaryMatchAt(text, low, i);
      SameLowerMatchesAt(text, lit, low, i);
    }
  }

  /** Literals of one length that lower-case alike match at the same places. */
  lemma SameLowerMatchesAt(text: string, a: string, b: string, i: int)
    requires |a| == |b| && Lower(a) == Lower(b)
    ensures BoundaryMatchAt(text, a, i) <==> BoundaryMatchAt(text, b, i)
  {
  }

  /** The canonical names the exact pass adds: the key prefix of every
      pattern that matches. */
  function ExactHits(tax: Taxonomy, text: string): set<string> {
    set p | p in Patterns(tax) && BoundaryMatch(text, p.literal) :: KeyCanon(p.key)
  }

  // ---------------------------------------------------------------- fuzzy pass

  /** The ratio a target of `n` characters must reach: stricter for shorter
      targets. */
  function Threshold(n: nat): (r: real)
    ensures 0.86 <= r <= 0.92
  {
    if n >= 10 then 0.86 else if n >= 6 then 0.88 else 0.92
  }

  /** `_fuzzy_hit(window, target)`. */
  function FuzzyHit(ratio: Ratio, window: string, target: string): (hit: bool)
    ensures window == [] || target == [] ==> !hit
    ensures window != [] && target != [] && IsSubstring(Lower(target), Lower(window)) ==> hit
    ensures window != [] && target != [] && !IsSubstring(Lower(target), Lower(window)) ==>
              (hit <==> ratio(Lower(window), Lower(target)) >= Threshold(|target|))
  {
    if window == [] || target == [] then false
    else
      var t := Lower(target);
      var w := Lower(window);
      if IsSubstring(t, w) then true
      else
        var r := ratio(w, t);
        if |t| >= 10 then r >= 0.86
        else if |t| >= 6 then r >= 0.88
        else r >= 0.92
  }

  /** The acceptance threshold never rises as the target gets longer. */
  lemma ThresholdNonIncreasing(m: nat, n: nat)
    requires m <= n
    ensures Threshold(n) <= Threshold(m)
  {
  }

  /** A higher similarity ratio never turns a hit into a miss. */
  lemma FuzzyHitMonotoneInRatio(r1: Ratio, r2: Ratio, window: string, target: string)
    requires r1(Lower(window), Lower(target)) <= r2(Lower(window), Lower(target))
    requires FuzzyHit(r1, window, target)
    ensures FuzzyHit(r2, window, target)
  {
  }

  /** The quick containment check lets a one-letter target hit any window
      containing that letter, whatever the ratio: the target `"c"` (skill C)
      hits the window `"docker"`. */
  lemma ShortTargetHitsInsideWord(ratio: Ratio)
    ensures FuzzyHit(ratio, "docker", "c")
  {
    assert Lower("docker") == "docker";
    assert Lower("c") == "c";
    assert OccursAt("c", "docker", 2);
  }

  /** The fuzzy candidates: every token, and every two- and three-token
      window. */
  function Windows(tokens: seq<string>): set<string> {
    Elems(tokens) + Elems(NGrams(tokens, 2)) + Elems(NGrams(tokens, 3))
  }

  /** The normalised tokens of a text. */
  function NormalizedTokens(text: string): (r: seq<string>)
    ensures |r| == |Tokens(text)|
    ensures forall i :: 0 <= i < |r| ==> r[i] == Lower(Tokens(text)[i])
  {
    var ts := Tokens(text);
    forall i | 0 <= i < |ts| ensures NormalizeToken(ts[i]) == Lower(ts[i]) {
      NormalizeTokenOfToken(ts[i]);
    }
    seq(|ts|, i requires 0 <= i < |ts| => NormalizeToken(ts[i]))
  }

  /** Some window is a fuzzy hit for some key of the entry. */
  predicate FuzzyMatches(ratio: Ratio, windows: set<string>, e: Entry) {
    exists w, k :: w in windows && k in Keys(e) && FuzzyHit(ratio, w, k)
  }

  /** The canonical names the fuzzy pass adds to those the exact pass found. */
  function FuzzyHits(tax: Taxonomy, ratio: Ratio, windows: set<string>, exact: set<string>): set<string> {
    set i | 0 <= i < |tax| && tax[i].canon !in exact && FuzzyMatches(ratio, windows, tax[i]) :: tax[i].canon
  }

  /** The set `found` of `extract_skills` for an already cleaned text. */
  function Found(tax: Taxonomy, ratio: Ratio, clean: string): set<string> {
    var exact := ExactHits(tax, clean);
    exact + FuzzyHits(tax, ratio, Windows(NormalizedTokens(clean)), exact)
  }

  /** `extract_skills(text)`; the empty string also stands for `None`. */
  function ExtractSkills(tax: Taxonomy, ratio: Ratio, text: string): (r: seq<string>)
    ensures text == [] ==> r == []
    ensures StrictlySorted(r)
  {
    if text == [] then [] else SortedOf(Found(tax, ratio, CleanText(text)))
  }

  /** With a well-formed taxonomy every extracted skill is a canonical name. */
  lemma ExtractSkillsCanonical(tax: Taxonomy, ratio: Ratio, text: string)
    requires WellFormed(tax)
    ensures Elems(ExtractSkills(tax, ratio, text)) <= Canonicals(tax)
  {
    if text != [] {
      var clean := CleanText(text);
      forall c | c in ExactHits(tax, clean) ensures c in Canonicals(tax) {
        var p :| p in Patterns(tax) && BoundaryMatch(clean, p.literal) && c == KeyCanon(p.key);
        PatternKeysNameCanonicals(tax, p);
      }
    }
  }

  /** An exact hit on any alias-map key adds the canonical name the key maps to. */
  lemma ExactAliasHit(tax: Taxonomy, ratio: Ratio, text: string, k: string)
    requires WellFormed(tax)
    requires text != []
    requires k in AliasMap(tax)
    requires BoundaryMatch(CleanText(text), k)
    ensures AliasMap(tax)[k] in ExtractSkills(tax, ratio, text)
  {
    var m := AliasMap(tax);
    var clean := CleanText(text);
    var c := m[k];
    if k != Lower(c) {
      var p := Pattern(c + "__" + k, k);
      assert p in Patterns(tax);
      var i :| 0 <= i < |tax| && tax[i].canon == c;
      KeyCanonOfComposite(c, k);
      assert c in ExactHits(tax, clean);
    } else {
      var i :| 0 <= i < |tax| && tax[i].canon == c;
      var p := Pattern(c, c);
      assert p in Patterns(tax);
      BoundaryMatchIgnoresCase(clean, c);
      KeyCanonOfName(c);
      assert c in ExactHits(tax, clean);
    }
    assert c in Elems(ExtractSkills(tax, ratio, text));
  }

  /** A fuzzy hit of any window on any key of an entry adds the entry's
      canonical name. */
  lemma FuzzyEntryHit(tax: Taxonomy, ratio: Ratio, text: string, i: int, w: string, k: string)
    requires text != []
    requires 0 <= i < |tax|
    requires w in Windows(NormalizedTokens(CleanText(text)))
    requires k in Keys(tax[i])
    requires FuzzyHit(ratio, w, k)
    ensures tax[i].canon in ExtractSkills(tax, ratio, text)
  {
    var clean := CleanText(text);
    assert FuzzyMatches(ratio, Windows(NormalizedTokens(clean)), tax[i]);
    assert tax[i].canon in Found(tax, ratio, clean);
    assert tax[i].canon in Elems(ExtractSkills(tax, ratio, text));
  }

  /** The exact pass finds `c`: its canonical name, or an alias-map key
      that maps to it, matches the text at word boundaries. */
  predicate ExactSkillHit(tax: Taxonomy, clean: string, c: string) {
    || (exists i :: 0 <= i < |tax| && tax[i].canon == c && BoundaryMatch(clean, c))
    || (exists k :: k in AliasMap(tax) && AliasMap(tax)[k] == c && BoundaryMatch(clean, k))
  }

  /** The fuzzy pass finds `c`: some window of the normalised tokens is a
      fuzzy hit for a name or alias of an entry whose canonical name is `c`. */
  predicate FuzzySkillHit(tax: Taxonomy, ratio: Ratio, clean: string, c: string) {
    exists i :: 0 <= i < |tax| && tax[i].canon == c &&
      FuzzyMatches(ratio, Windows(NormalizedTokens(clean)), tax[i])
  }

  /** A skill is extracted exactly when the exact or the fuzzy pass finds
      it in the cleaned text. */
  lemma ExtractSkillsIffHit(tax: Taxonomy, ratio: Ratio, text: string, c: string)
    requires WellFormed(tax) && text != []
    ensures c in ExtractSkills(tax, ratio, text) <==>
              ExactSkillHit(tax, CleanText(text), c) || FuzzySkillHit(tax, ratio, CleanText(text), c)
  {
    if c in ExtractSkills(tax, ratio, text) {
      ExtractedIsHit(tax, ratio, text, c);
    }
    if ExactSkillHit(tax, CleanText(text), c) || FuzzySkillHit(tax, ratio, CleanText(text), c) {
      HitIsExtracted(tax, ratio, text, c);
    }
  }

  lemma ExtractedIsHit(tax: Taxonomy, ratio: Ratio, text: string, c: string)
    requires WellFormed(tax) && text != []
    requires c in ExtractSkills(tax, ratio, text)
    ensures ExactSkillHit(tax, CleanText(text), c) || FuzzySkillHit(tax, ratio, CleanText(text), c)
  {
    var clean := CleanText(text);
    assert c in Found(tax, ratio, clean);
    if c in ExactHits(tax, clean) {
      var p :| p in Patterns(tax) && BoundaryMatch(clean, p.literal) && c == KeyCanon(p.key);
      ExactPatternHit(tax, clean, p);
    }
  }

  /** A matching pattern is an exact hit for its key's canonical part. */
  lemma ExactPatternHit(tax: Taxonomy, clean: string, p: Pattern)
    requires WellFormed(tax)
    requires p in Patterns(tax) && BoundaryMatch(clean, p.literal)
    ensures ExactSkillHit(tax, clean, KeyCanon(p.key))
  {
    var m := AliasMap(tax);
    if i :| 0 <= i < |tax| && p == Pattern(tax[i].canon, tax[i].canon) {
      KeyCanonOfName(tax[i].canon);
    } else {
      var k :| k in m && k != Lower(m[k]) && p == Pattern(m[k] + "__" + k, k);
      var i :| 0 <= i < |tax| && tax[i].canon == m[k];
      KeyCanonOfComposite(m[k], k);
    }
  }

  lemma HitIsExtracted(tax: Taxonomy, ratio: Ratio, text: string, c: string)
    requires WellFormed(tax) && text != []
    requires ExactSkillHit(tax, CleanText(text), c) || FuzzySkillHit(tax, ratio, CleanText(text), c)
    ensures c in ExtractSkills(tax, ratio, text)
  {
    var clean := CleanText(text);
    if i :| 0 <= i < |tax| && tax[i].canon == c && BoundaryMatch(clean, c) {
      var p := Pattern(c, c);
      assert p in Patterns(tax);
      KeyCanonOfName(c);
      assert c in ExactHits(tax, clean);
      assert c in Elems(ExtractSkills(tax, ratio, text));
    } else if k :| k in AliasMap(tax) && AliasMap(tax)[k] == c && BoundaryMatch(clean, k) {
      ExactAliasHit(tax, ratio, text, k);
    } else {
      var i :| 0 <= i < |tax| && tax[i].canon == c &&
        FuzzyMatches(ratio, Windows(NormalizedTokens(clean)), tax[i]);
      var w, k :| w in Windows(NormalizedTokens(clean)) && k in Keys(tax[i]) && FuzzyHit(ratio, w, k);
      FuzzyEntryHit(tax, ratio, text, i, w, k);
    }
  }

  /** Extraction sees only the cleaned text: extracting from it again gives
      the same skills. */
  lemma ExtractSkillsOfCleaned(tax: Taxonomy, ratio: Ratio, text: string)
    requires CleanText(text) != []
    ensures ExtractSkills(tax, ratio, CleanText(text)) == ExtractSkills(tax, ratio, text)
  {
    CleanTextIdempotent(text);
  }

  /** The boundary rule does not keep the skill C out of "C++" or "C#": the
      letter is followed by `+` or `#`, neither of which is `-` or a word
      character. */
  lemma CMatchesBeforePlusAndHash()
    ensures BoundaryMatchAt("I use C++ and C# daily", "C", 6)
    ensures BoundaryMatchAt("I use C++ and C# daily", "C", 14)
  {
  }

  // ------------------------------------------------------ job-description variant

  /** The section headers, tried in this order at each position. */
  const SectionHeaders: seq<string> := [
    "Requirements", "Qualifications", "What you\U{2019}ll do",
    "What we look for", "Preferred", "Must have"
  ]

  /** The class `[:\s]`. */
  predicate IsSeparator(c: char) {
    c == ':' || IsSpace(c)
  }

  /** A header line starts at `p`: `\n[A-Z][^\n]{0,40}:` with IGNORECASE. */
  predicate HeaderLineAt(t: string, p: nat) {
    && p + 1 < |t| && t[p] == '\n' && IsAsciiLetter(t[p + 1])
    && exists q :: p + 2 <= q <= p + 42 && q < |t| && t[q] == ':' && '\n' !in t[p + 2..q]
  }

  /** The lookahead `(?=\n[A-Z][^\n]{0,40}:|\Z)` holds at `p`. */
  predicate SectionStops(t: string, p: nat) {
    p == |t| || HeaderLineAt(t, p)
  }

  /** The first position at or after `p` where a section may end: where the
      lazy `(.+?)` stops. */
  function FirstStop(t: string, p: nat): (q: nat)
    requires p <= |t|
    ensures p <= q <= |t| && SectionStops(t, q)
    ensures forall x :: p <= x < q ==> !SectionStops(t, x)
    decreases |t| - p
  {
    if SectionStops(t, p) then p else FirstStop(t, p + 1)
  }

  /** The match of `(H)[:\s]+(.+?)(?=...)` at `s` for one header `H`: the
      section text and the end of the match. */
  function MatchHeaderAt(t: string, s: nat, h: string): (r: Option<(string, nat)>)
    ensures r.Some? ==> s < r.value.1 <= |t|
    ensures r.Some? ==> exists x :: s < x < r.value.1 && r.value.0 == t[x..r.value.1]
  {
    var j := s + |h|;
    if !(j <= |t| && Lower(t[s..j]) == Lower(h)) then None
    else
      var k := j + RunLength(t[j..], IsSeparator);
      if k == j then None
      else if k < |t| then
        var p := FirstStop(t, k + 1);
        Some((t[k..p], p))
      else if k - 1 > j then
        // `[:\s]+` gives back one separator so that `(.+?)` is not empty
        assert t[k - 1..] == t[k - 1..|t|];
        Some((t[k - 1..], |t|))
      else None
  }

  /** The match at `s` with the first header that matches there. */
  function MatchAt(t: string, s: nat, hs: seq<string>): (r: Option<(string, nat)>)
    ensures r.Some? ==> s < r.value.1 <= |t|
    ensures r.Some? ==> exists x :: s < x < r.value.1 && r.value.0 == t[x..r.value.1]
  {
    if hs == [] then None
    else
      var m := MatchHeaderAt(t, s, hs[0]);
      if m.Some? then m else MatchAt(t, s, hs[1..])
  }

  /** `re.findall(...)` from position `s`: the section texts, left to right,
      each search resuming where the previous match ended. */
  function SectionsFrom(t: string, s: nat): (r: seq<string>)
    ensures forall sec :: sec in r ==> exists x, y :: s < x < y <= |t| && sec == t[x..y]
    decreases |t| - s
  {
    if s >= |t| then []
    else
      match MatchAt(t, s, SectionHeaders)
      case None => SectionsFrom(t, s + 1)
      case Some((body, p)) =>
        var rest := SectionsFrom(t, p);
        assert exists x :: s < x < p && body == t[x..p];
        [body] + rest
  }

  /** `re.findall` of the section pattern over the whole text: every
      section is a non-empty piece of the text after its first character. */
  function Sections(t: string): (r: seq<string>)
    ensures forall sec :: sec in r ==> sec != [] && exists x, y :: 0 < x < y <= |t| && sec == t[x..y]
  {
    SectionsFrom(t, 0)
  }

  /** Without newlines a section can only end at the end of the text. */
  lemma NoNewlineStopsAtEnd(t: string, p: nat)
    requires '\n' !in t
    requires p <= |t|
    ensures FirstStop(t, p) == |t|
  {
  }

  /** On text without newlines (the cleaner's output) there is at most one
      section, and it runs to the end of the text. */
  lemma {:induction false} SectionsWithoutNewlines(t: string, s: nat)
    requires '\n' !in t
    ensures |SectionsFrom(t, s)| <= 1
    ensures forall sec :: sec in SectionsFrom(t, s) ==>
              sec != [] && exists x :: s < x < |t| && sec == t[x..]
    decreases |t| - s
  {
    if s < |t| {
      var m := MatchAt(t, s, SectionHeaders);
      if m.None? {
        SectionsWithoutNewlines(t, s + 1);
      } else {
        MatchAtEndsAtEnd(t, s, SectionHeaders);
        assert SectionsFrom(t, m.value.1) == [];
        var x :| s < x < m.value.1 && m.value.0 == t[x..m.value.1];
        assert m.value.0 == t[x..];
        assert SectionsFrom(t, s) == [m.value.0];
      }
    }
  }

  lemma {:induction false} MatchAtEndsAtEnd(t: string, s: nat, hs: seq<string>)
    requires '\n' !in t
    requires MatchAt(t, s, hs).Some?
    ensures MatchAt(t, s, hs).value.1 == |t|
    ensures MatchAt(t, s, hs).value.0 != []
    decreases |hs|
  {
    var m := MatchHeaderAt(t, s, hs[0]);
    if m.Some? {
      var j := s + |hs[0]|;
      var k := j + RunLength(t[j..], IsSeparator);
      if k < |t| {
        NoNewlineStopsAtEnd(t, k + 1);
      }
    } else {
      MatchAtEndsAtEnd(t, s, hs[1..]);
    }
  }

  /** Plain extraction finds `c` in one of the sections `secs`. */
  predicate FoundInSection(tax: Taxonomy, ratio: Ratio, secs: seq<string>, c: string) {
    exists sec :: sec in secs && c in ExtractSkills(tax, ratio, sec)
  }

  /** The skills of every section, pooled. */
  function SectionSkills(tax: Taxonomy, ratio: Ratio, secs: seq<string>): (r: set<string>)
    ensures forall c :: c in r <==> FoundInSection(tax, ratio, secs, c)
    decreases |secs|
  {
    if secs == [] then {}
    else
      var r := Elems(ExtractSkills(tax, ratio, secs[0])) + SectionSkills(tax, ratio, secs[1..]);
      assert forall sec :: sec in secs <==> sec == secs[0] || sec in secs[1..];
      r
  }

  /** `extract_jd_skills(text)`: the skills of the cleaned text together
      with the skills of each requirement section, sorted. */
  function ExtractJdSkills(tax: Taxonomy, ratio: Ratio, text: string): (r: seq<string>)
    ensures text == [] ==> r == []
    ensures StrictlySorted(r)
    ensures Elems(ExtractSkills(tax, ratio, CleanText(text))) <= Elems(r)
  {
    if text == [] then []
    else
      var clean := CleanText(text);
      var main := ExtractSkills(tax, ratio, clean);
      SortedOf(Elems(main) + SectionSkills(tax, ratio, Sections(clean)))
  }

  /** A skill is a job-description skill exactly when plain extraction
      finds it in the cleaned text or in one of its requirement sections. */
  lemma ExtractJdSkillsIff(tax: Taxonomy, ratio: Ratio, text: string, c: string)
    requires text != []
    ensures c in ExtractJdSkills(tax, ratio, text) <==>
              || c in ExtractSkills(tax, ratio, CleanText(text))
              || FoundInSection(tax, ratio, Sections(CleanText(text)), c)
  {
    var clean := CleanText(text);
    var main := ExtractSkills(tax, ratio, clean);
    var secs := Sections(clean);
    assert ExtractJdSkills(tax, ratio, text) == SortedOf(Elems(main) + SectionSkills(tax, ratio, secs));
    UnionMember(main, SectionSkills(tax, ratio, secs), c);
  }

  lemma UnionMember(main: seq<string>, more: set<string>, c: string)
    ensures c in SortedOf(Elems(main) + more) <==> c in main || c in more
  {
    SortedMembers(Elems(main) + more);
  }

  lemma SortedMembers(s: set<string>)
    ensures forall c :: c in SortedOf(s) <==> c in s
  {
    var r := SortedOf(s);
    assert forall c :: c in r <==> c in Elems(r);
  }

  /** A job-description skill is found either in the whole cleaned text or
      in a proper suffix of it, the one requirement section. */
  lemma JdSkillsFromSuffixes(tax: Taxonomy, ratio: Ratio, text: string, c: string)
    requires c in ExtractJdSkills(tax, ratio, text)
    ensures var clean := CleanText(text);
            || c in ExtractSkills(tax, ratio, clean)
            || exists x :: 0 < x < |clean| && c in ExtractSkills(tax, ratio, clean[x..])
  {
    var clean := CleanText(text);
    JdSectionsRunToEnd(text);
    ExtractJdSkillsIff(tax, ratio, text, c);
    if c !in ExtractSkills(tax, ratio, clean) {
      assert FoundInSection(tax, ratio, Sections(clean), c);
      var sec :| sec in Sections(clean) && c in ExtractSkills(tax, ratio, sec);
      var x :| 0 < x < |clean| && sec == clean[x..];
    }
  }

  /** The cleaner removes every newline, so the header-line stop never
      fires: a job description yields at most one section, running from its
      header to the end of the text. */
  lemma JdSectionsRunToEnd(text: string)
    ensures |Sections(CleanText(text))| <= 1
    ensures forall sec :: sec in Sections(CleanText(text)) ==>
              sec != [] && exists x :: 0 < x < |CleanText(text)| && sec == CleanText(text)[x..]
  {
    var clean := CleanText(text);
    assert '\n' !in clean by {
      forall i | 0 <= i < |clean| ensures clean[i] != '\n' {
        assert IsSpace(clean[i]) ==> clean[i] == ' ';
      }
    }
    SectionsWithoutNewlines(clean, 0);
  }

  /** The job-description skills contain what plain extraction finds. */
  lemma JdSkillsContainSkills(tax: Taxonomy, ratio: Ratio, text: string)
    requires CleanText(text) != []
    ensures Elems(ExtractSkills(tax, ratio, text)) <= Elems(ExtractJdSkills(tax, ratio, text))
  {
    ExtractSkillsOfCleaned(tax, ratio, text);
  }

  lemma {:induction false} SectionSkillsCanonical(tax: Taxonomy, ratio: Ratio, secs: seq<string>)
    requires WellFormed(tax)
    ensures SectionSkills(tax, ratio, secs) <= Canonicals(tax)
    decreases |secs|
  {
    if secs != [] {
      ExtractSkillsCanonical(tax, ratio, secs[0]);
      SectionSkillsCanonical(tax, ratio, secs[1..]);
    }
  }

  /** With a well-formed taxonomy every job-description skill is a
      canonical name. */
  lemma ExtractJdSkillsCanonical(tax: Taxonomy, ratio: Ratio, text: string)
    requires WellFormed(tax)
    ensures Elems(ExtractJdSkills(tax, ratio, text)) <= Canonicals(tax)
  {
    if text != [] {
      var clean := CleanText(text);
      ExtractSkillsCanonical(tax, ratio, clean);
      SectionSkillsCanonical(tax, ratio, Sections(clean));
    }
  }
}
