/**
 Character classes and small string operations shared by the model: the
 regex classes `\s` and `\w`, ASCII lower-casing, `str.strip`, `str.split`,
 `" ".join` and substring search.
 */
module Text {

  /** Python's `str.isspace` (and the regex class `\s` on str patterns). */
  predicate IsSpace(c: char) {
    || c == ' '
    || ('\t' <= c <= '\r')
    || ('\U{1C}' <= c <= '\U{1F}')
    || c == '\U{85}'
    || c == '\U{A0}'
    || c == '\U{1680}'
    || ('\U{2000}' <= c <= '\U{200A}')
    || c == '\U{2028}'
    || c == '\U{2029}'
    || c == '\U{202F}'
    || c == '\U{205F}'
    || c == '\U{3000}'
  }

  predicate IsAsciiLetter(c: char) {
    ('a' <= c <= 'z') || ('A' <= c <= 'Z')
  }

  predicate IsDigit(c: char) {
    '0' <= c <= '9'
  }

  /** The regex class `\w`, restricted to ASCII. */
  predicate IsWordChar(c: char) {
    IsAsciiLetter(c) || IsDigit(c) || c == '_'
  }

  /** The two ASCII alphabets, letter for letter. */
  const UpperLetters: string := "ABCDEFGHIJKLMNOPQRSTUVWXYZ"
  const LowerLetters: string := "abcdefghijklmnopqrstuvwxyz"

  /** Letter `j` of each alphabet is `j` places after its first letter. */
  lemma LetterPositions()
    ensures |UpperLetters| == 26 && |LowerLetters| == 26
    ensures forall j :: 0 <= j < 26 ==>
              UpperLetters[j] as int == 'A' as int + j && LowerLetters[j] as int == 'a' as int + j
  {
  }

  /** The lower-case partner of an upper-case ASCII letter; every other
      character is its own. */
  function LowerChar(c: char): (r: char)
    ensures 'A' <= c <= 'Z' ==> 'a' <= r <= 'z'
    ensures !('A' <= c <= 'Z') ==> r == c
    ensures forall j :: 0 <= j < 26 && c == UpperLetters[j] ==> r == LowerLetters[j]
  {
    LetterPositions();
    if 'A' <= c <= 'Z' then (c as int + 32) as char else c
  }

  /** `str.lower()` on ASCII letters; every other character is kept. */
  function Lower(s: string): (r: string)
    ensures |r| == |s|
    ensures forall i :: 0 <= i < |r| ==> !('A' <= r[i] <= 'Z')
    ensures forall i :: 0 <= i < |s| && !('A' <= s[i] <= 'Z') ==> r[i] == s[i]
    ensures forall i, j :: 0 <= i < |s| && 0 <= j < 26 && s[i] == UpperLetters[j] ==> r[i] == LowerLetters[j]
  {
    seq(|s|, i requires 0 <= i < |s| => LowerChar(s[i]))
  }

  lemma LowerIdempotent(s: string)
    ensures Lower(Lower(s)) == Lower(s)
  {
  }

  lemma LowerAppend(a: string, b: string)
    ensures Lower(a + b) == Lower(a) + Lower(b)
  {
  }

  /** All characters of `s` satisfy `p`. */
  predicate All(s: string, p: char -> bool) {
    forall i :: 0 <= i < |s| ==> p(s[i])
  }

  /** Length of the longest prefix of `s` whose characters satisfy `p`. */
  function RunLength(s: string, p: char -> bool): (k: nat)
    ensures k <= |s|
    ensures All(s[..k], p)
    ensures k < |s| ==> !p(s[k])
    decreases |s|
  {
    if s != [] && p(s[0]) then 1 + RunLength(s[1..], p) else 0
  }

  /** `"".join(ws)`. */
  function Concat(ws: seq<string>): string {
    if ws == [] then [] else ws[0] + Concat(ws[1..])
  }

  /** The maximal runs of characters satisfying `p`, left to right
      (`re.findall` of `[...]+`, and `str.split()` for `p` = not-space). */
  function Runs(s: string, p: char -> bool): (r: seq<string>)
    ensures forall i :: 0 <= i < |r| ==> r[i] != [] && All(r[i], p)
    ensures Concat(r) == Filter(s, p)
    ensures s != [] && p(s[0]) ==> r != [] && r[0] == s[..RunLength(s, p)]
    decreases |s|
  {
    if s == [] then []
    else if !p(s[0]) then
      assert s == [s[0]] + s[1..];
      FilterAppend([s[0]], s[1..], p);
      Runs(s[1..], p)
    else
      var k := RunLength(s, p);
      var rest := Runs(s[k..], p);
      assert s == s[..k] + s[k..];
      FilterAppend(s[..k], s[k..], p);
      assert ([s[..k]] + rest)[1..] == rest;
      [s[..k]] + rest
  }

  /** Filtering distributes over concatenation. */
  lemma {:induction false} FilterAppend(a: string, b: string, p: char -> bool)
    ensures Filter(a + b, p) == Filter(a, p) + Filter(b, p)
    decreases |a|
  {
    if a == [] {
      assert a + b == b;
    } else {
      assert (a + b)[0] == a[0];
      assert (a + b)[1..] == a[1..] + b;
      FilterAppend(a[1..], b, p);
    }
  }

  /** A run stops at a character outside the class: appending text that
      starts with one does not lengthen it. */
  lemma {:induction false} RunLengthAppend(a: string, b: string, p: char -> bool)
    requires b == [] || !p(b[0])
    ensures RunLength(a + b, p) == RunLength(a, p)
    decreases |a|
  {
    if a == [] {
      assert a + b == b;
    } else {
      assert (a + b)[0] == a[0];
      assert (a + b)[1..] == a[1..] + b;
      RunLengthAppend(a[1..], b, p);
    }
  }

  /** Runs never cross a character outside the class: text split just
      before one has the runs of its two parts. */
  lemma {:induction false} RunsAppend(a: string, b: string, p: char -> bool)
    requires b == [] || !p(b[0])
    ensures Runs(a + b, p) == Runs(a, p) + Runs(b, p)
    decreases |a|
  {
    if a == [] {
      assert a + b == b;
    } else if !p(a[0]) {
      assert (a + b)[0] == a[0];
      assert (a + b)[1..] == a[1..] + b;
      RunsAppend(a[1..], b, p);
    } else {
      var k := RunLength(a, p);
      RunsAppend(a[k..], b, p);
      RunsAppendStep(a, b, p);
    }
  }

  /** The step of `RunsAppend` when `a` begins with a run: the run is the
      same in `a + b`, and the rest follows it. */
  lemma RunsAppendStep(a: string, b: string, p: char -> bool)
    requires b == [] || !p(b[0])
    requires a != [] && p(a[0])
    requires Runs(a[RunLength(a, p)..] + b, p) == Runs(a[RunLength(a, p)..], p) + Runs(b, p)
    ensures Runs(a + b, p) == Runs(a, p) + Runs(b, p)
  {
    var k := RunLength(a, p);
    var ab := a + b;
    RunLengthAppend(a, b, p);
    SliceOfAppend(a, b, k);
    RunsUnfold(ab, p);
    RunsUnfold(a, p);
    ConsAssoc(a[..k], Runs(a[k..], p), Runs(b, p));
  }

  lemma SliceOfAppend<T>(a: seq<T>, b: seq<T>, k: nat)
    requires k <= |a|
    ensures a != [] ==> (a + b)[0] == a[0]
    ensures (a + b)[..k] == a[..k] && (a + b)[k..] == a[k..] + b
  {
  }

  lemma ConsAssoc<T>(x: T, ys: seq<T>, zs: seq<T>)
    ensures [x] + (ys + zs) == ([x] + ys) + zs
  {
  }

  /** One step of `Runs` on a text that begins with a class character. */
  lemma RunsUnfold(t: string, p: char -> bool)
    requires StartsIn(t, p)
    ensures Runs(t, p) == [t[..RunLength(t, p)]] + Runs(t[RunLength(t, p)..], p)
  {
  }

  /** Characters outside the class in front of a text add no runs. */
  lemma {:induction false} RunsDropOutside(a: string, b: string, p: char -> bool)
    requires forall i :: 0 <= i < |a| ==> !p(a[i])
    ensures Runs(a + b, p) == Runs(b, p)
    decreases |a|
  {
    if a == [] {
      assert a + b == b;
    } else {
      assert (a + b)[0] == a[0];
      assert (a + b)[1..] == a[1..] + b;
      RunsDropOutside(a[1..], b, p);
    }
  }

  /** `t` begins with a class character. */
  predicate StartsIn(t: string, p: char -> bool) {
    t != [] && p(t[0])
  }

  /** A class character in front of a text joins the text's first run when
      the text begins with one, and forms a run of its own otherwise. */
  lemma RunsCons(c: char, t: string, p: char -> bool)
    requires p(c)
    ensures StartsIn(t, p) ==> Runs(t, p) != []
    ensures StartsIn(t, p) ==> Runs([c] + t, p) == [[c] + Runs(t, p)[0]] + Runs(t, p)[1..]
    ensures !StartsIn(t, p) ==> Runs([c] + t, p) == [[c]] + Runs(t, p)
  {
    var u := [c] + t;
    assert u[0] == c && u[1..] == t;
    var k := RunLength(u, p);
    assert k == 1 + RunLength(t, p);
    assert u[..k] == [c] + t[..k - 1];
    assert u[k..] == t[k - 1..];
    if StartsIn(t, p) {
      assert Runs(t, p) == [t[..k - 1]] + Runs(t[k - 1..], p);
    }
  }

  /** Texts with the same runs that agree on beginning with a class
      character still have the same runs after the same first character. */
  lemma RunsCongruent(c: char, t: string, u: string, p: char -> bool)
    requires Runs(t, p) == Runs(u, p) && (StartsIn(t, p) <==> StartsIn(u, p))
    ensures Runs([c] + t, p) == Runs([c] + u, p)
  {
    if p(c) {
      RunsCons(c, t, p);
      RunsCons(c, u, p);
    } else {
      assert ([c] + t)[1..] == t && ([c] + u)[1..] == u;
    }
  }

  /** Any character but Python whitespace. */
  predicate NotSpace(c: char) {
    !IsSpace(c)
  }

  /** `str.split()` with no argument: the whitespace-separated words. */
  function Words(s: string): (r: seq<string>)
    ensures forall i :: 0 <= i < |r| ==> r[i] != [] && All(r[i], NotSpace)
    ensures Concat(r) == Filter(s, NotSpace)
  {
    Runs(s, NotSpace)
  }

  lemma WordsHaveNoSpace(s: string)
    ensures forall i, j :: 0 <= i < |Words(s)| && 0 <= j < |Words(s)[i]| ==>
              !IsSpace(Words(s)[i][j])
  {
    var ws := Words(s);
    forall i, j | 0 <= i < |ws| && 0 <= j < |ws[i]|
      ensures !IsSpace(ws[i][j])
    {
      assert All(ws[i], NotSpace);
    }
  }

  /** `" ".join(ws)`. */
  function JoinSpaces(ws: seq<string>): string {
    if ws == [] then ""
    else if |ws| == 1 then ws[0]
    else ws[0] + " " + JoinSpaces(ws[1..])
  }

  /** Length of the longest suffix of `s` whose characters satisfy `p`. */
  function TrailingRunLength(s: string, p: char -> bool): (k: nat)
    ensures k <= |s|
    ensures All(s[|s| - k..], p)
    ensures k < |s| ==> !p(s[|s| - k - 1])
    decreases |s|
  {
    if s != [] && p(s[|s| - 1]) then
      var k := TrailingRunLength(s[..|s| - 1], p);
      TrailingStep(s, k, p);
      1 + k
    else 0
  }

  /** A run at the end of all but the last character grows by that
      character when it satisfies `p`. */
  lemma TrailingStep(s: string, k: nat, p: char -> bool)
    requires s != [] && k <= |s| - 1 && p(s[|s| - 1])
    requires All(s[..|s| - 1][|s| - 1 - k..], p)
    requires k < |s| - 1 ==> !p(s[..|s| - 1][|s| - 1 - k - 1])
    ensures All(s[|s| - (k + 1)..], p)
    ensures k + 1 < |s| ==> !p(s[|s| - (k + 1) - 1])
  {
    var prev := s[..|s| - 1][|s| - 1 - k..];
    var suf := s[|s| - (k + 1)..];
    assert suf == prev + [s[|s| - 1]];
    forall i | 0 <= i < |suf| ensures p(suf[i]) {
      if i < k {
        assert suf[i] == prev[i];
      }
    }
  }

  /** Index of the first character `str.strip()` keeps. */
  function StripStart(s: string): nat
  {
    RunLength(s, IsSpace)
  }

  /** Index just past the last character `str.strip()` keeps. */
  function StripEnd(s: string): (j: nat)
    ensures StripStart(s) <= j <= |s|
  {
    |s| - TrailingRunLength(s[StripStart(s)..], IsSpace)
  }

  /** `str.strip()`: drop leading and trailing whitespace. */
  function Strip(s: string): (r: string)
    ensures r == s[StripStart(s)..StripEnd(s)]
    ensures All(s[..StripStart(s)], IsSpace) && All(s[StripEnd(s)..], IsSpace)
    ensures r != [] ==> !IsSpace(r[0]) && !IsSpace(r[|r| - 1])
  {
    StripEnds(s);
    s[StripStart(s)..StripEnd(s)]
  }

  /** What `Strip` drops is whitespace, and what it keeps starts and ends
      with a non-space character. */
  lemma StripEnds(s: string)
    ensures All(s[..StripStart(s)], IsSpace) && All(s[StripEnd(s)..], IsSpace)
    ensures var r := s[StripStart(s)..StripEnd(s)];
            r != [] ==> !IsSpace(r[0]) && !IsSpace(r[|r| - 1])
  {
    var i := StripStart(s);
    var t := s[i..];
    var k := TrailingRunLength(t, IsSpace);
    assert t[|t| - k..] == s[StripEnd(s)..];
    var r := s[i..StripEnd(s)];
    assert r == t[..|t| - k];
    if r != [] {
      assert r[0] == s[i] && i < |s|;
      assert r[|r| - 1] == t[|t| - k - 1] && k < |t|;
    }
  }

  /** The one-character `str.replace(c, rep)`: every occurrence of `c` becomes `rep`. */
  function ReplaceChar(s: string, c: char, rep: string): (r: string)
    ensures forall i :: 0 <= i < |r| ==> r[i] in rep || (r[i] in s && r[i] != c)
    ensures c !in s ==> r == s
    decreases |s|
  {
    if s == [] then []
    else (if s[0] == c then rep else [s[0]]) + ReplaceChar(s[1..], c, rep)
  }

  /** The characters of `s` that satisfy `p`, in order. */
  function Filter(s: string, p: char -> bool): (r: string)
    ensures forall i :: 0 <= i < |r| ==> p(r[i]) && r[i] in s
    ensures All(s, p) ==> r == s
    decreases |s|
  {
    if s == [] then []
    else (if p(s[0]) then [s[0]] else []) + Filter(s[1..], p)
  }

  /** Python's `t in w` on strings. */
  predicate IsSubstring(t: string, w: string) {
    exists i :: 0 <= i <= |w| - |t| && OccursAt(t, w, i)
  }

  /** `t` occurs in `w` starting at index `i`. */
  predicate OccursAt(t: string, w: string, i: int) {
    0 <= i && i + |t| <= |w| && w[i..i + |t|] == t
  }
}
