/**
 Text normalisation ahead of skill extraction: the cleaner applied to whole
 documents, the per-token normaliser, tokenisation and n-gram windows.
 */
module Normalize {
  import opened Text

  /** The bullet glyphs the cleaner turns into spaces. */
  predicate IsBullet(c: char) {
    || c == '\U{2022}'
    || c == '\U{B7}'
    || c == '\U{25CF}'
    || c == '\U{25AA}'
    || c == '\U{25BA}'
    || c == '\U{25B6}'
  }

  const NoBreakSpace: char := '\U{A0}'

  /** `re.sub(P + "+", " ", s)` for a character class `P`: every maximal
      run of class characters becomes a single plain space. */
  function CollapseRuns(s: string, p: char -> bool): (r: string)
    ensures forall i :: 0 <= i < |r| ==> r[i] == ' ' || (!p(r[i]) && r[i] in s)
    ensures forall i :: 0 <= i < |r| - 1 ==> !(p(r[i]) && p(r[i + 1]))
    ensures s != [] && !p(s[0]) ==> r != [] && r[0] == s[0]
    decreases |s|
  {
    if s == [] then []
    else if p(s[0]) then
      var k := RunLength(s, p);
      var rest := CollapseRuns(s[k..], p);
      assert k < |s| ==> !p(s[k]);
      " " + rest
    else
      var rest := CollapseRuns(s[1..], p);
      [s[0]] + rest
  }

  /** A string the cleaner leaves as it is: no bullet glyph, every
      whitespace character a plain space, no two whitespace characters in a
      row, and none at either end. */
  predicate IsClean(t: string) {
    && (forall i :: 0 <= i < |t| ==> !IsBullet(t[i]) && (IsSpace(t[i]) ==> t[i] == ' '))
    && (forall i :: 0 <= i < |t| - 1 ==> !(IsSpace(t[i]) && IsSpace(t[i + 1])))
    && (t != [] ==> !IsSpace(t[0]) && !IsSpace(t[|t| - 1]))
  }

  /** A character of a word the cleaner keeps: neither whitespace nor a
      bullet glyph. */
  predicate IsWordPart(c: char) {
    !IsSpace(c) && !IsBullet(c)
  }

  /** `_clean_text`: no-break spaces and bullet runs become spaces, runs of
      whitespace collapse to one space, and the ends are stripped. The
      result is the text's words, split at whitespace and bullets, joined by
      single spaces. */
  function CleanText(s: string): (r: string)
    ensures IsClean(r)
    ensures NoBreakSpace !in r
    ensures r == JoinSpaces(Runs(s, IsWordPart))
  {
    var s2 := CollapseRuns(ReplaceChar(s, NoBreakSpace, " "), IsBullet);
    var s3 := CollapseRuns(s2, IsSpace);
    CollapsedSpacesArePlain(s2, s3);
    StripKeepsPlain(s3);
    CleanStagesKeepWords(s);
    Strip(s3)
  }

  /** The cleaner's stages keep the words: replacing, collapsing and
      stripping leave the runs of word characters as they are, and the
      clean result is those runs joined by single spaces. */
  lemma CleanStagesKeepWords(s: string)
    ensures var s3 := CollapseRuns(CollapseRuns(ReplaceChar(s, NoBreakSpace, " "), IsBullet), IsSpace);
            Strip(s3) == JoinSpaces(Runs(s, IsWordPart))
  {
    var s3 := CollapseRuns(CollapseRuns(ReplaceChar(s, NoBreakSpace, " "), IsBullet), IsSpace);
    StagesKeepRuns(s);
    StagesAreClean(s);
    StrippedCleanJoin(s, s3);
  }

  /** The collapsed text, stripped, is clean. */
  lemma StagesAreClean(s: string)
    ensures var s3 := CollapseRuns(CollapseRuns(ReplaceChar(s, NoBreakSpace, " "), IsBullet), IsSpace);
            IsClean(Strip(s3))
  {
    var s2 := CollapseRuns(ReplaceChar(s, NoBreakSpace, " "), IsBullet);
    var s3 := CollapseRuns(s2, IsSpace);
    CollapsedSpacesArePlain(s2, s3);
    StripKeepsPlain(s3);
  }

  /** A text with the words of `s` that is clean once stripped is, stripped,
      the words of `s` joined by single spaces. */
  lemma StrippedCleanJoin(s: string, t: string)
    requires IsClean(Strip(t)) && Runs(t, IsWordPart) == Runs(s, IsWordPart)
    ensures Strip(t) == JoinSpaces(Runs(s, IsWordPart))
  {
    StripKeepsRuns(t);
    CleanJoin(Strip(t));
  }

  /** The replacing and collapsing stages keep the words. */
  lemma StagesKeepRuns(s: string)
    ensures var s3 := CollapseRuns(CollapseRuns(ReplaceChar(s, NoBreakSpace, " "), IsBullet), IsSpace);
            Runs(s3, IsWordPart) == Runs(s, IsWordPart)
  {
    var s1 := ReplaceChar(s, NoBreakSpace, " ");
    var s2 := CollapseRuns(s1, IsBullet);
    ReplaceKeepsRuns(s, NoBreakSpace, IsWordPart);
    CollapseRunsKeepsRuns(s1, IsBullet, IsWordPart);
    CollapseRunsKeepsRuns(s2, IsSpace, IsWordPart);
  }

  /** Replacing a non-word character with a space keeps the runs of any
      class that contains neither. */
  lemma {:induction false} ReplaceKeepsRuns(s: string, c: char, q: char -> bool)
    requires !q(c) && !q(' ')
    ensures Runs(ReplaceChar(s, c, " "), q) == Runs(s, q)
    ensures StartsIn(ReplaceChar(s, c, " "), q) <==> StartsIn(s, q)
    decreases |s|
  {
    if s != [] {
      ReplaceKeepsRuns(s[1..], c, q);
      ReplacedStep(s, c, q);
    }
  }

  /** The step of `ReplaceKeepsRuns` at the first character. */
  lemma ReplacedStep(s: string, c: char, q: char -> bool)
    requires !q(c) && !q(' ') && s != []
    requires Runs(ReplaceChar(s[1..], c, " "), q) == Runs(s[1..], q)
    requires StartsIn(ReplaceChar(s[1..], c, " "), q) <==> StartsIn(s[1..], q)
    ensures Runs(ReplaceChar(s, c, " "), q) == Runs(s, q)
    ensures StartsIn(ReplaceChar(s, c, " "), q) <==> StartsIn(s, q)
  {
    ReplaceCharHead(s, c);
    SameRunsBehindHeads(ReplaceChar(s, c, " "), s, q);
  }

  lemma ReplaceCharHead(s: string, c: char)
    requires s != []
    ensures var r := ReplaceChar(s, c, " ");
            && r != [] && r[0] == (if s[0] == c then ' ' else s[0])
            && r[1..] == ReplaceChar(s[1..], c, " ")
  {
    var r := ReplaceChar(s, c, " ");
    assert r == [if s[0] == c then ' ' else s[0]] + ReplaceChar(s[1..], c, " ");
  }

  /** Texts whose tails have the same runs, and agree on beginning with a
      class character, have the same runs when their heads are equal or
      both outside the class. */
  lemma SameRunsBehindHeads(a: string, b: string, q: char -> bool)
    requires a != [] && b != []
    requires a[0] == b[0] || (!q(a[0]) && !q(b[0]))
    requires Runs(a[1..], q) == Runs(b[1..], q)
    requires StartsIn(a[1..], q) <==> StartsIn(b[1..], q)
    ensures Runs(a, q) == Runs(b, q)
    ensures StartsIn(a, q) <==> StartsIn(b, q)
  {
    assert a == [a[0]] + a[1..] && b == [b[0]] + b[1..];
    if a[0] == b[0] {
      RunsCongruent(a[0], a[1..], b[1..], q);
    } else {
      RunsDropOutside([a[0]], a[1..], q);
      RunsDropOutside([b[0]], b[1..], q);
    }
  }

  /** A string without class characters is left as it is. */
  lemma {:induction false} CollapseRunsOutside(s: string, p: char -> bool)
    requires forall i :: 0 <= i < |s| ==> !p(s[i])
    ensures CollapseRuns(s, p) == s
    decreases |s|
  {
    if s != [] {
      CollapseRunsKeepHead(s, p);
      CollapseRunsOutside(s[1..], p);
    }
  }

  /** A whole non-empty run of class characters becomes exactly one space. */
  lemma {:induction false} CollapseRunsOfRun(s: string, p: char -> bool)
    requires s != [] && All(s, p)
    ensures CollapseRuns(s, p) == " "
  {
    RunLengthOfAll(s, p);
    CollapseRunsHead(s, p, |s|);
    assert s[|s|..] == [];
  }

  lemma {:induction false} RunLengthOfAll(s: string, p: char -> bool)
    requires All(s, p)
    ensures RunLength(s, p) == |s|
    decreases |s|
  {
    if s != [] {
      assert All(s[1..], p);
      RunLengthOfAll(s[1..], p);
    }
  }

  /** Collapsing works piece by piece on pieces cut where no run of the
      class is split. With the two lemmas above this fixes the result on
      every string: each maximal run becomes one space, and every other
      character stays where it is. */
  lemma {:induction false} CollapseRunsAppend(a: string, b: string, p: char -> bool)
    requires a == [] || b == [] || !p(a[|a| - 1]) || !p(b[0])
    ensures CollapseRuns(a + b, p) == CollapseRuns(a, p) + CollapseRuns(b, p)
    decreases |a|
  {
    if a == [] {
      assert a + b == b;
    } else {
      var k := if p(a[0]) then RunLength(a, p) else 1;
      assert a[k..] == [] || a[k..][|a[k..]| - 1] == a[|a| - 1];
      CollapseRunsAppend(a[k..], b, p);
      if p(a[0]) {
        CollapseRunAppendStep(a, b, p, k);
      } else {
        CollapseKeptAppendStep(a, b, p);
      }
    }
  }

  lemma {:induction false} CollapseRunAppendStep(a: string, b: string, p: char -> bool, k: nat)
    requires a != [] && p(a[0]) && k == RunLength(a, p)
    requires b == [] || !p(a[|a| - 1]) || !p(b[0])
    requires CollapseRuns(a[k..] + b, p) == CollapseRuns(a[k..], p) + CollapseRuns(b, p)
    ensures CollapseRuns(a + b, p) == CollapseRuns(a, p) + CollapseRuns(b, p)
  {
    RunHeadOfAppend(a, b, p, k);
    CollapseRunsHead(a, p, k);
    SpaceAssoc(CollapseRuns(a + b, p), CollapseRuns(a, p), CollapseRuns(a[k..], p), CollapseRuns(b, p));
  }

  lemma {:induction false} RunHeadOfAppend(a: string, b: string, p: char -> bool, k: nat)
    requires a != [] && p(a[0]) && k == RunLength(a, p)
    requires b == [] || !p(a[|a| - 1]) || !p(b[0])
    ensures CollapseRuns(a + b, p) == " " + CollapseRuns(a[k..] + b, p)
  {
    var ab := a + b;
    RunLengthAppend(a, b, p);
    assert ab[0] == a[0];
    assert ab[k..] == a[k..] + b;
    CollapseRunsHead(ab, p, k);
  }

  lemma SpaceAssoc(xy: string, sx: string, x: string, y: string)
    requires xy == " " + (x + y) && sx == " " + x
    ensures xy == sx + y
  {
  }

  lemma {:induction false} RunLengthAppend(a: string, b: string, p: char -> bool)
    requires a != [] && (b == [] || !p(a[|a| - 1]) || !p(b[0]))
    ensures RunLength(a + b, p) == RunLength(a, p)
    decreases |a|
  {
    assert (a + b)[0] == a[0];
    if p(a[0]) {
      assert (a + b)[1..] == a[1..] + b;
      if a[1..] == [] {
        assert a[1..] + b == b;
      } else {
        assert a[1..][|a[1..]| - 1] == a[|a| - 1];
        RunLengthAppend(a[1..], b, p);
      }
    }
  }

  lemma {:induction false} CollapseKeptAppendStep(a: string, b: string, p: char -> bool)
    requires a != [] && !p(a[0])
    requires CollapseRuns(a[1..] + b, p) == CollapseRuns(a[1..], p) + CollapseRuns(b, p)
    ensures CollapseRuns(a + b, p) == CollapseRuns(a, p) + CollapseRuns(b, p)
  {
    KeptHeadOfAppend(a, b, p);
    KeptHeadOfAppend(a, [], p);
    assert a + [] == a && a[1..] + [] == a[1..];
    CharAssoc(CollapseRuns(a + b, p), CollapseRuns(a, p), a[0], CollapseRuns(a[1..], p), CollapseRuns(b, p));
  }

  lemma {:induction false} KeptHeadOfAppend(a: string, b: string, p: char -> bool)
    requires a != [] && !p(a[0])
    ensures CollapseRuns(a + b, p) == [a[0]] + CollapseRuns(a[1..] + b, p)
  {
    var ab := a + b;
    assert ab[0] == a[0];
    assert ab[1..] == a[1..] + b;
    CollapseRunsKeepHead(ab, p);
    var r := CollapseRuns(ab, p);
    assert r == [r[0]] + r[1..];
  }

  lemma CharAssoc(xy: string, cx: string, c: char, x: string, y: string)
    requires xy == [c] + (x + y) && cx == [c] + x
    ensures xy == cx + y
  {
  }

  /** A bullet between two letters becomes one space, not two. */
  lemma BulletBecomesOneSpace()
    ensures CollapseRuns("a\U{2022}b", IsBullet) == "a b"
  {
    var s := "a\U{2022}b";
    assert s == "a" + "\U{2022}" + "b";
    CollapseRunsOutside("a", IsBullet);
    CollapseRunsOfRun("\U{2022}", IsBullet);
    CollapseRunsOutside("b", IsBullet);
    CollapseRunsAppend("a", "\U{2022}", IsBullet);
    CollapseRunsAppend("a" + "\U{2022}", "b", IsBullet);
  }

  /** Collapsing the runs of a class into single spaces keeps the runs of
      every class that excludes it and the space: the words between the
      collapsed runs survive, in order. */
  lemma {:induction false} CollapseRunsKeepsRuns(t: string, p: char -> bool, q: char -> bool)
    requires forall c :: p(c) ==> !q(c)
    requires !q(' ')
    ensures Runs(CollapseRuns(t, p), q) == Runs(t, q)
    ensures StartsIn(CollapseRuns(t, p), q) <==> StartsIn(t, q)
    decreases |t|
  {
    if t != [] {
      if p(t[0]) {
        var k := RunLength(t, p);
        CollapseRunsKeepsRuns(t[k..], p, q);
        CollapsedRunStep(t, p, q, k);
      } else {
        CollapseRunsKeepsRuns(t[1..], p, q);
        CollapseRunsKeepHead(t, p);
        SameRunsBehindHeads(CollapseRuns(t, p), t, q);
      }
    }
  }

  /** The step of `CollapseRunsKeepsRuns` over a leading run of `p`, which
      becomes one space. */
  lemma CollapsedRunStep(t: string, p: char -> bool, q: char -> bool, k: nat)
    requires forall c :: p(c) ==> !q(c)
    requires !q(' ')
    requires t != [] && p(t[0]) && k == RunLength(t, p)
    requires Runs(CollapseRuns(t[k..], p), q) == Runs(t[k..], q)
    ensures Runs(CollapseRuns(t, p), q) == Runs(t, q)
    ensures !StartsIn(CollapseRuns(t, p), q) && !StartsIn(t, q)
  {
    var rest := CollapseRuns(t[k..], p);
    CollapseRunsHead(t, p, k);
    RunsDropOutside(" ", rest, q);
    LeadingRunHasNoRuns(t, p, q, k);
  }

  lemma CollapseRunsKeepHead(t: string, p: char -> bool)
    requires t != [] && !p(t[0])
    ensures var r := CollapseRuns(t, p);
            r != [] && r[0] == t[0] && r[1..] == CollapseRuns(t[1..], p)
  {
    var r := CollapseRuns(t, p);
    assert r == [t[0]] + CollapseRuns(t[1..], p);
  }

  lemma CollapseRunsHead(t: string, p: char -> bool, k: nat)
    requires t != [] && p(t[0]) && k == RunLength(t, p)
    ensures CollapseRuns(t, p) == " " + CollapseRuns(t[k..], p)
  {
  }

  /** A leading run of `p` adds no runs of a class disjoint from `p`. */
  lemma LeadingRunHasNoRuns(t: string, p: char -> bool, q: char -> bool, k: nat)
    requires forall c :: p(c) ==> !q(c)
    requires k == RunLength(t, p)
    ensures Runs(t, q) == Runs(t[k..], q)
  {
    var head := t[..k];
    assert forall i :: 0 <= i < |head| ==> !q(head[i]) by {
      assert All(head, p);
    }
    assert t == head + t[k..];
    RunsDropOutside(head, t[k..], q);
  }

  /** Stripping whitespace keeps the words. */
  lemma StripKeepsRuns(t: string)
    ensures Runs(Strip(t), IsWordPart) == Runs(t, IsWordPart)
  {
    var a := StripStart(t);
    var b := StripEnd(t);
    SplitThree(t, a, b);
    SpacesAreNoWordParts(t[..a]);
    SpacesAreNoWordParts(t[b..]);
    RunsOfPadded(t[..a], t[a..b], t[b..], IsWordPart);
  }

  lemma SplitThree(t: string, a: nat, b: nat)
    requires a <= b <= |t|
    ensures t == t[..a] + t[a..b] + t[b..]
  {
  }

  lemma SpacesAreNoWordParts(x: string)
    requires All(x, IsSpace)
    ensures forall i :: 0 <= i < |x| ==> !IsWordPart(x[i])
  {
  }

  /** Characters outside `p` on either side of a text add no runs. */
  lemma RunsOfPadded(x: string, m: string, y: string, p: char -> bool)
    requires forall i :: 0 <= i < |x| ==> !p(x[i])
    requires forall i :: 0 <= i < |y| ==> !p(y[i])
    ensures Runs(x + m + y, p) == Runs(m, p)
  {
    assert x + m + y == x + (m + y);
    RunsDropOutside(x, m + y, p);
    RunsAppend(m, y, p);
    assert y + [] == y;
    RunsDropOutside(y, [], p);
  }

  /** A clean text is its words joined by single spaces. */
  lemma {:induction false} CleanJoin(t: string)
    requires IsClean(t)
    ensures JoinSpaces(Runs(t, IsWordPart)) == t
    decreases |t|
  {
    if t != [] {
      var k := RunLength(t, IsWordPart);
      RunsUnfold(t, IsWordPart);
      if k == |t| {
        assert t[..k] == t && t[k..] == [];
      } else {
        assert t[k] == ' ' && k + 1 < |t|;
        var u := t[k + 1..];
        assert u[0] == t[k + 1];
        CleanSuffix(t, k + 1);
        CleanJoin(u);
        CleanJoinStep(t, k, u);
      }
    }
  }

  /** The step of `CleanJoin` at the first space: the first word, the
      space, and the clean rest. */
  lemma CleanJoinStep(t: string, k: nat, u: string)
    requires k < |t| && t[k] == ' ' && u == t[k + 1..]
    requires StartsIn(u, IsWordPart)
    requires Runs(t, IsWordPart) == [t[..k]] + Runs(t[k..], IsWordPart)
    requires JoinSpaces(Runs(u, IsWordPart)) == u
    ensures JoinSpaces(Runs(t, IsWordPart)) == t
  {
    assert t[k..] == " " + u;
    SplitAround(t, k);
    JoinHeadRuns(t[..k], u, Runs(t, IsWordPart));
  }

  /** A first word, a space, and a clean rest join back to themselves. */
  lemma JoinHeadRuns(h: string, u: string, rt: seq<string>)
    requires StartsIn(u, IsWordPart)
    requires rt == [h] + Runs(" " + u, IsWordPart)
    requires JoinSpaces(Runs(u, IsWordPart)) == u
    ensures JoinSpaces(rt) == h + " " + u
  {
    RunsDropOutside(" ", u, IsWordPart);
    RunsUnfold(u, IsWordPart);
    JoinSpacesCons(h, Runs(u, IsWordPart));
  }

  lemma JoinSpacesCons(w: string, ws: seq<string>)
    requires ws != []
    ensures JoinSpaces([w] + ws) == w + " " + JoinSpaces(ws)
  {
    assert ([w] + ws)[1..] == ws;
  }

  lemma SplitAround(t: string, k: nat)
    requires k < |t| && t[k] == ' '
    ensures t == t[..k] + " " + t[k + 1..]
  {
    assert t[..k] + [t[k]] + t[k + 1..] == t;
  }

  /** A clean text from a non-space character on is clean. */
  lemma CleanSuffix(t: string, j: nat)
    requires IsClean(t) && j < |t| && !IsSpace(t[j])
    ensures IsClean(t[j..])
  {
    var u := t[j..];
    assert forall i :: 0 <= i < |u| ==> u[i] == t[j + i];
  }

  /** Every character is plain: no bullet, and whitespace only as ' '. */
  predicate PlainSpaces(t: string) {
    forall i :: 0 <= i < |t| ==> !IsBullet(t[i]) && (IsSpace(t[i]) ==> t[i] == ' ')
  }

  predicate NoDoubleSpace(t: string) {
    forall i :: 0 <= i < |t| - 1 ==> !(IsSpace(t[i]) && IsSpace(t[i + 1]))
  }

  lemma CollapsedSpacesArePlain(s2: string, s3: string)
    requires forall i :: 0 <= i < |s2| ==> !IsBullet(s2[i])
    requires s3 == CollapseRuns(s2, IsSpace)
    ensures PlainSpaces(s3) && NoDoubleSpace(s3)
  {
    forall i | 0 <= i < |s3| ensures !IsBullet(s3[i]) {
      if s3[i] != ' ' {
        var j :| 0 <= j < |s2| && s2[j] == s3[i];
      }
    }
  }

  lemma StripKeepsPlain(t: string)
    requires PlainSpaces(t) && NoDoubleSpace(t)
    ensures IsClean(Strip(t))
  {
    var r := Strip(t);
    var a := StripStart(t);
    assert forall i :: 0 <= i < |r| ==> r[i] == t[a + i];
  }

  lemma {:induction false} CollapseRunsFixes(s: string, p: char -> bool)
    requires forall i :: 0 <= i < |s| && p(s[i]) ==> s[i] == ' '
    requires forall i :: 0 <= i < |s| - 1 ==> !(p(s[i]) && p(s[i + 1]))
    ensures CollapseRuns(s, p) == s
    decreases |s|
  {
    if s != [] {
      CollapseRunsFixes(s[1..], p);
      if p(s[0]) {
        assert RunLength(s, p) == 1 by {
          assert |s| > 1 ==> !p(s[1]);
        }
        assert s == [' '] + s[1..];
      } else {
        assert s == [s[0]] + s[1..];
      }
    }
  }

  /** A clean string is a fixed point of the cleaner. */
  lemma CleanTextFixesClean(t: string)
    requires IsClean(t)
    ensures CleanText(t) == t
  {
    assert NoBreakSpace !in t by {
      forall i | 0 <= i < |t| ensures t[i] != NoBreakSpace {
        assert IsSpace(t[i]) ==> t[i] == ' ';
      }
    }
    CollapseRunsFixes(t, IsBullet);
    CollapseRunsFixes(t, IsSpace);
    assert StripStart(t) == 0;
    assert StripEnd(t) == |t| by {
      assert t[StripStart(t)..] == t;
    }
  }

  /** Cleaning twice is the same as cleaning once. */
  lemma CleanTextIdempotent(s: string)
    ensures CleanText(CleanText(s)) == CleanText(s)
  {
    CleanTextFixesClean(CleanText(s));
  }

  /** The characters a token is made of, `[A-Za-z0-9+.#]`. */
  predicate IsTokenChar(c: char) {
    IsAsciiLetter(c) || IsDigit(c) || c == '+' || c == '.' || c == '#'
  }

  /** The characters `_normalize_token` keeps, `[\w\s.+#]`. */
  predicate IsKeptChar(c: char) {
    IsWordChar(c) || IsSpace(c) || c == '.' || c == '+' || c == '#'
  }

  /** `_normalize_token`: lower-case, strip, turn `/` and `-` into spaces,
      then drop every character outside `[\w\s.+#]`. */
  function NormalizeToken(s: string): (r: string)
    ensures forall i :: 0 <= i < |r| ==> IsKeptChar(r[i]) && r[i] != '/' && r[i] != '-'
  {
    var t := ReplaceChar(ReplaceChar(Strip(Lower(s)), '/', " "), '-', " ");
    NoSlashOrDash(Strip(Lower(s)));
    Filter(t, IsKeptChar)
  }

  /** After both replacements neither `/` nor `-` is left. */
  lemma NoSlashOrDash(u: string)
    ensures var t := ReplaceChar(ReplaceChar(u, '/', " "), '-', " ");
            forall i :: 0 <= i < |t| ==> t[i] != '/' && t[i] != '-'
  {
    var v := ReplaceChar(u, '/', " ");
    var t := ReplaceChar(v, '-', " ");
    forall i | 0 <= i < |t| ensures t[i] != '/' && t[i] != '-' {
      if t[i] !in " " {
        assert t[i] in v && t[i] != '-';
      }
    }
  }

  /** The strings `re.findall("[A-Za-z0-9+.#]+", s)` returns. */
  function Tokens(s: string): (r: seq<string>)
    ensures forall i :: 0 <= i < |r| ==> r[i] != [] && All(r[i], IsTokenChar)
    ensures Concat(r) == Filter(s, IsTokenChar)
  {
    Runs(s, IsTokenChar)
  }

  /** On the tokenizer's output the normaliser only lower-cases. */
  lemma NormalizeTokenOfToken(s: string)
    requires All(s, IsTokenChar)
    ensures NormalizeToken(s) == Lower(s)
  {
    var l := Lower(s);
    assert forall i :: 0 <= i < |l| ==> IsTokenChar(l[i]) && !IsSpace(l[i]);
    assert StripStart(l) == 0;
    assert StripEnd(l) == |l| by {
      assert l[StripStart(l)..] == l;
    }
    assert Strip(l) == l;
    assert '/' !in l && '-' !in l;
    assert All(l, IsKeptChar);
  }

  /** `_ngrams(words, n)`: the `n`-word windows, each joined by single spaces. */
  function NGrams(words: seq<string>, n: nat): (r: seq<string>)
    ensures |r| == if |words| >= n then |words| - n + 1 else 0
    ensures forall i :: 0 <= i < |r| ==> r[i] == JoinSpaces(words[i..i + n])
    decreases |words|
  {
    if |words| < n then []
    else if words == [] then [""]
    else
      var rest := NGrams(words[1..], n);
      var r := [JoinSpaces(words[..n])] + rest;
      forall i | 0 <= i < |r| ensures r[i] == JoinSpaces(words[i..i + n]) {
        if i > 0 {
          assert words[1..][i - 1..i - 1 + n] == words[i..i + n];
        }
      }
      r
  }
}
