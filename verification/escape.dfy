/**
 HTML escaping of the resume preview: `&`, `<` and `>` become the entities
 `&amp;`, `&lt;` and `&gt;`, replaced in that order over the whole text.
*/
module Escape {
  import opened Text

  /** `_esc(s)`: three whole-text replacements, ampersands first so that
      the entities the later passes introduce are not escaped again. */
  function Esc(s: string): (r: string)
    ensures '<' !in r && '>' !in r
    ensures '&' !in s && '<' !in s && '>' !in s ==> r == s
  {
    var amp := ReplaceChar(s, '&', "&amp;");
    var lt := ReplaceChar(amp, '<', "&lt;");
    ReplaceChar(lt, '>', "&gt;")
  }

  /** The entity (or the character itself) one input character becomes. */
  function EscChar(c: char): string {
    if c == '&' then "&amp;"
    else if c == '<' then "&lt;"
    else if c == '>' then "&gt;"
    else [c]
  }

  /** Replacement distributes over concatenation. */
  lemma {:induction false} ReplaceCharAppend(a: string, b: string, c: char, rep: string)
    ensures ReplaceChar(a + b, c, rep) == ReplaceChar(a, c, rep) + ReplaceChar(b, c, rep)
    decreases |a|
  {
    if a == [] {
      assert a + b == b;
    } else {
      assert (a + b)[0] == a[0];
      assert (a + b)[1..] == a[1..] + b;
      ReplaceCharAppend(a[1..], b, c, rep);
    }
  }

  /** Replacement in a one-character text. */
  lemma ReplaceOne(c: char, d: char, rep: string)
    ensures ReplaceChar([c], d, rep) == if c == d then rep else [c]
  {
    assert [c][1..] == [];
  }

  /** The three passes applied to a single character give its entity. */
  lemma EscOne(c: char)
    ensures ReplaceChar(ReplaceChar(ReplaceChar([c], '&', "&amp;"), '<', "&lt;"), '>', "&gt;") == EscChar(c)
  {
    ReplaceOne(c, '&', "&amp;");
    if c == '&' {
      assert '<' !in "&amp;" && '>' !in "&amp;";
    } else {
      ReplaceOne(c, '<', "&lt;");
      if c == '<' {
        assert '>' !in "&lt;";
      } else {
        ReplaceOne(c, '>', "&gt;");
      }
    }
  }

  /** Escaping works character by character: the first character's entity
      followed by the escaped rest. */
  lemma EscCons(c: char, rest: string)
    ensures Esc([c] + rest) == EscChar(c) + Esc(rest)
  {
    var amp1 := ReplaceChar([c], '&', "&amp;");
    var amp2 := ReplaceChar(rest, '&', "&amp;");
    ReplaceCharAppend([c], rest, '&', "&amp;");
    var lt1 := ReplaceChar(amp1, '<', "&lt;");
    var lt2 := ReplaceChar(amp2, '<', "&lt;");
    ReplaceCharAppend(amp1, amp2, '<', "&lt;");
    ReplaceCharAppend(lt1, lt2, '>', "&gt;");
    EscOne(c);
  }

  /** `t` begins with `p`. */
  predicate StartsWith(t: string, p: string) {
    |p| <= |t| && t[..|p|] == p
  }

  /** Two texts that begin with different characters at position `i` do
      not both begin with `p`. */
  lemma NotStartsWith(t: string, p: string, i: nat)
    requires i < |t| && i < |p| && t[i] != p[i]
    ensures !StartsWith(t, p)
  {
  }

  /** Decoding of the three entities, scanning left to right; every other
      character stands for itself. */
  function Unescape(t: string): (r: string)
    ensures |r| <= |t|
    decreases |t|
  {
    if t == [] then []
    else if StartsWith(t, "&amp;") then "&" + Unescape(t[5..])
    else if StartsWith(t, "&lt;") then "<" + Unescape(t[4..])
    else if StartsWith(t, "&gt;") then ">" + Unescape(t[4..])
    else [t[0]] + Unescape(t[1..])
  }

  /** Decoding the entity of one character in front of more text gives back
      the character. */
  lemma UnescapeCons(c: char, rest: string)
    ensures Unescape(EscChar(c) + rest) == [c] + Unescape(rest)
  {
    var t := EscChar(c) + rest;
    if c == '&' {
      assert t[..5] == "&amp;" && t[5..] == rest;
    } else if c == '<' {
      assert t[..4] == "&lt;" && t[4..] == rest;
      NotStartsWith(t, "&amp;", 1);
    } else if c == '>' {
      assert t[..4] == "&gt;" && t[4..] == rest;
      NotStartsWith(t, "&amp;", 1);
      NotStartsWith(t, "&lt;", 1);
    } else {
      assert t[0] == c && t[1..] == rest;
      NotStartsWith(t, "&amp;", 0);
      NotStartsWith(t, "&lt;", 0);
      NotStartsWith(t, "&gt;", 0);
    }
  }

  /** Escaping loses nothing: decoding the escaped text gives the text. */
  lemma {:induction false} UnescapeEsc(s: string)
    ensures Unescape(Esc(s)) == s
    decreases |s|
  {
    if s != [] {
      assert s == [s[0]] + s[1..];
      EscCons(s[0], s[1..]);
      UnescapeCons(s[0], Esc(s[1..]));
      UnescapeEsc(s[1..]);
    }
  }

  /** Distinct texts escape to distinct texts. */
  lemma EscInjective(s: string, t: string)
    requires Esc(s) == Esc(t)
    ensures s == t
  {
    UnescapeEsc(s);
    UnescapeEsc(t);
  }

  /** Position `i` of `t` begins one of the three entities. */
  predicate EntityAt(t: string, i: nat)
    requires i <= |t|
  {
    StartsWith(t[i..], "&amp;") || StartsWith(t[i..], "&lt;") || StartsWith(t[i..], "&gt;")
  }

  /** Every `&` of `t` begins an entity. */
  predicate AmpersandsBeginEntities(t: string) {
    forall i :: 0 <= i < |t| && t[i] == '&' ==> EntityAt(t, i)
  }

  /** In escaped text every `&` begins `&amp;`, `&lt;` or `&gt;`: no bare
      ampersand survives, so the text reads back unambiguously as HTML. */
  lemma {:induction false} EscAmpersandsBeginEntities(s: string)
    ensures AmpersandsBeginEntities(Esc(s))
    decreases |s|
  {
    if s == [] {
      assert Esc(s) == [];
    } else {
      assert s == [s[0]] + s[1..];
      EscCons(s[0], s[1..]);
      EscAmpersandsBeginEntities(s[1..]);
      EntityPrefix(s[0], Esc(s[1..]));
    }
  }

  /** An entity in front of a text whose ampersands begin entities keeps
      that property. */
  lemma EntityPrefix(c: char, rest: string)
    requires AmpersandsBeginEntities(rest)
    ensures AmpersandsBeginEntities(EscChar(c) + rest)
  {
    var e := EscChar(c);
    var t := e + rest;
    forall i | 0 <= i < |t| && t[i] == '&' ensures EntityAt(t, i) {
      if i < |e| {
        assert e[i] == '&';
        assert i == 0;
        assert t[0..][..|e|] == e;
      } else {
        assert rest[i - |e|] == '&';
        assert t[i..] == rest[i - |e|..];
      }
    }
  }

  /** The escaped text is at least as long as the text. */
  lemma {:induction false} EscLonger(s: string)
    ensures |Esc(s)| >= |s|
    decreases |s|
  {
    if s != [] {
      assert s == [s[0]] + s[1..];
      EscCons(s[0], s[1..]);
      EscLonger(s[1..]);
    }
  }
}
