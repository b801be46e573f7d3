/** The string operations the tag query relies on: Java's `String.isBlank`,
    `String.trim`, `String.toLowerCase` and `String.contains`, over Dafny
    strings of Unicode scalar values. */
module Text {

  /** `Character.isWhitespace`: the Unicode space, line and paragraph
      separators except the three non-breaking spaces, plus the ASCII
      controls TAB, LF, VT, FF, CR and the four information separators. */
  predicate IsWhitespace(c: char) {
    || ('\t' <= c <= '\r')
    || ('\U{1C}' <= c <= '\U{1F}')
    || c == ' '
    || c == '\U{1680}'
    || ('\U{2000}' <= c <= '\U{2006}')
    || ('\U{2008}' <= c <= '\U{200A}')
    || c == '\U{2028}'
    || c == '\U{2029}'
    || c == '\U{205F}'
    || c == '\U{3000}'
  }

  /** `String.isBlank`: empty, or nothing but white space. */
  predicate IsBlank(s: string) {
    forall i :: 0 <= i < |s| ==> IsWhitespace(s[i])
  }

  /** `c` is one of the characters `String.trim` removes from either end:
      every code point at or below U+0020 (space and all ASCII controls).
      This set is not the same as `IsWhitespace`. */
  predicate TrimRemoves(c: char) {
    c <= ' '
  }

  /** Every character of `s` is one `String.trim` removes. */
  predicate TrimRemovesAll(s: string) {
    forall i :: 0 <= i < |s| ==> TrimRemoves(s[i])
  }

  /** The white-space set of `isBlank` against the removal set of `trim`.
      The no-break spaces and NEL are not white space. Among the characters
      `trim` removes, white space is exactly TAB to CR and U+001C to the
      space, so NUL is removed without being white space. White space that
      `trim` keeps is never below U+1680. */
  lemma WhitespaceSet()
    ensures !IsWhitespace('\U{A0}') && !IsWhitespace('\U{2007}') && !IsWhitespace('\U{202F}') && !IsWhitespace('\U{85}')
    ensures forall c :: TrimRemoves(c) ==> (IsWhitespace(c) <==> ('\t' <= c <= '\r' || '\U{1C}' <= c))
    ensures TrimRemoves('\0') && !IsWhitespace('\0')
    ensures forall c :: IsWhitespace(c) && !TrimRemoves(c) ==> c >= '\U{1680}'
  {
  }

  /** `isBlank` holds exactly when no character of `s` lies outside the
      white-space set; the empty string is blank. */
  lemma BlankMeansAllWhitespace(s: string)
    ensures IsBlank(s) <==> forall c :: c in s ==> IsWhitespace(c)
    ensures IsBlank([])
  {
  }

  /** A blank string whose characters all lie below U+0080 trims to the
      empty string. */
  lemma AsciiBlankTrimsEmpty(s: string)
    requires IsBlank(s)
    requires forall i :: 0 <= i < |s| ==> s[i] < '\U{80}'
    ensures Trim(s) == []
  {
    assert TrimRemovesAll(s) by {
      forall i | 0 <= i < |s| ensures TrimRemoves(s[i]) {
        assert IsWhitespace(s[i]);
      }
    }
    TrimPadded(s, [], []);
    assert s + [] + [] == s;
  }

  function TrimStart(s: string): (r: string)
    ensures |r| <= |s|
    ensures r == s[|s| - |r|..]
    ensures TrimRemovesAll(s[..|s| - |r|])
    ensures r == [] || !TrimRemoves(r[0])
  {
    if |s| > 0 && TrimRemoves(s[0]) then TrimStart(s[1..]) else s
  }

  function TrimEnd(s: string): (r: string)
    ensures |r| <= |s|
    ensures r == s[..|r|]
    ensures TrimRemovesAll(s[|r|..])
    ensures r == [] || !TrimRemoves(r[|r| - 1])
  {
    if |s| > 0 && TrimRemoves(s[|s| - 1]) then
      var r := TrimEnd(s[..|s| - 1]);
      assert s[|r|..] == s[..|s| - 1][|r|..] + [s[|s| - 1]];
      r
    else
      s
  }

  /** `String.trim`. */
  function Trim(s: string): (r: string)
    ensures r == [] || (!TrimRemoves(r[0]) && !TrimRemoves(r[|r| - 1]))
  {
    TrimEnd(TrimStart(s))
  }

  /** Lower-cases one character. Only the ASCII letters are mapped; Java's
      locale-dependent Unicode case mapping is not part of this model. */
  function LowerChar(c: char): (d: char)
    ensures !('A' <= d <= 'Z')
    ensures !('A' <= c <= 'Z') ==> d == c
    ensures 'A' <= c <= 'Z' ==> 'a' <= d <= 'z' && d as int - c as int == 'a' as int - 'A' as int
  {
    if 'A' <= c <= 'Z' then (c as int + ('a' as int - 'A' as int)) as char else c
  }

  /** `String.toLowerCase`, ASCII letters only. */
  function ToLower(s: string): (r: string)
    ensures |r| == |s|
    ensures forall i :: 0 <= i < |s| ==> r[i] == LowerChar(s[i])
  {
    seq(|s|, i requires 0 <= i < |s| => LowerChar(s[i]))
  }

  /** `String.contains`: `sub` occurs in `s` as a contiguous run, found by
      trying each start position in turn. */
  predicate Contains(s: string, sub: string)
    decreases |s|
  {
    sub <= s || (|s| > 0 && Contains(s[1..], sub))
  }

  /** `sub` occurs in `s` at position `i`. */
  ghost predicate OccursAt(s: string, sub: string, i: int) {
    0 <= i && i + |sub| <= |s| && s[i..i + |sub|] == sub
  }

  /** `Contains` agrees with the positional reading of `String.contains`:
      there is a start index at which `sub` occurs. */
  lemma {:induction false} ContainsIffOccurs(s: string, sub: string)
    ensures Contains(s, sub) <==> exists i :: OccursAt(s, sub, i)
    decreases |s|
  {
    if sub <= s {
      assert OccursAt(s, sub, 0);
    } else {
      assert !OccursAt(s, sub, 0);
      if |s| > 0 {
        ContainsIffOccurs(s[1..], sub);
        if Contains(s[1..], sub) {
          var i :| OccursAt(s[1..], sub, i);
          assert s[i + 1..i + 1 + |sub|] == s[1..][i..i + |sub|];
          assert OccursAt(s, sub, i + 1);
        }
        if exists i :: OccursAt(s, sub, i) {
          var i :| OccursAt(s, sub, i);
          assert s[1..][i - 1..i - 1 + |sub|] == s[i..i + |sub|];
          assert OccursAt(s[1..], sub, i - 1);
        }
      }
    }
  }

  lemma {:induction false} TrimStartPadded(p: string, t: string)
    requires TrimRemovesAll(p)
    ensures TrimStart(p + t) == TrimStart(t)
    decreases |p|
  {
    if |p| > 0 {
      assert (p + t)[1..] == p[1..] + t;
      TrimStartPadded(p[1..], t);
    } else {
      assert p + t == t;
    }
  }

  lemma {:induction false} TrimEndPadded(t: string, q: string)
    requires TrimRemovesAll(q)
    ensures TrimEnd(t + q) == TrimEnd(t)
    decreases |q|
  {
    if |q| > 0 {
      assert (t + q)[..|t + q| - 1] == t + q[..|q| - 1];
      TrimEndPadded(t, q[..|q| - 1]);
    } else {
      assert t + q == t;
    }
  }

  /** Whatever run of characters at or below U+0020 surrounds a core that
      starts and ends above U+0020, `Trim` returns exactly that core. */
  lemma TrimPadded(p: string, c: string, q: string)
    requires TrimRemovesAll(p) && TrimRemovesAll(q)
    requires c == [] || (!TrimRemoves(c[0]) && !TrimRemoves(c[|c| - 1]))
    ensures Trim(p + c + q) == c
  {
    assert p + c + q == p + (c + q);
    TrimStartPadded(p, c + q);
    if c == [] {
      assert c + q == q;
      assert TrimStart(q) == [];
    } else {
      assert TrimStart(c + q) == c + q;
      TrimEndPadded(c, q);
      assert TrimEnd(c) == c;
    }
  }

  /** Conversely, `Trim(s)` is a slice of `s` with only characters at or
      below U+0020 cut from either end. */
  lemma TrimSplits(s: string)
    ensures exists a, b :: 0 <= a <= b <= |s| && Trim(s) == s[a..b] && TrimRemovesAll(s[..a]) && TrimRemovesAll(s[b..])
  {
    var t := TrimStart(s);
    var a := |s| - |t|;
    var r := TrimEnd(t);
    var b := a + |r|;
    assert t == s[a..];
    assert r == s[a..b];
    assert s[b..] == t[|r|..];
  }
}
