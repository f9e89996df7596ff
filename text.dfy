/**
 * The string operations of Python that the caption composer relies on:
 * `str.strip()` without arguments, slicing a prefix (`s[:n]`) and
 * `"\n".join(parts)`.
 */
module Text {

  /** The characters Python's `str.isspace` accepts, which `str.strip()` removes. */
  predicate IsSpace(c: char) {
    c in Whitespace
  }

  const Whitespace: set<char> :=
    {'\t', '\n', '\U{B}', '\U{C}', '\r', '\U{1C}', '\U{1D}', '\U{1E}', '\U{1F}', ' ', '\U{85}', '\U{A0}',
     '\U{1680}', '\U{2000}', '\U{2001}', '\U{2002}', '\U{2003}', '\U{2004}', '\U{2005}', '\U{2006}',
     '\U{2007}', '\U{2008}', '\U{2009}', '\U{200A}', '\U{2028}', '\U{2029}', '\U{202F}', '\U{205F}',
     '\U{3000}'}

  /** `s` with its leading whitespace removed. */
  function StripStart(s: string): string {
    if s != [] && IsSpace(s[0]) then StripStart(s[1..]) else s
  }

  /** `s` with its trailing whitespace removed. */
  function StripEnd(s: string): string {
    if s != [] && IsSpace(s[|s| - 1]) then StripEnd(s[..|s| - 1]) else s
  }

  /** Python's `s.strip()`: whitespace removed at both ends. */
  function Strip(s: string): string {
    StripEnd(StripStart(s))
  }

  /** Only leading whitespace goes, and the result does not start with whitespace. */
  lemma {:induction false} StripStartSpec(s: string)
    ensures var r := StripStart(s);
            && |r| <= |s| && r == s[|s| - |r|..]
            && (r == [] || !IsSpace(r[0]))
            && (forall i :: 0 <= i < |s| - |r| ==> IsSpace(s[i]))
  {
    if s != [] && IsSpace(s[0]) {
      StripStartSpec(s[1..]);
    }
  }

  /** Only trailing whitespace goes, and the result does not end with whitespace. */
  lemma {:induction false} StripEndSpec(s: string)
    ensures var r := StripEnd(s);
            && |r| <= |s| && r == s[..|r|]
            && (r == [] || !IsSpace(r[|r| - 1]))
            && (forall i :: |r| <= i < |s| ==> IsSpace(s[i]))
  {
    if s != [] && IsSpace(s[|s| - 1]) {
      StripEndSpec(s[..|s| - 1]);
    }
  }

  /**
   * What is stripped is whitespace only: the result is the slice of `s`
   * that starts after its leading whitespace, it neither starts nor ends
   * with whitespace, and everything after it is whitespace too.
   */
  lemma StripIsSlice(s: string)
    ensures |StripStart(s)| <= |s|
    ensures var r, k := Strip(s), |s| - |StripStart(s)|;
            && k + |r| <= |s| && r == s[k..k + |r|]
            && (r == [] || (!IsSpace(r[0]) && !IsSpace(r[|r| - 1])))
            && (forall i :: 0 <= i < k ==> IsSpace(s[i]))
            && (forall i :: k + |r| <= i < |s| ==> IsSpace(s[i]))
  {
    var t := StripStart(s);
    var r := StripEnd(t);
    StripStartSpec(s);
    StripEndSpec(t);
    var k := |s| - |t|;
    assert t == s[k..];
    assert r == t[..|r|];
    assert r == s[k..k + |r|];
    assert r != [] ==> r[0] == t[0];
    forall i | k + |r| <= i < |s|
      ensures IsSpace(s[i])
    {
      assert s[i] == t[i - k];
    }
  }

  /** Stripping leaves nothing exactly when the text is all whitespace. */
  lemma StripEmpty(s: string)
    ensures Strip(s) == [] <==> forall i :: 0 <= i < |s| ==> IsSpace(s[i])
  {
    StripIsSlice(s);
    var k := |s| - |StripStart(s)|;
    assert Strip(s) != [] ==> k < |s| && s[k] == Strip(s)[0];
  }

  /** Python's `s[:n]` for a non-negative `n`: the first `n` characters, or all of `s` when it is shorter. */
  function Truncate(s: string, n: nat): (r: string)
    ensures |r| == (if |s| <= n then |s| else n)
    ensures r <= s
  {
    if |s| <= n then s else s[..n]
  }

  /** Python's `"\n".join(parts)`. */
  function JoinLines(parts: seq<string>): string {
    if parts == [] then ""
    else if |parts| == 1 then parts[0]
    else parts[0] + "\n" + JoinLines(parts[1..])
  }

  /** Total length of the parts. */
  function TotalLength(parts: seq<string>): nat {
    if parts == [] then 0 else |parts[0]| + TotalLength(parts[1..])
  }

  /** Where part `i` starts in the joined text: each earlier part and its newline come first. */
  function Offset(parts: seq<string>, i: nat): nat
    requires i <= |parts|
  {
    if i == 0 then 0 else |parts[0]| + 1 + Offset(parts[1..], i - 1)
  }

  /** The joined text holds every part and one newline between each two. */
  lemma {:induction false} JoinLinesLength(parts: seq<string>)
    requires parts != []
    ensures |JoinLines(parts)| == TotalLength(parts) + |parts| - 1
  {
    if |parts| > 1 {
      JoinLinesLength(parts[1..]);
    }
  }

  /**
   * Part `i` sits in the joined text at `Offset(parts, i)`, right after a
   * newline unless it is the first: the parts appear in their order.
   */
  lemma {:induction false} JoinLinesPartAt(parts: seq<string>, i: nat)
    requires i < |parts|
    ensures Offset(parts, i) + |parts[i]| <= |JoinLines(parts)|
    ensures JoinLines(parts)[Offset(parts, i)..Offset(parts, i) + |parts[i]|] == parts[i]
    ensures i > 0 ==> JoinLines(parts)[Offset(parts, i) - 1] == '\n'
  {
    var joined := JoinLines(parts);
    if i == 0 {
      if |parts| > 1 {
        assert joined == parts[0] + ("\n" + JoinLines(parts[1..]));
      }
    } else {
      var rest := JoinLines(parts[1..]);
      JoinLinesPartAt(parts[1..], i - 1);
      assert joined == (parts[0] + "\n") + rest;
      var o := Offset(parts[1..], i - 1);
      assert Offset(parts, i) == |parts[0] + "\n"| + o;
      assert joined[Offset(parts, i)..Offset(parts, i) + |parts[i]|] == rest[o..o + |parts[i]|];
      if i > 1 {
        assert joined[Offset(parts, i) - 1] == rest[o - 1];
      }
    }
  }

  /** Joining one more part appends it after a newline, unless it is the only one. */
  lemma {:induction false} JoinLinesSnoc(parts: seq<string>, p: string)
    ensures JoinLines(parts + [p]) == if parts == [] then p else JoinLines(parts) + "\n" + p
  {
    if |parts| == 1 {
      assert (parts + [p])[1..] == [p];
    } else if |parts| > 1 {
      assert (parts + [p])[1..] == parts[1..] + [p];
      JoinLinesSnoc(parts[1..], p);
    }
  }

  /** Five parts joined: each on its own line, in order. */
  lemma JoinLinesFive(a: string, b: string, c: string, d: string, e: string)
    ensures JoinLines([a, b, c, d, e]) == a + "\n" + b + "\n" + c + "\n" + d + "\n" + e
  {
    assert JoinLines([d, e]) == d + "\n" + e by {
      assert [d, e][1..] == [e];
    }
    assert JoinLines([c, d, e]) == c + "\n" + JoinLines([d, e]) by {
      assert [c, d, e][1..] == [d, e];
    }
    assert JoinLines([b, c, d, e]) == b + "\n" + JoinLines([c, d, e]) by {
      assert [b, c, d, e][1..] == [c, d, e];
    }
    assert JoinLines([a, b, c, d, e]) == a + "\n" + JoinLines([b, c, d, e]) by {
      assert [a, b, c, d, e][1..] == [b, c, d, e];
    }
  }
}
