/**
 * Escaping of caption text for Telegram's MarkdownV2 parse mode, as done by
 * `SendAdToTg.escape_markdown` and by the identical local helper `esc` of
 * `SendAdToTg.format_ad`.
 *
 * The source works in two passes: it first turns every non-breaking space
 * into an ordinary space, then puts a backslash in front of every character
 * of a fixed set. The set is the source's, not Telegram's: Telegram also
 * asks for `*` and `\` to be escaped, the source leaves both alone.
 */
module Markdown {

  /** The non-breaking space, U+00A0. */
  const Nbsp: char := '\U{A0}'

  /** The characters the source prefixes with a backslash. */
  predicate IsSpecial(c: char) {
    c in {'_', '[', ']', '(', ')', '~', '`', '>', '#', '+', '-', '=', '|', '{', '}', '.', '!'}
  }

  /** Number of special characters in `s`. */
  function CountSpecials(s: string): nat {
    if s == [] then 0 else (if IsSpecial(s[0]) then 1 else 0) + CountSpecials(s[1..])
  }

  /** First pass: every non-breaking space becomes a space, nothing else moves. */
  function ReplaceNbsp(s: string): (r: string)
    ensures |r| == |s|
    ensures forall i :: 0 <= i < |s| ==> r[i] == (if s[i] == Nbsp then ' ' else s[i])
  {
    if s == [] then [] else [if s[0] == Nbsp then ' ' else s[0]] + ReplaceNbsp(s[1..])
  }

  /** What the second pass writes for one character. */
  function EscapeChar(c: char): string {
    if IsSpecial(c) then ['\\', c] else [c]
  }

  /** Second pass: a backslash before every special character. */
  function EscapeSpecials(s: string): string {
    if s == [] then [] else EscapeChar(s[0]) + EscapeSpecials(s[1..])
  }

  /**
   * The escaper. Empty (falsy) text gives the empty string; anything else
   * goes through both passes.
   */
  function Escape(text: string): (r: string)
    ensures r == "" <==> text == ""
  {
    if text == "" then "" else EscapeSpecials(ReplaceNbsp(text))
  }

  /** Reading an escaped text back: a backslash followed by a special character stands for that character. */
  function Unescape(s: string): string
    decreases |s|
  {
    if s == [] then []
    else if s[0] == '\\' && |s| >= 2 && IsSpecial(s[1]) then [s[1]] + Unescape(s[2..])
    else [s[0]] + Unescape(s[1..])
  }

  lemma {:induction false} CountSpecialsAppend(a: string, b: string)
    ensures CountSpecials(a + b) == CountSpecials(a) + CountSpecials(b)
  {
    if a == [] {
      assert a + b == b;
    } else {
      assert (a + b)[1..] == a[1..] + b;
      CountSpecialsAppend(a[1..], b);
    }
  }

  /** Escaping works one character at a time: it distributes over concatenation. */
  lemma {:induction false} EscapeSpecialsAppend(a: string, b: string)
    ensures EscapeSpecials(a + b) == EscapeSpecials(a) + EscapeSpecials(b)
  {
    if a == [] {
      assert a + b == b;
    } else {
      assert (a + b)[1..] == a[1..] + b;
      EscapeSpecialsAppend(a[1..], b);
    }
  }

  /** Each special character gains exactly one backslash; nothing else is added. */
  lemma {:induction false} EscapeSpecialsLength(s: string)
    ensures |EscapeSpecials(s)| == |s| + CountSpecials(s)
  {
    if s != [] {
      EscapeSpecialsLength(s[1..]);
    }
  }

  /** Escaping introduces no special character: the backslash is not in the set. */
  lemma {:induction false} EscapeSpecialsCount(s: string)
    ensures CountSpecials(EscapeSpecials(s)) == CountSpecials(s)
  {
    if s != [] {
      CountSpecialsAppend(EscapeChar(s[0]), EscapeSpecials(s[1..]));
      EscapeSpecialsCount(s[1..]);
      if IsSpecial(s[0]) {
        assert EscapeChar(s[0])[1..] == [s[0]];
      }
    }
  }

  lemma {:induction false} EscapeSpecialsKeepsChar(s: string, c: char)
    requires forall i :: 0 <= i < |s| ==> s[i] != c
    requires c != '\\'
    ensures forall i :: 0 <= i < |EscapeSpecials(s)| ==> EscapeSpecials(s)[i] != c
  {
    if s != [] {
      EscapeSpecialsKeepsChar(s[1..], c);
    }
  }

  lemma {:induction false} ReplaceNbspCount(s: string)
    ensures CountSpecials(ReplaceNbsp(s)) == CountSpecials(s)
  {
    if s != [] {
      assert ReplaceNbsp(s)[1..] == ReplaceNbsp(s[1..]);
      ReplaceNbspCount(s[1..]);
    }
  }

  /** The escaped text is the input plus one backslash per special character. */
  lemma EscapeLength(text: string)
    ensures |Escape(text)| == |text| + CountSpecials(text)
  {
    if text != "" {
      EscapeSpecialsLength(ReplaceNbsp(text));
      ReplaceNbspCount(text);
    }
  }

  /** No non-breaking space survives escaping. */
  lemma EscapeRemovesNbsp(text: string)
    ensures forall i :: 0 <= i < |Escape(text)| ==> Escape(text)[i] != Nbsp
  {
    if text != "" {
      EscapeSpecialsKeepsChar(ReplaceNbsp(text), Nbsp);
    }
  }

  /** An escaped text never starts with a special character. */
  lemma EscapeSpecialsHead(s: string)
    ensures EscapeSpecials(s) != [] ==> !IsSpecial(EscapeSpecials(s)[0])
  {
  }

  lemma {:induction false} UnescapeEscapeSpecials(s: string)
    ensures Unescape(EscapeSpecials(s)) == s
  {
    if s != [] {
      var rest := EscapeSpecials(s[1..]);
      UnescapeEscapeSpecials(s[1..]);
      if IsSpecial(s[0]) {
        assert EscapeSpecials(s) == ['\\', s[0]] + rest;
        assert (['\\', s[0]] + rest)[2..] == rest;
      } else {
        assert EscapeSpecials(s) == [s[0]] + rest;
        EscapeSpecialsHead(s[1..]);
        assert ([s[0]] + rest)[1..] == rest;
      }
    }
  }

  /**
   * Removing the inserted backslashes gives back the input with its
   * non-breaking spaces turned into spaces: every other character is kept,
   * in order.
   */
  lemma UnescapeEscape(text: string)
    ensures Unescape(Escape(text)) == ReplaceNbsp(text)
  {
    if text != "" {
      UnescapeEscapeSpecials(ReplaceNbsp(text));
    }
  }

  /** A special character between two plain ones gets exactly one backslash. */
  lemma EscapeSurrounded(c: char)
    requires IsSpecial(c)
    ensures Escape(['a', c, 'b']) == ['a', '\\', c, 'b']
  {
    assert ReplaceNbsp(['a', c, 'b']) == ['a', c, 'b'];
    EscapeSpecialsAppend(['a'], [c, 'b']);
    EscapeSpecialsAppend([c], ['b']);
  }

  /** A text without non-breaking spaces is left as it is by the first pass. */
  lemma ReplaceNbspNoNbsp(s: string)
    requires forall i :: 0 <= i < |s| ==> s[i] != Nbsp
    ensures ReplaceNbsp(s) == s
  {
  }

  /**
   * Escaping twice adds another layer: one more backslash before every
   * special character, which reading back removes again. The transform is
   * therefore not idempotent, and is meant to be applied once.
   */
  lemma EscapeTwice(text: string)
    ensures |Escape(Escape(text))| == |Escape(text)| + CountSpecials(text)
    ensures Unescape(Escape(Escape(text))) == Escape(text)
    ensures CountSpecials(text) > 0 ==> Escape(Escape(text)) != Escape(text)
  {
    EscapeLength(Escape(text));
    if text != "" {
      ReplaceNbspCount(EscapeSpecials(ReplaceNbsp(text)));
      EscapeSpecialsCount(ReplaceNbsp(text));
      ReplaceNbspCount(text);
    }
    EscapeRemovesNbsp(text);
    ReplaceNbspNoNbsp(Escape(text));
    UnescapeEscape(Escape(text));
  }
}
