/** Text put between quotes without escapes: when it is read back as itself. */
module Quotes {
  import opened Bytes
  import opened Unicode
  import opened Grammar
  import opened Writer
  import opened Spans

  predicate PlainText(s: bytes) {
    NUL !in s && QUOTE !in s && BACKSLASH !in s
  }

  /** Plain text between quotes is read as itself. */
  lemma {:induction false} PlainChars(d: Doc, i: nat, acc: bytes, s: bytes, end: nat)
    requires PlainText(s) && TextAt(d, i, s + [QUOTE]) && |acc| + |s| <= UINT_LIMIT && end == i + |s| + 1
    ensures i < end <= |d.text| && Chars(d, i, acc, false) == Ok(acc + s, end)
    decreases |s|
  {
    StartsAt(d, i, s + [QUOTE]);
    if |s| == 0 {
      assert acc + s == acc;
    } else {
      assert (s + [QUOTE])[1..] == s[1..] + [QUOTE];
      PlainChars(d, i + 1, acc + [s[0]], s[1..], end);
      assert acc + [s[0]] + s[1..] == acc + s;
    }
  }

  function Quoted(t: bytes): bytes {
    [QUOTE] + (t + [QUOTE])
  }

  lemma {:induction false} PlainReads(d: Doc, i: nat, s: bytes, end: nat)
    requires PlainText(s) && TextAt(d, i, Quoted(s)) && |s| <= UINT_LIMIT && end == i + |s| + 2
    ensures i < end <= |d.text| && d.text[i] == QUOTE && Chars(d, i + 1, [], false) == Ok(s, end)
  {
    StartsAt(d, i, Quoted(s));
    TextParts(d, i, [QUOTE], s + [QUOTE], i + 1);
    PlainChars(d, i + 1, [], s, end);
    assert [] + s == s;
  }

  /** A string that is as long as its text has no escapes. */
  lemma {:induction false} NoEscapes(d: Doc, i: nat, acc: bytes, s: bytes, next: nat)
    requires i <= |d.text| && Chars(d, i, acc, false) == Ok(s, next) && |s| - |acc| == next - 1 - i
    ensures i < next <= |d.text| && PlainText(d.text[i..next - 1])
    decreases |d.text| - i
  {
    if d.text[i] == BACKSLASH {
      CharsSpan(d, i + 1, acc, true);
    } else if d.text[i] != QUOTE {
      NoEscapes(d, i + 1, acc + [d.text[i]], s, next);
      assert d.text[i..next - 1] == [d.text[i]] + d.text[i + 1..next - 1];
    }
  }

  lemma QuoteIsNoDigit()
    ensures HexValue(QUOTE) == 0xFF
  {
  }

  /** No quote stands inside a \u escape. */
  lemma {:induction false} EscapeNoQuote(d: Doc, i: nat, q: nat)
    requires EscapedChar(d, i).Ok? && i <= q < EscapedChar(d, i).next
    ensures d.text[q] != QUOTE
  {
    QuoteIsNoDigit();
  }

  /** A quote inside a string is escaped; the string is read on behind it. */
  lemma {:induction false} InnerQuote(d: Doc, i: nat, acc: bytes, s: bytes, next: nat, q: nat) returns (acc': bytes)
    requires i <= |d.text| && Chars(d, i, acc, false) == Ok(s, next)
    requires i <= q < next - 1 && q < |d.text| && d.text[q] == QUOTE
    ensures i < q && d.text[q - 1] == BACKSLASH && Chars(d, q + 1, acc', false) == Ok(s, next)
    decreases |d.text| - i
  {
    if d.text[i] == BACKSLASH {
      if d.text[i + 1] == 0x75 {
        var c := EscapedChar(d, i + 2);
        if i + 2 <= q < c.next {
          EscapeNoQuote(d, i + 2, q);
        }
        acc' := InnerQuote(d, c.next, acc + Encode(c.value), s, next, q);
      } else if i + 1 == q {
        acc' := acc + [Unescape(QUOTE)];
      } else {
        acc' := InnerQuote(d, i + 2, acc + [Unescape(d.text[i + 1])], s, next, q);
      }
    } else {
      acc' := InnerQuote(d, i + 1, acc + [d.text[i]], s, next, q);
    }
  }

  /** A string that ends two plain characters on. */
  lemma {:induction false} EndsSoon(d: Doc, i: nat, acc: bytes, s: bytes, next: nat)
    requires i + 3 <= |d.text| && Chars(d, i, acc, false) == Ok(s, next)
    requires d.text[i] == COMMA && d.text[i + 1] == SPACE && d.text[i + 2] == QUOTE
    ensures |s| > 0 && s[|s| - 1] == SPACE
  {
    assert Chars(d, i + 1, acc + [COMMA], false) == Ok(s, next);
    assert Chars(d, i + 2, acc + [COMMA] + [SPACE], false) == Ok(s, next);
    assert s == acc + [COMMA] + [SPACE];
  }

  /** Text between quotes, with a comma, a space and another quote behind it, is read back as itself only if it is
      plain. */
  lemma {:induction false} ReadsPlain(d: Doc, p: nat, t: bytes, q: nat, next: nat)
    requires TextAt(d, p, t) && q == p + |t| && q + 4 <= |d.text|
    requires d.text[q] == QUOTE && d.text[q + 1] == COMMA && d.text[q + 2] == SPACE && d.text[q + 3] == QUOTE
    requires Chars(d, p, [], false) == Ok(t, next)
    ensures PlainText(t)
  {
    CharsSpan(d, p, [], false);
    TextIs(d, p, t);
    if next - 1 == q {
      NoEscapes(d, p, [], t, next);
    } else {
      assert |t| > 0 ==> d.text[p..q][|t| - 1] == t[|t| - 1];
      var acc := InnerQuote(d, p, [], t, next, q);
      EndsSoon(d, q + 1, acc, t, next);
      assert false;
    }
  }
}
