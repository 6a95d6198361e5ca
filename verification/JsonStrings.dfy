/** JSON strings as the decoder behind `app/ai.py` reads them: section 7 of RFC 8259, over code
    points, with surrogate pairs joined and control characters refused. */
module JsonStrings {
  /** Code points; a lone surrogate is possible. */
  type Text = seq<nat>

  const QUOTE: nat := 34
  const BACKSLASH: nat := 92
  const COLON: nat := 58
  const COMMA: nat := 44
  const OPEN: nat := 91
  const CLOSE: nat := 93
  const LETTER_U: nat := 117

  datatype Decoded = Incomplete | Decoded(value: Text, next: nat)

  datatype Escaped = BadEscape | Escaped(code: nat, next: nat)

  // ----- Escapes -----

  function HexValue(c: nat): int {
    if 48 <= c <= 57 then c - 48
    else if 65 <= c <= 70 then c - 55
    else if 97 <= c <= 102 then c - 87
    else -1
  }

  predicate HexAt(s: Text, i: nat) {
    i + 4 <= |s| && HexValue(s[i]) >= 0 && HexValue(s[i + 1]) >= 0 && HexValue(s[i + 2]) >= 0 && HexValue(s[i + 3]) >= 0
  }

  function HexCode(s: Text, i: nat): nat
    requires HexAt(s, i)
  {
    ((HexValue(s[i]) * 16 + HexValue(s[i + 1])) * 16 + HexValue(s[i + 2])) * 16 + HexValue(s[i + 3])
  }

  predicate HighSurrogate(code: nat) { 0xD800 <= code <= 0xDBFF }

  predicate LowSurrogate(code: nat) { 0xDC00 <= code <= 0xDFFF }

  predicate UnicodeEscapeAt(s: Text, i: nat) {
    i + 6 <= |s| && s[i] == BACKSLASH && s[i + 1] == LETTER_U && HexAt(s, i + 2)
  }

  function ShortEscape(c: nat): int {
    if c == QUOTE || c == BACKSLASH || c == 47 then c
    else if c == 98 then 8
    else if c == 102 then 12
    else if c == 110 then 10
    else if c == 114 then 13
    else if c == 116 then 9
    else -1
  }

  /** The escape that starts at the backslash `s[i]`. */
  function EscapeAt(s: Text, i: nat): (e: Escaped)
    ensures e.Escaped? ==> i + 2 <= e.next <= |s|
  {
    if i + 2 > |s| then BadEscape
    else if s[i + 1] != LETTER_U then
      if ShortEscape(s[i + 1]) >= 0 then Escaped(ShortEscape(s[i + 1]), i + 2) else BadEscape
    else if !HexAt(s, i + 2) then BadEscape
    else
      var high := HexCode(s, i + 2);
      if HighSurrogate(high) && UnicodeEscapeAt(s, i + 6) && LowSurrogate(HexCode(s, i + 8))
      then Escaped(0x10000 + (high - 0xD800) * 0x400 + (HexCode(s, i + 8) - 0xDC00), i + 12)
      else Escaped(high, i + 6)
  }

  // ----- Strings -----

  function Prepend(code: nat, rest: Decoded): Decoded {
    if rest.Decoded? then Decoded([code] + rest.value, rest.next) else Incomplete
  }

  /** The rest of a string whose opening quote lies before `i`; `next` is behind the closing quote. */
  function DecodeFrom(s: Text, i: nat): (d: Decoded)
    ensures d.Decoded? ==> i < d.next <= |s| && s[d.next - 1] == QUOTE
    decreases |s| - i
  {
    if i >= |s| || s[i] < 32 then Incomplete
    else if s[i] == QUOTE then Decoded([], i + 1)
    else if s[i] != BACKSLASH then Prepend(s[i], DecodeFrom(s, i + 1))
    else
      var e := EscapeAt(s, i);
      if e.BadEscape? then Incomplete else Prepend(e.code, DecodeFrom(s, e.next))
  }

  /** A decoded value that is a string; anything else at `i` ends the caller's loop all the same. */
  function StringAt(s: Text, i: nat): (d: Decoded)
    ensures d.Decoded? ==> i < d.next <= |s|
  {
    if i < |s| && s[i] == QUOTE then DecodeFrom(s, i + 1) else Incomplete
  }

  // ----- A completed string never changes -----

  lemma EscapeIsStable(s: Text, longer: Text, i: nat)
    requires s <= longer && i < |s| && s[i] == BACKSLASH && EscapeAt(s, i).Escaped?
    requires DecodeFrom(s, EscapeAt(s, i).next).Decoded?
    ensures EscapeAt(longer, i) == EscapeAt(s, i)
  {
    var e := EscapeAt(s, i);
    if s[i + 1] == LETTER_U && e.next == i + 6 && UnicodeEscapeAt(longer, i + 6) {
      assert s[i + 6] == BACKSLASH;
      assert EscapeAt(s, i + 6).Escaped?;
      assert HexAt(s, i + 8);
      assert UnicodeEscapeAt(s, i + 6);
    }
  }

  lemma {:induction false} DecodeIsStable(s: Text, longer: Text, i: nat)
    requires s <= longer && DecodeFrom(s, i).Decoded?
    ensures DecodeFrom(longer, i) == DecodeFrom(s, i)
    decreases |s| - i
  {
    if s[i] == QUOTE {
    } else if s[i] != BACKSLASH {
      DecodeIsStable(s, longer, i + 1);
    } else {
      EscapeIsStable(s, longer, i);
      DecodeIsStable(s, longer, EscapeAt(s, i).next);
    }
    hide EscapeAt;
  }

  // ----- Quotes inside a string are escaped -----

  lemma {:induction false} InnerQuotesAreEscaped(s: Text, i: nat, q: nat)
    requires DecodeFrom(s, i).Decoded? && i <= q < DecodeFrom(s, i).next - 1 && s[q] == QUOTE
    ensures q > i && s[q - 1] == BACKSLASH
    decreases |s| - i
  {
    if s[i] != BACKSLASH {
      InnerQuotesAreEscaped(s, i + 1, q);
    } else {
      var e := EscapeAt(s, i);
      if q < e.next {
        EscapesHoldOneQuote(s, i, q);
      } else {
        InnerQuotesAreEscaped(s, e.next, q);
      }
    }
  }

  lemma EscapesHoldOneQuote(s: Text, i: nat, q: nat)
    requires i < |s| && s[i] == BACKSLASH && EscapeAt(s, i).Escaped? && i <= q < EscapeAt(s, i).next && s[q] == QUOTE
    ensures q == i + 1
  {
    assert HexValue(QUOTE) == -1;
    hide HexValue, HexCode;
    assert q >= i + 8 ==> UnicodeEscapeAt(s, i + 6);
  }

  // ----- Encoding -----

  function HexDigit(v: nat): (c: nat)
    requires v < 16
    ensures HexValue(c) == v
  {
    if v < 10 then 48 + v else 87 + v
  }

  function EncodeCode(code: nat): Text {
    if code == QUOTE || code == BACKSLASH then [BACKSLASH, code]
    else if code < 32 then [BACKSLASH, LETTER_U, 48, 48, HexDigit(code / 16), HexDigit(code % 16)]
    else [code]
  }

  function EncodeBody(value: Text): Text {
    if value == [] then [] else EncodeCode(value[0]) + EncodeBody(value[1..])
  }

  function Encode(value: Text): Text {
    [QUOTE] + EncodeBody(value) + [QUOTE]
  }

  lemma DecodeOneCode(s: Text, i: nat, code: nat)
    requires Holds(s, i, EncodeCode(code))
    ensures DecodeFrom(s, i) == Prepend(code, DecodeFrom(s, i + |EncodeCode(code)|))
  {
    var piece := EncodeCode(code);
    assert forall k :: 0 <= k < |piece| ==> s[i + k] == piece[k];
    if code < 32 {
      assert HexAt(s, i + 2) && HexCode(s, i + 2) == code;
      assert EscapeAt(s, i) == Escaped(code, i + 6);
    }
  }

  /** `part` stands in `s` from `i` on. */
  predicate Holds(s: Text, i: nat, part: Text) {
    i + |part| <= |s| && s[i..i + |part|] == part
  }

  lemma HoldsBoth(s: Text, i: nat, first: Text, second: Text)
    requires Holds(s, i, first + second)
    ensures Holds(s, i, first) && Holds(s, i + |first|, second)
  {
    var j, k := i + |first|, i + |first| + |second|;
    assert s[i..j] == s[i..k][..|first|] == first;
    assert s[j..k] == s[i..k][|first|..] == second;
  }

  lemma BodySplits(value: Text)
    requires value != []
    ensures |EncodeBody(value)| == |EncodeCode(value[0])| + |EncodeBody(value[1..])|
    ensures EncodeBody(value) + [QUOTE] == EncodeCode(value[0]) + (EncodeBody(value[1..]) + [QUOTE])
    ensures value == [value[0]] + value[1..]
  {
    hide EncodeCode;
  }

  lemma {:induction false} DecodeBody(s: Text, i: nat, value: Text)
    requires Holds(s, i, EncodeBody(value) + [QUOTE])
    ensures DecodeFrom(s, i) == Decoded(value, i + |EncodeBody(value)| + 1)
    decreases |value|
  {
    hide EscapeAt, EncodeCode;
    if value == [] {
      assert EncodeBody(value) + [QUOTE] == [QUOTE];
      assert s[i] == s[i..i + 1][0];
    } else {
      BodySplits(value);
      hide Holds, DecodeFrom, EncodeBody;
      var first, rest := EncodeCode(value[0]), EncodeBody(value[1..]);
      HoldsBoth(s, i, first, rest + [QUOTE]);
      DecodeOneCode(s, i, value[0]);
      DecodeBody(s, i + |first|, value[1..]);
    }
  }

  /** What is encoded comes back, wherever it stands. */
  lemma DecodeUndoesEncode(before: Text, value: Text, after: Text)
    ensures StringAt(before + Encode(value) + after, |before|) == Decoded(value, |before| + |Encode(value)|)
  {
    hide DecodeFrom, EncodeBody;
    var s := before + Encode(value) + after;
    var body := EncodeBody(value) + [QUOTE];
    assert s == (before + [QUOTE]) + body + after;
    assert Holds(s, |before| + 1, body);
    DecodeBody(s, |before| + 1, value);
  }
}
