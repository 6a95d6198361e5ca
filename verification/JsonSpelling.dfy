/** Every way to spell a string under section 7 of RFC 8259, and that the decoder reads exactly these. */
module JsonSpelling {
  import opened JsonStrings

  /** A character as itself, behind a backslash, as four hex digits, or as two times four of them. */
  datatype Piece = Plain(code: nat) | Short(letter: nat) | Unit(hex: Text) | Pair(high: Text, low: Text)

  predicate IsDigit(c: nat, v: nat) {
    (v < 10 && c == 48 + v) || (10 <= v < 16 && (c == 55 + v || c == 87 + v))
  }

  /** The number of four hex digits, in either case. */
  ghost predicate IsHex(hex: Text, code: nat) {
    exists a: nat, b: nat, c: nat, d: nat ::
      HasDigits(hex, a, b, c, d) && code == 4096 * a + 256 * b + 16 * c + d
  }

  predicate HasDigits(hex: Text, a: nat, b: nat, c: nat, d: nat) {
    |hex| == 4 && IsDigit(hex[0], a) && IsDigit(hex[1], b) && IsDigit(hex[2], c) && IsDigit(hex[3], d)
  }

  /** The escapes with a letter of their own. */
  predicate IsShort(letter: nat, code: nat) {
    || (letter == code && (code == 34 || code == 92 || code == 47))
    || (letter == 98 && code == 8) || (letter == 102 && code == 12) || (letter == 110 && code == 10)
    || (letter == 114 && code == 13) || (letter == 116 && code == 9)
  }

  ghost predicate Means(p: Piece, code: nat) {
    match p
    case Plain(c) => code == c && c >= 32 && c != 34 && c != 92
    case Short(letter) => IsShort(letter, code)
    case Unit(hex) => IsHex(hex, code)
    case Pair(high, low) => exists h: nat, l: nat :: IsPair(high, low, h, l) && code == Joined(h, l)
  }

  function Joined(h: nat, l: nat): int {
    0x10000 + 1024 * (h - 0xD800) + (l - 0xDC00)
  }

  ghost predicate IsPair(high: Text, low: Text, h: nat, l: nat) {
    IsHex(high, h) && IsHex(low, l) && 0xD800 <= h <= 0xDBFF && 0xDC00 <= l <= 0xDFFF
  }

  function PieceText(p: Piece): Text {
    match p
    case Plain(c) => [c]
    case Short(letter) => [92, letter]
    case Unit(hex) => [92, 117] + hex
    case Pair(high, low) => ([92, 117] + high) + ([92, 117] + low)
  }

  /** Two halves next to each other are always a pair. */
  ghost predicate Joins(p: Piece, q: Piece) {
    p.Unit? && q.Unit? && exists h: nat, l: nat :: IsPair(p.hex, q.hex, h, l)
  }

  ghost predicate Spells(ps: seq<Piece>, value: Text) {
    && |ps| == |value| && (forall k :: 0 <= k < |ps| ==> Means(ps[k], value[k]))
    && forall k :: 0 < k < |ps| ==> !Joins(ps[k - 1], ps[k])
  }

  function PiecesText(ps: seq<Piece>): Text {
    if ps == [] then [] else PieceText(ps[0]) + PiecesText(ps[1..])
  }

  // ----- Digits -----

  lemma HexIsValue(hex: Text, code: nat)
    ensures IsHex(hex, code) <==> HexAt(hex, 0) && |hex| == 4 && HexCode(hex, 0) == code
  {
    assert forall c: nat, v: nat :: IsDigit(c, v) <==> HexValue(c) == v;
    hide IsDigit, HexValue;
    if HexAt(hex, 0) && |hex| == 4 && HexCode(hex, 0) == code {
      assert HasDigits(hex, HexValue(hex[0]), HexValue(hex[1]), HexValue(hex[2]), HexValue(hex[3]));
    }
  }

  lemma HexMoves(s: Text, i: nat, hex: Text)
    requires Holds(s, i, hex) && |hex| == 4
    ensures HexAt(s, i) <==> HexAt(hex, 0)
    ensures HexAt(s, i) ==> HexCode(s, i) == HexCode(hex, 0)
  {
    assert s[i] == s[i..i + 4][0] && s[i + 1] == s[i..i + 4][1] && s[i + 2] == s[i..i + 4][2]
      && s[i + 3] == s[i..i + 4][3];
    hide HexValue;
  }

  lemma Slice(s: Text, i: nat, n: nat)
    requires i + n <= |s|
    ensures Holds(s, i, s[i..i + n])
  {
  }

  // ----- Spellings are read -----

  /** A low half escaped at this place. */
  predicate LowAt(s: Text, i: nat) {
    UnicodeEscapeAt(s, i) && LowSurrogate(HexCode(s, i + 2))
  }

  /** A whole unit stands at this place. */
  predicate UnitAt(s: Text, i: nat, code: nat) {
    UnicodeEscapeAt(s, i) && HexCode(s, i + 2) == code
  }

  lemma HoldsUnit(s: Text, i: nat, hex: Text, code: nat)
    requires Holds(s, i, [92, 117] + hex) && IsHex(hex, code)
    ensures UnitAt(s, i, code) && |hex| == 4 && Holds(s, i + 2, hex)
  {
    HexIsValue(hex, code);
    HoldsBoth(s, i, [92, 117], hex);
    HexMoves(s, i + 2, hex);
    assert s[i..i + 2][0] == 92 && s[i..i + 2][1] == 117;
    hide HexAt, HexCode, IsHex;
  }

  lemma LoneEscape(s: Text, i: nat, code: nat)
    requires UnitAt(s, i, code) && !(HighSurrogate(code) && LowAt(s, i + 6))
    ensures EscapeAt(s, i) == Escaped(code, i + 6)
  {
    hide HexAt, HexCode;
  }

  lemma PairEscape(s: Text, i: nat, h: nat, l: nat)
    requires UnitAt(s, i, h) && UnitAt(s, i + 6, l) && HighSurrogate(h) && LowSurrogate(l)
    ensures EscapeAt(s, i) == Escaped(Joined(h, l), i + 12)
  {
    hide HexAt, HexCode;
  }

  lemma UnitIsRead(s: Text, i: nat, hex: Text, code: nat)
    requires Holds(s, i, [92, 117] + hex) && IsHex(hex, code) && !(HighSurrogate(code) && LowAt(s, i + 6))
    ensures |hex| == 4 && DecodeFrom(s, i) == Prepend(code, DecodeFrom(s, i + 6))
  {
    HoldsUnit(s, i, hex, code);
    LoneEscape(s, i, code);
    hide EscapeAt, IsHex, HexAt, HexCode, LowAt, Holds;
  }

  lemma PairIsRead(s: Text, i: nat, high: Text, low: Text, h: nat, l: nat)
    requires Holds(s, i, PieceText(Pair(high, low))) && IsPair(high, low, h, l)
    ensures |high| == 4 == |low| && DecodeFrom(s, i) == Prepend(Joined(h, l), DecodeFrom(s, i + 12))
  {
    HoldsBoth(s, i, [92, 117] + high, [92, 117] + low);
    hide EscapeAt, IsHex, HexAt, HexCode, Holds, Joined;
    HoldsUnit(s, i, high, h);
    HoldsUnit(s, i + 6, low, l);
    PairEscape(s, i, h, l);
  }

  lemma PieceIsRead(s: Text, i: nat, p: Piece, code: nat)
    requires Holds(s, i, PieceText(p)) && Means(p, code)
    requires p.Unit? ==> !(HighSurrogate(code) && LowAt(s, i + 6))
    ensures DecodeFrom(s, i) == Prepend(code, DecodeFrom(s, i + |PieceText(p)|))
  {
    match p {
      case Plain(c) =>
        assert s[i] == s[i..i + 1][0];
      case Short(letter) =>
        assert s[i] == s[i..i + 2][0] && s[i + 1] == s[i..i + 2][1];
        assert EscapeAt(s, i) == Escaped(code, i + 2);
      case Unit(hex) =>
        hide DecodeFrom, IsHex, LowAt, Holds;
        UnitIsRead(s, i, hex, code);
      case Pair(high, low) =>
        hide DecodeFrom, IsHex, Holds;
        var h: nat, l: nat :| IsPair(high, low, h, l) && code == Joined(h, l);
        PairIsRead(s, i, high, low, h, l);
    }
  }

  /** Behind a lone half comes nothing that would complete it. */
  lemma NoLowBehind(s: Text, i: nat, p: Piece, rest: seq<Piece>, code: nat, next: nat)
    requires Holds(s, i, PiecesText(rest) + [QUOTE])
    requires p.Unit? && Means(p, code) && HighSurrogate(code)
    requires rest != [] ==> Means(rest[0], next) && !Joins(p, rest[0])
    ensures !LowAt(s, i)
  {
    if rest == [] {
      assert s[i] == s[i..i + 1][0] == QUOTE;
    } else {
      assert PiecesText(rest) + [QUOTE] == PieceText(rest[0]) + (PiecesText(rest[1..]) + [QUOTE]);
      HoldsBoth(s, i, PieceText(rest[0]), PiecesText(rest[1..]) + [QUOTE]);
      NoLowInPiece(s, i, p, rest[0], code, next);
    }
  }

  lemma NoLowInPiece(s: Text, i: nat, p: Piece, q: Piece, code: nat, next: nat)
    requires Holds(s, i, PieceText(q)) && p.Unit? && Means(p, code) && HighSurrogate(code)
    requires Means(q, next) && !Joins(p, q)
    ensures !LowAt(s, i)
  {
    hide HexAt, HexCode, IsHex;
    match q {
      case Plain(c) =>
        assert s[i] == s[i..i + 1][0];
      case Short(letter) =>
        assert s[i + 1] == s[i..i + 2][1];
      case Unit(hex) =>
        HoldsUnit(s, i, hex, next);
        assert !IsPair(p.hex, hex, code, next);
      case Pair(high, low) =>
        var h: nat, l: nat :| IsPair(high, low, h, l);
        HoldsBoth(s, i, [92, 117] + high, [92, 117] + low);
        HoldsUnit(s, i, high, h);
    }
  }

  /** Whatever spells a value is decoded to it. */
  lemma {:induction false} SpellingIsRead(s: Text, i: nat, ps: seq<Piece>, value: Text)
    requires Spells(ps, value) && Holds(s, i, PiecesText(ps) + [QUOTE])
    ensures DecodeFrom(s, i) == Decoded(value, i + |PiecesText(ps)| + 1)
    decreases |ps|
  {
    hide DecodeFrom, Means, Joins, Holds, LowAt, PieceText, PiecesText;
    if ps == [] {
      NothingIsRead(s, i);
      assert value == [];
    } else {
      var p, rest := ps[0], ps[1..];
      assert ps == [p] + rest;
      SpellsRest(ps, value);
      PiecesGrow(p, rest);
      HoldsBoth(s, i, PieceText(p), PiecesText(rest) + [QUOTE]);
      FirstIsRead(s, i, p, rest, value[0], if rest == [] then 0 else value[1]);
      SpellingIsRead(s, i + |PieceText(p)|, rest, value[1..]);
      assert value == [value[0]] + value[1..];
    }
  }

  lemma NothingIsRead(s: Text, i: nat)
    requires Holds(s, i, PiecesText([]) + [QUOTE])
    ensures DecodeFrom(s, i) == Decoded([], i + |PiecesText([])| + 1)
  {
    assert PiecesText([]) + [QUOTE] == [QUOTE];
    assert s[i] == s[i..i + 1][0];
  }

  lemma FirstIsRead(s: Text, i: nat, p: Piece, rest: seq<Piece>, code: nat, next: nat)
    requires Holds(s, i, PieceText(p)) && Holds(s, i + |PieceText(p)|, PiecesText(rest) + [QUOTE]) && Means(p, code)
    requires rest != [] ==> Means(rest[0], next) && !Joins(p, rest[0])
    ensures DecodeFrom(s, i) == Prepend(code, DecodeFrom(s, i + |PieceText(p)|))
  {
    hide DecodeFrom, Joins, Holds, LowAt, PiecesText, IsHex;
    if p.Unit? && HighSurrogate(code) {
      HexIsValue(p.hex, code);
      NoLowBehind(s, i + 6, p, rest, code, next);
    }
    PieceIsRead(s, i, p, code);
  }

  lemma SpellsRest(ps: seq<Piece>, value: Text)
    requires Spells(ps, value) && ps != []
    ensures Spells(ps[1..], value[1..]) && Means(ps[0], value[0])
    ensures |ps| > 1 ==> Means(ps[1], value[1]) && !Joins(ps[0], ps[1])
  {
    hide Means, Joins;
    forall k | 0 < k < |ps[1..]| ensures !Joins(ps[1..][k - 1], ps[1..][k]) {
      assert !Joins(ps[k + 1 - 1], ps[k + 1]);
    }
  }

  // ----- What is read is a spelling -----

  /** The piece that the decoder takes at a place where it goes on. */
  ghost predicate Takes(s: Text, i: nat, p: Piece, code: nat) {
    && Means(p, code) && Holds(s, i, PieceText(p))
    && DecodeFrom(s, i) == Prepend(code, DecodeFrom(s, i + |PieceText(p)|))
    && (p.Unit? ==> !(HighSurrogate(code) && LowAt(s, i + 6)))
  }

  lemma TakesPiece(s: Text, i: nat) returns (p: Piece, code: nat)
    requires DecodeFrom(s, i).Decoded? && s[i] != QUOTE
    ensures Takes(s, i, p, code)
  {
    if s[i] != BACKSLASH {
      p, code := Plain(s[i]), s[i];
    } else if s[i + 1] != LETTER_U {
      p, code := Short(s[i + 1]), ShortEscape(s[i + 1]);
      assert s[i..i + 2] == PieceText(p);
    } else {
      p, code := TakesUnicode(s, i);
    }
  }

  lemma HexFound(s: Text, i: nat) returns (hex: Text)
    requires HexAt(s, i)
    ensures |hex| == 4 && Holds(s, i, hex) && IsHex(hex, HexCode(s, i))
  {
    hex := s[i..i + 4];
    HexMoves(s, i, hex);
    HexIsValue(hex, HexCode(s, i));
  }

  lemma UnitFound(s: Text, i: nat) returns (hex: Text)
    requires UnicodeEscapeAt(s, i)
    ensures |hex| == 4 && Holds(s, i, [92, 117] + hex) && IsHex(hex, HexCode(s, i + 2))
  {
    hex := HexFound(s, i + 2);
    hide HexAt, HexCode, IsHex;
    assert s[i..i + 6] == [s[i], s[i + 1]] + s[i + 2..i + 6];
  }

  lemma EscapeIsWhole(s: Text, i: nat)
    requires DecodeFrom(s, i).Decoded? && s[i] == BACKSLASH && i + 1 < |s| && s[i + 1] == LETTER_U
    ensures UnicodeEscapeAt(s, i)
  {
    hide HexAt, HexCode;
  }

  lemma TakesUnicode(s: Text, i: nat) returns (p: Piece, code: nat)
    requires DecodeFrom(s, i).Decoded? && s[i] == BACKSLASH && i + 1 < |s| && s[i + 1] == LETTER_U
    ensures Takes(s, i, p, code)
  {
    EscapeIsWhole(s, i);
    hide HexAt, HexCode, IsHex, HexValue, DecodeFrom, Holds;
    var hex := UnitFound(s, i);
    code := HexCode(s, i + 2);
    if HighSurrogate(code) && LowAt(s, i + 6) {
      var low := UnitFound(s, i + 6);
      var l := HexCode(s, i + 8);
      assert IsPair(hex, low, code, l);
      p := Pair(hex, low);
      HoldsJoined(s, i, [92, 117] + hex, [92, 117] + low);
      PairIsRead(s, i, hex, low, code, l);
      code := Joined(code, l);
    } else {
      p := Unit(hex);
      UnitIsRead(s, i, hex, code);
    }
  }

  lemma HoldsJoined(s: Text, i: nat, first: Text, second: Text)
    requires Holds(s, i, first) && Holds(s, i + |first|, second)
    ensures Holds(s, i, first + second)
  {
    var j, k := i + |first|, i + |first| + |second|;
    assert s[i..k] == s[i..j] + s[j..k];
  }

  lemma PiecesGrow(p: Piece, rest: seq<Piece>)
    ensures PiecesText([p] + rest) + [QUOTE] == PieceText(p) + (PiecesText(rest) + [QUOTE])
    ensures |PiecesText([p] + rest)| == |PieceText(p)| + |PiecesText(rest)|
  {
    hide PieceText;
    assert ([p] + rest)[1..] == rest;
  }

  lemma QuoteEnds(s: Text, i: nat)
    requires i < |s| && s[i] == QUOTE
    ensures Reads(s, i, [])
  {
    assert PiecesText([]) + [QUOTE] == s[i..i + 1];
  }

  lemma DecodedIsInside(s: Text, i: nat)
    requires DecodeFrom(s, i).Decoded?
    ensures i < |s|
  {
  }

  /** The pieces spell what is decoded from here, up to its closing quote. */
  ghost predicate Reads(s: Text, i: nat, ps: seq<Piece>) {
    var d := DecodeFrom(s, i);
    d.Decoded? && Spells(ps, d.value) && i + |PiecesText(ps)| + 1 == d.next && Holds(s, i, PiecesText(ps) + [QUOTE])
  }

  lemma ReadsMore(s: Text, i: nat, p: Piece, code: nat, rest: seq<Piece>)
    requires Takes(s, i, p, code) && Reads(s, i + |PieceText(p)|, rest)
    ensures Reads(s, i, [p] + rest)
  {
    hide DecodeFrom, Means, Joins, Holds, PieceText, PiecesText, LowAt;
    SpellsMore(s, i, p, code, rest, DecodeFrom(s, i + |PieceText(p)|).value);
    hide Spells;
    PiecesGrow(p, rest);
    HoldsJoined(s, i, PieceText(p), PiecesText(rest) + [QUOTE]);
  }

  lemma TakesOn(s: Text, i: nat, p: Piece, code: nat)
    requires Takes(s, i, p, code) && DecodeFrom(s, i).Decoded?
    ensures |PieceText(p)| >= 1 && i + |PieceText(p)| <= |s| && DecodeFrom(s, i + |PieceText(p)|).Decoded?
  {
    hide DecodeFrom, Means;
  }

  /** Whatever is decoded is spelled by the text up to its closing quote. */
  lemma {:induction false} ReadIsSpelling(s: Text, i: nat) returns (ps: seq<Piece>)
    requires DecodeFrom(s, i).Decoded?
    ensures Reads(s, i, ps)
    decreases |s| - i
  {
    hide DecodeFrom, Reads;
    DecodedIsInside(s, i);
    if s[i] == QUOTE {
      ps := [];
      QuoteEnds(s, i);
    } else {
      var p, code := TakesPiece(s, i);
      TakesOn(s, i, p, code);
      hide Takes, PieceText;
      var rest := ReadIsSpelling(s, i + |PieceText(p)|);
      ps := [p] + rest;
      ReadsMore(s, i, p, code, rest);
    }
  }

  lemma SpellsMore(s: Text, i: nat, p: Piece, code: nat, rest: seq<Piece>, value: Text)
    requires Takes(s, i, p, code) && Spells(rest, value)
    requires Holds(s, i + |PieceText(p)|, PiecesText(rest) + [QUOTE])
    ensures Spells([p] + rest, [code] + value)
  {
    hide Means, Joins, DecodeFrom, Holds, LowAt, PieceText, PiecesText;
    var ps := [p] + rest;
    if rest != [] && Joins(p, rest[0]) {
      UnitIsSix(p, rest[0], code);
      JoinedIsLow(s, i, p, code, rest);
    }
    forall k | 0 < k < |ps| ensures !Joins(ps[k - 1], ps[k]) {
      if k > 1 { assert ps[k - 1] == rest[k - 2] && ps[k] == rest[k - 1]; }
    }
  }

  lemma UnitIsSix(p: Piece, q: Piece, code: nat)
    requires Joins(p, q) && Means(p, code)
    ensures p.Unit? && |PieceText(p)| == 6
  {
    HexIsValue(p.hex, code);
  }

  lemma JoinedIsLow(s: Text, i: nat, p: Piece, code: nat, rest: seq<Piece>)
    requires rest != [] && Joins(p, rest[0]) && Means(p, code)
    requires Holds(s, i + 6, PiecesText(rest) + [QUOTE])
    ensures HighSurrogate(code) && LowAt(s, i + 6)
  {
    var h: nat, l: nat :| IsPair(p.hex, rest[0].hex, h, l);
    HexIsValue(p.hex, h);
    HexIsValue(p.hex, code);
    hide HexAt, HexCode, IsHex, Holds;
    assert rest == [rest[0]] + rest[1..];
    PiecesGrow(rest[0], rest[1..]);
    HoldsBoth(s, i + 6, PieceText(rest[0]), PiecesText(rest[1..]) + [QUOTE]);
    HoldsUnit(s, i + 6, rest[0].hex, l);
  }

  /** A text is a string of that value exactly when it spells it between two quotes. */
  lemma StringIsSpelling(text: Text, value: Text)
    ensures StringAt(text, 0) == Decoded(value, |text|) <==>
      exists ps :: Spells(ps, value) && text == [QUOTE] + PiecesText(ps) + [QUOTE]
  {
    hide DecodeFrom, Spells, PiecesText;
    if StringAt(text, 0) == Decoded(value, |text|) {
      var ps := ReadIsSpelling(text, 1);
      WholeIsQuoted(text, PiecesText(ps));
    }
    if ps :| Spells(ps, value) && text == [QUOTE] + PiecesText(ps) + [QUOTE] {
      assert Holds(text, 1, PiecesText(ps) + [QUOTE]);
      SpellingIsRead(text, 1, ps, value);
    }
  }

  lemma WholeIsQuoted(text: Text, body: Text)
    requires |text| == |body| + 2 && text[0] == QUOTE && Holds(text, 1, body + [QUOTE])
    ensures text == [QUOTE] + body + [QUOTE]
  {
    assert text == [text[0]] + text[1..];
    assert text[1..] == text[1..1 + |body + [QUOTE]|];
  }
}
