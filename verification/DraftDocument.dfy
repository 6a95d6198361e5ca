/** A complete draft document and what the partial readers of `app/ai.py` find in it: an object whose
    members are strings and lists of strings, in any order, with any blanks between its marks. */
module DraftDocuments {
  import opened Options
  import opened JsonStrings
  import opened DraftFields
  import opened DraftStreams

  const BRACE: nat := 123
  const END_BRACE: nat := 125

  /** A JSON string in whatever escapes its writer chose. */
  datatype Token = Token(text: Text, value: Text)

  ghost predicate IsToken(t: Token) {
    |t.text| >= 2 && t.text[0] == QUOTE && DecodeFrom(t.text, 1) == Decoded(t.value, |t.text|)
  }

  /** An item of a list, with the blanks behind it and behind its comma. */
  datatype Item = Item(token: Token, after: Text, next: Text)

  datatype Value = Str(token: Token) | List(lead: Text, items: seq<Item>)

  /** A member with the blanks around its colon, behind its value and behind its comma. */
  datatype Member = Member(
    name: Text, beforeColon: Text, afterColon: Text, value: Value, after: Text, next: Text)

  /** The tail is the closing brace and whatever a writer puts behind it. */
  datatype Document = Document(lead: Text, members: seq<Member>, tail: Text)

  ghost predicate IsBlank(w: Text, isSpace: Space) {
    forall c :: c in w ==> isSpace(c) && (c == 32 || c == 9 || c == 10 || c == 13)
  }

  ghost predicate IsItem(item: Item, isSpace: Space) {
    IsToken(item.token) && IsBlank(item.after, isSpace) && IsBlank(item.next, isSpace)
  }

  ghost predicate AreItems(items: seq<Item>, isSpace: Space) {
    forall k :: 0 <= k < |items| ==> IsItem(items[k], isSpace)
  }

  ghost predicate IsValue(value: Value, isSpace: Space) {
    match value
    case Str(token) => IsToken(token)
    case List(lead, items) => IsBlank(lead, isSpace) && AreItems(items, isSpace)
  }

  ghost predicate IsMember(m: Member, isSpace: Space) {
    && PlainName(m.name, isSpace) && IsValue(m.value, isSpace)
    && IsBlank(m.beforeColon, isSpace) && IsBlank(m.afterColon, isSpace)
    && IsBlank(m.after, isSpace) && IsBlank(m.next, isSpace)
  }

  ghost predicate AreMembers(ms: seq<Member>, isSpace: Space) {
    forall k :: 0 <= k < |ms| ==> IsMember(ms[k], isSpace)
  }

  ghost predicate IsDocument(d: Document, isSpace: Space) {
    WordSpace(isSpace) && IsBlank(d.lead, isSpace) && AreMembers(d.members, isSpace)
  }

  // ----- The text of a document -----

  function Comma(after: Text, next: Text): Text {
    after + [COMMA] + next
  }

  /** What stands between the first item and the next one or the closing bracket. */
  function Gap(items: seq<Item>): Text
    requires items != []
  {
    if |items| == 1 then items[0].after else Comma(items[0].after, items[0].next)
  }

  function ItemsText(items: seq<Item>): Text {
    if items == [] then [CLOSE] else items[0].token.text + (Gap(items) + ItemsText(items[1..]))
  }

  function ValueText(value: Value): Text {
    match value
    case Str(token) => token.text
    case List(lead, items) => [OPEN] + (lead + ItemsText(items))
  }

  function KeyText(m: Member): Text {
    Quoted(m.name) + (m.beforeColon + [COLON] + m.afterColon)
  }

  function MembersText(ms: seq<Member>, tail: Text): Text {
    if ms == [] then tail
    else
      (KeyText(ms[0]) + ValueText(ms[0].value))
      + (if |ms| == 1 then ms[0].after + tail
         else Comma(ms[0].after, ms[0].next) + MembersText(ms[1..], tail))
  }

  function DocumentText(d: Document): Text {
    ([BRACE] + d.lead) + MembersText(d.members, d.tail)
  }

  // ----- Tokens mean the same wherever they stand -----

  function Shift(d: Decoded, offset: nat): Decoded {
    if d.Decoded? then Decoded(d.value, d.next + offset) else Incomplete
  }

  lemma EscapeShifts(s: Text, tail: Text, i: nat, k: nat)
    requires i <= |s| && tail == s[i..] && k < |tail|
    ensures EscapeAt(s, i + k)
      == (var e := EscapeAt(tail, k); if e.Escaped? then Escaped(e.code, e.next + i) else BadEscape)
  {
    assert forall j :: 0 <= j < |tail| ==> tail[j] == s[i + j];
    assert k + 12 <= |tail| ==> HexAt(tail, k + 8) == HexAt(s, i + k + 8);
    assert k + 6 <= |tail| ==> HexAt(tail, k + 2) == HexAt(s, i + k + 2);
    hide HexValue;
  }

  lemma {:induction false} DecodeShifts(s: Text, tail: Text, i: nat, k: nat)
    requires i <= |s| && tail == s[i..]
    ensures DecodeFrom(s, i + k) == Shift(DecodeFrom(tail, k), i)
    decreases |tail| - k
  {
    hide EscapeAt;
    if k < |tail| && tail[k] >= 32 && tail[k] != QUOTE {
      if tail[k] == BACKSLASH {
        EscapeShifts(s, tail, i, k);
        if EscapeAt(tail, k).Escaped? { DecodeShifts(s, tail, i, EscapeAt(tail, k).next); }
      } else {
        DecodeShifts(s, tail, i, k + 1);
      }
    }
  }

  lemma TokenDecodes(s: Text, i: nat, t: Token)
    requires IsToken(t) && Holds(s, i, t.text)
    ensures i < |s| && s[i] == QUOTE && DecodeFrom(s, i + 1) == Decoded(t.value, i + |t.text|)
  {
    hide DecodeFrom;
    var tail := s[i..];
    assert tail[..|t.text|] == s[i..i + |t.text|];
    assert t.text <= tail;
    DecodeIsStable(t.text, tail, 1);
    DecodeShifts(s, tail, i, 1);
    assert s[i] == tail[0];
  }

  /** Every text has a token: its plain encoding. */
  lemma EncodingIsToken(value: Text)
    ensures IsToken(Token(Encode(value), value))
  {
    hide DecodeFrom, EncodeBody;
    DecodeUndoesEncode([], value, []);
    assert [] + Encode(value) + [] == Encode(value);
  }

  // ----- No key is found inside another member -----

  lemma QuotesAround(s: Text, i: nat, field: Text)
    requires Holds(s, i, Quoted(field))
    ensures s[i] == QUOTE && s[i + |field| + 1] == QUOTE
    ensures field != [] ==> s[i + 1] == field[0] && s[i + |field|] == field[|field| - 1]
  {
    var part := s[i..i + |field| + 2];
    assert part[0] == s[i] && part[|field| + 1] == s[i + |field| + 1];
    assert field != [] ==> part[1] == s[i + 1] && part[|field|] == s[i + |field|];
  }

  lemma NotInName(s: Text, i: nat, name: Text, field: Text, k: nat, isSpace: Space)
    requires PlainName(name, isSpace) && PlainName(field, isSpace) && name != field
    requires Holds(s, i, Quoted(name)) && i <= k < i + |name| + 2
    requires i + |name| + 2 < |s| && s[i + |name| + 2] != field[0]
    ensures !Holds(s, k, Quoted(field))
  {
    QuotesAround(s, i, name);
    NameHoldsNoQuote(s, name, i);
    if Holds(s, k, Quoted(field)) {
      QuotesAround(s, k, field);
      NameHoldsNoQuote(s, field, k);
      if k == i && |name| == |field| { SameName(s, i, name, field); }
    }
  }

  lemma SameName(s: Text, i: nat, name: Text, field: Text)
    requires Holds(s, i, Quoted(name)) && Holds(s, i, Quoted(field)) && |name| == |field|
    ensures name == field
  {
    assert name == Quoted(name)[1..|name| + 1] && field == Quoted(field)[1..|field| + 1];
  }

  /** A quoted name inside a token can only end where the token ends. */
  lemma NameEndsWithToken(s: Text, i: nat, t: Token, field: Text, k: nat)
    requires IsToken(t) && field != [] && QUOTE !in field && BACKSLASH !in field && Holds(s, i, t.text)
    requires i <= k < i + |t.text| - 1 && Holds(s, k, Quoted(field))
    ensures k + |field| + 2 == i + |t.text|
  {
    hide DecodeFrom, IsToken, Holds;
    TokenStarts(t);
    TokenDecodes(s, i, t);
    QuotesAround(s, k, field);
    NameHoldsNoQuote(s, field, k);
    var close := k + |field| + 1;
    assert field[|field| - 1] in field;
    if close < i + |t.text| - 1 {
      InnerQuotesAreEscaped(s, i + 1, close);
    }
  }

  /** So a value is never taken for a key: no colon follows it. */
  lemma NotInToken(s: Text, i: nat, t: Token, field: Text, k: nat, bracket: bool, isSpace: Space)
    requires IsToken(t) && PlainName(field, isSpace) && Holds(s, i, t.text) && i <= k < i + |t.text|
    requires i + |t.text| < |s| && s[i + |t.text|] != field[0]
    requires var after := SkipSpace(s, i + |t.text|, isSpace); after < |s| && s[after] != COLON
    ensures MatchAt(s, field, k, bracket, isSpace).None?
  {
    hide IsToken;
    if Holds(s, k, Quoted(field)) {
      if k == i + |t.text| - 1 {
        QuotesAround(s, k, field);
      } else {
        NameEndsWithToken(s, i, t, field, k);
      }
    }
    hide Holds;
  }

  lemma {:induction false} BlankIsSkipped(s: Text, i: nat, w: Text, isSpace: Space)
    requires IsBlank(w, isSpace) && Holds(s, i, w) && i + |w| < |s| && !isSpace(s[i + |w|])
    ensures SkipSpace(s, i, isSpace) == i + |w|
    decreases |w|
  {
    if w != [] {
      assert s[i] == s[i..i + |w|][0] && w[0] in w;
      assert s[i + 1..i + |w|] == s[i..i + |w|][1..];
      BlankIsSkipped(s, i + 1, w[1..], isSpace);
    }
  }

  // ----- Skipping what is no key -----

  lemma HoldsFirst(s: Text, i: nat, part: Text)
    requires Holds(s, i, part) && part != []
    ensures i < |s| && s[i] == part[0]
  {
    assert s[i] == s[i..i + |part|][0];
  }

  lemma HoldsFits(s: Text, i: nat, part: Text)
    requires Holds(s, i, part)
    ensures i + |part| <= |s|
  {
  }

  /** No field matches from `i` up to `j`. */
  ghost predicate NoKey(s: Text, field: Text, i: nat, j: nat, bracket: bool, isSpace: Space) {
    forall k :: i <= k < j ==> MatchAt(s, field, k, bracket, isSpace).None?
  }

  lemma NoQuoteNoKey(s: Text, i: nat, part: Text, field: Text, bracket: bool, isSpace: Space)
    requires Holds(s, i, part) && QUOTE !in part
    ensures NoKey(s, field, i, i + |part|, bracket, isSpace)
  {
    forall k: nat | i <= k < i + |part|
      ensures MatchAt(s, field, k, bracket, isSpace).None?
    {
      assert s[k] == s[i..i + |part|][k - i] == part[k - i];
      if Holds(s, k, Quoted(field)) { QuotesAround(s, k, field); }
    }
  }

  lemma BlankHasNoQuote(w: Text, isSpace: Space)
    requires IsBlank(w, isSpace) && ProperSpace(isSpace)
    ensures QUOTE !in w
  {
  }

  /** Behind a blank stands a mark, and neither starts like a name. */
  lemma MarkFollows(s: Text, i: nat, w: Text, c: nat, field: Text, isSpace: Space)
    requires IsBlank(w, isSpace) && !isSpace(c) && Holds(s, i, w + [c]) && PlainName(field, isSpace) && c != field[0]
    ensures SkipSpace(s, i, isSpace) == i + |w| && i < |s| && s[i] != field[0]
    ensures i + |w| < |s| && s[i + |w|] == c
  {
    HoldsBoth(s, i, w, [c]);
    HoldsFirst(s, i + |w|, [c]);
    HoldsFirst(s, i, w + [c]);
    assert w != [] ==> (w + [c])[0] in w;
    BlankIsSkipped(s, i, w, isSpace);
  }

  lemma {:induction false} SkipTo(s: Text, field: Text, i: nat, j: nat, bracket: bool, isSpace: Space)
    requires i <= j <= |s| && NoKey(s, field, i, j, bracket, isSpace)
    ensures FindKey(s, field, i, bracket, isSpace) == FindKey(s, field, j, bracket, isSpace)
    decreases j - i
  {
    hide MatchAt;
    if i < j { SkipTo(s, field, i + 1, j, bracket, isSpace); }
  }

  /** A token with a mark behind it other than a colon holds no key. */
  lemma TokenSkipped(s: Text, i: nat, t: Token, w: Text, c: nat, field: Text, bracket: bool, isSpace: Space)
    requires IsToken(t) && IsBlank(w, isSpace) && PlainName(field, isSpace)
    requires Holds(s, i, t.text + (w + [c])) && !isSpace(c) && c != COLON && c != field[0]
    ensures NoKey(s, field, i, i + |t.text|, bracket, isSpace)
  {
    hide IsToken, MatchAt, Holds;
    HoldsBoth(s, i, t.text, w + [c]);
    MarkFollows(s, i + |t.text|, w, c, field, isSpace);
    forall k: nat | i <= k < i + |t.text|
      ensures MatchAt(s, field, k, bracket, isSpace).None?
    {
      NotInToken(s, i, t, field, k, bracket, isSpace);
    }
  }

  lemma PartsHaveNoKey(s: Text, i: nat, j: nat, k: nat, field: Text, bracket: bool, isSpace: Space)
    requires i <= j <= k && NoKey(s, field, i, j, bracket, isSpace) && NoKey(s, field, j, k, bracket, isSpace)
    ensures NoKey(s, field, i, k, bracket, isSpace)
  {
  }

  lemma HoldsStart(s: Text, i: nat, part: Text, start: Text)
    requires Holds(s, i, part) && start <= part
    ensures Holds(s, i, start)
  {
    assert part == start + part[|start|..];
    HoldsBoth(s, i, start, part[|start|..]);
  }

  /** The mark behind an item. */
  function ItemMark(items: seq<Item>): nat {
    if |items| == 1 then CLOSE else COMMA
  }

  lemma ItemEnds(items: seq<Item>)
    requires items != []
    ensures items[0].token.text + (items[0].after + [ItemMark(items)]) <= ItemsText(items)
  {
    var first, later := items[0], ItemsText(items[1..]);
    if |items| == 1 {
      assert later == [CLOSE];
      assert first.token.text + (Gap(items) + later) == first.token.text + (first.after + [CLOSE]);
    } else {
      assert first.token.text + (Gap(items) + later)
        == (first.token.text + (first.after + [COMMA])) + (first.next + later);
    }
    hide ItemsText;
  }

  lemma GapHasNoQuote(items: seq<Item>, isSpace: Space)
    requires items != [] && IsItem(items[0], isSpace) && ProperSpace(isSpace)
    ensures QUOTE !in Gap(items)
    ensures forall c :: c in Gap(items) ==> Separator(c)
  {
  }

  lemma {:induction false} ItemsSkipped(s: Text, i: nat, items: seq<Item>, field: Text, bracket: bool, isSpace: Space)
    requires AreItems(items, isSpace) && ProperSpace(isSpace) && PlainName(field, isSpace)
    requires Holds(s, i, ItemsText(items))
    ensures NoKey(s, field, i, i + |ItemsText(items)|, bracket, isSpace)
    decreases |items|
  {
    hide Holds, NoKey, IsToken, IsBlank, Gap;
    if items == [] {
      NoQuoteNoKey(s, i, [CLOSE], field, bracket, isSpace);
    } else {
      var t, gap, rest := items[0].token, Gap(items), ItemsText(items[1..]);
      assert IsItem(items[0], isSpace);
      ItemEnds(items);
      HoldsStart(s, i, ItemsText(items), t.text + (items[0].after + [ItemMark(items)]));
      TokenSkipped(s, i, t, items[0].after, ItemMark(items), field, bracket, isSpace);
      HoldsBoth(s, i, t.text, gap + rest);
      HoldsBoth(s, i + |t.text|, gap, rest);
      GapHasNoQuote(items, isSpace);
      NoQuoteNoKey(s, i + |t.text|, gap, field, bracket, isSpace);
      ItemsSkipped(s, i + |t.text| + |gap|, items[1..], field, bracket, isSpace);
      PartsHaveNoKey(s, i, i + |t.text|, i + |t.text| + |gap|, field, bracket, isSpace);
      PartsHaveNoKey(s, i, i + |t.text| + |gap|, i + |ItemsText(items)|, field, bracket, isSpace);
    }
  }

  lemma ValueSkipped(s: Text, i: nat, value: Value, after: Text, field: Text, bracket: bool, isSpace: Space)
    requires IsValue(value, isSpace) && IsBlank(after, isSpace) && ProperSpace(isSpace) && PlainName(field, isSpace)
    requires Holds(s, i, ValueText(value) + (after + [COMMA]))
    ensures NoKey(s, field, i, i + |ValueText(value)|, bracket, isSpace)
  {
    hide Holds, NoKey, IsToken, PlainName, ItemsText;
    match value
    case Str(token) =>
      TokenSkipped(s, i, token, after, COMMA, field, bracket, isSpace) by { CommaStartsNoName(field, isSpace); }
    case List(lead, items) =>
      HoldsBoth(s, i, ValueText(value), after + [COMMA]);
      HoldsBoth(s, i, [OPEN], lead + ItemsText(items));
      HoldsBoth(s, i + 1, lead, ItemsText(items));
      NoQuoteNoKey(s, i, [OPEN], field, bracket, isSpace);
      BlankHasNoQuote(lead, isSpace);
      NoQuoteNoKey(s, i + 1, lead, field, bracket, isSpace);
      ItemsSkipped(s, i + 1 + |lead|, items, field, bracket, isSpace);
      PartsHaveNoKey(s, i, i + 1, i + 1 + |lead|, field, bracket, isSpace);
      PartsHaveNoKey(s, i, i + 1 + |lead|, i + |ValueText(value)|, field, bracket, isSpace);
  }

  lemma CommaStartsNoName(field: Text, isSpace: Space)
    requires PlainName(field, isSpace)
    ensures field != [] && COMMA != field[0] && COLON != field[0]
  {
  }

  lemma KeyParts(s: Text, i: nat, m: Member)
    requires Holds(s, i, KeyText(m))
    ensures |KeyText(m)| == |m.name| + 2 + |m.beforeColon| + 1 + |m.afterColon|
    ensures Holds(s, i, Quoted(m.name)) && Holds(s, i + |m.name| + 2, m.beforeColon + [COLON])
    ensures Holds(s, i + |m.name| + 2, m.beforeColon + [COLON] + m.afterColon)
    ensures Holds(s, i + |m.name| + 2 + |m.beforeColon| + 1, m.afterColon)
  {
    hide Holds;
    HoldsBoth(s, i, Quoted(m.name), m.beforeColon + [COLON] + m.afterColon);
    HoldsBoth(s, i + |m.name| + 2, m.beforeColon + [COLON], m.afterColon);
  }

  lemma ColonHasNoQuote(before: Text, after: Text, isSpace: Space)
    requires IsBlank(before, isSpace) && IsBlank(after, isSpace) && ProperSpace(isSpace)
    ensures QUOTE !in before + [COLON] + after
  {
  }

  lemma NoNameNoMatch(s: Text, field: Text, k: nat, bracket: bool, isSpace: Space)
    requires !Holds(s, k, Quoted(field))
    ensures MatchAt(s, field, k, bracket, isSpace).None?
  {
  }

  /** Another member's name is not the key, for all that its colon follows. */
  lemma OtherKeySkipped(s: Text, i: nat, m: Member, field: Text, bracket: bool, isSpace: Space)
    requires IsMember(m, isSpace) && ProperSpace(isSpace) && PlainName(field, isSpace) && m.name != field
    requires Holds(s, i, KeyText(m))
    ensures NoKey(s, field, i, i + |KeyText(m)|, bracket, isSpace)
  {
    var marks := m.beforeColon + [COLON] + m.afterColon;
    KeyParts(s, i, m);
    HoldsFits(s, i, KeyText(m));
    CommaStartsNoName(field, isSpace);
    hide Holds, MatchAt, IsValue, IsBlank, KeyText, Quoted, PlainName;
    MarkFollows(s, i + |m.name| + 2, m.beforeColon, COLON, field, isSpace);
    ColonHasNoQuote(m.beforeColon, m.afterColon, isSpace);
    NoQuoteNoKey(s, i + |m.name| + 2, marks, field, bracket, isSpace);
    forall k: nat | i <= k < i + |m.name| + 2
      ensures MatchAt(s, field, k, bracket, isSpace).None?
    {
      NotInName(s, i, m.name, field, k, isSpace);
      NoNameNoMatch(s, field, k, bracket, isSpace);
    }
  }

  lemma MemberParts(s: Text, i: nat, key: Text, value: Text, after: Text, next: Text, rest: Text)
    requires Holds(s, i, (key + value) + (Comma(after, next) + rest))
    ensures Holds(s, i, key) && Holds(s, i + |key|, value + (after + [COMMA]))
    ensures Holds(s, i + |key| + |value|, Comma(after, next))
    ensures Holds(s, i + |key| + |value| + |Comma(after, next)|, rest)
  {
    var comma := Comma(after, next);
    assert (key + value) + (comma + rest) == key + ((value + (after + [COMMA])) + (next + rest));
    hide Holds, Comma;
    HoldsBoth(s, i, key + value, comma + rest);
    HoldsBoth(s, i + |key| + |value|, comma, rest);
    HoldsBoth(s, i, key, (value + (after + [COMMA])) + (next + rest));
    HoldsBoth(s, i + |key|, value + (after + [COMMA]), next + rest);
  }

  lemma CommaHasNoQuote(after: Text, next: Text, isSpace: Space)
    requires IsBlank(after, isSpace) && IsBlank(next, isSpace) && ProperSpace(isSpace)
    ensures QUOTE !in Comma(after, next)
  {
  }

  lemma MemberSkipped(s: Text, i: nat, m: Member, rest: Text, field: Text, bracket: bool, isSpace: Space)
    requires IsMember(m, isSpace) && ProperSpace(isSpace) && PlainName(field, isSpace) && m.name != field
    requires Holds(s, i, (KeyText(m) + ValueText(m.value)) + (Comma(m.after, m.next) + rest))
    ensures var end := i + |KeyText(m)| + |ValueText(m.value)| + |Comma(m.after, m.next)|;
      NoKey(s, field, i, end, bracket, isSpace) && Holds(s, end, rest)
  {
    var key, value, comma := KeyText(m), ValueText(m.value), Comma(m.after, m.next);
    hide Holds, NoKey, IsValue, IsBlank, PlainName, ProperSpace, Comma, KeyText, ValueText;
    MemberParts(s, i, key, value, m.after, m.next, rest);
    CommaHasNoQuote(m.after, m.next, isSpace);
    OtherKeySkipped(s, i, m, field, bracket, isSpace);
    ValueSkipped(s, i + |key|, m.value, m.after, field, bracket, isSpace);
    NoQuoteNoKey(s, i + |key| + |value|, comma, field, bracket, isSpace);
    PartsHaveNoKey(s, i, i + |key|, i + |key| + |value|, field, bracket, isSpace);
    PartsHaveNoKey(s, i, i + |key| + |value|, i + |key| + |value| + |comma|, field, bracket, isSpace);
  }

  ghost predicate NotNamed(ms: seq<Member>, field: Text) {
    forall k :: 0 <= k < |ms| ==> ms[k].name != field
  }

  /** The search walks over every member before the one of its name. */
  lemma {:induction false} MembersSkipped(s: Text, i: nat, ms: seq<Member>, tail: Text, n: nat, field: Text,
      bracket: bool, isSpace: Space) returns (at: nat)
    requires AreMembers(ms, isSpace) && ProperSpace(isSpace) && PlainName(field, isSpace)
    requires n < |ms| && NotNamed(ms[..n], field) && Holds(s, i, MembersText(ms, tail))
    ensures FindKey(s, field, i, bracket, isSpace) == FindKey(s, field, at, bracket, isSpace)
    ensures Holds(s, at, KeyText(ms[n]) + ValueText(ms[n].value))
    decreases n
  {
    hide MatchAt, FindKey, IsMember, PlainName, KeyText, ValueText, Holds, NoKey, Comma;
    if n == 0 {
      at := i;
      HoldsStart(s, i, MembersText(ms, tail), KeyText(ms[0]) + ValueText(ms[0].value));
    } else {
      var m, rest := ms[0], MembersText(ms[1..], tail);
      assert ms[..n][0] == m && ms[..n][1..] == ms[1..][..n - 1];
      MemberSkipped(s, i, m, rest, field, bracket, isSpace);
      var end := i + |KeyText(m)| + |ValueText(m.value)| + |Comma(m.after, m.next)|;
      HoldsFits(s, end, rest);
      SkipTo(s, field, i, end, bracket, isSpace);
      assert NotNamed(ms[1..][..n - 1], field) by { LaterNotNamed(ms[..n], field); }
      at := MembersSkipped(s, end, ms[1..], tail, n - 1, field, bracket, isSpace);
    }
  }

  lemma LaterNotNamed(ms: seq<Member>, field: Text)
    requires NotNamed(ms, field) && ms != []
    ensures NotNamed(ms[1..], field)
  {
  }

  // ----- The first match of a key -----

  lemma ValueStarts(value: Value, isSpace: Space)
    requires IsValue(value, isSpace) && ProperSpace(isSpace)
    ensures ValueText(value) != [] && !isSpace(ValueText(value)[0])
    ensures value.List? ==> ValueText(value)[0] == OPEN
  {
    hide DecodeFrom, ItemsText;
  }

  lemma KeyMatches(s: Text, i: nat, m: Member, bracket: bool, isSpace: Space)
    requires IsMember(m, isSpace) && ProperSpace(isSpace) && (bracket ==> m.value.List?)
    requires Holds(s, i, KeyText(m) + ValueText(m.value))
    ensures MatchAt(s, m.name, i, bracket, isSpace) == Some(i + |KeyText(m)| + if bracket then 1 else 0)
    ensures Holds(s, i + |KeyText(m)|, ValueText(m.value))
  {
    var colon, atValue := i + |m.name| + 2, i + |KeyText(m)|;
    hide Holds, MatchAt, IsValue, IsBlank, ValueText, KeyText, Quoted;
    HoldsBoth(s, i, KeyText(m), ValueText(m.value));
    KeyParts(s, i, m);
    ValueStarts(m.value, isSpace);
    HoldsFirst(s, atValue, ValueText(m.value));
    MarkFollows(s, colon, m.beforeColon, COLON, m.name, isSpace);
    BlankIsSkipped(s, colon + |m.beforeColon| + 1, m.afterColon, isSpace);
    MatchIs(s, m.name, i, bracket, isSpace, colon + |m.beforeColon|, atValue);
  }

  lemma MatchIs(s: Text, field: Text, i: nat, bracket: bool, isSpace: Space, colon: nat, end: nat)
    requires Holds(s, i, Quoted(field)) && SkipSpace(s, i + |field| + 2, isSpace) == colon
    requires colon < |s| && s[colon] == COLON && SkipSpace(s, colon + 1, isSpace) == end
    requires bracket ==> end < |s| && s[end] == OPEN
    ensures MatchAt(s, field, i, bracket, isSpace) == Some(end + if bracket then 1 else 0)
  {
  }

  /** The one member of its name. */
  ghost predicate Named(d: Document, field: Text, n: nat) {
    && n < |d.members| && d.members[n].name == field
    && NotNamed(d.members[..n], field) && NotNamed(d.members[n + 1..], field)
  }

  lemma FirstKey(d: Document, field: Text, n: nat, bracket: bool, isSpace: Space) returns (at: nat)
    requires IsDocument(d, isSpace) && PlainName(field, isSpace) && Named(d, field, n)
    requires bracket ==> d.members[n].value.List?
    ensures FindKey(DocumentText(d), field, 0, bracket, isSpace) == Some(at + if bracket then 1 else 0)
    ensures Holds(DocumentText(d), at, ValueText(d.members[n].value))
  {
    hide MatchAt, IsMember, PlainName, NoKey, KeyText, ValueText, MembersText;
    var s, head, m := DocumentText(d), [BRACE] + d.lead, d.members[n];
    assert Holds(s, 0, head + MembersText(d.members, d.tail));
    hide Holds;
    HoldsBoth(s, 0, head, MembersText(d.members, d.tail));
    HoldsFits(s, 0, head);
    BlankHasNoQuote(d.lead, isSpace);
    NoQuoteNoKey(s, 0, head, field, bracket, isSpace);
    SkipTo(s, field, 0, |head|, bracket, isSpace);
    var key := MembersSkipped(s, |head|, d.members, d.tail, n, field, bracket, isSpace);
    assert IsMember(m, isSpace);
    KeyMatches(s, key, m, bracket, isSpace);
    at := key + |KeyText(m)|;
    HoldsFits(s, at, ValueText(m.value));
    MatchIsFound(s, field, key, bracket, isSpace);
  }

  lemma MatchIsFound(s: Text, field: Text, i: nat, bracket: bool, isSpace: Space)
    requires MatchAt(s, field, i, bracket, isSpace).Some?
    ensures FindKey(s, field, i, bracket, isSpace) == MatchAt(s, field, i, bracket, isSpace)
  {
  }

  // ----- The items -----

  function Values(items: seq<Item>): seq<Text> {
    seq(|items|, i requires 0 <= i < |items| => items[i].token.value)
  }

  lemma {:induction false} SeparatorsSkipped(s: Text, i: nat, lead: Text)
    requires Holds(s, i, lead) && (forall c :: c in lead ==> Separator(c))
    requires i + |lead| < |s| && !Separator(s[i + |lead|])
    ensures SkipSeparators(s, i) == i + |lead|
    decreases |lead|
  {
    if lead != [] {
      assert s[i] == s[i..i + |lead|][0] && lead[0] in lead;
      assert s[i + 1..i + |lead|] == s[i..i + |lead|][1..];
      SeparatorsSkipped(s, i + 1, lead[1..]);
    }
  }

  lemma NoItemsLeft(s: Text, i: nat, lead: Text)
    requires (forall c :: c in lead ==> Separator(c)) && Holds(s, i, lead + [CLOSE])
    ensures i <= |s| && ItemsFrom(s, i) == []
  {
    HoldsBoth(s, i, lead, [CLOSE]);
    HoldsFirst(s, i + |lead|, [CLOSE]);
    hide Holds;
    SeparatorsSkipped(s, i, lead);
  }

  lemma ItemAt(s: Text, i: nat, start: nat, value: Text, next: nat)
    requires i <= |s| && SkipSeparators(s, i) == start && StringAt(s, start) == Decoded(value, next)
    ensures ItemsFrom(s, i) == [value] + ItemsFrom(s, next)
  {
    hide StringAt;
  }

  lemma OneItemRead(s: Text, i: nat, lead: Text, t: Token, rest: Text)
    requires IsToken(t) && (forall c :: c in lead ==> Separator(c)) && Holds(s, i, lead + (t.text + rest))
    ensures Holds(s, i + |lead| + |t.text|, rest) && i + |lead| + |t.text| <= |s|
    ensures ItemsFrom(s, i) == [t.value] + ItemsFrom(s, i + |lead| + |t.text|)
  {
    hide Holds, IsToken, DecodeFrom, ItemsFrom, SkipSeparators;
    HoldsBoth(s, i, lead, t.text + rest);
    HoldsBoth(s, i + |lead|, t.text, rest);
    HoldsFits(s, i + |lead|, t.text);
    TokenDecodes(s, i + |lead|, t);
    SeparatorsSkipped(s, i, lead);
    ItemAt(s, i, i + |lead|, t.value, i + |lead| + |t.text|);
  }

  lemma {:induction false} ItemsAreRead(s: Text, i: nat, lead: Text, items: seq<Item>, isSpace: Space)
    requires AreItems(items, isSpace) && ProperSpace(isSpace) && (forall c :: c in lead ==> Separator(c))
    requires Holds(s, i, lead + ItemsText(items))
    ensures i <= |s| && ItemsFrom(s, i) == Values(items)
    decreases |items|
  {
    hide ItemsFrom, IsToken, IsBlank, Gap, Holds;
    if items == [] {
      NoItemsLeft(s, i, lead);
    } else {
      var t, gap := items[0].token, Gap(items);
      assert IsItem(items[0], isSpace);
      GapHasNoQuote(items, isSpace);
      OneItemRead(s, i, lead, t, gap + ItemsText(items[1..]));
      ItemsAreRead(s, i + |lead| + |t.text|, gap, items[1..], isSpace);
      assert Values(items) == [t.value] + Values(items[1..]);
      HoldsFits(s, i, lead + ItemsText(items));
    }
  }

  lemma TokenStarts(t: Token)
    ensures IsToken(t) ==> |t.text| >= 2 && t.text[0] == QUOTE
  {
  }

  // ----- The whole document -----

  /** The items of a list are read whole, wherever in the document the list stands. */
  lemma ParagraphsAreRead(d: Document, p: nat, isSpace: Space)
    requires IsDocument(d, isSpace) && Named(d, PARAGRAPHS, p) && d.members[p].value.List?
    ensures CompleteItems(DocumentText(d), PARAGRAPHS, isSpace) == Values(d.members[p].value.items)
  {
    hide FindKey, DocumentText, Holds, ItemsText, ItemsFrom, IsToken, DecodeFrom, PlainName, NotNamed, Values;
    NamesArePlain(isSpace);
    var at := FirstKey(d, PARAGRAPHS, p, true, isSpace);
    var list := d.members[p].value;
    assert IsMember(d.members[p], isSpace);
    HoldsBoth(DocumentText(d), at, [OPEN], list.lead + ItemsText(list.items));
    assert forall c :: c in list.lead ==> Separator(c);
    ItemsAreRead(DocumentText(d), at + 1, list.lead, list.items, isSpace);
  }

  lemma GreetingIsRead(d: Document, g: nat, isSpace: Space)
    requires IsDocument(d, isSpace) && Named(d, GREETING, g) && d.members[g].value.Str?
    ensures CompleteString(DocumentText(d), GREETING, isSpace) == Some(d.members[g].value.token.value)
  {
    hide FindKey, DocumentText, Holds, IsToken, DecodeFrom, PlainName, NotNamed;
    NamesArePlain(isSpace);
    var at := FirstKey(d, GREETING, g, false, isSpace);
    assert IsMember(d.members[g], isSpace);
    TokenDecodes(DocumentText(d), at, d.members[g].value.token);
  }

  /** The draft a document stands for. */
  ghost predicate Drafts(d: Document, isSpace: Space, g: nat, p: nat, preview: Preview) {
    && IsDocument(d, isSpace)
    && Named(d, GREETING, g) && d.members[g].value.Str? && d.members[g].value.token.value == preview.greeting
    && Named(d, PARAGRAPHS, p) && d.members[p].value.List? && Values(d.members[p].value.items) == preview.paragraphs
  }

  /** Whatever snapshots of a draft document arrive, what was shown and what the final message adds make
      up the draft: the greeting, each paragraph once and in order, the closing. */
  lemma StreamShowsDraft(d: Document, isSpace: Space, g: nat, p: nat, preview: Preview,
      greeting: Option<Text>, count: nat, blocks: seq<Block>, seen: Text)
    requires Drafts(d, isSpace, g, p, preview) && seen <= DocumentText(d)
    requires Shown(greeting, count, blocks, seen, isSpace)
    ensures blocks + Owed(greeting, count, preview) == Whole(preview)
  {
    hide AreMembers, Named, DocumentText, CompleteItems, CompleteString, Whole, Owed;
    NamesArePlain(isSpace);
    ParagraphsAreRead(d, p, isSpace);
    GreetingIsRead(d, g, isSpace);
    ItemsArePrefixMonotone(seen, DocumentText(d), PARAGRAPHS, isSpace);
    if greeting.Some? { StringFieldIsStable(seen, DocumentText(d), GREETING, isSpace); }
    StreamIsWholeExactly(greeting, count, blocks, seen, isSpace, preview);
  }

  // ----- Every draft has documents -----

  function EncodedItems(paragraphs: seq<Text>, blank: Text): seq<Item> {
    seq(|paragraphs|, k requires 0 <= k < |paragraphs| =>
      Item(Token(Encode(paragraphs[k]), paragraphs[k]), [], blank))
  }

  /** The usual spacing: a blank, or none, behind each colon and comma. */
  function Encoded(preview: Preview, blank: Text, greetingFirst: bool): Document {
    var greeting := Member(GREETING, [], blank, Str(Token(Encode(preview.greeting), preview.greeting)), [], blank);
    var paragraphs := Member(PARAGRAPHS, [], blank, List([], EncodedItems(preview.paragraphs, blank)), [], blank);
    Document([], if greetingFirst then [greeting, paragraphs] else [paragraphs, greeting], [END_BRACE])
  }

  lemma EncodedItemsAreItems(paragraphs: seq<Text>, blank: Text, isSpace: Space)
    requires IsBlank(blank, isSpace)
    ensures AreItems(EncodedItems(paragraphs, blank), isSpace)
    ensures Values(EncodedItems(paragraphs, blank)) == paragraphs
  {
    hide IsToken, Encode;
    forall k | 0 <= k < |paragraphs| ensures IsItem(EncodedItems(paragraphs, blank)[k], isSpace) {
      EncodingIsToken(paragraphs[k]);
    }
  }

  /** Every greeting and list of paragraphs has a document, in either order of its members. */
  lemma EveryDraftHasDocument(preview: Preview, blank: Text, greetingFirst: bool, isSpace: Space)
    requires WordSpace(isSpace) && IsBlank(blank, isSpace)
    ensures var g, p := if greetingFirst then 0 else 1, if greetingFirst then 1 else 0;
      Drafts(Encoded(preview, blank, greetingFirst), isSpace, g, p, preview)
  {
    NamesArePlain(isSpace);
    EncodingIsToken(preview.greeting);
    EncodedItemsAreItems(preview.paragraphs, blank, isSpace);
    hide IsToken, AreItems, Values, EncodedItems, Encode, PlainName;
  }
}
