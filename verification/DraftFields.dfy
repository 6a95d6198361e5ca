/** Reading fields of a JSON document that is still arriving: `_complete_json_string_field` and
    `_complete_json_string_array_field` of `app/ai.py`. */
module DraftFields {
  import opened Options
  import opened JsonStrings

  /** What `\s` matches in a pattern. */
  type Space = nat -> bool

  predicate ProperSpace(isSpace: Space) {
    !isSpace(QUOTE) && !isSpace(COLON) && !isSpace(COMMA) && !isSpace(OPEN) && !isSpace(CLOSE)
  }

  /** A field name: no quote or backslash in it, and it starts like a word. */
  predicate PlainName(field: Text, isSpace: Space) {
    && field != [] && QUOTE !in field && BACKSLASH !in field
    && !isSpace(field[0]) && field[0] != COLON && field[0] != COMMA && field[0] != CLOSE
  }

  function Quoted(field: Text): Text {
    [QUOTE] + field + [QUOTE]
  }

  // ----- The search for a key -----

  function SkipSpace(s: Text, i: nat, isSpace: Space): (j: nat)
    ensures i <= |s| ==> i <= j <= |s|
    ensures forall k :: i <= k < j && k < |s| ==> isSpace(s[k])
    ensures j < |s| ==> !isSpace(s[j])
    decreases |s| - i
  {
    if i < |s| && isSpace(s[i]) then SkipSpace(s, i + 1, isSpace) else i
  }

  /** Where a match of the key at `i` ends; with `bracket`, the match takes in a `[`. */
  function MatchAt(s: Text, field: Text, i: nat, bracket: bool, isSpace: Space): (e: Option<nat>)
    ensures e.Some? ==> i + |field| + 3 <= e.value <= |s|
  {
    if !Holds(s, i, Quoted(field)) then None
    else
      var colon := SkipSpace(s, i + |field| + 2, isSpace);
      if colon >= |s| || s[colon] != COLON then None
      else
        var end := SkipSpace(s, colon + 1, isSpace);
        if !bracket then Some(end)
        else if end < |s| && s[end] == OPEN then Some(end + 1)
        else None
  }

  /** The leftmost match at or after `i`. */
  function FindKey(s: Text, field: Text, i: nat, bracket: bool, isSpace: Space): (e: Option<nat>)
    ensures e.Some? ==> i < e.value <= |s|
    decreases |s| - i
  {
    if i >= |s| then None
    else if MatchAt(s, field, i, bracket, isSpace).Some? then MatchAt(s, field, i, bracket, isSpace)
    else FindKey(s, field, i + 1, bracket, isSpace)
  }

  function CompleteString(s: Text, field: Text, isSpace: Space): Option<Text> {
    var found := FindKey(s, field, 0, false, isSpace);
    if found == None then None
    else
      var decoded := StringAt(s, found.value);
      if decoded.Decoded? then Some(decoded.value) else None
  }

  // ----- The items of an array -----

  predicate Separator(c: nat) {
    c == 32 || c == 9 || c == 13 || c == 10 || c == COMMA
  }

  function SkipSeparators(s: Text, i: nat): (j: nat)
    ensures i <= |s| ==> i <= j <= |s|
    ensures j < |s| ==> !Separator(s[j])
    decreases |s| - i
  {
    if i < |s| && Separator(s[i]) then SkipSeparators(s, i + 1) else i
  }

  /** The whole strings from `i` on, up to the first thing that is not one. */
  function ItemsFrom(s: Text, i: nat): seq<Text>
    requires i <= |s|
    decreases |s| - i
  {
    var start := SkipSeparators(s, i);
    var decoded := StringAt(s, start);
    if decoded.Incomplete? then [] else [decoded.value] + ItemsFrom(s, decoded.next)
  }

  function CompleteItems(s: Text, field: Text, isSpace: Space): seq<Text> {
    var found := FindKey(s, field, 0, true, isSpace);
    if found == None then [] else ItemsFrom(s, found.value)
  }

  method ReadItems(s: Text, field: Text, isSpace: Space) returns (values: seq<Text>)
    ensures values == CompleteItems(s, field, isSpace)
  {
    hide FindKey, StringAt;
    values := [];
    var found := FindKey(s, field, 0, true, isSpace);
    if found == None {
      return;
    }
    var cursor := found.value;
    while cursor < |s|
      invariant cursor <= |s|
      invariant CompleteItems(s, field, isSpace) == values + ItemsFrom(s, cursor)
      decreases |s| - cursor
    {
      var start := cursor;
      while cursor < |s| && Separator(s[cursor])
        invariant start <= cursor <= |s| && SkipSeparators(s, start) == SkipSeparators(s, cursor)
      {
        cursor := cursor + 1;
      }
      if cursor >= |s| || s[cursor] == CLOSE {
        NoStringHere(s, cursor);
        return;
      }
      var decoded := StringAt(s, cursor);
      if decoded.Incomplete? {
        return;
      }
      values := values + [decoded.value];
      cursor := decoded.next;
    }
    NoStringHere(s, cursor);
  }

  lemma NoStringHere(s: Text, i: nat)
    requires i >= |s| || s[i] == CLOSE
    ensures StringAt(s, i) == Incomplete
  {
  }

  // ----- Reading on never changes what was read -----

  lemma {:induction false} SkipSpaceIsStable(s: Text, longer: Text, i: nat, isSpace: Space)
    requires s <= longer && i <= |s|
    ensures SkipSpace(longer, i, isSpace) >= SkipSpace(s, i, isSpace)
    ensures SkipSpace(s, i, isSpace) < |s| || SkipSpace(longer, i, isSpace) < |s| ==>
      SkipSpace(longer, i, isSpace) == SkipSpace(s, i, isSpace)
    decreases |s| - i
  {
    if i < |s| && isSpace(s[i]) { SkipSpaceIsStable(s, longer, i + 1, isSpace); }
  }

  lemma HoldsIsStable(s: Text, longer: Text, i: nat, part: Text)
    requires s <= longer && i + |part| <= |s|
    ensures Holds(s, i, part) <==> Holds(longer, i, part)
  {
    assert s[i..i + |part|] == longer[i..i + |part|];
  }

  /** A match that ends before the end of the shorter text is there in both, or in neither. */
  lemma MatchIsStable(s: Text, longer: Text, field: Text, i: nat, bracket: bool, isSpace: Space)
    requires s <= longer
    ensures var a, b := MatchAt(s, field, i, bracket, isSpace), MatchAt(longer, field, i, bracket, isSpace);
      && (a.Some? && (bracket || a.value < |s|) ==> b == a)
      && (b.Some? && b.value < |s| ==> a == b)
  {
    if i + |field| + 2 <= |s| {
      HoldsIsStable(s, longer, i, Quoted(field));
      hide Holds;
      SkipSpaceIsStable(s, longer, i + |field| + 2, isSpace);
      var colon := SkipSpace(longer, i + |field| + 2, isSpace);
      if colon < |s| {
        SkipSpaceIsStable(s, longer, colon + 1, isSpace);
      }
    }
  }

  /** A match holds three quotes at most: two around the name, none after it. */
  lemma NextQuoteIsBehindMatch(s: Text, field: Text, i: nat, bracket: bool, isSpace: Space, q: nat)
    requires ProperSpace(isSpace) && PlainName(field, isSpace)
    requires MatchAt(s, field, i, bracket, isSpace).Some? && i < q < |s| && s[q] == QUOTE
    ensures q == i + |field| + 1 || q >= MatchAt(s, field, i, bracket, isSpace).value
  {
    NameHoldsNoQuote(s, field, i);
  }

  lemma NameHoldsNoQuote(s: Text, field: Text, i: nat)
    requires Holds(s, i, Quoted(field)) && QUOTE !in field
    ensures forall k :: i < k < i + |field| + 1 ==> s[k] != QUOTE
  {
    var name := Quoted(field);
    forall k | i < k < i + |field| + 1
      ensures s[k] != QUOTE
    {
      assert s[k] == s[i..i + |name|][k - i] == field[k - i - 1];
      assert field[k - i - 1] in field;
    }
  }

  /** A match that begins before another occurrence of the name ends before it too. */
  lemma MatchEndsBefore(s: Text, field: Text, i: nat, bracket: bool, isSpace: Space, p: nat)
    requires ProperSpace(isSpace) && PlainName(field, isSpace) && MatchAt(s, field, i, bracket, isSpace).Some?
    requires i < p && p + 1 < |s| && s[p] == QUOTE && s[p + 1] == field[0]
    ensures MatchAt(s, field, i, bracket, isSpace).value <= p
  {
    var after := i + |field| + 2;
    assert s[after] == COLON || isSpace(s[after]);
    NextQuoteIsBehindMatch(s, field, i, bracket, isSpace, p);
  }

  lemma {:induction false} FindIsStable(s: Text, longer: Text, field: Text, i: nat, bracket: bool, isSpace: Space)
    requires ProperSpace(isSpace) && PlainName(field, isSpace) && s <= longer
    requires var e := FindKey(s, field, i, bracket, isSpace); e.Some? && (bracket || e.value < |s|)
    ensures FindKey(longer, field, i, bracket, isSpace) == FindKey(s, field, i, bracket, isSpace)
    decreases |s| - i
  {
    MatchIsStable(s, longer, field, i, bracket, isSpace);
    if MatchAt(s, field, i, bracket, isSpace).None? {
      FindIsStable(s, longer, field, i + 1, bracket, isSpace);
      var p := FoundAt(s, field, i + 1, bracket, isSpace);
      hide FindKey;
      if MatchAt(longer, field, i, bracket, isSpace).Some? {
        MatchEndsBefore(longer, field, i, bracket, isSpace, p);
      }
    }
  }

  lemma {:induction false} FoundAt(s: Text, field: Text, i: nat, bracket: bool, isSpace: Space) returns (p: nat)
    requires FindKey(s, field, i, bracket, isSpace).Some? && field != []
    ensures i <= p && p + |field| + 2 <= |s| && s[p] == QUOTE && s[p + 1] == field[0]
    decreases |s| - i
  {
    if MatchAt(s, field, i, bracket, isSpace).Some? {
      p := i;
      assert s[p] == s[p..p + |field| + 2][0] && s[p + 1] == s[p..p + |field| + 2][1];
    } else {
      p := FoundAt(s, field, i + 1, bracket, isSpace);
    }
  }

  /** A completed string field never changes. */
  lemma StringFieldIsStable(s: Text, longer: Text, field: Text, isSpace: Space)
    requires ProperSpace(isSpace) && PlainName(field, isSpace) && s <= longer
    requires CompleteString(s, field, isSpace).Some?
    ensures CompleteString(longer, field, isSpace) == CompleteString(s, field, isSpace)
  {
    FindIsStable(s, longer, field, 0, false, isSpace);
    DecodeIsStable(s, longer, FindKey(s, field, 0, false, isSpace).value + 1);
  }

  lemma {:induction false} SkipSeparatorsIsStable(s: Text, longer: Text, i: nat)
    requires s <= longer && i <= |s|
    ensures SkipSeparators(s, i) < |s| ==> SkipSeparators(longer, i) == SkipSeparators(s, i)
    decreases |s| - i
  {
    if i < |s| && Separator(s[i]) { SkipSeparatorsIsStable(s, longer, i + 1); }
  }

  lemma {:induction false} ItemsGrow(s: Text, longer: Text, i: nat)
    requires s <= longer && i <= |s|
    ensures ItemsFrom(s, i) <= ItemsFrom(longer, i)
    decreases |s| - i
  {
    var start := SkipSeparators(s, i);
    if StringAt(s, start).Decoded? {
      SkipSeparatorsIsStable(s, longer, i);
      DecodeIsStable(s, longer, start + 1);
      ItemsGrow(s, longer, StringAt(s, start).next);
    }
    hide DecodeFrom;
  }

  /** The items of any prefix are a prefix of the items of every extension. */
  lemma ItemsArePrefixMonotone(s: Text, longer: Text, field: Text, isSpace: Space)
    requires ProperSpace(isSpace) && PlainName(field, isSpace) && s <= longer
    ensures CompleteItems(s, field, isSpace) <= CompleteItems(longer, field, isSpace)
  {
    if FindKey(s, field, 0, true, isSpace).Some? {
      FindIsStable(s, longer, field, 0, true, isSpace);
      ItemsGrow(s, longer, FindKey(s, field, 0, true, isSpace).value);
    }
  }
}
