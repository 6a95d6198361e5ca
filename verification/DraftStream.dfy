/** The emission of `draft_preview_stream` in `app/ai.py`: a greeting, then each paragraph as soon as
    its string is complete, then whatever the final message still owes. */
module DraftStreams {
  import opened Options
  import opened JsonStrings
  import opened DraftFields

  datatype Block = Greeting(text: Text) | Paragraph(text: Text) | Closing(text: Text)

  datatype Preview = Preview(greeting: Text, paragraphs: seq<Text>, closing: Text)

  /** The checks that may refuse a draft and so end the stream. */
  datatype Checks = Checks(greeting: Text -> bool, paragraph: Text -> bool, whole: Preview -> bool)

  /** "greeting" and "paragraphs". */
  const GREETING: Text := [103, 114, 101, 101, 116, 105, 110, 103]
  const PARAGRAPHS: Text := [112, 97, 114, 97, 103, 114, 97, 112, 104, 115]

  ghost predicate WordSpace(isSpace: Space) {
    ProperSpace(isSpace) && forall c: nat :: 97 <= c <= 122 ==> !isSpace(c)
  }

  lemma NamesArePlain(isSpace: Space)
    requires WordSpace(isSpace)
    ensures PlainName(GREETING, isSpace) && PlainName(PARAGRAPHS, isSpace) && GREETING != PARAGRAPHS
  {
    assert GREETING[0] == 103 && PARAGRAPHS[0] == 112;
  }

  function Paragraphs(texts: seq<Text>): seq<Block> {
    seq(|texts|, i requires 0 <= i < |texts| => Paragraph(texts[i]))
  }

  function Whole(preview: Preview): seq<Block> {
    [Greeting(preview.greeting)] + Paragraphs(preview.paragraphs) + [Closing(preview.closing)]
  }

  /** The blocks shown so far are the greeting and the first paragraphs of the text so far. */
  ghost predicate Shown(greeting: Option<Text>, count: nat, blocks: seq<Block>, seen: Text, isSpace: Space) {
    if greeting == None then count == 0 && blocks == []
    else
      && CompleteString(seen, GREETING, isSpace) == greeting
      && count <= |CompleteItems(seen, PARAGRAPHS, isSpace)|
      && blocks == [Greeting(greeting.value)] + Paragraphs(CompleteItems(seen, PARAGRAPHS, isSpace)[..count])
  }

  lemma ShownLater(greeting: Option<Text>, count: nat, blocks: seq<Block>, seen: Text, later: Text, isSpace: Space)
    requires WordSpace(isSpace) && seen <= later && Shown(greeting, count, blocks, seen, isSpace)
    ensures Shown(greeting, count, blocks, later, isSpace)
  {
    hide CompleteString, CompleteItems;
    NamesArePlain(isSpace);
    if greeting.Some? {
      StringFieldIsStable(seen, later, GREETING, isSpace);
      ItemsArePrefixMonotone(seen, later, PARAGRAPHS, isSpace);
      assert CompleteItems(seen, PARAGRAPHS, isSpace)[..count] == CompleteItems(later, PARAGRAPHS, isSpace)[..count];
    }
  }

  /** What the final message adds to the blocks already shown. */
  function Owed(greeting: Option<Text>, count: nat, preview: Preview): seq<Block> {
    (if greeting == None then [Greeting(preview.greeting)] else [])
    + Paragraphs(if count <= |preview.paragraphs| then preview.paragraphs[count..] else [])
    + [Closing(preview.closing)]
  }

  class DraftStream {
    var greeting: Option<Text>
    var count: nat
    var blocks: seq<Block>
    ghost var seen: Text
    ghost const isSpace: Space

    ghost predicate Valid()
      reads this
    {
      WordSpace(isSpace) && Shown(greeting, count, blocks, seen, isSpace)
    }

    constructor (ghost space: Space)
      requires WordSpace(space)
      ensures Valid() && seen == [] && blocks == [] && isSpace == space
    {
      greeting, count, blocks, seen, isSpace := None, 0, [], [], space;
    }

    /** One text event. A refused block ends the stream with everything before it shown. */
    method OnText(snapshot: Text, space: Space, checks: Checks) returns (ok: bool)
      requires Valid() && seen <= snapshot && space == isSpace
      modifies this
      ensures Valid() && seen == snapshot && old(blocks) <= blocks
      ensures ok ==>
        greeting == if old(greeting).Some? then old(greeting) else CompleteString(snapshot, GREETING, isSpace)
      ensures ok && greeting.Some? ==> count >= |CompleteItems(snapshot, PARAGRAPHS, isSpace)|
    {
      hide CompleteString, CompleteItems, WordSpace;
      ShownLater(greeting, count, blocks, seen, snapshot, isSpace);
      seen := snapshot;
      var found := CompleteString(snapshot, GREETING, space);
      if found.Some? && greeting == None {
        if !checks.greeting(found.value) {
          return false;
        }
        greeting := found;
        blocks := blocks + [Greeting(found.value)];
        assert Paragraphs(CompleteItems(snapshot, PARAGRAPHS, isSpace)[..0]) == [];
      }
      if greeting == None {
        return true;
      }
      var paragraphs := ReadItems(snapshot, PARAGRAPHS, space);
      while count < |paragraphs|
        invariant Shown(greeting, count, blocks, seen, isSpace) && seen == snapshot && old(blocks) <= blocks
        invariant greeting.Some? && greeting == if old(greeting).Some? then old(greeting) else found
      {
        var paragraph := paragraphs[count];
        if !checks.paragraph(paragraph) {
          return false;
        }
        assert Paragraphs(paragraphs[..count + 1]) == Paragraphs(paragraphs[..count]) + [Paragraph(paragraph)];
        count := count + 1;
        blocks := blocks + [Paragraph(paragraph)];
      }
      ok := true;
    }

    method EmitParagraphs(rest: seq<Text>)
      modifies this`blocks
      ensures blocks == old(blocks) + Paragraphs(rest)
    {
      for i := 0 to |rest|
        invariant blocks == old(blocks) + Paragraphs(rest[..i])
      {
        assert Paragraphs(rest[..i + 1]) == Paragraphs(rest[..i]) + [Paragraph(rest[i])];
        blocks := blocks + [Paragraph(rest[i])];
      }
      assert rest[..|rest|] == rest;
    }

    /** The final message; `finished` says that the model neither refused nor ran out of tokens. */
    method Finish(preview: Preview, finished: bool, checks: Checks) returns (ok: bool)
      modifies this
      ensures ok <==> finished && checks.whole(preview)
      ensures blocks == old(blocks) + if ok then Owed(old(greeting), old(count), preview) else []
    {
      hide Paragraphs;
      if !finished || !checks.whole(preview) {
        return false;
      }
      if greeting == None {
        blocks := blocks + [Greeting(preview.greeting)];
      }
      EmitParagraphs(if count <= |preview.paragraphs| then preview.paragraphs[count..] else []);
      blocks := blocks + [Closing(preview.closing)];
      ok := true;
    }
  }

  lemma BeginningCompletes(streamed: seq<Text>, preview: Preview)
    requires streamed <= preview.paragraphs
    ensures [Greeting(preview.greeting)] + Paragraphs(streamed) + Owed(Some(preview.greeting), |streamed|, preview)
      == Whole(preview)
  {
    var rest := preview.paragraphs[|streamed|..];
    assert preview.paragraphs == streamed + rest;
    assert Paragraphs(preview.paragraphs) == Paragraphs(streamed) + Paragraphs(rest);
  }

  lemma CompletesOnlyBeginning(shown: Text, streamed: seq<Text>, preview: Preview)
    requires [Greeting(shown)] + Paragraphs(streamed) + Owed(Some(shown), |streamed|, preview) == Whole(preview)
    ensures shown == preview.greeting && streamed <= preview.paragraphs
  {
    var whole, paragraphs := Whole(preview), Paragraphs(streamed);
    var owed := Owed(Some(shown), |streamed|, preview);
    var all := [Greeting(shown)] + paragraphs + owed;
    assert all[0] == Greeting(shown) && whole[0] == Greeting(preview.greeting);
    assert |all| == 1 + |streamed| + |owed| && |owed| >= 1 && |whole| == |preview.paragraphs| + 2;
    hide Owed;
    forall i | 0 <= i < |streamed| ensures streamed[i] == preview.paragraphs[i] {
      assert all[i + 1] == paragraphs[i] == Paragraph(streamed[i]);
      assert whole[i + 1] == Paragraphs(preview.paragraphs)[i] == Paragraph(preview.paragraphs[i]);
    }
  }

  /** The streamed blocks and the final ones make up the draft, each paragraph once and in order,
      exactly when what was streamed is a beginning of the draft. */
  lemma StreamIsWholeExactly(greeting: Option<Text>, count: nat, blocks: seq<Block>, seen: Text, isSpace: Space,
      preview: Preview)
    requires Shown(greeting, count, blocks, seen, isSpace)
    ensures blocks + Owed(greeting, count, preview) == Whole(preview) <==>
      (greeting == None || (greeting.value == preview.greeting
        && CompleteItems(seen, PARAGRAPHS, isSpace)[..count] <= preview.paragraphs))
  {
    hide CompleteString, CompleteItems, Paragraphs;
    if greeting == None {
      assert preview.paragraphs[0..] == preview.paragraphs;
    } else {
      var streamed := CompleteItems(seen, PARAGRAPHS, isSpace)[..count];
      if greeting.value == preview.greeting && streamed <= preview.paragraphs {
        BeginningCompletes(streamed, preview);
      } else if blocks + Owed(greeting, count, preview) == Whole(preview) {
        CompletesOnlyBeginning(greeting.value, streamed, preview);
      }
    }
  }
}
