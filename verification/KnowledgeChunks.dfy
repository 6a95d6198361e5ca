/** The overlapping chunker `_chunks` of `app/nas_knowledge.py`. */
module KnowledgeChunks {

  /** The text from `start` up to but not including `end`. */
  datatype Window = Window(start: nat, end: nat)

  datatype Chunking = Chunked(windows: seq<Window>, chunks: seq<string>) | OverlapTooLarge

  function Max(a: int, b: int): int {
    if a >= b then a else b
  }

  function Min(a: int, b: int): int {
    if a <= b then a else b
  }

  // ----- Last occurrence -----

  predicate OccursAt(text: string, pattern: string, at: int) {
    0 <= at <= |text| - |pattern| && text[at..at + |pattern|] == pattern
  }

  /** The last occurrence that lies wholly between the bounds, or -1. */
  method FindLast(text: string, pattern: string, from: nat, to: nat) returns (at: int)
    requires to <= |text|
    ensures at == -1 || (from <= at && at + |pattern| <= to && OccursAt(text, pattern, at))
    ensures forall k :: Max(from, at + 1) <= k && k + |pattern| <= to ==> !OccursAt(text, pattern, k)
  {
    at := to - |pattern|;
    while at >= from
      invariant at + |pattern| <= to
      invariant forall k :: Max(from, at + 1) <= k && k + |pattern| <= to ==> !OccursAt(text, pattern, k)
    {
      if text[at..at + |pattern|] == pattern {
        return;
      }
      at := at - 1;
    }
    at := -1;
  }

  // ----- Trimming -----

  function TrimLeft(text: string, isSpace: char -> bool): string {
    if text != [] && isSpace(text[0]) then TrimLeft(text[1..], isSpace) else text
  }

  function TrimRight(text: string, isSpace: char -> bool): string {
    if text != [] && isSpace(text[|text| - 1]) then TrimRight(text[..|text| - 1], isSpace) else text
  }

  function Trim(text: string, isSpace: char -> bool): string {
    TrimRight(TrimLeft(text, isSpace), isSpace)
  }

  ghost predicate AllSpace(text: string, isSpace: char -> bool) {
    forall c :: c in text ==> isSpace(c)
  }

  lemma {:induction false} TrimLeftDropsSpace(text: string, isSpace: char -> bool) returns (k: nat)
    ensures k <= |text| && TrimLeft(text, isSpace) == text[k..] && AllSpace(text[..k], isSpace)
  {
    k := 0;
    if text != [] && isSpace(text[0]) {
      var rest := TrimLeftDropsSpace(text[1..], isSpace);
      k := rest + 1;
      assert text[..k] == [text[0]] + text[1..][..rest] && text[1..][rest..] == text[k..];
    }
  }

  lemma {:induction false} TrimRightDropsSpace(text: string, isSpace: char -> bool) returns (k: nat)
    ensures k <= |text| && TrimRight(text, isSpace) == text[..k] && AllSpace(text[k..], isSpace)
  {
    k := |text|;
    if text != [] && isSpace(text[|text| - 1]) {
      var init := text[..|text| - 1];
      k := TrimRightDropsSpace(init, isSpace);
      assert text[k..] == init[k..] + [text[|text| - 1]] && init[..k] == text[..k];
    }
  }

  /** Only blanks at the two ends go. */
  lemma TrimKeepsInk(text: string, isSpace: char -> bool) returns (a: nat, b: nat)
    ensures a <= b <= |text| && Trim(text, isSpace) == text[a..b]
    ensures AllSpace(text[..a], isSpace) && AllSpace(text[b..], isSpace)
  {
    hide TrimLeft, TrimRight, AllSpace;
    a := TrimLeftDropsSpace(text, isSpace);
    var k := TrimRightDropsSpace(text[a..], isSpace);
    b := a + k;
    assert text[a..][..k] == text[a..b] && text[a..][k..] == text[b..];
  }

  // ----- Windows -----

  /** Each window advances, fits the size and starts inside the previous one or right behind it,
      at most `overlap` back. */
  ghost predicate Follows(before: Window, after: Window, overlap: nat) {
    before.start < after.start <= before.end && before.end - overlap <= after.start
  }

  ghost predicate WindowsOf(text: string, size: nat, overlap: nat, windows: seq<Window>) {
    && (forall i :: 0 <= i < |windows| ==>
      windows[i].start < windows[i].end <= |text| && windows[i].end - windows[i].start <= size)
    && (forall i :: 0 < i < |windows| ==> Follows(windows[i - 1], windows[i], overlap))
    && (windows != [] ==> windows[0].start == 0)
  }

  ghost predicate Covers(text: string, windows: seq<Window>) {
    forall p :: 0 <= p < |text| ==> Covered(windows, p)
  }

  ghost predicate Covered(windows: seq<Window>, p: int) {
    exists i :: 0 <= i < |windows| && windows[i].start <= p < windows[i].end
  }

  lemma {:induction false} WindowsReach(text: string, size: nat, overlap: nat, windows: seq<Window>, n: nat, p: int)
    requires WindowsOf(text, size, overlap, windows) && 0 < n <= |windows| && 0 <= p < windows[n - 1].end
    ensures Covered(windows, p)
  {
    if p >= windows[n - 1].start {
    } else if n > 1 {
      assert Follows(windows[n - 2], windows[n - 1], overlap);
      WindowsReach(text, size, overlap, windows, n - 1, p);
    }
  }

  function Piece(text: string, w: Window): string {
    if w.start <= w.end <= |text| then text[w.start..w.end] else ""
  }

  /** The chunks are the trimmed, non-blank windows, in order. */
  function ChunksOf(text: string, windows: seq<Window>, isSpace: char -> bool): seq<string> {
    if windows == [] then []
    else
      var chunk := Trim(Piece(text, windows[|windows| - 1]), isSpace);
      ChunksOf(text, windows[..|windows| - 1], isSpace) + if chunk == "" then [] else [chunk]
  }

  /** A line break or full stop that lies wholly between the bounds. */
  ghost predicate BreakAt(text: string, k: int, from: nat, to: nat) {
    from <= k && ((k + 1 <= to && OccursAt(text, "\n", k)) || (k + 2 <= to && OccursAt(text, ". ", k)))
  }

  ghost predicate NoBreakAfter(text: string, at: int, from: nat, to: nat) {
    forall k :: at < k ==> !BreakAt(text, k, from, to)
  }

  /** A window goes to the end of the text or is cut right behind the last break of its second half; only
      without such a break does it have the full size. */
  ghost predicate EndsNaturally(text: string, size: nat, w: Window) {
    var from, to := w.start + size / 2, w.start + size;
    if to >= |text| then w.end == |text|
    else if BreakAt(text, w.end - 1, from, to) && w.end - 1 > w.start then NoBreakAfter(text, w.end - 1, from, to)
    else w.end == to && NoBreakAfter(text, w.start, from, to)
  }

  method WindowEnd(text: string, size: nat, cursor: nat) returns (end: nat)
    requires cursor < |text| && size > 0
    ensures cursor < end <= Min(|text|, cursor + size)
    ensures EndsNaturally(text, size, Window(cursor, end))
  {
    end := Min(|text|, cursor + size);
    if end < |text| {
      var line := FindLast(text, "\n", cursor + size / 2, end);
      var sentence := FindLast(text, ". ", cursor + size / 2, end);
      var natural := Max(line, sentence);
      if natural > cursor {
        end := natural + 1;
      }
    }
  }

  ghost predicate AllEndNaturally(text: string, size: nat, windows: seq<Window>) {
    forall i :: 0 <= i < |windows| ==> EndsNaturally(text, size, windows[i])
  }

  lemma Longer(text: string, size: nat, overlap: nat, windows: seq<Window>, w: Window)
    requires WindowsOf(text, size, overlap, windows) && AllEndNaturally(text, size, windows)
    requires EndsNaturally(text, size, w)
    requires w.start < w.end <= |text| && w.end - w.start <= size
    requires if windows == [] then w.start == 0 else Follows(windows[|windows| - 1], w, overlap)
    ensures WindowsOf(text, size, overlap, windows + [w]) && AllEndNaturally(text, size, windows + [w])
  {
    hide Follows, EndsNaturally;
    var longer := windows + [w];
    assert longer[|longer| - 1] == w && forall i :: 0 <= i < |windows| ==> longer[i] == windows[i];
  }

  lemma NoWindows(text: string, size: nat, overlap: nat)
    ensures WindowsOf(text, size, overlap, []) && AllEndNaturally(text, size, [])
  {
  }

  method Chunks(text: string, size: int, overlap: nat, isSpace: char -> bool) returns (result: Chunking)
    ensures result.OverlapTooLarge? <==> size <= overlap
    ensures result.Chunked? ==> WindowsOf(text, size, overlap, result.windows) && Covers(text, result.windows)
    ensures result.Chunked? ==> result.chunks == ChunksOf(text, result.windows, isSpace)
    ensures result.Chunked? ==> AllEndNaturally(text, size, result.windows)
  {
    hide EndsNaturally, AllEndNaturally, WindowsOf, Trim;
    if size <= overlap {
      return OverlapTooLarge;
    }
    var windows: seq<Window>, chunks: seq<string> := [], [];
    NoWindows(text, size, overlap);
    var cursor := 0;
    var finished := text == "";
    while !finished
      invariant 0 <= cursor <= |text| && (!finished ==> cursor < |text|)
      invariant WindowsOf(text, size, overlap, windows)
      invariant chunks == ChunksOf(text, windows, isSpace)
      invariant AllEndNaturally(text, size, windows)
      invariant windows == [] ==> cursor == 0
      invariant windows == [] && finished ==> text == ""
      invariant windows != [] && !finished ==>
        var last := windows[|windows| - 1]; last.start < cursor <= last.end && last.end - overlap <= cursor
      invariant windows != [] && finished ==> windows[|windows| - 1].end == |text|
      decreases |text| - cursor, !finished
    {
      var end := WindowEnd(text, size, cursor);
      var chunk := Trim(text[cursor..end], isSpace);
      Longer(text, size, overlap, windows, Window(cursor, end));
      assert (windows + [Window(cursor, end)])[..|windows|] == windows;
      windows := windows + [Window(cursor, end)];
      if chunk != "" {
        chunks := chunks + [chunk];
      }
      if end >= |text| {
        finished := true;
      } else {
        cursor := Max(cursor + 1, end - overlap);
      }
    }
    forall p | 0 <= p < |text| ensures Covered(windows, p) {
      WindowsReach(text, size, overlap, windows, |windows|, p);
    }
    result := Chunked(windows, chunks);
  }

  // ----- What the chunks hold -----

  /** The window that produced a chunk survives trimming whenever it has ink. */
  lemma {:induction false} InkyWindowIsAChunk(text: string, windows: seq<Window>, isSpace: char -> bool, i: nat)
    requires i < |windows| && Trim(Piece(text, windows[i]), isSpace) != ""
    ensures Trim(Piece(text, windows[i]), isSpace) in ChunksOf(text, windows, isSpace)
    decreases |windows|
  {
    if i < |windows| - 1 {
      InkyWindowIsAChunk(text, windows[..|windows| - 1], isSpace, i);
    }
  }

  /** `chunk` is the stretch of the text from `from`, and holds position `p`. */
  ghost predicate HoldsPosition(text: string, chunk: string, from: nat, p: nat) {
    from <= p < from + |chunk| <= |text| && text[from..from + |chunk|] == chunk
  }

  lemma InkIsInside(piece: string, isSpace: char -> bool, a: nat, b: nat, at: nat)
    requires a <= b <= |piece| && AllSpace(piece[..a], isSpace) && AllSpace(piece[b..], isSpace)
    requires at < |piece| && !isSpace(piece[at])
    ensures a <= at < b
  {
    assert forall k :: 0 <= k < a ==> piece[k] == piece[..a][k];
    assert forall k :: b <= k < |piece| ==> piece[k] == piece[b..][k - b];
  }

  /** No character but blanks is lost: each lies in some chunk, at its own place. */
  lemma ChunksKeepInk(text: string, size: nat, overlap: nat, windows: seq<Window>, isSpace: char -> bool, p: nat)
    requires WindowsOf(text, size, overlap, windows) && Covers(text, windows) && p < |text| && !isSpace(text[p])
    ensures exists chunk, from: nat :: chunk in ChunksOf(text, windows, isSpace) && HoldsPosition(text, chunk, from, p)
  {
    hide Trim, AllSpace, ChunksOf, Follows;
    assert Covered(windows, p);
    var i :| 0 <= i < |windows| && windows[i].start <= p < windows[i].end;
    var w := windows[i];
    var piece := Piece(text, w);
    var a, b := TrimKeepsInk(piece, isSpace);
    var at := p - w.start;
    InkIsInside(piece, isSpace, a, b, at);
    assert piece[a..b] == text[w.start + a..w.start + b];
    InkyWindowIsAChunk(text, windows, isSpace, i);
    assert HoldsPosition(text, piece[a..b], w.start + a, p);
  }

  lemma {:induction false} ChunksAreSmall(text: string, size: nat, overlap: nat, windows: seq<Window>,
      isSpace: char -> bool, chunk: string)
    requires WindowsOf(text, size, overlap, windows) && chunk in ChunksOf(text, windows, isSpace)
    ensures 0 < |chunk| <= size
    decreases |windows|
  {
    var a, b := TrimKeepsInk(Piece(text, windows[|windows| - 1]), isSpace);
    if chunk in ChunksOf(text, windows[..|windows| - 1], isSpace) {
      ChunksAreSmall(text, size, overlap, windows[..|windows| - 1], isSpace, chunk);
    }
  }
}
