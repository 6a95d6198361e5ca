/** The scanner of `app/nas_knowledge.py` as an object over its persisted files, and the inputs on
    which its cache departs from a rebuild. */
module KnowledgeScanner {
  import opened Options
  import opened KnowledgeIndex

  function TopLevel(path: string): string {
    if path == "" || path[0] == '/' then "" else [path[0]] + TopLevel(path[1..])
  }

  /** What a scan may have persisted before it ends. */
  ghost predicate IsCheckpoint(tools: Tools, policy: Policy, previous: Snapshot, files: seq<File>, snapshot: Snapshot) {
    exists k :: 0 <= k <= |files| && CheckpointAfter(tools, policy, previous, files, k) == snapshot
  }

  function CheckpointAfter(tools: Tools, policy: Policy, previous: Snapshot, files: seq<File>, k: int): Snapshot
    requires 0 <= k <= |files|
  {
    Checkpoint(previous, Collected(tools, policy, previous, files[..k]))
  }

  class Scanner {
    var manifest: map<string, Document>
    var index: map<string, seq<Chunk>>

    function Persisted(): Snapshot
      reads this
    {
      Snapshot(manifest, index)
    }

    constructor ()
      ensures Persisted() == NOTHING
    {
      manifest, index := map[], map[];
    }

    method PersistSnapshot(snapshot: Snapshot)
      modifies this
      ensures Persisted() == snapshot
    {
      manifest, index := snapshot.manifest, snapshot.index;
    }

    /** `history` collects everything persisted on the way: a crash leaves one of these behind. */
    method ScanFiles(tools: Tools, policy: Policy, files: seq<File>) returns (ghost history: seq<Snapshot>)
      requires DistinctPaths(files)
      modifies this
      ensures Persisted() == Collected(tools, policy, old(Persisted()), files)
      ensures forall i :: 0 <= i < |history| ==> IsCheckpoint(tools, policy, old(Persisted()), files, history[i])
    {
      hide Scanned, Base, Checkpoint;
      history := [];
      var previous := Persisted();
      var seen := NOTHING;
      var topLevel: Option<string> := None;
      for visited := 0 to |files|
        invariant seen == Collected(tools, policy, previous, files[..visited])
        invariant forall i :: 0 <= i < |history| ==> IsCheckpoint(tools, policy, previous, files, history[i])
      {
        var file := files[visited];
        var next := TopLevel(file.path);
        if topLevel != None && topLevel != Some(next) {
          PersistSnapshot(Checkpoint(previous, seen));
          assert CheckpointAfter(tools, policy, previous, files, visited) == Persisted();
          history := history + [Persisted()];
        }
        topLevel := Some(next);
        var entry := ScanFile(tools, policy, previous, file);
        assert files[..visited + 1][..visited] == files[..visited];
        seen := Add(seen, file.path, entry);
        if (visited + 1) % 500 == 0 {
          PersistSnapshot(Checkpoint(previous, seen));
          assert CheckpointAfter(tools, policy, previous, files, visited + 1) == Persisted();
          history := history + [Persisted()];
        }
      }
      assert files[..|files|] == files;
      PersistSnapshot(seen);
    }

    method ScanFile(tools: Tools, policy: Policy, previous: Snapshot, file: File) returns (entry: Entry)
      ensures entry == Scanned(tools, policy, previous, file)
    {
      hide Analysed;
      var (base, reason) := ClassifyPath(tools, policy, file.path);
      if file.path in policy.overrides {
        var override := policy.overrides[file.path];
        base := override.classification;
        reason := "manual override: " + if override.reason == "" then "administrator decision" else override.reason;
      }
      if Unchanged(previous, file, reason) {
        entry := Entry(Restored(previous.manifest[file.path], file, reason), RowsOf(previous, file.path));
      } else {
        entry := Analysed(tools, file, base, reason);
      }
    }
  }

  // ----- Where the cache and a rebuild part -----

  const GUARDS: set<string> := {
    "candidate exceeds safe extraction limit", "candidate extraction failed", "candidate contains no extractable text",
    "candidate matched sensitive-content guard", "approved path and local content guard passed"
  }

  /** The cached columns leave out the text that explains a classification: an unchanged document has
      a rebuild's explanation exactly when its path is not an extractable candidate. */
  lemma ExplanationIsRestoredExactly(tools: Tools, policy: Policy, means: string -> Classification,
      previous: Snapshot, file: File)
    requires ClearReasons(policy, means) && Faithful(tools, means, previous)
    requires Unchanged(previous, file, Base(tools, policy, file.path).1) && Base(tools, policy, file.path).1 !in GUARDS
    ensures Scanned(tools, policy, previous, file) == Rebuilt(tools, policy, file)
      <==> !(Base(tools, policy, file.path).0 == CustomerCandidate && tools.extensionOf(file.path) in tools.extractable)
  {
    ScannedIsRebuilt(tools, policy, means, previous, file);
    SourceOfAnalysed(tools, file, Base(tools, policy, file.path).0, Base(tools, policy, file.path).1);
    hide Analysed, Faithful, ClearReasons, Base;
  }

  lemma SourceOfAnalysed(tools: Tools, file: File, base: Classification, reason: string)
    requires reason !in GUARDS
    ensures Analysed(tools, file, base, reason).document.source == reason
      <==> !(base == CustomerCandidate && tools.extensionOf(file.path) in tools.extractable)
  {
    assert base == CustomerCandidate && tools.extensionOf(file.path) in tools.extractable ==>
      Analysed(tools, file, base, reason).document.source in GUARDS;
  }

  /** What an extraction contributes to an entry; `forCustomers` asks for the longer timeout. */
  datatype Look = Look(status: Status, sha256: Option<string>, hits: seq<string>, error: Option<string>,
      texts: seq<string>)

  function LookAt(tools: Tools, file: File, forCustomers: bool): Look {
    if file.fingerprint.size > tools.maxBytes then Look(TooLarge, None, [], None, [])
    else match tools.extract(file.path, file.fingerprint, forCustomers)
      case Unreadable(error) => Look(Broken, None, [], Some(error), [])
      case Extracted(text, sha256) =>
        if text == "" then Look(Empty, Some(sha256), [], None, [])
        else Look(Indexed, Some(sha256), Hits(tools, text, tools.markers), None, tools.chunksOf(text))
  }

  predicate ForCustomers(base: Classification) {
    base == CustomerCandidate || base == CustomerReady
  }

  /** The class an entry ends with. */
  ghost function Decided(tools: Tools, file: File, base: Classification): Classification {
    if base == CustomerCandidate && Extracts(tools, file, base)
    then if Clean(tools, file, base) then CustomerReady else ReviewRequired
    else base
  }

  /** A fresh entry of an extracted file holds the look at it and the class decided from it. */
  lemma AnalysedIsLook(tools: Tools, file: File, base: Classification, reason: string)
    requires Extracts(tools, file, base)
    ensures var entry, look := Analysed(tools, file, base, reason), LookAt(tools, file, ForCustomers(base));
      && entry.document == Document(file.fingerprint, Decided(tools, file, base), entry.document.source, reason,
           look.status, look.sha256, look.hits, |look.texts|, look.error)
      && |entry.chunks| == |look.texts|
      && forall k :: 0 <= k < |look.texts| ==>
           look.sha256.Some?
           && entry.chunks[k] == Chunk(file.path, k + 1, Decided(tools, file, base), look.texts[k], look.sha256.value)
  {
    CandidatesAreDecided(tools, file, base, reason);
    hide Clean, Hits;
  }

  /** An administrator who changes the classification and keeps the reason text reaches a file in the
      cache exactly when both classifications come to the same: the same one, or two that extract the file,
      see the same in it and decide the same class. */
  lemma ReusedReasonIsIgnored(tools: Tools, policy: Policy, previous: Snapshot, file: File, was: Classification)
    requires var entry := Analysed(tools, file, was, Base(tools, policy, file.path).1);
      && file.path in previous.manifest && previous.manifest[file.path] == entry.document
      && RowsOf(previous, file.path) == entry.chunks
    ensures var base := Base(tools, policy, file.path).0;
      SameEntry(Scanned(tools, policy, previous, file), Rebuilt(tools, policy, file)) <==>
        was == base
        || (Extracts(tools, file, was) && Extracts(tools, file, base)
            && Decided(tools, file, was) == Decided(tools, file, base)
            && LookAt(tools, file, ForCustomers(was)) == LookAt(tools, file, ForCustomers(base)))
  {
    var (base, reason) := Base(tools, policy, file.path);
    CachedIsServed(tools, policy, previous, file, was);
    hide Base, Scanned;
    if Extracts(tools, file, was) && Extracts(tools, file, base) {
      SameLookSameEntry(tools, file, was, base, reason);
    } else {
      UnextractedKeepsClass(tools, file, was, base, reason);
    }
  }

  lemma CachedIsServed(tools: Tools, policy: Policy, previous: Snapshot, file: File, was: Classification)
    requires var entry := Analysed(tools, file, was, Base(tools, policy, file.path).1);
      && file.path in previous.manifest && previous.manifest[file.path] == entry.document
      && RowsOf(previous, file.path) == entry.chunks
    ensures SameEntry(Scanned(tools, policy, previous, file),
      Analysed(tools, file, was, Base(tools, policy, file.path).1))
  {
    RowsCarryClass(tools, file, was, Base(tools, policy, file.path).1);
    AnalysedKeepsKey(tools, file, was, Base(tools, policy, file.path).1);
    hide Analysed, Base;
  }

  lemma SameLookSameEntry(tools: Tools, file: File, was: Classification, base: Classification, reason: string)
    requires Extracts(tools, file, was) && Extracts(tools, file, base)
    ensures SameEntry(Analysed(tools, file, was, reason), Analysed(tools, file, base, reason)) <==>
      was == base
      || (Decided(tools, file, was) == Decided(tools, file, base)
          && LookAt(tools, file, ForCustomers(was)) == LookAt(tools, file, ForCustomers(base)))
  {
    AnalysedIsLook(tools, file, was, reason);
    AnalysedIsLook(tools, file, base, reason);
    hide Analysed, Decided, LookAt, Extracts;
    var a, b := Analysed(tools, file, was, reason), Analysed(tools, file, base, reason);
    var la, lb := LookAt(tools, file, ForCustomers(was)), LookAt(tools, file, ForCustomers(base));
    if SameEntry(a, b) {
      forall k | 0 <= k < |la.texts| ensures la.texts[k] == lb.texts[k] {
        assert a.chunks[k] == b.chunks[k];
      }
      assert la.texts == lb.texts;
    }
    if Decided(tools, file, was) == Decided(tools, file, base) && la == lb {
      assert a.chunks == b.chunks;
    }
  }

  lemma UnextractedKeepsClass(tools: Tools, file: File, was: Classification, base: Classification, reason: string)
    requires !(Extracts(tools, file, was) && Extracts(tools, file, base))
    ensures SameEntry(Analysed(tools, file, was, reason), Analysed(tools, file, base, reason)) <==> was == base
  {
    CandidatesAreDecided(tools, file, was, reason);
    CandidatesAreDecided(tools, file, base, reason);
    hide Analysed, Clean;
  }

  /** Persisting is two replacements. If only the manifest's is done, the next scan finds the new
      fingerprint and serves the old rows: it agrees with a rebuild only if they did not change. */
  lemma TornPersistServesOldRows(tools: Tools, policy: Policy, previous: Snapshot, file: File, torn: Snapshot)
    requires !Unchanged(previous, file, Base(tools, policy, file.path).1) && RowsOf(previous, file.path) != []
    requires file.path in torn.manifest && torn.manifest[file.path] == Scanned(tools, policy, previous, file).document
    requires torn.index == previous.index
    ensures Scanned(tools, policy, torn, file).chunks == RowsOf(previous, file.path)
    ensures SameEntry(Scanned(tools, policy, torn, file), Rebuilt(tools, policy, file))
      <==> RowsOf(previous, file.path) == Rebuilt(tools, policy, file).chunks
  {
    AnalysedKeepsKey(tools, file, Base(tools, policy, file.path).0, Base(tools, policy, file.path).1);
    hide Base, Analysed;
  }
}
