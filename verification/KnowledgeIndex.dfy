/** The incremental scan of `app/nas_knowledge.py`: a fingerprint cache that must agree with a
    rebuild from nothing, whatever checkpoints and crashes lie behind it. */
module KnowledgeIndex {
  import opened Options

  datatype Classification = CustomerReady | CustomerCandidate | Internal | ReviewRequired | Excluded

  datatype Rule = Rule(pattern: string, classification: Classification, reason: string)

  datatype Override = Override(classification: Classification, reason: string)

  /** What administrators may change between scans. */
  datatype Policy = Policy(rules: seq<Rule>, excludedExtensions: set<string>, overrides: map<string, Override>)

  datatype Fingerprint = Fingerprint(size: nat, modified: nat)

  datatype File = File(path: string, fingerprint: Fingerprint)

  datatype Extraction = Unreadable(error: string) | Extracted(text: string, sha256: string)

  /** What stays fixed between scans: the path and pattern helpers, the extraction limits and markers,
      the chunker, and an extraction that depends on the file's content alone. The flag of `extract`
      says whether the longer timeout of customer documents applies. */
  datatype Tools = Tools(
    nameOf: string -> string,
    extensionOf: string -> string,
    glob: (string, string) -> bool,
    extractable: set<string>,
    maxBytes: nat,
    markers: seq<string>,
    found: (string, string) -> bool,
    extract: (string, Fingerprint, bool) -> Extraction,
    chunksOf: string -> seq<string>)

  datatype Status = NotExtractable | TooLarge | Empty | Indexed | Broken

  datatype Document = Document(
    fingerprint: Fingerprint, classification: Classification, source: string, policySource: string,
    status: Status, sha256: Option<string>, hits: seq<string>, chunkCount: nat, error: Option<string>)

  datatype Chunk = Chunk(path: string, number: nat, classification: Classification, text: string, sha256: string)

  datatype Entry = Entry(document: Document, chunks: seq<Chunk>)

  /** The manifest, and the index rows of each path that has any. */
  datatype Snapshot = Snapshot(manifest: map<string, Document>, index: map<string, seq<Chunk>>)

  // ----- The policy -----

  const SYSTEM_NAMES: set<string> := {".ds_store", "desktop.ini", "thumbs.db"}

  function DropSlashes(text: string): string {
    if text != "" && text[|text| - 1] == '/' then DropSlashes(text[..|text| - 1]) else text
  }

  predicate EndsWith(text: string, suffix: string) {
    |suffix| <= |text| && text[|text| - |suffix|..] == suffix
  }

  predicate PathMatches(tools: Tools, path: string, pattern: string) {
    if pattern == "**" then true
    else if EndsWith(pattern, "/**") then
      var prefix := DropSlashes(pattern[..|pattern| - 3]);
      path == prefix || prefix + "/" <= path
    else tools.glob(path, pattern)
  }

  function FirstMatch(tools: Tools, path: string, rules: seq<Rule>): (Classification, string) {
    if rules == [] then (ReviewRequired, "no explicit policy rule")
    else if PathMatches(tools, path, rules[0].pattern) then (rules[0].classification, rules[0].reason)
    else FirstMatch(tools, path, rules[1..])
  }

  function ExcludedReason(extension: string): string {
    "excluded file type " + if extension == "" then "(none)" else extension
  }

  function ClassifyPath(tools: Tools, policy: Policy, path: string): (Classification, string) {
    if tools.nameOf(path) in SYSTEM_NAMES || "~$" <= tools.nameOf(path) then (Excluded, "system or temporary file")
    else if tools.extensionOf(path) in policy.excludedExtensions
      then (Excluded, ExcludedReason(tools.extensionOf(path)))
    else FirstMatch(tools, path, policy.rules)
  }

  /** An override replaces both the classification and the reason. */
  function Base(tools: Tools, policy: Policy, path: string): (Classification, string) {
    if path in policy.overrides
    then (policy.overrides[path].classification, "manual override: " +
      if policy.overrides[path].reason == "" then "administrator decision" else policy.overrides[path].reason)
    else ClassifyPath(tools, policy, path)
  }

  /** Equal reasons never stand for different classifications. */
  ghost predicate ClearReasons(policy: Policy, means: string -> Classification) {
    && means("system or temporary file") == Excluded && means("no explicit policy rule") == ReviewRequired
    && (forall e :: e in policy.excludedExtensions ==> means(ExcludedReason(e)) == Excluded)
    && (forall i :: 0 <= i < |policy.rules| ==> means(policy.rules[i].reason) == policy.rules[i].classification)
    && (forall p :: p in policy.overrides ==>
          policy.overrides[p].classification == means("manual override: " +
            if policy.overrides[p].reason == "" then "administrator decision" else policy.overrides[p].reason))
  }

  /** The first matching rule decides, and only a path that none matches needs review by default. */
  lemma {:induction false} FirstRuleDecides(tools: Tools, path: string, rules: seq<Rule>)
    ensures (exists i :: 0 <= i < |rules| && Decides(tools, path, rules, i))
      || ((forall i :: 0 <= i < |rules| ==> !PathMatches(tools, path, rules[i].pattern))
          && FirstMatch(tools, path, rules) == (ReviewRequired, "no explicit policy rule"))
  {
    if rules != [] && PathMatches(tools, path, rules[0].pattern) {
      assert Decides(tools, path, rules, 0);
    } else if rules != [] {
      FirstRuleDecides(tools, path, rules[1..]);
      if i :| 0 <= i < |rules| - 1 && Decides(tools, path, rules[1..], i) {
        forall j | 0 <= j < i + 1 ensures !PathMatches(tools, path, rules[j].pattern) {
          if j > 0 { assert rules[1..][j - 1] == rules[j]; }
        }
        assert Decides(tools, path, rules, i + 1);
      } else {
        forall j | 0 <= j < |rules| ensures !PathMatches(tools, path, rules[j].pattern) {
          if j > 0 { assert rules[1..][j - 1] == rules[j]; }
        }
      }
    }
  }

  ghost predicate Decides(tools: Tools, path: string, rules: seq<Rule>, i: int)
    requires 0 <= i < |rules|
  {
    && PathMatches(tools, path, rules[i].pattern)
    && FirstMatch(tools, path, rules) == (rules[i].classification, rules[i].reason)
    && forall j :: 0 <= j < i ==> !PathMatches(tools, path, rules[j].pattern)
  }

  lemma ReasonTellsBase(tools: Tools, policy: Policy, means: string -> Classification, path: string)
    requires ClearReasons(policy, means)
    ensures Base(tools, policy, path).0 == means(Base(tools, policy, path).1)
  {
    FirstRuleDecides(tools, path, policy.rules);
    if i :| 0 <= i < |policy.rules| && Decides(tools, path, policy.rules, i) {
    }
  }

  // ----- One file -----

  predicate Extracts(tools: Tools, file: File, base: Classification) {
    base != Excluded && tools.extensionOf(file.path) in tools.extractable
  }

  function Hits(tools: Tools, text: string, markers: seq<string>): seq<string> {
    if markers == [] then []
    else (if tools.found(markers[0], text) then [markers[0]] else []) + Hits(tools, text, markers[1..])
  }

  /** A candidate that cannot be cleared goes to review; everything else keeps its path's class. */
  function Demoted(document: Document, source: string): Document {
    if document.classification == CustomerCandidate
    then document.(classification := ReviewRequired, source := source)
    else document
  }

  function Cleared(document: Document): Document {
    if document.classification == CustomerCandidate
    then document.(classification := CustomerReady, source := "approved path and local content guard passed")
    else document
  }

  function Rows(path: string, texts: seq<string>, classification: Classification, sha256: string): seq<Chunk> {
    seq(|texts|, i requires 0 <= i < |texts| => Chunk(path, i + 1, classification, texts[i], sha256))
  }

  /** The entry of a file looked at afresh. */
  function Analysed(tools: Tools, file: File, base: Classification, reason: string): Entry {
    var blank := Document(file.fingerprint, base, reason, reason, NotExtractable, None, [], 0, None);
    if !Extracts(tools, file, base) then Entry(blank, [])
    else if file.fingerprint.size > tools.maxBytes then
      Entry(Demoted(blank.(status := TooLarge), "candidate exceeds safe extraction limit"), [])
    else match tools.extract(file.path, file.fingerprint, base == CustomerCandidate || base == CustomerReady)
      case Unreadable(error) =>
        Entry(Demoted(blank.(status := Broken, error := Some(error)), "candidate extraction failed"), [])
      case Extracted(text, sha256) =>
        if text == "" then
          Entry(Demoted(blank.(status := Empty, sha256 := Some(sha256)), "candidate contains no extractable text"), [])
        else
          var hits := Hits(tools, text, tools.markers);
          var indexed := blank.(status := Indexed, sha256 := Some(sha256), hits := hits);
          var document := if hits != [] then Demoted(indexed, "candidate matched sensitive-content guard")
            else Cleared(indexed);
          var rows := Rows(file.path, tools.chunksOf(text), document.classification, sha256);
          Entry(document.(chunkCount := |rows|), rows)
  }

  function RowsOf(snapshot: Snapshot, path: string): seq<Chunk> {
    if path in snapshot.index then snapshot.index[path] else []
  }

  predicate Unchanged(snapshot: Snapshot, file: File, reason: string) {
    && file.path in snapshot.manifest
    && snapshot.manifest[file.path].fingerprint == file.fingerprint
    && snapshot.manifest[file.path].policySource == reason
    && (snapshot.manifest[file.path].chunkCount == 0 || RowsOf(snapshot, file.path) != [])
  }

  /** The cached columns of an unchanged document; its source is the path's reason again. */
  function Restored(cached: Document, file: File, reason: string): Document {
    Document(file.fingerprint, cached.classification, reason, reason, cached.status, cached.sha256, cached.hits,
      cached.chunkCount, cached.error)
  }

  function Scanned(tools: Tools, policy: Policy, previous: Snapshot, file: File): Entry {
    var (base, reason) := Base(tools, policy, file.path);
    if Unchanged(previous, file, reason)
    then Entry(Restored(previous.manifest[file.path], file, reason), RowsOf(previous, file.path))
    else Analysed(tools, file, base, reason)
  }

  function Rebuilt(tools: Tools, policy: Policy, file: File): Entry {
    Analysed(tools, file, Base(tools, policy, file.path).0, Base(tools, policy, file.path).1)
  }

  // ----- Agreement -----

  /** The same document but for the text that explains the classification. */
  predicate SameDocument(a: Document, b: Document) {
    a.(source := b.source) == b
  }

  predicate SameEntry(a: Entry, b: Entry) {
    SameDocument(a.document, b.document) && a.chunks == b.chunks
  }

  ghost predicate FaithfulAt(tools: Tools, means: string -> Classification, snapshot: Snapshot, path: string)
    requires path in snapshot.manifest
  {
    var document := snapshot.manifest[path];
    SameEntry(Entry(document, RowsOf(snapshot, path)),
              Analysed(tools, File(path, document.fingerprint), means(document.policySource), document.policySource))
  }

  /** Every entry is what a fresh look would have said at its fingerprint and reason. */
  ghost predicate Faithful(tools: Tools, means: string -> Classification, snapshot: Snapshot) {
    && (forall path :: path in snapshot.manifest ==> FaithfulAt(tools, means, snapshot, path))
    && (forall path :: path in snapshot.index ==> path in snapshot.manifest && snapshot.index[path] != [])
  }

  lemma AnalysedKeepsKey(tools: Tools, file: File, base: Classification, reason: string)
    ensures Analysed(tools, file, base, reason).document.fingerprint == file.fingerprint
    ensures Analysed(tools, file, base, reason).document.policySource == reason
  {
  }

  lemma ScannedIsRebuilt(tools: Tools, policy: Policy, means: string -> Classification, previous: Snapshot, file: File)
    requires ClearReasons(policy, means) && Faithful(tools, means, previous)
    ensures SameEntry(Scanned(tools, policy, previous, file), Rebuilt(tools, policy, file))
    ensures Scanned(tools, policy, previous, file).document.fingerprint == file.fingerprint
    ensures Scanned(tools, policy, previous, file).document.policySource == Base(tools, policy, file.path).1
  {
    ReasonTellsBase(tools, policy, means, file.path);
    AnalysedKeepsKey(tools, file, Base(tools, policy, file.path).0, Base(tools, policy, file.path).1);
    if Unchanged(previous, file, Base(tools, policy, file.path).1) {
      assert FaithfulAt(tools, means, previous, file.path);
    }
    hide Base, Analysed;
  }

  // ----- One scan, and what it persists -----

  ghost predicate DistinctPaths(files: seq<File>) {
    forall i, j :: 0 <= i < j < |files| ==> files[i].path != files[j].path
  }

  function Add(snapshot: Snapshot, path: string, entry: Entry): Snapshot {
    Snapshot(snapshot.manifest[path := entry.document],
             if entry.chunks == [] then snapshot.index - {path} else snapshot.index[path := entry.chunks])
  }

  const NOTHING: Snapshot := Snapshot(map[], map[])

  /** The documents and chunks collected from the first files of the walk. */
  function Collected(tools: Tools, policy: Policy, previous: Snapshot, files: seq<File>): Snapshot {
    if files == [] then NOTHING
    else
      var file := files[|files| - 1];
      Add(Collected(tools, policy, previous, files[..|files| - 1]), file.path, Scanned(tools, policy, previous, file))
  }

  /** What has been seen, and the previous entries of what has not. */
  function Checkpoint(previous: Snapshot, seen: Snapshot): Snapshot {
    Snapshot(previous.manifest + seen.manifest,
             (map path | path in previous.index && path in previous.manifest && path !in seen.manifest ::
               previous.index[path]) + seen.index)
  }

  function Rebuild(tools: Tools, policy: Policy, files: seq<File>): Snapshot {
    Collected(tools, policy, NOTHING, files)
  }

  ghost predicate SameSnapshot(a: Snapshot, b: Snapshot) {
    && a.index == b.index && a.manifest.Keys == b.manifest.Keys
    && forall path :: path in a.manifest ==> SameDocument(a.manifest[path], b.manifest[path])
  }

  lemma AddKeepsFaithful(tools: Tools, policy: Policy, means: string -> Classification, previous: Snapshot,
      seen: Snapshot, file: File)
    requires ClearReasons(policy, means) && Faithful(tools, means, previous) && Faithful(tools, means, seen)
    ensures Faithful(tools, means, Add(seen, file.path, Scanned(tools, policy, previous, file)))
  {
    hide Analysed, Scanned, Base;
    var entry := Scanned(tools, policy, previous, file);
    var next := Add(seen, file.path, entry);
    ScannedIsRebuilt(tools, policy, means, previous, file);
    ReasonTellsBase(tools, policy, means, file.path);
    hide ClearReasons;
    forall path | path in next.manifest ensures FaithfulAt(tools, means, next, path) {
      if path != file.path {
        assert FaithfulAt(tools, means, seen, path) && RowsOf(next, path) == RowsOf(seen, path);
      } else {
        assert RowsOf(next, path) == entry.chunks;
      }
    }
  }

  lemma {:induction false} CollectedIsFaithful(tools: Tools, policy: Policy, means: string -> Classification,
      previous: Snapshot, files: seq<File>)
    requires ClearReasons(policy, means) && Faithful(tools, means, previous)
    ensures Faithful(tools, means, Collected(tools, policy, previous, files))
    decreases |files|
  {
    if files != [] {
      hide ClearReasons, Scanned, Add;
      CollectedIsFaithful(tools, policy, means, previous, files[..|files| - 1]);
      AddKeepsFaithful(tools, policy, means, previous, Collected(tools, policy, previous, files[..|files| - 1]),
        files[|files| - 1]);
    }
  }

  lemma CheckpointIsFaithful(tools: Tools, means: string -> Classification, previous: Snapshot, seen: Snapshot)
    requires Faithful(tools, means, previous) && Faithful(tools, means, seen)
    ensures Faithful(tools, means, Checkpoint(previous, seen))
  {
    hide Analysed, SameEntry;
    var next := Checkpoint(previous, seen);
    forall path | path in next.manifest ensures FaithfulAt(tools, means, next, path) {
      if path in seen.manifest {
        assert FaithfulAt(tools, means, seen, path) && RowsOf(next, path) == RowsOf(seen, path);
      } else {
        assert FaithfulAt(tools, means, previous, path) && RowsOf(next, path) == RowsOf(previous, path);
      }
    }
  }

  /** An incremental scan from a faithful snapshot is a rebuild. */
  lemma {:induction false} ScanIsRebuild(tools: Tools, policy: Policy, means: string -> Classification,
      previous: Snapshot, files: seq<File>)
    requires ClearReasons(policy, means) && Faithful(tools, means, previous)
    ensures SameSnapshot(Collected(tools, policy, previous, files), Rebuild(tools, policy, files))
    decreases |files|
  {
    if files != [] {
      hide ClearReasons, Scanned, Faithful, Rebuilt;
      var file := files[|files| - 1];
      ScanIsRebuild(tools, policy, means, previous, files[..|files| - 1]);
      ScannedIsRebuilt(tools, policy, means, previous, file);
      NothingCached(tools, policy, file);
    }
  }

  lemma NothingCached(tools: Tools, policy: Policy, file: File)
    ensures Scanned(tools, policy, NOTHING, file) == Rebuilt(tools, policy, file)
  {
    hide Analysed, Base;
  }

  // ----- Whole histories of scans -----

  /** One scan: it persists a checkpoint after `reached` files and dies, or it completes. */
  datatype Scan = Scan(policy: Policy, files: seq<File>, reached: nat, completes: bool)

  function After(tools: Tools, snapshot: Snapshot, scan: Scan): Snapshot
    requires scan.reached <= |scan.files|
  {
    if scan.completes then Collected(tools, scan.policy, snapshot, scan.files)
    else Checkpoint(snapshot, Collected(tools, scan.policy, snapshot, scan.files[..scan.reached]))
  }

  ghost predicate Reaches(tools: Tools, means: string -> Classification, start: Snapshot, scans: seq<Scan>,
      end: Snapshot)
    decreases |scans|
  {
    if scans == [] then
      start == end
    else
      && scans[0].reached <= |scans[0].files|
      && ClearReasons(scans[0].policy, means)
      && Reaches(tools, means, After(tools, start, scans[0]), scans[1..], end)
  }

  lemma {:induction false} ReachableIsFaithful(tools: Tools, means: string -> Classification, start: Snapshot,
      scans: seq<Scan>, end: Snapshot)
    requires Faithful(tools, means, start) && Reaches(tools, means, start, scans, end)
    ensures Faithful(tools, means, end)
    decreases |scans|
  {
    if scans != [] {
      hide Faithful, Collected, Checkpoint, ClearReasons;
      var scan := scans[0];
      if scan.completes {
        CollectedIsFaithful(tools, scan.policy, means, start, scan.files);
      } else {
        CollectedIsFaithful(tools, scan.policy, means, start, scan.files[..scan.reached]);
        CheckpointIsFaithful(tools, means, start, Collected(tools, scan.policy, start, scan.files[..scan.reached]));
      }
      ReachableIsFaithful(tools, means, After(tools, start, scan), scans[1..], end);
    }
  }

  /** After any history of complete and interrupted scans, under changing policies and overrides,
      the next complete scan gives the documents and chunks of a rebuild from nothing. */
  lemma AnyHistoryThenRebuild(tools: Tools, means: string -> Classification, scans: seq<Scan>, end: Snapshot,
                              policy: Policy, files: seq<File>)
    requires Reaches(tools, means, NOTHING, scans, end) && ClearReasons(policy, means)
    ensures SameSnapshot(Collected(tools, policy, end, files), Rebuild(tools, policy, files))
  {
    hide ClearReasons, Collected;
    assert Faithful(tools, means, NOTHING);
    ReachableIsFaithful(tools, means, NOTHING, scans, end);
    ScanIsRebuild(tools, policy, means, end, files);
  }

  // ----- What may reach a customer -----

  /** The file was extracted whole and no marker was found in it. */
  ghost predicate Clean(tools: Tools, file: File, base: Classification) {
    && Extracts(tools, file, base) && file.fingerprint.size <= tools.maxBytes
    && var extraction := tools.extract(file.path, file.fingerprint, base == CustomerCandidate || base == CustomerReady);
    && extraction.Extracted? && extraction.text != ""
    && forall m :: m in tools.markers ==> !tools.found(m, extraction.text)
  }

  lemma {:induction false} NoHitsMeansNoMarker(tools: Tools, text: string, markers: seq<string>)
    ensures Hits(tools, text, markers) == [] <==> forall m :: m in markers ==> !tools.found(m, text)
  {
    if markers != [] {
      NoHitsMeansNoMarker(tools, text, markers[1..]);
      assert forall m :: m in markers <==> m == markers[0] || m in markers[1..];
    }
  }

  /** An extractable candidate is always decided, and becomes ready exactly when it is clean; every other file
      keeps the class of its path. */
  lemma CandidatesAreDecided(tools: Tools, file: File, base: Classification, reason: string)
    ensures var decided := Analysed(tools, file, base, reason).document.classification;
      if base == CustomerCandidate && Extracts(tools, file, base)
      then decided == if Clean(tools, file, base) then CustomerReady else ReviewRequired
      else decided == base
  {
    match tools.extract(file.path, file.fingerprint, base == CustomerCandidate || base == CustomerReady) {
      case Unreadable(_) =>
      case Extracted(text, _) => NoHitsMeansNoMarker(tools, text, tools.markers);
    }
  }

  /** In every reachable snapshot, a document is ready for customers only if its path says so or the content
      guard cleared it, and its chunks carry its class. */
  lemma ReadyIsCleared(tools: Tools, means: string -> Classification, scans: seq<Scan>, end: Snapshot, path: string)
    requires Reaches(tools, means, NOTHING, scans, end)
    requires path in end.manifest && end.manifest[path].classification == CustomerReady
    ensures var base := means(end.manifest[path].policySource);
      || base == CustomerReady
      || (base == CustomerCandidate && Clean(tools, File(path, end.manifest[path].fingerprint), base))
    ensures forall k :: 0 <= k < |RowsOf(end, path)| ==> RowsOf(end, path)[k].classification == CustomerReady
  {
    assert Faithful(tools, means, NOTHING);
    ReachableIsFaithful(tools, means, NOTHING, scans, end);
    assert FaithfulAt(tools, means, end, path);
    hide Reaches, Faithful;
    var document := end.manifest[path];
    var file, base := File(path, document.fingerprint), means(document.policySource);
    CandidatesAreDecided(tools, file, base, document.policySource);
    RowsCarryClass(tools, file, base, document.policySource);
    hide Analysed, Clean, Extracts;
  }

  /** The rows of a fresh entry are numbered from one, counted in the document and of its class. */
  lemma RowsCarryClass(tools: Tools, file: File, base: Classification, reason: string)
    ensures var entry := Analysed(tools, file, base, reason);
      && entry.document.chunkCount == |entry.chunks|
      && forall k :: 0 <= k < |entry.chunks| ==>
           entry.chunks[k].classification == entry.document.classification && entry.chunks[k].number == k + 1
  {
  }
}
