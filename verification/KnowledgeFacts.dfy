/** What a scan writes of each file, read off the file, the policy and the cache alone. */
module KnowledgeFacts {
  import opened Options
  import opened KnowledgeIndex

  // ----- Paths -----

  predicate AllSlashes(text: string) {
    forall i :: 0 <= i < |text| ==> text[i] == '/'
  }

  predicate EndsInSlash(text: string) {
    |text| > 0 && text[|text| - 1] == '/'
  }

  lemma {:induction false} SlashesDrop(dir: string, slashes: string)
    requires !EndsInSlash(dir) && AllSlashes(slashes)
    ensures DropSlashes(dir + slashes) == dir
    decreases |slashes|
  {
    if slashes == [] {
      assert dir + slashes == dir;
    } else {
      var text, init := dir + slashes, slashes[..|slashes| - 1];
      assert text[|text| - 1] == '/' && text[..|text| - 1] == dir + init;
      SlashesDrop(dir, init);
    }
  }

  /** A directory pattern, however many slashes it has before its stars, covers the directory and all that lies
      below it; two stars alone cover every path; any other pattern is a glob. */
  lemma PatternCovers(tools: Tools, path: string, dir: string, slashes: string, pattern: string)
    requires !EndsInSlash(dir) && AllSlashes(slashes)
    ensures PathMatches(tools, path, "**")
    ensures PathMatches(tools, path, dir + slashes + "/**") <==>
      path == dir || (|path| > |dir| && path[..|dir|] == dir && path[|dir|] == '/')
    ensures pattern != "**" && (|pattern| < 3 || pattern[|pattern| - 3..] != "/**") ==>
      (PathMatches(tools, path, pattern) <==> tools.glob(path, pattern))
  {
    var whole := dir + slashes + "/**";
    assert whole[|whole| - 3..] == "/**" && whole[..|whole| - 3] == dir + slashes;
    SlashesDrop(dir, slashes);
    assert dir + "/" <= path <==> |path| > |dir| && path[..|dir|] == dir && path[|dir|] == '/' by {
      assert |dir + "/"| == |dir| + 1 && (dir + "/")[|dir|] == '/';
      if |path| > |dir| && path[..|dir|] == dir && path[|dir|] == '/' {
        assert path[..|dir| + 1] == dir + "/";
      }
      if dir + "/" <= path {
        assert path[..|dir|] == (dir + "/")[..|dir|];
      }
    }
    assert |whole| >= 3;
  }

  predicate IsSystemFile(name: string) {
    name == ".ds_store" || name == "desktop.ini" || name == "thumbs.db"
    || (|name| >= 2 && name[0] == '~' && name[1] == '$')
  }

  predicate IsExcludedType(decision: (Classification, string), extension: string) {
    decision.0 == Excluded
    && (extension == "" ==> decision.1 == "excluded file type (none)")
    && (extension != "" ==> decision.1 == "excluded file type " + extension)
  }

  /** An administrator's decision beats everything; then system files and excluded types are left out, whatever
      the rules say; only then do the rules decide. */
  lemma WhoDecides(tools: Tools, policy: Policy, path: string)
    ensures path in policy.overrides ==> Base(tools, policy, path).0 == policy.overrides[path].classification
    ensures path in policy.overrides && policy.overrides[path].reason != "" ==>
      Base(tools, policy, path).1 == "manual override: " + policy.overrides[path].reason
    ensures path !in policy.overrides && IsSystemFile(tools.nameOf(path)) ==>
      Base(tools, policy, path) == (Excluded, "system or temporary file")
    ensures path !in policy.overrides && !IsSystemFile(tools.nameOf(path)) ==>
      if tools.extensionOf(path) in policy.excludedExtensions
      then IsExcludedType(Base(tools, policy, path), tools.extensionOf(path))
      else Base(tools, policy, path) == FirstMatch(tools, path, policy.rules)
  {
    var name := tools.nameOf(path);
    assert "~$" <= name <==> |name| >= 2 && name[0] == '~' && name[1] == '$';
    hide FirstMatch;
  }

  // ----- One file -----

  /** Which files are opened at all. */
  predicate IsRead(tools: Tools, file: File, base: Classification) {
    base != Excluded && tools.extensionOf(file.path) in tools.extractable
  }

  /** The extraction, asked with patience for what customers may see. */
  function Reading(tools: Tools, file: File, base: Classification): Extraction {
    tools.extract(file.path, file.fingerprint, base == CustomerReady || base == CustomerCandidate)
  }

  lemma {:induction false} HitsAreFound(tools: Tools, text: string, markers: seq<string>)
    ensures forall m :: m in Hits(tools, text, markers) <==> m in markers && tools.found(m, text)
  {
    if markers != [] {
      HitsAreFound(tools, text, markers[1..]);
      assert forall m :: m in markers <==> m == markers[0] || m in markers[1..];
    }
  }

  /** Not read. */
  ghost predicate LooksUnread(entry: Entry, status: Status) {
    entry.chunks == [] && entry.document.chunkCount == 0 && entry.document.status == status
    && entry.document.sha256 == None && entry.document.hits == []
  }

  /** Deciding the class touches nothing else. */
  lemma GuardKeeps(document: Document, source: string)
    ensures OnlyClass(document, Demoted(document, source)) && OnlyClass(document, Cleared(document))
  {
  }

  predicate OnlyClass(a: Document, b: Document) {
    b.(classification := a.classification, source := a.source) == a
  }

  lemma RowsAre(path: string, texts: seq<string>, classification: Classification, sha256: string)
    ensures var rows := Rows(path, texts, classification, sha256);
      |rows| == |texts| && forall k :: 0 <= k < |rows| ==>
        && rows[k].path == path && rows[k].number == k + 1 && rows[k].text == texts[k]
        && rows[k].sha256 == sha256 && rows[k].classification == classification
  {
  }

  /** Unread files and files over the limit carry nothing. */
  lemma UnreadExactly(tools: Tools, file: File, base: Classification, reason: string)
    requires IsRead(tools, file, base) ==> file.fingerprint.size > tools.maxBytes
    ensures var entry := Analysed(tools, file, base, reason); var document := entry.document;
      && document.fingerprint == file.fingerprint && document.policySource == reason && document.error == None
      && LooksUnread(entry, if IsRead(tools, file, base) then TooLarge else NotExtractable)
  {
    hide Hits, Rows;
  }

  /** A failed extraction carries its error, an empty one its digest, and a text its digest, the markers found in
      it and its numbered chunks. */
  lemma ReadExactly(tools: Tools, file: File, base: Classification, reason: string)
    requires IsRead(tools, file, base) && file.fingerprint.size <= tools.maxBytes
    ensures var entry := Analysed(tools, file, base, reason); var document := entry.document;
      && document.fingerprint == file.fingerprint && document.policySource == reason
      && match Reading(tools, file, base)
         case Unreadable(error) => LooksUnread(entry, Broken) && document.error == Some(error)
         case Extracted(text, sha256) => Holds(tools, entry, file, text, sha256) && document.error == None
  {
    hide Demoted, Cleared, Rows, Hits;
    var blank := Document(file.fingerprint, base, reason, reason, NotExtractable, None, [], 0, None);
    match Reading(tools, file, base) {
      case Unreadable(error) =>
        GuardKeeps(blank.(status := Broken, error := Some(error)), "candidate extraction failed");
      case Extracted(text, sha256) =>
        GuardKeeps(blank.(status := Empty, sha256 := Some(sha256)), "candidate contains no extractable text");
        var hits := Hits(tools, text, tools.markers);
        HitsAreFound(tools, text, tools.markers);
        GuardKeeps(blank.(status := Indexed, sha256 := Some(sha256), hits := hits),
                   "candidate matched sensitive-content guard");
        var decided := Analysed(tools, file, base, reason).document.classification;
        RowsAre(file.path, tools.chunksOf(text), decided, sha256);
    }
  }

  /** A candidate that is read becomes ready exactly for a text without markers, within the limit, and is reviewed
      otherwise; every other file keeps the class of its path. */
  lemma ClassExactly(tools: Tools, file: File, base: Classification, reason: string)
    ensures var decided := Analysed(tools, file, base, reason).document.classification;
      if base == CustomerCandidate && IsRead(tools, file, base)
      then decided ==
        if file.fingerprint.size <= tools.maxBytes && ReadsClean(tools, file, base) then CustomerReady
        else ReviewRequired
      else decided == base
  {
    hide Analysed;
    CandidatesAreDecided(tools, file, base, reason);
  }

  ghost predicate ReadsClean(tools: Tools, file: File, base: Classification) {
    var reading := Reading(tools, file, base);
    reading.Extracted? && reading.text != "" && forall m :: m in tools.markers ==> !tools.found(m, reading.text)
  }

  ghost predicate Holds(tools: Tools, entry: Entry, file: File, text: string, sha256: string) {
    && entry.document.sha256 == Some(sha256) && entry.document.chunkCount == |entry.chunks|
    && (text == "" ==> entry.document.status == Empty && entry.chunks == [] && entry.document.hits == [])
    && (text != "" ==>
          && entry.document.status == Indexed && |entry.chunks| == |tools.chunksOf(text)|
          && (forall m :: m in entry.document.hits <==> m in tools.markers && tools.found(m, text))
          && (forall k :: 0 <= k < |entry.chunks| ==>
                && entry.chunks[k].path == file.path && entry.chunks[k].number == k + 1
                && entry.chunks[k].text == tools.chunksOf(text)[k] && entry.chunks[k].sha256 == sha256
                && entry.chunks[k].classification == entry.document.classification))
  }

  // ----- The cache -----

  /** The cache knows the file as it is, under the reason it has now, with its rows. */
  predicate IsCached(previous: Snapshot, file: File, reason: string) {
    && file.path in previous.manifest && previous.manifest[file.path].fingerprint == file.fingerprint
    && previous.manifest[file.path].policySource == reason
    && (previous.manifest[file.path].chunkCount > 0 ==> file.path in previous.index && previous.index[file.path] != [])
  }

  /** A cached file is not looked at: its entry keeps everything found before but the explanation of its class,
      which is its path's reason again. Any other file is looked at afresh. */
  lemma CacheDecides(tools: Tools, policy: Policy, previous: Snapshot, file: File)
    ensures var (base, reason) := Base(tools, policy, file.path);
      var entry := Scanned(tools, policy, previous, file);
      if IsCached(previous, file, reason)
      then entry.document == previous.manifest[file.path].(source := reason)
        && entry.chunks == (if file.path in previous.index then previous.index[file.path] else [])
      else entry == Analysed(tools, file, base, reason)
  {
    hide Base, Analysed;
  }

  // ----- Whole snapshots -----

  /** What a snapshot holds of a path. */
  ghost predicate HoldsEntry(snapshot: Snapshot, path: string, entry: Entry) {
    && path in snapshot.manifest && snapshot.manifest[path] == entry.document
    && (if path in snapshot.index then snapshot.index[path] == entry.chunks else entry.chunks == [])
  }

  ghost predicate HoldsAll(tools: Tools, policy: Policy, previous: Snapshot, files: seq<File>, seen: Snapshot) {
    && (forall i :: 0 <= i < |files| ==>
          HoldsEntry(seen, files[i].path, Scanned(tools, policy, previous, files[i])))
    && (forall path :: path in seen.manifest || path in seen.index ==> ListsPath(files, path))
  }

  /** A complete scan holds exactly the files of the walk, each as it was scanned. */
  lemma {:induction false} CollectedExactly(tools: Tools, policy: Policy, previous: Snapshot, files: seq<File>)
    requires DistinctPaths(files)
    ensures HoldsAll(tools, policy, previous, files, Collected(tools, policy, previous, files))
    decreases |files|
  {
    hide Scanned, Add, HoldsEntry, ListsPath, DistinctPaths;
    if files != [] {
      hide HoldsAll;
      var init, last := files[..|files| - 1], files[|files| - 1];
      StillDistinct(files);
      CollectedExactly(tools, policy, previous, init);
      AddHoldsAll(tools, policy, previous, Collected(tools, policy, previous, init), files);
    }
  }

  lemma StillDistinct(files: seq<File>)
    requires DistinctPaths(files) && files != []
    ensures DistinctPaths(files[..|files| - 1])
    ensures forall i :: 0 <= i < |files| - 1 ==> files[i].path != files[|files| - 1].path
  {
  }

  lemma AddHoldsAll(tools: Tools, policy: Policy, previous: Snapshot, before: Snapshot, files: seq<File>)
    requires DistinctPaths(files) && files != []
    requires HoldsAll(tools, policy, previous, files[..|files| - 1], before)
    ensures var last := files[|files| - 1];
      HoldsAll(tools, policy, previous, files, Add(before, last.path, Scanned(tools, policy, previous, last)))
  {
    hide Scanned, Add, HoldsEntry, ListsPath, DistinctPaths;
    var init, last := files[..|files| - 1], files[|files| - 1];
    var entry := Scanned(tools, policy, previous, last);
    var next := Add(before, last.path, entry);
    StillDistinct(files);
    AddHolds(before, last.path, entry);
    assert init + [last] == files;
    forall path | path in next.manifest || path in next.index ensures ListsPath(files, path) {
      ListsMore(init, last, path);
    }
    forall i | 0 <= i < |files| ensures HoldsEntry(next, files[i].path, Scanned(tools, policy, previous, files[i])) {
      if i < |init| { assert files[i] == init[i]; }
    }
  }

  lemma AddHolds(before: Snapshot, path: string, entry: Entry)
    ensures HoldsEntry(Add(before, path, entry), path, entry)
    ensures forall other, held :: other != path && HoldsEntry(before, other, held) ==>
      HoldsEntry(Add(before, path, entry), other, held)
    ensures forall other :: other in Add(before, path, entry).manifest ==> other == path || other in before.manifest
    ensures forall other :: other in Add(before, path, entry).index ==> other == path || other in before.index
  {
  }

  lemma ListsMore(files: seq<File>, last: File, path: string)
    requires path == last.path || ListsPath(files, path)
    ensures ListsPath(files + [last], path)
  {
    var longer := files + [last];
    if path == last.path {
      assert longer[|files|].path == path;
    } else {
      var i :| 0 <= i < |files| && files[i].path == path;
      assert longer[i].path == path;
    }
  }

  predicate ListsPath(files: seq<File>, path: string) {
    exists i :: 0 <= i < |files| && files[i].path == path
  }

  /** A checkpoint holds what was seen as it was seen, and everything else as it was before. */
  lemma CheckpointExactly(previous: Snapshot, seen: Snapshot)
    requires forall path :: path in seen.index ==> path in seen.manifest
    ensures var next := Checkpoint(previous, seen);
      && (forall path :: path in next.manifest <==> path in seen.manifest || path in previous.manifest)
      && (forall path :: path in seen.manifest ==>
            next.manifest[path] == seen.manifest[path] && RowsOf(next, path) == RowsOf(seen, path))
      && (forall path :: path in previous.manifest && path !in seen.manifest ==>
            next.manifest[path] == previous.manifest[path] && RowsOf(next, path) == RowsOf(previous, path))
  {
  }
}
