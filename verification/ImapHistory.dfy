/** Which mail is history, told by the server alone: the mailbox at the SEARCH of the poll that first
    positions the cursor under a UIDVALIDITY is what `app/imap_poller.py` stores as history. */
module ImapHistory {
  import opened Options
  import opened ImapFetch
  import opened ImapCursors
  import opened ImapRuns

  /** Was on the server then, or came later. */
  predicate ThenOrLater(first: Server, uid: nat) {
    uid > 0 && (uid in first.mail || uid >= first.next)
  }

  ghost predicate AllThenOrLater(first: Server, messages: seq<Message>) {
    forall i :: 0 <= i < |messages| ==> ThenOrLater(first, messages[i].uid)
  }

  ghost predicate PollSince(first: Server, name: string, poll: Poll) {
    match poll
    case Searched(folder, _, _, validity, _, available) =>
      folder == name && validity == first.validity ==> AllThenOrLater(first, available)
    case Loaded(folder, _, validity, _, messages) =>
      folder == name && validity == first.validity ==> AllThenOrLater(first, messages)
    case Counted(folder, validity, _, messages) =>
      folder == name && validity == first.validity ==> AllThenOrLater(first, messages)
    case Working(folder, validity, messages, _) =>
      folder == name && validity == first.validity ==> AllThenOrLater(first, messages)
    case _ => true
  }

  ghost predicate ServerSince(first: Server, server: Server) {
    && server.validity >= first.validity
    && (server.validity == first.validity ==>
          server.next >= first.next && forall u :: u in server.mail ==> ThenOrLater(first, u))
  }

  ghost predicate StoredSince(first: Server, f: Folder) {
    forall u :: (first.validity, u) in f.stored ==> ThenOrLater(first, u)
  }

  /** No message of the UIDVALIDITY is older than what the server had then. */
  ghost predicate Since(first: Server, name: string, w: World) {
    && name in w.folders && ServerSince(first, w.folders[name].server) && StoredSince(first, w.folders[name])
    && PollSince(first, name, w.poll)
  }

  lemma BodiesSince(first: Server, server: Server, listed: seq<nat>, bound: nat)
    requires ServerSince(first, server) && server.validity == first.validity
    requires SearchReply(server, bound, listed)
    ensures AllThenOrLater(first, Bodies(Above(listed, bound), server.mail))
  {
    var uids := Above(listed, bound);
    AboveIsFilter(listed, bound);
    forall i | 0 <= i < |uids| ensures uids[i] in server.mail {
      assert uids[i] in uids;
    }
  }

  lemma StepSince(first: Server, name: string, w: World, limits: Limits, step: Step)
    requires Since(first, name, w) && Enabled(w, limits, step)
    ensures Since(first, name, Apply(w, limits, step))
  {
    hide Total, WithinBudget, HighestUid, Above, SearchReply;
    match step {
      case Search(listed) =>
        var server := w.folders[w.poll.folder].server;
        if w.poll.folder == name && server.validity == first.validity {
          BodiesSince(first, server, listed, Bound(w.poll, server));
        }
      case _ =>
    }
  }

  lemma {:induction false} RunSince(first: Server, name: string, w: World, limits: Limits, steps: seq<Step>, end: World)
    requires Since(first, name, w) && Run(w, limits, steps, end)
    ensures Since(first, name, end)
    decreases |steps|
  {
    if steps == [] {
    } else {
      hide Since, Enabled, Apply;
      StepSince(first, name, w, limits, steps[0]);
      RunSince(first, name, Apply(w, limits, steps[0]), limits, steps[1..], end);
    }
  }

  // ----- The poll that positions the cursor -----

  /** What may happen between the SEARCH of a poll and its cursor commit. */
  predicate WhileReading(step: Step) {
    step.NextDay? || step.Serve? || step.Fetch? || step.Count?
  }

  /** A poll of the folder that has searched, and not yet committed. */
  predicate Reads(poll: Poll, name: string, validity: nat, highest: nat) {
    (poll.Searched? || poll.Loaded? || poll.Counted?)
    && poll.folder == name && poll.validity == validity && poll.highest == highest
  }

  lemma StepReads(name: string, validity: nat, highest: nat, w: World, limits: Limits, step: Step)
    requires Enabled(w, limits, step) && WhileReading(step) && name in w.folders
    requires Reads(w.poll, name, validity, highest)
    ensures var next := Apply(w, limits, step);
      && Reads(next.poll, name, validity, highest) && name in next.folders
      && next.folders[name].cursor == w.folders[name].cursor && next.folders[name].cutoffs == w.folders[name].cutoffs
  {
    hide Total, WithinBudget, MayChange, Changed, SearchReply, Above;
  }

  lemma {:induction false} RunReads(name: string, validity: nat, highest: nat, w: World, limits: Limits,
      steps: seq<Step>, end: World)
    requires Run(w, limits, steps, end) && name in w.folders && Reads(w.poll, name, validity, highest)
    requires forall step :: step in steps ==> WhileReading(step)
    ensures Reads(end.poll, name, validity, highest) && name in end.folders
    ensures end.folders[name].cursor == w.folders[name].cursor && end.folders[name].cutoffs == w.folders[name].cutoffs
    decreases |steps|
  {
    if steps == [] {
    } else {
      hide Enabled, Apply, Reads;
      assert steps[0] in steps;
      StepReads(name, validity, highest, w, limits, steps[0]);
      RunReads(name, validity, highest, Apply(w, limits, steps[0]), limits, steps[1..], end);
    }
  }

  /** The highest UID of a first SEARCH separates what the server had from what it gives out later. */
  lemma HighestSeparates(server: Server, listed: seq<nat>, largest: nat, uid: nat)
    requires ServerOk(server, largest) && SearchReply(server, 0, listed) && ThenOrLater(server, uid)
    ensures uid <= HighestUid(Above(listed, 0), 0) <==> uid in server.mail
  {
    var uids := Above(listed, 0);
    AboveIsFilter(listed, 0);
    var highest := HighestUid(uids, 0);
    if uid in server.mail {
      assert uid in uids;
    } else if uids != [] {
      assert highest in server.mail;
    }
  }

  lemma SearchSince(name: string, w: World, limits: Limits, listed: seq<nat>)
    requires Sound(w, limits) && Enabled(w, limits, Search(listed)) && w.poll.folder == name
    requires var f := w.folders[name]; f.cursor == None || f.cursor.value.validity != f.server.validity
    ensures var f, next := w.folders[name], Apply(w, limits, Search(listed));
      && Since(f.server, name, next) && SearchReply(f.server, 0, listed)
      && Reads(next.poll, name, f.server.validity, HighestUid(Above(listed, 0), 0))
      && name in next.folders && next.folders[name] == f && f.server.validity !in f.cutoffs
  {
    var f := w.folders[name];
    assert FolderOk(f, limits.largest) && PollOk(f, w.poll, limits.largest);
    assert CursorOk(f) && FlagsFollowCutoffs(f) && ServerOk(f.server, limits.largest);
    hide Total, FolderOk, Gapless, Ordered, SearchReply, Above, HighestUid;
    BodiesSince(f.server, f.server, listed, Bound(w.poll, f.server));
  }

  lemma PositionFixes(w: World, limits: Limits, name: string, validity: nat, highest: nat)
    requires Enabled(w, limits, Position) && name in w.folders && Reads(w.poll, name, validity, highest)
    requires var f := w.folders[name];
      validity !in f.cutoffs && (f.cursor == None || f.cursor.value.validity != validity)
    ensures name in Apply(w, limits, Position).folders
    ensures var f := Apply(w, limits, Position).folders[name];
      validity in f.cutoffs && f.cutoffs[validity] == highest
  {
  }

  /** A poll that finds no cursor, or one of another UIDVALIDITY, searches, reads, and commits its
      cursor; from then on, whatever happens, a stored message of this UIDVALIDITY is history if the
      server had it at that SEARCH, and is live mail if it arrived later. */
  lemma FirstSearchDecides(start: World, limits: Limits, before: seq<Step>, w: World, listed: seq<nat>,
      reading: seq<Step>, at: World, after: seq<Step>, end: World, name: string)
    requires Untouched(start, limits) && Run(start, limits, before, w)
    requires Enabled(w, limits, Search(listed)) && w.poll.folder == name
    requires var f := w.folders[name]; f.cursor == None || f.cursor.value.validity != f.server.validity
    requires Run(Apply(w, limits, Search(listed)), limits, reading, at)
    requires forall step :: step in reading ==> WhileReading(step)
    requires Enabled(at, limits, Position) && Run(Apply(at, limits, Position), limits, after, end)
    ensures name in end.folders
    ensures var server := w.folders[name].server;
      forall uid :: (server.validity, uid) in end.folders[name].stored ==>
        ThenOrLater(server, uid)
        && (end.folders[name].stored[(server.validity, uid)] <==> uid in server.mail)
  {
    assert name in w.folders;
    hide Apply, Enabled, Sound, Reads, Since, AllProgress, SearchReply, Above, HighestUid;
    var f, next := w.folders[name], Apply(w, limits, Search(listed));
    var server, highest := f.server, HighestUid(Above(listed, 0), 0);
    UntouchedIsSound(start, limits);
    RunsAreSound(start, limits, before, w);
    SearchSince(name, w, limits, listed);
    RunReads(name, server.validity, highest, next, limits, reading, at);
    PositionFixes(at, limits, name, server.validity, highest);
    StepIsSound(w, limits, Search(listed));
    RunsAreSound(next, limits, reading, at);
    StepIsSound(at, limits, Position);
    RunsAreSound(Apply(at, limits, Position), limits, after, end);
    RunSince(server, name, next, limits, reading, at);
    StepSince(server, name, at, limits, Position);
    RunSince(server, name, Apply(at, limits, Position), limits, after, end);
    StoredByCutoff(Apply(at, limits, Position), end, limits, name, server, highest);
    ServerIsOk(w, limits, name);
    forall uid | (server.validity, uid) in end.folders[name].stored
      ensures ThenOrLater(server, uid)
        && (end.folders[name].stored[(server.validity, uid)] <==> uid in server.mail)
    {
      HighestSeparates(server, listed, limits.largest, uid);
    }
  }

  lemma ServerIsOk(w: World, limits: Limits, name: string)
    requires Sound(w, limits) && name in w.folders
    ensures ServerOk(w.folders[name].server, limits.largest)
  {
    assert FolderOk(w.folders[name], limits.largest);
  }

  lemma StoredByCutoff(at: World, end: World, limits: Limits, name: string, first: Server, highest: nat)
    requires Sound(end, limits) && AllProgress(at, end) && Since(first, name, end) && name in at.folders
    requires first.validity in at.folders[name].cutoffs && at.folders[name].cutoffs[first.validity] == highest
    ensures name in end.folders
    ensures forall uid :: (first.validity, uid) in end.folders[name].stored ==>
      ThenOrLater(first, uid) && (end.folders[name].stored[(first.validity, uid)] <==> uid <= highest)
  {
    assert FolderOk(end.folders[name], limits.largest);
    hide ServerOk, CursorOk, Covered, BytesOk, ServerSince, PollSince;
  }
}
