/** The mailbox cursor and the byte budget over whole runs, with crashes between any two commits. */
module ImapRuns {
  import opened Options
  import opened ImapFetch
  import opened ImapCursors

  ghost predicate FoldersOk(w: World, limits: Limits) {
    && (forall name :: name in w.folders ==> FolderOk(w.folders[name], limits.largest))
    && (!w.poll.Idle? ==> w.poll.folder in w.folders && PollOk(w.folders[w.poll.folder], w.poll, limits.largest))
  }

  // ----- Bytes -----

  /** Downloaded in this poll, with the usage commit still to come. */
  function Unsettled(poll: Poll, day: nat): nat {
    if poll.Loaded? && poll.day == day then Total(poll.messages) else 0
  }

  ghost predicate PollWithinBudget(w: World, limits: Limits) {
    match w.poll
    case Started(_, day, used, _, _) => used == On(w.used, day) < limits.daily
    case Searched(_, day, budget, _, _, _) => budget > 0 && budget + On(w.used, day) == limits.daily
    case Loaded(_, day, _, _, messages) =>
      Total(messages) == 0 || On(w.used, day) + Total(messages) < limits.daily + limits.largest
    case _ => true
  }

  ghost predicate BytesOk(w: World, limits: Limits) {
    && (forall day :: On(w.used, day) == 0 || On(w.used, day) < limits.daily + limits.largest)
    && (forall day :: On(w.downloaded, day) == On(w.used, day) + On(w.unrecorded, day) + Unsettled(w.poll, day))
    && PollWithinBudget(w, limits)
  }

  ghost predicate Sound(w: World, limits: Limits) {
    FoldersOk(w, limits) && BytesOk(w, limits)
  }

  lemma BatchIsSmall(messages: seq<Message>, budget: nat, largest: nat)
    requires WithinBudget(messages, budget) && budget > 0
    requires forall i :: 0 <= i < |messages| ==> messages[i].size <= largest
    ensures Total(messages) == 0 || Total(messages) < budget + largest
  {
    if |messages| == 1 { assert Total(messages[..0]) == 0; }
  }

  lemma FetchBytes(w: World, limits: Limits, step: Step)
    requires BytesOk(w, limits) && Enabled(w, limits, step) && (step.Fetch? || step.FetchFails?)
    requires var bytes := Total(w.poll.available[..step.count]); bytes == 0 || bytes < w.poll.budget + limits.largest
    ensures BytesOk(Apply(w, limits, step), limits)
  {
    hide Total, WithinBudget, MayChange, SearchReply;
  }

  lemma FetchIsSmall(w: World, limits: Limits, step: Step)
    requires Sound(w, limits) && Enabled(w, limits, step) && (step.Fetch? || step.FetchFails?)
    ensures var bytes := Total(w.poll.available[..step.count]); bytes == 0 || bytes < w.poll.budget + limits.largest
  {
    assert BatchOk(w.folders[w.poll.folder], w.poll.validity, w.poll.available, limits.largest);
    assert PollWithinBudget(w, limits);
    hide Gapless, Total, FolderOk, MayChange, SearchReply;
    BatchIsSmall(w.poll.available[..step.count], w.poll.budget, limits.largest);
  }

  lemma CountBytes(w: World, limits: Limits)
    requires BytesOk(w, limits) && Enabled(w, limits, Count)
    ensures BytesOk(Apply(w, limits, Count), limits)
  {
    hide Total, MayChange, SearchReply, WithinBudget;
    var bytes, next := Total(w.poll.messages), Apply(w, limits, Count);
    assert forall day :: On(next.used, day) == On(w.used, day) + if day == w.poll.day then bytes else 0;
  }

  lemma OtherBytes(w: World, limits: Limits, step: Step)
    requires BytesOk(w, limits) && Enabled(w, limits, step) && !step.Fetch? && !step.FetchFails? && !step.Count?
    ensures BytesOk(Apply(w, limits, step), limits)
  {
    hide Total, Bodies, Positioned, Ingested, Advanced, Finished, Changed, Above, HighestUid,
      MayChange, SearchReply, Bound, LastUid, Expected;
    if step.Crash? {
    } else {
      assert Apply(w, limits, step).used == w.used;
    }
  }

  lemma BytesStep(w: World, limits: Limits, step: Step)
    requires Sound(w, limits) && Enabled(w, limits, step)
    ensures BytesOk(Apply(w, limits, step), limits)
  {
    hide BytesOk, FoldersOk, Apply;
    if step.Fetch? || step.FetchFails? {
      FetchIsSmall(w, limits, step);
      FetchBytes(w, limits, step);
    } else if step.Count? {
      CountBytes(w, limits);
    } else {
      OtherBytes(w, limits, step);
    }
  }

  // ----- Folders -----

  /** What no commit and no server change ever takes back. */
  ghost predicate Progresses(f: Folder, next: Folder) {
    && (f.cursor.Some? ==> next.cursor.Some? && f.cursor.value.validity <= next.cursor.value.validity)
    && (f.cursor.Some? && f.cursor.value.validity == next.cursor.value.validity ==>
          f.cursor.value.last <= next.cursor.value.last && f.cursor.value.cutoff == next.cursor.value.cutoff)
    && (forall k :: k in f.stored ==> k in next.stored && next.stored[k] == f.stored[k])
    && (forall v :: v in f.cutoffs ==> v in next.cutoffs && next.cutoffs[v] == f.cutoffs[v])
  }

  ghost predicate AllProgress(w: World, next: World) {
    forall name :: name in w.folders ==> name in next.folders && Progresses(w.folders[name], next.folders[name])
  }

  lemma ServeStep(w: World, limits: Limits, name: string, change: Change)
    requires FoldersOk(w, limits) && Enabled(w, limits, Serve(name, change))
    ensures FoldersOk(Apply(w, limits, Serve(name, change)), limits)
  {
    assert FolderOk(w.folders[name], limits.largest);
    hide FolderOk, PollOk, Changed, MayChange;
    ServeIdle(w.folders[name], change, limits.largest);
    if !w.poll.Idle? && w.poll.folder == name {
      ServeKeeps(w.folders[name], change, w.poll, limits.largest);
    }
  }

  lemma ServeProgresses(w: World, limits: Limits, name: string, change: Change)
    requires Enabled(w, limits, Serve(name, change))
    ensures AllProgress(w, Apply(w, limits, Serve(name, change)))
  {
    hide Changed, MayChange;
  }

  lemma ServeIdle(f: Folder, change: Change, largest: nat)
    requires FolderOk(f, largest) && MayChange(f.server, change, largest)
    ensures FolderOk(f.(server := Changed(f.server, change)), largest)
  {
    ServeKeeps(f, change, Idle, largest);
  }

  lemma ReadingStep(w: World, limits: Limits, step: Step)
    requires FoldersOk(w, limits) && Enabled(w, limits, step)
    requires step.NextDay? || step.Start? || step.Search? || step.Fetch? || step.FetchFails? || step.Count?
      || step.Crash?
    ensures FoldersOk(Apply(w, limits, step), limits)
    ensures AllProgress(w, Apply(w, limits, step))
  {
    if step.Search? {
      SearchGivesBatch(w.folders[w.poll.folder], step.listed, limits.largest);
    } else if step.Fetch? {
      PrefixKeeps(w.folders[w.poll.folder], w.poll.validity, w.poll.available, step.count, limits.largest);
    }
    hide FolderOk, BatchOk, Bodies, Above, HighestUid, SearchReply;
  }

  lemma CommitFolder(w: World, limits: Limits, step: Step)
    requires FoldersOk(w, limits) && Enabled(w, limits, step)
    requires step.Position? || step.Ingest? || step.Advance? || step.Finish?
    ensures var next := Apply(w, limits, step);
      w.poll.folder in next.folders && FolderOk(next.folders[w.poll.folder], limits.largest)
      && PollOk(next.folders[w.poll.folder], next.poll, limits.largest)
  {
    var f, poll := w.folders[w.poll.folder], w.poll;
    assert FolderOk(f, limits.largest);
    match step {
      case Position => PositionKeeps(f, poll.validity, poll.highest, poll.messages, limits.largest);
      case Ingest => IngestKeeps(f, poll.validity, poll.messages, limits.largest);
      case Advance => AdvanceKeeps(f, poll.validity, poll.messages, limits.largest);
      case Finish => FinishChangesNothing(f, limits.largest);
    }
    hide BatchOk, FolderOk;
  }

  lemma CommitStep(w: World, limits: Limits, step: Step)
    requires FoldersOk(w, limits) && Enabled(w, limits, step)
    requires step.Position? || step.Ingest? || step.Advance? || step.Finish?
    ensures FoldersOk(Apply(w, limits, step), limits)
    ensures AllProgress(w, Apply(w, limits, step))
  {
    hide PollOk, FolderOk, Progresses, Positioned, Ingested, Advanced, Finished;
    var next := Apply(w, limits, step);
    CommitFolder(w, limits, step);
    CommitProgresses(w, limits, step);
    assert next.folders == w.folders[w.poll.folder := next.folders[w.poll.folder]];
    assert next.poll.Idle? || next.poll.folder == w.poll.folder;
    forall name | name in w.folders && name != w.poll.folder
      ensures Progresses(w.folders[name], next.folders[name])
    {
      ProgressesReflexive(w.folders[name]);
    }
  }

  lemma ProgressesReflexive(f: Folder)
    ensures Progresses(f, f)
  {
  }

  lemma CommitProgresses(w: World, limits: Limits, step: Step)
    requires FoldersOk(w, limits) && Enabled(w, limits, step)
    requires step.Position? || step.Ingest? || step.Advance? || step.Finish?
    ensures w.poll.folder in Apply(w, limits, step).folders
    ensures Progresses(w.folders[w.poll.folder], Apply(w, limits, step).folders[w.poll.folder])
  {
    hide Covered, FlagsFollowCutoffs, Gapless, Ordered;
    assert FolderOk(w.folders[w.poll.folder], limits.largest);
  }

  lemma StepIsSound(w: World, limits: Limits, step: Step)
    requires Sound(w, limits) && Enabled(w, limits, step)
    ensures Sound(Apply(w, limits, step), limits) && AllProgress(w, Apply(w, limits, step))
  {
    hide FoldersOk, AllProgress;
    match step {
      case Serve(name, change) =>
        ServeStep(w, limits, name, change);
        ServeProgresses(w, limits, name, change);
      case Position => CommitStep(w, limits, step);
      case Ingest => CommitStep(w, limits, step);
      case Advance => CommitStep(w, limits, step);
      case Finish => CommitStep(w, limits, step);
      case _ => ReadingStep(w, limits, step);
    }
    BytesStep(w, limits, step);
  }

  // ----- Runs -----

  ghost predicate Run(w: World, limits: Limits, steps: seq<Step>, end: World)
    decreases |steps|
  {
    if steps == [] then
      w == end
    else
      Enabled(w, limits, steps[0]) && Run(Apply(w, limits, steps[0]), limits, steps[1..], end)
  }

  /** A mailbox never polled before. */
  ghost predicate Untouched(w: World, limits: Limits) {
    && w.poll == Idle && w.used == map[] && w.downloaded == map[] && w.unrecorded == map[]
    && forall name :: name in w.folders ==> (var f := w.folders[name];
         f.cursor == None && f.stored == map[] && f.cutoffs == map[] && ServerOk(f.server, limits.largest))
  }

  lemma UntouchedIsSound(w: World, limits: Limits)
    requires Untouched(w, limits)
    ensures Sound(w, limits)
  {
  }

  lemma {:induction false} RunsAreSound(w: World, limits: Limits, steps: seq<Step>, end: World)
    requires Sound(w, limits) && Run(w, limits, steps, end)
    ensures Sound(end, limits) && AllProgress(w, end)
    decreases |steps|
  {
    if steps == [] {
    } else {
      hide Sound, Enabled, Apply, AllProgress;
      var next := Apply(w, limits, steps[0]);
      StepIsSound(w, limits, steps[0]);
      RunsAreSound(next, limits, steps[1..], end);
      ProgressComposes(w, next, end);
    }
  }

  lemma ProgressComposes(w: World, mid: World, end: World)
    requires AllProgress(w, mid) && AllProgress(mid, end)
    ensures AllProgress(w, end)
  {
  }

  /** However polls, server changes and crashes interleave, a synchronised folder holds every message
      up to its cursor, each flagged by the cutoff of its first synchronisation; a day's record stays
      under the limit plus one message, and misses exactly the bytes of broken polls. */
  lemma MailboxIsSynchronised(w: World, limits: Limits, steps: seq<Step>, end: World, name: string, day: nat)
    requires Untouched(w, limits) && Run(w, limits, steps, end) && name in end.folders
    ensures var f := end.folders[name];
      f.cursor.Some? && f.cursor.value.validity == f.server.validity ==>
        forall u :: u in f.server.mail && u <= f.cursor.value.last ==> (f.server.validity, u) in f.stored
    ensures var f := end.folders[name];
      forall k :: k in f.stored ==> k.0 in f.cutoffs && (f.stored[k] <==> k.1 <= f.cutoffs[k.0])
    ensures On(end.used, day) == 0 || On(end.used, day) < limits.daily + limits.largest
    ensures end.poll.Idle? ==> On(end.downloaded, day) == On(end.used, day) + On(end.unrecorded, day)
  {
    UntouchedIsSound(w, limits);
    RunsAreSound(w, limits, steps, end);
    assert FolderOk(end.folders[name], limits.largest);
  }

  /** From any two moments of a run: cursors only move forward, and nothing stored changes. */
  lemma CursorNeverDrops(w: World, limits: Limits, before: seq<Step>, mid: World, after: seq<Step>, end: World,
      name: string)
    requires Untouched(w, limits) && Run(w, limits, before, mid) && Run(mid, limits, after, end) && name in mid.folders
    ensures name in end.folders && Progresses(mid.folders[name], end.folders[name])
  {
    UntouchedIsSound(w, limits);
    RunsAreSound(w, limits, before, mid);
    RunsAreSound(mid, limits, after, end);
  }

  // ----- One whole poll -----

  /** The messages of a batch, ingested and passed one by one. */
  ghost function Consumed(f: Folder, validity: nat, messages: seq<Message>): Folder
    requires f.cursor.Some?
    decreases |messages|
  {
    if messages == [] then f
    else Consumed(Advanced(Ingested(f, validity, messages[0].uid), messages[0].uid), validity, messages[1..])
  }

  ghost function ConsumingSteps(n: nat): seq<Step> {
    if n == 0 then [Finish] else [Ingest, Advance] + ConsumingSteps(n - 1)
  }

  /** The folder in hand, and what is left of its batch. */
  function AtWork(w: World, f: Folder, validity: nat, messages: seq<Message>): World
    requires !w.poll.Idle?
  {
    w.(folders := w.folders[w.poll.folder := f], poll := Working(w.poll.folder, validity, messages, false))
  }

  lemma OneMessage(w: World, limits: Limits, f: Folder, validity: nat, messages: seq<Message>)
    requires !w.poll.Idle? && f.cursor.Some? && messages != []
    ensures
      var now := AtWork(w, f, validity, messages);
      var next := Advanced(Ingested(f, validity, messages[0].uid), messages[0].uid);
      && Enabled(now, limits, Ingest) && Enabled(Apply(now, limits, Ingest), limits, Advance)
      && Apply(Apply(now, limits, Ingest), limits, Advance) == AtWork(w, next, validity, messages[1..])
  {
    hide Ingested, Advanced;
    AdvancedHasCursor(f, validity, messages[0].uid);
    var name, next := w.poll.folder, Advanced(Ingested(f, validity, messages[0].uid), messages[0].uid);
    var now := AtWork(w, f, validity, messages);
    var mid := Apply(now, limits, Ingest);
    assert mid.folders[name] == Ingested(f, validity, messages[0].uid);
    assert w.folders[name := f][name := mid.folders[name]][name := next] == w.folders[name := next];
  }

  function AtRest(w: World, f: Folder): World
    requires !w.poll.Idle?
  {
    w.(folders := w.folders[w.poll.folder := f], poll := Idle)
  }

  lemma TwoSteps(w: World, limits: Limits, first: Step, second: Step, rest: seq<Step>, end: World)
    requires Enabled(w, limits, first) && Enabled(Apply(w, limits, first), limits, second)
    requires Run(Apply(Apply(w, limits, first), limits, second), limits, rest, end)
    ensures Run(w, limits, [first, second] + rest, end)
  {
    hide Enabled, Apply;
    var steps := [first, second] + rest;
    assert steps[0] == first && steps[1..][0] == second && steps[1..][1..] == rest;
  }

  lemma {:induction false} ConsumingRuns(w: World, limits: Limits, f: Folder, validity: nat, messages: seq<Message>)
    requires !w.poll.Idle? && f.cursor.Some?
    ensures Run(AtWork(w, f, validity, messages), limits, ConsumingSteps(|messages|),
                AtRest(w, Finished(Consumed(f, validity, messages))))
    decreases |messages|
  {
    if messages == [] {
      var now, end := AtWork(w, f, validity, messages), AtRest(w, Finished(f));
      assert Apply(now, limits, Finish) == end;
      assert Run(end, limits, ConsumingSteps(0)[1..], end);
    } else {
      hide Enabled, Apply, AtWork, AtRest, Ingested, Advanced, Run;
      var next := Advanced(Ingested(f, validity, messages[0].uid), messages[0].uid);
      OneMessage(w, limits, f, validity, messages);
      AdvancedHasCursor(f, validity, messages[0].uid);
      ConsumingRuns(w, limits, next, validity, messages[1..]);
      TwoSteps(AtWork(w, f, validity, messages), limits, Ingest, Advance, ConsumingSteps(|messages| - 1),
               AtRest(w, Finished(Consumed(f, validity, messages))));
    }
  }

  lemma AdvancedHasCursor(f: Folder, validity: nat, uid: nat)
    requires f.cursor.Some?
    ensures Ingested(f, validity, uid).cursor.Some? && Advanced(Ingested(f, validity, uid), uid).cursor.Some?
  {
  }

  function Recorded(used: map<nat, nat>, day: nat, messages: seq<Message>): map<nat, nat> {
    if Total(messages) == 0 then used else Plus(used, day, Total(messages))
  }

  ghost function PolledFolder(f: Folder, validity: nat, highest: nat, messages: seq<Message>): Folder {
    Finished(Consumed(Positioned(f, validity, highest), validity, messages))
  }

  /** What the whole method leaves behind is what its commits leave when nothing interrupts them. */
  lemma PollIsItsCommits(w: World, limits: Limits)
    requires w.poll.Loaded? && w.poll.folder in w.folders
    ensures var poll := w.poll;
      Run(w, limits, [Count, Position] + ConsumingSteps(|poll.messages|),
          w.(folders := w.folders[poll.folder :=
              PolledFolder(w.folders[poll.folder], poll.validity, poll.highest, poll.messages)],
             used := Recorded(w.used, poll.day, poll.messages), poll := Idle))
  {
    var poll, first := w.poll, Apply(w, limits, Count);
    var f := Positioned(w.folders[poll.folder], poll.validity, poll.highest);
    assert Apply(first, limits, Position) == AtWork(first, f, poll.validity, poll.messages);
    assert AtRest(first, PolledFolder(w.folders[poll.folder], poll.validity, poll.highest, poll.messages)) ==
      w.(folders := w.folders[poll.folder :=
          PolledFolder(w.folders[poll.folder], poll.validity, poll.highest, poll.messages)],
         used := Recorded(w.used, poll.day, poll.messages), poll := Idle);
    ConsumingRuns(first, limits, f, poll.validity, poll.messages);
    TwoSteps(w, limits, Count, Position, ConsumingSteps(|poll.messages|),
             AtRest(first, PolledFolder(w.folders[poll.folder], poll.validity, poll.highest, poll.messages)));
  }
}
