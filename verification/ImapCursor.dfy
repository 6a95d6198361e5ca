/** `poll_folder_once` of `app/imap_poller.py` as its separate commits: byte usage, cursor
    position, one ingest and one cursor commit a message. The process may die between any two,
    and the server changes whenever it likes. One poller serves every folder of the mailbox. */
module ImapCursors {
  import opened Options
  import opened ImapFetch

  /** The folder as the server has it: sizes by UID, and a bound above every UID ever given out. */
  datatype Server = Server(validity: nat, mail: map<nat, nat>, next: nat)

  datatype Cursor = Cursor(validity: nat, last: nat, cutoff: nat, complete: bool)

  /** `stored` holds the ingested messages and their history flag, by UIDVALIDITY and UID;
      `cutoffs` remembers the cutoff each UIDVALIDITY was first synchronised with. */
  datatype Folder = Folder(server: Server, cursor: Option<Cursor>, stored: map<(nat, nat), bool>,
      cutoffs: map<nat, nat>)

  // ----- The commits of one poll -----

  function LastUid(cursor: Option<Cursor>): nat {
    if cursor.Some? then cursor.value.last else 0
  }

  function Expected(cursor: Option<Cursor>): Option<nat> {
    if cursor.Some? then Some(cursor.value.validity) else None
  }

  /** A missing cursor and one of another UIDVALIDITY start over below the highest known UID. */
  function Positioned(f: Folder, validity: nat, highest: nat): Folder {
    if f.cursor.Some? && f.cursor.value.validity == validity then f
    else f.(cursor := Some(Cursor(validity, 0, highest, highest == 0)),
            cutoffs := if validity in f.cutoffs then f.cutoffs else f.cutoffs[validity := highest])
  }

  predicate IsHistory(cursor: Cursor, uid: nat) {
    !cursor.complete && uid <= cursor.cutoff
  }

  /** Ingest is idempotent by UID: what is stored keeps its flag. */
  function Ingested(f: Folder, validity: nat, uid: nat): Folder
    requires f.cursor.Some?
  {
    if (validity, uid) in f.stored then f
    else f.(stored := f.stored[(validity, uid) := IsHistory(f.cursor.value, uid)])
  }

  function AdvancedCursor(cursor: Cursor, uid: nat): Cursor {
    var last := if cursor.last >= uid then cursor.last else uid;
    cursor.(last := last, complete := cursor.complete || last >= cursor.cutoff)
  }

  function Advanced(f: Folder, uid: nat): Folder
    requires f.cursor.Some?
  {
    f.(cursor := Some(AdvancedCursor(f.cursor.value, uid)))
  }

  /** The commit that ends a poll. */
  function Finished(f: Folder): Folder {
    if f.cursor.Some? && f.cursor.value.last >= f.cursor.value.cutoff
    then f.(cursor := Some(f.cursor.value.(complete := true))) else f
  }

  // ----- The server -----

  datatype Change =
    | Arrive(uid: nat, size: nat)
    | Expunge(uids: set<nat>)
    | Renumber(validity: nat, mail: map<nat, nat>, next: nat)

  ghost predicate ServerOk(server: Server, largest: nat) {
    forall u :: u in server.mail ==> 0 < u < server.next && server.mail[u] <= largest
  }

  /** UIDs ascend under one UIDVALIDITY, and a new UIDVALIDITY is larger: section 2.3.1.1 of RFC 3501. */
  ghost predicate MayChange(server: Server, change: Change, largest: nat) {
    match change
    case Arrive(uid, size) => uid >= server.next && uid > 0 && size <= largest
    case Expunge(uids) => true
    case Renumber(validity, mail, next) => validity > server.validity && ServerOk(Server(validity, mail, next), largest)
  }

  function Changed(server: Server, change: Change): Server {
    match change
    case Arrive(uid, size) => server.(mail := server.mail[uid := size], next := uid + 1)
    case Expunge(uids) => server.(mail := server.mail - uids)
    case Renumber(validity, mail, next) => Server(validity, mail, next)
  }

  /** A SEARCH reply: ascending (an assumption on section 6.4.4 of RFC 3501), only real messages,
      and every message above the lower bound. */
  ghost predicate SearchReply(server: Server, bound: nat, listed: seq<nat>) {
    && Ascending(listed)
    && (forall u :: u in listed ==> u in server.mail)
    && (forall u :: u in server.mail && u > bound ==> u in listed)
  }

  // ----- The poller -----

  datatype Poll =
    | Idle
    | Started(folder: string, day: nat, used: nat, last: nat, expected: Option<nat>)
    | Searched(folder: string, day: nat, budget: nat, validity: nat, highest: nat, available: seq<Message>)
    | Loaded(folder: string, day: nat, validity: nat, highest: nat, messages: seq<Message>)
    | Counted(folder: string, validity: nat, highest: nat, messages: seq<Message>)
    | Working(folder: string, validity: nat, messages: seq<Message>, ingested: bool)

  datatype World = World(
    day: nat, folders: map<string, Folder>, poll: Poll,
    used: map<nat, nat>, downloaded: map<nat, nat>, unrecorded: map<nat, nat>)

  datatype Limits = Limits(batch: nat, daily: nat, largest: nat)

  datatype Step =
    | NextDay
    | Serve(name: string, change: Change)
    | Start(name: string)
    | Search(listed: seq<nat>)
    | Fetch(count: nat)
    | FetchFails(count: nat)
    | Count
    | Position
    | Ingest
    | Advance
    | Finish
    | Crash

  function On(bytes: map<nat, nat>, day: nat): nat {
    if day in bytes then bytes[day] else 0
  }

  function Plus(bytes: map<nat, nat>, day: nat, more: nat): map<nat, nat> {
    bytes[day := On(bytes, day) + more]
  }

  function Bound(poll: Poll, server: Server): nat
    requires poll.Started?
  {
    SearchAfter(poll.last, poll.expected, server.validity)
  }

  function Bodies(uids: seq<nat>, mail: map<nat, nat>): seq<Message> {
    seq(|uids|, i requires 0 <= i < |uids| => Message(uids[i], if uids[i] in mail then mail[uids[i]] else 0))
  }

  ghost predicate Enabled(w: World, limits: Limits, step: Step) {
    (w.poll.Idle? || w.poll.folder in w.folders)
    && match step
       case NextDay => true
       case Serve(name, change) => name in w.folders && MayChange(w.folders[name].server, change, limits.largest)
       case Start(name) => w.poll.Idle? && name in w.folders && On(w.used, w.day) < limits.daily
       case Search(listed) =>
         && w.poll.Started?
         && SearchReply(w.folders[w.poll.folder].server, Bound(w.poll, w.folders[w.poll.folder].server), listed)
       case Fetch(count) =>
         && w.poll.Searched? && count <= Min(limits.batch, |w.poll.available|)
         && WithinBudget(w.poll.available[..count], w.poll.budget)
       case FetchFails(count) =>
         && w.poll.Searched? && count <= Min(limits.batch, |w.poll.available|)
         && WithinBudget(w.poll.available[..count], w.poll.budget)
       case Count => w.poll.Loaded?
       case Position => w.poll.Counted?
       case Ingest => w.poll.Working? && w.poll.messages != [] && !w.poll.ingested
         && w.folders[w.poll.folder].cursor.Some?
       case Advance => w.poll.Working? && w.poll.messages != [] && w.poll.ingested
         && w.folders[w.poll.folder].cursor.Some?
       case Finish => w.poll.Working? && w.poll.messages == []
       case Crash => !w.poll.Idle?
  }

  function Set(w: World, f: Folder): World
    requires !w.poll.Idle?
  {
    w.(folders := w.folders[w.poll.folder := f])
  }

  ghost function Apply(w: World, limits: Limits, step: Step): World
    requires Enabled(w, limits, step)
  {
    var poll := w.poll;
    match step
    case NextDay => w.(day := w.day + 1)
    case Serve(name, change) =>
      w.(folders := w.folders[name := w.folders[name].(server := Changed(w.folders[name].server, change))])
    case Start(name) =>
      var cursor := w.folders[name].cursor;
      w.(poll := Started(name, w.day, On(w.used, w.day), LastUid(cursor), Expected(cursor)))
    case Search(listed) =>
      var server := w.folders[poll.folder].server;
      var uids := Above(listed, Bound(poll, server));
      w.(poll := Searched(poll.folder, poll.day, if limits.daily >= poll.used then limits.daily - poll.used else 0,
                          server.validity, HighestUid(uids, Bound(poll, server)), Bodies(uids, server.mail)))
    case Fetch(count) =>
      var messages := poll.available[..count];
      w.(poll := Loaded(poll.folder, poll.day, poll.validity, poll.highest, messages),
         downloaded := Plus(w.downloaded, poll.day, Total(messages)))
    case FetchFails(count) =>
      var bytes := Total(poll.available[..count]);
      w.(poll := Idle, downloaded := Plus(w.downloaded, poll.day, bytes),
        unrecorded := Plus(w.unrecorded, poll.day, bytes))
    case Count =>
      w.(poll := Counted(poll.folder, poll.validity, poll.highest, poll.messages),
         used := if Total(poll.messages) == 0 then w.used else Plus(w.used, poll.day, Total(poll.messages)))
    case Position =>
      Set(w, Positioned(w.folders[poll.folder], poll.validity, poll.highest))
        .(poll := Working(poll.folder, poll.validity, poll.messages, false))
    case Ingest =>
      Set(w, Ingested(w.folders[poll.folder], poll.validity, poll.messages[0].uid)).(poll := poll.(ingested := true))
    case Advance =>
      Set(w, Advanced(w.folders[poll.folder], poll.messages[0].uid))
        .(poll := Working(poll.folder, poll.validity, poll.messages[1..], false))
    case Finish => Set(w, Finished(w.folders[poll.folder])).(poll := Idle)
    case Crash =>
      w.(poll := Idle,
         unrecorded := if poll.Loaded? then Plus(w.unrecorded, poll.day, Total(poll.messages)) else w.unrecorded)
  }

  // ----- What every commit keeps -----

  /** Nothing at or below the cursor is missing. */
  ghost predicate Covered(f: Folder) {
    f.cursor.Some? && f.cursor.value.validity == f.server.validity ==>
      forall u :: u in f.server.mail && u <= f.cursor.value.last ==> (f.server.validity, u) in f.stored
  }

  /** A message is history exactly when the first synchronisation of its UIDVALIDITY saw its UID. */
  ghost predicate FlagsFollowCutoffs(f: Folder) {
    forall k :: k in f.stored ==> k.0 in f.cutoffs && (f.stored[k] <==> k.1 <= f.cutoffs[k.0])
  }

  ghost predicate CursorOk(f: Folder) {
    match f.cursor
    case None => f.cutoffs == map[] && f.stored == map[]
    case Some(c) =>
      && c.validity <= f.server.validity
      && (c.complete <==> c.last >= c.cutoff)
      && c.validity in f.cutoffs && f.cutoffs[c.validity] == c.cutoff
      && (forall v :: v in f.cutoffs ==> v <= c.validity)
      && (c.validity == f.server.validity && c.last > 0 ==> c.last < f.server.next)
  }

  ghost predicate FolderOk(f: Folder, largest: nat) {
    ServerOk(f.server, largest) && CursorOk(f) && Covered(f) && FlagsFollowCutoffs(f)
  }

  /** Where the next poll resumes under this UIDVALIDITY. */
  function Base(f: Folder, validity: nat): nat {
    if f.cursor.Some? && f.cursor.value.validity == validity then f.cursor.value.last else 0
  }

  ghost predicate Ordered(messages: seq<Message>, bound: nat, largest: nat) {
    && (forall i :: 0 <= i < |messages| ==> messages[i].uid > bound && messages[i].size <= largest)
    && (forall i, j :: 0 <= i < j < |messages| ==> messages[i].uid < messages[j].uid)
  }

  ghost predicate ComesBy(messages: seq<Message>, j: int, uid: nat) {
    exists i :: 0 <= i <= j < |messages| && messages[i].uid == uid
  }

  /** Every message the server still has between the bound and an entry comes before that entry. */
  ghost predicate Gapless(mail: map<nat, nat>, bound: nat, messages: seq<Message>) {
    forall u, j :: u in mail && 0 <= j < |messages| && bound < u <= messages[j].uid ==>
      ComesBy(messages, j, u)
  }

  ghost predicate BatchOk(f: Folder, validity: nat, messages: seq<Message>, largest: nat) {
    && validity <= f.server.validity
    && (f.cursor.Some? ==> f.cursor.value.validity <= validity)
    && Ordered(messages, Base(f, validity), largest)
    && (validity == f.server.validity ==> Gapless(f.server.mail, Base(f, validity), messages))
    && (validity == f.server.validity ==> forall i :: 0 <= i < |messages| ==> messages[i].uid < f.server.next)
  }

  ghost predicate PollOk(f: Folder, poll: Poll, largest: nat) {
    match poll
    case Idle => true
    case Started(_, _, _, last, expected) => last == LastUid(f.cursor) && expected == Expected(f.cursor)
    case Searched(_, _, _, validity, _, available) => BatchOk(f, validity, available, largest)
    case Loaded(_, _, validity, _, messages) => BatchOk(f, validity, messages, largest)
    case Counted(_, validity, _, messages) => BatchOk(f, validity, messages, largest)
    case Working(_, validity, messages, ingested) =>
      && f.cursor.Some? && f.cursor.value.validity == validity
      && BatchOk(f, validity, messages, largest)
      && (ingested ==> messages != [] && (validity, messages[0].uid) in f.stored)
  }

  // ----- Folder by folder -----

  lemma ServeKeeps(f: Folder, change: Change, poll: Poll, largest: nat)
    requires FolderOk(f, largest) && PollOk(f, poll, largest) && MayChange(f.server, change, largest)
    ensures FolderOk(f.(server := Changed(f.server, change)), largest)
    ensures PollOk(f.(server := Changed(f.server, change)), poll, largest)
  {
    hide ComesBy;
    match change {
      case Arrive(uid, size) =>
      case Expunge(uids) =>
      case Renumber(validity, mail, next) =>
    }
  }

  lemma SearchGivesBatch(f: Folder, listed: seq<nat>, largest: nat)
    requires FolderOk(f, largest)
    requires SearchReply(f.server, SearchAfter(LastUid(f.cursor), Expected(f.cursor), f.server.validity), listed)
    ensures var uids := Above(listed, SearchAfter(LastUid(f.cursor), Expected(f.cursor), f.server.validity));
            BatchOk(f, f.server.validity, Bodies(uids, f.server.mail), largest)
  {
    var bound := SearchAfter(LastUid(f.cursor), Expected(f.cursor), f.server.validity);
    var uids := Above(listed, bound);
    var available := Bodies(uids, f.server.mail);
    AboveIsFilter(listed, bound);
    forall i | 0 <= i < |available|
      ensures available[i].uid > bound && available[i].uid in f.server.mail && available[i].size <= largest
    {
      assert uids[i] in uids;
    }
    forall u, j | u in f.server.mail && 0 <= j < |available| && bound < u <= available[j].uid
      ensures ComesBy(available, j, u)
    {
      assert u in uids;
      var i :| 0 <= i < |uids| && uids[i] == u;
      assert available[i].uid == u;
    }
  }

  lemma PrefixKeeps(f: Folder, validity: nat, available: seq<Message>, count: nat, largest: nat)
    requires BatchOk(f, validity, available, largest) && count <= |available|
    ensures BatchOk(f, validity, available[..count], largest)
  {
    var messages := available[..count];
    if validity == f.server.validity {
      forall u, j | u in f.server.mail && 0 <= j < |messages| && Base(f, validity) < u <= messages[j].uid
        ensures ComesBy(messages, j, u)
      {
        assert ComesBy(available, j, u);
        var i :| 0 <= i <= j && available[i].uid == u;
        assert messages[i].uid == u;
      }
    }
  }

  lemma PositionKeeps(f: Folder, validity: nat, highest: nat, messages: seq<Message>, largest: nat)
    requires FolderOk(f, largest) && BatchOk(f, validity, messages, largest)
    ensures FolderOk(Positioned(f, validity, highest), largest)
    ensures BatchOk(Positioned(f, validity, highest), validity, messages, largest)
  {
  }

  lemma IngestKeeps(f: Folder, validity: nat, messages: seq<Message>, largest: nat)
    requires FolderOk(f, largest) && BatchOk(f, validity, messages, largest) && messages != []
    requires f.cursor.Some? && f.cursor.value.validity == validity
    ensures FolderOk(Ingested(f, validity, messages[0].uid), largest)
    ensures BatchOk(Ingested(f, validity, messages[0].uid), validity, messages, largest)
  {
  }

  lemma AdvanceCovers(f: Folder, messages: seq<Message>, last: nat)
    requires Gapless(f.server.mail, last, messages) && messages != []
    requires forall u :: u in f.server.mail && u <= last ==> (f.server.validity, u) in f.stored
    requires (f.server.validity, messages[0].uid) in f.stored
    ensures forall u :: u in f.server.mail && u <= messages[0].uid ==> (f.server.validity, u) in f.stored
  {
    forall u | u in f.server.mail && u <= messages[0].uid
      ensures (f.server.validity, u) in f.stored
    {
      if u > last {
        assert ComesBy(messages, 0, u);
      }
    }
  }

  lemma RestIsGapless(mail: map<nat, nat>, bound: nat, messages: seq<Message>, largest: nat)
    requires Gapless(mail, bound, messages) && Ordered(messages, bound, largest) && messages != []
    ensures Gapless(mail, messages[0].uid, messages[1..])
  {
    var rest := messages[1..];
    forall u, j | u in mail && 0 <= j < |rest| && messages[0].uid < u <= rest[j].uid
      ensures ComesBy(rest, j, u)
    {
      assert ComesBy(messages, j + 1, u);
      var i :| 0 <= i <= j + 1 && messages[i].uid == u;
      assert rest[i - 1].uid == u;
    }
  }

  lemma AdvanceKeeps(f: Folder, validity: nat, messages: seq<Message>, largest: nat)
    requires FolderOk(f, largest) && BatchOk(f, validity, messages, largest) && messages != []
    requires f.cursor.Some? && f.cursor.value.validity == validity && (validity, messages[0].uid) in f.stored
    ensures FolderOk(Advanced(f, messages[0].uid), largest)
    ensures BatchOk(Advanced(f, messages[0].uid), validity, messages[1..], largest)
  {
    hide Gapless;
    var next := Advanced(f, messages[0].uid);
    assert next.cursor.value.last == messages[0].uid;
    if validity == f.server.validity {
      AdvanceCovers(f, messages, f.cursor.value.last);
      RestIsGapless(f.server.mail, f.cursor.value.last, messages, largest);
    }
  }

  /** The commit after the loop never finds anything to do. */
  lemma FinishChangesNothing(f: Folder, largest: nat)
    requires FolderOk(f, largest)
    ensures Finished(f) == f
  {
    if f.cursor.Some? { assert f.cursor.value.last >= f.cursor.value.cutoff ==> f.cursor.value.complete; }
  }

  /** Ingesting again after a crash would give the stored message the flag it has. */
  lemma FlagIsStable(f: Folder, uid: nat, largest: nat)
    requires FolderOk(f, largest) && f.cursor.Some? && uid > f.cursor.value.last
    requires (f.cursor.value.validity, uid) in f.stored
    ensures f.stored[(f.cursor.value.validity, uid)] == IsHistory(f.cursor.value, uid)
  {
    assert f.stored[(f.cursor.value.validity, uid)] <==> uid <= f.cutoffs[f.cursor.value.validity];
  }
}
