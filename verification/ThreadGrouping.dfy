/** Thread assignment of `app/rag_history.py`: messages are united by shared source,
    by Message-ID references, and by customer, subject and closeness in time. */
module ThreadGrouping {
  import opened Options
  import opened Connectivity
  import opened DisjointSets
  import opened HistoricalEmails
  import opened Sorting
  import opened Times

  const FALLBACK_WINDOW: nat := 120 * DAY

  type Group = (string, string)

  // ----- The links the threads are the closure of -----

  function ReferencedIds(record: HistoricalEmail): seq<string> {
    (if record.inReplyTo.Some? then [record.inReplyTo.value] else []) + record.references
  }

  /** `j` is the first message that carries the Message-ID `id`. */
  ghost predicate IsFirstWithId(records: seq<HistoricalEmail>, id: string, j: nat) {
    && id != "" && j < |records| && records[j].messageId == Some(id)
    && forall k :: 0 <= k < j ==> records[k].messageId != Some(id)
  }

  ghost predicate SameSource(records: seq<HistoricalEmail>, i: nat, j: nat)
    requires i < |records| && j < |records|
  {
    records[i].sourceThreadHint == records[j].sourceThreadHint
  }

  ghost predicate Refers(records: seq<HistoricalEmail>, i: nat, j: nat)
    requires i < |records| && j < |records|
  {
    exists id ::
      (records[i].inReplyTo == Some(id) || id in records[i].references) && IsFirstWithId(records, id, j)
  }

  predicate HasGroup(record: HistoricalEmail) {
    Truthy(record.customerKey) && record.normalizedSubject != ""
  }

  function GroupOf(record: HistoricalEmail): Group
    requires HasGroup(record)
  {
    (record.customerKey.value, record.normalizedSubject)
  }

  predicate CloseInTime(earlier: HistoricalEmail, later: HistoricalEmail) {
    earlier.occurredAt.Some? && later.occurredAt.Some?
    && later.occurredAt.value - earlier.occurredAt.value <= FALLBACK_WINDOW
  }

  /** Any two messages of one known customer and subject, dated at most 120 days of 86400 seconds apart,
      neighbours or not. */
  ghost predicate Fallback(records: seq<HistoricalEmail>, i: nat, j: nat)
    requires i < |records| && j < |records|
  {
    && records[i].customerKey == records[j].customerKey
    && records[i].customerKey != None && records[i].customerKey != Some("")
    && records[i].normalizedSubject == records[j].normalizedSubject != ""
    && records[i].occurredAt.Some? && records[j].occurredAt.Some?
    && -10368000 <= records[j].occurredAt.value - records[i].occurredAt.value <= 10368000
  }

  ghost predicate DirectlyLinked(records: seq<HistoricalEmail>, i: nat, j: nat)
    requires i < |records| && j < |records|
  {
    SameSource(records, i, j) || Refers(records, i, j) || Fallback(records, i, j)
  }

  ghost function DirectLinks(records: seq<HistoricalEmail>): set<Link> {
    set i: nat, j: nat | i < |records| && j < |records| && DirectlyLinked(records, i, j) :: (i, j)
  }

  lemma DirectLinkIn(records: seq<HistoricalEmail>, i: nat, j: nat)
    requires i < |records| && j < |records| && DirectlyLinked(records, i, j)
    ensures (i, j) in DirectLinks(records)
  {
  }

  // ----- What each pass has united so far -----

  ghost predicate SourcesUnited(records: seq<HistoricalEmail>, links: set<Link>, hints: map<string, nat>, n: nat)
    requires n <= |records|
  {
    && (forall h :: h in hints ==> hints[h] < n && records[hints[h]].sourceThreadHint == h)
    && (forall j :: 0 <= j < n ==> records[j].sourceThreadHint in hints)
    && (forall j :: 0 <= j < n ==>
          var first := hints[records[j].sourceThreadHint]; first == j || (j, first) in links)
  }

  ghost predicate IdsIndexed(records: seq<HistoricalEmail>, ids: map<string, nat>, n: nat)
    requires n <= |records|
  {
    && (forall id :: id in ids ==> ids[id] < n && IsFirstWithId(records, id, ids[id]))
    && (forall j :: 0 <= j < n && Truthy(records[j].messageId) ==> records[j].messageId.value in ids)
  }

  ghost predicate ReferencesUnited(records: seq<HistoricalEmail>, links: set<Link>, ids: map<string, nat>, i: nat,
      count: nat)
    requires i < |records| && count <= |ReferencedIds(records[i])|
  {
    forall r :: 0 <= r < count ==>
      var id := ReferencedIds(records[i])[r]; id != "" && id in ids ==> (i, ids[id]) in links
  }

  function IndexKey(records: seq<HistoricalEmail>, i: nat): int {
    if i < |records| then TimeKey(records[i]) else -1
  }

  function EarlierIn(records: seq<HistoricalEmail>): (nat, nat) -> bool {
    (a: nat, b: nat) => IndexKey(records, a) <= IndexKey(records, b)
  }

  ghost predicate OfGroup(records: seq<HistoricalEmail>, members: seq<nat>, group: Group, n: nat)
    requires n <= |records|
  {
    forall k :: 0 <= k < |members| ==>
      members[k] < n && HasGroup(records[members[k]]) && GroupOf(records[members[k]]) == group
  }

  ghost predicate Grouped(records: seq<HistoricalEmail>, groups: map<Group, seq<nat>>, keys: seq<Group>, n: nat)
    requires n <= |records|
  {
    && (forall g :: g in groups <==> g in keys)
    && (forall g :: g in groups ==> OfGroup(records, groups[g], g, n))
    && (forall i :: 0 <= i < n && HasGroup(records[i]) ==>
          GroupOf(records[i]) in groups && i in groups[GroupOf(records[i])])
  }

  ghost predicate InRange(records: seq<HistoricalEmail>, indexes: seq<nat>) {
    forall k :: 0 <= k < |indexes| ==> indexes[k] < |records|
  }

  /** Neighbours of a time-sorted group are united when they are close. */
  ghost predicate NeighboursUnited(records: seq<HistoricalEmail>, links: set<Link>, sorted: seq<nat>, count: int)
    requires count <= |sorted| && InRange(records, sorted)
  {
    forall k :: 0 < k < count && CloseInTime(records[sorted[k - 1]], records[sorted[k]]) ==>
      (sorted[k - 1], sorted[k]) in links
  }

  ghost predicate GroupUnited(records: seq<HistoricalEmail>, links: set<Link>, members: seq<nat>)
  {
    exists sorted :: NeighbourChain(records, links, members, sorted)
  }

  ghost predicate NeighbourChain(records: seq<HistoricalEmail>, links: set<Link>, members: seq<nat>, sorted: seq<nat>)
  {
    && InRange(records, sorted)
    && (forall x :: x in members ==> x in sorted)
    && (forall p, q :: 0 <= p < q < |sorted| ==> TimeKey(records[sorted[p]]) <= TimeKey(records[sorted[q]]))
    && NeighboursUnited(records, links, sorted, |sorted|)
  }

  // ----- Neighbours suffice -----

  /** In a time-sorted group, uniting close neighbours connects every close pair. */
  lemma {:induction false} NeighboursConnect(records: seq<HistoricalEmail>, links: set<Link>, sorted: seq<nat>,
      p: nat, q: nat)
    requires InRange(records, sorted)
    requires forall a, b :: 0 <= a < b < |sorted| ==> TimeKey(records[sorted[a]]) <= TimeKey(records[sorted[b]])
    requires NeighboursUnited(records, links, sorted, |sorted|)
    requires p <= q < |sorted| && CloseInTime(records[sorted[p]], records[sorted[q]])
    ensures Connected(links, sorted[p], sorted[q])
    decreases q - p
  {
    if p == q {
      ConnectedReflexive(links, sorted[p]);
    } else {
      assert TimeKey(records[sorted[p]]) <= TimeKey(records[sorted[q - 1]]) by {
        if p < q - 1 { assert 0 <= p < q - 1 < |sorted|; }
      }
      NeighboursConnect(records, links, sorted, p, q - 1);
      assert CloseInTime(records[sorted[q - 1]], records[sorted[q]]);
      ConnectedByLink(links, sorted[q - 1], sorted[q]);
      ConnectedTransitive(links, sorted[p], sorted[q - 1], sorted[q]);
    }
  }

  lemma FallbackConnected(records: seq<HistoricalEmail>, links: set<Link>, members: seq<nat>, i: nat, j: nat)
    requires i < |records| && j < |records| && Fallback(records, i, j)
    requires i in members && j in members && GroupUnited(records, links, members)
    ensures Connected(links, i, j)
  {
    var sorted :| NeighbourChain(records, links, members, sorted);
    assert i in sorted && j in sorted;
    var p :| 0 <= p < |sorted| && sorted[p] == i;
    var q :| 0 <= q < |sorted| && sorted[q] == j;
    if p <= q {
      NeighboursConnect(records, links, sorted, p, q);
    } else {
      NeighboursConnect(records, links, sorted, q, p);
      ConnectedSymmetric(links, j, i);
    }
  }

  ghost predicate AllPassesDone(records: seq<HistoricalEmail>, links: set<Link>, hints: map<string, nat>,
      ids: map<string, nat>, groups: map<Group, seq<nat>>, keys: seq<Group>) {
    && SourcesUnited(records, links, hints, |records|)
    && IdsIndexed(records, ids, |records|)
    && (forall i :: 0 <= i < |records| ==> ReferencesUnited(records, links, ids, i, |ReferencedIds(records[i])|))
    && Grouped(records, groups, keys, |records|)
    && (forall g :: g in groups ==> GroupUnited(records, links, groups[g]))
  }

  lemma ReferenceConnected(records: seq<HistoricalEmail>, links: set<Link>, hints: map<string, nat>,
      ids: map<string, nat>, groups: map<Group, seq<nat>>, keys: seq<Group>, i: nat, j: nat)
    requires AllPassesDone(records, links, hints, ids, groups, keys)
    requires i < |records| && j < |records| && Refers(records, i, j)
    ensures Connected(links, i, j)
  {
    hide Connected;
    var id :| id in ReferencedIds(records[i]) && IsFirstWithId(records, id, j);
    var r :| 0 <= r < |ReferencedIds(records[i])| && ReferencedIds(records[i])[r] == id;
    assert Truthy(records[j].messageId) && records[j].messageId.value == id;
    assert id in ids && IsFirstWithId(records, id, ids[id]);
    assert ids[id] == j;
    assert ReferencesUnited(records, links, ids, i, |ReferencedIds(records[i])|);
    ConnectedByLink(links, i, j);
  }

  lemma PassesRealiseLinks(records: seq<HistoricalEmail>, links: set<Link>, hints: map<string, nat>,
      ids: map<string, nat>, groups: map<Group, seq<nat>>, keys: seq<Group>)
    requires AllPassesDone(records, links, hints, ids, groups, keys)
    ensures Realises(links, DirectLinks(records))
  {
    forall l | l in DirectLinks(records)
      ensures Connected(links, l.0, l.1)
    {
      var (i, j) := l;
      if SameSource(records, i, j) {
        SourceConnected(records, links, hints, i);
        SourceConnected(records, links, hints, j);
        var first := hints[records[i].sourceThreadHint];
        ConnectedSymmetric(links, j, first);
        ConnectedTransitive(links, i, first, j);
      } else if Refers(records, i, j) {
        ReferenceConnected(records, links, hints, ids, groups, keys, i, j);
      } else {
        assert Fallback(records, i, j);
        FallbackConnected(records, links, groups[GroupOf(records[i])], i, j);
      }
    }
  }

  lemma SourceConnected(records: seq<HistoricalEmail>, links: set<Link>, hints: map<string, nat>, i: nat)
    requires SourcesUnited(records, links, hints, |records|) && i < |records|
    ensures Connected(links, i, hints[records[i].sourceThreadHint])
  {
    var first := hints[records[i].sourceThreadHint];
    if first == i { ConnectedReflexive(links, i); } else { ConnectedByLink(links, i, first); }
  }

  lemma PassesAreClosure(records: seq<HistoricalEmail>, links: set<Link>, hints: map<string, nat>,
      ids: map<string, nat>, groups: map<Group, seq<nat>>, keys: seq<Group>)
    requires AllPassesDone(records, links, hints, ids, groups, keys) && links <= DirectLinks(records)
    ensures forall a: nat, b: nat :: Connected(links, a, b) <==> Connected(DirectLinks(records), a, b)
  {
    PassesRealiseLinks(records, links, hints, ids, groups, keys);
    forall l | l in links ensures Connected(DirectLinks(records), l.0, l.1) {
      ConnectedByLink(DirectLinks(records), l.0, l.1);
    }
    ClosuresAgree(links, DirectLinks(records));
  }

  // ----- The passes of the source -----

  /** Unites messages exactly as the closure of the direct links demands. */
  method UniteThreads(records: seq<HistoricalEmail>) returns (disjoint: DisjointSet)
    ensures fresh(disjoint) && fresh(disjoint.parent) && fresh(disjoint.rank)
    ensures disjoint.Valid() && |disjoint.root| == |records|
    ensures forall i: nat, j: nat :: i < |records| && j < |records| ==>
      (disjoint.root[i] == disjoint.root[j] <==> Connected(DirectLinks(records), i, j))
  {
    hide IsForest, Heavy;
    disjoint := new DisjointSet(|records|);
    var messageIndexes, sourceHintIndexes := UniteSources(records, disjoint);
    UniteReferences(records, disjoint, messageIndexes);
    var groups, keys := FallbackGroups(records);
    UniteNeighbours(records, disjoint, groups, keys);
    PassesAreClosure(records, disjoint.links, sourceHintIndexes, messageIndexes, groups, keys);
  }

  lemma PassesStart(records: seq<HistoricalEmail>, links: set<Link>)
    ensures SourcesUnited(records, links, map[], 0) && IdsIndexed(records, map[], 0)
  {
  }

  lemma IdsIndexedStep(records: seq<HistoricalEmail>, ids: map<string, nat>, n: nat)
    requires n < |records| && IdsIndexed(records, ids, n)
    ensures IdsIndexed(records,
      if Truthy(records[n].messageId) && records[n].messageId.value !in ids
      then ids[records[n].messageId.value := n] else ids, n + 1)
  {
    if Truthy(records[n].messageId) && records[n].messageId.value !in ids {
      var id := records[n].messageId.value;
      forall k | 0 <= k < n ensures records[k].messageId != Some(id) {
        assert Truthy(records[k].messageId) ==> records[k].messageId.value in ids;
      }
    }
  }

  lemma SourcesUnitedStep(records: seq<HistoricalEmail>, links: set<Link>, hints: map<string, nat>, n: nat)
    requires n < |records| && SourcesUnited(records, links, hints, n)
    ensures var hint := records[n].sourceThreadHint;
      if hint in hints then
        && hints[hint] < n && DirectlyLinked(records, n, hints[hint])
        && SourcesUnited(records, links + {(n, hints[hint])}, hints, n + 1)
      else SourcesUnited(records, links, hints[hint := n], n + 1)
  {
    var hint := records[n].sourceThreadHint;
    if hint in hints {
      assert SameSource(records, n, hints[hint]);
    }
  }

  method UniteSources(records: seq<HistoricalEmail>, disjoint: DisjointSet)
      returns (messageIndexes: map<string, nat>, sourceHintIndexes: map<string, nat>)
    requires disjoint.Valid() && |disjoint.root| == |records|
    requires disjoint.links <= DirectLinks(records)
    modifies disjoint, disjoint.parent, disjoint.rank
    ensures disjoint.Valid() && |disjoint.root| == |records|
    ensures disjoint.links <= DirectLinks(records)
    ensures SourcesUnited(records, disjoint.links, sourceHintIndexes, |records|)
    ensures IdsIndexed(records, messageIndexes, |records|)
  {
    hide IsForest, Heavy, Represents, SourcesUnited, IdsIndexed, DirectlyLinked;
    messageIndexes, sourceHintIndexes := map[], map[];
    PassesStart(records, disjoint.links);
    for index := 0 to |records|
      invariant disjoint.Valid() && |disjoint.root| == |records|
      invariant disjoint.links <= DirectLinks(records)
      invariant SourcesUnited(records, disjoint.links, sourceHintIndexes, index)
      invariant IdsIndexed(records, messageIndexes, index)
    {
      var record := records[index];
      IdsIndexedStep(records, messageIndexes, index);
      SourcesUnitedStep(records, disjoint.links, sourceHintIndexes, index);
      if Truthy(record.messageId) && record.messageId.value !in messageIndexes {
        messageIndexes := messageIndexes[record.messageId.value := index];
      }
      if record.sourceThreadHint in sourceHintIndexes {
        DirectLinkIn(records, index, sourceHintIndexes[record.sourceThreadHint]);
        disjoint.Union(index, sourceHintIndexes[record.sourceThreadHint]);
      } else {
        sourceHintIndexes := sourceHintIndexes[record.sourceThreadHint := index];
      }
    }
  }

  /** A link from a message to the first holder of an id it names. */
  ghost predicate ReferenceLink(records: seq<HistoricalEmail>, ids: map<string, nat>, link: Link) {
    && link.0 < |records|
    && exists id ::
      (records[link.0].inReplyTo == Some(id) || id in records[link.0].references)
      && id != "" && id in ids && link.1 == ids[id]
  }

  method UniteReferences(records: seq<HistoricalEmail>, disjoint: DisjointSet, messageIndexes: map<string, nat>)
    requires disjoint.Valid() && |disjoint.root| == |records|
    requires disjoint.links <= DirectLinks(records)
    requires IdsIndexed(records, messageIndexes, |records|)
    modifies disjoint, disjoint.parent, disjoint.rank
    ensures disjoint.Valid() && |disjoint.root| == |records|
    ensures old(disjoint.links) <= disjoint.links <= DirectLinks(records)
    ensures forall l :: l in disjoint.links ==> l in old(disjoint.links) || ReferenceLink(records, messageIndexes, l)
    ensures forall i :: 0 <= i < |records| ==>
      ReferencesUnited(records, disjoint.links, messageIndexes, i, |ReferencedIds(records[i])|)
  {
    hide IsForest, Heavy, Represents, IdsIndexed, ReferencedIds;
    for index := 0 to |records|
      invariant disjoint.Valid() && |disjoint.root| == |records|
      invariant old(disjoint.links) <= disjoint.links <= DirectLinks(records)
      invariant forall l :: l in disjoint.links ==>
        l in old(disjoint.links) || ReferenceLink(records, messageIndexes, l)
      invariant forall i :: 0 <= i < index ==>
        ReferencesUnited(records, disjoint.links, messageIndexes, i, |ReferencedIds(records[i])|)
    {
      UniteRecordReferences(records, disjoint, messageIndexes, index);
    }
  }

  method UniteRecordReferences(records: seq<HistoricalEmail>, disjoint: DisjointSet,
      messageIndexes: map<string, nat>, index: nat)
    requires disjoint.Valid() && |disjoint.root| == |records| && index < |records|
    requires disjoint.links <= DirectLinks(records)
    requires IdsIndexed(records, messageIndexes, |records|)
    modifies disjoint, disjoint.parent, disjoint.rank
    ensures disjoint.Valid() && |disjoint.root| == |records|
    ensures old(disjoint.links) <= disjoint.links <= DirectLinks(records)
    ensures forall l :: l in disjoint.links ==> l in old(disjoint.links) || ReferenceLink(records, messageIndexes, l)
    ensures ReferencesUnited(records, disjoint.links, messageIndexes, index, |ReferencedIds(records[index])|)
  {
    hide IsForest, Heavy, Represents;
    var references := ReferencedIds(records[index]);
    for r := 0 to |references|
      invariant disjoint.Valid() && |disjoint.root| == |records|
      invariant old(disjoint.links) <= disjoint.links <= DirectLinks(records)
      invariant forall l :: l in disjoint.links ==>
        l in old(disjoint.links) || ReferenceLink(records, messageIndexes, l)
      invariant ReferencesUnited(records, disjoint.links, messageIndexes, index, r)
    {
      if references[r] != "" && references[r] in messageIndexes {
        assert references[r] in ReferencedIds(records[index]);
        DirectLinkIn(records, index, messageIndexes[references[r]]);
        disjoint.Union(index, messageIndexes[references[r]]);
      }
    }
  }

  method FallbackGroups(records: seq<HistoricalEmail>) returns (groups: map<Group, seq<nat>>, keys: seq<Group>)
    ensures Grouped(records, groups, keys, |records|)
  {
    groups, keys := map[], [];
    for index := 0 to |records|
      invariant Grouped(records, groups, keys, index)
    {
      if HasGroup(records[index]) {
        var group := GroupOf(records[index]);
        if group in groups {
          groups := groups[group := groups[group] + [index]];
        } else {
          groups, keys := groups[group := [index]], keys + [group];
        }
      }
    }
  }

  method UniteNeighbours(records: seq<HistoricalEmail>, disjoint: DisjointSet,
      groups: map<Group, seq<nat>>, keys: seq<Group>)
    requires disjoint.Valid() && |disjoint.root| == |records|
    requires disjoint.links <= DirectLinks(records)
    requires Grouped(records, groups, keys, |records|)
    modifies disjoint, disjoint.parent, disjoint.rank
    ensures disjoint.Valid() && |disjoint.root| == |records|
    ensures old(disjoint.links) <= disjoint.links <= DirectLinks(records)
    ensures forall g :: g in groups ==> GroupUnited(records, disjoint.links, groups[g])
  {
    hide IsForest, Heavy, Represents;
    assert forall h :: 0 <= h < |keys| ==> keys[h] in groups;
    ghost var before := disjoint.links;
    for g := 0 to |keys|
      invariant disjoint.Valid() && |disjoint.root| == |records|
      invariant before <= disjoint.links <= DirectLinks(records)
      invariant forall h :: 0 <= h < g ==> GroupUnited(records, disjoint.links, groups[keys[h]])
    {
      ghost var united := disjoint.links;
      var indexes := UniteGroup(records, disjoint, groups[keys[g]], keys[g]);
      forall h | 0 <= h < g
        ensures GroupUnited(records, disjoint.links, groups[keys[h]])
      {
        assert GroupUnited(records, united, groups[keys[h]]);
        var sorted :| NeighbourChain(records, united, groups[keys[h]], sorted);
        assert NeighbourChain(records, disjoint.links, groups[keys[h]], sorted);
      }
    }
    forall g | g in groups
      ensures GroupUnited(records, disjoint.links, groups[g])
    {
      var h :| 0 <= h < |keys| && keys[h] == g;
    }
  }

  lemma FallbackIsDirect(records: seq<HistoricalEmail>, i: nat, j: nat)
    requires i < |records| && j < |records| && Fallback(records, i, j)
    ensures DirectlyLinked(records, i, j)
  {
  }

  function InTimeOrder(records: seq<HistoricalEmail>, members: seq<nat>): seq<nat> {
    Sort(members, EarlierIn(records))
  }

  lemma TimeOrderKeepsGroup(records: seq<HistoricalEmail>, members: seq<nat>, group: Group)
    requires OfGroup(records, members, group, |records|)
    ensures var sorted := InTimeOrder(records, members);
      && OfGroup(records, sorted, group, |records|) && (forall x :: x in members ==> x in sorted)
      && forall p, q :: 0 <= p < q < |sorted| ==> TimeKey(records[sorted[p]]) <= TimeKey(records[sorted[q]])
  {
    var sorted := InTimeOrder(records, members);
    SortKeepsMembers(members, EarlierIn(records));
    assert forall k :: 0 <= k < |sorted| ==> sorted[k] in members;
    assert forall p, q :: 0 <= p < q < |sorted| ==> EarlierIn(records)(sorted[p], sorted[q]);
  }

  method UniteGroup(records: seq<HistoricalEmail>, disjoint: DisjointSet, members: seq<nat>, group: Group)
      returns (indexes: seq<nat>)
    requires disjoint.Valid() && |disjoint.root| == |records|
    requires disjoint.links <= DirectLinks(records)
    requires OfGroup(records, members, group, |records|)
    modifies disjoint, disjoint.parent, disjoint.rank
    ensures disjoint.Valid() && |disjoint.root| == |records|
    ensures old(disjoint.links) <= disjoint.links <= DirectLinks(records)
    ensures NeighbourChain(records, disjoint.links, members, indexes)
  {
    hide IsForest, Heavy, Represents, DirectLinks, DirectlyLinked, InTimeOrder;
    indexes := InTimeOrder(records, members);
    TimeOrderKeepsGroup(records, members, group);
    var k := 1;
    while k < |indexes|
      invariant disjoint.Valid() && |disjoint.root| == |records|
      invariant old(disjoint.links) <= disjoint.links <= DirectLinks(records)
      invariant NeighboursUnited(records, disjoint.links, indexes, if k <= |indexes| then k else |indexes|)
    {
      var previous, current := indexes[k - 1], indexes[k];
      if CloseInTime(records[previous], records[current]) {
        UniteFallback(records, disjoint, previous, current);
      }
      k := k + 1;
    }
  }

  method UniteFallback(records: seq<HistoricalEmail>, disjoint: DisjointSet, previous: nat, current: nat)
    requires disjoint.Valid() && |disjoint.root| == |records|
    requires previous < |records| && current < |records| && Fallback(records, previous, current)
    requires disjoint.links <= DirectLinks(records)
    modifies disjoint, disjoint.parent, disjoint.rank
    ensures disjoint.Valid() && |disjoint.root| == |records|
    ensures disjoint.links == old(disjoint.links) + {(previous, current)} && disjoint.links <= DirectLinks(records)
  {
    hide IsForest, Heavy, Represents, DirectLinks, DirectlyLinked;
    FallbackIsDirect(records, previous, current);
    DirectLinkIn(records, previous, current);
    disjoint.Union(previous, current);
  }

  // ----- Thread ids -----

  /** What a message contributes to the stable name of its thread. */
  function StablePart(record: HistoricalEmail, fallbackPart: HistoricalEmail -> string): string {
    if Truthy(record.messageId) then record.messageId.value else fallbackPart(record)
  }

  ghost function ThreadOf(records: seq<HistoricalEmail>, i: nat): set<nat> {
    set j: nat | j < |records| && Connected(DirectLinks(records), i, j)
  }

  ghost function ThreadParts(records: seq<HistoricalEmail>, fallbackPart: HistoricalEmail -> string,
      i: nat): set<string> {
    set j | j in ThreadOf(records, i) && j < |records| :: StablePart(records[j], fallbackPart)
  }

  ghost predicate Bucketed(root: seq<nat>, buckets: map<nat, seq<nat>>, order: seq<nat>, n: nat)
    requires n <= |root|
  {
    && (forall r :: r in buckets <==> r in order)
    && (forall r :: r in buckets ==> forall k :: 0 <= k < |buckets[r]| ==>
      buckets[r][k] < n && root[buckets[r][k]] == r)
    && (forall r :: r in buckets ==> |buckets[r]| > 0)
    && (forall i: nat :: i < n ==> root[i] in buckets && i in buckets[root[i]])
  }

  method BucketByRoot(disjoint: DisjointSet) returns (buckets: map<nat, seq<nat>>, order: seq<nat>)
    requires disjoint.Valid()
    modifies disjoint.parent
    ensures disjoint.Valid() && Bucketed(disjoint.root, buckets, order, |disjoint.root|)
  {
    hide IsForest, Heavy, Represents;
    buckets, order := map[], [];
    for index := 0 to disjoint.parent.Length
      invariant disjoint.Valid()
      invariant Bucketed(disjoint.root, buckets, order, index)
    {
      var r := disjoint.Find(index);
      if r in buckets {
        buckets := buckets[r := buckets[r] + [index]];
      } else {
        buckets, order := buckets[r := [index]], order + [r];
      }
    }
  }

  /** `threadName` stands for the hash of the sorted parts, which the set of parts determines. */
  method AssignThreadIds(records: seq<HistoricalEmail>, threadName: set<string> -> string,
      fallbackPart: HistoricalEmail -> string) returns (result: map<nat, string>)
    ensures forall i: nat :: i in result <==> i < |records|
    ensures forall i: nat :: i < |records| ==> result[i] == threadName(ThreadParts(records, fallbackPart, i))
  {
    hide IsForest, Heavy, Represents, DirectLinks, Connected;
    var disjoint := UniteThreads(records);
    var buckets, order := BucketByRoot(disjoint);
    result := NameBuckets(records, disjoint.root, buckets, order, threadName, fallbackPart);
  }

  method NameBuckets(records: seq<HistoricalEmail>, ghost root: seq<nat>, buckets: map<nat, seq<nat>>, order: seq<nat>,
      threadName: set<string> -> string, fallbackPart: HistoricalEmail -> string) returns (result: map<nat, string>)
    requires |root| == |records| && Bucketed(root, buckets, order, |records|)
    requires forall i: nat, j: nat :: i < |records| && j < |records| ==>
      (root[i] == root[j] <==> Connected(DirectLinks(records), i, j))
    ensures forall i: nat :: i in result <==> i < |records|
    ensures forall i: nat :: i < |records| ==> result[i] == threadName(ThreadParts(records, fallbackPart, i))
  {
    hide DirectLinks, Connected;
    result := map[];
    for b := 0 to |order|
      invariant forall i: nat :: i in result ==> i < |records|
      invariant forall i: nat :: i < |records| && root[i] in order[..b] ==> i in result
      invariant forall i: nat :: i in result ==> result[i] == threadName(ThreadParts(records, fallbackPart, i))
    {
      var indexes := buckets[order[b]];
      var parts := set k | 0 <= k < |indexes| :: StablePart(records[indexes[k]], fallbackPart);
      forall i | i in indexes
        ensures ThreadParts(records, fallbackPart, i) == parts
      {
        BucketIsThread(records, root, indexes, order[b], fallbackPart, i);
      }
      result := result + map k | k in indexes :: threadName(parts);
    }
    assert order[..|order|] == order;
  }

  lemma BucketIsThread(records: seq<HistoricalEmail>, root: seq<nat>, indexes: seq<nat>, r: nat,
      fallbackPart: HistoricalEmail -> string, i: nat)
    requires |root| == |records|
    requires forall i: nat, j: nat :: i < |records| && j < |records| ==>
      (root[i] == root[j] <==> Connected(DirectLinks(records), i, j))
    requires forall k :: 0 <= k < |indexes| ==> indexes[k] < |records| && root[indexes[k]] == r
    requires forall j: nat :: j < |records| && root[j] == r ==> j in indexes
    requires i in indexes
    ensures ThreadParts(records, fallbackPart, i)
      == set k | 0 <= k < |indexes| :: StablePart(records[indexes[k]], fallbackPart)
  {
    hide DirectLinks, Connected;
    forall j: nat
      ensures j in ThreadOf(records, i) <==> j in indexes
    {
    }
  }

  /** Linked messages always get the same thread name. */
  lemma LinkedShareName(records: seq<HistoricalEmail>, fallbackPart: HistoricalEmail -> string, i: nat, j: nat)
    requires i < |records| && j < |records| && Connected(DirectLinks(records), i, j)
    ensures ThreadParts(records, fallbackPart, i) == ThreadParts(records, fallbackPart, j)
  {
    ConnectedSymmetric(DirectLinks(records), i, j);
    forall k: nat | k < |records|
      ensures k in ThreadOf(records, i) <==> k in ThreadOf(records, j)
    {
      if Connected(DirectLinks(records), i, k) { ConnectedTransitive(DirectLinks(records), j, i, k); }
      if Connected(DirectLinks(records), j, k) { ConnectedTransitive(DirectLinks(records), i, j, k); }
    }
    assert ThreadOf(records, i) == ThreadOf(records, j);
  }

  /** No stable part occurs in two threads. */
  ghost predicate OneThreadAPart(records: seq<HistoricalEmail>, fallbackPart: HistoricalEmail -> string) {
    forall a: nat, b: nat :: SamePart(records, fallbackPart, a, b) ==> Connected(DirectLinks(records), a, b)
  }

  ghost predicate SamePart(records: seq<HistoricalEmail>, fallbackPart: HistoricalEmail -> string, a: nat, b: nat) {
    && a < |records| && b < |records|
    && StablePart(records[a], fallbackPart) == StablePart(records[b], fallbackPart)
  }

  /** When no stable part occurs in two threads, the parts of two threads coincide only if the threads do. */
  lemma DistinctPartsSeparateThreads(records: seq<HistoricalEmail>, fallbackPart: HistoricalEmail -> string, i: nat,
      j: nat)
    requires i < |records| && j < |records|
    requires OneThreadAPart(records, fallbackPart)
    ensures ThreadParts(records, fallbackPart, i) == ThreadParts(records, fallbackPart, j)
      <==> Connected(DirectLinks(records), i, j)
  {
    if Connected(DirectLinks(records), i, j) {
      LinkedShareName(records, fallbackPart, i, j);
    }
    if ThreadParts(records, fallbackPart, i) == ThreadParts(records, fallbackPart, j) {
      ConnectedReflexive(DirectLinks(records), i);
      assert i in ThreadOf(records, i);
      assert StablePart(records[i], fallbackPart) in ThreadParts(records, fallbackPart, j);
      var k :| k in ThreadOf(records, j) && k < |records|
        && StablePart(records[k], fallbackPart) == StablePart(records[i], fallbackPart);
      assert SamePart(records, fallbackPart, i, k);
      ConnectedSymmetric(DirectLinks(records), j, k);
      ConnectedTransitive(DirectLinks(records), i, k, j);
    }
  }

  /** Some message of `j`'s thread has the stable part of `k`. */
  ghost predicate PartOccurs(records: seq<HistoricalEmail>, fallbackPart: HistoricalEmail -> string, k: nat, j: nat) {
    exists l :: l in ThreadOf(records, j) && SamePart(records, fallbackPart, k, l)
  }

  /** The parts of two threads, linked or not, coincide exactly when every part of either occurs in the other. */
  lemma EqualPartsExactly(records: seq<HistoricalEmail>, fallbackPart: HistoricalEmail -> string, i: nat, j: nat)
    requires i < |records| && j < |records|
    ensures ThreadParts(records, fallbackPart, i) == ThreadParts(records, fallbackPart, j) <==>
      (forall k :: k in ThreadOf(records, i) ==> PartOccurs(records, fallbackPart, k, j))
      && (forall l :: l in ThreadOf(records, j) ==> PartOccurs(records, fallbackPart, l, i))
  {
    PartsWithinExactly(records, fallbackPart, i, j);
    PartsWithinExactly(records, fallbackPart, j, i);
    hide ThreadParts, ThreadOf;
  }

  lemma PartsWithinExactly(records: seq<HistoricalEmail>, fallbackPart: HistoricalEmail -> string, i: nat, j: nat)
    requires i < |records| && j < |records|
    ensures ThreadParts(records, fallbackPart, i) <= ThreadParts(records, fallbackPart, j) <==>
      forall k :: k in ThreadOf(records, i) ==> PartOccurs(records, fallbackPart, k, j)
  {
    hide Connected, DirectLinks, StablePart;
    if ThreadParts(records, fallbackPart, i) <= ThreadParts(records, fallbackPart, j) {
      forall k | k in ThreadOf(records, i) ensures PartOccurs(records, fallbackPart, k, j) {
        var part := StablePart(records[k], fallbackPart);
        assert part in ThreadParts(records, fallbackPart, j);
        var l :| l in ThreadOf(records, j) && l < |records| && StablePart(records[l], fallbackPart) == part;
        assert SamePart(records, fallbackPart, k, l);
      }
    }
  }

  /** A duplicated Message-ID gives two unlinked messages one thread name. */
  lemma DuplicateMessageIdMergesNames(first: HistoricalEmail, second: HistoricalEmail,
      fallbackPart: HistoricalEmail -> string)
    requires Truthy(first.messageId) && second.messageId == first.messageId
    requires first.sourceThreadHint != second.sourceThreadHint
    requires ReferencedIds(first) == [] && ReferencedIds(second) == []
    requires first.normalizedSubject == "" && second.normalizedSubject == ""
    ensures !Connected(DirectLinks([first, second]), 0, 1)
    ensures ThreadParts([first, second], fallbackPart, 0) == ThreadParts([first, second], fallbackPart, 1)
  {
    var records := [first, second];
    var links := DirectLinks(records);
    forall l | l in links
      ensures l.0 == l.1
    {
      assert DirectlyLinked(records, l.0, l.1);
    }
    if Connected(links, 0, 1) {
      MarkConstantOnConnected(links, [0, 1], 0, 1);
    }
    forall i: nat | i < 2
      ensures ThreadParts(records, fallbackPart, i) == {first.messageId.value}
    {
      ConnectedReflexive(links, i);
      assert i in ThreadOf(records, i);
    }
  }
}
