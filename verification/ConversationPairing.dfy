/** `build_conversation_pairs` of `app/rag_history.py`: the greedy pass runs thread by
    thread and body pairs are used once over the whole dataset. */
module ConversationPairing {
  import opened HistoricalEmails
  import opened Options
  import opened Sorting
  import opened ThreadPairing
  import opened DatasetSplits

  /** A consumed request and its response, by index of the record. */
  datatype Outcome = Outcome(threadId: string, request: nat, response: nat, direct: bool, score: int, verdict: Verdict)

  type Naming = (string, string, string, string, string) -> string

  function IndexTime(records: seq<HistoricalEmail>, i: nat): int {
    if i < |records| then TimeKey(records[i]) else -1
  }

  function IndexFile(records: seq<HistoricalEmail>, i: nat): string {
    if i < |records| then records[i].sourceFile else ""
  }

  /** The sort key of a thread: instant, then source file. */
  predicate NotAfter(records: seq<HistoricalEmail>, a: nat, b: nat) {
    IndexTime(records, a) < IndexTime(records, b)
    || (IndexTime(records, a) == IndexTime(records, b) && StringLe(IndexFile(records, a), IndexFile(records, b)))
  }

  function ThreadOrder(records: seq<HistoricalEmail>): (nat, nat) -> bool {
    (a: nat, b: nat) => NotAfter(records, a, b)
  }

  lemma ThreadOrderIsTotal(records: seq<HistoricalEmail>)
    ensures TotalPreorder(ThreadOrder(records))
  {
    forall x: nat, y: nat ensures ThreadOrder(records)(x, y) || ThreadOrder(records)(y, x) {
      StringLeTotal(IndexFile(records, x), IndexFile(records, y));
    }
    forall x: nat, y: nat, z: nat | ThreadOrder(records)(x, y) && ThreadOrder(records)(y, z)
      ensures ThreadOrder(records)(x, z)
    {
      if IndexTime(records, x) == IndexTime(records, y) == IndexTime(records, z) {
        StringLeTransitive(IndexFile(records, x), IndexFile(records, y), IndexFile(records, z));
      }
    }
  }

  /** The first message is the older one; of two at one instant, or of two without any, the source file decides. */
  predicate ComesBefore(a: HistoricalEmail, b: HistoricalEmail) {
    || (a.occurredAt.None? && b.occurredAt.Some?)
    || (a.occurredAt.Some? && b.occurredAt.Some? && a.occurredAt.value < b.occurredAt.value)
    || (a.occurredAt == b.occurredAt && a.sourceFile != b.sourceFile && StringLe(a.sourceFile, b.sourceFile))
  }

  lemma BeforeIsExactly(records: seq<HistoricalEmail>, i: nat, o: nat)
    requires i < |records| && o < |records|
    ensures ComesBefore(records[i], records[o]) <==> !NotAfter(records, o, i)
  {
    var a, b := records[i].sourceFile, records[o].sourceFile;
    StringLeTotal(a, b);
    if StringLe(a, b) && StringLe(b, a) { StringLeAntisymmetric(a, b); }
    hide StringLe;
  }

  // ----- What holds of all outcomes -----

  ghost predicate GoodOutcome(records: seq<HistoricalEmail>, ids: map<nat, string>, o: Outcome, rules: Rules)
    requires forall i: nat :: i < |records| ==> i in ids
  {
    && o.request < |records| && o.response < |records|
    && ids[o.request] == o.threadId == ids[o.response]
    && LiveInbound(records[o.request]) && LiveOutbound(records[o.response])
    && Eligible(records[o.request], records[o.response], rules)
    && (o.direct <==> DirectReply(records[o.request], records[o.response]))
    && o.score == Quality(records[o.request], records[o.response], o.direct)
    && (o.verdict == Paired ==> o.score >= rules.minimumQuality)
    && (o.verdict == LowQuality ==> o.score < rules.minimumQuality)
  }

  /** No request and no response is used twice, over pairs and rejections of all threads. */
  ghost predicate UsedOnce(outcomes: seq<Outcome>) {
    forall j, k :: 0 <= j < k < |outcomes| ==>
      outcomes[j].request != outcomes[k].request && outcomes[j].response != outcomes[k].response
  }

  function OutcomeKey(records: seq<HistoricalEmail>, o: Outcome): BodyKey
    requires o.request < |records| && o.response < |records|
  {
    BodyKeyOf(records[o.request], records[o.response])
  }

  ghost predicate InRange(records: seq<HistoricalEmail>, outcomes: seq<Outcome>) {
    forall k :: 0 <= k < |outcomes| ==> outcomes[k].request < |records| && outcomes[k].response < |records|
  }

  /** Accepted body pairs are distinct over the whole dataset. */
  ghost predicate BodiesDistinct(records: seq<HistoricalEmail>, outcomes: seq<Outcome>, seen: set<BodyKey>)
    requires InRange(records, outcomes)
  {
    && (forall k :: 0 <= k < |outcomes| && outcomes[k].verdict == Paired ==> OutcomeKey(records, outcomes[k]) in seen)
    && (forall key :: key in seen ==> KeyAccepted(records, outcomes, key))
    && (forall k :: 0 <= k < |outcomes| && outcomes[k].verdict == DuplicateBody ==>
      OutcomeKey(records, outcomes[k]) in seen)
    && (forall j, k :: 0 <= j < k < |outcomes| && outcomes[j].verdict == Paired && outcomes[k].verdict == Paired ==>
          OutcomeKey(records, outcomes[j]) != OutcomeKey(records, outcomes[k]))
  }

  ghost predicate KeyAccepted(records: seq<HistoricalEmail>, outcomes: seq<Outcome>, key: BodyKey)
    requires InRange(records, outcomes)
  {
    exists k :: 0 <= k < |outcomes| && outcomes[k].verdict == Paired && OutcomeKey(records, outcomes[k]) == key
  }

  ghost predicate Consumed(outcomes: seq<Outcome>, request: nat) {
    exists k :: 0 <= k < |outcomes| && outcomes[k].request == request
  }

  ghost predicate Replied(outcomes: seq<Outcome>, response: nat) {
    exists k :: 0 <= k < |outcomes| && outcomes[k].response == response
  }

  /** In a finished thread, no unanswered live response has an eligible free request strictly
      before it in the sort order. */
  ghost predicate ThreadExhausted(records: seq<HistoricalEmail>, ids: map<nat, string>, outcomes: seq<Outcome>,
      threadId: string, rules: Rules)
    requires forall i: nat :: i < |records| ==> i in ids
  {
    forall i: nat, o: nat ::
      (i < |records| && o < |records| && ids[i] == threadId && ids[o] == threadId && ComesBefore(records[i], records[o])
       && LiveInbound(records[i]) && !Consumed(outcomes, i) && LiveOutbound(records[o]) && !Replied(outcomes, o)) ==>
      !Eligible(records[i], records[o], rules)
  }

  // ----- One thread -----

  function Thread(records: seq<HistoricalEmail>, items: seq<nat>): seq<HistoricalEmail>
    requires forall k :: 0 <= k < |items| ==> items[k] < |records|
  {
    seq(|items|, k requires 0 <= k < |items| => records[items[k]])
  }

  function Lift(items: seq<nat>, threadId: string, matches: seq<Match>): seq<Outcome>
    requires forall k :: 0 <= k < |matches| ==> matches[k].request < |items| && matches[k].response < |items|
  {
    seq(|matches|, k requires 0 <= k < |matches| =>
      Outcome(threadId, items[matches[k].request], items[matches[k].response],
        matches[k].direct, matches[k].score, matches[k].verdict))
  }

  ghost predicate ThreadItems(records: seq<HistoricalEmail>, ids: map<nat, string>, threadId: string, items: seq<nat>)
    requires forall i: nat :: i < |records| ==> i in ids
  {
    && Distinct(items)
    && (forall k :: 0 <= k < |items| ==> items[k] < |records| && ids[items[k]] == threadId)
    && (forall i: nat :: i < |records| && ids[i] == threadId ==> i in items)
  }

  lemma LiftedGood(records: seq<HistoricalEmail>, ids: map<nat, string>, threadId: string, items: seq<nat>,
      matches: seq<Match>, rules: Rules)
    requires forall i: nat :: i < |records| ==> i in ids
    requires ThreadItems(records, ids, threadId, items)
    requires GreedyMatching(Thread(records, items), matches, |items|, rules)
    ensures forall k :: 0 <= k < |matches| ==> matches[k].request < |items| && matches[k].response < |items|
    ensures forall k :: 0 <= k < |matches| ==> GoodOutcome(records, ids, Lift(items, threadId, matches)[k], rules)
    ensures UsedOnce(Lift(items, threadId, matches))
  {
    hide NothingMissed, BestChoice, Quality, Eligible, DirectReply;
    assert forall k :: 0 <= k < |matches| ==> GoodMatch(Thread(records, items), matches[k], rules);
  }

  lemma PositionOf(records: seq<HistoricalEmail>, items: seq<nat>, p: nat, q: nat)
    requires forall j, k :: 0 <= j < k < |items| ==> NotAfter(records, items[j], items[k])
    requires p < |items| && q < |items| && !NotAfter(records, items[q], items[p])
    ensures p <= q
  {
  }

  lemma LiftedExhausted(records: seq<HistoricalEmail>, ids: map<nat, string>, threadId: string, items: seq<nat>,
      matches: seq<Match>, rules: Rules)
    requires forall i: nat :: i < |records| ==> i in ids
    requires ThreadItems(records, ids, threadId, items)
    requires forall j, k :: 0 <= j < k < |items| ==> NotAfter(records, items[j], items[k])
    requires GreedyMatching(Thread(records, items), matches, |items|, rules)
    requires forall k :: 0 <= k < |matches| ==> matches[k].request < |items| && matches[k].response < |items|
    ensures ThreadExhausted(records, ids, Lift(items, threadId, matches), threadId, rules)
  {
    hide GoodMatch, BestChoice, Quality, Eligible, DirectReply, NotAfter, ComesBefore;
    var thread, lifted := Thread(records, items), Lift(items, threadId, matches);
    forall i: nat, o: nat | i < |records| && o < |records| && ids[i] == threadId && ids[o] == threadId
        && ComesBefore(records[i], records[o])
        && LiveInbound(records[i]) && !Consumed(lifted, i) && LiveOutbound(records[o]) && !Replied(lifted, o)
      ensures !Eligible(records[i], records[o], rules)
    {
      BeforeIsExactly(records, i, o);
      var p :| 0 <= p < |items| && items[p] == i;
      var q :| 0 <= q < |items| && items[q] == o;
      PositionOf(records, items, p, q);
      assert !Matched(matches, |matches|, p) by {
        forall k | 0 <= k < |matches| ensures matches[k].request != p { assert lifted[k].request != i; }
      }
      assert !Answered(matches, q) by {
        forall k | 0 <= k < |matches| ensures matches[k].response != q { assert lifted[k].response != o; }
      }
      assert thread[p] == records[i] && thread[q] == records[o];
    }
  }

  lemma LiftedKey(records: seq<HistoricalEmail>, items: seq<nat>, threadId: string, matches: seq<Match>, k: nat)
    requires forall i :: 0 <= i < |items| ==> items[i] < |records|
    requires forall i :: 0 <= i < |matches| ==> matches[i].request < |items| && matches[i].response < |items|
    requires k < |matches|
    ensures var lifted, thread := Lift(items, threadId, matches), Thread(records, items);
      && lifted[k].request < |records| && lifted[k].response < |records| && lifted[k].verdict == matches[k].verdict
      && OutcomeKey(records, lifted[k]) == BodyKeyOf(thread[matches[k].request], thread[matches[k].response])
  {
  }

  lemma AcceptedStays(records: seq<HistoricalEmail>, outcomes: seq<Outcome>, more: seq<Outcome>, key: BodyKey)
    requires InRange(records, outcomes) && InRange(records, outcomes + more)
    requires KeyAccepted(records, outcomes, key)
    ensures KeyAccepted(records, outcomes + more, key)
  {
    var k :| 0 <= k < |outcomes| && outcomes[k].verdict == Paired && OutcomeKey(records, outcomes[k]) == key;
    assert (outcomes + more)[k] == outcomes[k];
  }

  lemma LiftedInRange(records: seq<HistoricalEmail>, items: seq<nat>, threadId: string, outcomes: seq<Outcome>,
      matches: seq<Match>)
    requires forall k :: 0 <= k < |items| ==> items[k] < |records|
    requires forall k :: 0 <= k < |matches| ==> matches[k].request < |items| && matches[k].response < |items|
    requires InRange(records, outcomes)
    ensures InRange(records, outcomes + Lift(items, threadId, matches))
  {
    var lifted := Lift(items, threadId, matches);
    forall k | 0 <= k < |lifted| ensures lifted[k].request < |records| && lifted[k].response < |records| {
      LiftedKey(records, items, threadId, matches, k);
    }
    hide Lift;
  }

  lemma LiftedKeys(records: seq<HistoricalEmail>, items: seq<nat>, threadId: string, outcomes: seq<Outcome>,
      matches: seq<Match>, before: set<BodyKey>, seen: set<BodyKey>)
    requires forall k :: 0 <= k < |items| ==> items[k] < |records|
    requires forall k :: 0 <= k < |matches| ==> matches[k].request < |items| && matches[k].response < |items|
    requires InRange(records, outcomes) && BodiesDistinct(records, outcomes, before)
    requires KeysOf(Thread(records, items), matches, before, seen)
    ensures InRange(records, outcomes + Lift(items, threadId, matches))
    ensures BodiesDistinct(records, outcomes + Lift(items, threadId, matches), seen)
  {
    hide BodyKeyOf, OutcomeKey;
    LiftedInRange(records, items, threadId, outcomes, matches);
    var thread, lifted := Thread(records, items), Lift(items, threadId, matches);
    var all := outcomes + lifted;
    forall k | 0 <= k < |matches|
      ensures all[|outcomes| + k] == lifted[k] && lifted[k].verdict == matches[k].verdict
      ensures OutcomeKey(records, lifted[k]) == BodyKeyOf(thread[matches[k].request], thread[matches[k].response])
    {
      LiftedKey(records, items, threadId, matches, k);
    }
    hide Lift, Thread;
    forall key | key in seen
      ensures KeyAccepted(records, all, key)
    {
      if key in before {
        AcceptedStays(records, outcomes, lifted, key);
      } else {
        assert Used(thread, matches, key);
        var k :| 0 <= k < |matches| && matches[k].verdict == Paired
          && BodyKeyOf(thread[matches[k].request], thread[matches[k].response]) == key;
        assert all[|outcomes| + k].verdict == Paired && OutcomeKey(records, all[|outcomes| + k]) == key;
      }
    }
    forall j, k | 0 <= j < k < |all| && all[j].verdict == Paired && all[k].verdict == Paired
      ensures OutcomeKey(records, all[j]) != OutcomeKey(records, all[k])
    {
      if j >= |outcomes| {
        assert all[j] == lifted[j - |outcomes|] && all[k] == lifted[k - |outcomes|];
      } else if k >= |outcomes| {
        assert all[k] == lifted[k - |outcomes|];
        assert OutcomeKey(records, all[j]) in before;
      }
    }
  }

  // ----- All threads -----

  ghost predicate ThreadsGrouped(records: seq<HistoricalEmail>, ids: map<nat, string>,
      byThread: map<string, seq<nat>>, threads: seq<string>, n: nat)
    requires n <= |records| && forall i: nat :: i < |records| ==> i in ids
  {
    && Distinct(threads)
    && (forall t :: t in threads <==> t in byThread)
    && (forall t :: t in byThread ==> Distinct(byThread[t]) && OfThread(ids, byThread[t], t, n))
    && (forall i: nat :: i < n ==> ids[i] in byThread && i in byThread[ids[i]])
  }

  ghost predicate Ascending(items: seq<nat>) {
    forall j, k :: 0 <= j < k < |items| ==> items[j] < items[k]
  }

  /** Each thread lists its messages in order, so its first entry is its first appearance, and the threads
      come in order of their first appearances. */
  ghost predicate InOrderOfAppearance(byThread: map<string, seq<nat>>, threads: seq<string>, n: nat) {
    && (forall t :: t in byThread ==> byThread[t] != [] && Ascending(byThread[t]) && byThread[t][|byThread[t]| - 1] < n)
    && (forall t :: t in threads ==> t in byThread)
    && (forall j, k :: 0 <= j < k < |threads| ==> byThread[threads[j]][0] < byThread[threads[k]][0])
  }

  lemma AppearanceStep(byThread: map<string, seq<nat>>, threads: seq<string>, n: nat, t: string)
    requires InOrderOfAppearance(byThread, threads, n) && (t in threads <==> t in byThread)
    ensures if t in byThread then InOrderOfAppearance(byThread[t := byThread[t] + [n]], threads, n + 1)
      else InOrderOfAppearance(byThread[t := [n]], threads + [t], n + 1)
  {
    forall u | u in threads
      ensures byThread[u][0] < n
    {
      assert byThread[u][0] <= byThread[u][|byThread[u]| - 1];
    }
  }

  ghost predicate OfThread(ids: map<nat, string>, items: seq<nat>, threadId: string, n: nat) {
    forall k :: 0 <= k < |items| ==> items[k] < n && items[k] in ids && ids[items[k]] == threadId
  }

  lemma AppearanceStart()
    ensures InOrderOfAppearance(map[], [], 0)
  {
  }

  method GroupItems(records: seq<HistoricalEmail>, ids: map<nat, string>)
      returns (byThread: map<string, seq<nat>>, threads: seq<string>)
    requires forall i: nat :: i < |records| ==> i in ids
    ensures ThreadsGrouped(records, ids, byThread, threads, |records|)
    ensures InOrderOfAppearance(byThread, threads, |records|)
  {
    hide InOrderOfAppearance;
    AppearanceStart();
    byThread, threads := map[], [];
    for index := 0 to |records|
      invariant ThreadsGrouped(records, ids, byThread, threads, index)
      invariant InOrderOfAppearance(byThread, threads, index)
    {
      var t := ids[index];
      AppearanceStep(byThread, threads, index, t);
      if t in byThread {
        byThread := byThread[t := byThread[t] + [index]];
      } else {
        byThread, threads := byThread[t := [index]], threads + [t];
      }
    }
  }

  method SortItems(records: seq<HistoricalEmail>, ids: map<nat, string>, threadId: string, items: seq<nat>)
      returns (sorted: seq<nat>)
    requires forall i: nat :: i < |records| ==> i in ids
    requires ThreadItems(records, ids, threadId, items)
    ensures ThreadItems(records, ids, threadId, sorted)
    ensures forall j, k :: 0 <= j < k < |sorted| ==> NotAfter(records, sorted[j], sorted[k])
    ensures forall j, k :: 0 <= j < k < |sorted| ==> !ComesBefore(records[sorted[k]], records[sorted[j]])
  {
    hide NotAfter, ComesBefore;
    ThreadOrderIsTotal(records);
    sorted := Sort(items, ThreadOrder(records));
    SortKeepsMembers(items, ThreadOrder(records));
    SortKeepsDistinct(items, ThreadOrder(records));
    assert forall k :: 0 <= k < |sorted| ==> sorted[k] in sorted;
    assert forall j, k :: 0 <= j < k < |sorted| ==> ThreadOrder(records)(sorted[j], sorted[k]);
    forall j, k | 0 <= j < k < |sorted| ensures !ComesBefore(records[sorted[k]], records[sorted[j]]) {
      BeforeIsExactly(records, sorted[k], sorted[j]);
    }
  }

  /** Every outcome so far belongs to one of the first `t` threads, and those are exhausted. */
  ghost predicate Progress(records: seq<HistoricalEmail>, ids: map<nat, string>, outcomes: seq<Outcome>,
      threads: seq<string>, t: nat, rules: Rules)
    requires t <= |threads| && forall i: nat :: i < |records| ==> i in ids
  {
    && (forall k :: 0 <= k < |outcomes| ==> GoodOutcome(records, ids, outcomes[k], rules))
    && (forall k :: 0 <= k < |outcomes| ==> outcomes[k].threadId in threads[..t])
    && UsedOnce(outcomes)
    && (forall h :: 0 <= h < t ==> ThreadExhausted(records, ids, outcomes, threads[h], rules))
  }

  lemma ProgressStep(records: seq<HistoricalEmail>, ids: map<nat, string>, outcomes: seq<Outcome>, more: seq<Outcome>,
      threads: seq<string>, t: nat, rules: Rules)
    requires forall i: nat :: i < |records| ==> i in ids
    requires t < |threads| && Distinct(threads) && Progress(records, ids, outcomes, threads, t, rules)
    requires forall k :: 0 <= k < |more| ==> GoodOutcome(records, ids, more[k], rules) && more[k].threadId == threads[t]
    requires UsedOnce(more) && ThreadExhausted(records, ids, more, threads[t], rules)
    ensures Progress(records, ids, outcomes + more, threads, t + 1, rules)
  {
    hide Eligible, Quality, DirectReply, LiveInbound, LiveOutbound, ComesBefore;
    var all := outcomes + more;
    assert threads[..t + 1] == threads[..t] + [threads[t]];
    forall j, k | 0 <= j < k < |all|
      ensures all[j].request != all[k].request && all[j].response != all[k].response
    {
      if j < |outcomes| <= k {
        assert all[k] == more[k - |outcomes|];
        assert all[j].threadId in threads[..t];
        assert all[j].threadId != all[k].threadId;
      } else if j >= |outcomes| {
        assert all[j] == more[j - |outcomes|] && all[k] == more[k - |outcomes|];
      }
    }
    forall h | 0 <= h < t + 1
      ensures ThreadExhausted(records, ids, all, threads[h], rules)
    {
      StillExhausted(records, ids, if h < t then outcomes else more, all, threads[h], rules);
    }
  }

  lemma StillExhausted(records: seq<HistoricalEmail>, ids: map<nat, string>, some: seq<Outcome>, all: seq<Outcome>,
      threadId: string, rules: Rules)
    requires forall i: nat :: i < |records| ==> i in ids
    requires ThreadExhausted(records, ids, some, threadId, rules)
    requires forall x :: x in some ==> x in all
    ensures ThreadExhausted(records, ids, all, threadId, rules)
  {
    hide Eligible, ComesBefore, LiveInbound, LiveOutbound;
    forall i: nat
      ensures Consumed(some, i) ==> Consumed(all, i)
      ensures Replied(some, i) ==> Replied(all, i)
    {
      if k :| 0 <= k < |some| && some[k].request == i {
        assert some[k] in all;
        var j :| 0 <= j < |all| && all[j] == some[k];
      }
      if k :| 0 <= k < |some| && some[k].response == i {
        assert some[k] in all;
        var j :| 0 <= j < |all| && all[j] == some[k];
      }
    }
  }

  /** The greedy pass over all threads, in order of first appearance. */
  method MatchAllThreads(records: seq<HistoricalEmail>, ids: map<nat, string>, rules: Rules)
      returns (outcomes: seq<Outcome>, seen: set<BodyKey>)
    requires forall i: nat :: i < |records| ==> i in ids
    ensures forall k :: 0 <= k < |outcomes| ==> GoodOutcome(records, ids, outcomes[k], rules)
    ensures UsedOnce(outcomes)
    ensures InRange(records, outcomes) && BodiesDistinct(records, outcomes, seen)
    ensures forall i: nat :: i < |records| ==> ThreadExhausted(records, ids, outcomes, ids[i], rules)
  {
    hide ThreadExhausted, GreedyMatching, KeysOf, Eligible, Quality, DirectReply, NotAfter;
    var byThread, threads := GroupItems(records, ids);
    outcomes, seen := [], {};
    for t := 0 to |threads|
      invariant Progress(records, ids, outcomes, threads, t, rules)
      invariant InRange(records, outcomes) && BodiesDistinct(records, outcomes, seen)
    {
      var threadId := threads[t];
      assert threadId in byThread;
      var more;
      more, seen := MatchThread(records, ids, rules, threadId, byThread[threadId], outcomes, seen);
      ProgressStep(records, ids, outcomes, more, threads, t, rules);
      outcomes := outcomes + more;
    }
    forall i: nat | i < |records|
      ensures ThreadExhausted(records, ids, outcomes, ids[i], rules)
    {
      assert ids[i] in threads;
      var h :| 0 <= h < |threads| && threads[h] == ids[i];
    }
  }

  method MatchThread(records: seq<HistoricalEmail>, ids: map<nat, string>, rules: Rules, threadId: string,
      items: seq<nat>, ghost outcomes: seq<Outcome>, before: set<BodyKey>)
      returns (more: seq<Outcome>, seen: set<BodyKey>)
    requires forall i: nat :: i < |records| ==> i in ids
    requires ThreadItems(records, ids, threadId, items)
    requires InRange(records, outcomes) && BodiesDistinct(records, outcomes, before)
    ensures forall k :: 0 <= k < |more| ==> GoodOutcome(records, ids, more[k], rules) && more[k].threadId == threadId
    ensures UsedOnce(more) && ThreadExhausted(records, ids, more, threadId, rules)
    ensures InRange(records, outcomes + more) && BodiesDistinct(records, outcomes + more, seen)
  {
    var sorted := SortItems(records, ids, threadId, items);
    var matches;
    matches, seen := PairThread(Thread(records, sorted), rules, before);
    LiftedGood(records, ids, threadId, sorted, matches, rules);
    LiftedExhausted(records, ids, threadId, sorted, matches, rules);
    LiftedKeys(records, sorted, threadId, outcomes, matches, before, seen);
    hide *;
    more := Lift(sorted, threadId, matches);
    assert forall k :: 0 <= k < |more| ==> more[k] == Lift(sorted, threadId, matches)[k];
  }

  predicate SameBodies(records: seq<HistoricalEmail>, a: Outcome, b: Outcome)
    requires a.request < |records| && a.response < |records| && b.request < |records| && b.response < |records|
  {
    records[a.request].bodyFingerprint == records[b.request].bodyFingerprint
    && records[a.response].bodyFingerprint == records[b.response].bodyFingerprint
  }

  /** No two accepted pairs repeat both bodies, and whatever was refused as a repetition repeats both
      bodies of an accepted pair. */
  lemma RepetitionsAreRefused(records: seq<HistoricalEmail>, outcomes: seq<Outcome>, seen: set<BodyKey>)
    requires InRange(records, outcomes) && BodiesDistinct(records, outcomes, seen)
    ensures forall j, k :: 0 <= j < k < |outcomes| && SameBodies(records, outcomes[j], outcomes[k]) ==>
      outcomes[j].verdict != Paired || outcomes[k].verdict != Paired
    ensures forall k :: 0 <= k < |outcomes| && outcomes[k].verdict == DuplicateBody ==>
      exists j ::
        0 <= j < |outcomes| && outcomes[j].verdict == Paired && SameBodies(records, outcomes[j], outcomes[k])
  {
    forall k | 0 <= k < |outcomes| && outcomes[k].verdict == DuplicateBody
      ensures exists j ::
        0 <= j < |outcomes| && outcomes[j].verdict == Paired && SameBodies(records, outcomes[j], outcomes[k])
    {
      assert KeyAccepted(records, outcomes, OutcomeKey(records, outcomes[k]));
    }
  }

  // ----- Pair ids -----

  ghost predicate Injective(pairName: Naming) {
    forall a1, a2, a3, a4, a5, b1, b2, b3, b4, b5 ::
      pairName(a1, a2, a3, a4, a5) == pairName(b1, b2, b3, b4, b5) ==>
      a1 == b1 && a2 == b2 && a3 == b3 && a4 == b4 && a5 == b5
  }

  /** The stable id hashes the thread, both raw messages and both bodies. */
  function PairOf(records: seq<HistoricalEmail>, o: Outcome, pairName: Naming): Pair
    requires o.request < |records| && o.response < |records|
  {
    Pair(
      pairName(o.threadId, records[o.request].rawSha256, records[o.response].rawSha256,
        records[o.request].bodyFingerprint, records[o.response].bodyFingerprint),
      o.threadId,
      TimeKey(records[o.response]))
  }

  function AcceptedPairs(records: seq<HistoricalEmail>, outcomes: seq<Outcome>, pairName: Naming): seq<Pair>
    requires forall k :: 0 <= k < |outcomes| ==> outcomes[k].request < |records| && outcomes[k].response < |records|
  {
    if outcomes == [] then []
    else
      AcceptedPairs(records, outcomes[..|outcomes| - 1], pairName)
      + (if outcomes[|outcomes| - 1].verdict == Paired then [PairOf(records, outcomes[|outcomes| - 1], pairName)]
        else [])
  }

  lemma {:induction false} AcceptedPairSource(records: seq<HistoricalEmail>, outcomes: seq<Outcome>, pairName: Naming,
      p: Pair)
      returns (k: nat)
    requires InRange(records, outcomes) && p in AcceptedPairs(records, outcomes, pairName)
    ensures k < |outcomes| && outcomes[k].verdict == Paired && PairOf(records, outcomes[k], pairName) == p
  {
    var init, last := outcomes[..|outcomes| - 1], outcomes[|outcomes| - 1];
    if last.verdict == Paired && PairOf(records, last, pairName) == p {
      k := |outcomes| - 1;
    } else {
      k := AcceptedPairSource(records, init, pairName, p);
    }
  }

  /** The pair of an accepted outcome: its thread, and the instant of its response. */
  ghost predicate IsPairOf(records: seq<HistoricalEmail>, o: Outcome, p: Pair) {
    && o.response < |records| && o.verdict == Paired && p.threadId == o.threadId
    && records[o.response].occurredAt == (if p.responseAt >= 0 then Some(p.responseAt) else None)
  }

  ghost predicate IsAccepted(outcomes: seq<Outcome>, k: int) {
    0 <= k < |outcomes| && outcomes[k].verdict == Paired
  }

  /** The pairs are those of the accepted outcomes, in order. */
  ghost predicate Carries(records: seq<HistoricalEmail>, outcomes: seq<Outcome>, pairs: seq<Pair>, from: seq<nat>) {
    && |from| == |pairs| && (forall i, j :: 0 <= i < j < |from| ==> from[i] < from[j])
    && (forall i :: 0 <= i < |from| ==> from[i] < |outcomes| && IsPairOf(records, outcomes[from[i]], pairs[i]))
    && (forall k :: IsAccepted(outcomes, k) ==> k in from)
  }

  lemma CarriesMore(records: seq<HistoricalEmail>, outcomes: seq<Outcome>, pairs: seq<Pair>, from: seq<nat>, o: Outcome,
      p: Pair)
    requires Carries(records, outcomes, pairs, from)
    ensures o.verdict != Paired ==> Carries(records, outcomes + [o], pairs, from)
    ensures IsPairOf(records, o, p) ==> Carries(records, outcomes + [o], pairs + [p], from + [|outcomes|])
  {
    assert IsPairOf(records, o, p) ==> o.verdict == Paired;
    hide IsPairOf;
    var longer := outcomes + [o];
    forall k | IsAccepted(longer, k) ensures k == |outcomes| || k in from {
      if k < |outcomes| { assert IsAccepted(outcomes, k); }
    }
  }

  lemma PairIsOf(records: seq<HistoricalEmail>, o: Outcome, pairName: Naming)
    requires o.request < |records| && o.response < |records| && o.verdict == Paired
    ensures IsPairOf(records, o, PairOf(records, o, pairName))
  {
  }

  /** Every accepted outcome gives one pair of its thread and the instant of its response, in order, and nothing else
      gives one. */
  lemma {:induction false} PairsCarryResponses(records: seq<HistoricalEmail>, outcomes: seq<Outcome>, pairName: Naming)
      returns (from: seq<nat>)
    requires InRange(records, outcomes)
    ensures Carries(records, outcomes, AcceptedPairs(records, outcomes, pairName), from)
    decreases |outcomes|
  {
    if outcomes == [] {
      from := [];
    } else {
      hide Carries, PairOf;
      var init, last := outcomes[..|outcomes| - 1], outcomes[|outcomes| - 1];
      assert outcomes == init + [last];
      from := PairsCarryResponses(records, init, pairName);
      CarriesMore(records, init, AcceptedPairs(records, init, pairName), from, last, PairOf(records, last, pairName));
      if last.verdict == Paired {
        PairIsOf(records, last, pairName);
        from := from + [|init|];
      }
    }
  }

  /** Distinct bodies give distinct pair ids, which is what the split relies on. */
  lemma {:induction false} PairIdsDistinct(records: seq<HistoricalEmail>, outcomes: seq<Outcome>, pairName: Naming)
    requires InRange(records, outcomes) && Injective(pairName)
    requires forall j, k ::
      0 <= j < k < |outcomes| && outcomes[j].verdict == Paired && outcomes[k].verdict == Paired ==>
      OutcomeKey(records, outcomes[j]) != OutcomeKey(records, outcomes[k])
    ensures DistinctIds(AcceptedPairs(records, outcomes, pairName))
    decreases |outcomes|
  {
    if outcomes != [] {
      var init, last := outcomes[..|outcomes| - 1], outcomes[|outcomes| - 1];
      PairIdsDistinct(records, init, pairName);
      var earlier := AcceptedPairs(records, init, pairName);
      if last.verdict == Paired {
        forall i | 0 <= i < |earlier|
          ensures earlier[i].pairId != PairOf(records, last, pairName).pairId
        {
          var k := AcceptedPairSource(records, init, pairName, earlier[i]);
          assert OutcomeKey(records, outcomes[k]) != OutcomeKey(records, outcomes[|outcomes| - 1]);
        }
      }
    }
  }
}
