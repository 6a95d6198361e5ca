/** `_select_candidates` of `scripts/select_imap_rag_candidates.py`: one message a thread, drawn in
    turn from the intent buckets, with a cap on every sender but the marked ones. */
module Candidates {
  import opened Options
  import opened Sorting

  const BUCKETS: nat := 6

  type Bucket = b: nat | b < BUCKETS witness 0

  /** A fetched header with its score and reasons, its thread key, and its bucket by order of service. */
  datatype Header = Header(uid: int, score: int, reasons: set<string>, sender: string, threadKey: string,
      bucket: Bucket)

  predicate Eligible(h: Header) {
    && ("boss_sender" in h.reasons || "company_sender" in h.reasons)
    && "external_customer_recipient" in h.reasons
    && "automated_or_bulk" !in h.reasons && "internal_only" !in h.reasons
    && ("thread_headers" in h.reasons || "reply_subject" in h.reasons)
    && h.score >= 8
  }

  /** Marked senders first, then the higher score, then the newer message. */
  predicate NotAfter(bosses: set<string>, a: Header, b: Header) {
    var x, y := a.sender in bosses, b.sender in bosses;
    if x != y then x
    else if a.score != b.score then a.score > b.score
    else a.uid >= b.uid
  }

  function Preference(bosses: set<string>): (Header, Header) -> bool {
    (a: Header, b: Header) => NotAfter(bosses, a, b)
  }

  function OlderFirst(): (Header, Header) -> bool {
    (a: Header, b: Header) => a.uid <= b.uid
  }

  function SenderCap(target: int): int {
    if target / 4 > 40 then target / 4 else 40
  }

  // ----- Counting -----

  datatype Key = Sender(name: string) | InBucket(bucket: nat)

  predicate Matches(h: Header, key: Key) {
    match key
    case Sender(name) => h.sender == name
    case InBucket(bucket) => h.bucket == bucket
  }

  function CountBy(s: seq<Header>, key: Key): nat {
    if s == [] then 0 else CountBy(s[..|s| - 1], key) + if Matches(s[|s| - 1], key) then 1 else 0
  }

  lemma {:induction false} CountByJoin(a: seq<Header>, b: seq<Header>, key: Key)
    ensures CountBy(a + b, key) == CountBy(a, key) + CountBy(b, key)
    decreases |b|
  {
    if b == [] {
      assert a + b == a;
    } else {
      assert (a + b)[..|a + b| - 1] == a + b[..|b| - 1];
      CountByJoin(a, b[..|b| - 1], key);
    }
  }

  lemma Cancel<T(!new)>(a: multiset<T>, b: multiset<T>, c: multiset<T>)
    requires a + c == b + c
    ensures a == b
  {
    forall x ensures a[x] == b[x] {
      assert (a + c)[x] == (b + c)[x];
    }
  }

  lemma CountByOne(h: Header, key: Key)
    ensures CountBy([h], key) == if Matches(h, key) then 1 else 0
  {
    assert [h][..0] == [];
  }

  lemma {:induction false} CountByIgnoresOrder(s: seq<Header>, t: seq<Header>, key: Key)
    requires multiset(s) == multiset(t)
    ensures CountBy(s, key) == CountBy(t, key)
    decreases |s|
  {
    if s == [] {
      assert |t| == |multiset(t)| == 0;
    } else {
      var init, last := s[..|s| - 1], s[|s| - 1];
      CountByOne(last, key);
      hide CountBy;
      assert s == init + [last];
      CountByJoin(init, [last], key);
      assert last in multiset(t);
      var k :| 0 <= k < |t| && t[k] == last;
      assert t == t[..k] + ([last] + t[k + 1..]);
      Cancel(multiset(init), multiset(t[..k] + t[k + 1..]), multiset{last});
      CountByIgnoresOrder(init, t[..k] + t[k + 1..], key);
      CountByJoin(t[..k], [last] + t[k + 1..], key);
      CountByJoin([last], t[k + 1..], key);
      CountByJoin(t[..k], t[k + 1..], key);
    }
  }

  // ----- One message a thread -----

  ghost predicate OneEach(reps: seq<Header>) {
    forall i, j :: 0 <= i < j < |reps| ==> reps[i].threadKey != reps[j].threadKey
  }

  ghost predicate HasThread(reps: seq<Header>, threadKey: string) {
    exists i :: 0 <= i < |reps| && reps[i].threadKey == threadKey
  }

  ghost predicate Represented(reps: seq<Header>, h: Header, bosses: set<string>) {
    exists i :: 0 <= i < |reps| && reps[i].threadKey == h.threadKey && NotAfter(bosses, reps[i], h)
  }

  /** Every eligible thread has its best message here, once. */
  ghost predicate BestOfThreads(headers: seq<Header>, reps: seq<Header>, bosses: set<string>) {
    && OneEach(reps)
    && (forall r :: r in reps ==> r in headers && Eligible(r))
    && (forall h :: h in headers && Eligible(h) ==> Represented(reps, h, bosses))
  }

  method KeepEligible(headers: seq<Header>) returns (eligible: seq<Header>)
    ensures forall h :: h in eligible <==> h in headers && Eligible(h)
  {
    eligible := [];
    for i := 0 to |headers|
      invariant forall h :: h in eligible <==> h in headers[..i] && Eligible(h)
    {
      assert headers[..i + 1] == headers[..i] + [headers[i]];
      if Eligible(headers[i]) {
        eligible := eligible + [headers[i]];
      }
    }
    assert headers[..|headers|] == headers;
  }

  ghost predicate Ranked(s: seq<Header>, bosses: set<string>) {
    forall i, j :: 0 <= i < j < |s| ==> NotAfter(bosses, s[i], s[j])
  }

  method Representatives(headers: seq<Header>, bosses: set<string>) returns (reps: seq<Header>)
    ensures BestOfThreads(headers, reps, bosses) && Ranked(reps, bosses)
  {
    hide NotAfter, Represented, HasThread, Eligible;
    var eligible := KeepEligible(headers);
    PreferenceIsOrder(bosses);
    var ranked := Sort(eligible, Preference(bosses));
    SortKeepsMembers(eligible, Preference(bosses));
    reps := [];
    var seen: set<string> := {};
    for i := 0 to |ranked|
      invariant OneEach(reps) && Ranked(reps, bosses)
      invariant forall t :: t in seen ==> HasThread(reps, t)
      invariant forall r :: r in reps ==> r.threadKey in seen && r in ranked[..i]
      invariant forall k :: 0 <= k < i ==> Represented(reps, ranked[k], bosses)
    {
      assert ranked[..i + 1] == ranked[..i] + [ranked[i]];
      var item := ranked[i];
      if item.threadKey in seen {
        AlreadyRepresented(reps, ranked, i, bosses);
      } else {
        seen := seen + {item.threadKey};
        StillRepresented(reps, item, ranked[..i], bosses);
        HasThreadLater(reps, item);
        forall r | r in reps ensures NotAfter(bosses, r, item) {
          SortedBefore(ranked, i, r, bosses);
        }
        reps := reps + [item];
      }
    }
  }

  lemma AlreadyRepresented(reps: seq<Header>, ranked: seq<Header>, i: nat, bosses: set<string>)
    requires Sorted(ranked, Preference(bosses)) && i < |ranked| && HasThread(reps, ranked[i].threadKey)
    requires forall r :: r in reps ==> r in ranked[..i]
    ensures Represented(reps, ranked[i], bosses)
  {
    var j :| 0 <= j < |reps| && reps[j].threadKey == ranked[i].threadKey;
    SortedBefore(ranked, i, reps[j], bosses);
  }

  lemma PreferenceIsOrder(bosses: set<string>)
    ensures TotalPreorder(Preference(bosses))
  {
  }

  lemma SortedBefore(ranked: seq<Header>, i: nat, r: Header, bosses: set<string>)
    requires Sorted(ranked, Preference(bosses)) && i < |ranked| && r in ranked[..i]
    ensures NotAfter(bosses, r, ranked[i])
  {
    var k :| 0 <= k < i && ranked[k] == r;
    assert Preference(bosses)(ranked[k], ranked[i]);
  }

  lemma StillRepresented(reps: seq<Header>, item: Header, done: seq<Header>, bosses: set<string>)
    requires forall k :: 0 <= k < |done| ==> Represented(reps, done[k], bosses)
    ensures forall k :: 0 <= k < |done| ==> Represented(reps + [item], done[k], bosses)
    ensures Represented(reps + [item], item, bosses)
  {
    assert (reps + [item])[|reps|] == item;
    forall k | 0 <= k < |done| ensures Represented(reps + [item], done[k], bosses) {
      assert Represented(reps, done[k], bosses);
      var j :| 0 <= j < |reps| && reps[j].threadKey == done[k].threadKey && NotAfter(bosses, reps[j], done[k]);
      assert (reps + [item])[j] == reps[j];
    }
  }

  lemma HasThreadLater(reps: seq<Header>, item: Header)
    ensures forall t :: HasThread(reps, t) || t == item.threadKey ==> HasThread(reps + [item], t)
  {
    forall t | HasThread(reps, t) || t == item.threadKey ensures HasThread(reps + [item], t) {
      if HasThread(reps, t) {
        var i :| 0 <= i < |reps| && reps[i].threadKey == t;
        assert (reps + [item])[i].threadKey == t;
      } else {
        assert (reps + [item])[|reps|].threadKey == t;
      }
    }
  }

  // ----- The queues -----

  function Pool(queues: seq<seq<Header>>): multiset<Header> {
    if queues == [] then multiset{} else multiset(queues[0]) + Pool(queues[1..])
  }

  lemma {:induction false} PoolSplit(queues: seq<seq<Header>>, b: nat, rest: seq<Header>, taken: multiset<Header>)
    requires b < |queues| && multiset(queues[b]) == taken + multiset(rest)
    ensures Pool(queues) == taken + Pool(queues[b := rest])
    decreases b
  {
    var next := queues[b := rest];
    if b == 0 {
      assert next[1..] == queues[1..];
    } else {
      assert next[1..] == queues[1..][b - 1 := rest];
      PoolSplit(queues[1..], b - 1, rest, taken);
    }
  }

  lemma {:induction false} EmptyPool(queues: seq<seq<Header>>)
    requires forall b :: 0 <= b < |queues| ==> queues[b] == []
    ensures Pool(queues) == multiset{}
  {
    if queues != [] { EmptyPool(queues[1..]); }
  }

  lemma {:induction false} PoolMember(queues: seq<seq<Header>>, h: Header) returns (b: nat)
    requires h in Pool(queues)
    ensures b < |queues| && h in queues[b]
  {
    if h in queues[0] {
      b := 0;
    } else {
      var rest := PoolMember(queues[1..], h);
      b := rest + 1;
    }
  }

  ghost predicate Shelved(queues: seq<seq<Header>>) {
    |queues| == BUCKETS && forall b, h :: 0 <= b < BUCKETS && h in queues[b] ==> h.bucket == b
  }

  lemma ShelvedOne(queues: seq<seq<Header>>, item: Header)
    requires Shelved(queues)
    ensures var longer := queues[item.bucket := queues[item.bucket] + [item]];
      Shelved(longer) && Pool(longer) == Pool(queues) + multiset{item}
  {
    var longer := queues[item.bucket := queues[item.bucket] + [item]];
    PoolSplit(longer, item.bucket, queues[item.bucket], multiset{item});
    assert longer[item.bucket := queues[item.bucket]] == queues;
    hide Pool;
  }

  ghost predicate QueuesRanked(queues: seq<seq<Header>>, bosses: set<string>) {
    forall b :: 0 <= b < |queues| ==> Ranked(queues[b], bosses)
  }

  lemma StaysRanked(reps: seq<Header>, i: nat, queues: seq<seq<Header>>, b: nat, bosses: set<string>)
    requires Ranked(reps, bosses) && i < |reps| && Pool(queues) == multiset(reps[..i]) && b < |queues|
    requires QueuesRanked(queues, bosses)
    ensures QueuesRanked(queues[b := queues[b] + [reps[i]]], bosses)
  {
    forall k | 0 <= k < |queues[b]| ensures NotAfter(bosses, queues[b][k], reps[i]) {
      var h := queues[b][k];
      PoolSplit(queues, b, [], multiset(queues[b]));
      hide Pool, NotAfter;
      assert h in multiset(queues[b]);
      assert h in Pool(queues);
      assert h in reps[..i];
      var j :| 0 <= j < i && reps[j] == h;
    }
    hide NotAfter;
  }

  method Shelve(reps: seq<Header>, ghost bosses: set<string>) returns (queues: seq<seq<Header>>)
    requires Ranked(reps, bosses)
    ensures Shelved(queues) && Pool(queues) == multiset(reps) && QueuesRanked(queues, bosses)
  {
    queues := seq(BUCKETS, i => []);
    EmptyPool(queues);
    for i := 0 to |reps|
      invariant |queues| == BUCKETS && Shelved(queues) && Pool(queues) == multiset(reps[..i])
      invariant QueuesRanked(queues, bosses)
    {
      hide Pool, Shelved;
      var item := reps[i];
      assert reps[..i + 1] == reps[..i] + [item];
      ShelvedOne(queues, item);
      StaysRanked(reps, i, queues, item.bucket, bosses);
      queues := queues[item.bucket := queues[item.bucket] + [item]];
    }
    assert reps[..|reps|] == reps;
  }

  // ----- Drawing in turn -----

  function On(counts: map<string, nat>, sender: string): nat {
    if sender in counts then counts[sender] else 0
  }

  predicate AtCap(h: Header, counts: map<string, nat>, cap: int, bosses: set<string>) {
    On(counts, h.sender) >= cap && h.sender !in bosses
  }

  /** Messages of capped senders are passed over for good. */
  method Draw(queue: seq<Header>, counts: map<string, nat>, cap: int, bosses: set<string>)
    returns (picked: Option<Header>, rest: seq<Header>, ghost skipped: seq<Header>)
    ensures queue == skipped + (if picked.Some? then [picked.value] else []) + rest
    ensures AllAtCap(skipped, counts, cap, bosses)
    ensures picked.Some? ==> !AtCap(picked.value, counts, cap, bosses)
    ensures picked == None ==> rest == []
  {
    rest, skipped := queue, [];
    while rest != []
      invariant queue == skipped + rest
      invariant forall h :: h in skipped ==> AtCap(h, counts, cap, bosses)
      decreases |rest|
    {
      var item := rest[0];
      rest := rest[1..];
      if !AtCap(item, counts, cap, bosses) {
        return Some(item), rest, skipped;
      }
      skipped := skipped + [item];
    }
    picked := None;
  }

  ghost predicate CountsRight(counts: map<string, nat>, selected: seq<Header>) {
    forall name :: On(counts, name) == CountBy(selected, Sender(name))
  }

  ghost predicate WithinCap(counts: map<string, nat>, cap: int, bosses: set<string>) {
    forall name :: name !in bosses ==> On(counts, name) <= cap
  }

  ghost predicate AllAtCap(dropped: seq<Header>, counts: map<string, nat>, cap: int, bosses: set<string>) {
    forall h :: h in dropped ==> AtCap(h, counts, cap, bosses)
  }

  /** Everything is selected, passed over or still queued; and whoever was passed over stays capped. */
  ghost predicate Balanced(reps: seq<Header>, queues: seq<seq<Header>>, selected: seq<Header>, dropped: seq<Header>,
                           counts: map<string, nat>, cap: int, bosses: set<string>) {
    && Shelved(queues)
    && multiset(reps) == multiset(selected) + multiset(dropped) + Pool(queues)
    && CountsRight(counts, selected)
    && WithinCap(counts, cap, bosses)
    && AllAtCap(dropped, counts, cap, bosses)
  }

  /** The buckets before `k` have had their turn of this round. */
  ghost predicate Level(queues: seq<seq<Header>>, selected: seq<Header>, round: nat, k: nat)
    requires |queues| == BUCKETS
  {
    forall b: nat :: b < BUCKETS ==>
      var turns := if b < k then round + 1 else round;
      CountBy(selected, InBucket(b)) <= turns && (queues[b] != [] ==> CountBy(selected, InBucket(b)) == turns)
  }

  lemma CountOneMore(selected: seq<Header>, h: Header, key: Key)
    ensures CountBy(selected + [h], key) == CountBy(selected, key) + if Matches(h, key) then 1 else 0
  {
    assert (selected + [h])[..|selected|] == selected;
  }

  lemma DrawCounts(selected: seq<Header>, counts: map<string, nat>, cap: int, bosses: set<string>, picked: Header)
    requires CountsRight(counts, selected) && WithinCap(counts, cap, bosses) && !AtCap(picked, counts, cap, bosses)
    ensures var next := counts[picked.sender := On(counts, picked.sender) + 1];
      CountsRight(next, selected + [picked]) && WithinCap(next, cap, bosses)
  {
    hide CountBy;
    var next := counts[picked.sender := On(counts, picked.sender) + 1];
    forall name ensures On(next, name) == CountBy(selected + [picked], Sender(name)) {
      CountOneMore(selected, picked, Sender(name));
    }
  }

  lemma DrawKeepsCaps(dropped: seq<Header>, counts: map<string, nat>, cap: int, bosses: set<string>,
      skipped: seq<Header>, sender: string)
    requires AllAtCap(dropped, counts, cap, bosses) && AllAtCap(skipped, counts, cap, bosses)
    ensures AllAtCap(dropped + skipped, counts[sender := On(counts, sender) + 1], cap, bosses)
  {
  }

  lemma DrawShelved(queues: seq<seq<Header>>, b: nat, rest: seq<Header>, taken: multiset<Header>)
    requires Shelved(queues) && b < BUCKETS && multiset(queues[b]) == taken + multiset(rest)
    ensures Shelved(queues[b := rest]) && Pool(queues) == taken + Pool(queues[b := rest])
    ensures forall h :: h in taken ==> h.bucket == b
  {
    PoolSplit(queues, b, rest, taken);
    hide Pool;
    assert forall h :: h in rest || h in taken ==> h in multiset(queues[b]);
  }

  lemma DrawKeepsBalance(reps: seq<Header>, queues: seq<seq<Header>>, selected: seq<Header>, dropped: seq<Header>,
                         counts: map<string, nat>, cap: int, bosses: set<string>, b: nat,
                         skipped: seq<Header>, picked: Header, rest: seq<Header>)
    requires Balanced(reps, queues, selected, dropped, counts, cap, bosses) && b < BUCKETS
    requires |queues| == BUCKETS && queues[b] == skipped + [picked] + rest
    requires AllAtCap(skipped, counts, cap, bosses) && !AtCap(picked, counts, cap, bosses)
    ensures Balanced(reps, queues[b := rest], selected + [picked], dropped + skipped,
                     counts[picked.sender := On(counts, picked.sender) + 1], cap, bosses)
    ensures picked.bucket == b
  {
    hide Pool, Shelved, CountsRight, WithinCap, AllAtCap, AtCap, On;
    var taken := multiset(skipped) + multiset{picked};
    DrawShelved(queues, b, rest, taken);
    DrawCounts(selected, counts, cap, bosses, picked);
    DrawKeepsCaps(dropped, counts, cap, bosses, skipped, picked.sender);
    assert picked in taken;
    assert multiset(selected + [picked]) + multiset(dropped + skipped)
      == multiset(selected) + multiset(dropped) + taken;
  }

  lemma SkipKeepsBalance(reps: seq<Header>, queues: seq<seq<Header>>, selected: seq<Header>, dropped: seq<Header>,
                         counts: map<string, nat>, cap: int, bosses: set<string>, b: nat)
    requires Balanced(reps, queues, selected, dropped, counts, cap, bosses) && b < BUCKETS
    requires |queues| == BUCKETS && AllAtCap(queues[b], counts, cap, bosses)
    ensures Balanced(reps, queues[b := []], selected, dropped + queues[b], counts, cap, bosses)
  {
    hide Pool, Shelved, CountsRight, WithinCap;
    DrawShelved(queues, b, [], multiset(queues[b]));
    assert multiset(dropped + queues[b]) == multiset(dropped) + multiset(queues[b]);
  }

  lemma LevelAfterDraw(queues: seq<seq<Header>>, selected: seq<Header>, round: nat, b: nat, picked: Header,
      rest: seq<Header>)
    requires |queues| == BUCKETS && b < BUCKETS && Level(queues, selected, round, b)
    requires queues[b] != [] && picked.bucket == b
    ensures Level(queues[b := rest], selected + [picked], round, b + 1)
  {
    hide CountBy;
    forall c: nat | c < BUCKETS
      ensures CountBy(selected + [picked], InBucket(c)) == CountBy(selected, InBucket(c)) + if c == b then 1 else 0
    {
      CountOneMore(selected, picked, InBucket(c));
    }
  }

  /** Whatever was drawn from a bucket ranks ahead of what is left in it. */
  ghost predicate DrawnFirst(queues: seq<seq<Header>>, selected: seq<Header>, bosses: set<string>)
    requires |queues| == BUCKETS
  {
    forall x, y :: x in selected && y in queues[x.bucket] ==> NotAfter(bosses, x, y)
  }

  lemma DrawKeepsOrder(queues: seq<seq<Header>>, selected: seq<Header>, bosses: set<string>, b: nat,
                       skipped: seq<Header>, picked: Header, rest: seq<Header>)
    requires |queues| == BUCKETS && b < BUCKETS && queues[b] == skipped + [picked] + rest && picked.bucket == b
    requires QueuesRanked(queues, bosses) && DrawnFirst(queues, selected, bosses)
    ensures QueuesRanked(queues[b := rest], bosses) && DrawnFirst(queues[b := rest], selected + [picked], bosses)
  {
    hide NotAfter;
    var queue := queues[b];
    assert Ranked(queue, bosses);
    assert queue[|skipped|] == picked && queue[|skipped| + 1..] == rest;
    assert forall k :: 0 <= k < |rest| ==> rest[k] == queue[|skipped| + 1 + k];
  }

  // ----- The whole selection -----

  ghost predicate Spare(h: Header, selected: seq<Header>, cap: int, bosses: set<string>) {
    h.sender in bosses || CountBy(selected, Sender(h.sender)) < cap
  }

  ghost predicate GoodSelection(reps: seq<Header>, target: int, bosses: set<string>, selected: seq<Header>) {
    var cap := SenderCap(target);
    && |selected| <= (if target > 0 then target else 0)
    && multiset(selected) <= multiset(reps)
    && (forall name :: name !in bosses ==> CountBy(selected, Sender(name)) <= cap)
    && (forall h :: h in reps && h !in selected && Spare(h, selected, cap, bosses) ==> |selected| >= target)
    && (forall h, c: nat :: h in reps && h !in selected && Spare(h, selected, cap, bosses) && c < BUCKETS ==>
          CountBy(selected, InBucket(c)) <= CountBy(selected, InBucket(h.bucket)) + 1)
    && (forall h, x ::
          h in reps && h !in selected && Spare(h, selected, cap, bosses) && x in selected && x.bucket == h.bucket ==>
          NotAfter(bosses, x, h))
  }

  ghost predicate Fair(queues: seq<seq<Header>>, selected: seq<Header>)
    requires |queues| == BUCKETS
  {
    exists round: nat, k: nat :: k <= BUCKETS && Level(queues, selected, round, k)
  }

  /** A message that is neither selected nor capped is still queued. */
  lemma SpareIsQueued(reps: seq<Header>, queues: seq<seq<Header>>, selected: seq<Header>, dropped: seq<Header>,
                      counts: map<string, nat>, cap: int, bosses: set<string>, h: Header)
    requires Balanced(reps, queues, selected, dropped, counts, cap, bosses)
    requires h in reps && h !in selected && Spare(h, selected, cap, bosses)
    ensures |queues| == BUCKETS && h in queues[h.bucket] && h in Pool(queues)
  {
    hide CountBy, Pool;
    assert h in multiset(reps);
    assert h in dropped ==> AtCap(h, counts, cap, bosses);
    var b := PoolMember(queues, h);
  }

  lemma EndIsGood(reps: seq<Header>, queues: seq<seq<Header>>, selected: seq<Header>, dropped: seq<Header>,
                  counts: map<string, nat>, target: int, bosses: set<string>)
    requires Balanced(reps, queues, selected, dropped, counts, SenderCap(target), bosses)
    requires |queues| == BUCKETS && Fair(queues, selected) && DrawnFirst(queues, selected, bosses)
    requires |selected| <= if target > 0 then target else 0
    requires |selected| < target ==> forall b :: 0 <= b < BUCKETS ==> queues[b] == []
    ensures GoodSelection(reps, target, bosses, selected)
  {
    hide CountBy, Pool, NotAfter, SenderCap;
    var cap := SenderCap(target);
    forall h | h in reps && h !in selected && Spare(h, selected, cap, bosses)
      ensures h in queues[h.bucket] && |selected| >= target
    {
      SpareIsQueued(reps, queues, selected, dropped, counts, cap, bosses, h);
    }
    var round: nat, k: nat :| k <= BUCKETS && Level(queues, selected, round, k);
    assert forall name :: On(counts, name) == CountBy(selected, Sender(name));
  }

  /** Sorting the result by UID changes none of this. */
  lemma SortedIsGood(reps: seq<Header>, target: int, bosses: set<string>, selected: seq<Header>, sorted: seq<Header>)
    requires GoodSelection(reps, target, bosses, selected) && multiset(selected) == multiset(sorted)
    ensures GoodSelection(reps, target, bosses, sorted)
  {
    hide CountBy, NotAfter, SenderCap;
    forall key: Key ensures CountBy(sorted, key) == CountBy(selected, key) {
      CountByIgnoresOrder(selected, sorted, key);
    }
    assert |selected| == |multiset(selected)| == |sorted|;
    assert forall h :: h in selected <==> h in multiset(selected);
    assert forall h :: h in sorted <==> h in multiset(sorted);
  }

  method SelectCandidates(headers: seq<Header>, target: int, bosses: set<string>)
      returns (selected: seq<Header>, ghost reps: seq<Header>)
    ensures BestOfThreads(headers, reps, bosses)
    ensures GoodSelection(reps, target, bosses, selected)
    ensures Sorted(selected, OlderFirst())
  {
    hide Balanced, Level, DrawnFirst, QueuesRanked, BestOfThreads, GoodSelection, AtCap, NotAfter, SenderCap;
    var representatives := Representatives(headers, bosses);
    reps := representatives;
    var queues := Shelve(representatives, bosses);
    selected := [];
    ghost var dropped: seq<Header> := [];
    var counts: map<string, nat> := map[];
    var cap := SenderCap(target);
    ghost var round := 0;
    assert cap >= 40 by { CapIsPositive(target); }
    StartIsBalanced(reps, queues, cap, bosses);
    var exhausted := false;
    while |selected| < target && !exhausted
      invariant |queues| == BUCKETS && |selected| <= if target > 0 then target else 0
      invariant Balanced(reps, queues, selected, dropped, counts, cap, bosses)
      invariant QueuesRanked(queues, bosses) && DrawnFirst(queues, selected, bosses)
      invariant Fair(queues, selected)
      invariant |selected| < target ==> Level(queues, selected, round, 0)
      invariant exhausted ==> forall b :: 0 <= b < BUCKETS ==> queues[b] == []
      decreases target - |selected|, !exhausted
    {
      var madeProgress, bucket := false, 0;
      ghost var before := |selected|;
      while bucket < BUCKETS && |selected| < target
        invariant 0 <= bucket <= BUCKETS
        invariant |queues| == BUCKETS && before <= |selected| <= target
        invariant Balanced(reps, queues, selected, dropped, counts, cap, bosses)
        invariant QueuesRanked(queues, bosses) && DrawnFirst(queues, selected, bosses)
        invariant Level(queues, selected, round, bucket)
        invariant madeProgress <==> |selected| > before
        invariant !madeProgress ==> forall b :: 0 <= b < bucket ==> queues[b] == []
        decreases BUCKETS - bucket
      {
        ghost var queue := queues[bucket];
        var picked, rest, skipped := Draw(queues[bucket], counts, cap, bosses);
        if picked.Some? {
          DrawKeepsBalance(reps, queues, selected, dropped, counts, cap, bosses, bucket, skipped, picked.value, rest);
          DrawKeepsOrder(queues, selected, bosses, bucket, skipped, picked.value, rest);
          LevelAfterDraw(queues, selected, round, bucket, picked.value, rest);
          dropped := dropped + skipped;
          selected := selected + [picked.value];
          counts := counts[picked.value.sender := On(counts, picked.value.sender) + 1];
          madeProgress := true;
        } else {
          assert skipped == queues[bucket];
          SkipKeepsBalance(reps, queues, selected, dropped, counts, cap, bosses, bucket);
          SkipKeepsOrder(queues, selected, bosses, round, bucket);
          dropped := dropped + skipped;
        }
        queues := queues[bucket := rest];
        bucket := bucket + 1;
      }
      assert Fair(queues, selected);
      if !madeProgress {
        exhausted := true;
      }
      if bucket == BUCKETS {
        NextRound(queues, selected, round);
        round := round + 1;
      }
    }
    EndIsGood(reps, queues, selected, dropped, counts, target, bosses);
    OldestIsOrder();
    var sorted := Sort(selected, OlderFirst());
    SortedIsGood(reps, target, bosses, selected, sorted);
    selected := sorted;
  }

  lemma CapIsPositive(target: int)
    ensures SenderCap(target) >= 40
  {
  }

  lemma StartIsBalanced(reps: seq<Header>, queues: seq<seq<Header>>, cap: int, bosses: set<string>)
    requires Shelved(queues) && Pool(queues) == multiset(reps) && cap >= 0
    ensures Balanced(reps, queues, [], [], map[], cap, bosses) && DrawnFirst(queues, [], bosses)
    ensures Level(queues, [], 0, 0) && Fair(queues, [])
  {
    hide Pool;
    assert Level(queues, [], 0, 0);
  }

  lemma SkipKeepsOrder(queues: seq<seq<Header>>, selected: seq<Header>, bosses: set<string>, round: nat, b: nat)
    requires |queues| == BUCKETS && b < BUCKETS
    requires QueuesRanked(queues, bosses) && DrawnFirst(queues, selected, bosses) && Level(queues, selected, round, b)
    ensures QueuesRanked(queues[b := []], bosses) && DrawnFirst(queues[b := []], selected, bosses)
    ensures Level(queues[b := []], selected, round, b + 1)
  {
    hide NotAfter, CountBy;
  }

  lemma NextRound(queues: seq<seq<Header>>, selected: seq<Header>, round: nat)
    requires |queues| == BUCKETS && Level(queues, selected, round, BUCKETS)
    ensures Level(queues, selected, round + 1, 0)
  {
    hide CountBy;
  }

  lemma OldestIsOrder()
    ensures TotalPreorder(OlderFirst())
  {
  }

  lemma SelectedAreDistinct(reps: seq<Header>, selected: seq<Header>)
    requires OneEach(reps) && multiset(selected) <= multiset(reps)
    ensures OneEach(selected) && forall s :: s in selected ==> s in reps
  {
    forall s | s in selected ensures s in reps {
      assert s in multiset(selected) && s in multiset(reps);
    }
    DistinctIsMultiplicityOne(reps);
    assert Distinct(reps);
    forall s | s in selected ensures multiset(selected)[s] == 1 {
      assert s in multiset(selected) && multiset(reps)[s] == 1;
    }
    DistinctIsMultiplicityOne(selected);
    forall i, j | 0 <= i < j < |selected| ensures selected[i].threadKey != selected[j].threadKey {
      assert selected[i] != selected[j] && selected[i] in reps && selected[j] in reps;
      OneOfThread(reps, selected[i], selected[j]);
    }
  }

  lemma OneOfThread(reps: seq<Header>, s: Header, t: Header)
    requires OneEach(reps) && s in reps && t in reps
    ensures s.threadKey == t.threadKey ==> s == t
  {
  }

  /** One message a thread, and no eligible message of that thread is better. */
  lemma SelectedIsBestOfThread(headers: seq<Header>, reps: seq<Header>, target: int, bosses: set<string>,
      selected: seq<Header>)
    requires BestOfThreads(headers, reps, bosses) && GoodSelection(reps, target, bosses, selected)
    ensures OneEach(selected)
    ensures forall s, h :: s in selected && h in headers && Eligible(h) && h.threadKey == s.threadKey ==>
      NotAfter(bosses, s, h)
  {
    hide CountBy, NotAfter, SenderCap, Spare;
    SelectedAreDistinct(reps, selected);
    hide GoodSelection;
    forall s, h | s in selected && h in headers && Eligible(h) && h.threadKey == s.threadKey
      ensures NotAfter(bosses, s, h)
    {
      assert Represented(reps, h, bosses);
      var i :| 0 <= i < |reps| && reps[i].threadKey == h.threadKey && NotAfter(bosses, reps[i], h);
      assert s in reps;
    }
  }

  // ----- The selection, reason by reason -----

  /** A message of the company to a customer outside it, in a conversation, neither bulk nor internal. */
  predicate IsReplyOfCompany(h: Header) {
    && h.score >= 8 && "external_customer_recipient" in h.reasons
    && ("boss_sender" in h.reasons || "company_sender" in h.reasons)
    && ("thread_headers" in h.reasons || "reply_subject" in h.reasons)
    && !("automated_or_bulk" in h.reasons || "internal_only" in h.reasons)
  }

  /** No marked sender is put behind another; of equally marked ones the score decides, and then the age. */
  predicate IsAhead(bosses: set<string>, a: Header, b: Header) {
    || (a.sender in bosses && b.sender !in bosses)
    || ((a.sender in bosses <==> b.sender in bosses) && (a.score > b.score || (a.score == b.score && a.uid >= b.uid)))
  }

  /** A quarter of the target, rounded down, but never less than forty. */
  predicate IsCap(target: int, cap: int) {
    cap >= 40 && 4 * cap <= (if target >= 160 then target else 160) < 4 * cap + 4
  }

  lemma CapIsShare(target: int, cap: int)
    ensures IsCap(target, cap) <==> cap == SenderCap(target)
  {
  }

  /** The messages selected are replies of the company, one a thread and the best of it; a message that could
      still be taken and was not is the end of a full selection, and follows all those taken from its bucket. */
  lemma SelectionIsSound(headers: seq<Header>, reps: seq<Header>, target: int, bosses: set<string>,
      selected: seq<Header>, cap: int)
    requires BestOfThreads(headers, reps, bosses) && GoodSelection(reps, target, bosses, selected)
    requires IsCap(target, cap)
    ensures forall s :: s in selected ==> s in headers && IsReplyOfCompany(s)
    ensures forall s, h :: s in selected && h in headers && IsReplyOfCompany(h) && h.threadKey == s.threadKey ==>
      IsAhead(bosses, s, h)
    ensures forall name :: name !in bosses ==> CountBy(selected, Sender(name)) <= cap
    ensures |selected| <= (if target > 0 then target else 0)
    ensures forall h ::
      (h in headers && IsReplyOfCompany(h) && Unseen(selected, h.threadKey)
       && (h.sender in bosses || CountBy(selected, Sender(h.sender)) < cap)) ==>
      |selected| >= target || Outranked(headers, h, bosses)
    ensures forall h, x ::
      (h in reps && h !in selected && (h.sender in bosses || CountBy(selected, Sender(h.sender)) < cap)
       && x in selected && x.bucket == h.bucket) ==>
      IsAhead(bosses, x, h)
  {
    CapIsShare(target, cap);
    assert forall h :: IsReplyOfCompany(h) <==> Eligible(h);
    assert forall a, b :: IsAhead(bosses, a, b) <==> NotAfter(bosses, a, b);
    SelectedIsBestOfThread(headers, reps, target, bosses, selected);
    SelectedAreDistinct(reps, selected);
    hide CountBy, NotAfter, IsAhead, Eligible, IsReplyOfCompany, SenderCap, IsCap;
    forall h | h in headers && IsReplyOfCompany(h) && Unseen(selected, h.threadKey)
        && (h.sender in bosses || CountBy(selected, Sender(h.sender)) < cap)
      ensures |selected| >= target || Outranked(headers, h, bosses)
    {
      assert Represented(reps, h, bosses);
      var i :| 0 <= i < |reps| && reps[i].threadKey == h.threadKey && NotAfter(bosses, reps[i], h);
      assert reps[i] in reps && reps[i] !in selected;
      if reps[i] == h { assert Spare(h, selected, cap, bosses); }
    }
  }

  predicate Unseen(selected: seq<Header>, threadKey: string) {
    forall s :: s in selected ==> s.threadKey != threadKey
  }

  /** Another reply of its thread goes before it. */
  ghost predicate Outranked(headers: seq<Header>, h: Header, bosses: set<string>) {
    exists other :: other in headers && other != h && IsReplyOfCompany(other) && other.threadKey == h.threadKey
      && IsAhead(bosses, other, h)
  }
}
