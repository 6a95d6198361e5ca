/** Greedy request/response matching inside one time-sorted thread of `app/rag_history.py`. */
module ThreadPairing {
  import opened Options
  import opened HistoricalEmails
  import opened Times

  datatype Verdict = Paired | DuplicateBody | LowQuality

  /** A response and the request it consumed, by position in the thread. */
  datatype Match = Match(request: nat, response: nat, direct: bool, score: int, verdict: Verdict)

  type BodyKey = (string, string)

  datatype Rules = Rules(minimumQuality: int, maximumDelay: int)

  // ----- Who may answer whom -----

  predicate LiveInbound(record: HistoricalEmail) {
    record.exclusionReasons == [] && record.direction == Inbound
  }

  predicate LiveOutbound(record: HistoricalEmail) {
    record.exclusionReasons == [] && record.direction == Outbound && record.occurredAt.Some?
  }

  predicate Eligible(request: HistoricalEmail, response: HistoricalEmail, rules: Rules)
    requires response.occurredAt.Some?
  {
    && request.occurredAt.Some?
    && request.customerKey == response.customerKey
    && request.occurredAt.value <= response.occurredAt.value
    && response.occurredAt.value - request.occurredAt.value <= rules.maximumDelay
  }

  predicate DirectReply(request: HistoricalEmail, response: HistoricalEmail) {
    Truthy(request.messageId)
    && (response.inReplyTo == request.messageId || request.messageId.value in response.references)
  }

  function BodyKeyOf(request: HistoricalEmail, response: HistoricalEmail): BodyKey {
    (request.bodyFingerprint, response.bodyFingerprint)
  }

  /** The additive score; the final clamp to 0..100 never changes it. */
  function Quality(request: HistoricalEmail, response: HistoricalEmail, direct: bool): (score: int)
    ensures 15 <= score <= 95
  {
    var link := if direct then 15
      else if Truthy(request.messageId) && request.messageId.value in response.references then 10 else 0;
    var subject := if request.normalizedSubject == response.normalizedSubject then 5 else 0;
    var substance := if |request.bodyText| >= 40 && |response.bodyText| >= 40 then 5 else 0;
    var shortness := (if |request.bodyText| < 15 then 20 else 0) + (if |response.bodyText| < 15 then 20 else 0);
    var timing :=
      if request.occurredAt.None? || response.occurredAt.None? then 0
      else
        var delay := response.occurredAt.value - request.occurredAt.value;
        if delay <= 7 * DAY then 5 else if delay > 30 * DAY then -10 else 0;
    var raw := 65 + link + subject + substance - shortness + timing;
    if raw > 100 then 100 else if raw < 0 then 0 else raw
  }

  /** The response came more than `days` days after the request. */
  predicate LaterThan(request: HistoricalEmail, response: HistoricalEmail, days: nat) {
    request.occurredAt.Some? && response.occurredAt.Some?
    && response.occurredAt.value - request.occurredAt.value > 86400 * days
  }

  predicate Dated(request: HistoricalEmail, response: HistoricalEmail) {
    request.occurredAt.Some? && response.occurredAt.Some?
  }

  /** The response names the request in its References. */
  predicate CarriesReference(request: HistoricalEmail, response: HistoricalEmail) {
    request.messageId.Some? && request.messageId.value != "" && request.messageId.value in response.references
  }

  predicate SameSubject(request: HistoricalEmail, response: HistoricalEmail) {
    request.normalizedSubject == response.normalizedSubject
  }

  /** At the default threshold of 60: two short bodies never pass; one short body passes only when the response
      is linked by Message-ID and nothing else speaks against it; without a short body a match passes
      unless it came after 30 days with nothing but the customer and the time in its favour. */
  lemma QualityAtDefault(request: HistoricalEmail, response: HistoricalEmail, direct: bool)
    ensures |request.bodyText| < 15 && |response.bodyText| < 15 ==> Quality(request, response, direct) < 60
    ensures (|request.bodyText| < 15 <==> |response.bodyText| >= 15) ==>
      (Quality(request, response, direct) >= 60 <==>
        || (direct && !LaterThan(request, response, 30))
        || (!direct && CarriesReference(request, response)
            && Dated(request, response) && !LaterThan(request, response, 7))
        || (!direct && CarriesReference(request, response)
            && SameSubject(request, response) && !LaterThan(request, response, 30)))
    ensures |request.bodyText| >= 15 && |response.bodyText| >= 15 ==>
      (Quality(request, response, direct) < 60 <==>
        && LaterThan(request, response, 30)
        && !direct && !CarriesReference(request, response) && !SameSubject(request, response)
        && (|request.bodyText| < 40 || |response.bodyText| < 40))
  {
  }

  /** Scores move in fives, and only the best and the worst match reach the ends of the range. */
  lemma QualityEnds(request: HistoricalEmail, response: HistoricalEmail, direct: bool)
    ensures Quality(request, response, direct) % 5 == 0
    ensures Quality(request, response, direct) == 95 <==>
      && direct && SameSubject(request, response) && |request.bodyText| >= 40 && |response.bodyText| >= 40
      && Dated(request, response) && !LaterThan(request, response, 7)
    ensures Quality(request, response, direct) == 15 <==>
      && !direct && !CarriesReference(request, response) && !SameSubject(request, response)
      && |request.bodyText| < 15 && |response.bodyText| < 15 && LaterThan(request, response, 30)
  {
  }

  // ----- The choice among unused requests -----

  function EligibleOf(thread: seq<HistoricalEmail>, unused: seq<nat>, response: HistoricalEmail,
      rules: Rules): (r: seq<nat>)
    requires response.occurredAt.Some? && forall k :: 0 <= k < |unused| ==> unused[k] < |thread|
    ensures forall u :: u in r <==> u in unused && Eligible(thread[u], response, rules)
    ensures Ascending(unused) ==> Ascending(r)
  {
    if unused == [] then []
    else
      var init, last := unused[..|unused| - 1], unused[|unused| - 1];
      assert unused == init + [last];
      LastIsGreatest(unused);
      var rest := EligibleOf(thread, init, response, rules);
      assert forall k :: 0 <= k < |rest| ==> rest[k] in init;
      if Eligible(thread[last], response, rules) then rest + [last] else rest
  }

  function DirectOf(thread: seq<HistoricalEmail>, unused: seq<nat>, response: HistoricalEmail): (r: seq<nat>)
    requires forall k :: 0 <= k < |unused| ==> unused[k] < |thread|
    ensures forall u :: u in r <==> u in unused && DirectReply(thread[u], response)
    ensures Ascending(unused) ==> Ascending(r)
  {
    if unused == [] then []
    else
      var init, last := unused[..|unused| - 1], unused[|unused| - 1];
      assert unused == init + [last];
      LastIsGreatest(unused);
      var rest := DirectOf(thread, init, response);
      assert forall k :: 0 <= k < |rest| ==> rest[k] in init;
      if DirectReply(thread[last], response) then rest + [last] else rest
  }

  ghost predicate Ascending(s: seq<nat>) {
    forall j, k :: 0 <= j < k < |s| ==> s[j] < s[k]
  }

  lemma LastIsGreatest(s: seq<nat>)
    requires s != []
    ensures Ascending(s) ==> Ascending(s[..|s| - 1]) && forall k :: 0 <= k < |s| - 1 ==> s[k] < s[|s| - 1]
  {
  }

  /** The first of the latest candidates, as Python's `max` picks it. */
  method FirstLatest(thread: seq<HistoricalEmail>, candidates: seq<nat>) returns (best: nat)
    requires candidates != [] && forall k :: 0 <= k < |candidates| ==> candidates[k] < |thread|
    requires Ascending(candidates)
    ensures best in candidates
    ensures forall c :: c in candidates ==> TimeKey(thread[c]) <= TimeKey(thread[best])
    ensures forall c :: c in candidates && c < best ==> TimeKey(thread[c]) < TimeKey(thread[best])
  {
    best := candidates[0];
    for k := 1 to |candidates|
      invariant best in candidates[..k]
      invariant forall j :: 0 <= j < k ==> TimeKey(thread[candidates[j]]) <= TimeKey(thread[best])
      invariant forall j :: 0 <= j < k && candidates[j] < best ==>
        TimeKey(thread[candidates[j]]) < TimeKey(thread[best])
    {
      if TimeKey(thread[candidates[k]]) > TimeKey(thread[best]) { best := candidates[k]; }
    }
  }

  /** `list.remove`: drops the first entry whose record equals the given one, and says which. */
  method RemoveFirstEqual(thread: seq<HistoricalEmail>, unused: seq<nat>, record: HistoricalEmail)
      returns (rest: seq<nat>, removed: nat)
    requires forall k :: 0 <= k < |unused| ==> unused[k] < |thread|
    requires exists k :: 0 <= k < |unused| && thread[unused[k]] == record
    ensures removed < |unused| && thread[unused[removed]] == record
    ensures forall k :: 0 <= k < removed ==> thread[unused[k]] != record
    ensures rest == unused[..removed] + unused[removed + 1..]
  {
    var k := 0;
    while thread[unused[k]] != record
      invariant 0 <= k < |unused|
      invariant forall j :: 0 <= j < k ==> thread[unused[j]] != record
      decreases |unused| - k
    {
      k := k + 1;
    }
    rest, removed := unused[..k] + unused[k + 1..], k;
  }

  // ----- What the greedy pass guarantees -----

  ghost predicate Matched(matches: seq<Match>, n: nat, request: nat)
    requires n <= |matches|
  {
    exists k :: 0 <= k < n && matches[k].request == request
  }

  ghost predicate Answered(matches: seq<Match>, response: nat) {
    exists k :: 0 <= k < |matches| && matches[k].response == response
  }

  /** A match is causal, in time, for one customer, and is scored by the rules. */
  ghost predicate GoodMatch(thread: seq<HistoricalEmail>, m: Match, rules: Rules) {
    && m.request < m.response < |thread|
    && LiveInbound(thread[m.request]) && LiveOutbound(thread[m.response])
    && Eligible(thread[m.request], thread[m.response], rules)
    && (m.direct <==> DirectReply(thread[m.request], thread[m.response]))
    && m.score == Quality(thread[m.request], thread[m.response], m.direct)
    && (m.verdict == Paired ==> m.score >= rules.minimumQuality)
    && (m.verdict == LowQuality ==> m.score < rules.minimumQuality)
  }

  /** Among the requests still free, a direct reply is preferred, then the latest. */
  ghost predicate BestChoice(thread: seq<HistoricalEmail>, matches: seq<Match>, k: nat, rules: Rules)
    requires k < |matches| && GoodMatch(thread, matches[k], rules)
  {
    forall i ::
      (0 <= i < matches[k].response && LiveInbound(thread[i]) && !Matched(matches, k, i)
       && Eligible(thread[i], thread[matches[k].response], rules)) ==>
      && (DirectReply(thread[i], thread[matches[k].response]) ==> matches[k].direct)
      && ((matches[k].direct ==> DirectReply(thread[i], thread[matches[k].response])) ==>
            TimeKey(thread[i]) <= TimeKey(thread[matches[k].request]))
  }

  ghost predicate OneToOne(matches: seq<Match>) {
    forall j, k :: 0 <= j < k < |matches| ==>
      matches[j].request != matches[k].request && matches[j].response < matches[k].response
  }

  /** A live response without a match has no eligible free request before it. */
  ghost predicate NothingMissed(thread: seq<HistoricalEmail>, matches: seq<Match>, n: nat, rules: Rules)
    requires n <= |thread|
  {
    forall i, o ::
      (0 <= i < o < n && LiveOutbound(thread[o]) && !Answered(matches, o)
       && LiveInbound(thread[i]) && !Matched(matches, |matches|, i)) ==>
      !Eligible(thread[i], thread[o], rules)
  }

  ghost predicate GreedyMatching(thread: seq<HistoricalEmail>, matches: seq<Match>, n: nat, rules: Rules)
    requires n <= |thread|
  {
    && (forall k :: 0 <= k < |matches| ==> GoodMatch(thread, matches[k], rules) && matches[k].response < n)
    && (forall k :: 0 <= k < |matches| ==> BestChoice(thread, matches, k, rules))
    && OneToOne(matches)
    && NothingMissed(thread, matches, n, rules)
  }

  /** Without a direct link, two matches of one customer can only cross when both requests
      carry the same instant; with distinct instants matches never cross. */
  lemma CrossingIsSimultaneous(thread: seq<HistoricalEmail>, matches: seq<Match>, rules: Rules, j: nat, k: nat)
    requires GreedyMatching(thread, matches, |thread|, rules) && j < k < |matches|
    requires forall a, b :: 0 <= a < b < |thread| ==> TimeKey(thread[a]) <= TimeKey(thread[b])
    requires !matches[j].direct
    requires thread[matches[j].request].customerKey == thread[matches[k].request].customerKey
    ensures matches[j].request < matches[k].request < matches[j].response ==>
      thread[matches[j].request].occurredAt == thread[matches[k].request].occurredAt
  {
    hide NothingMissed, Quality;
    var i, o := matches[k].request, matches[j].response;
    if matches[j].request < i < o {
      assert BestChoice(thread, matches, j, rules);
      assert GoodMatch(thread, matches[j], rules) && GoodMatch(thread, matches[k], rules);
      assert forall h :: 0 <= h < j ==> matches[h].request != matches[k].request;
      assert TimeKey(thread[matches[j].request]) <= TimeKey(thread[i]) <= TimeKey(thread[o]);
      assert Eligible(thread[i], thread[o], rules);
    }
  }

  /** The first names the second in In-Reply-To or References, by a Message-ID the second has. */
  ghost predicate RepliesTo(response: HistoricalEmail, request: HistoricalEmail) {
    exists id :: id != "" && request.messageId == Some(id)
      && (response.inReplyTo == Some(id) || id in response.references)
  }

  /** The request was there before the response, from the same customer, and not too long before. */
  predicate InReach(request: HistoricalEmail, response: HistoricalEmail, maximumDelay: int) {
    request.occurredAt.Some? && response.occurredAt.Some? && request.customerKey == response.customerKey
    && 0 <= response.occurredAt.value - request.occurredAt.value <= maximumDelay
  }

  ghost predicate Kept(record: HistoricalEmail, direction: Direction) {
    |record.exclusionReasons| == 0 && record.direction == direction
  }

  /** What a finished pass leaves: every match joins a kept request and a kept response in reach, direct exactly
      when the response names the request; it is refused for quality exactly below the threshold, unless its
      bodies were taken; and no free request is in reach of a later response without a match. */
  lemma MatchesAreInReach(thread: seq<HistoricalEmail>, matches: seq<Match>, rules: Rules)
    requires GreedyMatching(thread, matches, |thread|, rules)
    ensures forall k :: 0 <= k < |matches| ==>
      matches[k].request < matches[k].response < |thread|
    ensures forall k :: 0 <= k < |matches| ==>
      var request, response := thread[matches[k].request], thread[matches[k].response];
      && Kept(request, Inbound) && Kept(response, Outbound) && InReach(request, response, rules.maximumDelay)
      && (matches[k].direct <==> RepliesTo(response, request))
    ensures forall k :: 0 <= k < |matches| && matches[k].verdict != DuplicateBody ==>
      (matches[k].verdict == Paired <==>
        Quality(thread[matches[k].request], thread[matches[k].response], matches[k].direct) >= rules.minimumQuality)
    ensures forall i, o ::
      (0 <= i < o < |thread| && Kept(thread[i], Inbound) && Kept(thread[o], Outbound)
       && InReach(thread[i], thread[o], rules.maximumDelay)) ==>
      exists k :: 0 <= k < |matches| && (matches[k].request == i || matches[k].response == o)
  {
    hide BestChoice, Quality;
    forall k | 0 <= k < |matches|
      ensures GoodMatch(thread, matches[k], rules)
      ensures matches[k].direct <==> RepliesTo(thread[matches[k].response], thread[matches[k].request])
    {
      DirectMeansReply(thread[matches[k].request], thread[matches[k].response]);
    }
    forall i, o | 0 <= i < o < |thread| && Kept(thread[i], Inbound) && Kept(thread[o], Outbound)
        && InReach(thread[i], thread[o], rules.maximumDelay)
      ensures Matched(matches, |matches|, i) || Answered(matches, o)
    {
      assert Eligible(thread[i], thread[o], rules);
    }
  }

  /** Taken by an earlier match. */
  ghost predicate TakenBefore(matches: seq<Match>, k: nat, request: nat) {
    exists j :: 0 <= j < k && j < |matches| && matches[j].request == request
  }

  /** No free request in reach was better than the one a match took: none was named by the response unless the one
      taken was, and none of the same standing was later. */
  lemma BestIsTaken(thread: seq<HistoricalEmail>, matches: seq<Match>, rules: Rules, k: nat, i: nat)
    requires GreedyMatching(thread, matches, |thread|, rules) && k < |matches|
    requires i < matches[k].response < |thread| && matches[k].request < |thread|
    requires Kept(thread[i], Inbound) && InReach(thread[i], thread[matches[k].response], rules.maximumDelay)
    requires !TakenBefore(matches, k, i)
    ensures var response, taken := thread[matches[k].response], thread[matches[k].request];
      && (RepliesTo(response, thread[i]) ==> RepliesTo(response, taken))
      && ((RepliesTo(response, thread[i]) <==> RepliesTo(response, taken)) ==>
            taken.occurredAt.Some? && thread[i].occurredAt.value <= taken.occurredAt.value)
  {
    assert GoodMatch(thread, matches[k], rules) && BestChoice(thread, matches, k, rules);
    DirectMeansReply(thread[i], thread[matches[k].response]);
    DirectMeansReply(thread[matches[k].request], thread[matches[k].response]);
    hide DirectReply, RepliesTo, Quality, NothingMissed;
    assert !Matched(matches, k, i);
    assert Eligible(thread[i], thread[matches[k].response], rules);
  }

  lemma DirectMeansReply(request: HistoricalEmail, response: HistoricalEmail)
    ensures DirectReply(request, response) <==> RepliesTo(response, request)
  {
    if DirectReply(request, response) {
      assert request.messageId.value != "" && request.messageId == Some(request.messageId.value);
    }
  }

  // ----- The pass -----

  /** The unused list holds exactly the live inbound messages no match has consumed. */
  ghost predicate Tracks(thread: seq<HistoricalEmail>, unused: seq<nat>, matches: seq<Match>, n: nat)
    requires n <= |thread|
  {
    && Ascending(unused)
    && forall i: nat :: i in unused <==> i < n && LiveInbound(thread[i]) && !Matched(matches, |matches|, i)
  }

  ghost predicate Used(thread: seq<HistoricalEmail>, matches: seq<Match>, key: BodyKey)
    requires forall k :: 0 <= k < |matches| ==> matches[k].request < |thread| && matches[k].response < |thread|
  {
    exists k ::
      0 <= k < |matches| && matches[k].verdict == Paired
      && BodyKeyOf(thread[matches[k].request], thread[matches[k].response]) == key
  }

  /** `seen` is what was seen before plus the body pairs of the accepted matches, all distinct. */
  ghost predicate KeysOf(thread: seq<HistoricalEmail>, matches: seq<Match>, before: set<BodyKey>, seen: set<BodyKey>)
    requires forall k :: 0 <= k < |matches| ==> matches[k].request < |thread| && matches[k].response < |thread|
  {
    && before <= seen
    && (forall key :: key in seen ==> key in before || Used(thread, matches, key))
    && (forall k :: 0 <= k < |matches| ==>
          var key := BodyKeyOf(thread[matches[k].request], thread[matches[k].response]);
          && (matches[k].verdict == Paired ==> key in seen && key !in before)
          && (matches[k].verdict == DuplicateBody ==> key in seen))
    && (forall j, k :: 0 <= j < k < |matches| && matches[j].verdict == Paired && matches[k].verdict == Paired ==>
          BodyKeyOf(thread[matches[j].request], thread[matches[j].response])
            != BodyKeyOf(thread[matches[k].request], thread[matches[k].response]))
  }

  lemma FirstEqualIsChosen(thread: seq<HistoricalEmail>, unused: seq<nat>, removed: nat, best: nat)
    requires Ascending(unused) && forall k :: 0 <= k < |unused| ==> unused[k] < |thread|
    requires removed < |unused| && best in unused && thread[unused[removed]] == thread[best]
    requires forall k :: 0 <= k < removed ==> thread[unused[k]] != thread[best]
    requires forall c :: c in unused && c < best ==> thread[c] != thread[best]
    ensures unused[removed] == best
    ensures Ascending(unused[..removed] + unused[removed + 1..])
    ensures forall u :: u in unused[..removed] + unused[removed + 1..] <==> u in unused && u != best
  {
    var at :| 0 <= at < |unused| && unused[at] == best;
    assert removed <= at;
    assert unused[removed] in unused;
    var rest := unused[..removed] + unused[removed + 1..];
    forall u
      ensures u in rest <==> u in unused && u != best
    {
      if u in unused && u != best {
        var k :| 0 <= k < |unused| && unused[k] == u;
        if k < removed { assert rest[k] == u; } else { assert rest[k - 1] == u; }
      }
    }
  }

  lemma BestChoiceKept(thread: seq<HistoricalEmail>, matches: seq<Match>, m: Match, k: nat, rules: Rules)
    requires k < |matches| && GoodMatch(thread, matches[k], rules) && BestChoice(thread, matches, k, rules)
    ensures BestChoice(thread, matches + [m], k, rules)
  {
    hide Quality, Eligible, DirectReply;
    var more := matches + [m];
    assert more[k] == matches[k];
    forall i
      ensures Matched(more, k, i) <==> Matched(matches, k, i)
    {
      assert forall h :: 0 <= h < k ==> more[h] == matches[h];
    }
  }

  lemma NothingMissedKept(thread: seq<HistoricalEmail>, matches: seq<Match>, m: Match, n: nat, rules: Rules)
    requires n < |thread| && NothingMissed(thread, matches, n, rules) && m.response == n
    ensures NothingMissed(thread, matches + [m], n + 1, rules)
  {
    hide Eligible;
    var more := matches + [m];
    forall i, o | 0 <= i < o < n + 1 && LiveOutbound(thread[o]) && !Answered(more, o)
        && LiveInbound(thread[i]) && !Matched(more, |more|, i)
      ensures !Eligible(thread[i], thread[o], rules)
    {
      assert more[|matches|].response == n;
      assert !Answered(matches, o) by {
        forall k | 0 <= k < |matches| ensures matches[k].response != o { assert more[k] == matches[k]; }
      }
      assert !Matched(matches, |matches|, i) by {
        forall k | 0 <= k < |matches| ensures matches[k].request != i { assert more[k] == matches[k]; }
      }
    }
  }

  lemma MatchAppended(thread: seq<HistoricalEmail>, matches: seq<Match>, m: Match, n: nat, rules: Rules)
    requires n < |thread| && GreedyMatching(thread, matches, n, rules)
    requires GoodMatch(thread, m, rules) && m.response == n && !Matched(matches, |matches|, m.request)
    requires BestChoice(thread, matches + [m], |matches|, rules)
    ensures GreedyMatching(thread, matches + [m], n + 1, rules)
  {
    var more := matches + [m];
    forall k | 0 <= k < |matches|
      ensures BestChoice(thread, more, k, rules) && matches[k].request != m.request
    {
      BestChoiceKept(thread, matches, m, k, rules);
    }
    NothingMissedKept(thread, matches, m, n, rules);
    hide GoodMatch, BestChoice, NothingMissed, LiveInbound, LiveOutbound;
  }

  lemma NothingAppended(thread: seq<HistoricalEmail>, matches: seq<Match>, n: nat, rules: Rules)
    requires n < |thread| && GreedyMatching(thread, matches, n, rules)
    requires LiveOutbound(thread[n]) ==> forall i ::
      0 <= i < n && LiveInbound(thread[i]) && !Matched(matches, |matches|, i) ==> !Eligible(thread[i], thread[n], rules)
    ensures GreedyMatching(thread, matches, n + 1, rules)
  {
  }

  lemma KeysAppended(thread: seq<HistoricalEmail>, matches: seq<Match>, m: Match, before: set<BodyKey>,
      seen: set<BodyKey>)
    requires forall k :: 0 <= k < |matches| ==> matches[k].request < |thread| && matches[k].response < |thread|
    requires m.request < |thread| && m.response < |thread|
    requires KeysOf(thread, matches, before, seen)
    requires var key := BodyKeyOf(thread[m.request], thread[m.response]);
      (m.verdict == Paired ==> key !in seen) && (m.verdict == DuplicateBody ==> key in seen)
    ensures KeysOf(thread, matches + [m], before,
      if m.verdict == Paired then seen + {BodyKeyOf(thread[m.request], thread[m.response])} else seen)
  {
    var more, key := matches + [m], BodyKeyOf(thread[m.request], thread[m.response]);
    forall other | other in seen && other !in before
      ensures Used(thread, more, other)
    {
      var k :| 0 <= k < |matches| && matches[k].verdict == Paired
        && BodyKeyOf(thread[matches[k].request], thread[matches[k].response]) == other;
      assert more[k] == matches[k];
    }
    assert more[|matches|] == m;
  }

  /** One greedy pass over a sorted thread, threading the set of body pairs already used. */
  method PairThread(thread: seq<HistoricalEmail>, rules: Rules, seenBefore: set<BodyKey>)
      returns (matches: seq<Match>, seen: set<BodyKey>)
    ensures GreedyMatching(thread, matches, |thread|, rules)
    ensures KeysOf(thread, matches, seenBefore, seen)
  {
    matches, seen := [], seenBefore;
    var unused: seq<nat> := [];
    for n := 0 to |thread|
      invariant GreedyMatching(thread, matches, n, rules)
      invariant KeysOf(thread, matches, seenBefore, seen)
      invariant Tracks(thread, unused, matches, n)
    {
      var record := thread[n];
      if LiveInbound(record) {
        NothingAppended(thread, matches, n, rules);
        InboundTracked(thread, unused, matches, n);
        unused := unused + [n];
      } else if !LiveOutbound(record) {
        NothingAppended(thread, matches, n, rules);
      } else {
        var m, rest := AnswerWith(thread, rules, unused, matches, seen, n);
        if m.None? {
          NothingAppended(thread, matches, n, rules);
        } else {
          MatchAppended(thread, matches, m.value, n, rules);
          KeysAppended(thread, matches, m.value, seenBefore, seen);
          if m.value.verdict == Paired {
            seen := seen + {BodyKeyOf(thread[m.value.request], record)};
          }
          ConsumedTracked(thread, unused, rest, matches, m.value, n);
          matches, unused := matches + [m.value], rest;
        }
      }
    }
  }

  lemma InboundTracked(thread: seq<HistoricalEmail>, unused: seq<nat>, matches: seq<Match>, n: nat)
    requires n < |thread| && Tracks(thread, unused, matches, n) && LiveInbound(thread[n])
    requires forall k :: 0 <= k < |matches| ==> matches[k].request < matches[k].response < n
    ensures Tracks(thread, unused + [n], matches, n + 1)
  {
    assert forall k :: 0 <= k < |unused| ==> unused[k] in unused;
  }

  lemma ConsumedTracked(thread: seq<HistoricalEmail>, unused: seq<nat>, rest: seq<nat>, matches: seq<Match>, m: Match,
      n: nat)
    requires n < |thread| && Tracks(thread, unused, matches, n) && !LiveInbound(thread[n])
    requires Ascending(rest) && forall u :: u in rest <==> u in unused && u != m.request
    ensures Tracks(thread, rest, matches + [m], n + 1)
  {
    var more := matches + [m];
    forall i: nat
      ensures Matched(more, |more|, i) <==> Matched(matches, |matches|, i) || i == m.request
    {
      if Matched(matches, |matches|, i) {
        var k :| 0 <= k < |matches| && matches[k].request == i;
        assert more[k].request == i;
      }
      assert more[|matches|] == m;
    }
  }

  /** The request a response consumes, if any, and the requests left over. */
  method AnswerWith(thread: seq<HistoricalEmail>, rules: Rules, unused: seq<nat>, ghost matches: seq<Match>,
      seen: set<BodyKey>, n: nat) returns (m: Option<Match>, rest: seq<nat>)
    requires n < |thread| && LiveOutbound(thread[n])
    requires Tracks(thread, unused, matches, n)
    requires forall k :: 0 <= k < |matches| ==> matches[k].response < n
    ensures m.None? ==> rest == unused && forall i ::
      0 <= i < n && LiveInbound(thread[i]) && !Matched(matches, |matches|, i) ==> !Eligible(thread[i], thread[n], rules)
    ensures m.Some? ==>
      && GoodMatch(thread, m.value, rules) && m.value.response == n
      && !Matched(matches, |matches|, m.value.request)
      && BestChoice(thread, matches + [m.value], |matches|, rules)
      && Ascending(rest) && (forall u :: u in rest <==> u in unused && u != m.value.request)
      && (m.value.verdict == DuplicateBody <==> BodyKeyOf(thread[m.value.request], thread[n]) in seen)
  {
    hide Quality, BestChoice, Eligible, DirectReply;
    var record := thread[n];
    assert forall k :: 0 <= k < |unused| ==> unused[k] in unused;
    var eligible := EligibleOf(thread, unused, record, rules);
    if eligible == [] {
      forall i | 0 <= i < n && LiveInbound(thread[i]) && !Matched(matches, |matches|, i)
        ensures !Eligible(thread[i], record, rules)
      {
        assert i in unused;
        assert i !in eligible;
      }
      return None, unused;
    }
    assert forall k :: 0 <= k < |eligible| ==> eligible[k] in eligible;
    var direct := DirectOf(thread, eligible, record);
    assert forall k :: 0 <= k < |direct| ==> direct[k] in direct;
    var candidates := if direct != [] then direct else eligible;
    var best := FirstLatest(thread, candidates);
    var request := thread[best];
    var directReply := direct != [];
    var score := Quality(request, record, directReply);
    var verdict :=
      if BodyKeyOf(request, record) in seen then DuplicateBody
      else if score < rules.minimumQuality then LowQuality
      else Paired;
    m := Some(Match(best, n, directReply, score, verdict));
    var removed;
    rest, removed := RemoveFirstEqual(thread, unused, request);
    forall c | c in unused && c < best
      ensures thread[c] != thread[best]
    {
      assert thread[c] == thread[best] ==> c in candidates;
    }
    FirstEqualIsChosen(thread, unused, removed, best);
    ChoiceIsBest(thread, rules, unused, eligible, direct, matches, m.value);
  }

  lemma ChoiceIsBest(thread: seq<HistoricalEmail>, rules: Rules, unused: seq<nat>, eligible: seq<nat>, direct: seq<nat>,
      matches: seq<Match>, m: Match)
    requires GoodMatch(thread, m, rules) && Tracks(thread, unused, matches, m.response)
    requires forall u :: u in eligible <==>
      u in unused && u < |thread| && Eligible(thread[u], thread[m.response], rules)
    requires forall u :: u in direct <==> u in eligible && u < |thread| && DirectReply(thread[u], thread[m.response])
    requires m.direct <==> direct != []
    requires forall c :: c in (if direct != [] then direct else eligible) && c < |thread| ==>
      TimeKey(thread[c]) <= TimeKey(thread[m.request])
    ensures BestChoice(thread, matches + [m], |matches|, rules)
  {
    var more := matches + [m];
    assert more[|matches|] == m;
    forall i | 0 <= i < m.response && LiveInbound(thread[i]) && !Matched(more, |matches|, i)
        && Eligible(thread[i], thread[m.response], rules)
      ensures DirectReply(thread[i], thread[m.response]) ==> m.direct
      ensures (m.direct ==> DirectReply(thread[i], thread[m.response])) ==>
        TimeKey(thread[i]) <= TimeKey(thread[m.request])
    {
      assert !Matched(matches, |matches|, i) by {
        forall k | 0 <= k < |matches| ensures matches[k].request != i { assert more[k] == matches[k]; }
      }
      assert i in eligible;
    }
  }
}
