/** `GmailIMAPClient.fetch_after` of `app/mail.py`: one search, then a batch of fetches with
    up to three attempts each, stopped early by the byte budget or a dead connection. */
module ImapFetch {
  import opened Options

  datatype Message = Message(uid: nat, size: nat)

  /** Opening the folder, at first or after a lost connection. */
  datatype Opening = Unreachable | Refused | Opened(validity: nat)

  /** The answer to one FETCH. */
  datatype Reply = Lost | Body(size: nat)

  datatype Attempt = Attempt(reopening: Opening, reply: Reply)

  /** What attempt `1`, `2` or `3` (counted from zero) for each entry of the batch meets. */
  type Network = (nat, nat) -> Attempt

  const ATTEMPTS: nat := 3

  datatype Failure = SearchRejected | ConnectionLost | FolderRefused | ValidityChanged

  datatype Fetch = Fetched(validity: nat, highest: nat, messages: seq<Message>) | Failed(failure: Failure)

  // ----- The search -----

  ghost predicate Ascending(uids: seq<nat>) {
    forall i, j :: 0 <= i < j < |uids| ==> uids[i] < uids[j]
  }

  /** The reply to `UID n+1:*` may repeat UID n; the lower bound is enforced again here. */
  function Above(listed: seq<nat>, bound: nat): seq<nat> {
    if listed == [] then []
    else if listed[0] > bound then [listed[0]] + Above(listed[1..], bound)
    else Above(listed[1..], bound)
  }

  function HighestUid(uids: seq<nat>, default: nat): (highest: nat)
    ensures uids == [] ==> highest == default
    ensures uids != [] ==> highest in uids
    ensures forall u :: u in uids ==> u <= highest
  {
    if uids == [] then default
    else if |uids| == 1 then uids[0]
    else
      var rest := HighestUid(uids[1..], default);
      assert forall u :: u in uids ==> u == uids[0] || u in uids[1..];
      if uids[0] > rest then uids[0] else rest
  }

  function SearchAfter(last: nat, expected: Option<nat>, validity: nat): nat {
    if expected != None && expected != Some(validity) then 0 else last
  }

  lemma {:induction false} AboveIsFilter(listed: seq<nat>, bound: nat)
    ensures forall u :: u in Above(listed, bound) <==> u in listed && u > bound
    ensures Ascending(listed) ==> Ascending(Above(listed, bound))
  {
    if listed != [] {
      AboveIsFilter(listed[1..], bound);
      var rest := Above(listed[1..], bound);
      assert forall u :: u in listed <==> u == listed[0] || u in listed[1..];
      if Ascending(listed) {
        forall k | 0 <= k < |rest| ensures listed[0] < rest[k] {
          assert rest[k] in rest;
        }
      }
    }
  }

  // ----- One message -----

  /** How one attempt ends: the message, a retry, or an exception the loop does not catch. */
  datatype Tried = Got(size: nat) | Again | Fatal(failure: Failure)

  function Try(network: Network, index: nat, attempt: nat, validity: nat): Tried {
    var met := network(index, attempt);
    if attempt > 0 && met.reopening == Unreachable then Again
    else if attempt > 0 && met.reopening == Refused then Fatal(FolderRefused)
    else if attempt > 0 && met.reopening.validity != validity then Fatal(ValidityChanged)
    else if met.reply == Lost then Again
    else Got(met.reply.size)
  }

  /** Attempt `a` is the first that does not ask for another. */
  ghost predicate DecidedAt(network: Network, index: nat, a: nat, validity: nat) {
    && Try(network, index, a, validity) != Again
    && forall b: nat :: b < a ==> Try(network, index, b, validity) == Again
  }

  ghost predicate GivesUp(network: Network, index: nat, validity: nat) {
    forall a: nat :: a < ATTEMPTS ==> Try(network, index, a, validity) == Again
  }

  ghost predicate Ends(network: Network, index: nat, validity: nat, tried: Tried) {
    if tried == Again then GivesUp(network, index, validity)
    else exists a: nat ::
      a < ATTEMPTS && DecidedAt(network, index, a, validity) && Try(network, index, a, validity) == tried
  }

  /** Each entry of the batch has one ending only. */
  lemma EndsOnce(network: Network, index: nat, validity: nat, first: Tried, second: Tried)
    requires Ends(network, index, validity, first) && Ends(network, index, validity, second)
    ensures first == second
  {
    if first != Again && second != Again {
      var a: nat :| a < ATTEMPTS && DecidedAt(network, index, a, validity) && Try(network, index, a, validity) == first;
      var b: nat :| b < ATTEMPTS && DecidedAt(network, index, b, validity)
        && Try(network, index, b, validity) == second;
      assert a == b;
    }
  }

  /** The folder is open under the UIDVALIDITY of the search: as it was, or again after a loss. */
  ghost predicate IsOpen(network: Network, index: nat, attempt: nat, validity: nat) {
    attempt > 0 ==> network(index, attempt).reopening == Opened(validity)
  }

  /** The attempt comes to nothing, and the connection is dropped. */
  ghost predicate IsLost(network: Network, index: nat, attempt: nat, validity: nat) {
    || (attempt > 0 && network(index, attempt).reopening == Unreachable)
    || (IsOpen(network, index, attempt, validity) && network(index, attempt).reply == Lost)
  }

  ghost predicate LostBefore(network: Network, index: nat, attempt: nat, validity: nat) {
    forall b: nat :: b < attempt ==> IsLost(network, index, b, validity)
  }

  /** A body counts only from a folder that still has the UIDVALIDITY of the search, after attempts that
      were all lost; a folder that re-opens refused or renumbered ends the batch at once. */
  lemma EndsExactly(network: Network, index: nat, validity: nat)
    ensures Ends(network, index, validity, Again) <==> LostBefore(network, index, 3, validity)
    ensures forall size :: Ends(network, index, validity, Got(size)) <==>
      exists a: nat :: a < 3 && LostBefore(network, index, a, validity) && IsOpen(network, index, a, validity)
        && network(index, a).reply == Body(size)
    ensures Ends(network, index, validity, Fatal(FolderRefused)) <==>
      exists a: nat :: 0 < a < 3 && LostBefore(network, index, a, validity) && network(index, a).reopening == Refused
    ensures Ends(network, index, validity, Fatal(ValidityChanged)) <==>
      exists a: nat :: 0 < a < 3 && LostBefore(network, index, a, validity)
        && network(index, a).reopening.Opened? && network(index, a).reopening.validity != validity
  {
    assert forall a: nat :: IsLost(network, index, a, validity) <==> Try(network, index, a, validity) == Again;
    forall a: nat ensures LostBefore(network, index, a, validity) <==>
        forall b: nat :: b < a ==> Try(network, index, b, validity) == Again
    {
    }
    forall size, a: nat | a < 3 && LostBefore(network, index, a, validity) && IsOpen(network, index, a, validity)
        && network(index, a).reply == Body(size)
      ensures DecidedAt(network, index, a, validity) && Try(network, index, a, validity) == Got(size)
    {
    }
    forall a: nat | 0 < a < 3 && LostBefore(network, index, a, validity)
      ensures network(index, a).reopening == Refused ==>
        DecidedAt(network, index, a, validity) && Try(network, index, a, validity) == Fatal(FolderRefused)
      ensures network(index, a).reopening.Opened? && network(index, a).reopening.validity != validity ==>
        DecidedAt(network, index, a, validity) && Try(network, index, a, validity) == Fatal(ValidityChanged)
    {
    }
  }

  method FetchOne(network: Network, index: nat, validity: nat) returns (tried: Tried)
    ensures Ends(network, index, validity, tried)
    ensures tried == Again ==> GivesUp(network, index, validity)
    ensures tried.Fatal? ==> tried.failure == FolderRefused || tried.failure == ValidityChanged
  {
    var connected := true;
    for attempt := 0 to ATTEMPTS
      invariant connected <==> attempt == 0
      invariant forall b: nat :: b < attempt ==> Try(network, index, b, validity) == Again
    {
      var met := network(index, attempt);
      if !connected {
        match met.reopening {
          case Unreachable =>
            continue;
          case Refused =>
            assert DecidedAt(network, index, attempt, validity);
            return Fatal(FolderRefused);
          case Opened(reopened) =>
            if reopened != validity {
              assert DecidedAt(network, index, attempt, validity);
              return Fatal(ValidityChanged);
            }
        }
      }
      if met.reply.Body? {
        assert DecidedAt(network, index, attempt, validity);
        return Got(met.reply.size);
      }
      connected := false;
    }
    tried := Again;
  }

  // ----- The batch -----

  function Total(messages: seq<Message>): nat {
    if messages == [] then 0 else Total(messages[..|messages| - 1]) + messages[|messages| - 1].size
  }

  /** All but the last message left some of the budget. */
  ghost predicate WithinBudget(messages: seq<Message>, maxBytes: nat) {
    |messages| >= 2 ==> Total(messages[..|messages| - 1]) < maxBytes
  }

  function Min(a: nat, b: nat): nat {
    if a <= b then a else b
  }

  ghost predicate Arrived(network: Network, validity: nat, messages: seq<Message>) {
    forall i :: 0 <= i < |messages| ==> Ends(network, i, validity, Got(messages[i].size))
  }

  /** Why the batch ended after these messages. */
  ghost predicate Stopped(network: Network, validity: nat, messages: seq<Message>, batch: nat, maxBytes: nat) {
    || |messages| == batch
    || (messages != [] && Total(messages) >= maxBytes)
    || (messages != [] && GivesUp(network, |messages|, validity))
  }

  lemma Extended(network: Network, validity: nat, messages: seq<Message>, next: Message)
    requires Arrived(network, validity, messages) && Ends(network, |messages|, validity, Got(next.size))
    ensures Arrived(network, validity, messages + [next])
    ensures Total(messages + [next]) == Total(messages) + next.size
    ensures forall maxBytes: nat :: messages != [] && Total(messages) < maxBytes ==>
      WithinBudget(messages + [next], maxBytes)
  {
    hide Ends;
    var longer := messages + [next];
    assert longer[..|longer| - 1] == messages;
  }

  /** The messages are the oldest of the available ones, and nothing but the batch size, the
      budget or a dead connection ended the batch. */
  ghost predicate Delivers(available: seq<nat>, network: Network, validity: nat, messages: seq<Message>, limit: nat,
      maxBytes: nat) {
    && |messages| <= Min(limit, |available|)
    && (forall i :: 0 <= i < |messages| ==> messages[i].uid == available[i])
    && Arrived(network, validity, messages)
    && Stopped(network, validity, messages, Min(limit, |available|), maxBytes)
    && WithinBudget(messages, maxBytes)
  }

  /** An exception loses the messages already downloaded; a dead connection raises one only before the first. */
  ghost predicate Breaks(network: Network, validity: nat, failure: Failure, maxBytes: nat, downloaded: nat) {
    exists messages ::
      Arrived(network, validity, messages) && WithinBudget(messages, maxBytes) && Total(messages) == downloaded
      && (failure == ConnectionLost ==> messages == [])
      && Ends(network, |messages|, validity, if failure == ConnectionLost then Again else Fatal(failure))
  }

  /** The first opening is not tried again. */
  method FetchAfter(last: nat, expected: Option<nat>, opening: Opening, listed: Option<seq<nat>>,
                    limit: nat, maxBytes: nat, network: Network)
    returns (fetch: Fetch, downloaded: nat)
    ensures fetch == Failed(SearchRejected) <==> opening.Opened? && listed == None
    ensures opening == Unreachable ==> fetch == Failed(ConnectionLost)
    ensures opening == Refused ==> fetch == Failed(FolderRefused)
    ensures !opening.Opened? || listed == None || fetch == Failed(ConnectionLost) ==> downloaded == 0
    ensures fetch.Failed? && opening.Opened? && listed.Some? ==>
      Breaks(network, opening.validity, fetch.failure, maxBytes, downloaded)
    ensures fetch.Fetched? ==> opening == Opened(fetch.validity) && downloaded == Total(fetch.messages)
    ensures fetch.Fetched? ==> (
      var validity := fetch.validity;
      var base := SearchAfter(last, expected, validity);
      var available := Above(listed.value, base);
      && fetch.highest == HighestUid(available, base)
      && Delivers(available, network, validity, fetch.messages, limit, maxBytes))
  {
    downloaded := 0;
    if !opening.Opened? {
      return Failed(if opening == Refused then FolderRefused else ConnectionLost), 0;
    }
    var validity := opening.validity;
    if listed == None {
      return Failed(SearchRejected), 0;
    }
    var searchAfter := SearchAfter(last, expected, validity);
    var available := Above(listed.value, searchAfter);
    var highest := HighestUid(available, searchAfter);
    var messages: seq<Message> := [];
    var batch := Min(limit, |available|);
    var stopped := false;
    while |messages| < batch && !stopped
      invariant |messages| <= batch
      invariant forall i :: 0 <= i < |messages| ==> messages[i].uid == available[i]
      invariant Arrived(network, validity, messages)
      invariant downloaded == Total(messages)
      invariant messages != [] && !stopped ==> downloaded < maxBytes
      invariant stopped ==> Stopped(network, validity, messages, batch, maxBytes)
      invariant WithinBudget(messages, maxBytes)
      decreases batch - |messages|, !stopped
    {
      hide Ends, GivesUp;
      var uid := available[|messages|];
      var tried := FetchOne(network, |messages|, validity);
      match tried {
        case Fatal(failure) =>
          return Failed(failure), downloaded;
        case Again =>
          if messages == [] {
            return Failed(ConnectionLost), downloaded;
          }
          stopped := true;
        case Got(size) =>
          Extended(network, validity, messages, Message(uid, size));
          messages := messages + [Message(uid, size)];
          downloaded := downloaded + size;
          stopped := downloaded >= maxBytes;
      }
    }
    fetch := Fetched(validity, highest, messages);
  }
}
