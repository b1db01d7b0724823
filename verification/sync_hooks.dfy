/** The three client hooks that mirror contract events into the metadata
    service. Each hook subscribes only while a public client and a wallet
    address are present, and turns every log of a batch, in order, into the
    body of one HTTP request. The message hook first reads the token's
    current mood back from the contract and sends nothing for a log whose
    read fails. Responses and transport errors are only logged. */
module SyncHooks {
  import opened Wrappers
  import opened Text
  import opened NftRoutes

  /** A `uint8` as the contract emits it. */
  type Uint8 = x: int | 0 <= x < 256

  /** The arguments of the three contract events. */
  datatype MintedLog = MintedLog(tokenId: nat, owner: string, mood: Uint8)
  datatype MoodLog = MoodLog(tokenId: nat, owner: string, newMood: Uint8)
  datatype MessageLog = MessageLog(tokenId: nat, owner: string, newMessage: string)

  /** What a hook sees of the wallet connection. */
  datatype Session = Session(hasClient: bool, address: Option<string>)

  /** `if (!publicClient || !address) return`: there is a subscription only
      with a client and a non-empty address. */
  predicate Watching(session: Session) {
    session.hasClient && !Falsy(session.address)
  }

  /** A PUT request: the path segment after `/nft/` and the JSON body. */
  datatype UpdateRequest = UpdateRequest(path: string, body: UpdateBody)

  // ---------------------------------------------------------------------
  // One log, one request body
  // ---------------------------------------------------------------------

  /** `syncMintToAPI`: the token id as a number, the owner lower-cased, the
      mood as emitted and an empty message. */
  function MintBodyOf(e: MintedLog): (b: MintBody)
    ensures b.tokenId == Some(e.tokenId as int) && b.mood == Some(e.mood as int)
    ensures b.owner == Some(ToLower(e.owner))
    ensures b.owner.Some? && IsLower(b.owner.value) && |b.owner.value| == |e.owner|
    ensures b.message == Some("")
  {
    MintBody(Some(e.tokenId), Some(ToLower(e.owner)), Some(e.mood), Some(""))
  }

  /** `syncMoodToAPI`: a PUT to the token's decimal id with the new mood and
      the lower-cased owner, and no `message` field at all. */
  function MoodRequestOf(e: MoodLog): (r: UpdateRequest)
    ensures ParseInt(r.path) == Some(e.tokenId as int)
    ensures r.body.mood == Some(e.newMood as int) && r.body.message.None?
    ensures r.body.userAddress == Some(ToLower(e.owner)) && IsLower(r.body.userAddress.value)
  {
    ParseDecimal(e.tokenId);
    UpdateRequest(Decimal(e.tokenId), UpdateBody(Some(e.newMood), None, Some(ToLower(e.owner))))
  }

  /** `syncMessageToAPI`: a PUT to the token's decimal id carrying the mood
      read back from the contract, the new message and the lower-cased
      owner. */
  function MessageRequestOf(e: MessageLog, mood: Uint8): (r: UpdateRequest)
    ensures ParseInt(r.path) == Some(e.tokenId as int)
    ensures r.body.mood == Some(mood as int) && r.body.message == Some(e.newMessage)
    ensures r.body.userAddress == Some(ToLower(e.owner)) && IsLower(r.body.userAddress.value)
  {
    ParseDecimal(e.tokenId);
    UpdateRequest(Decimal(e.tokenId), UpdateBody(Some(mood), Some(e.newMessage), Some(ToLower(e.owner))))
  }

  // ---------------------------------------------------------------------
  // One batch of logs
  // ---------------------------------------------------------------------

  /** The mint hook's `onLogs`: one create request per log, in log order. */
  function MintSync(session: Session, logs: seq<MintedLog>): (r: seq<MintBody>)
    ensures !Watching(session) ==> r == []
    ensures Watching(session) ==> |r| == |logs| && forall i :: 0 <= i < |logs| ==> r[i] == MintBodyOf(logs[i])
  {
    if !Watching(session) then []
    else seq(|logs|, i requires 0 <= i < |logs| => MintBodyOf(logs[i]))
  }

  /** The mood hook's `onLogs`: one update request per log, in log order. */
  function MoodSync(session: Session, logs: seq<MoodLog>): (r: seq<UpdateRequest>)
    ensures !Watching(session) ==> r == []
    ensures Watching(session) ==> |r| == |logs| && forall i :: 0 <= i < |logs| ==> r[i] == MoodRequestOf(logs[i])
  {
    if !Watching(session) then []
    else seq(|logs|, i requires 0 <= i < |logs| => MoodRequestOf(logs[i]))
  }

  /** The requests for one log of the message hook, given what its
      `getMood` read returned: `None` stands for a read that threw. */
  function MessageStep(e: MessageLog, readBack: Option<Uint8>): (r: seq<UpdateRequest>)
    ensures |r| == (if readBack.Some? then 1 else 0)
    ensures readBack.Some? ==> r == [MessageRequestOf(e, readBack.value)]
  {
    match readBack
    case Some(mood) => [MessageRequestOf(e, mood)]
    case None => []
  }

  /** Reference definition of the message hook's batch: the logs taken in
      order, each with its own read-back result. */
  function MessageRequests(logs: seq<MessageLog>, results: seq<Option<Uint8>>): (r: seq<UpdateRequest>)
    requires |results| == |logs|
    ensures |r| <= |logs|
  {
    if |logs| == 0 then []
    else MessageStep(logs[0], results[0]) + MessageRequests(logs[1..], results[1..])
  }

  /** The message hook's `onLogs` loop: each log's mood is read back before
      the next log is looked at, and a failed read only skips that log. */
  method MessageSync(session: Session, logs: seq<MessageLog>, results: seq<Option<Uint8>>)
    returns (requests: seq<UpdateRequest>)
    requires |results| == |logs|
    ensures !Watching(session) ==> requests == []
    ensures Watching(session) ==> requests == MessageRequests(logs, results)
  {
    requests := [];
    if Watching(session) {
      var i := 0;
      while i < |logs|
        invariant 0 <= i <= |logs|
        invariant requests == MessageRequests(logs[..i], results[..i])
      {
        MessageRequestsPrefix(logs, results, i);
        if results[i].Some? {
          requests := requests + [MessageRequestOf(logs[i], results[i].value)];
        }
        i := i + 1;
      }
      assert logs[..i] == logs && results[..i] == results;
    }
  }

  /** Handling one more log adds only that log's requests at the end. */
  lemma {:induction false} MessageRequestsSnoc(logs: seq<MessageLog>, results: seq<Option<Uint8>>)
    requires |results| == |logs| > 0
    ensures var n := |logs| - 1;
      MessageRequests(logs, results)
        == MessageRequests(logs[..n], results[..n]) + MessageStep(logs[n], results[n])
    decreases |logs|
  {
    var n := |logs| - 1;
    var last := MessageStep(logs[n], results[n]);
    if n == 0 {
      assert logs[1..] == [] && results[1..] == [];
      assert MessageRequests(logs, results) == last + [];
      assert last + [] == [] + last;
    } else {
      var tl, tr := logs[1..], results[1..];
      var pl, pr := logs[..n], results[..n];
      MessageRequestsSnoc(tl, tr);
      SliceShift(logs, n);
      SliceShift(results, n);
      var first := MessageStep(logs[0], results[0]);
      var middle := MessageRequests(pl[1..], pr[1..]);
      MessageRequestsUnfold(logs, results);
      MessageRequestsUnfold(pl, pr);
      AppendAssoc(first, middle, last);
    }
  }

  /** The requests of the first `i + 1` logs extend those of the first `i`. */
  lemma MessageRequestsPrefix(logs: seq<MessageLog>, results: seq<Option<Uint8>>, i: nat)
    requires |results| == |logs| && i < |logs|
    ensures MessageRequests(logs[..i + 1], results[..i + 1])
      == MessageRequests(logs[..i], results[..i]) + MessageStep(logs[i], results[i])
  {
    MessageRequestsSnoc(logs[..i + 1], results[..i + 1]);
    assert logs[..i + 1][..i] == logs[..i] && results[..i + 1][..i] == results[..i];
  }

  /** Two batches handled one after the other send what their
      concatenation sends. */
  lemma {:induction false} MessageRequestsAppend(l1: seq<MessageLog>, r1: seq<Option<Uint8>>, l2: seq<MessageLog>, r2: seq<Option<Uint8>>)
    requires |r1| == |l1| && |r2| == |l2|
    ensures MessageRequests(l1 + l2, r1 + r2) == MessageRequests(l1, r1) + MessageRequests(l2, r2)
    decreases |l1|
  {
    if |l1| == 0 {
      assert l1 + l2 == l2 && r1 + r2 == r2;
    } else {
      var l, r := l1 + l2, r1 + r2;
      assert l[0] == l1[0] && r[0] == r1[0];
      assert l[1..] == l1[1..] + l2;
      assert r[1..] == r1[1..] + r2;
      MessageRequestsAppend(l1[1..], r1[1..], l2, r2);
      var head := MessageStep(l1[0], r1[0]);
      AppendAssoc(head, MessageRequests(l1[1..], r1[1..]), MessageRequests(l2, r2));
    }
  }

  lemma MessageRequestsUnfold(logs: seq<MessageLog>, results: seq<Option<Uint8>>)
    requires |results| == |logs| > 0
    ensures MessageRequests(logs, results)
      == MessageStep(logs[0], results[0]) + MessageRequests(logs[1..], results[1..])
  {
  }

  lemma SliceShift<T>(s: seq<T>, n: nat)
    requires 0 < n < |s|
    ensures s[1..][..n - 1] == s[..n][1..] && s[1..][n - 1] == s[n] && s[..n][0] == s[0]
  {
  }

  /** A log whose read-back failed contributes nothing: the batch sends
      exactly what the logs before and after it send. */
  lemma {:induction false} ReadFailureDropsLog(logs: seq<MessageLog>, results: seq<Option<Uint8>>, i: nat)
    requires |results| == |logs| && i < |logs| && results[i].None?
    ensures MessageRequests(logs, results)
      == MessageRequests(logs[..i], results[..i]) + MessageRequests(logs[i + 1..], results[i + 1..])
  {
    var lt, rt := logs[i..], results[i..];
    assert logs == logs[..i] + lt && results == results[..i] + rt;
    MessageRequestsAppend(logs[..i], results[..i], lt, rt);
    assert lt[1..] == logs[i + 1..] && rt[1..] == results[i + 1..];
    assert MessageStep(lt[0], rt[0]) == [];
    var rest := MessageRequests(lt[1..], rt[1..]);
    assert MessageRequests(lt, rt) == [] + rest;
    assert [] + rest == rest;
  }

  /** How many reads of a batch succeeded. */
  function Successes(results: seq<Option<Uint8>>): (n: nat)
    ensures n <= |results|
  {
    if |results| == 0 then 0
    else (if results[0].Some? then 1 else 0) + Successes(results[1..])
  }

  /** The message hook sends exactly one request per successful read. */
  lemma {:induction false} MessageRequestsCount(logs: seq<MessageLog>, results: seq<Option<Uint8>>)
    requires |results| == |logs|
    ensures |MessageRequests(logs, results)| == Successes(results)
    decreases |logs|
  {
    if |logs| > 0 {
      MessageRequestsCount(logs[1..], results[1..]);
    }
  }

  /** Every request the message hook sends belongs to one of its logs and
      carries that log's read-back mood, message and lower-cased owner. */
  lemma {:induction false} MessageRequestsFromLogs(logs: seq<MessageLog>, results: seq<Option<Uint8>>, req: UpdateRequest)
    requires |results| == |logs| && req in MessageRequests(logs, results)
    ensures exists i :: 0 <= i < |logs| && results[i].Some? && req == MessageRequestOf(logs[i], results[i].value)
    decreases |logs|
  {
    var head := MessageStep(logs[0], results[0]);
    if req in head {
      assert results[0].Some? && req == MessageRequestOf(logs[0], results[0].value);
    } else {
      MessageRequestsFromLogs(logs[1..], results[1..], req);
      var i :| 0 <= i < |logs[1..]| && results[1..][i].Some? && req == MessageRequestOf(logs[1..][i], results[1..][i].value);
      assert results[i + 1].Some? && req == MessageRequestOf(logs[i + 1], results[i + 1].value);
    }
  }
}
