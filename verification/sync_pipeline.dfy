/** The hooks composed with the routes: contract events, delivered one at
    a time, become requests that the store handles in that order. A failed
    request is only logged by the hook, so it leaves the store as it was
    and the next event is handled. */
module SyncPipeline {
  import opened Wrappers
  import opened Text
  import opened NftMetadata
  import opened NftRoutes
  import opened SyncHooks

  /** A contract event as a hook receives it; a message event comes with
      the result of the hook's `getMood` read. */
  datatype Event =
    | Minted(minted: MintedLog)
    | MoodChanged(moodLog: MoodLog)
    | MessageUpdated(messageLog: MessageLog, readBack: Option<Uint8>)

  /** An event together with the server's clock reading when its request
      is handled. */
  datatype Delivery = Delivery(event: Event, now: nat)

  /** What handling one event amounted to. */
  datatype Outcome =
    | NotSent
    | Created(created: Result<Record, ApiError>)
    | Changed(changed: Result<Record, ApiError>)

  datatype Step = Step(store: Store, outcome: Outcome)

  /** The request a delivery becomes, sent to the route it is meant for. */
  function Handle(s: Store, d: Delivery): (r: Step)
    ensures r.outcome.NotSent? <==> d.event.MessageUpdated? && d.event.readBack.None?
    ensures r.outcome.Created? <==> d.event.Minted?
    ensures r.outcome.NotSent? ==> r.store == s
    ensures r.outcome.Created? && r.outcome.created.Failure? ==> r.store == s
    ensures r.outcome.Changed? && r.outcome.changed.Failure? ==> r.store == s
    ensures s.Keys <= r.store.Keys
  {
    match d.event
    case Minted(e) =>
      var response := Mint(s, MintBodyOf(e), d.now);
      Step(response.store, Created(response.result))
    case MoodChanged(e) =>
      var request := MoodRequestOf(e);
      var response := Update(s, request.path, request.body, d.now);
      Step(response.store, Changed(response.result))
    case MessageUpdated(e, readBack) =>
      match readBack
      case None => Step(s, NotSent)
      case Some(mood) =>
        var request := MessageRequestOf(e, mood);
        var response := Update(s, request.path, request.body, d.now);
        Step(response.store, Changed(response.result))
  }

  /** The store after the deliveries, handled in order. */
  function Replay(s: Store, ds: seq<Delivery>): (r: Store)
    ensures s.Keys <= r.Keys
    decreases |ds|
  {
    if |ds| == 0 then s else Replay(Handle(s, ds[0]).store, ds[1..])
  }

  /** Replaying one more delivery handles it in the store the earlier ones
      left behind. */
  lemma {:induction false} ReplaySnoc(s: Store, ds: seq<Delivery>, d: Delivery)
    ensures Replay(s, ds + [d]) == Handle(Replay(s, ds), d).store
    decreases |ds|
  {
    if |ds| == 0 {
      assert (ds + [d])[1..] == [];
    } else {
      assert (ds + [d])[0] == ds[0] && (ds + [d])[1..] == ds[1..] + [d];
      ReplaySnoc(Handle(s, ds[0]).store, ds[1..], d);
    }
  }

  /** The outcome of each delivery, in order. */
  function Trace(s: Store, ds: seq<Delivery>): (t: seq<Outcome>)
    ensures |t| == |ds|
    decreases |ds|
  {
    if |ds| == 0 then [] else [Handle(s, ds[0]).outcome] + Trace(Handle(s, ds[0]).store, ds[1..])
  }

  // ---------------------------------------------------------------------
  // Events, one at a time
  // ---------------------------------------------------------------------

  /** A mint event creates its record exactly when its owner is non-empty,
      its token id is new and its mood is in range; the record then holds
      the lower-cased owner, the mood, an empty message and one history
      entry. A second mint of a stored token id is refused. */
  lemma MintEventCreates(s: Store, e: MintedLog, now: nat)
    ensures var step := Handle(s, Delivery(Minted(e), now));
      && (step.outcome == Created(Failure(MissingFields)) <==> e.owner == "")
      && (e.owner != "" && e.tokenId in s ==> step.outcome == Created(Failure(AlreadyExists)))
      && (step.outcome.created.Success? <==> e.owner != "" && e.tokenId !in s && e.mood <= MaxMood)
      && (step.outcome.created.Success? ==>
            step.store == s[e.tokenId := Record(e.tokenId, ToLower(e.owner), e.mood, "",
                                                 [Entry(e.mood, "", now)], now, now)])
  {
    ToLowerIdempotent(e.owner);
  }

  /** The update a mood event asks for, as the route sees it. */
  lemma MoodRequestTargets(s: Store, e: MoodLog)
    ensures var request := MoodRequestOf(e);
      && Lookup(s, request.path) == (if e.tokenId in s then Some(s[e.tokenId]) else None)
      && ParseInt(request.path).value == e.tokenId
      && request.body.userAddress == Some(ToLower(e.owner))
  {
  }

  /** A mood event never meets the no-change guard: it sends no message,
      and an absent message equals no stored one. */
  lemma MoodEventNeverNoChange(s: Store, e: MoodLog, now: nat)
    ensures Handle(s, Delivery(MoodChanged(e), now)).outcome != Changed(Failure(NoChanges))
  {
  }

  /** A mood event updates its record exactly when the record exists, the
      event's owner matches the stored one and the mood is in range; the
      stored message is then cleared to `""` and the pre-update mood and
      message are appended to the history. */
  lemma MoodEventClearsMessage(s: Store, e: MoodLog, now: nat)
    ensures var step := Handle(s, Delivery(MoodChanged(e), now));
      && (step.outcome.changed.Success? <==>
            && e.owner != "" && e.tokenId in s
            && Authorized(s[e.tokenId], ToLower(e.owner))
            && e.newMood <= MaxMood)
      && (step.outcome.changed.Success? ==>
            var prev := s[e.tokenId];
            && step.store == s[e.tokenId := step.outcome.changed.value]
            && step.outcome.changed.value.mood == e.newMood
            && step.outcome.changed.value.message == ""
            && step.outcome.changed.value.changeHistory
                 == prev.changeHistory + [Entry(prev.mood, prev.message, now)])
  {
    MoodRequestTargets(s, e);
  }

  /** Delivering the same mood event twice appends twice: the second
      delivery is not recognised as a repeat. */
  lemma MoodRedeliveryAppendsTwice(s: Store, e: MoodLog, t1: nat, t2: nat)
    requires Handle(s, Delivery(MoodChanged(e), t1)).outcome.changed.Success?
    ensures var s1 := Handle(s, Delivery(MoodChanged(e), t1)).store;
      var step := Handle(s1, Delivery(MoodChanged(e), t2));
      var prev := s[e.tokenId];
      && e.tokenId in s
      && step.outcome.changed.Success?
      && step.store[e.tokenId].changeHistory
           == prev.changeHistory + [Entry(prev.mood, prev.message, t1), Entry(e.newMood, "", t2)]
  {
    MoodEventClearsMessage(s, e, t1);
    var s1 := Handle(s, Delivery(MoodChanged(e), t1)).store;
    MoodEventClearsMessage(s1, e, t2);
  }

  /** The update a message event asks for, as the route sees it. */
  lemma MessageRequestTargets(s: Store, e: MessageLog, mood: Uint8)
    ensures var request := MessageRequestOf(e, mood);
      && Lookup(s, request.path) == (if e.tokenId in s then Some(s[e.tokenId]) else None)
      && ParseInt(request.path).value == e.tokenId
      && request.body.userAddress == Some(ToLower(e.owner))
  {
  }

  /** A message event with a successful read updates its record exactly
      when the record exists, the owner matches, the pair (read mood, new
      message) differs from the stored one and passes the schema; the
      record then holds the read mood and the new message. */
  lemma MessageEventSetsBoth(s: Store, e: MessageLog, mood: Uint8, now: nat)
    ensures var step := Handle(s, Delivery(MessageUpdated(e, Some(mood)), now));
      && (step.outcome.changed.Success? <==>
            && e.owner != "" && e.tokenId in s
            && Authorized(s[e.tokenId], ToLower(e.owner))
            && !(s[e.tokenId].mood == mood && s[e.tokenId].message == e.newMessage)
            && mood <= MaxMood && |e.newMessage| <= MaxMessageLength)
      && (step.outcome.changed.Success? ==>
            var prev := s[e.tokenId];
            && step.store == s[e.tokenId := step.outcome.changed.value]
            && step.outcome.changed.value.mood == mood
            && step.outcome.changed.value.message == e.newMessage
            && step.outcome.changed.value.changeHistory
                 == prev.changeHistory + [Entry(prev.mood, prev.message, now)])
  {
    MessageRequestTargets(s, e, mood);
  }

  /** Unlike a mood event, a message event delivered again with the same
      read-back is refused as a no-change request and alters nothing. */
  lemma MessageRedeliveryRejected(s: Store, e: MessageLog, mood: Uint8, t1: nat, t2: nat)
    requires Handle(s, Delivery(MessageUpdated(e, Some(mood)), t1)).outcome.changed.Success?
    ensures var s1 := Handle(s, Delivery(MessageUpdated(e, Some(mood)), t1)).store;
      var step := Handle(s1, Delivery(MessageUpdated(e, Some(mood)), t2));
      step.outcome == Changed(Failure(NoChanges)) && step.store == s1
  {
    MessageEventSetsBoth(s, e, mood, t1);
    var s1 := Handle(s, Delivery(MessageUpdated(e, Some(mood)), t1)).store;
    MessageRequestTargets(s1, e, mood);
    ToLowerIdempotent(e.owner);
  }

  /** A message event whose mood read failed sends nothing. */
  lemma FailedReadBackChangesNothing(s: Store, e: MessageLog, now: nat)
    ensures Handle(s, Delivery(MessageUpdated(e, None), now)) == Step(s, NotSent)
  {
  }

  /** An event for a stored token whose owner, lower-cased, is not the
      stored owner is refused, and no record changes. */
  lemma ForeignOwnerChangesNothing(s: Store, d: Delivery)
    requires d.event.MoodChanged? || (d.event.MessageUpdated? && d.event.readBack.Some?)
    requires var e := if d.event.MoodChanged? then d.event.moodLog.tokenId else d.event.messageLog.tokenId;
      var owner := if d.event.MoodChanged? then d.event.moodLog.owner else d.event.messageLog.owner;
      owner != "" && e in s && !Authorized(s[e], ToLower(owner))
    ensures Handle(s, d) == Step(s, Changed(Failure(Unauthorized)))
  {
    match d.event
    case MoodChanged(e) =>
      var request := MoodRequestOf(e);
      MoodRequestTargets(s, e);
      UpdateRefusesForeign(s, request.path, request.body, d.now);
    case MessageUpdated(e, readBack) =>
      var request := MessageRequestOf(e, readBack.value);
      MessageRequestTargets(s, e, readBack.value);
      UpdateRefusesForeign(s, request.path, request.body, d.now);
  }

  /** The update handler refuses a caller who does not own the record. */
  lemma UpdateRefusesForeign(s: Store, path: string, body: UpdateBody, now: nat)
    requires body.mood.Some? && !Falsy(body.userAddress)
    requires Lookup(s, path).Some? && !Authorized(Lookup(s, path).value, body.userAddress.value)
    ensures Update(s, path, body, now) == Response(s, Failure(Unauthorized))
  {
  }

  // ---------------------------------------------------------------------
  // Sequences of events
  // ---------------------------------------------------------------------

  /** Handling any delivery keeps the schema invariants and only grows
      the store. */
  lemma HandlePreservesValid(s: Store, d: Delivery)
    requires Valid(s)
    ensures Valid(Handle(s, d).store) && Extends(s, Handle(s, d).store)
  {
    match d.event
    case Minted(e) => MintPreservesValid(s, MintBodyOf(e), d.now);
    case MoodChanged(e) =>
      var request := MoodRequestOf(e);
      UpdatePreservesValid(s, request.path, request.body, d.now);
    case MessageUpdated(e, readBack) =>
      if readBack.Some? {
        var request := MessageRequestOf(e, readBack.value);
        UpdatePreservesValid(s, request.path, request.body, d.now);
      }
  }

  /** Any sequence of deliveries keeps the schema invariants, and never
      removes a record or rewrites its identity, owner, creation time or
      past history. */
  lemma {:induction false} ReplayPreservesValid(s: Store, ds: seq<Delivery>)
    requires Valid(s)
    ensures Valid(Replay(s, ds)) && Extends(s, Replay(s, ds))
    decreases |ds|
  {
    if |ds| == 0 {
      ExtendsReflexive(s);
    } else {
      var s1 := Handle(s, ds[0]).store;
      HandlePreservesValid(s, ds[0]);
      ReplayPreservesValid(s1, ds[1..]);
      ExtendsTransitive(s, s1, Replay(s1, ds[1..]));
    }
  }

  /** Whether an outcome created, or successfully updated, the record `k`. */
  function CreateCount(o: Outcome, k: int): (n: nat)
    ensures n <= 1
  {
    if o.Created? && o.created.Success? && o.created.value.tokenId == k then 1 else 0
  }

  function UpdateCount(o: Outcome, k: int): (n: nat)
    ensures n <= 1
  {
    if o.Changed? && o.changed.Success? && o.changed.value.tokenId == k then 1 else 0
  }

  /** How many outcomes of a trace created, or updated, the record `k`. */
  function CreatesOf(t: seq<Outcome>, k: int): (n: nat)
    ensures n <= |t|
  {
    if |t| == 0 then 0 else CreateCount(t[0], k) + CreatesOf(t[1..], k)
  }

  function UpdatesOf(t: seq<Outcome>, k: int): (n: nat)
    ensures n <= |t|
  {
    if |t| == 0 then 0 else UpdateCount(t[0], k) + UpdatesOf(t[1..], k)
  }

  /** The history length of `k` before any further event: its stored one,
      or the single entry a mint seeds it with. */
  function BaseLength(s: Store, k: int): nat {
    if k in s then |s[k].changeHistory| else 1
  }

  /** One delivery creates `k` only when it is absent, updates `k` only
      when it is present, and grows its history by one per update. */
  lemma HandleCounts(s: Store, d: Delivery, k: int)
    requires Valid(s)
    ensures var step := Handle(s, d);
      && (k in step.store <==> k in s || CreateCount(step.outcome, k) == 1)
      && (k in s ==> CreateCount(step.outcome, k) == 0)
      && (UpdateCount(step.outcome, k) == 1 ==> k in s)
      && (k in step.store ==>
            |step.store[k].changeHistory| == BaseLength(s, k) + UpdateCount(step.outcome, k))
  {
    match d.event
    case Minted(e) =>
    case MoodChanged(e) =>
      MoodRequestTargets(s, e);
    case MessageUpdated(e, readBack) =>
      if readBack.Some? {
        MessageRequestTargets(s, e, readBack.value);
      }
  }

  /** Counting over a whole sequence of deliveries: a token is minted at
      most once, never when it was already stored, and its history length
      is the length it started with plus the number of successful updates.
      From an empty store, every record's history therefore has one entry
      more than it had successful updates. */
  lemma {:induction false} HistoryCounts(s: Store, ds: seq<Delivery>, k: int)
    requires Valid(s)
    ensures var s' := Replay(s, ds);
      var t := Trace(s, ds);
      && (k in s ==> k in s' && CreatesOf(t, k) == 0)
      && (k !in s ==> CreatesOf(t, k) <= 1 && (k in s' <==> CreatesOf(t, k) == 1))
      && (k in s' ==> |s'[k].changeHistory| == BaseLength(s, k) + UpdatesOf(t, k))
    decreases |ds|
  {
    if |ds| > 0 {
      var step := Handle(s, ds[0]);
      var s1 := step.store;
      HandleCounts(s, ds[0], k);
      HandlePreservesValid(s, ds[0]);
      HistoryCounts(s1, ds[1..], k);
      var t := Trace(s, ds);
      assert t[0] == step.outcome && t[1..] == Trace(s1, ds[1..]);
    }
  }

  /** With a server clock that never runs backwards, every record keeps its
      history in time order, from its creation to its last update. */
  lemma {:induction false} ReplayKeepsChronology(s: Store, ds: seq<Delivery>)
    requires forall k :: k in s ==> Chronological(s[k])
    requires |ds| > 0 ==> NotAfter(s, ds[0].now)
    requires forall i, j :: 0 <= i < j < |ds| ==> ds[i].now <= ds[j].now
    ensures forall k :: k in Replay(s, ds) ==> Chronological(Replay(s, ds)[k])
    decreases |ds|
  {
    if |ds| > 0 {
      var d := ds[0];
      var s1 := Handle(s, d).store;
      HandleKeepsChronology(s, d);
      if |ds| > 1 {
        assert ds[1..][0] == ds[1] && d.now <= ds[1].now;
      }
      ReplayKeepsChronology(s1, ds[1..]);
    }
  }

  lemma HandleKeepsChronology(s: Store, d: Delivery)
    requires forall k :: k in s ==> Chronological(s[k])
    requires NotAfter(s, d.now)
    ensures var s1 := Handle(s, d).store;
      (forall k :: k in s1 ==> Chronological(s1[k]))
      && forall later: nat :: d.now <= later ==> NotAfter(s1, later)
  {
    match d.event
    case Minted(e) => MintKeepsChronology(s, MintBodyOf(e), d.now);
    case MoodChanged(e) =>
      var request := MoodRequestOf(e);
      UpdateKeepsChronology(s, request.path, request.body, d.now);
    case MessageUpdated(e, readBack) =>
      if readBack.Some? {
        var request := MessageRequestOf(e, readBack.value);
        UpdateKeepsChronology(s, request.path, request.body, d.now);
      }
  }

  // ---------------------------------------------------------------------
  // Two concrete runs
  // ---------------------------------------------------------------------

  /** Token 7 minted by `0xAA` with mood 0, then a mood change to 5: the
      record holds mood 5 and an empty message, and its history is the
      initial state followed by the pre-update state. */
  lemma MintThenMoodChange(t0: nat, t1: nat)
    ensures var ds := [Delivery(Minted(MintedLog(7, "0xAA", 0)), t0),
                       Delivery(MoodChanged(MoodLog(7, "0xAA", 5)), t1)];
      var s := Replay(map[], ds);
      && 7 in s
      && s[7].mood == 5 && s[7].message == "" && s[7].owner == "0xaa"
      && s[7].changeHistory == [Entry(0, "", t0), Entry(0, "", t1)]
      && s[7].createdAt == t0 && s[7].lastUpdated == t1
  {
    var e1 := MintedLog(7, "0xAA", 0);
    var e2 := MoodLog(7, "0xAA", 5);
    var ds := [Delivery(Minted(e1), t0), Delivery(MoodChanged(e2), t1)];
    MintEventCreates(map[], e1, t0);
    var s1 := Handle(map[], ds[0]).store;
    assert ToLower("0xAA") == "0xaa";
    MoodEventClearsMessage(s1, e2, t1);
    var s2 := Handle(s1, ds[1]).store;
    assert [ds[1]][1..] == [];
    assert Replay(s1, [ds[1]]) == Replay(s2, []) == s2;
    assert ds[1..] == [ds[1]];
    assert Replay(map[], ds) == s2;
  }

  /** Token 3 minted by `0xBB` with mood 2, then a message event whose
      mood read returns 2: the record holds mood 2 and the message `hi`. */
  lemma MintThenMessage(t0: nat, t1: nat)
    ensures var ds := [Delivery(Minted(MintedLog(3, "0xBB", 2)), t0),
                       Delivery(MessageUpdated(MessageLog(3, "0xBB", "hi"), Some(2)), t1)];
      var s := Replay(map[], ds);
      && 3 in s
      && s[3].mood == 2 && s[3].message == "hi"
      && s[3].changeHistory == [Entry(2, "", t0), Entry(2, "", t1)]
  {
    var e1 := MintedLog(3, "0xBB", 2);
    var e2 := MessageLog(3, "0xBB", "hi");
    var ds := [Delivery(Minted(e1), t0), Delivery(MessageUpdated(e2, Some(2)), t1)];
    MintEventCreates(map[], e1, t0);
    var s1 := Handle(map[], ds[0]).store;
    assert ToLower("0xBB") == "0xbb";
    MessageEventSetsBoth(s1, e2, 2, t1);
    var s2 := Handle(s1, ds[1]).store;
    assert [ds[1]][1..] == [];
    assert Replay(s1, [ds[1]]) == Replay(s2, []) == s2;
    assert ds[1..] == [ds[1]];
    assert Replay(map[], ds) == s2;
  }
}
