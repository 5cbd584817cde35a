/** The client-side buffer of rider updates, and what sending it again after failures does to the store. */
module Dispatcher {
  import opened Operations
  import opened Hazards
  import opened Utf8
  import opened Storage
  import opened WorkerPool
  import opened PoolTheorems
  import opened Requests
  import opened Server
  import PoolInvariant

  /** One buffered rider ping. */
  datatype Update = Update(riderId: Key, update: RiderUpdate)

  datatype AddError = BlankRider | BlankOrder | BadLatitude | BadLongitude | BlankStatus | NegativeEta

  /** The bytes that PHP's trim strips. */
  predicate TrimByte(b: Byte) {
    b in {0x20, 0x0A, 0x0D, 0x09, 0x0B, 0x00}
  }

  function TrimFront(s: Text): Text {
    if s != [] && TrimByte(s[0]) then TrimFront(s[1..]) else s
  }

  function TrimBack(s: Text): Text {
    if s != [] && TrimByte(s[|s|-1]) then TrimBack(s[..|s|-1]) else s
  }

  /** PHP's trim. */
  function Trim(s: Text): Text {
    TrimBack(TrimFront(s))
  }

  /** Only NULs, tabs, newlines, vertical tabs, returns and spaces. */
  ghost predicate Blank(s: Text) {
    forall i :: 0 <= i < |s| ==> s[i] == 0 || s[i] == 9 || s[i] == 10 || s[i] == 11 || s[i] == 13 || s[i] == 32
  }

  /** Nothing is left of a text exactly when it is blank. */
  lemma TrimmedAway(s: Text)
    ensures Trim(s) == [] <==> Blank(s)
  {
    FrontGone(s);
    BackKeeps(TrimFront(s));
  }

  lemma {:induction false} FrontGone(s: Text)
    ensures TrimFront(s) == [] <==> Blank(s)
    ensures TrimFront(s) != [] ==> !TrimByte(TrimFront(s)[0])
  {
    if s != [] && TrimByte(s[0]) {
      FrontGone(s[1..]);
      assert forall i :: 0 < i < |s| ==> s[i] == s[1..][i-1];
    }
  }

  lemma {:induction false} BackKeeps(s: Text)
    requires s != [] ==> !TrimByte(s[0])
    ensures TrimBack(s) == [] <==> s == []
  {
    if s != [] && TrimByte(s[|s|-1]) {
      BackKeeps(s[..|s|-1]);
    }
  }

  /** The coordinate is within its bound, or no number at all. */
  predicate Passes(f: Float, bound: real) {
    f.NaN? || (f.Finite? && -bound <= f.value <= bound)
  }

  /** What addRiderUpdate lets through: coordinates in range, but also those that are no number. */
  ghost predicate Acceptable(u: Update) {
    && !Blank(u.riderId) && !Blank(u.update.orderId)
    && Passes(u.update.latitude, 90.0) && Passes(u.update.longitude, 180.0)
    && !Blank(u.update.currentStatus) && u.update.etaMinutes >= 0
  }

  /** JSON has no representation of a coordinate that is not finite, nor of text that is not UTF-8. */
  predicate Encodable(u: Update) {
    && u.update.latitude.Finite? && u.update.longitude.Finite?
    && ValidUtf8(u.riderId) && ValidUtf8(u.update.orderId) && ValidUtf8(u.update.currentStatus)
  }

  predicate AllEncodable(updates: seq<Update>) {
    forall i :: 0 <= i < |updates| ==> Encodable(updates[i])
  }

  /** The request that carries a buffer: one WRITE per update, numbered from zero. */
  function RequestItem(u: Update, seqId: nat): BatchRequestItem {
    BatchRequestItem(seqId, "WRITE", u.riderId, Some(u.update))
  }

  /** The operations of that request. */
  function WriteBatch(updates: seq<Update>): (ops: seq<Operation>)
    ensures |ops| == |updates|
    ensures forall i :: 0 <= i < |updates| ==>
              ops[i] == Operation(i, updates[i].riderId, OpWrite, Boxed(updates[i].update), Nil, None)
  {
    seq(|updates|, i requires 0 <= i < |updates| =>
      Operation(i, updates[i].riderId, OpWrite, Boxed(updates[i].update), Nil, None))
  }

  /** The run of a buffer on a store, with the storage calls that fail. */
  function BufferJob(updates: seq<Update>, faults: map<nat, string>, store: Store): Job {
    Job(WriteBatch(updates), faults, store)
  }

  /** What becomes of the messages of one round trip. */
  datatype Network = RequestLost | ResponseLost | Delivered

  /** The circumstances of one round trip: the storage calls that fail, the gateway's workers, whether the
      batch may be cut short, and the network. */
  datatype Trip = Trip(faults: map<nat, string>, numWorkers: int, numCpu: nat, mayCancel: bool, network: Network)
  {
    predicate Reliable() {
      !mayCancel && network.Delivered?
    }
  }

  /** The request reaches the gateway, which handles the batch; its answer reaches the client. None is an
      exception: no usable answer, or one other than 200. */
  method SendRequest(request: seq<BatchRequestItem>, storage: ShardedMap, trip: Trip, ghost ops: seq<Operation>)
    returns (answer: Option<seq<BatchResponseItem>>)
    requires storage.Valid() && trip.numCpu > 0
    requires request != [] && WellFormed(request) && Translates(request, ops)
    modifies storage.shards
    ensures storage.Valid()
    ensures var job := Job(ops, trip.faults, old(storage.Contents()));
            && PartlyDone(job, storage.Contents())
            && (answer.Some? ==> FullyDone(job, answer.value, storage.Contents()))
    ensures trip.Reliable() ==> answer.Some?
    ensures answer.Some? ==> trip.network.Delivered?
    ensures trip.network.RequestLost? ==> storage.Contents() == old(storage.Contents())
  {
    if trip.network.RequestLost? {
      NothingDone(Job(ops, trip.faults, storage.Contents()));
      return None;
    }
    ghost var c, s;
    var reply;
    reply, c, s := HandleBatch(request, storage, trip.faults, trip.numWorkers, trip.numCpu, trip.mayCancel);
    TranslationIgnoresOrder(request, ops, request, c.Batch());
    answer := if trip.network.Delivered? && reply.Ok200? then Some(reply.responses) else None;
  }

  lemma NothingDone(job: Job)
    ensures PartlyDone(job, job.store)
  {
    PoolInvariant.NothingExecuted(job, |job.batch|);
    assert ClosedUnderPredecessors(job.batch, {});
  }

  class KhaosDispatcher {
    var pending: seq<Update>

    ghost predicate Valid()
      reads this
    {
      forall i :: 0 <= i < |pending| ==> Acceptable(pending[i])
    }

    constructor ()
      ensures Valid() && pending == []
    {
      pending := [];
    }

    /** Buffers an acceptable update at the end. Any other leaves the buffer alone, and the first thing
        wrong with it is reported. */
    method AddRiderUpdate(u: Update) returns (error: Option<AddError>)
      requires Valid()
      modifies this
      ensures Valid()
      ensures error == None <==> Acceptable(u)
      ensures error == Some(BlankRider) <==> Blank(u.riderId)
      ensures error == Some(BlankOrder) <==> !Blank(u.riderId) && Blank(u.update.orderId)
      ensures error == Some(BadLatitude) <==>
                !Blank(u.riderId) && !Blank(u.update.orderId) && !Passes(u.update.latitude, 90.0)
      ensures error == Some(BadLongitude) <==>
                && !Blank(u.riderId) && !Blank(u.update.orderId) && Passes(u.update.latitude, 90.0)
                && !Passes(u.update.longitude, 180.0)
      ensures error == Some(BlankStatus) <==>
                && !Blank(u.riderId) && !Blank(u.update.orderId) && Passes(u.update.latitude, 90.0)
                && Passes(u.update.longitude, 180.0) && Blank(u.update.currentStatus)
      ensures pending == if error == None then old(pending) + [u] else old(pending)
    {
      var update := u.update;
      TrimmedAway(u.riderId);
      TrimmedAway(update.orderId);
      TrimmedAway(update.currentStatus);
      if Trim(u.riderId) == [] {
        return Some(BlankRider);
      }
      if Trim(update.orderId) == [] {
        return Some(BlankOrder);
      }
      if update.latitude.Below(-90.0) || update.latitude.Above(90.0) {
        return Some(BadLatitude);
      }
      if update.longitude.Below(-180.0) || update.longitude.Above(180.0) {
        return Some(BadLongitude);
      }
      if Trim(update.currentStatus) == [] {
        return Some(BlankStatus);
      }
      if update.etaMinutes < 0 {
        return Some(NegativeEta);
      }
      pending := pending + [u];
      return None;
    }

    /** The loop that builds the request: well-formed, and translated to the writes of the buffer. */
    method BuildRequest() returns (request: seq<BatchRequestItem>)
      requires Valid()
      ensures |request| == |pending|
      ensures forall i :: 0 <= i < |request| ==>
                request[i] == BatchRequestItem(i, "WRITE", pending[i].riderId, Some(pending[i].update))
      ensures WellFormed(request) && Translates(request, WriteBatch(pending))
    {
      request := [];
      for seqId := 0 to |pending|
        invariant |request| == seqId
        invariant forall i :: 0 <= i < |request| ==> request[i] == RequestItem(pending[i], i)
      {
        request := request + [RequestItem(pending[seqId], seqId)];
      }
      RequestTranslates(pending, request);
    }

    /** Sends the whole buffer as one request. Only an answer empties it, and then the store is that of the
        writes one by one; None is an exception, which keeps the buffer, and then the store is that of some
        of the writes. A buffer that cannot be encoded is never sent. */
    method DispatchBatch(storage: ShardedMap, trip: Trip) returns (decoded: Option<seq<BatchResponseItem>>)
      requires Valid() && storage.Valid() && trip.numCpu > 0
      modifies this, storage.shards
      ensures Valid() && storage.Valid()
      ensures pending == if decoded.Some? then [] else old(pending)
      ensures old(pending) == [] ==> decoded == Some([])
      ensures old(pending) == [] || !AllEncodable(old(pending)) ==> storage.Contents() == old(storage.Contents())
      ensures old(pending) != [] && decoded.Some? ==>
                AllEncodable(old(pending)) &&
                FullyDone(BufferJob(old(pending), trip.faults, old(storage.Contents())),
                          decoded.value, storage.Contents())
      ensures PartlyDone(BufferJob(old(pending), trip.faults, old(storage.Contents())), storage.Contents())
      ensures trip.Reliable() && AllEncodable(old(pending)) ==> decoded.Some?
      ensures old(pending) != [] && decoded.Some? ==> trip.network.Delivered?
      ensures trip.network.RequestLost? ==> storage.Contents() == old(storage.Contents())
    {
      NothingDone(BufferJob(pending, trip.faults, storage.Contents()));
      if pending == [] {
        return Some([]);
      }
      var request := BuildRequest();
      if !AllEncodable(pending) {
        return None;
      }
      decoded := SendRequest(request, storage, trip, WriteBatch(pending));
      if decoded.Some? {
        pending := [];
      }
    }
  }

  lemma WriteSpells(word: string)
    requires word == "WRITE"
    ensures Spells(word, "WRITE") && !Spells(word, "READ") && !Spells(word, "DELETE")
  {
    assert SpellsAt(word, "WRITE", 0, 5);
    OneWord(word);
  }

  lemma RequestTranslates(updates: seq<Update>, request: seq<BatchRequestItem>)
    requires forall i :: 0 <= i < |updates| ==> !Blank(updates[i].riderId)
    requires |request| == |updates| && forall i :: 0 <= i < |request| ==> request[i] == RequestItem(updates[i], i)
    ensures WellFormed(request) && Translates(request, WriteBatch(updates))
  {
    WriteSpells("WRITE");
    forall i | 0 <= i < |request|
      ensures Occurs(request, |request|, i)
    {
      assert request[i].seqId == i;
    }
  }

  // ----- writes only overwrite -----

  ghost predicate AllWrites(batch: seq<Operation>) {
    forall i :: 0 <= i < |batch| ==> batch[i].typ.OpWrite?
  }

  /** The last of the first n writes of `key` whose storage call did not fail. */
  function LastGood(batch: seq<Operation>, faults: map<nat, string>, n: nat, key: Key): (r: Option<nat>)
    requires n <= |batch|
    ensures r.Some? ==> r.value < n && batch[r.value].key == key
  {
    if n == 0 then None
    else if batch[n-1].key == key && n - 1 !in faults then Some(n - 1)
    else LastGood(batch, faults, n - 1, key)
  }

  /** What a run of writes leaves under a key: the value of the last good write, or what was there before. */
  lemma {:induction false} WritesLeave(job: Job, n: nat, key: Key)
    requires AllWrites(job.batch) && n <= |job.batch|
    ensures var last := LastGood(job.batch, job.faults, n, key);
            if last.Some? then key in job.Serial(n) && job.Serial(n)[key] == job.batch[last.value].value
            else SameAt(job.Serial(n), job.store, key)
  {
    if n > 0 {
      WritesLeave(job, n - 1, key);
    }
  }

  /** A partial run of writes touches only the keys of its batch. */
  lemma {:induction false} PartialIsLocal(job: Job, executed: set<nat>, n: nat, key: Key)
    requires n <= |job.batch| && forall i :: 0 <= i < n ==> job.batch[i].key != key
    ensures SameAt(job.Partial(executed, n), job.store, key)
  {
    if n > 0 {
      PartialIsLocal(job, executed, n - 1, key);
    }
  }

  lemma {:induction false} SomeGoodWrite(batch: seq<Operation>, n: nat, key: Key, i: nat)
    requires i < n <= |batch| && batch[i].key == key
    ensures LastGood(batch, map[], n, key).Some?
  {
    if i < n - 1 {
      SomeGoodWrite(batch, n - 1, key, i);
    }
  }

  lemma {:induction false} NoGoodWrite(batch: seq<Operation>, faults: map<nat, string>, n: nat, key: Key)
    requires n <= |batch| && forall i :: 0 <= i < n ==> batch[i].key != key
    ensures LastGood(batch, faults, n, key) == None
  {
    if n > 0 {
      NoGoodWrite(batch, faults, n - 1, key);
    }
  }

  // ----- at-least-once delivery -----

  /** One attempt to deliver the buffer: the run of the pool it caused, and where that run had got to when
      the attempt was over. */
  datatype Attempt = Attempt(c: Config, s: State)

  /** The attempt ran the first |c.Batch()| of the updates (the buffer may have been shorter then), starting
      from `store`, under some schedule, number of workers and failing calls, possibly cancelled. */
  ghost predicate Delivers(updates: seq<Update>, store: Store, a: Attempt) {
    && a.c.Valid() && Reachable(a.c, a.s) && a.c.job.store == store
    && |a.c.Batch()| <= |updates| && a.c.Batch() == WriteBatch(updates[..|a.c.Batch()|])
  }

  /** Attempts one after the other, each starting from the store the one before left. */
  ghost predicate History(updates: seq<Update>, store: Store, attempts: seq<Attempt>)
    decreases |attempts|
  {
    attempts == [] ||
    (Delivers(updates, store, attempts[0]) && History(updates, attempts[0].s.store, attempts[1..]))
  }

  function StoreAfter(store: Store, attempts: seq<Attempt>): Store {
    if attempts == [] then store else attempts[|attempts|-1].s.store
  }

  ghost predicate Mentions(updates: seq<Update>, key: Key) {
    exists i :: 0 <= i < |updates| && updates[i].riderId == key
  }

  /** Whatever failed attempts did, keys outside the buffer are untouched. */
  lemma {:induction false} AttemptsAreLocal(updates: seq<Update>, store: Store, attempts: seq<Attempt>, key: Key)
    requires History(updates, store, attempts) && !Mentions(updates, key)
    ensures SameAt(StoreAfter(store, attempts), store, key)
    decreases |attempts|
  {
    if attempts != [] {
      var a := attempts[0];
      SerialEquivalenceAlways(a.c, a.s);
      forall i | 0 <= i < a.c.N()
        ensures a.c.Batch()[i].key != key
      {
        assert updates[..a.c.N()][i] == updates[i];
      }
      PartialIsLocal(a.c.job, a.s.completed.Keys, a.c.N(), key);
      AttemptsAreLocal(updates, a.s.store, attempts[1..], key);
    }
  }

  /** One run of the whole buffer, one by one, with no failing call. */
  function OneDelivery(updates: seq<Update>, store: Store): Store {
    Job(WriteBatch(updates), map[], store).Serial(|updates|)
  }

  /** The last write of this rider that succeeded carries the value of its last write. */
  ghost predicate LastWriteStands(updates: seq<Update>, faults: map<nat, string>, key: Key) {
    var batch := WriteBatch(updates);
    var good := LastGood(batch, faults, |updates|, key);
    var last := LastGood(batch, map[], |updates|, key);
    good.Some? && last.Some? && batch[good.value].value == batch[last.value].value
  }

  /** It does so for every rider in the buffer. */
  ghost predicate LastWritesStand(updates: seq<Update>, faults: map<nat, string>) {
    forall i :: 0 <= i < |updates| ==> LastWriteStands(updates, faults, updates[i].riderId)
  }

  /** A rider gets the intended value if its last write stands, or if it was not in the buffer and had it. */
  lemma {:induction false} DeliveryDecided(updates: seq<Update>, faults: map<nat, string>,
                                           before: Store, store: Store, key: Key)
    requires if Mentions(updates, key) then LastWriteStands(updates, faults, key) else SameAt(before, store, key)
    ensures SameAt(Job(WriteBatch(updates), faults, before).Serial(|updates|), OneDelivery(updates, store), key)
  {
    var batch, n := WriteBatch(updates), |updates|;
    WritesLeave(Job(batch, faults, before), n, key);
    WritesLeave(Job(batch, map[], store), n, key);
    if !Mentions(updates, key) {
      forall i | 0 <= i < n
        ensures batch[i].key != key
      {
      }
      NoGoodWrite(batch, faults, n, key);
      NoGoodWrite(batch, map[], n, key);
    }
  }

  /** Effectively once. Any number of attempts that got anywhere, while the buffer grew, followed by an
      attempt with the final buffer that is answered 200 and whose last writes stand, leave the store that
      delivering the final buffer once, one by one, leaves. */
  lemma {:induction false} EffectivelyOnce(updates: seq<Update>, store: Store, attempts: seq<Attempt>, final: Attempt)
    requires History(updates, store, attempts)
    requires Delivers(updates, StoreAfter(store, attempts), final)
    requires |final.c.Batch()| == |updates| && final.s.handler.Responded200?
    requires LastWritesStand(updates, final.c.job.faults)
    ensures final.s.store == OneDelivery(updates, store)
  {
    var before := StoreAfter(store, attempts);
    assert updates[..|updates|] == updates;
    Answer200(final.c, final.s);
    forall key: Key
      ensures SameAt(final.s.store, OneDelivery(updates, store), key)
    {
      if !Mentions(updates, key) {
        AttemptsAreLocal(updates, store, attempts, key);
      }
      DeliveryDecided(updates, final.c.job.faults, before, store, key);
    }
    StoresAgree(final.s.store, OneDelivery(updates, store));
  }

  /** An attempt without failing calls always has standing last writes. */
  lemma NoErrorsStand(updates: seq<Update>)
    ensures LastWritesStand(updates, map[])
  {
    forall i | 0 <= i < |updates|
      ensures LastGood(WriteBatch(updates), map[], |updates|, updates[i].riderId).Some?
    {
      SomeGoodWrite(WriteBatch(updates), |updates|, updates[i].riderId, i);
    }
  }

  /** Exactly when an answered attempt delivers: its writes leave the intended store, whatever was there
      before, if and only if the last writes stand. */
  lemma {:induction false} DeliveredExactly(updates: seq<Update>, faults: map<nat, string>)
    ensures LastWritesStand(updates, faults) <==>
            forall store: Store ::
              Job(WriteBatch(updates), faults, store).Serial(|updates|) == OneDelivery(updates, store)
  {
    var batch, n := WriteBatch(updates), |updates|;
    if LastWritesStand(updates, faults) {
      forall store: Store
        ensures Job(batch, faults, store).Serial(n) == OneDelivery(updates, store)
      {
        forall key: Key
          ensures SameAt(Job(batch, faults, store).Serial(n), OneDelivery(updates, store), key)
        {
          DeliveryDecided(updates, faults, store, store, key);
        }
        StoresAgree(Job(batch, faults, store).Serial(n), OneDelivery(updates, store));
      }
    }
    if forall store: Store :: Job(batch, faults, store).Serial(n) == OneDelivery(updates, store) {
      var empty: Store := map[];
      assert Job(batch, faults, empty).Serial(n) == OneDelivery(updates, empty);
      forall i | 0 <= i < n
        ensures var good := LastGood(batch, faults, n, updates[i].riderId);
                var last := LastGood(batch, map[], n, updates[i].riderId);
                good.Some? && last.Some? && batch[good.value].value == batch[last.value].value
      {
        SomeGoodWrite(batch, n, updates[i].riderId, i);
        WritesLeave(Job(batch, faults, empty), n, updates[i].riderId);
        WritesLeave(Job(batch, map[], empty), n, updates[i].riderId);
      }
    }
  }

  /** Without that condition an update can be lost for good: a 200 response that reports an error at the
      only item, although nothing was stored. */
  lemma AnsweredButLost(u: Update, error: string) returns (lost: Attempt)
    ensures Delivers([u], map[], lost) && lost.s.handler.Responded200?
    ensures |lost.s.rob.out| == 1 && lost.s.rob.out[0].err == Some(error)
    ensures lost.s.store == map[] && u.riderId in OneDelivery([u], map[])
  {
    var batch := WriteBatch([u]);
    var c := Config(Job(batch, map[0 := error], map[]), 1);
    StartIsReachable(c);
    var _, s := Answer200StaysPossible(c, Init(c));
    lost := Attempt(c, s);
    assert [u][..1] == [u];
    Answer200(c, s);
    OneFailedWrite(c.job);
    OneGoodWrite(u);
  }

  lemma {:induction false} OneFailedWrite(job: Job)
    requires |job.batch| == 1 && 0 in job.faults
    ensures job.Serial(1) == job.store
  {
    assert job.Serial(0) == job.store;
  }

  lemma OneGoodWrite(u: Update)
    ensures u.riderId in OneDelivery([u], map[])
  {
    SomeGoodWrite(WriteBatch([u]), 1, u.riderId, 0);
    WritesLeave(Job(WriteBatch([u]), map[], map[]), 1, u.riderId);
  }

  lemma FailedWriteAnswered(u: Update, error: string, responses: seq<BatchResponseItem>, store: Store)
    requires FullyDone(BufferJob([u], map[0 := error], map[]), responses, store)
    ensures responses == [BatchResponseItem(0, Nil, error)] && store == map[]
  {
    var job := BufferJob([u], map[0 := error], map[]);
    OneFailedWrite(job);
    AnswerLaw(job, 0);
    assert Reports(responses[0], job.SerialAnswer(0));
  }

  /** The same on the heap: the client takes the answer for a confirmation and drops the update. */
  method LoseUpdate(u: Update, error: string)
    returns (dispatcher: KhaosDispatcher, storage: ShardedMap, decoded: Option<seq<BatchResponseItem>>)
    requires Acceptable(u) && Encodable(u)
    ensures decoded == Some([BatchResponseItem(0, Nil, error)]) && dispatcher.pending == []
    ensures storage.Valid() && storage.Contents() == map[] && u.riderId in OneDelivery([u], map[])
  {
    dispatcher := new KhaosDispatcher();
    storage := new ShardedMap();
    var added := dispatcher.AddRiderUpdate(u);
    assert dispatcher.pending == [u];
    decoded := dispatcher.DispatchBatch(storage, Trip(map[0 := error], 1, 1, false, Delivered));
    FailedWriteAnswered(u, error, decoded.value, storage.Contents());
    OneGoodWrite(u);
  }

  // ----- a whole session of the client -----

  datatype Event = Add(update: Update) | Dispatch(trip: Trip)

  /** Where a session has got to: the updates whose dispatch was answered, those still buffered, and the
      riders whose last write did not stand in the last answered dispatch with an update of theirs. */
  datatype Progress = Progress(delivered: seq<Update>, pending: seq<Update>, stale: set<Key>)

  ghost function Riders(updates: seq<Update>): set<Key> {
    set i | 0 <= i < |updates| :: updates[i].riderId
  }

  /** The riders in the buffer whose last write does not stand. */
  ghost function Fallen(updates: seq<Update>, faults: map<nat, string>): set<Key> {
    set key | key in Riders(updates) && !LastWriteStands(updates, faults, key)
  }

  /** One event more; `answered` says whether a dispatch was answered. */
  ghost function Then(p: Progress, event: Event, answered: bool): Progress {
    match event
    case Add(u) => if Acceptable(u) then p.(pending := p.pending + [u]) else p
    case Dispatch(trip) =>
      if answered then
        Progress(p.delivered + p.pending, [], p.stale - Riders(p.pending) + Fallen(p.pending, trip.faults))
      else p
  }

  /** The progress of a session, from which of its dispatches were answered. */
  ghost function After(events: seq<Event>, answered: seq<bool>): Progress
    requires |answered| == |events|
  {
    if events == [] then Progress([], [], {})
    else
      var n := |events| - 1;
      Then(After(events[..n], answered[..n]), events[n], answered[n])
  }

  /** The updates that the client accepted, in order. */
  ghost function Accepted(events: seq<Event>): seq<Update> {
    if events == [] then []
    else
      var n := |events| - 1;
      var before := Accepted(events[..n]);
      match events[n]
      case Add(u) => if Acceptable(u) then before + [u] else before
      case Dispatch(_) => before
  }

  /** No accepted update is lost or repeated by the buffer. */
  lemma {:induction false} NothingForgotten(events: seq<Event>, answered: seq<bool>)
    requires |answered| == |events|
    ensures After(events, answered).delivered + After(events, answered).pending == Accepted(events)
  {
    if events != [] {
      var n := |events| - 1;
      NothingForgotten(events[..n], answered[..n]);
    }
  }

  /** Event i is an answered dispatch of an update of this rider, as the session stands by then. */
  ghost predicate DeliversTo(events: seq<Event>, answered: seq<bool>, i: nat, key: Key)
    requires |answered| == |events|
  {
    && i < |events| && events[i].Dispatch? && answered[i]
    && key in Riders(After(events[..i], answered[..i]).pending)
  }

  /** The last such dispatch left the rider without the value of its last write. */
  ghost predicate StaleSince(events: seq<Event>, answered: seq<bool>, i: nat, key: Key)
    requires |answered| == |events|
  {
    && DeliversTo(events, answered, i, key)
    && !LastWriteStands(After(events[..i], answered[..i]).pending, events[i].trip.faults, key)
    && forall j :: i < j < |events| ==> !DeliversTo(events, answered, j, key)
  }

  /** Exactly when a rider is stale. */
  lemma {:induction false} StaleExactly(events: seq<Event>, answered: seq<bool>, key: Key)
    requires |answered| == |events|
    ensures key in After(events, answered).stale <==> exists i: nat :: StaleSince(events, answered, i, key)
  {
    if events != [] {
      var n := |events| - 1;
      StaleExactly(events[..n], answered[..n], key);
      if DeliversTo(events, answered, n, key) {
        StaleNow(events, answered, key);
      } else {
        StaleBefore(events, answered, events[..n], answered[..n], key);
      }
    }
  }

  lemma {:induction false} StaleNow(events: seq<Event>, answered: seq<bool>, key: Key)
    requires |answered| == |events| && events != [] && DeliversTo(events, answered, |events| - 1, key)
    ensures key in After(events, answered).stale <==> exists i: nat :: StaleSince(events, answered, i, key)
  {
    var n := |events| - 1;
    assert forall i: nat :: StaleSince(events, answered, i, key) ==> i == n;
    var stands := LastWriteStands(After(events[..n], answered[..n]).pending, events[n].trip.faults, key);
    assert StaleSince(events, answered, n, key) <==> !stands;
  }

  lemma EarlierDelivery(events: seq<Event>, answered: seq<bool>, events': seq<Event>, answered': seq<bool>,
                        i: nat, key: Key)
    requires |answered'| == |events'| <= |events| == |answered|
    requires events' == events[..|events'|] && answered' == answered[..|events'|] && i < |events'|
    ensures events'[..i] == events[..i] && answered'[..i] == answered[..i] && events'[i] == events[i]
    ensures DeliversTo(events, answered, i, key) <==> DeliversTo(events', answered', i, key)
  {
  }

  lemma SinceEarlier(events: seq<Event>, answered: seq<bool>, events': seq<Event>, answered': seq<bool>,
                     i: nat, key: Key)
    requires |answered'| == |events'| && |answered| == |events| == |events'| + 1
    requires events' == events[..|events'|] && answered' == answered[..|events'|]
    requires !DeliversTo(events, answered, |events'|, key)
    ensures StaleSince(events, answered, i, key) <==> StaleSince(events', answered', i, key)
  {
    if i < |events'| {
      EarlierDelivery(events, answered, events', answered', i, key);
      forall j | i < j < |events'|
        ensures DeliversTo(events, answered, j, key) <==> DeliversTo(events', answered', j, key)
      {
        EarlierDelivery(events, answered, events', answered', j, key);
      }
    }
  }

  lemma {:induction false} StaleBefore(events: seq<Event>, answered: seq<bool>, events': seq<Event>,
                                       answered': seq<bool>, key: Key)
    requires |answered'| == |events'| && |answered| == |events| == |events'| + 1
    requires events' == events[..|events'|] && answered' == answered[..|events'|]
    requires !DeliversTo(events, answered, |events'|, key)
    requires key in After(events', answered').stale <==> exists i: nat :: StaleSince(events', answered', i, key)
    ensures key in After(events, answered).stale <==> exists i: nat :: StaleSince(events, answered, i, key)
  {
    forall i: nat
      ensures StaleSince(events, answered, i, key) <==> StaleSince(events', answered', i, key)
    {
      SinceEarlier(events, answered, events', answered', i, key);
    }
    StaleUnchanged(events, answered, events', answered', key);
  }

  lemma {:induction false} StaleUnchanged(events: seq<Event>, answered: seq<bool>, events': seq<Event>,
                                          answered': seq<bool>, key: Key)
    requires |answered'| == |events'| && |answered| == |events| == |events'| + 1
    requires events' == events[..|events'|] && answered' == answered[..|events'|]
    requires !DeliversTo(events, answered, |events'|, key)
    ensures key in After(events, answered).stale <==> key in After(events', answered').stale
  {
    var p := After(events', answered');
    assert After(events, answered) == Then(p, events[|events'|], answered[|events'|]);
  }

  /** Riders only become stale through storage calls that fail. */
  lemma {:induction false} NoErrorsNoneStale(events: seq<Event>, answered: seq<bool>)
    requires |answered| == |events|
    requires forall i :: 0 <= i < |events| && events[i].Dispatch? && answered[i] ==> events[i].trip.faults == map[]
    ensures After(events, answered).stale == {}
  {
    if events != [] {
      var n := |events| - 1;
      NoErrorsNoneStale(events[..n], answered[..n]);
      var pending := After(events[..n], answered[..n]).pending;
      NoErrorsStand(pending);
      assert Fallen(pending, map[]) == {};
    }
  }

  /** Delivering two buffers one after the other is delivering them together. */
  lemma {:induction false} DeliverInParts(first: seq<Update>, second: seq<Update>, store: Store)
    ensures OneDelivery(first + second, store) == OneDelivery(second, OneDelivery(first, store))
  {
    if second == [] {
      assert first + second == first;
    } else {
      var n := |second| - 1;
      DeliverInParts(first, second[..n], store);
      DeliverOneMore(first + second[..n], second[n], store);
      DeliverOneMore(second[..n], second[n], OneDelivery(first, store));
      assert first + second == first + second[..n] + [second[n]];
      assert second == second[..n] + [second[n]];
    }
  }

  lemma DeliverOneMore(updates: seq<Update>, u: Update, store: Store)
    ensures OneDelivery([], store) == store
    ensures OneDelivery(updates + [u], store) == OneDelivery(updates, store)[u.riderId := Boxed(u.update)]
  {
    SameBatchSameSerial(updates, updates + [u], store, |updates|);
  }

  lemma {:induction false} SameBatchSameSerial(short: seq<Update>, long: seq<Update>, store: Store, n: nat)
    requires n <= |short| && short <= long
    ensures Job(WriteBatch(short), map[], store).Serial(n) == Job(WriteBatch(long), map[], store).Serial(n)
  {
    if n > 0 {
      SameBatchSameSerial(short, long, store, n - 1);
    }
  }

  /** The store is that of delivering the delivered updates once, one by one, except for stale riders and
      for those that still have an update in the buffer. */
  ghost predicate InStep(p: Progress, start: Store, now: Store) {
    forall key: Key ::
      Mentions(p.pending, key) || key in p.stale || SameAt(now, OneDelivery(p.delivered, start), key)
  }

  lemma AddingStaysInStep(p: Progress, u: Update, start: Store, now: Store)
    requires InStep(p, start, now)
    ensures InStep(p.(pending := p.pending + [u]), start, now)
  {
    forall key: Key | Mentions(p.pending, key)
      ensures Mentions(p.pending + [u], key)
    {
      var i :| 0 <= i < |p.pending| && p.pending[i].riderId == key;
      assert (p.pending + [u])[i].riderId == key;
    }
  }

  lemma FailingStaysInStep(p: Progress, faults: map<nat, string>, start: Store, now: Store,
                           later: Store)
    requires InStep(p, start, now) && PartlyDone(BufferJob(p.pending, faults, now), later)
    ensures InStep(p, start, later)
  {
    var job := BufferJob(p.pending, faults, now);
    var executed :| ClosedUnderPredecessors(job.batch, executed) && later == job.Partial(executed, |job.batch|);
    forall key: Key | !Mentions(p.pending, key)
      ensures SameAt(later, now, key)
    {
      PartialIsLocal(job, executed, |job.batch|, key);
    }
  }

  lemma AnsweringStaysInStep(p: Progress, trip: Trip, start: Store, now: Store, later: Store)
    requires InStep(p, start, now) && later == BufferJob(p.pending, trip.faults, now).Serial(|p.pending|)
    ensures InStep(Then(p, Dispatch(trip), true), start, later)
  {
    var before := OneDelivery(p.delivered, start);
    DeliverInParts(p.delivered, p.pending, start);
    forall key: Key | key !in Then(p, Dispatch(trip), true).stale
      ensures SameAt(later, OneDelivery(p.delivered + p.pending, start), key)
    {
      assert key in Riders(p.pending) <==> Mentions(p.pending, key);
      DeliveryDecided(p.pending, trip.faults, now, before, key);
    }
  }

  /** Which dispatches are answered: only those of an encodable buffer; and those for certain when nothing
      goes wrong on the way. */
  ghost predicate Rightly(pending: seq<Update>, event: Event, answered: bool) {
    event.Dispatch? ==>
      && (answered && pending != [] ==> AllEncodable(pending) && event.trip.network.Delivered?)
      && (AllEncodable(pending) && event.trip.Reliable() ==> answered)
  }

  ghost predicate AnsweredRightly(events: seq<Event>, answered: seq<bool>, i: nat)
    requires i < |events| == |answered|
  {
    Rightly(After(events[..i], answered[..i]).pending, events[i], answered[i])
  }

  /** One event on the heap. */
  method Perform(dispatcher: KhaosDispatcher, storage: ShardedMap, event: Event, ghost p: Progress, ghost start: Store)
    returns (answered: bool)
    requires dispatcher.Valid() && storage.Valid() && (event.Dispatch? ==> event.trip.numCpu > 0)
    requires dispatcher.pending == p.pending && InStep(p, start, storage.Contents())
    modifies dispatcher, storage.shards
    ensures dispatcher.Valid() && storage.Valid() && Rightly(p.pending, event, answered)
    ensures dispatcher.pending == Then(p, event, answered).pending
    ensures InStep(Then(p, event, answered), start, storage.Contents())
  {
    ghost var now := storage.Contents();
    match event {
      case Add(u) =>
        var error := dispatcher.AddRiderUpdate(u);
        AddingStaysInStep(p, u, start, now);
        answered := error == None;
      case Dispatch(trip) =>
        var decoded := dispatcher.DispatchBatch(storage, trip);
        answered := decoded.Some?;
        if answered {
          AnsweringStaysInStep(p, trip, start, now, storage.Contents());
        } else {
          FailingStaysInStep(p, trip.faults, start, now, storage.Contents());
        }
    }
  }

  /** Any session of a client: updates and dispatches in any order, with any storage calls failing, any
      batches cut short and any messages lost. Whenever no rider is stale and the buffer is empty, the store
      is that of delivering every accepted update exactly once, in order. */
  method Session(dispatcher: KhaosDispatcher, storage: ShardedMap, events: seq<Event>) returns (answered: seq<bool>)
    requires dispatcher.Valid() && dispatcher.pending == [] && storage.Valid()
    requires forall i :: 0 <= i < |events| && events[i].Dispatch? ==> events[i].trip.numCpu > 0
    modifies dispatcher, storage.shards
    ensures dispatcher.Valid() && storage.Valid() && |answered| == |events|
    ensures forall i :: 0 <= i < |events| ==> AnsweredRightly(events, answered, i)
    ensures dispatcher.pending == After(events, answered).pending
    ensures InStep(After(events, answered), old(storage.Contents()), storage.Contents())
    ensures After(events, answered).stale == {} && dispatcher.pending == [] ==>
              storage.Contents() == OneDelivery(Accepted(events), old(storage.Contents()))
  {
    answered := [];
    ghost var start := storage.Contents();
    for n := 0 to |events|
      invariant dispatcher.Valid() && storage.Valid() && |answered| == n
      invariant forall i :: 0 <= i < n ==> AnsweredRightly(events[..n], answered, i)
      invariant dispatcher.pending == After(events[..n], answered).pending
      invariant InStep(After(events[..n], answered), start, storage.Contents())
    {
      ghost var before := answered;
      var done := Perform(dispatcher, storage, events[n], After(events[..n], answered), start);
      answered := answered + [done];
      assert events[..n+1][..n] == events[..n];
      OneMoreEvent(events[..n], before, events[..n+1], answered);
    }
    assert events[..|events|] == events;
    EmptyIsExact(events, answered, start, storage.Contents());
  }

  lemma OneMoreEvent(events: seq<Event>, answered: seq<bool>, more: seq<Event>, longer: seq<bool>)
    requires |answered| == |events| && |longer| == |more| == |events| + 1
    requires events == more[..|events|] && answered == longer[..|events|]
    requires forall i :: 0 <= i < |events| ==> AnsweredRightly(events, answered, i)
    ensures forall i :: 0 <= i < |events| ==> AnsweredRightly(more, longer, i)
  {
    forall i | 0 <= i < |events|
      ensures AnsweredRightly(more, longer, i)
    {
      assert AnsweredRightly(events, answered, i);
      assert events[..i] == more[..i] && answered[..i] == longer[..i];
    }
  }

  lemma {:induction false} EmptyIsExact(events: seq<Event>, answered: seq<bool>, start: Store, now: Store)
    requires |answered| == |events| && InStep(After(events, answered), start, now)
    ensures var p := After(events, answered);
            p.stale == {} && p.pending == [] ==> now == OneDelivery(Accepted(events), start)
  {
    var p := After(events, answered);
    if p.stale == {} && p.pending == [] {
      NothingForgotten(events, answered);
      assert p.delivered + p.pending == p.delivered;
      StoresAgree(now, OneDelivery(p.delivered, start));
    }
  }

  /** An update that cannot be encoded, once accepted, blocks the buffer for good: no later dispatch is
      answered, whatever the network does. */
  lemma {:induction false} PoisonedForGood(events: seq<Event>, answered: seq<bool>, k: nat, n: nat)
    requires |answered| == |events| && k <= n <= |events|
    requires forall i :: 0 <= i < |events| ==> AnsweredRightly(events, answered, i)
    requires !AllEncodable(After(events[..k], answered[..k]).pending)
    ensures var p, q := After(events[..k], answered[..k]), After(events[..n], answered[..n]);
            p.delivered == q.delivered && p.pending <= q.pending && !AllEncodable(q.pending)
    ensures forall i :: k <= i < n && events[i].Dispatch? ==> !answered[i]
  {
    if n > k {
      PoisonedForGood(events, answered, k, n - 1);
      assert AnsweredRightly(events, answered, n - 1);
      assert events[..n][..n-1] == events[..n-1] && answered[..n][..n-1] == answered[..n-1];
      var p, q := After(events[..n-1], answered[..n-1]).pending, After(events[..n], answered[..n]).pending;
      assert p <= q;
      var i :| 0 <= i < |p| && !Encodable(p[i]);
      assert q[i] == p[i];
    }
  }

  /** Such updates are accepted, because of a coordinate that is no number, or of text that is not UTF-8. */
  lemma UnencodableIsAccepted(riderId: Key, orderId: Text, status: Text)
    requires !Blank(riderId) && !Blank(orderId) && !Blank(status)
    ensures var u := Update(riderId, RiderUpdate(orderId, NaN, Finite(0.0), status, 0)); Acceptable(u) && !Encodable(u)
    ensures var u := Update(riderId, RiderUpdate([0xFF], Finite(0.0), Finite(0.0), status, 0));
            Acceptable(u) && !Encodable(u)
  {
    var text: Text := [0xFF];
    assert CharLength(text) == 0;
    assert text[0] == 0xFF && !Blank(text);
  }
}
