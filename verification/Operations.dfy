/** Operations of a batch, what executing one does to the store, and the
    sequential reference: the same operations run one by one in SeqID order. */
module Operations {

  datatype Option<+T> = None | Some(value: T)

  type Byte = b: nat | b < 256

  /** A string is a sequence of bytes, in Go as in PHP. */
  type Text = seq<Byte>

  type Key = Text

  /** An IEEE number; rounding is not modelled. */
  datatype Float = Finite(value: real) | Infinite(negative: bool) | NaN
  {
    /** Comparison with a finite bound: always false for NaN. */
    predicate Below(bound: real) {
      (Finite? && value < bound) || (Infinite? && negative)
    }

    predicate Above(bound: real) {
      (Finite? && value > bound) || (Infinite? && !negative)
    }
  }

  datatype RiderUpdate = RiderUpdate(
    orderId: Text, latitude: Float, longitude: Float, currentStatus: Text, etaMinutes: int)

  /** What a Go `any` holds here: nil or a rider update. */
  datatype Value = Nil | Boxed(update: RiderUpdate)

  type Store = map<Key, Value>

  datatype OperationType = OpRead | OpWrite | OpDelete | OpUnknown(code: nat)

  datatype Operation = Operation(
    seqId: nat, key: Key, typ: OperationType, value: Value, result: Value, err: Option<string>)
  {
    predicate Mutates() {
      typ.OpWrite? || typ.OpDelete?
    }

    predicate Known() {
      !typ.OpUnknown?
    }

    /** Result and Err before any worker has written them. */
    predicate Blank() {
      result == Nil && err == None
    }
  }

  const UNKNOWN_TYPE := "khaos: unknown OperationType encountered during execution"

  /** The value stored under a key, nil when there is none. */
  function Lookup(store: Store, key: Key): Value {
    if key in store then store[key] else Nil
  }

  /** The store after executing `op`; `fault` is the error its storage call returned, if any. */
  function Effect(op: Operation, store: Store, fault: Option<string>): Store {
    if fault.Some? then store
    else
      match op.typ
      case OpWrite => store[op.key := op.value]
      case OpDelete => store - {op.key}
      case _ => store
  }

  /** The operation with the Result and Err that executing it writes. */
  function Answer(op: Operation, store: Store, fault: Option<string>): Operation {
    if op.typ.OpUnknown? then op.(err := Some(UNKNOWN_TYPE))
    else if fault.Some? then op.(err := fault)
    else
      match op.typ
      case OpRead => if op.key in store then op.(result := store[op.key]) else op
      case OpWrite => op.(result := op.value)
      case _ => op
  }

  /** One batch, the store it starts from, and the storage calls that fail, by SeqID. */
  datatype Job = Job(batch: seq<Operation>, faults: map<nat, string>, store: Store)
  {
    function Fault(i: nat): Option<string> {
      if i in faults then Some(faults[i]) else None
    }

    /** The store after those of the first n operations that are in `executed`, in SeqID order. */
    function Partial(executed: set<nat>, n: nat): Store
      requires n <= |batch|
    {
      if n == 0 then store
      else if n - 1 in executed then Effect(batch[n-1], Partial(executed, n - 1), Fault(n - 1))
      else Partial(executed, n - 1)
    }

    /** The store after the first n operations, one by one. */
    function Serial(n: nat): Store
      requires n <= |batch|
    {
      if n == 0 then store else Effect(batch[n-1], Serial(n - 1), Fault(n - 1))
    }

    /** Operation i as the one-by-one run leaves it. */
    function SerialAnswer(i: nat): Operation
      requires i < |batch|
    {
      Answer(batch[i], Serial(i), Fault(i))
    }
  }

  predicate WritesKey(batch: seq<Operation>, m: nat, key: Key)
    requires m < |batch|
  {
    batch[m].Mutates() && batch[m].key == key
  }

  /** Two positions touch the same key and at least one of them mutates it (RAW, WAR or WAW). */
  predicate Hazard(batch: seq<Operation>, i: nat, j: nat) {
    && i < j < |batch|
    && batch[i].key == batch[j].key
    && (batch[i].Mutates() || batch[j].Mutates())
  }

  /** An operation only touches its own key. */
  lemma EffectIsLocal(op: Operation, store: Store, fault: Option<string>, key: Key)
    requires !op.Mutates() || op.key != key
    ensures key in Effect(op, store, fault) <==> key in store
    ensures key in store ==> Effect(op, store, fault)[key] == store[key]
  {
  }

  /** Executing everything in SeqID order is the sequential run. */
  lemma {:induction false} FullIsSerial(job: Job, executed: set<nat>, n: nat)
    requires n <= |job.batch|
    requires forall i :: 0 <= i < n ==> i in executed
    ensures job.Partial(executed, n) == job.Serial(n)
  {
    if n > 0 {
      FullIsSerial(job, executed, n - 1);
    }
  }

  ghost predicate SameAt(s: Store, t: Store, key: Key) {
    (key in s <==> key in t) && (key in s ==> s[key] == t[key])
  }

  lemma StoresAgree(s: Store, t: Store)
    requires forall k :: SameAt(s, t, k)
    ensures s == t
  {
    forall k | k in s || k in t
      ensures k in s && k in t && s[k] == t[k]
    {
      assert SameAt(s, t, k);
    }
  }

  /** If exactly the earlier mutations of a key have run, position i finds under that key what the
      sequential run finds there. */
  lemma {:induction false} EarlierMutationsDecide(job: Job, executed: set<nat>, i: nat, n: nat, key: Key)
    requires i <= n <= |job.batch|
    requires forall j :: 0 <= j < i && WritesKey(job.batch, j, key) ==> j in executed
    requires forall j :: i <= j < n && WritesKey(job.batch, j, key) ==> j !in executed
    ensures SameAt(job.Partial(executed, n), job.Serial(i), key)
    decreases n
  {
    if n > i {
      EarlierMutationsDecide(job, executed, i, n - 1, key);
    } else if n > 0 {
      EarlierMutationsDecide(job, executed, i - 1, n - 1, key);
      if !WritesKey(job.batch, n - 1, key) {
        EffectIsLocal(job.batch[n-1], job.Serial(n - 1), job.Fault(n - 1), key);
        EffectIsLocal(job.batch[n-1], job.Partial(executed, n - 1), job.Fault(n - 1), key);
      }
    }
  }

  /** Effects on different keys commute. */
  lemma EffectsCommute(a: Operation, b: Operation, store: Store, fa: Option<string>,
                       fb: Option<string>)
    requires !a.Mutates() || !b.Mutates() || a.key != b.key
    ensures Effect(a, Effect(b, store, fb), fa) == Effect(b, Effect(a, store, fa), fb)
  {
    assert Effect(a, Effect(b, store, fb), fa).Keys == Effect(b, Effect(a, store, fa), fb).Keys;
  }

  /** Running i last instead of in its SeqID place changes nothing when no later mutation of its key has run. */
  lemma {:induction false} AppendExecuted(job: Job, executed: set<nat>, i: nat, n: nat)
    requires i < n <= |job.batch| && i !in executed
    requires job.batch[i].Mutates() ==>
      forall j :: i < j < n && WritesKey(job.batch, j, job.batch[i].key) ==> j !in executed
    ensures job.Partial(executed + {i}, n) == Effect(job.batch[i], job.Partial(executed, n), job.Fault(i))
  {
    if n - 1 == i {
      SameBelow(job, executed, i, i);
    } else {
      AppendExecuted(job, executed, i, n - 1);
      if n - 1 in executed {
        EffectsCommute(job.batch[i], job.batch[n-1], job.Partial(executed, n - 1), job.Fault(i), job.Fault(n - 1));
      }
    }
  }

  lemma {:induction false} SameBelow(job: Job, executed: set<nat>, i: nat, n: nat)
    requires n <= i && n <= |job.batch|
    ensures job.Partial(executed + {i}, n) == job.Partial(executed, n)
  {
    if n > 0 {
      SameBelow(job, executed, i, n - 1);
    }
  }

  /** The heart of serial equivalence. When every earlier conflicting operation has executed and no
      later one has, executing i now gives the sequential answer and the SeqID-order store. */
  lemma {:induction false} ExecuteNext(job: Job, executed: set<nat>, i: nat)
    requires i < |job.batch| && i !in executed
    requires forall j :: Hazard(job.batch, j, i) ==> j in executed
    requires forall j :: Hazard(job.batch, i, j) ==> j !in executed
    ensures var now := job.Partial(executed, |job.batch|);
            Answer(job.batch[i], now, job.Fault(i)) == job.SerialAnswer(i) &&
            Effect(job.batch[i], now, job.Fault(i)) == job.Partial(executed + {i}, |job.batch|)
  {
    var n, key := |job.batch|, job.batch[i].key;
    AppendExecuted(job, executed, i, n);
    forall j | i <= j < n && WritesKey(job.batch, j, key)
      ensures j !in executed
    {
      assert j > i ==> Hazard(job.batch, i, j);
    }
    forall j | 0 <= j < i && WritesKey(job.batch, j, key)
      ensures j in executed
    {
      assert Hazard(job.batch, j, i);
    }
    EarlierMutationsDecide(job, executed, i, n, key);
  }

  // ----- what the one-by-one run means, on the batch alone -----

  /** Operation j writes or deletes `key`, and its storage call does not fail. */
  ghost predicate Changes(job: Job, j: nat, key: Key) {
    && j < |job.batch| && j !in job.faults && job.batch[j].key == key
    && (job.batch[j].typ.OpWrite? || job.batch[j].typ.OpDelete?)
  }

  /** m is the last of the first n operations, among those executed, that changes `key`. */
  ghost predicate LastChange(job: Job, executed: set<nat>, n: nat, key: Key, m: nat) {
    && m < n && m in executed && Changes(job, m, key)
    && forall j :: m < j < n && j in executed ==> !Changes(job, j, key)
  }

  ghost predicate NoChange(job: Job, executed: set<nat>, n: nat, key: Key) {
    forall j :: 0 <= j < n && j in executed ==> !Changes(job, j, key)
  }

  /** Under `key`, the store has what operation m put there, or nothing if it deleted the key. */
  ghost predicate LeftBy(job: Job, m: nat, key: Key, store: Store)
    requires m < |job.batch|
  {
    if job.batch[m].typ.OpWrite? then key in store && store[key] == job.batch[m].value else key !in store
  }

  ghost function Before(i: nat): (s: set<nat>)
    ensures forall j :: j in s <==> 0 <= j < i
  {
    if i == 0 then {} else Before(i - 1) + {i - 1}
  }

  /** The store of any executed operations in SeqID order, key by key. */
  lemma {:induction false} PartialLaw(job: Job, executed: set<nat>, n: nat, key: Key)
    requires n <= |job.batch|
    ensures forall m: nat :: LastChange(job, executed, n, key, m) ==> LeftBy(job, m, key, job.Partial(executed, n))
    ensures NoChange(job, executed, n, key) ==> SameAt(job.Partial(executed, n), job.store, key)
  {
    if n > 0 {
      PartialLaw(job, executed, n - 1, key);
      forall m: nat | LastChange(job, executed, n, key, m)
        ensures LeftBy(job, m, key, job.Partial(executed, n))
      {
        assert m < n - 1 ==> LastChange(job, executed, n - 1, key, m);
      }
    }
  }

  /** The store after the first n operations, one by one, key by key. */
  lemma {:induction false} SerialLaw(job: Job, n: nat, key: Key)
    requires n <= |job.batch|
    ensures forall m: nat :: LastChange(job, Before(n), n, key, m) ==> LeftBy(job, m, key, job.Serial(n))
    ensures NoChange(job, Before(n), n, key) ==> SameAt(job.Serial(n), job.store, key)
  {
    PartialLaw(job, Before(n), n, key);
    FullIsSerial(job, Before(n), n);
  }

  /** The result of a read at position i that did not fail. */
  ghost predicate ReadsRight(job: Job, i: nat, result: Value)
    requires i < |job.batch|
  {
    var key := job.batch[i].key;
    && (forall m: nat :: LastChange(job, Before(i), i, key, m) ==>
          result == if job.batch[m].typ.OpWrite? then job.batch[m].value else Nil)
    && (NoChange(job, Before(i), i, key) ==> result == if key in job.store then job.store[key] else Nil)
  }

  /** Result and Err of operation i after it was executed. A failed call leaves only its error. */
  ghost predicate AnswersRight(job: Job, i: nat, result: Value, err: Option<string>)
    requires i < |job.batch|
  {
    if i in job.faults then result == Nil && err == Some(job.faults[i])
    else
      && err == None
      && match job.batch[i].typ
         case OpRead => ReadsRight(job, i, result)
         case OpWrite => result == job.batch[i].value
         case OpDelete => result == Nil
         case OpUnknown(_) => true
  }

  /** The answers of the one-by-one run, on the batch alone; nothing else of the operation changes. */
  lemma AnswerLaw(job: Job, i: nat)
    requires i < |job.batch| && job.batch[i].Known() && job.batch[i].result == Nil && job.batch[i].err == None
    ensures AnswersRight(job, i, job.SerialAnswer(i).result, job.SerialAnswer(i).err)
    ensures job.SerialAnswer(i) == job.batch[i].(result := job.SerialAnswer(i).result, err := job.SerialAnswer(i).err)
  {
    SerialLaw(job, i, job.batch[i].key);
  }

  /** There is a last change, or none: the laws decide every case. */
  lemma {:induction false} ChangeOrNone(job: Job, executed: set<nat>, n: nat, key: Key)
    ensures NoChange(job, executed, n, key) || exists m: nat :: LastChange(job, executed, n, key, m)
  {
    if n > 0 {
      var last := n - 1;
      ChangeOrNone(job, executed, last, key);
      if last in executed && Changes(job, last, key) {
        assert LastChange(job, executed, n, key, last);
      } else if m: nat :| LastChange(job, executed, last, key, m) {
        assert LastChange(job, executed, n, key, m);
      }
    }
  }

  /** The plain reference loop over one map, with no failing calls. */
  method SimulateSequentially(batch: seq<Operation>) returns (expected: seq<Value>, reference: Store)
    ensures |expected| == |batch|
    ensures var job := Job(batch, map[], map[]);
            reference == job.Serial(|batch|) &&
            forall i :: 0 <= i < |batch| && batch[i].Blank() ==> expected[i] == job.SerialAnswer(i).result
  {
    reference := map[];
    expected := [];
    ghost var job := Job(batch, map[], map[]);
    for n := 0 to |batch|
      invariant |expected| == n
      invariant reference == job.Serial(n)
      invariant forall i :: 0 <= i < n && batch[i].Blank() ==> expected[i] == job.SerialAnswer(i).result
    {
      var op := batch[n];
      var want := Nil;
      match op.typ {
        case OpRead => want := Lookup(reference, op.key);
        case OpWrite =>
          want := op.value;
          reference := reference[op.key := op.value];
        case OpDelete => reference := reference - {op.key};
        case OpUnknown(_) =>
      }
      expected := expected + [want];
    }
  }
}
