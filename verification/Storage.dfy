/** The sharded store: 256 maps that together behave as one. */
module Storage {
  import opened Operations

  /** A Go uint32. */
  type Word = h: nat | h < 0x1_0000_0000

  const FNV1A_OFFSET_32: Word := 2166136261
  const FNV1A_PRIME_32: Word := 16777619
  const NUM_SHARDS := 256
  const SHARD_MASK := NUM_SHARDS - 1

  // ----- bitwise operators -----

  function Xor(a: nat, b: nat): nat {
    if b == 0 then a
    else (if a % 2 == b % 2 then 0 else 1) + 2 * Xor(a / 2, b / 2)
  }

  function And(a: nat, b: nat): nat {
    if b == 0 then 0
    else (if a % 2 == 1 && b % 2 == 1 then 1 else 0) + 2 * And(a / 2, b / 2)
  }

  /** Bit k of n. */
  function Bit(n: nat, k: nat): bool {
    if k == 0 then n % 2 == 1 else Bit(n / 2, k - 1)
  }

  /** The operators work on each bit by itself. */
  lemma {:induction false} BitByBit(a: nat, b: nat, k: nat)
    ensures Bit(Xor(a, b), k) <==> Bit(a, k) != Bit(b, k)
    ensures Bit(And(a, b), k) <==> Bit(a, k) && Bit(b, k)
  {
    if b == 0 {
      ZeroBits(k);
    } else if k > 0 {
      BitByBit(a / 2, b / 2, k - 1);
      assert Xor(a, b) / 2 == Xor(a / 2, b / 2);
      assert And(a, b) / 2 == And(a / 2, b / 2);
    }
  }

  lemma {:induction false} ZeroBits(k: nat)
    ensures !Bit(0, k)
  {
    if k > 0 {
      ZeroBits(k - 1);
    }
  }

  function Pow2(n: nat): (p: nat)
    ensures p >= 1
  {
    if n == 0 then 1 else 2 * Pow2(n - 1)
  }

  lemma {:induction false} Pow2Adds(m: nat, n: nat)
    ensures Pow2(m + n) == Pow2(m) * Pow2(n)
  {
    if m > 0 {
      Pow2Adds(m - 1, n);
      assert 2 * Pow2(m - 1) * Pow2(n) == 2 * (Pow2(m - 1) * Pow2(n));
    }
  }

  lemma KnownPowers()
    ensures Pow2(8) == 256 && Pow2(32) == 0x1_0000_0000
  {
    assert Pow2(2) == 4;
    Pow2Adds(2, 2);
    Pow2Adds(4, 4);
    Pow2Adds(8, 8);
    Pow2Adds(16, 16);
  }

  lemma {:induction false} XorFits(a: nat, b: nat, n: nat)
    requires a < Pow2(n) && b < Pow2(n)
    ensures Xor(a, b) < Pow2(n)
  {
    if n > 0 {
      XorFits(a / 2, b / 2, n - 1);
    }
  }

  lemma {:induction false} XorWithByteFits(h: Word, b: nat)
    requires b < 256
    ensures Xor(h, b) < 0x1_0000_0000
  {
    KnownPowers();
    XorFits(h, b, 32);
  }

  /** The number that the lowest n bits of a stand for. */
  function Low(a: nat, n: nat): nat {
    if n == 0 then 0 else a % 2 + 2 * Low(a / 2, n - 1)
  }

  lemma {:induction false} MaskIsLow(a: nat, n: nat)
    ensures And(a, Pow2(n) - 1) == Low(a, n)
  {
    if n > 0 {
      MaskIsLow(a / 2, n - 1);
      assert (Pow2(n) - 1) / 2 == Pow2(n - 1) - 1;
    }
  }

  /** The lowest n bits are the remainder by 2^n. */
  lemma {:induction false} LowIsRemainder(a: nat, n: nat) returns (q: nat)
    ensures a == q * Pow2(n) + Low(a, n) && Low(a, n) < Pow2(n)
  {
    if n == 0 {
      q := a;
    } else {
      q := LowIsRemainder(a / 2, n - 1);
      var p := Pow2(n - 1);
      assert q * (2 * p) == 2 * (q * p);
    }
  }

  lemma RemainderIs(a: nat, q: nat, r: nat)
    requires a == q * 256 + r && r < 256
    ensures a % 256 == r
  {
  }

  // ----- the hash -----

  function XorByte(h: Word, b: Byte): Word {
    XorWithByteFits(h, b);
    Xor(h, b)
  }

  /** Multiplication by the FNV prime, wrapping around at 2^32. */
  function TimesPrime(h: Word): Word {
    (h * FNV1A_PRIME_32) % 0x1_0000_0000
  }

  /** The FNV-1a hash of the bytes of a key. */
  function Fnv1a(key: Key): Word {
    if key == [] then FNV1A_OFFSET_32
    else TimesPrime(XorByte(Fnv1a(key[..|key|-1]), key[|key|-1]))
  }

  /** The hash as the loop over the bytes computes it. */
  method ComputeFnv1a(key: Key) returns (h: Word)
    ensures h == Fnv1a(key)
    ensures exists hs :: Chain(key, hs) && hs[|key|] == h
  {
    h := FNV1A_OFFSET_32;
    for i := 0 to |key|
      invariant h == Fnv1a(key[..i])
    {
      assert key[..i+1][..i] == key[..i];
      h := XorByte(h, key[i]);
      h := TimesPrime(h);
    }
    assert key[..|key|] == key;
    HashChain(key);
  }

  lemma {:induction false} XorOfFirstByte(h: nat, b: nat)
    requires h == 0x811c9dc5 && b == 0x61
    ensures Xor(h, b) == 0x811c9da4
  {
    assert Xor(16922939, 0) == 16922939;
    assert Xor(33845879, 1) == 33845878;
    assert Xor(67691758, 3) == 67691757;
    assert Xor(135383516, 6) == 135383514;
    assert Xor(270767032, 12) == 270767028;
    assert Xor(541534065, 24) == 541534057;
    assert Xor(1083068130, 48) == 1083068114;
    assert Xor(2166136261, 97) == 2166136228;
  }

  lemma HashOfOneByte(b: Byte)
    ensures Fnv1a([b]) == TimesPrime(XorByte(FNV1A_OFFSET_32, b))
  {
    var key: Key := [b];
    assert key[..0] == [];
    assert Fnv1a(key[..0]) == FNV1A_OFFSET_32;
  }

  lemma ProductForA(h: Word)
    requires h == 0x811c9da4
    ensures TimesPrime(h) == 0xe40c292c
  {
  }

  /** The published FNV-1a values of the empty string and of "a". */
  lemma {:induction false} KnownHashes(a: Key)
    requires a == [0x61]
    ensures Fnv1a([]) == 0x811c9dc5
    ensures Fnv1a(a) == 0xe40c292c
  {
    HashOfOneByte(a[0]);
    XorOfFirstByte(FNV1A_OFFSET_32, a[0]);
    ProductForA(XorByte(FNV1A_OFFSET_32, a[0]));
  }

  /** x is the exclusive or of h and b, bit by bit. */
  ghost predicate IsXor(x: nat, h: nat, b: nat) {
    forall k: nat :: Bit(x, k) <==> Bit(h, k) != Bit(b, k)
  }

  /** One byte takes the hash from h to h'. */
  ghost predicate Mixes(h: Word, b: Byte, h': Word) {
    exists x: nat :: IsXor(x, h, b) && h' == (x * 16777619) % 0x1_0000_0000
  }

  /** The intermediate values of the hash, from the first byte to the last. */
  ghost predicate Chain(key: Key, hs: seq<Word>) {
    && |hs| == |key| + 1 && hs[0] == 2166136261
    && forall i :: 0 <= i < |key| ==> Mixes(hs[i], key[i], hs[i+1])
  }

  /** The hash is where every such chain ends, and there is one. */
  lemma {:induction false} HashChain(key: Key)
    ensures exists hs :: Chain(key, hs) && hs[|key|] == Fnv1a(key)
  {
    if key == [] {
      assert Chain(key, [FNV1A_OFFSET_32]);
    } else {
      var n := |key| - 1;
      HashChain(key[..n]);
      var before :| Chain(key[..n], before) && before[n] == Fnv1a(key[..n]);
      var hs := before + [Fnv1a(key)];
      ByteMixes(before[n], key[n]);
      forall i | 0 <= i < |key|
        ensures Mixes(hs[i], key[i], hs[i+1])
      {
        assert i < n ==> Mixes(before[i], key[..n][i], before[i+1]);
      }
      assert Chain(key, hs);
    }
  }

  lemma ByteMixes(h: Word, b: Byte)
    ensures Mixes(h, b, TimesPrime(XorByte(h, b)))
  {
    forall k: nat
      ensures Bit(Xor(h, b), k) <==> Bit(h, k) != Bit(b, k)
    {
      BitByBit(h, b, k);
    }
    assert IsXor(XorByte(h, b), h, b);
  }

  lemma {:induction false} ChainEndsInHash(key: Key, hs: seq<Word>)
    requires Chain(key, hs)
    ensures hs[|key|] == Fnv1a(key)
    decreases |key|
  {
    if key != [] {
      var n := |key| - 1;
      ChainEndsInHash(key[..n], hs[..n+1]);
      MixesOnce(hs[n], key[n], hs[n+1]);
    }
  }

  lemma MixesOnce(h: Word, b: Byte, h': Word)
    requires Mixes(h, b, h')
    ensures h' == TimesPrime(XorByte(h, b))
  {
    var x: nat :| IsXor(x, h, b) && h' == (x * 16777619) % 0x1_0000_0000;
    forall k: nat
      ensures Bit(x, k) <==> Bit(Xor(h, b), k)
    {
      BitByBit(h, b, k);
    }
    SameBits(x, Xor(h, b));
  }

  /** The bits determine the number. */
  lemma {:induction false} SameBits(x: nat, y: nat)
    requires forall k: nat :: Bit(x, k) <==> Bit(y, k)
    ensures x == y
    decreases x + y
  {
    assert Bit(x, 0) <==> Bit(y, 0);
    if x + y > 0 {
      forall k: nat
        ensures Bit(x / 2, k) <==> Bit(y / 2, k)
      {
        assert Bit(x, k + 1) <==> Bit(y, k + 1);
      }
      SameBits(x / 2, y / 2);
    }
  }

  /** The shard a key is routed to. */
  function ShardOf(key: Key): (i: nat)
    ensures i == Fnv1a(key) % 256 && i < NUM_SHARDS
  {
    MaskIsModulo(Fnv1a(key));
    And(Fnv1a(key), SHARD_MASK)
  }

  /** Masking a hash is taking its remainder by the number of shards, and so in range. */
  lemma {:induction false} MaskIsModulo(h: Word)
    ensures And(h, SHARD_MASK) == h % NUM_SHARDS
  {
    KnownPowers();
    MaskIsLow(h, 8);
    var q := LowIsRemainder(h, 8);
    RemainderIs(h, q, Low(h, 8));
  }

  /** Every key lies in the shard its hash chooses. */
  ghost predicate Routed(shards: seq<Store>) {
    |shards| == NUM_SHARDS && forall i, k :: 0 <= i < NUM_SHARDS && k in shards[i] ==> ShardOf(k) == i
  }

  /** The one map that the shards stand for. */
  ghost function Merge(shards: seq<Store>): (m: Store)
    requires |shards| == NUM_SHARDS
    ensures forall k :: k in m <==> k in shards[ShardOf(k)]
    ensures forall k :: k in m ==> m[k] == shards[ShardOf(k)][k]
  {
    map i, k | 0 <= i < NUM_SHARDS && k in shards[i] && ShardOf(k) == i :: k := shards[i][k]
  }

  datatype Call = Get(key: Key) | Set(key: Key, value: Value) | Delete(key: Key)

  datatype Reply = Found(value: Value) | Missing | Done

  function CallPlain(m: Store, call: Call): (Store, Reply) {
    match call
    case Get(k) => (m, if k in m then Found(m[k]) else Missing)
    case Set(k, v) => (m[k := v], Done)
    case Delete(k) => (m - {k}, Done)
  }

  /** One locked section: it reads and writes the map of a single shard. */
  function CallSharded(shards: seq<Store>, call: Call): (seq<Store>, Reply)
    requires |shards| == NUM_SHARDS
  {
    var i := ShardOf(call.key);
    var (m, reply) := CallPlain(shards[i], call);
    (shards[i := m], reply)
  }

  /** Replacing the shard of `key` by one that differs at most in `key` replaces `key` in the one map. */
  lemma UpdateShard(shards: seq<Store>, key: Key, m: Store)
    requires Routed(shards)
    requires forall k :: k != key ==> SameAt(shards[ShardOf(key)], m, k)
    ensures var after := shards[ShardOf(key) := m];
            && Routed(after)
            && (forall k :: k != key ==> SameAt(Merge(shards), Merge(after), k))
            && SameAt(m, Merge(after), key)
  {
    var i := ShardOf(key);
    var after := shards[i := m];
    forall j, k | 0 <= j < NUM_SHARDS && k in after[j]
      ensures ShardOf(k) == j
    {
      if j == i && k != key {
        assert SameAt(shards[i], m, k);
      }
    }
    forall k | k != key
      ensures SameAt(Merge(shards), Merge(after), k)
    {
      assert SameAt(shards[i], m, k);
    }
  }

  lemma CallRefines(shards: seq<Store>, call: Call)
    requires Routed(shards)
    ensures var (after, reply) := CallSharded(shards, call);
            Routed(after) && (Merge(after), reply) == CallPlain(Merge(shards), call)
  {
    var i := ShardOf(call.key);
    var m := CallPlain(shards[i], call).0;
    forall k | k != call.key
      ensures SameAt(shards[i], m, k)
    {
    }
    UpdateShard(shards, call.key, m);
    var merged, plain := Merge(shards[i := m]), CallPlain(Merge(shards), call).0;
    forall k: Key
      ensures SameAt(merged, plain, k)
    {
      if k != call.key {
        assert SameAt(Merge(shards), merged, k);
      }
    }
    StoresAgree(merged, plain);
  }

  function RunPlain(m: Store, calls: seq<Call>): (Store, seq<Reply>) {
    if calls == [] then (m, [])
    else
      var (m', replies) := RunPlain(m, calls[..|calls|-1]);
      var (m'', reply) := CallPlain(m', calls[|calls|-1]);
      (m'', replies + [reply])
  }

  function RunSharded(shards: seq<Store>, calls: seq<Call>): (r: (seq<Store>, seq<Reply>))
    requires |shards| == NUM_SHARDS
    ensures |r.0| == NUM_SHARDS
  {
    if calls == [] then (shards, [])
    else
      var (s', replies) := RunSharded(shards, calls[..|calls|-1]);
      var (s'', reply) := CallSharded(s', calls[|calls|-1]);
      (s'', replies + [reply])
  }

  /** Any order in which the locked sections take effect gives the replies and the contents of one plain map. */
  lemma {:induction false} ShardedRefinesPlain(shards: seq<Store>, calls: seq<Call>)
    requires Routed(shards)
    ensures var (after, replies) := RunSharded(shards, calls);
            Routed(after) && (Merge(after), replies) == RunPlain(Merge(shards), calls)
  {
    if calls != [] {
      ShardedRefinesPlain(shards, calls[..|calls|-1]);
      CallRefines(RunSharded(shards, calls[..|calls|-1]).0, calls[|calls|-1]);
    }
  }

  /** Call j sets or deletes this key. */
  predicate Touches(calls: seq<Call>, j: nat, key: Key)
    requires j < |calls|
  {
    !calls[j].Get? && calls[j].key == key
  }

  /** Call m is the last of the first n that sets or deletes this key. */
  ghost predicate LastTouch(calls: seq<Call>, n: nat, key: Key, m: nat)
    requires n <= |calls|
  {
    m < n && Touches(calls, m, key) && forall j :: m < j < n ==> !Touches(calls, j, key)
  }

  /** What a plain map holds after some calls, key by key: what the last call on the key left, or what it
      held before. */
  lemma {:induction false} PlainLaw(m: Store, calls: seq<Call>, key: Key)
    ensures var after := RunPlain(m, calls).0;
            && (forall j: nat :: LastTouch(calls, |calls|, key, j) ==>
                  if calls[j].Set? then key in after && after[key] == calls[j].value else key !in after)
            && ((forall j :: 0 <= j < |calls| ==> !Touches(calls, j, key)) ==> SameAt(after, m, key))
  {
    if calls != [] {
      var n := |calls| - 1;
      var first := calls[..n];
      PlainLaw(m, first, key);
      var before, after := RunPlain(m, first).0, RunPlain(m, calls).0;
      assert after == CallPlain(before, calls[n]).0;
      assert !Touches(calls, n, key) ==> SameAt(after, before, key);
      forall j: nat | LastTouch(calls, |calls|, key, j) && j < n
        ensures LastTouch(first, |first|, key, j)
      {
        forall i | j < i < n
          ensures !Touches(first, i, key)
        {
          assert !Touches(calls, i, key);
        }
      }
      assert forall j :: 0 <= j < n ==> Touches(first, j, key) == Touches(calls, j, key);
      assert forall j: nat :: LastTouch(calls, |calls|, key, j) && j < n ==> first[j] == calls[j];
    }
  }

  /** A get is answered with what the calls before it left under its key; the others are acknowledged. */
  lemma {:induction false} PlainReplies(m: Store, calls: seq<Call>, i: nat)
    requires i < |calls|
    ensures |RunPlain(m, calls).1| == |calls|
    ensures var before := RunPlain(m, calls[..i]).0;
            RunPlain(m, calls).1[i] ==
              match calls[i]
              case Get(k) => if k in before then Found(before[k]) else Missing
              case _ => Done
  {
    RepliesCount(m, calls[..|calls|-1]);
    if i < |calls| - 1 {
      PlainReplies(m, calls[..|calls|-1], i);
      assert calls[..|calls|-1][..i] == calls[..i];
    }
  }

  lemma {:induction false} RepliesCount(m: Store, calls: seq<Call>)
    ensures |RunPlain(m, calls).1| == |calls|
  {
    if calls != [] {
      RepliesCount(m, calls[..|calls|-1]);
    }
  }

  /** Locked sections on different shards commute, so only the order within a shard matters. */
  lemma DifferentShardsCommute(shards: seq<Store>, a: Call, b: Call)
    requires |shards| == NUM_SHARDS && ShardOf(a.key) != ShardOf(b.key)
    ensures var (sa, ra) := CallSharded(shards, a);
            var (sab, rb) := CallSharded(sa, b);
            var (sb, rb') := CallSharded(shards, b);
            var (sba, ra') := CallSharded(sb, a);
            sab == sba && ra == ra' && rb == rb'
  {
  }

  class ShardedMap {
    const shards: array<Store>

    ghost predicate Valid()
      reads this, shards
    {
      shards.Length == NUM_SHARDS && Routed(shards[..])
    }

    /** The contents as one map. */
    ghost function Contents(): Store
      requires Valid()
      reads this, shards
    {
      Merge(shards[..])
    }

    constructor ()
      ensures Valid() && fresh(shards) && Contents() == map[]
    {
      shards := new Store[NUM_SHARDS](i => map[]);
      new;
      assert Merge(shards[..]).Keys == {};
    }

    /** `ctxErr` is the context's error, if it was cancelled when the call began. */
    method Get(ctxErr: Option<string>, key: Key) returns (value: Value, found: bool, err: Option<string>)
      requires Valid()
      ensures err == ctxErr
      ensures found <==> err == None && key in Contents()
      ensures value == if found then Contents()[key] else Nil
    {
      if ctxErr.Some? {
        return Nil, false, ctxErr;
      }
      var data := shards[ShardOf(key)];
      return Lookup(data, key), key in data, None;
    }

    method Set(ctxErr: Option<string>, key: Key, value: Value) returns (err: Option<string>)
      requires Valid()
      modifies shards
      ensures Valid() && err == ctxErr
      ensures Contents() == if err == None then old(Contents())[key := value] else old(Contents())
    {
      if ctxErr.Some? {
        return ctxErr;
      }
      CallRefines(shards[..], Call.Set(key, value));
      ghost var before := shards[..];
      var i := ShardOf(key);
      shards[i] := shards[i][key := value];
      assert shards[..] == CallSharded(before, Call.Set(key, value)).0;
      return None;
    }

    method Delete(ctxErr: Option<string>, key: Key) returns (err: Option<string>)
      requires Valid()
      modifies shards
      ensures Valid() && err == ctxErr
      ensures Contents() == if err == None then old(Contents()) - {key} else old(Contents())
    {
      if ctxErr.Some? {
        return ctxErr;
      }
      CallRefines(shards[..], Call.Delete(key));
      ghost var before := shards[..];
      var i := ShardOf(key);
      shards[i] := shards[i] - {key};
      assert shards[..] == CallSharded(before, Call.Delete(key)).0;
      return None;
    }
  }
}
