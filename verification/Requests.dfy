/** From request items to operations: operation types, and the checks and the order of translateRequest. */
module Requests {
  import opened Operations
  import opened Hazards

  datatype BatchRequestItem = BatchRequestItem(
    seqId: nat, operationType: string, riderId: Key, payload: Option<RiderUpdate>)

  // ----- operation types -----

  /** The white space of Unicode, as strings.TrimSpace sees it. */
  predicate IsSpace(ch: char) {
    ch in {'\t', '\n', '\U{B}', '\U{C}', '\r', ' ', '\U{85}', '\U{A0}', '\U{1680}',
           '\U{2028}', '\U{2029}', '\U{202F}', '\U{205F}', '\U{3000}'}
    || '\U{2000}' <= ch <= '\U{200A}'
  }

  /** strings.ToUpper, as far as comparing with an ASCII word can tell: the ASCII letters, and the two
      other letters whose upper case is an ASCII letter (dotless i and long s). */
  function Upper(ch: char): char {
    if 'a' <= ch <= 'z' then ch - ('a' - 'A')
    else if ch == '\U{131}' then 'I'
    else if ch == '\U{17F}' then 'S'
    else ch
  }

  function TrimLeft(s: string): string {
    if s != [] && IsSpace(s[0]) then TrimLeft(s[1..]) else s
  }

  function TrimRight(s: string): string {
    if s != [] && IsSpace(s[|s|-1]) then TrimRight(s[..|s|-1]) else s
  }

  function UpperAll(s: string): (u: string)
    ensures |u| == |s| && forall i :: 0 <= i < |s| ==> u[i] == Upper(s[i])
  {
    seq(|s|, i requires 0 <= i < |s| => Upper(s[i]))
  }

  function ParseOperationType(raw: string): Option<OperationType> {
    match UpperAll(TrimRight(TrimLeft(raw)))
    case "READ" => Some(OpRead)
    case "WRITE" => Some(OpWrite)
    case "DELETE" => Some(OpDelete)
    case _ => None
  }

  /** raw is `word` in any case, with any white space around it. */
  ghost predicate Spells(raw: string, word: string) {
    exists a, b :: 0 <= a <= b <= |raw| && SpellsAt(raw, word, a, b)
  }

  ghost predicate SpellsAt(raw: string, word: string, a: nat, b: nat)
    requires a <= b <= |raw|
  {
    && b - a == |word|
    && (forall i :: 0 <= i < a ==> White(raw[i]))
    && (forall i :: b <= i < |raw| ==> White(raw[i]))
    && (forall i :: 0 <= i < |word| ==> SameLetter(raw[a + i], word[i]))
  }

  /** The code points that Unicode calls white space. */
  predicate White(ch: char) {
    var c := ch as int;
    || 9 <= c <= 13 || c == 32 || c == 0x85 || c == 0xA0 || c == 0x1680 || 0x2000 <= c <= 0x200A
    || c == 0x2028 || c == 0x2029 || c == 0x202F || c == 0x205F || c == 0x3000
  }

  /** The capital itself, its lower case 32 code points further, or one of the two other letters whose upper
      case is that capital (dotless i, long s). */
  predicate SameLetter(ch: char, capital: char) {
    || ch == capital || ch as int == capital as int + 32
    || (capital == 'I' && ch as int == 0x131) || (capital == 'S' && ch as int == 0x17F)
  }

  lemma SpaceIsWhite(ch: char)
    ensures IsSpace(ch) <==> White(ch)
  {
  }

  lemma UpperIsSameLetter(ch: char, capital: char)
    requires 'A' <= capital <= 'Z'
    ensures Upper(ch) == capital <==> SameLetter(ch, capital)
    ensures SameLetter(ch, capital) ==> !White(ch)
  {
  }

  lemma {:induction false} TrimLeftDrops(s: string, a: nat)
    requires a <= |s| && forall i :: 0 <= i < a ==> IsSpace(s[i])
    requires a < |s| ==> !IsSpace(s[a])
    ensures TrimLeft(s) == s[a..]
  {
    if a > 0 {
      TrimLeftDrops(s[1..], a - 1);
    }
  }

  lemma {:induction false} TrimRightDrops(s: string, b: nat)
    requires b <= |s| && forall i :: b <= i < |s| ==> IsSpace(s[i])
    requires b > 0 ==> !IsSpace(s[b-1])
    ensures TrimRight(s) == s[..b]
    decreases |s|
  {
    if b < |s| {
      TrimRightDrops(s[..|s|-1], b);
      assert s[..|s|-1][..b] == s[..b];
    } else {
      assert s[..b] == s;
    }
  }

  lemma {:induction false} TrimLeftSplits(s: string) returns (a: nat)
    ensures a <= |s| && TrimLeft(s) == s[a..] && forall i :: 0 <= i < a ==> IsSpace(s[i])
  {
    if s != [] && IsSpace(s[0]) {
      var rest := TrimLeftSplits(s[1..]);
      a := rest + 1;
    } else {
      a := 0;
    }
  }

  lemma {:induction false} TrimRightSplits(s: string) returns (b: nat)
    ensures b <= |s| && TrimRight(s) == s[..b] && forall i :: b <= i < |s| ==> IsSpace(s[i])
    decreases |s|
  {
    if s != [] && IsSpace(s[|s|-1]) {
      b := TrimRightSplits(s[..|s|-1]);
      assert s[..|s|-1][..b] == s[..b];
    } else {
      b := |s|;
      assert s[..b] == s;
    }
  }

  ghost predicate AsciiWord(word: string) {
    word != [] && forall i :: 0 <= i < |word| ==> 'A' <= word[i] <= 'Z'
  }

  lemma {:induction false} SpelledIsTrimmed(raw: string, word: string, a: nat, b: nat)
    requires AsciiWord(word) && a <= b <= |raw| && SpellsAt(raw, word, a, b)
    ensures UpperAll(TrimRight(TrimLeft(raw))) == word
  {
    forall i | 0 <= i < |raw|
      ensures IsSpace(raw[i]) <==> White(raw[i])
    {
      SpaceIsWhite(raw[i]);
    }
    forall i | 0 <= i < |word|
      ensures Upper(raw[a + i]) == word[i] && !White(raw[a + i])
    {
      UpperIsSameLetter(raw[a + i], word[i]);
    }
    assert SameLetter(raw[a + 0], word[0]) && SameLetter(raw[a + (|word| - 1)], word[|word|-1]);
    UpperIsSameLetter(raw[a], word[0]);
    UpperIsSameLetter(raw[b-1], word[|word|-1]);
    TrimLeftDrops(raw, a);
    TrimRightDrops(raw[a..], b - a);
    assert raw[a..][..b-a] == raw[a..b];
  }

  lemma {:induction false} TrimmedIsSpelled(raw: string, word: string)
    requires AsciiWord(word) && UpperAll(TrimRight(TrimLeft(raw))) == word
    ensures Spells(raw, word)
  {
    var a := TrimLeftSplits(raw);
    var n := TrimRightSplits(raw[a..]);
    forall i | 0 <= i < a || a + n <= i < |raw|
      ensures White(raw[i])
    {
      assert i >= a ==> raw[i] == raw[a..][i - a];
      SpaceIsWhite(raw[i]);
    }
    forall i | 0 <= i < |word|
      ensures SameLetter(raw[a + i], word[i])
    {
      UpperIsSameLetter(raw[a + i], word[i]);
    }
    assert SpellsAt(raw, word, a, a + n);
  }

  lemma {:induction false} TrimmedUpperIs(raw: string, word: string)
    requires AsciiWord(word)
    ensures UpperAll(TrimRight(TrimLeft(raw))) == word <==> Spells(raw, word)
  {
    if a, b :| 0 <= a <= b <= |raw| && SpellsAt(raw, word, a, b) {
      SpelledIsTrimmed(raw, word, a, b);
    }
    if UpperAll(TrimRight(TrimLeft(raw))) == word {
      TrimmedIsSpelled(raw, word);
    }
  }

  /** An operation type is accepted exactly when it spells READ, WRITE or DELETE. */
  lemma ParseExact(raw: string)
    ensures ParseOperationType(raw) == Some(OpRead) <==> Spells(raw, "READ")
    ensures ParseOperationType(raw) == Some(OpWrite) <==> Spells(raw, "WRITE")
    ensures ParseOperationType(raw) == Some(OpDelete) <==> Spells(raw, "DELETE")
    ensures ParseOperationType(raw) == None <==>
            !Spells(raw, "READ") && !Spells(raw, "WRITE") && !Spells(raw, "DELETE")
  {
    TrimmedUpperIs(raw, "READ");
    TrimmedUpperIs(raw, "WRITE");
    TrimmedUpperIs(raw, "DELETE");
  }

  /** Case and surrounding white space do not matter; another letter does. */
  lemma KnownSpellings(read: string, write: string, delete: string, other: string)
    requires read == " read\n" && write == "Write" && delete == "\tdElEtE " && other == "reads"
    ensures ParseOperationType(read) == Some(OpRead)
    ensures ParseOperationType(write) == Some(OpWrite)
    ensures ParseOperationType(delete) == Some(OpDelete)
    ensures ParseOperationType(other) == None
  {
    SpellsRead(read);
    SpellsWrite(write);
    SpellsDelete(delete);
    ParseExact(read);
    ParseExact(write);
    ParseExact(delete);
    NoSpelling(other);
  }

  lemma SpellsRead(raw: string)
    requires raw == " read\n"
    ensures Spells(raw, "READ")
  {
    assert SpellsAt(raw, "READ", 1, 5);
  }

  lemma SpellsWrite(raw: string)
    requires raw == "Write"
    ensures Spells(raw, "WRITE")
  {
    assert SpellsAt(raw, "WRITE", 0, 5);
  }

  lemma SpellsDelete(raw: string)
    requires raw == "\tdElEtE "
    ensures Spells(raw, "DELETE")
  {
    assert SpellsAt(raw, "DELETE", 1, 7);
  }

  lemma NoSpelling(raw: string)
    requires raw == "reads"
    ensures ParseOperationType(raw) == None
  {
    SpellsAllOfIt(raw, "READ");
    SpellsAllOfIt(raw, "WRITE");
    SpellsAllOfIt(raw, "DELETE");
    ParseExact(raw);
  }

  lemma SpellsAllOfIt(raw: string, word: string)
    requires raw != [] && word != [] && !White(raw[0]) && !White(raw[|raw|-1])
    ensures Spells(raw, word) ==> |raw| == |word| && SameLetter(raw[0], word[0])
  {
    if a, b :| 0 <= a <= b <= |raw| && SpellsAt(raw, word, a, b) {
      assert a == 0 && b == |raw|;
      assert SameLetter(raw[a + 0], word[0]);
    }
  }

  // ----- translateRequest -----

  datatype TranslateError =
    | OutOfRange(seqId: nat) | Duplicate(seqId: nat) | BadType(seqId: nat)
    | RiderRequired(seqId: nat) | PayloadRequired(seqId: nat) | MissingSeqId(seqId: nat)

  datatype Translation = Translated(ops: seq<Operation>) | Rejected(error: TranslateError)

  /** The item's type is one of the three words. */
  ghost predicate NamesAType(item: BatchRequestItem) {
    Spells(item.operationType, "READ") || Spells(item.operationType, "WRITE") || Spells(item.operationType, "DELETE")
  }

  /** By itself the item is acceptable: one of the three words, a rider, and a payload if it is a write. */
  ghost predicate ItemFits(item: BatchRequestItem) {
    NamesAType(item) && item.riderId != [] && (Spells(item.operationType, "WRITE") ==> item.payload.Some?)
  }

  /** e is the first of the three things that can be wrong with an item by itself. */
  ghost predicate RightItemError(item: BatchRequestItem, e: TranslateError) {
    && e.seqId == item.seqId
    && match e
       case BadType(_) => !NamesAType(item)
       case RiderRequired(_) => NamesAType(item) && item.riderId == []
       case PayloadRequired(_) => Spells(item.operationType, "WRITE") && item.riderId != [] && item.payload == None
       case _ => false
  }

  /** One of the first k items has this seq_id. */
  predicate Occurs(items: seq<BatchRequestItem>, k: nat, seqId: nat)
    requires k <= |items|
  {
    exists j :: 0 <= j < k && items[j].seqId == seqId
  }

  /** Item k can be accepted after the items before it. */
  ghost predicate Fine(items: seq<BatchRequestItem>, k: nat)
    requires k < |items|
  {
    items[k].seqId < |items| && !Occurs(items, k, items[k].seqId) && ItemFits(items[k])
  }

  /** e says what is wrong with item k, given the items before it. */
  ghost predicate RightError(items: seq<BatchRequestItem>, k: nat, e: TranslateError)
    requires k < |items|
  {
    && e.seqId == items[k].seqId
    && match e
       case OutOfRange(q) => q >= |items|
       case Duplicate(q) => q < |items| && exists j :: 0 <= j < k && items[j].seqId == q
       case MissingSeqId(_) => false
       case _ => e.seqId < |items| && !Occurs(items, k, e.seqId) && RightItemError(items[k], e)
  }

  /** An item has at most one right error, and one exactly when it is not fine. */
  lemma RightErrorExactly(items: seq<BatchRequestItem>, k: nat)
    requires k < |items|
    ensures forall d, e :: RightError(items, k, d) && RightError(items, k, e) ==> d == e
    ensures Fine(items, k) <==> forall e :: !RightError(items, k, e)
  {
    if !Fine(items, k) {
      var q := items[k].seqId;
      var e :=
        if q >= |items| then OutOfRange(q)
        else if Occurs(items, k, q) then Duplicate(q)
        else if !NamesAType(items[k]) then BadType(q)
        else if items[k].riderId == [] then RiderRequired(q)
        else PayloadRequired(q);
      assert RightError(items, k, e);
    }
    OneWord(items[k].operationType);
  }

  /** No text spells two of the words. */
  lemma OneWord(raw: string)
    ensures Spells(raw, "WRITE") ==> !Spells(raw, "READ") && !Spells(raw, "DELETE")
    ensures Spells(raw, "READ") ==> !Spells(raw, "DELETE")
  {
    ParseExact(raw);
  }

  /** Each seq_id below the number of items occurs. */
  ghost predicate Dense(items: seq<BatchRequestItem>) {
    forall i :: 0 <= i < |items| ==> Occurs(items, |items|, i)
  }

  ghost predicate WellFormed(items: seq<BatchRequestItem>) {
    Dense(items) && forall k :: 0 <= k < |items| ==> ItemFits(items[k])
  }

  /** op does to the item's rider what the item's word says. */
  ghost predicate Carries(op: Operation, item: BatchRequestItem) {
    && op.seqId == item.seqId && op.key == item.riderId && op.result == Nil && op.err == None
    && (op.typ.OpRead? <==> Spells(item.operationType, "READ"))
    && (op.typ.OpWrite? <==> Spells(item.operationType, "WRITE"))
    && (op.typ.OpDelete? <==> Spells(item.operationType, "DELETE"))
    && (if op.typ.OpWrite? then item.payload.Some? && op.value == Boxed(item.payload.value) else op.value == Nil)
  }

  /** ops are the operations of the items, each at its seq_id. */
  ghost predicate Translates(items: seq<BatchRequestItem>, ops: seq<Operation>) {
    && |ops| == |items|
    && forall k :: 0 <= k < |items| ==>
         ItemFits(items[k]) && items[k].seqId < |ops| && Carries(ops[items[k].seqId], items[k])
  }

  ghost predicate InRangeAndDistinct(items: seq<BatchRequestItem>, n: nat) {
    && (forall k :: 0 <= k < |items| ==> items[k].seqId < n)
    && (forall j, k :: 0 <= j < k < |items| ==> items[j].seqId != items[k].seqId)
  }

  ghost function SeqIds(items: seq<BatchRequestItem>): set<nat> {
    set k | 0 <= k < |items| :: items[k].seqId
  }

  lemma {:induction false} SeqIdCount(items: seq<BatchRequestItem>)
    ensures |SeqIds(items)| <= |items|
    ensures |SeqIds(items)| == |items| <==> forall j, k :: 0 <= j < k < |items| ==> items[j].seqId != items[k].seqId
  {
    if items == [] {
      assert SeqIds(items) == {};
    } else {
      var n := |items| - 1;
      var rest := items[..n];
      SeqIdCount(rest);
      assert SeqIds(items) == SeqIds(rest) + {items[n].seqId};
      assert forall k :: 0 <= k < n ==> rest[k] == items[k];
      if items[n].seqId in SeqIds(rest) {
        assert SeqIds(items) == SeqIds(rest);
        var j :| 0 <= j < n && rest[j].seqId == items[n].seqId;
        assert items[j].seqId == items[n].seqId;
      } else {
        assert |SeqIds(items)| == |SeqIds(rest)| + 1;
      }
    }
  }

  /** n items whose seq_ids are below n and distinct cover all of 0..n-1, and conversely: the seq_ids
      are a permutation. */
  lemma Pigeonhole(items: seq<BatchRequestItem>)
    ensures InRangeAndDistinct(items, |items|) <==> Dense(items)
  {
    var n := |items|;
    SeqIdCount(items);
    if InRangeAndDistinct(items, n) {
      assert SeqIds(items) <= Positions(n);
      FullSubset(SeqIds(items), Positions(n));
      forall i | 0 <= i < n
        ensures Occurs(items, n, i)
      {
        assert i in SeqIds(items);
      }
    }
    if Dense(items) {
      forall i | i in Positions(n)
        ensures i in SeqIds(items)
      {
        assert Occurs(items, n, i);
      }
      SubsetCount(Positions(n), SeqIds(items));
      FullSubset(Positions(n), SeqIds(items));
      forall k | 0 <= k < n
        ensures items[k].seqId < n
      {
        assert items[k].seqId in SeqIds(items);
      }
    }
  }

  lemma FullSubset(a: set<nat>, b: set<nat>)
    requires a <= b && |a| == |b|
    ensures a == b
  {
    assert b == a + (b - a);
    assert |b| == |a| + |b - a|;
  }

  /** All items being fine means exactly a well-formed request. */
  lemma AllFineIsWellFormed(items: seq<BatchRequestItem>)
    ensures (forall k :: 0 <= k < |items| ==> Fine(items, k)) <==> WellFormed(items)
  {
    Pigeonhole(items);
    if forall k :: 0 <= k < |items| ==> Fine(items, k) {
      forall j, k | 0 <= j < k < |items|
        ensures items[j].seqId != items[k].seqId
      {
        assert Fine(items, k);
      }
      forall k | 0 <= k < |items|
        ensures items[k].seqId < |items| && ItemFits(items[k])
      {
        assert Fine(items, k);
      }
    }
  }

  ghost predicate FirstBad(items: seq<BatchRequestItem>, k: nat) {
    k < |items| && !Fine(items, k) && forall j :: 0 <= j < k ==> Fine(items, j)
  }

  /** What a failure at item k, the first one, means for the request. */
  lemma FirstBadDecides(items: seq<BatchRequestItem>, k: nat)
    requires FirstBad(items, k)
    ensures !WellFormed(items) && forall i :: FirstBad(items, i) ==> i == k
  {
    AllFineIsWellFormed(items);
  }

  /** The part of the loop body that looks at one item by itself. */
  method TranslateItem(item: BatchRequestItem) returns (op: Operation, error: Option<TranslateError>)
    ensures error == None <==> ItemFits(item)
    ensures error == None ==> Carries(op, item)
    ensures error.Some? ==> RightItemError(item, error.value)
  {
    ParseExact(item.operationType);
    var typ := ParseOperationType(item.operationType);
    op := Operation(item.seqId, item.riderId, OpRead, Nil, Nil, None);
    if typ == None {
      return op, Some(BadType(item.seqId));
    }
    if item.riderId == [] {
      return op, Some(RiderRequired(item.seqId));
    }
    op := op.(typ := typ.value);
    if typ.value == OpWrite {
      if item.payload == None {
        return op, Some(PayloadRequired(item.seqId));
      }
      op := op.(value := Boxed(item.payload.value));
    }
    error := None;
  }

  /** The second loop: the first index that was not seen. */
  method FirstUnseen(seen: array<bool>) returns (missing: Option<nat>)
    ensures missing == None <==> forall i :: 0 <= i < seen.Length ==> seen[i]
    ensures missing.Some? ==>
              missing.value < seen.Length && !seen[missing.value] && forall i :: 0 <= i < missing.value ==> seen[i]
  {
    for i := 0 to seen.Length
      invariant forall j :: 0 <= j < i ==> seen[j]
    {
      if !seen[i] {
        return Some(i);
      }
    }
    return None;
  }

  /** The first k items have no error, their operations are in place, and their seq_ids are marked. */
  ghost predicate Filled(items: seq<BatchRequestItem>, k: nat, ops: array<Operation>, seen: array<bool>)
    reads ops, seen
  {
    && k <= |items| == ops.Length == seen.Length
    && (forall j :: 0 <= j < k ==> Fine(items, j))
    && (forall i :: 0 <= i < |items| ==> (seen[i] <==> Occurs(items, k, i)))
    && (forall j :: 0 <= j < k ==>
          items[j].seqId < |items| && ItemFits(items[j]) && Carries(ops[items[j].seqId], items[j]))
  }

  /** One turn of the first loop. */
  method TranslateNext(items: seq<BatchRequestItem>, k: nat, ops: array<Operation>, seen: array<bool>)
    returns (error: Option<TranslateError>)
    requires k < |items| && Filled(items, k, ops, seen)
    modifies ops, seen
    ensures error == None <==> Fine(items, k)
    ensures error.Some? ==> RightError(items, k, error.value)
    ensures error == None ==> Filled(items, k + 1, ops, seen)
  {
    var item := items[k];
    if item.seqId >= |items| {
      return Some(OutOfRange(item.seqId));
    }
    if seen[item.seqId] {
      return Some(Duplicate(item.seqId));
    }
    seen[item.seqId] := true;
    var op;
    op, error := TranslateItem(item);
    if error.Some? {
      return;
    }
    ops[item.seqId] := op;
  }

  /** Translation succeeds exactly on well-formed requests, puts each operation at its seq_id, and
      otherwise reports the first item's error. */
  method TranslateRequest(items: seq<BatchRequestItem>) returns (r: Translation)
    ensures r.Translated? <==> WellFormed(items)
    ensures r.Translated? ==> Translates(items, r.ops)
    ensures forall k :: FirstBad(items, k) ==> r.Rejected? && RightError(items, k, r.error)
  {
    var n := |items|;
    var ops := new Operation[n](_ => Operation(0, [], OpRead, Nil, Nil, None));
    var seen := new bool[n](_ => false);
    for k := 0 to n
      invariant Filled(items, k, ops, seen)
    {
      var error := TranslateNext(items, k, ops, seen);
      if error.Some? {
        FirstBadDecides(items, k);
        return Rejected(error.value);
      }
    }
    var missing := FirstUnseen(seen);
    if missing.Some? {
      assert !Occurs(items, n, missing.value);
      return Rejected(MissingSeqId(missing.value));
    }
    forall i | 0 <= i < n
      ensures Occurs(items, n, i)
    {
      assert seen[i];
    }
    return Translated(ops[..]);
  }

  /** The check for a missing seq_id never fires: a rejected request has a first item that is not fine, and
      the error is that item's. */
  lemma MissingNeverReported(items: seq<BatchRequestItem>, r: Translation)
    requires r.Translated? <==> WellFormed(items)
    requires forall k :: FirstBad(items, k) ==> r.Rejected? && RightError(items, k, r.error)
    ensures r.Rejected? ==> !r.error.MissingSeqId? && exists k :: FirstBad(items, k) && RightError(items, k, r.error)
  {
    if r.Rejected? {
      AllFineIsWellFormed(items);
      var k :| 0 <= k < |items| && !Fine(items, k);
      var first := FirstBadBefore(items, k);
    }
  }

  lemma {:induction false} FirstBadBefore(items: seq<BatchRequestItem>, k: nat) returns (first: nat)
    requires k < |items| && !Fine(items, k)
    ensures FirstBad(items, first)
  {
    first := k;
    if j :| 0 <= j < k && !Fine(items, j) {
      first := FirstBadBefore(items, j);
    }
  }

  /** The result of translation is determined by the items, whatever their order. */
  lemma TranslationIgnoresOrder(items: seq<BatchRequestItem>, ops: seq<Operation>,
                                items': seq<BatchRequestItem>, ops': seq<Operation>)
    requires WellFormed(items) && Translates(items, ops) && Translates(items', ops')
    requires multiset(items) == multiset(items')
    ensures ops == ops'
  {
    assert |items| == |multiset(items)| == |multiset(items')| == |items'|;
    forall i | 0 <= i < |ops|
      ensures ops[i] == ops'[i]
    {
      assert Occurs(items, |items|, i);
      var k :| 0 <= k < |items| && items[k].seqId == i;
      assert items[k] in multiset(items');
      var k' :| 0 <= k' < |items'| && items'[k'] == items[k];
    }
  }

  /** Translated operations are dense, of known types and blank, so Build cannot reject them. */
  lemma TranslatedIsBuildable(items: seq<BatchRequestItem>, ops: seq<Operation>)
    requires WellFormed(items) && Translates(items, ops)
    ensures Buildable(ops, |ops|) && forall i :: 0 <= i < |ops| ==> ops[i].Blank()
  {
    forall i | 0 <= i < |ops|
      ensures ops[i].seqId == i && ops[i].Known() && ops[i].Blank()
    {
      assert Occurs(items, |items|, i);
      var k :| 0 <= k < |items| && items[k].seqId == i;
    }
  }
}
