/**
 The storage engine as the layers above it see it.

 A `WriteBatch` buffers sets and deletes in two separate lists.  Committing it
 numbers the sets first and the deletes after them, so a key that is both set
 and deleted in one batch ends up deleted, whatever order the caller used.
 Reads return the newest record of a key at or below a read sequence.
 */
module Storage {
  import opened Basics

  type Key = string

  /** A stored payload with its absolute expiry time (0 means never). */
  datatype Value = Value(text: string, expiry: nat)

  type Data = map<Key, Value>

  /** Operation cap of one batch. */
  const MAX_OPS: nat := 10_000

  datatype BatchError = BatchTooLarge

  // ----- Operations and their effect on the visible data -----

  datatype Op = Set(key: Key, value: Value) | Del(key: Key)

  function ApplyOp(d: Data, op: Op): Data {
    match op
    case Set(k, v) => d[k := v]
    case Del(k) => d - {k}
  }

  function ApplyOps(d: Data, ops: seq<Op>): Data {
    if ops == [] then d else ApplyOp(ApplyOps(d, ops[..|ops| - 1]), ops[|ops| - 1])
  }

  function Get(d: Data, k: Key): Option<Value> {
    if k in d then Some(d[k]) else None
  }

  /** The last operation that names `k`; it alone decides what `k` holds. */
  function LastOp(ops: seq<Op>, k: Key): (r: Option<Op>)
    ensures r.Some? ==> r.value.key == k
  {
    if ops == [] then None
    else if ops[|ops| - 1].key == k then Some(ops[|ops| - 1])
    else LastOp(ops[..|ops| - 1], k)
  }

  function OpResult(before: Option<Value>, last: Option<Op>): Option<Value> {
    match last
    case None => before
    case Some(Set(_, v)) => Some(v)
    case Some(Del(_)) => None
  }

  lemma {:induction false} ApplyOpsAt(d: Data, ops: seq<Op>, k: Key)
    ensures Get(ApplyOps(d, ops), k) == OpResult(Get(d, k), LastOp(ops, k))
  {
    if ops != [] {
      ApplyOpsAt(d, ops[..|ops| - 1], k);
    }
  }

  lemma ApplyOpsSnoc(d: Data, ops: seq<Op>, op: Op)
    ensures ApplyOps(d, ops + [op]) == ApplyOp(ApplyOps(d, ops), op)
  {
    assert (ops + [op])[..|ops|] == ops;
  }

  lemma {:induction false} ApplyOpsConcat(d: Data, a: seq<Op>, b: seq<Op>)
    ensures ApplyOps(d, a + b) == ApplyOps(ApplyOps(d, a), b)
    decreases |b|
  {
    if b == [] {
      assert a + b == a;
    } else {
      var n := |b| - 1;
      assert (a + b)[..|a + b| - 1] == a + b[..n];
      ApplyOpsConcat(d, a, b[..n]);
    }
  }

  lemma {:induction false} LastOpConcat(a: seq<Op>, b: seq<Op>, k: Key)
    ensures LastOp(a + b, k) == (if LastOp(b, k).Some? then LastOp(b, k) else LastOp(a, k))
    decreases |b|
  {
    if b == [] {
      assert a + b == a;
    } else {
      var n := |b| - 1;
      assert (a + b)[..|a + b| - 1] == a + b[..n];
      LastOpConcat(a, b[..n], k);
    }
  }

  lemma DataEqual(a: Data, b: Data)
    requires forall k :: Get(a, k) == Get(b, k)
    ensures a == b
  {
    assert forall k :: (k in a <==> Get(a, k).Some?) && (k in b <==> Get(b, k).Some?);
    assert a.Keys == b.Keys;
    forall k | k in a ensures a[k] == b[k] {
      assert Get(a, k) == Get(b, k);
    }
  }

  /** No database tells the two operation lists apart. */
  ghost predicate SameEffect(a: seq<Op>, b: seq<Op>) {
    forall d: Data :: ApplyOps(d, a) == ApplyOps(d, b)
  }

  ghost predicate SameLastOps(a: seq<Op>, b: seq<Op>) {
    forall k: Key :: LastOp(a, k) == LastOp(b, k)
  }

  /** Two operation lists have the same effect on every database exactly when
      they agree on the last operation of every key. */
  lemma SameEffectIffSameLastOps(a: seq<Op>, b: seq<Op>)
    ensures SameEffect(a, b) <==> SameLastOps(a, b)
  {
    if SameLastOps(a, b) {
      forall d: Data ensures ApplyOps(d, a) == ApplyOps(d, b) {
        SameEffectAt(d, a, b);
      }
    }
    if SameEffect(a, b) {
      forall k: Key ensures LastOp(a, k) == LastOp(b, k) {
        DistinguishingData(a, b, k);
      }
    }
  }

  lemma SameEffectAt(d: Data, a: seq<Op>, b: seq<Op>)
    requires SameLastOps(a, b)
    ensures ApplyOps(d, a) == ApplyOps(d, b)
  {
    forall k ensures Get(ApplyOps(d, a), k) == Get(ApplyOps(d, b), k) {
      ApplyOpsAt(d, a, k);
      ApplyOpsAt(d, b, k);
    }
    DataEqual(ApplyOps(d, a), ApplyOps(d, b));
  }

  lemma DistinguishingData(a: seq<Op>, b: seq<Op>, k: Key)
    requires SameEffect(a, b)
    ensures LastOp(a, k) == LastOp(b, k)
  {
    var empty: Data := map[];
    var v0, v1 := Value("", 0), Value("", 1);
    assert ApplyOps(empty, a) == ApplyOps(empty, b);
    assert ApplyOps(map[k := v0], a) == ApplyOps(map[k := v0], b);
    assert ApplyOps(map[k := v1], a) == ApplyOps(map[k := v1], b);
    ApplyOpsAt(empty, a, k);
    ApplyOpsAt(empty, b, k);
    ApplyOpsAt(map[k := v0], a, k);
    ApplyOpsAt(map[k := v0], b, k);
    ApplyOpsAt(map[k := v1], a, k);
    ApplyOpsAt(map[k := v1], b, k);
  }

  // ----- Write batches -----

  datatype WriteBatch = WriteBatch(writes: seq<(Key, Value)>, deletes: seq<Key>) {

    function OpCount(): nat {
      |writes| + |deletes|
    }

    predicate IsEmpty() {
      writes == [] && deletes == []
    }

    function AddSet(k: Key, v: Value): Result<WriteBatch, BatchError> {
      if OpCount() >= MAX_OPS then Err(BatchTooLarge)
      else Ok(this.(writes := writes + [(k, v)]))
    }

    function AddDelete(k: Key): Result<WriteBatch, BatchError> {
      if OpCount() >= MAX_OPS then Err(BatchTooLarge)
      else Ok(this.(deletes := deletes + [k]))
    }
  }

  const EMPTY_BATCH := WriteBatch([], [])

  function SetOps(writes: seq<(Key, Value)>): (r: seq<Op>)
    ensures |r| == |writes|
    ensures forall i | 0 <= i < |r| :: r[i] == Set(writes[i].0, writes[i].1)
  {
    seq(|writes|, i requires 0 <= i < |writes| => Set(writes[i].0, writes[i].1))
  }

  function DelOps(deletes: seq<Key>): (r: seq<Op>)
    ensures |r| == |deletes|
    ensures forall i | 0 <= i < |r| :: r[i] == Del(deletes[i])
  {
    seq(|deletes|, i requires 0 <= i < |deletes| => Del(deletes[i]))
  }

  /** The order a commit numbers the batch's records in. */
  function BatchOps(b: WriteBatch): seq<Op> {
    SetOps(b.writes) + DelOps(b.deletes)
  }

  function CommitData(d: Data, b: WriteBatch): Data {
    ApplyOps(d, BatchOps(b))
  }

  lemma {:induction false} LastOpOfDeletes(deletes: seq<Key>, k: Key)
    ensures LastOp(DelOps(deletes), k) == if k in deletes then Some(Del(k)) else None
  {
    if deletes != [] {
      var n := |deletes| - 1;
      assert DelOps(deletes)[..n] == DelOps(deletes[..n]);
      assert deletes == deletes[..n] + [deletes[n]];
      LastOpOfDeletes(deletes[..n], k);
    }
  }

  lemma {:induction false} LastOpOfSets(writes: seq<(Key, Value)>, k: Key)
    ensures LastOp(SetOps(writes), k).Some? <==> exists i :: 0 <= i < |writes| && writes[i].0 == k
    ensures LastOp(SetOps(writes), k).Some? ==> LastOp(SetOps(writes), k).value.Set?
  {
    if writes != [] {
      var n := |writes| - 1;
      assert SetOps(writes)[..n] == SetOps(writes[..n]);
      LastOpOfSets(writes[..n], k);
      if writes[n].0 != k && LastOp(SetOps(writes[..n]), k).Some? {
        var i :| 0 <= i < n && writes[..n][i].0 == k;
        assert writes[i].0 == k;
      }
      if i :| 0 <= i < |writes| && writes[i].0 == k {
        assert i < n ==> writes[..n][i].0 == k;
      }
    }
  }

  /** A delete beats every set of the same key in the batch. */
  lemma DeletesWin(b: WriteBatch, k: Key)
    ensures LastOp(BatchOps(b), k) ==
            if k in b.deletes then Some(Del(k)) else LastOp(SetOps(b.writes), k)
  {
    LastOpConcat(SetOps(b.writes), DelOps(b.deletes), k);
    LastOpOfDeletes(b.deletes, k);
  }

  // ----- The versioned record store -----

  /** One numbered record; no value means a tombstone. */
  datatype Record = Record(seqNo: nat, key: Key, value: Option<Value>)

  function RecordOp(r: Record): Op {
    match r.value
    case None => Del(r.key)
    case Some(v) => Set(r.key, v)
  }

  function RecordOps(rs: seq<Record>): (r: seq<Op>)
    ensures |r| == |rs|
    ensures forall i | 0 <= i < |r| :: r[i] == RecordOp(rs[i])
  {
    seq(|rs|, i requires 0 <= i < |rs| => RecordOp(rs[i]))
  }

  ghost predicate Ascending(rs: seq<Record>, nextSeq: nat) {
    && (forall i, j | 0 <= i < j < |rs| :: rs[i].seqNo < rs[j].seqNo)
    && (forall i | 0 <= i < |rs| :: rs[i].seqNo < nextSeq)
  }

  /** `r` is the newest record of `k` that a reader at `readSeq` may see. */
  ghost predicate NewestVisible(rs: seq<Record>, k: Key, readSeq: nat, r: Record) {
    && r in rs && r.key == k && r.seqNo <= readSeq
    && forall o | o in rs && o.key == k && o.seqNo <= readSeq :: o.seqNo <= r.seqNo
  }

  /** What a read at `readSeq` returns for `k`: the newest visible record. */
  ghost predicate Reads(rs: seq<Record>, k: Key, readSeq: nat, v: Option<Value>) {
    if exists r :: NewestVisible(rs, k, readSeq, r)
    then exists r :: NewestVisible(rs, k, readSeq, r) && r.value == v
    else v == None
  }

  /** Reading any key through the versions equals applying, in order, the
      operations numbered at or below the read sequence. */
  lemma {:induction false} ReadsAreReplayedOps(rs: seq<Record>, nextSeq: nat, upto: nat, readSeq: nat, k: Key)
    requires Ascending(rs, nextSeq)
    requires upto <= |rs|
    requires forall i | 0 <= i < |rs| :: i < upto <==> rs[i].seqNo <= readSeq
    ensures Reads(rs, k, readSeq, Get(ApplyOps(map[], RecordOps(rs[..upto])), k))
  {
    var ops := RecordOps(rs[..upto]);
    ApplyOpsAt(map[], ops, k);
    match LastOp(ops, k) {
      case None =>
        NoLastOp(ops, k);
        assert forall i | 0 <= i < upto :: ops[i].key == rs[i].key;
        assert forall r | r in rs && r.seqNo <= readSeq :: r.key != k;
      case Some(op) =>
        var i := LastOpIndex(ops, k);
        forall o | o in rs && o.key == k && o.seqNo <= readSeq ensures o.seqNo <= rs[i].seqNo {
          var j :| 0 <= j < |rs| && rs[j] == o;
          assert ops[j].key == k;
        }
        assert NewestVisible(rs, k, readSeq, rs[i]);
    }
  }

  /** A reader holding the newest sequence number of `committed` keeps seeing
      exactly that data however many commits are appended later. */
  lemma SnapshotReadsAreStable(committed: seq<Record>, later: seq<Record>, readSeq: nat, nextSeq: nat, k: Key)
    requires Ascending(committed + later, nextSeq)
    requires forall r | r in committed :: r.seqNo <= readSeq
    requires forall r | r in later :: readSeq < r.seqNo
    ensures Reads(committed + later, k, readSeq, Get(ApplyOps(map[], RecordOps(committed)), k))
  {
    var all := committed + later;
    assert all[..|committed|] == committed;
    assert forall i | |committed| <= i < |all| :: all[i] in later;
    ReadsAreReplayedOps(all, nextSeq, |committed|, readSeq, k);
  }

  lemma {:induction false} NoLastOp(ops: seq<Op>, k: Key)
    requires LastOp(ops, k).None?
    ensures forall i | 0 <= i < |ops| :: ops[i].key != k
  {
    if ops != [] {
      NoLastOp(ops[..|ops| - 1], k);
      assert forall i | 0 <= i < |ops| - 1 :: ops[..|ops| - 1][i] == ops[i];
    }
  }

  lemma {:induction false} LastOpIndex(ops: seq<Op>, k: Key) returns (i: nat)
    requires LastOp(ops, k).Some?
    ensures i < |ops| && ops[i].key == k && LastOp(ops, k) == Some(ops[i])
    ensures forall j | i < j < |ops| :: ops[j].key != k
  {
    var n := |ops| - 1;
    if ops[n].key == k {
      i := n;
    } else {
      i := LastOpIndex(ops[..n], k);
    }
  }

  /** The records one commit appends when its first sequence number is `base`. */
  ghost function CommitRecords(base: nat, b: WriteBatch): (r: seq<Record>)
    ensures |r| == b.OpCount()
    ensures forall i | 0 <= i < |r| :: r[i].seqNo == base + i
    ensures RecordOps(r) == BatchOps(b)
  {
    seq(b.OpCount(), i requires 0 <= i < b.OpCount() =>
      if i < |b.writes| then Record(base + i, b.writes[i].0, Some(b.writes[i].1))
      else Record(base + i, b.deletes[i - |b.writes|], None))
  }

  /** The single-node commit path: records are appended with consecutive
      sequence numbers and the commit marker takes the next one. */
  class Engine {
    var records: seq<Record>
    var nextSeq: nat

    ghost predicate Valid()
      reads this
    {
      Ascending(records, nextSeq)
    }

    /** The latest committed data. */
    ghost function Contents(): Data
      reads this
    {
      ApplyOps(map[], RecordOps(records))
    }

    constructor ()
      ensures Valid() && Contents() == map[]
    {
      records, nextSeq := [], 1;
    }

    method Commit(b: WriteBatch) returns (marker: nat)
      requires Valid()
      modifies this
      ensures Valid()
      ensures Contents() == CommitData(old(Contents()), b)
      ensures marker == old(nextSeq) + b.OpCount() && nextSeq == marker + 1
      ensures old(records) <= records
      ensures forall i | |old(records)| <= i < |records| :: old(nextSeq) <= records[i].seqNo < marker
    {
      var base := nextSeq;
      nextSeq := nextSeq + b.OpCount() + 1;
      var out;
      out, marker := NumberRecords(base, b);
      AppendedRecords(records, out);
      records := records + out;
    }
  }

  /** Numbers a batch's sets, then its deletes; `current` is the marker. */
  method NumberRecords(base: nat, b: WriteBatch) returns (out: seq<Record>, current: nat)
    ensures out == CommitRecords(base, b) && current == base + b.OpCount()
  {
    ghost var all := CommitRecords(base, b);
    out, current := [], base;
    for i := 0 to |b.writes|
      invariant current == base + i && out == all[..i]
    {
      out := out + [Record(current, b.writes[i].0, Some(b.writes[i].1))];
      current := current + 1;
    }
    for i := 0 to |b.deletes|
      invariant current == base + |b.writes| + i && out == all[..|b.writes| + i]
    {
      out := out + [Record(current, b.deletes[i], None)];
      current := current + 1;
    }
  }

  lemma AppendedRecords(old_: seq<Record>, new_: seq<Record>)
    ensures ApplyOps(map[], RecordOps(old_ + new_)) ==
            ApplyOps(ApplyOps(map[], RecordOps(old_)), RecordOps(new_))
  {
    assert RecordOps(old_ + new_) == RecordOps(old_) + RecordOps(new_);
    ApplyOpsConcat(map[], RecordOps(old_), RecordOps(new_));
  }
}
