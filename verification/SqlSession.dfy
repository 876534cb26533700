/** A SQL transaction's staged writes, and reading a table through them. */
module SqlSession {
  import opened Basics
  import opened Storage
  import opened IndexEncoding
  import opened SecondaryIndex

  // ----- Staging -----

  function DropKey(writes: seq<(Key, Value)>, k: Key): (r: seq<(Key, Value)>)
    ensures |r| <= |writes|
  {
    if writes == [] then []
    else
      var n := |writes| - 1;
      DropKey(writes[..n], k) + (if writes[n].0 != k then [writes[n]] else [])
  }

  function DropDelete(deletes: seq<Key>, k: Key): (r: seq<Key>)
    ensures |r| <= |deletes|
    ensures forall x :: x in r <==> x in deletes && x != k
  {
    if deletes == [] then []
    else
      var n := |deletes| - 1;
      assert deletes == deletes[..n] + [deletes[n]];
      DropDelete(deletes[..n], k) + (if deletes[n] != k then [deletes[n]] else [])
  }

  lemma {:induction false} DropKeyOps(writes: seq<(Key, Value)>, k: Key, x: Key)
    ensures LastOp(SetOps(DropKey(writes, k)), x) == if x == k then None else LastOp(SetOps(writes), x)
  {
    if writes != [] {
      var n := |writes| - 1;
      DropKeyOps(writes[..n], k, x);
      assert SetOps(writes)[..n] == SetOps(writes[..n]);
      var kept := DropKey(writes[..n], k);
      if writes[n].0 != k {
        assert SetOps(kept + [writes[n]])[..|kept|] == SetOps(kept);
      } else {
        assert kept + [] == kept;
      }
    }
  }

  lemma SetOpsSnoc(writes: seq<(Key, Value)>, k: Key, v: Value, x: Key)
    ensures LastOp(SetOps(writes + [(k, v)]), x) == if x == k then Some(Set(k, v)) else LastOp(SetOps(writes), x)
  {
    assert SetOps(writes + [(k, v)])[..|writes|] == SetOps(writes);
  }

  /** What a batch does to one key. */
  ghost function Effect(b: WriteBatch, k: Key): Option<Op> {
    LastOp(BatchOps(b), k)
  }

  /** `after` is `before` with a later batch folded in. */
  ghost predicate Staged(before: WriteBatch, batch: WriteBatch, after: WriteBatch) {
    forall k :: Effect(after, k) == if Effect(batch, k).Some? then Effect(batch, k) else Effect(before, k)
  }

  lemma StageSetEffect(p: WriteBatch, k: Key, v: Value, x: Key)
    ensures Effect(WriteBatch(DropKey(p.writes, k) + [(k, v)], DropDelete(p.deletes, k)), x)
         == if x == k then Some(Set(k, v)) else Effect(p, x)
  {
    hide LastOp, DropKey, DropDelete;
    var q := WriteBatch(DropKey(p.writes, k) + [(k, v)], DropDelete(p.deletes, k));
    DeletesWin(q, x);
    DeletesWin(p, x);
    SetOpsSnoc(DropKey(p.writes, k), k, v, x);
    DropKeyOps(p.writes, k, x);
  }

  lemma StageDeleteEffect(p: WriteBatch, k: Key, x: Key)
    ensures Effect(WriteBatch(DropKey(p.writes, k), p.deletes + [k]), x)
         == if x == k then Some(Del(k)) else Effect(p, x)
  {
    hide LastOp, DropKey;
    var q := WriteBatch(DropKey(p.writes, k), p.deletes + [k]);
    DeletesWin(q, x);
    DeletesWin(p, x);
    DropKeyOps(p.writes, k, x);
  }

  /** A batch cut after its first `i` writes and `j` deletes. */
  function Prefix(b: WriteBatch, i: nat, j: nat): WriteBatch
    requires i <= |b.writes| && j <= |b.deletes|
  {
    WriteBatch(b.writes[..i], b.deletes[..j])
  }

  lemma MoreWrites(b: WriteBatch, i: nat, k: Key)
    requires i < |b.writes|
    ensures Effect(Prefix(b, i + 1, 0), k)
         == if k == b.writes[i].0 then Some(Set(k, b.writes[i].1)) else Effect(Prefix(b, i, 0), k)
  {
    hide LastOp;
    DeletesWin(Prefix(b, i + 1, 0), k);
    DeletesWin(Prefix(b, i, 0), k);
    assert b.writes[..i + 1] == b.writes[..i] + [(b.writes[i].0, b.writes[i].1)];
    SetOpsSnoc(b.writes[..i], b.writes[i].0, b.writes[i].1, k);
  }

  lemma MoreDeletes(b: WriteBatch, j: nat, k: Key)
    requires j < |b.deletes|
    ensures Effect(Prefix(b, |b.writes|, j + 1), k)
         == if k == b.deletes[j] then Some(Del(k)) else Effect(Prefix(b, |b.writes|, j), k)
  {
    hide LastOp;
    DeletesWin(Prefix(b, |b.writes|, j + 1), k);
    DeletesWin(Prefix(b, |b.writes|, j), k);
    assert b.deletes[..j + 1] == b.deletes[..j] + [b.deletes[j]];
  }

  lemma {:induction false} DropKeyNone(writes: seq<(Key, Value)>, k: Key)
    requires |DropKey(writes, k)| == |writes|
    ensures DropKey(writes, k) == writes
  {
    if writes != [] {
      DropKeyNone(writes[..|writes| - 1], k);
    }
  }

  lemma {:induction false} DropDeleteNone(deletes: seq<Key>, k: Key)
    requires |DropDelete(deletes, k)| == |deletes|
    ensures DropDelete(deletes, k) == deletes
  {
    if deletes != [] {
      DropDeleteNone(deletes[..|deletes| - 1], k);
    }
  }

  /** Stages one operation: what was staged for its key goes, unless the key is
      deleted again, and none comes out when the batch is full without it. */
  function StageOp(p: WriteBatch, op: Op): Option<WriteBatch> {
    match op
    case Set(k, v) =>
      var dropped := WriteBatch(DropKey(p.writes, k), DropDelete(p.deletes, k));
      if dropped.OpCount() >= MAX_OPS then None else Some(dropped.(writes := dropped.writes + [(k, v)]))
    case Del(k) =>
      var dropped := WriteBatch(DropKey(p.writes, k), p.deletes);
      if dropped.OpCount() >= MAX_OPS then None else Some(dropped.(deletes := dropped.deletes + [k]))
  }

  /** The first of the operations for which there is no room, if any. */
  function StopOf(p: WriteBatch, ops: seq<Op>): (stop: Option<nat>)
    ensures stop.Some? ==> stop.value < |ops|
    decreases |ops|
  {
    if ops == [] then None
    else match StageOp(p, ops[0])
      case None => Some(0)
      case Some(q) => (match StopOf(q, ops[1..]) case None => None case Some(n) => Some(n + 1))
  }

  /** What is pending once the operations up to the stop are in. */
  function FoldOf(p: WriteBatch, ops: seq<Op>): WriteBatch
    decreases |ops|
  {
    if ops == [] then p
    else match StageOp(p, ops[0])
      case None => p
      case Some(q) => FoldOf(q, ops[1..])
  }

  /** The operations folded in. */
  function FoldedOps(p: WriteBatch, ops: seq<Op>): seq<Op> {
    match StopOf(p, ops) case None => ops case Some(n) => ops[..n]
  }

  lemma StageOpEffect(p: WriteBatch, op: Op, k: Key)
    requires StageOp(p, op).Some?
    ensures Effect(StageOp(p, op).value, k) == if k == op.key then Some(op) else Effect(p, k)
  {
    hide Effect, DropKey, DropDelete;
    match op
    case Set(key, v) => StageSetEffect(p, key, v, k);
    case Del(key) => StageDeleteEffect(p, key, k);
  }

  lemma LastOpFront(ops: seq<Op>, k: Key)
    requires ops != []
    ensures LastOp(ops, k) ==
            if LastOp(ops[1..], k).Some? then LastOp(ops[1..], k) else if ops[0].key == k then Some(ops[0]) else None
  {
    assert ops == [ops[0]] + ops[1..];
    LastOpConcat([ops[0]], ops[1..], k);
    assert [ops[0]][..0] == [];
  }

  /** The fold does to each key what the operations folded in do to it. */
  lemma {:induction false} FoldEffect(p: WriteBatch, ops: seq<Op>, k: Key)
    ensures Effect(FoldOf(p, ops), k) ==
            if LastOp(FoldedOps(p, ops), k).Some? then LastOp(FoldedOps(p, ops), k) else Effect(p, k)
    decreases |ops|
  {
    hide Effect, LastOp, StageOp;
    if ops == [] {
      NoLastOp(k);
    } else if StageOp(p, ops[0]).None? {
      assert ops[..0] == [];
      NoLastOp(k);
    } else {
      var q := StageOp(p, ops[0]).value;
      FoldEffect(q, ops[1..], k);
      StageOpEffect(p, ops[0], k);
      var done := FoldedOps(p, ops);
      assert done[0] == ops[0] && done[1..] == FoldedOps(q, ops[1..]);
      LastOpFront(done, k);
    }
  }

  lemma NoLastOp(k: Key)
    ensures LastOp([], k) == None
  {
  }

  lemma FoldIsStaged(pending: WriteBatch, batch: WriteBatch)
    requires StopOf(pending, BatchOps(batch)).None?
    ensures Staged(pending, batch, FoldOf(pending, BatchOps(batch)))
  {
    hide FoldOf, StopOf, LastOp, BatchOps;
    forall k
      ensures Effect(FoldOf(pending, BatchOps(batch)), k) ==
              if Effect(batch, k).Some? then Effect(batch, k) else Effect(pending, k)
    {
      FoldEffect(pending, BatchOps(batch), k);
    }
  }

  /** An operation that finds no room has nothing of its key to drop. */
  lemma NoRoomDropsNothing(p: WriteBatch, op: Op)
    requires p.OpCount() <= MAX_OPS && StageOp(p, op).None?
    ensures p.OpCount() == MAX_OPS && DropKey(p.writes, op.key) == p.writes
    ensures op.Set? ==> DropDelete(p.deletes, op.key) == p.deletes
  {
    hide DropKey, DropDelete;
    match op
    case Set(k, v) =>
      DropKeyNone(p.writes, k);
      DropDeleteNone(p.deletes, k);
    case Del(k) =>
      DropKeyNone(p.writes, k);
  }

  lemma FoldStep(p: WriteBatch, ops: seq<Op>, i: nat)
    requires i < |ops|
    ensures match StageOp(p, ops[i])
            case None => FoldOf(p, ops[i..]) == p && StopOf(p, ops[i..]) == Some(0)
            case Some(q) =>
              && FoldOf(p, ops[i..]) == FoldOf(q, ops[i + 1..])
              && (StopOf(p, ops[i..]).None? <==> StopOf(q, ops[i + 1..]).None?)
  {
    hide StageOp;
    assert ops[i..][1..] == ops[i + 1..];
  }

  lemma FoldNothing(p: WriteBatch)
    ensures FoldOf(p, []) == p && StopOf(p, []) == None
  {
  }

  /** Folds a statement's batch into the pending one: a later write or delete
      of a key replaces what was staged for it.  Stops at the first operation there
      is no room for, and then what was folded in so far stays. */
  method Stage(pending: WriteBatch, batch: WriteBatch) returns (p: WriteBatch, ok: bool)
    requires pending.OpCount() <= MAX_OPS
    ensures p == FoldOf(pending, BatchOps(batch)) && p.OpCount() <= MAX_OPS
    ensures ok <==> StopOf(pending, BatchOps(batch)).None?
    ensures ok ==> Staged(pending, batch, p)
  {
    hide DropKey, DropDelete, Staged, FoldOf, StopOf;
    ghost var ops := BatchOps(batch);
    p, ok := pending, true;
    assert ops[0..] == ops;
    for i := 0 to |batch.writes|
      invariant p.OpCount() <= MAX_OPS && FoldOf(p, ops[i..]) == FoldOf(pending, ops)
      invariant StopOf(p, ops[i..]).None? <==> StopOf(pending, ops).None?
    {
      FoldStep(p, ops, i);
      var (k, v) := batch.writes[i];
      assert ops[i] == Set(k, v);
      var dropped := WriteBatch(DropKey(p.writes, k), DropDelete(p.deletes, k));
      match dropped.AddSet(k, v)
      case Err(_) =>
        NoRoomDropsNothing(p, ops[i]);
        return dropped, false;
      case Ok(q) => p := q;
    }
    for j := 0 to |batch.deletes|
      invariant p.OpCount() <= MAX_OPS && FoldOf(p, ops[|batch.writes| + j..]) == FoldOf(pending, ops)
      invariant StopOf(p, ops[|batch.writes| + j..]).None? <==> StopOf(pending, ops).None?
    {
      FoldStep(p, ops, |batch.writes| + j);
      var k := batch.deletes[j];
      assert ops[|batch.writes| + j] == Del(k);
      var dropped := WriteBatch(DropKey(p.writes, k), p.deletes);
      match dropped.AddDelete(k)
      case Err(_) =>
        NoRoomDropsNothing(p, ops[|batch.writes| + j]);
        return dropped, false;
      case Ok(q) => p := q;
    }
    assert ops[|batch.writes| + |batch.deletes|..] == [];
    FoldNothing(p);
    FoldIsStaged(pending, batch);
  }

  // ----- When a statement does not fit, and what it leaves -----

  /** What is pending acts as before. */
  ghost predicate SamePending(pending: WriteBatch, p: WriteBatch) {
    forall k :: Effect(p, k) == Effect(pending, k)
  }

  /** An operation, the last one of its key among the first `n`, that says of the
      key what was not already pending for it. */
  ghost predicate ChangesAt(pending: WriteBatch, ops: seq<Op>, n: nat, m: nat) {
    m < n <= |ops| && Effect(pending, ops[m].key) != Some(ops[m]) && forall i | m < i < n :: ops[i].key != ops[m].key
  }

  lemma {:induction false} LastOpIsOne(ops: seq<Op>, k: Key)
    ensures LastOp(ops, k).Some? ==>
              exists m :: 0 <= m < |ops| && ops[m] == LastOp(ops, k).value
                  && forall i | m < i < |ops| :: ops[i].key != k
  {
    if ops != [] && ops[|ops| - 1].key != k {
      var n := |ops| - 1;
      LastOpIsOne(ops[..n], k);
      if LastOp(ops, k).Some? {
        var m :| 0 <= m < n && ops[..n][m] == LastOp(ops[..n], k).value && forall i | m < i < n :: ops[..n][i].key != k;
        assert forall i | 0 <= i < n :: ops[..n][i] == ops[i];
      }
    } else if ops != [] {
      assert ops[|ops| - 1] == LastOp(ops, k).value;
    }
  }

  lemma {:induction false} OneIsLastOp(ops: seq<Op>, m: nat)
    requires m < |ops| && forall i | m < i < |ops| :: ops[i].key != ops[m].key
    ensures LastOp(ops, ops[m].key) == Some(ops[m])
  {
    if m < |ops| - 1 {
      OneIsLastOp(ops[..|ops| - 1], m);
    }
  }

  /** A statement that does not fit leaves the transaction as it was exactly when no
      operation before the first one without room changes what is pending for its
      key; both are read off what is pending and the statement's operations. */
  lemma FailedStageUnchangedIff(pending: WriteBatch, ops: seq<Op>)
    requires StopOf(pending, ops).Some?
    ensures SamePending(pending, FoldOf(pending, ops)) <==>
              !exists m: nat :: ChangesAt(pending, ops, StopOf(pending, ops).value, m)
  {
    hide Effect, FoldOf, StopOf, LastOp;
    var n := StopOf(pending, ops).value;
    var done, p := ops[..n], FoldOf(pending, ops);
    if m: nat :| ChangesAt(pending, ops, n, m) {
      assert done[m] == ops[m];
      OneIsLastOp(done, m);
      FoldEffect(pending, ops, ops[m].key);
      assert Effect(p, ops[m].key) == Some(ops[m]);
    } else {
      forall k ensures Effect(p, k) == Effect(pending, k) {
        FoldEffect(pending, ops, k);
        LastOpIsOne(done, k);
        if LastOp(done, k).Some? {
          LastOpKey(done, k);
          var m :| 0 <= m < n && done[m] == LastOp(done, k).value && forall i | m < i < n :: done[i].key != k;
          assert ops[m] == done[m] && forall i | m < i < n :: ops[i] == done[i];
          assert !ChangesAt(pending, ops, n, m);
        }
      }
    }
  }

  lemma LastOpKey(ops: seq<Op>, k: Key)
    requires LastOp(ops, k).Some?
    ensures LastOp(ops, k).value.key == k
  {
  }

  // The stop in closed form, for operations on distinct keys.

  predicate NamesOnce(ops: seq<Op>) {
    forall i, j | 0 <= i < j < |ops| :: ops[i].key != ops[j].key
  }

  function OpKeys(ops: seq<Op>): set<Key> {
    set i | 0 <= i < |ops| :: ops[i].key
  }

  function KeysDeleted(ops: seq<Op>): set<Key> {
    set i | 0 <= i < |ops| && ops[i].Del? :: ops[i].key
  }

  /** How many writes, and how many deletes, of a key are pending. */
  function WritesOf(p: WriteBatch, k: Key): nat {
    |p.writes| - |DropKey(p.writes, k)|
  }

  function DeletesOf(p: WriteBatch, k: Key): nat {
    |p.deletes| - |DropDelete(p.deletes, k)|
  }

  /** Staging the operation makes the pending batch longer. */
  predicate Grows(p: WriteBatch, op: Op) {
    WritesOf(p, op.key) == 0 && (op.Set? ==> DeletesOf(p, op.key) == 0)
  }

  function Growth(p: WriteBatch, ops: seq<Op>): nat {
    if ops == [] then 0 else (if Grows(p, ops[0]) then 1 else 0) + Growth(p, ops[1..])
  }

  predicate OnceEach(p: WriteBatch, ops: seq<Op>) {
    forall m | 0 <= m < |ops| :: WritesOf(p, ops[m].key) + DeletesOf(p, ops[m].key) <= 1
  }

  lemma {:induction false} DropKeyOthers(writes: seq<(Key, Value)>, k: Key, x: Key)
    requires x != k
    ensures |DropKey(writes, k)| - |DropKey(DropKey(writes, k), x)| == |writes| - |DropKey(writes, x)|
  {
    if writes != [] {
      var n := |writes| - 1;
      DropKeyOthers(writes[..n], k, x);
      if writes[n].0 != k {
        DropKeySnoc(DropKey(writes[..n], k), writes[n].0, writes[n].1, x);
      } else {
        assert DropKey(writes[..n], k) + [] == DropKey(writes[..n], k);
      }
    }
  }

  lemma DropKeySnoc(writes: seq<(Key, Value)>, k: Key, v: Value, x: Key)
    ensures |DropKey(writes + [(k, v)], x)| == |DropKey(writes, x)| + if k == x then 0 else 1
  {
    assert (writes + [(k, v)])[..|writes|] == writes;
  }

  lemma {:induction false} DropDeleteOthers(deletes: seq<Key>, k: Key, x: Key)
    requires x != k
    ensures |DropDelete(deletes, k)| - |DropDelete(DropDelete(deletes, k), x)| == |deletes| - |DropDelete(deletes, x)|
  {
    if deletes != [] {
      var n := |deletes| - 1;
      DropDeleteOthers(deletes[..n], k, x);
      if deletes[n] != k {
        DropDeleteSnoc(DropDelete(deletes[..n], k), deletes[n], x);
      } else {
        assert DropDelete(deletes[..n], k) + [] == DropDelete(deletes[..n], k);
      }
    }
  }

  lemma DropDeleteSnoc(deletes: seq<Key>, k: Key, x: Key)
    ensures |DropDelete(deletes + [k], x)| == |DropDelete(deletes, x)| + if k == x then 0 else 1
  {
    assert (deletes + [k])[..|deletes|] == deletes;
  }

  /** Staging an operation concerns only its own key. */
  lemma StageOpOthers(p: WriteBatch, op: Op, x: Key)
    requires StageOp(p, op).Some? && x != op.key
    ensures WritesOf(StageOp(p, op).value, x) == WritesOf(p, x)
    ensures DeletesOf(StageOp(p, op).value, x) == DeletesOf(p, x)
  {
    hide DropKey, DropDelete;
    DropKeyOthers(p.writes, op.key, x);
    match op
    case Set(k, v) =>
      DropKeySnoc(DropKey(p.writes, k), k, v, x);
      DropDeleteOthers(p.deletes, k, x);
    case Del(k) =>
      DropDeleteSnoc(p.deletes, k, x);
  }

  lemma {:induction false} GrowthKept(p: WriteBatch, op: Op, ops: seq<Op>)
    requires StageOp(p, op).Some? && forall m | 0 <= m < |ops| :: ops[m].key != op.key
    ensures Growth(StageOp(p, op).value, ops) == Growth(p, ops)
  {
    hide StageOp, WritesOf, DeletesOf;
    if ops != [] {
      GrowthKept(p, op, ops[1..]);
      StageOpOthers(p, op, ops[0].key);
    }
  }

  lemma StageOpCount(p: WriteBatch, op: Op)
    requires p.OpCount() <= MAX_OPS && WritesOf(p, op.key) + DeletesOf(p, op.key) <= 1
    ensures StageOp(p, op).None? <==> p.OpCount() == MAX_OPS && Grows(p, op)
    ensures StageOp(p, op).Some? ==>
              StageOp(p, op).value.OpCount() == p.OpCount() + (if Grows(p, op) then 1 else 0)
  {
    hide DropKey, DropDelete;
  }

  /** There is no room exactly when the operations that make the pending batch
      longer are more than the room left. */
  lemma {:induction false} StopIffGrowth(p: WriteBatch, ops: seq<Op>)
    requires p.OpCount() <= MAX_OPS && NamesOnce(ops) && OnceEach(p, ops)
    ensures StopOf(p, ops).Some? <==> p.OpCount() + Growth(p, ops) > MAX_OPS
    decreases |ops|
  {
    hide StageOp, WritesOf, DeletesOf, Grows;
    if ops != [] {
      StageOpCount(p, ops[0]);
      if StageOp(p, ops[0]).Some? {
        var q := StageOp(p, ops[0]).value;
        forall m | 0 <= m < |ops[1..]| ensures WritesOf(q, ops[1..][m].key) + DeletesOf(q, ops[1..][m].key) <= 1 {
          StageOpOthers(p, ops[0], ops[m + 1].key);
        }
        GrowthKept(p, ops[0], ops[1..]);
        StopIffGrowth(q, ops[1..]);
      }
    }
  }

  lemma {:induction false} OpKeysSize(ops: seq<Op>)
    requires NamesOnce(ops)
    ensures |OpKeys(ops)| == |ops|
  {
    if ops != [] {
      var n := |ops| - 1;
      OpKeysSize(ops[..n]);
      assert forall i | 0 <= i < n :: ops[..n][i] == ops[i];
      assert OpKeys(ops) == OpKeys(ops[..n]) + {ops[n].key};
    }
  }

  lemma {:induction false} WritesOfIff(writes: seq<(Key, Value)>, k: Key)
    ensures |DropKey(writes, k)| < |writes| <==> exists i :: 0 <= i < |writes| && writes[i].0 == k
    ensures (forall i, j | 0 <= i < j < |writes| :: writes[i].0 != writes[j].0) ==> |writes| <= |DropKey(writes, k)| + 1
  {
    if writes != [] {
      var n := |writes| - 1;
      WritesOfIff(writes[..n], k);
      assert forall i | 0 <= i < n :: writes[..n][i] == writes[i];
      if i :| 0 <= i < n && writes[..n][i].0 == k {
        assert writes[i].0 == k;
      }
    }
  }

  lemma {:induction false} DeletesOfIff(deletes: seq<Key>, k: Key)
    ensures |DropDelete(deletes, k)| < |deletes| <==> k in deletes
    ensures (forall i, j | 0 <= i < j < |deletes| :: deletes[i] != deletes[j]) ==>
              |deletes| <= |DropDelete(deletes, k)| + 1
  {
    if deletes != [] {
      var n := |deletes| - 1;
      DeletesOfIff(deletes[..n], k);
      assert forall i | 0 <= i < n :: deletes[..n][i] == deletes[i];
      assert deletes == deletes[..n] + [deletes[n]];
    }
  }

  lemma OpsOfBatch(p: WriteBatch)
    ensures |BatchOps(p)| == |p.writes| + |p.deletes|
    ensures forall i | 0 <= i < |p.writes| :: BatchOps(p)[i] == Set(p.writes[i].0, p.writes[i].1)
    ensures forall i | |p.writes| <= i < |BatchOps(p)| :: BatchOps(p)[i] == Del(p.deletes[i - |p.writes|])
  {
  }

  predicate WritesKey(p: WriteBatch, k: Key) {
    exists i :: 0 <= i < |p.writes| && p.writes[i].0 == k
  }

  lemma HeldIff(p: WriteBatch, k: Key)
    ensures k in OpKeys(BatchOps(p)) <==> WritesKey(p, k) || k in p.deletes
    ensures k in KeysDeleted(BatchOps(p)) <==> k in p.deletes
  {
    hide BatchOps;
    OpsOfBatch(p);
    var ops, w := BatchOps(p), |p.writes|;
    if i :| 0 <= i < w && p.writes[i].0 == k {
      assert ops[i].key == k;
    }
    if k in p.deletes {
      var j :| 0 <= j < |p.deletes| && p.deletes[j] == k;
      assert ops[w + j] == Del(p.deletes[w + j - w]);
    }
  }

  lemma HeldOnce(p: WriteBatch)
    requires NamesOnce(BatchOps(p))
    ensures forall i, j | 0 <= i < j < |p.writes| :: p.writes[i].0 != p.writes[j].0
    ensures forall i, j | 0 <= i < j < |p.deletes| :: p.deletes[i] != p.deletes[j]
    ensures forall i | 0 <= i < |p.writes| :: p.writes[i].0 !in p.deletes
  {
    hide BatchOps;
    OpsOfBatch(p);
    var ops, w := BatchOps(p), |p.writes|;
    forall i, j | 0 <= i < j < w ensures p.writes[i].0 != p.writes[j].0 {
      assert ops[i].key != ops[j].key;
    }
    forall i, j | 0 <= i < j < |p.deletes| ensures p.deletes[i] != p.deletes[j] {
      assert ops[w + i].key != ops[w + j].key;
    }
    forall i, j | 0 <= i < w && 0 <= j < |p.deletes| ensures p.writes[i].0 != p.deletes[j] {
      assert ops[i].key != ops[w + j].key;
    }
  }

  /** What is counted of a key, in terms of the keys a batch holds. */
  lemma CountsOf(p: WriteBatch, k: Key)
    requires NamesOnce(BatchOps(p))
    ensures WritesOf(p, k) + DeletesOf(p, k) <= 1
    ensures WritesOf(p, k) + DeletesOf(p, k) == 0 <==> k !in OpKeys(BatchOps(p))
    ensures DeletesOf(p, k) > 0 <==> k in KeysDeleted(BatchOps(p))
  {
    hide DropKey, DropDelete, BatchOps, NamesOnce, OpKeys, KeysDeleted;
    HeldIff(p, k);
    HeldOnce(p);
    WritesOfIff(p.writes, k);
    DeletesOfIff(p.deletes, k);
  }

  lemma {:induction false} GrowthIs(p: WriteBatch, ops: seq<Op>)
    requires NamesOnce(BatchOps(p)) && NamesOnce(ops)
    ensures var held := BatchOps(p);
            Growth(p, ops) == |OpKeys(ops) - OpKeys(held)| + |KeysDeleted(ops) * KeysDeleted(held)|
  {
    hide WritesOf, DeletesOf, BatchOps, OpKeys, KeysDeleted;
    var held := BatchOps(p);
    if ops == [] {
      assert OpKeys(ops) - OpKeys(held) == {} && KeysDeleted(ops) * KeysDeleted(held) == {} by { NoKeys(); }
    } else {
      var k, rest := ops[0].key, ops[1..];
      GrowthIs(p, rest);
      CountsOf(p, k);
      FrontKeys(ops);
      DeletedAreKeys(held);
      OneMoreKey(OpKeys(held), KeysDeleted(held), k, ops[0].Del?, OpKeys(rest), KeysDeleted(rest));
    }
  }

  lemma NoKeys()
    ensures OpKeys([]) == {} && KeysDeleted([]) == {}
  {
  }

  lemma OneMoreKey(keys: set<Key>, dels: set<Key>, k: Key, deletes: bool, restKeys: set<Key>, restDels: set<Key>)
    requires k !in restKeys && k !in restDels
    ensures |({k} + restKeys) - keys| == |restKeys - keys| + if k in keys then 0 else 1
    ensures |((if deletes then {k} else {}) + restDels) * dels|
         == |restDels * dels| + if deletes && k in dels then 1 else 0
  {
    if k in keys {
      assert ({k} + restKeys) - keys == restKeys - keys;
    } else {
      assert ({k} + restKeys) - keys == (restKeys - keys) + {k};
    }
    if !deletes {
      assert {} + restDels == restDels;
    } else if k in dels {
      assert ({k} + restDels) * dels == restDels * dels + {k};
    } else {
      assert ({k} + restDels) * dels == restDels * dels;
    }
  }

  lemma FrontKeys(ops: seq<Op>)
    requires ops != [] && NamesOnce(ops)
    ensures OpKeys(ops) == {ops[0].key} + OpKeys(ops[1..]) && ops[0].key !in OpKeys(ops[1..])
    ensures KeysDeleted(ops) == (if ops[0].Del? then {ops[0].key} else {}) + KeysDeleted(ops[1..])
    ensures ops[0].key !in KeysDeleted(ops[1..])
  {
    var rest := ops[1..];
    assert forall i | 0 <= i < |rest| :: rest[i] == ops[i + 1];
    forall i | 0 <= i < |ops|
      ensures ops[i].key in {ops[0].key} + OpKeys(rest)
      ensures ops[i].Del? ==> ops[i].key in (if ops[0].Del? then {ops[0].key} else {}) + KeysDeleted(rest)
    {
      if i > 0 {
        assert rest[i - 1].key in OpKeys(rest);
        assert ops[i].Del? ==> rest[i - 1].key in KeysDeleted(rest);
      }
    }
  }

  lemma DeletedAreKeys(ops: seq<Op>)
    ensures KeysDeleted(ops) <= OpKeys(ops)
  {
  }

  /** With each key named once in what is pending and once in the statement, the
      statement does not fit exactly when the keys of both, and once more those
      deleted in both, exceed the cap. */
  lemma StageFailsIff(pending: WriteBatch, batch: WriteBatch)
    requires pending.OpCount() <= MAX_OPS && NamesOnce(BatchOps(pending)) && NamesOnce(BatchOps(batch))
    ensures var held, ops := BatchOps(pending), BatchOps(batch);
            StopOf(pending, ops).Some? <==>
              |OpKeys(held) + OpKeys(ops)| + |KeysDeleted(held) * KeysDeleted(ops)| > MAX_OPS
  {
    hide StopOf, Growth, WritesOf, DeletesOf, NamesOnce;
    var held, ops := BatchOps(pending), BatchOps(batch);
    forall m | 0 <= m < |ops| ensures WritesOf(pending, ops[m].key) + DeletesOf(pending, ops[m].key) <= 1 {
      CountsOf(pending, ops[m].key);
    }
    StopIffGrowth(pending, ops);
    GrowthIs(pending, ops);
    OpKeysSize(held);
    assert OpKeys(held) + OpKeys(ops) == OpKeys(held) + (OpKeys(ops) - OpKeys(held));
    assert KeysDeleted(held) * KeysDeleted(ops) == KeysDeleted(ops) * KeysDeleted(held);
  }

  /** One short of the cap, a statement that sets two new keys fails, and leaves its
      first write staged. */
  lemma FailedStageChanges(pending: WriteBatch, a: Key, v: Value, b: Key, w: Value)
    requires pending.OpCount() == MAX_OPS - 1 && a != b
    requires a !in OpKeys(BatchOps(pending)) && b !in OpKeys(BatchOps(pending))
    ensures var ops := BatchOps(WriteBatch([(a, v), (b, w)], []));
            && StopOf(pending, ops) == Some(1) && Effect(FoldOf(pending, ops), a) == Some(Set(a, v))
            && !SamePending(pending, FoldOf(pending, ops))
  {
    hide LastOp, DropKey, DropDelete;
    var ops := BatchOps(WriteBatch([(a, v), (b, w)], []));
    assert ops == [Set(a, v), Set(b, w)] && ops[1..] == [Set(b, w)];
    AbsentCounts(pending, a);
    AbsentCounts(pending, b);
    var q := StageOp(pending, Set(a, v)).value;
    StageOpOthers(pending, Set(a, v), b);
    assert StageOp(q, Set(b, w)).None?;
    FoldEffect(pending, ops, a);
    assert ops[..1] == [Set(a, v)];
    OneIsLastOp([Set(a, v)], 0);
  }

  lemma AbsentCounts(p: WriteBatch, k: Key)
    requires k !in OpKeys(BatchOps(p))
    ensures WritesOf(p, k) == 0 && DeletesOf(p, k) == 0 && Effect(p, k) == None
  {
    hide DropKey, DropDelete, BatchOps, OpKeys, LastOp;
    HeldIff(p, k);
    WritesOfIff(p.writes, k);
    DeletesOfIff(p.deletes, k);
    NoOpOf(BatchOps(p), k);
  }

  lemma {:induction false} NoOpOf(ops: seq<Op>, k: Key)
    requires k !in OpKeys(ops)
    ensures LastOp(ops, k) == None
  {
    if ops != [] {
      var n := |ops| - 1;
      assert ops[n].key in OpKeys(ops);
      assert OpKeys(ops[..n]) <= OpKeys(ops) by {
        forall i | 0 <= i < n ensures ops[..n][i].key in OpKeys(ops) { assert ops[..n][i] == ops[i]; }
      }
      NoOpOf(ops[..n], k);
    }
  }

  lemma NothingYet(b: WriteBatch)
    ensures forall k :: Effect(Prefix(b, 0, 0), k) == None
    ensures forall p :: Staged(p, Prefix(b, 0, 0), p)
    ensures IsOverlay(map[], Prefix(b, 0, 0))
  {
    forall k ensures Effect(Prefix(b, 0, 0), k) == None {
      assert BatchOps(Prefix(b, 0, 0)) == [];
    }
  }

  /** Staging then committing is committing in order. */
  lemma StagedCommits(d: Data, before: WriteBatch, batch: WriteBatch, after: WriteBatch)
    requires Staged(before, batch, after)
    ensures CommitData(d, after) == CommitData(CommitData(d, before), batch)
  {
    hide LastOp, ApplyOps;
    var a, b := BatchOps(after), BatchOps(before) + BatchOps(batch);
    forall k ensures LastOp(a, k) == LastOp(b, k) {
      LastOpConcat(BatchOps(before), BatchOps(batch), k);
      assert Effect(after, k) == LastOp(a, k);
    }
    SameEffectAt(d, a, b);
    ApplyOpsConcat(d, BatchOps(before), BatchOps(batch));
  }

  // ----- The overlay -----

  type Overlay = map<Key, Option<string>>

  ghost predicate OverlayAt(ov: Overlay, p: WriteBatch, k: Key) {
    match Effect(p, k)
    case None => k !in ov
    case Some(Set(_, v)) => k in ov && ov[k] == Some(v.text)
    case Some(Del(_)) => k in ov && ov[k] == None
  }

  /** The overlay says of each key what committing the pending batch would. */
  ghost predicate IsOverlay(ov: Overlay, p: WriteBatch) {
    forall k :: OverlayAt(ov, p, k)
  }

  lemma OverlayWrite(p: WriteBatch, i: nat, ov: Overlay)
    requires i < |p.writes| && IsOverlay(ov, Prefix(p, i, 0))
    ensures IsOverlay(ov[p.writes[i].0 := Some(p.writes[i].1.text)], Prefix(p, i + 1, 0))
  {
    hide Effect;
    var more, next := ov[p.writes[i].0 := Some(p.writes[i].1.text)], Prefix(p, i + 1, 0);
    forall k ensures OverlayAt(more, next, k) {
      MoreWrites(p, i, k);
      assert OverlayAt(ov, Prefix(p, i, 0), k);
    }
  }

  lemma OverlayDelete(p: WriteBatch, j: nat, ov: Overlay)
    requires j < |p.deletes| && IsOverlay(ov, Prefix(p, |p.writes|, j))
    ensures IsOverlay(ov[p.deletes[j] := None], Prefix(p, |p.writes|, j + 1))
  {
    hide Effect;
    var more: Overlay, next := ov[p.deletes[j] := None], Prefix(p, |p.writes|, j + 1);
    forall k ensures OverlayAt(more, next, k) {
      MoreDeletes(p, j, k);
      assert OverlayAt(ov, Prefix(p, |p.writes|, j), k);
    }
  }

  method PendingOverlay(p: WriteBatch) returns (ov: Overlay)
    ensures IsOverlay(ov, p)
  {
    hide IsOverlay;
    ov := map[];
    NothingYet(p);
    for i := 0 to |p.writes|
      invariant IsOverlay(ov, Prefix(p, i, 0))
    {
      OverlayWrite(p, i, ov);
      ov := ov[p.writes[i].0 := Some(p.writes[i].1.text)];
    }
    for j := 0 to |p.deletes|
      invariant IsOverlay(ov, Prefix(p, |p.writes|, j))
    {
      OverlayDelete(p, j, ov);
      ov := ov[p.deletes[j] := None];
    }
    assert Prefix(p, |p.writes|, |p.deletes|) == p;
  }

  // ----- Reading a table -----

  /** The key range a table scan covers, both ends included. */
  predicate InTable(prefix: string, k: Key) {
    InScan(k, prefix, prefix + [DEL])
  }

  /** The stored row a scan of the committed data finds at a key. */
  ghost function Stored(data: Data, prefix: string, k: Key): Option<string> {
    if k in data && InTable(prefix, k) then Some(data[k].text) else None
  }

  /** The row a scan through the overlay finds at a key. */
  ghost function Seen(data: Data, ov: Overlay, prefix: string, k: Key): Option<string> {
    if k in ov then (if prefix < k then ov[k] else None) else Stored(data, prefix, k)
  }

  ghost predicate SameRows(data: Data, ov: Overlay, prefix: string, committed: Data) {
    forall k :: Seen(data, ov, prefix, k) == Stored(committed, prefix, k)
  }

  lemma CommitEffect(d: Data, p: WriteBatch, k: Key)
    ensures Get(CommitData(d, p), k) == OpResult(Get(d, k), Effect(p, k))
  {
    ApplyOpsAt(d, BatchOps(p), k);
  }

  /** A key the overlay sets in this table is shown where a scan would find it:
      its primary key is not empty and not above the end mark. */
  predicate Scannable(prefix: string, k: Key) {
    prefix < k <==> InTable(prefix, k)
  }

  /** Reading through the overlay shows what committing would, exactly when every
      staged row is at a scannable key. */
  lemma ReadYourWritesIff(data: Data, p: WriteBatch, ov: Overlay, prefix: string)
    requires IsOverlay(ov, p)
    ensures SameRows(data, ov, prefix, CommitData(data, p)) <==>
              forall k | k in ov && ov[k].Some? :: Scannable(prefix, k)
  {
    hide Effect, InTable, CommitData;
    forall k
      ensures k in ov && ov[k].Some? ==>
                (Seen(data, ov, prefix, k) == Stored(CommitData(data, p), prefix, k) <==> Scannable(prefix, k))
      ensures !(k in ov && ov[k].Some?) ==> Seen(data, ov, prefix, k) == Stored(CommitData(data, p), prefix, k)
    {
      CommitEffect(data, p, k);
      assert OverlayAt(ov, p, k);
    }
  }

  /** In terms of the primary key. */
  lemma ScannableIff(prefix: string, pk: string)
    ensures Scannable(prefix, prefix + pk) <==> (pk != "" <==> BelowDel(pk))
    ensures Scannable(prefix, prefix + pk) <==> pk != "" && BelowDel(pk)
  {
    hide Leq;
    assert prefix + "" == prefix;
    ScanWithin(prefix, "", [DEL], pk);
    EmptyLeq(pk);
    EmptyLeq([DEL]);
  }

  /** A staged row whose primary key is above the end mark is shown inside the
      transaction, and gone once it is committed. */
  lemma RowAboveEndMarkVanishes(data: Data, prefix: string, pk: string, v: Value)
    requires !BelowDel(pk)
    ensures var k := prefix + pk;
            var p, ov: Overlay := WriteBatch([(k, v)], []), map[k := Some(v.text)];
            && IsOverlay(ov, p) && Seen(data, ov, prefix, k) == Some(v.text)
            && Stored(CommitData(data, p), prefix, k) == None && !SameRows(data, ov, prefix, CommitData(data, p))
  {
    hide CommitData, InTable, BelowDel, Leq;
    var k := prefix + pk;
    var p, ov: Overlay := WriteBatch([(k, v)], []), map[k := Some(v.text)];
    assert pk != "" by { EmptyBelow(); }
    forall x ensures OverlayAt(ov, p, x) {
      OneWrite(k, v, x);
    }
    ScannableIff(prefix, pk);
    ReadYourWritesIff(data, p, ov, prefix);
    assert prefix < k;
  }

  lemma EmptyBelow()
    ensures BelowDel("")
  {
    EmptyLeq([DEL]);
  }

  lemma OneWrite(k: Key, v: Value, x: Key)
    ensures Effect(WriteBatch([(k, v)], []), x) == if x == k then Some(Set(k, v)) else None
  {
    var ops := BatchOps(WriteBatch([(k, v)], []));
    assert ops == [Set(k, v)] && ops[..0] == [];
    NoLastOp(x);
  }

  type Rows = seq<(Key, string)>

  ghost predicate KeysDiffer(rows: Rows) {
    forall i, j | 0 <= i < j < |rows| :: rows[i].0 != rows[j].0
  }

  /** What a scan of the table over committed data returns, in some order. */
  ghost predicate IsTableScan(rows: Rows, data: Data, prefix: string) {
    KeysDiffer(rows) && forall k, t :: (k, t) in rows <==> Stored(data, prefix, k) == Some(t)
  }

  /** The same through an overlay. */
  ghost predicate IsLoadThrough(rows: Rows, data: Data, ov: Overlay, prefix: string) {
    KeysDiffer(rows) && forall k, t :: (k, t) in rows <==> Seen(data, ov, prefix, k) == Some(t)
  }

  lemma DistinctSnoc(rows: Rows, e: (Key, string))
    requires KeysDiffer(rows) && forall i | 0 <= i < |rows| :: rows[i].0 != e.0
    ensures KeysDiffer(rows + [e])
  {
  }

  /** Loads the rows of a table: stored rows the overlay does not cover, then the
      overlay's own rows of this table. */
  method LoadRows(scanned: Rows, ov: Overlay, prefix: string, ghost data: Data) returns (rows: Rows)
    requires IsTableScan(scanned, data, prefix)
    ensures IsLoadThrough(rows, data, ov, prefix)
  {
    hide InTable;
    rows := [];
    for i := 0 to |scanned|
      invariant KeysDiffer(rows)
      invariant forall k, t :: (k, t) in rows <==> (k, t) in scanned[..i] && k !in ov
    {
      if scanned[i].0 !in ov {
        forall j | 0 <= j < |rows| ensures rows[j].0 != scanned[i].0 {
          assert (rows[j].0, rows[j].1) in scanned[..i];
        }
        DistinctSnoc(rows, scanned[i]);
        rows := rows + [scanned[i]];
      }
      assert scanned[..i + 1] == scanned[..i] + [scanned[i]];
    }
    assert scanned[..|scanned|] == scanned;
    ghost var stored := rows;
    var left := ov.Keys;
    while left != {}
      invariant left <= ov.Keys && KeysDiffer(rows)
      invariant forall k, t :: (k, t) in rows <==>
                  (k, t) in stored || (k in ov.Keys - left && prefix < k && ov[k] == Some(t))
      decreases left
    {
      var k :| k in left;
      left := left - {k};
      if prefix < k && ov[k].Some? {
        forall j | 0 <= j < |rows| ensures rows[j].0 != k {
          assert (rows[j].0, rows[j].1) in rows;
        }
        DistinctSnoc(rows, (k, ov[k].value));
        rows := rows + [(k, ov[k].value)];
      }
    }
  }

  lemma {:induction false} DistinctCount(rows: Rows, e: (Key, string))
    requires KeysDiffer(rows)
    ensures multiset(rows)[e] == if e in rows then 1 else 0
  {
    if rows != [] {
      var n := |rows| - 1;
      assert rows == rows[..n] + [rows[n]];
      DistinctCount(rows[..n], e);
    }
  }

  /** Rows at distinct keys are one bag exactly when they are one set. */
  lemma SameBagIff(a: Rows, b: Rows)
    requires KeysDiffer(a) && KeysDiffer(b)
    ensures multiset(a) == multiset(b) <==> forall k, t :: (k, t) in a <==> (k, t) in b
  {
    if multiset(a) == multiset(b) {
      forall k, t ensures (k, t) in a <==> (k, t) in b {
        assert (k, t) in a <==> (k, t) in multiset(a);
      }
    }
    if forall k, t :: (k, t) in a <==> (k, t) in b {
      forall e: (Key, string) ensures multiset(a)[e] == multiset(b)[e] {
        DistinctCount(a, e);
        DistinctCount(b, e);
        assert (e.0, e.1) in a <==> (e.0, e.1) in b;
      }
    }
  }

  lemma SameRowsIsSameBag(data: Data, ov: Overlay, prefix: string, committed: Data, rows: Rows, scan: Rows)
    requires IsLoadThrough(rows, data, ov, prefix) && IsTableScan(scan, committed, prefix)
    ensures multiset(rows) == multiset(scan) <==> SameRows(data, ov, prefix, committed)
  {
    hide Seen, Stored;
    SameBagIff(rows, scan);
    if forall k, t :: (k, t) in rows <==> (k, t) in scan {
      forall k ensures Seen(data, ov, prefix, k) == Stored(committed, prefix, k) {
        var a, b := Seen(data, ov, prefix, k), Stored(committed, prefix, k);
        if a.Some? {
          assert (k, a.value) in rows;
        }
        if b.Some? {
          assert (k, b.value) in scan;
        }
      }
    }
  }

  // ----- The executor -----

  class Session {
    const db: Engine
    var pending: Option<WriteBatch>

    constructor (db: Engine, transactional: bool)
      ensures this.db == db && pending == (if transactional then Some(EMPTY_BATCH) else None)
      ensures db.Valid() ==> Valid()
    {
      this.db := db;
      pending := if transactional then Some(EMPTY_BATCH) else None;
    }

    ghost predicate Valid()
      reads this, db
    {
      db.Valid() && (pending.Some? ==> pending.value.OpCount() <= MAX_OPS)
    }

    method StageOrCommit(batch: WriteBatch) returns (ok: bool)
      requires Valid()
      modifies this`pending, db
      ensures Valid() && (pending.Some? <==> old(pending).Some?)
      ensures old(pending).None? ==> ok && db.Contents() == CommitData(old(db.Contents()), batch)
      ensures old(pending).Some? ==> db.Contents() == old(db.Contents())
      ensures old(pending).Some? ==>
                && pending.value == FoldOf(old(pending).value, BatchOps(batch))
                && (ok <==> StopOf(old(pending).value, BatchOps(batch)).None?)
                && (ok ==> Staged(old(pending).value, batch, pending.value))
    {
      match pending
      case None =>
        var _ := db.Commit(batch);
        ok := true;
      case Some(p) =>
        var q;
        q, ok := Stage(p, batch);
        pending := Some(q);
    }

    /** Hands out what is pending, once.  Committing it is committing the staged
        batches in order. */
    method FlushBatch(ghost batches: seq<WriteBatch>) returns (b: Option<WriteBatch>)
      modifies this`pending
      ensures b == old(pending) && pending == None
      ensures b.Some? && StagedAll(batches, b.value) ==>
                forall d: Data :: CommitData(d, b.value) == CommitAll(d, batches)
    {
      hide CommitData, CommitAll, StagedAll;
      b := pending;
      pending := None;
      if b.Some? && StagedAll(batches, b.value) {
        forall d: Data ensures CommitData(d, b.value) == CommitAll(d, batches) {
          FlushCommitsAll(d, batches, b.value);
        }
      }
    }
  }

  // ----- Whole transactions -----

  function CommitAll(d: Data, batches: seq<WriteBatch>): Data {
    if batches == [] then d else CommitData(CommitAll(d, batches[..|batches| - 1]), batches[|batches| - 1])
  }

  /** `p` is what staging the batches in order leaves pending. */
  ghost predicate StagedAll(batches: seq<WriteBatch>, p: WriteBatch) {
    if batches == [] then p == EMPTY_BATCH
    else
      var init, last := batches[..|batches| - 1], batches[|batches| - 1];
      exists q :: StagedAll(init, q) && Staged(q, last, p)
  }

  /** Committing the flushed batch is committing the statements in order. */
  lemma {:induction false} FlushCommitsAll(d: Data, batches: seq<WriteBatch>, p: WriteBatch)
    requires StagedAll(batches, p)
    ensures CommitData(d, p) == CommitAll(d, batches)
  {
    hide CommitData, Staged;
    if batches == [] {
      assert CommitData(d, EMPTY_BATCH) == d by { NothingCommitted(d); }
    } else {
      var n := |batches| - 1;
      var q :| StagedAll(batches[..n], q) && Staged(q, batches[n], p);
      FlushCommitsAll(d, batches[..n], q);
      StagedCommits(d, q, batches[n], p);
    }
  }

  lemma NothingCommitted(d: Data)
    ensures CommitData(d, EMPTY_BATCH) == d
  {
    assert BatchOps(EMPTY_BATCH) == [];
  }

  /** Inside a transaction a table's rows are, as a bag, those a scan finds once
      its statements are committed one after another, exactly when every staged
      row is at a scannable key. */
  lemma TransactionReadsItsWrites(d: Data, batches: seq<WriteBatch>, p: WriteBatch, ov: Overlay, prefix: string,
                                  rows: Rows, scan: Rows)
    requires StagedAll(batches, p) && IsOverlay(ov, p)
    requires IsLoadThrough(rows, d, ov, prefix) && IsTableScan(scan, CommitAll(d, batches), prefix)
    ensures multiset(rows) == multiset(scan) <==> forall k | k in ov && ov[k].Some? :: Scannable(prefix, k)
  {
    hide IsLoadThrough, IsTableScan, StagedAll, IsOverlay, SameRows, Scannable;
    FlushCommitsAll(d, batches, p);
    ReadYourWritesIff(d, p, ov, prefix);
    SameRowsIsSameBag(d, ov, prefix, CommitAll(d, batches), rows, scan);
  }
}
