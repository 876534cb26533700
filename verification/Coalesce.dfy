/**
 Committing several atomic writes as one batch.

 The apply loop merges consecutive writes into one batch and cuts the merged
 batch before it would fill up.  This module says when that merge is invisible,
 and where the cuts fall.  A write that carries no operation stands for a log
 entry that was rejected or has nothing to apply.
 */
module Coalesce {
  import opened Basics
  import opened Storage

  /** Everything staged from `ws`, as the single batch that is committed. */
  function Merged(ws: seq<WriteBatch>): WriteBatch {
    if ws == [] then EMPTY_BATCH
    else
      var b := Merged(ws[..|ws| - 1]);
      WriteBatch(b.writes + ws[|ws| - 1].writes, b.deletes + ws[|ws| - 1].deletes)
  }

  /** The reference order: every write committed by itself. */
  function OneByOne(ws: seq<WriteBatch>): seq<Op> {
    if ws == [] then [] else OneByOne(ws[..|ws| - 1]) + BatchOps(ws[|ws| - 1])
  }

  predicate Sets(w: WriteBatch, k: Key) {
    exists i :: 0 <= i < |w.writes| && w.writes[i].0 == k
  }

  predicate Deletes(w: WriteBatch, k: Key) {
    k in w.deletes
  }

  /** A write deletes `k`, a later one sets it, and none from there on deletes
      it again. */
  ghost predicate ResurrectsKey(ws: seq<WriteBatch>, k: Key) {
    exists i, j :: 0 <= i < j < |ws| && Deletes(ws[i], k) && Sets(ws[j], k) && NoDeleteFrom(ws, j, k)
  }

  ghost predicate NoDeleteFrom(ws: seq<WriteBatch>, j: nat, k: Key) {
    forall m | j <= m < |ws| :: !Deletes(ws[m], k)
  }

  ghost predicate Resurrects(ws: seq<WriteBatch>) {
    exists k :: ResurrectsKey(ws, k)
  }

  ghost predicate DeletedIn(ws: seq<WriteBatch>, k: Key) {
    exists i :: 0 <= i < |ws| && Deletes(ws[i], k)
  }

  lemma {:induction false} MergedDeletes(ws: seq<WriteBatch>, k: Key)
    ensures k in Merged(ws).deletes <==> DeletedIn(ws, k)
  {
    if ws != [] {
      var n := |ws| - 1;
      MergedDeletes(ws[..n], k);
      assert forall i | 0 <= i < n :: ws[..n][i] == ws[i];
    }
  }

  lemma LastOfWrite(w: WriteBatch, k: Key)
    ensures LastOp(BatchOps(w), k) == if Deletes(w, k) then Some(Del(k)) else LastOp(SetOps(w.writes), k)
    ensures LastOp(BatchOps(w), k).None? <==> !Deletes(w, k) && !Sets(w, k)
    ensures Sets(w, k) && !Deletes(w, k) ==> LastOp(BatchOps(w), k).value.Set?
  {
    DeletesWin(w, k);
    LastOpOfSets(w.writes, k);
  }

  lemma UndeletedPrefix(ws: seq<WriteBatch>, k: Key)
    requires ws != [] && !DeletedIn(ws, k)
    ensures !DeletedIn(ws[..|ws| - 1], k) && !Deletes(ws[|ws| - 1], k)
  {
    assert forall i | 0 <= i < |ws| - 1 :: ws[..|ws| - 1][i] == ws[i];
  }

  lemma LastSetConcat(a: seq<(Key, Value)>, b: seq<(Key, Value)>, k: Key)
    ensures LastOp(SetOps(a + b), k) ==
            if LastOp(SetOps(b), k).Some? then LastOp(SetOps(b), k) else LastOp(SetOps(a), k)
  {
    assert SetOps(a + b) == SetOps(a) + SetOps(b);
    LastOpConcat(SetOps(a), SetOps(b), k);
  }

  /** For a key the run never deletes, merging changes nothing. */
  lemma {:induction false} UndeletedKey(ws: seq<WriteBatch>, k: Key)
    requires !DeletedIn(ws, k)
    ensures LastOp(OneByOne(ws), k) == LastOp(SetOps(Merged(ws).writes), k)
  {
    if ws != [] {
      var n := |ws| - 1;
      UndeletedPrefix(ws, k);
      UndeletedKey(ws[..n], k);
      LastOfWrite(ws[n], k);
      LastOpConcat(OneByOne(ws[..n]), BatchOps(ws[n]), k);
      LastSetConcat(Merged(ws[..n]).writes, ws[n].writes, k);
    }
  }

  /** A deleted key ends deleted unless it is resurrected. */
  lemma {:induction false} DeletedKey(ws: seq<WriteBatch>, k: Key)
    requires DeletedIn(ws, k)
    ensures LastOp(OneByOne(ws), k).Some?
    ensures LastOp(OneByOne(ws), k).value.Set? <==> ResurrectsKey(ws, k)
  {
    hide LastOp, BatchOps, Sets, Deletes;
    var n := |ws| - 1;
    LastOfWrite(ws[n], k);
    LastOpConcat(OneByOne(ws[..n]), BatchOps(ws[n]), k);
    if !Deletes(ws[n], k) {
      var i :| 0 <= i < |ws| && Deletes(ws[i], k);
      assert Deletes(ws[..n][i], k);
      DeletedKey(ws[..n], k);
      if Sets(ws[n], k) {
        assert NoDeleteFrom(ws, n, k);
      } else {
        ResurrectsKeyInit(ws, k);
      }
    }
  }

  lemma ResurrectsKeyInit(ws: seq<WriteBatch>, k: Key)
    requires ws != [] && !Deletes(ws[|ws| - 1], k) && !Sets(ws[|ws| - 1], k)
    ensures ResurrectsKey(ws, k) <==> ResurrectsKey(ws[..|ws| - 1], k)
  {
    var n := |ws| - 1;
    var init := ws[..n];
    assert forall i | 0 <= i < n :: init[i] == ws[i];
    if i, j :| 0 <= i < j < |ws| && Deletes(ws[i], k) && Sets(ws[j], k) && NoDeleteFrom(ws, j, k) {
      assert Deletes(init[i], k) && Sets(init[j], k) && NoDeleteFrom(init, j, k);
    }
    if i, j :| 0 <= i < j < n && Deletes(init[i], k) && Sets(init[j], k) && NoDeleteFrom(init, j, k) {
      assert Deletes(ws[i], k) && Sets(ws[j], k) && NoDeleteFrom(ws, j, k);
    }
  }

  /** One key of one merged run: the merge agrees with the writes one by one
      unless it resurrects the key, and then the merged batch has lost it. */
  lemma MergedKey(d: Data, ws: seq<WriteBatch>, k: Key)
    ensures !ResurrectsKey(ws, k) ==> LastOp(BatchOps(Merged(ws)), k) == LastOp(OneByOne(ws), k)
    ensures ResurrectsKey(ws, k) ==>
              && Get(CommitData(d, Merged(ws)), k) == None
              && Get(ApplyOps(d, OneByOne(ws)), k) != None
  {
    DeletesWin(Merged(ws), k);
    MergedDeletes(ws, k);
    if DeletedIn(ws, k) {
      DeletedKey(ws, k);
      ApplyOpsAt(d, BatchOps(Merged(ws)), k);
      ApplyOpsAt(d, OneByOne(ws), k);
    } else {
      UndeletedKey(ws, k);
    }
  }

  /** Committing a run as one batch gives the data of committing its writes one
      by one exactly when the run resurrects no key. */
  lemma MergeInvisibleIff(d: Data, ws: seq<WriteBatch>)
    ensures CommitData(d, Merged(ws)) == ApplyOps(d, OneByOne(ws)) <==> !Resurrects(ws)
  {
    if k :| ResurrectsKey(ws, k) {
      MergedKey(d, ws, k);
    } else {
      forall k ensures LastOp(BatchOps(Merged(ws)), k) == LastOp(OneByOne(ws), k) {
        MergedKey(d, ws, k);
      }
      SameEffectAt(d, BatchOps(Merged(ws)), OneByOne(ws));
    }
  }

  lemma {:induction false} OneByOneConcat(a: seq<WriteBatch>, b: seq<WriteBatch>)
    ensures OneByOne(a + b) == OneByOne(a) + OneByOne(b)
    decreases |b|
  {
    hide BatchOps;
    if b == [] {
      assert a + b == a;
    } else {
      var n := |b| - 1;
      assert (a + b)[..|a + b| - 1] == a + b[..n];
      OneByOneConcat(a, b[..n]);
    }
  }

  // ----- Where the loop cuts a run of writes into commits -----

  function OpsIn(ws: seq<WriteBatch>): nat {
    if ws == [] then 0 else OpsIn(ws[..|ws| - 1]) + ws[|ws| - 1].OpCount()
  }

  /** The writes `[from, to)` committed together. */
  datatype Cut = Cut(from: nat, to: nat)

  /** The next write joins the staged ones unless the batch would fill up. */
  predicate Joins(staged: nat, next: WriteBatch) {
    next.IsEmpty() || staged == 0 || staged + next.OpCount() < MAX_OPS
  }

  /** The commits made once `ws[..i]` has been read, and the first write that
      is staged but not yet committed. */
  function StageCuts(ws: seq<WriteBatch>, i: nat): (r: (seq<Cut>, nat))
    requires i <= |ws|
    ensures r.1 <= i
  {
    if i == 0 then ([], 0)
    else
      var (done, from) := StageCuts(ws, i - 1);
      if Joins(OpsIn(ws[from..i - 1]), ws[i - 1]) then (done, from)
      else (done + [Cut(from, i - 1)], i - 1)
  }

  /** All commits of one call: what is staged at the end is committed too. */
  function Cuts(ws: seq<WriteBatch>): seq<Cut> {
    var (done, from) := StageCuts(ws, |ws|);
    if OpsIn(ws[from..]) == 0 then done else done + [Cut(from, |ws|)]
  }

  predicate EachFits(ws: seq<WriteBatch>) {
    forall i | 0 <= i < |ws| :: ws[i].OpCount() <= MAX_OPS
  }

  predicate InRange(ws: seq<WriteBatch>, c: Cut) {
    c.from < c.to <= |ws|
  }

  predicate AllInRange(ws: seq<WriteBatch>, cuts: seq<Cut>) {
    forall c | 0 <= c < |cuts| :: InRange(ws, cuts[c])
  }

  /** Consecutive runs starting at the first write. */
  predicate Tiles(ws: seq<WriteBatch>, cuts: seq<Cut>) {
    && AllInRange(ws, cuts)
    && (cuts != [] ==> cuts[0].from == 0)
    && (forall c | 0 < c < |cuts| :: cuts[c].from == cuts[c - 1].to)
  }

  function CutsEnd(cuts: seq<Cut>): nat {
    if cuts == [] then 0 else cuts[|cuts| - 1].to
  }

  lemma StageStep(ws: seq<WriteBatch>, from: nat, i: nat)
    requires from <= i < |ws|
    ensures OpsIn(ws[from..i + 1]) == OpsIn(ws[from..i]) + ws[i].OpCount()
    ensures Merged(ws[from..i + 1]).writes == Merged(ws[from..i]).writes + ws[i].writes
    ensures Merged(ws[from..i + 1]).deletes == Merged(ws[from..i]).deletes + ws[i].deletes
  {
    var s := ws[from..i + 1];
    assert s[..|s| - 1] == ws[from..i] && s[|s| - 1] == ws[i];
    assert Merged(s) == WriteBatch(Merged(s[..|s| - 1]).writes + ws[i].writes,
                                   Merged(s[..|s| - 1]).deletes + ws[i].deletes);
  }

  lemma {:induction false} MergedOpCount(ws: seq<WriteBatch>)
    ensures Merged(ws).OpCount() == OpsIn(ws)
  {
    if ws != [] {
      MergedOpCount(ws[..|ws| - 1]);
    }
  }

  ghost predicate WithinCap(ws: seq<WriteBatch>, cuts: seq<Cut>) {
    forall c | 0 <= c < |cuts| :: InRange(ws, cuts[c]) && 0 < OpsIn(ws[cuts[c].from..cuts[c].to]) <= MAX_OPS
  }

  ghost predicate GoodCuts(ws: seq<WriteBatch>, cuts: seq<Cut>, end: nat) {
    Tiles(ws, cuts) && CutsEnd(cuts) == end && WithinCap(ws, cuts)
  }

  lemma GoodCutsSnoc(ws: seq<WriteBatch>, cuts: seq<Cut>, c: Cut)
    requires GoodCuts(ws, cuts, c.from) && InRange(ws, c)
    requires 0 < OpsIn(ws[c.from..c.to]) <= MAX_OPS
    ensures GoodCuts(ws, cuts + [c], c.to)
  {
    assert forall i | 0 <= i < |cuts| :: (cuts + [c])[i] == cuts[i];
  }

  lemma {:induction false} StageWellFormed(ws: seq<WriteBatch>, i: nat)
    requires i <= |ws| && forall j | 0 <= j < i :: ws[j].OpCount() <= MAX_OPS
    ensures GoodCuts(ws, StageCuts(ws, i).0, StageCuts(ws, i).1)
    ensures OpsIn(ws[StageCuts(ws, i).1..i]) <= MAX_OPS
  {
    hide Merged, GoodCuts, OpsIn;
    if i == 0 {
      NothingStaged(ws);
    } else {
      StageWellFormed(ws, i - 1);
      var (done, from) := StageCuts(ws, i - 1);
      if Joins(OpsIn(ws[from..i - 1]), ws[i - 1]) {
        StageStep(ws, from, i - 1);
      } else {
        StageStep(ws, i - 1, i - 1);
        NoOpsIn(ws, i - 1);
        GoodCutsSnoc(ws, done, Cut(from, i - 1));
      }
    }
  }

  lemma NoOpsIn(ws: seq<WriteBatch>, i: nat)
    requires i <= |ws|
    ensures OpsIn(ws[i..i]) == 0
  {
  }

  lemma NothingStaged(ws: seq<WriteBatch>)
    ensures GoodCuts(ws, [], 0) && OpsIn(ws[0..0]) == 0
  {
  }

  /** The cuts are consecutive runs of whole writes, every commit stays within
      the cap, and no operation is left after the last one. */
  lemma CutsWellFormed(ws: seq<WriteBatch>)
    requires EachFits(ws)
    ensures Tiles(ws, Cuts(ws)) && WithinCap(ws, Cuts(ws))
    ensures CutsEnd(Cuts(ws)) <= |ws| && OpsIn(ws[CutsEnd(Cuts(ws))..]) == 0
  {
    StageWellFormed(ws, |ws|);
    var (done, from) := StageCuts(ws, |ws|);
    assert ws[from..|ws|] == ws[from..];
    if OpsIn(ws[from..]) != 0 {
      GoodCutsSnoc(ws, done, Cut(from, |ws|));
      assert ws[|ws|..] == [];
    }
  }

  // ----- The data after each commit -----

  function Slice(ws: seq<WriteBatch>, c: Cut): seq<WriteBatch>
    requires InRange(ws, c)
  {
    ws[c.from..c.to]
  }

  /** The data after the commits `cuts`. */
  function CutData(d: Data, ws: seq<WriteBatch>, cuts: seq<Cut>): Data
    requires AllInRange(ws, cuts)
  {
    if cuts == [] then d
    else CommitData(CutData(d, ws, cuts[..|cuts| - 1]), Merged(Slice(ws, cuts[|cuts| - 1])))
  }

  /** The data after the writes `ws`, each committed by itself. */
  function LogData(d: Data, ws: seq<WriteBatch>): Data {
    ApplyOps(d, OneByOne(ws))
  }

  lemma LogDataStep(d: Data, ws: seq<WriteBatch>, cuts: seq<Cut>)
    requires Tiles(ws, cuts) && cuts != []
    ensures Tiles(ws, cuts[..|cuts| - 1]) && CutsEnd(cuts[..|cuts| - 1]) == cuts[|cuts| - 1].from
    ensures LogData(d, ws[..CutsEnd(cuts)]) ==
            ApplyOps(LogData(d, ws[..cuts[|cuts| - 1].from]), OneByOne(Slice(ws, cuts[|cuts| - 1])))
  {
    hide OneByOne, ApplyOps;
    var c := cuts[|cuts| - 1];
    assert ws[..c.to] == ws[..c.from] + Slice(ws, c);
    OneByOneConcat(ws[..c.from], Slice(ws, c));
    ApplyOpsConcat(d, OneByOne(ws[..c.from]), OneByOne(Slice(ws, c)));
  }

  /** The commits leave the data after a whole prefix of the writes. */
  ghost predicate IsAPrefixState(d: Data, ws: seq<WriteBatch>, cuts: seq<Cut>)
    requires Tiles(ws, cuts)
  {
    CutData(d, ws, cuts) == LogData(d, ws[..CutsEnd(cuts)])
  }

  lemma TilesPrefix(ws: seq<WriteBatch>, cuts: seq<Cut>, n: nat)
    requires Tiles(ws, cuts) && n <= |cuts|
    ensures Tiles(ws, cuts[..n])
  {
  }

  /** So does every intermediate commit. */
  ghost predicate EveryCommitIsAPrefix(d: Data, ws: seq<WriteBatch>, cuts: seq<Cut>)
    requires Tiles(ws, cuts)
  {
    forall n | 0 <= n <= |cuts| :: Tiles(ws, cuts[..n]) && IsAPrefixState(d, ws, cuts[..n])
  }

  ghost predicate NoCommitResurrects(ws: seq<WriteBatch>, cuts: seq<Cut>)
    requires AllInRange(ws, cuts)
  {
    forall c | 0 <= c < |cuts| :: !Resurrects(Slice(ws, cuts[c]))
  }

  lemma {:induction false} PrefixStates(d: Data, ws: seq<WriteBatch>, cuts: seq<Cut>)
    requires Tiles(ws, cuts) && NoCommitResurrects(ws, cuts)
    ensures IsAPrefixState(d, ws, cuts)
  {
    if cuts != [] {
      LogDataStep(d, ws, cuts);
      var init := cuts[..|cuts| - 1];
      assert forall c | 0 <= c < |init| :: init[c] == cuts[c];
      PrefixStates(d, ws, init);
      MergeInvisibleIff(CutData(d, ws, init), Slice(ws, cuts[|cuts| - 1]));
    }
  }

  lemma NoCommitResurrectsPrefix(ws: seq<WriteBatch>, cuts: seq<Cut>, n: nat)
    requires Tiles(ws, cuts) && NoCommitResurrects(ws, cuts) && n <= |cuts|
    ensures NoCommitResurrects(ws, cuts[..n])
  {
    assert forall c | 0 <= c < n :: cuts[..n][c] == cuts[c];
  }

  /** On any database, every intermediate commit is the state after some whole
      prefix of the writes exactly when no commit resurrects a key. */
  lemma EveryCommitIsAPrefixIff(d: Data, ws: seq<WriteBatch>, cuts: seq<Cut>)
    requires Tiles(ws, cuts)
    ensures EveryCommitIsAPrefix(d, ws, cuts) <==> NoCommitResurrects(ws, cuts)
  {
    if NoCommitResurrects(ws, cuts) {
      forall n | 0 <= n <= |cuts| ensures Tiles(ws, cuts[..n]) && IsAPrefixState(d, ws, cuts[..n]) {
        TilesPrefix(ws, cuts, n);
        NoCommitResurrectsPrefix(ws, cuts, n);
        PrefixStates(d, ws, cuts[..n]);
      }
    } else if EveryCommitIsAPrefix(d, ws, cuts) {
      var c :| 0 <= c < |cuts| && Resurrects(Slice(ws, cuts[c]));
      BrokenCommit(d, ws, cuts, c);
    }
  }

  lemma BrokenCommit(d: Data, ws: seq<WriteBatch>, cuts: seq<Cut>, c: nat)
    requires Tiles(ws, cuts) && c < |cuts| && Resurrects(Slice(ws, cuts[c]))
    ensures Tiles(ws, cuts[..c]) && Tiles(ws, cuts[..c + 1])
    ensures !IsAPrefixState(d, ws, cuts[..c]) || !IsAPrefixState(d, ws, cuts[..c + 1])
  {
    var upto := cuts[..c + 1];
    assert upto[..|upto| - 1] == cuts[..c];
    LogDataStep(d, ws, upto);
    MergeInvisibleIff(CutData(d, ws, cuts[..c]), Slice(ws, cuts[c]));
  }

  predicate Touches(w: WriteBatch, k: Key) {
    Sets(w, k) || Deletes(w, k)
  }

  ghost predicate TouchedIn(ws: seq<WriteBatch>, k: Key) {
    exists i :: 0 <= i < |ws| && Touches(ws[i], k)
  }

  /** The last of the commits that touches `k` resurrects it. */
  ghost predicate LostAfter(ws: seq<WriteBatch>, cuts: seq<Cut>, k: Key)
    requires AllInRange(ws, cuts)
  {
    cuts != [] &&
    var last := Slice(ws, cuts[|cuts| - 1]);
    if TouchedIn(last, k) then ResurrectsKey(last, k) else LostAfter(ws, cuts[..|cuts| - 1], k)
  }

  lemma NothingTouched(k: Key)
    ensures LastOp(OneByOne([]), k) == None
  {
  }

  lemma {:induction false} TouchedIffLastOp(ws: seq<WriteBatch>, k: Key)
    ensures TouchedIn(ws, k) <==> LastOp(OneByOne(ws), k).Some?
  {
    hide LastOp, BatchOps, Sets, Deletes;
    if ws == [] {
      NothingTouched(k);
    } else {
      var n := |ws| - 1;
      TouchedIffLastOp(ws[..n], k);
      LastOfWrite(ws[n], k);
      LastOpConcat(OneByOne(ws[..n]), BatchOps(ws[n]), k);
      assert forall i | 0 <= i < n :: ws[..n][i] == ws[i];
    }
  }

  lemma SliceAt(d1: Data, d2: Data, ws: seq<WriteBatch>, k: Key)
    ensures !TouchedIn(ws, k) ==>
              && Get(CommitData(d1, Merged(ws)), k) == Get(d1, k)
              && Get(ApplyOps(d2, OneByOne(ws)), k) == Get(d2, k)
    ensures TouchedIn(ws, k) && !ResurrectsKey(ws, k) ==>
              Get(CommitData(d1, Merged(ws)), k) == Get(ApplyOps(d2, OneByOne(ws)), k)
    ensures ResurrectsKey(ws, k) ==>
              Get(CommitData(d1, Merged(ws)), k) == None && Get(ApplyOps(d2, OneByOne(ws)), k) != None
  {
    TouchedIffLastOp(ws, k);
    MergedKey(d1, ws, k);
    MergedKey(d2, ws, k);
    ApplyOpsAt(d1, BatchOps(Merged(ws)), k);
    ApplyOpsAt(d2, OneByOne(ws), k);
    if ResurrectsKey(ws, k) {
      var i, j :| 0 <= i < j < |ws| && Deletes(ws[i], k) && Sets(ws[j], k) && NoDeleteFrom(ws, j, k);
      assert Touches(ws[i], k);
    }
  }

  lemma {:induction false} KeyAfterCommits(d: Data, ws: seq<WriteBatch>, cuts: seq<Cut>, k: Key)
    requires Tiles(ws, cuts)
    ensures LostAfter(ws, cuts, k) ==>
              Get(CutData(d, ws, cuts), k) == None && Get(LogData(d, ws[..CutsEnd(cuts)]), k) != None
    ensures !LostAfter(ws, cuts, k) ==>
              Get(CutData(d, ws, cuts), k) == Get(LogData(d, ws[..CutsEnd(cuts)]), k)
  {
    if cuts != [] {
      var init, c := cuts[..|cuts| - 1], cuts[|cuts| - 1];
      LogDataStep(d, ws, cuts);
      KeyAfterCommits(d, ws, init, k);
      SliceAt(CutData(d, ws, init), LogData(d, ws[..c.from]), Slice(ws, c), k);
    }
  }

  lemma {:induction false} NoOpsLeft(ws: seq<WriteBatch>)
    requires OpsIn(ws) == 0
    ensures OneByOne(ws) == []
  {
    if ws != [] {
      NoOpsLeft(ws[..|ws| - 1]);
    }
  }

  ghost predicate NothingLost(ws: seq<WriteBatch>, cuts: seq<Cut>)
    requires Tiles(ws, cuts)
  {
    forall k: Key :: !LostAfter(ws, cuts, k)
  }

  lemma CutDataIff(d: Data, ws: seq<WriteBatch>, cuts: seq<Cut>)
    requires Tiles(ws, cuts)
    ensures IsAPrefixState(d, ws, cuts) <==> NothingLost(ws, cuts)
  {
    var cut, log := CutData(d, ws, cuts), LogData(d, ws[..CutsEnd(cuts)]);
    if k :| LostAfter(ws, cuts, k) {
      KeyAfterCommits(d, ws, cuts, k);
    } else {
      forall k ensures Get(cut, k) == Get(log, k) {
        KeyAfterCommits(d, ws, cuts, k);
      }
      DataEqual(cut, log);
    }
  }

  lemma NothingAfter(d: Data, ws: seq<WriteBatch>, end: nat)
    requires end <= |ws| && OpsIn(ws[end..]) == 0
    ensures LogData(d, ws[..end]) == LogData(d, ws)
  {
    assert ws == ws[..end] + ws[end..];
    OneByOneConcat(ws[..end], ws[end..]);
    NoOpsLeft(ws[end..]);
    assert OneByOne(ws) == OneByOne(ws[..end]);
  }

  /** On any database, the chunked commits end with the data of committing the
      writes one by one exactly when no key's last touching commit resurrects it. */
  lemma FinalDataIff(d: Data, ws: seq<WriteBatch>)
    requires EachFits(ws)
    ensures Tiles(ws, Cuts(ws))
    ensures CutData(d, ws, Cuts(ws)) == LogData(d, ws) <==> NothingLost(ws, Cuts(ws))
  {
    CutsWellFormed(ws);
    NothingAfter(d, ws, CutsEnd(Cuts(ws)));
    CutDataIff(d, ws, Cuts(ws));
  }

  /** A delete and a later set of one key, applied in one call, lose the key;
      applied in two calls they keep it.  Replicas that batch this log
      differently hold different data, whatever they held before. */
  lemma BatchingChangesTheData(d: Data, k: Key, v: Value)
    ensures var ws := [WriteBatch([], [k]), WriteBatch([(k, v)], [])];
            && Cuts(ws) == [Cut(0, 2)]
            && k !in CommitData(d, Merged(ws))
            && k in LogData(d, ws)
  {
    hide StageCuts, Merged, OneByOne, ApplyOps, OpsIn, LastOp, BatchOps;
    var ws := [WriteBatch([], [k]), WriteBatch([(k, v)], [])];
    assert Deletes(ws[0], k) && Sets(ws[1], k) by { assert ws[1].writes[0].0 == k; }
    assert NoDeleteFrom(ws, 1, k);
    assert ResurrectsKey(ws, k);
    MergedKey(d, ws, k);
    TwoSmallWrites(ws);
  }

  lemma TwoSmallWrites(ws: seq<WriteBatch>)
    requires |ws| == 2 && ws[0].OpCount() == 1 && ws[1].OpCount() == 1
    ensures Cuts(ws) == [Cut(0, 2)]
  {
    assert ws[0..0] == [];
    StageStep(ws, 0, 0);
    StageStep(ws, 0, 1);
    hide Merged;
    assert StageCuts(ws, 1) == ([], 0);
    assert StageCuts(ws, 2) == ([], 0);
    assert ws[0..] == ws[0..2];
  }

  // ----- Which logs every batching leaves alone -----

  /** The entries `i..j` start by deleting `k`, end by setting it, and are few
      enough to be committed together. */
  ghost predicate Hazard(log: seq<WriteBatch>, i: nat, j: nat, k: Key) {
    && i < j < |log| && Deletes(log[i], k) && Sets(log[j], k) && !Deletes(log[j], k)
    && OpsIn(log[i..j + 1]) < MAX_OPS
  }

  ghost predicate Hazardous(log: seq<WriteBatch>) {
    exists i: nat, j: nat, k: Key :: Hazard(log, i, j, k)
  }

  /** No call over consecutive entries loses a key. */
  ghost predicate EveryCallSafe(log: seq<WriteBatch>) {
    forall p, t | 0 <= p <= t <= |log| :: Tiles(log[p..t], Cuts(log[p..t])) && NothingLost(log[p..t], Cuts(log[p..t]))
  }

  lemma {:induction false} OpsInConcat(a: seq<WriteBatch>, b: seq<WriteBatch>)
    ensures OpsIn(a + b) == OpsIn(a) + OpsIn(b)
    decreases |b|
  {
    if b == [] {
      assert a + b == a;
    } else {
      var n := |b| - 1;
      assert (a + b)[..|a + b| - 1] == a + b[..n];
      OpsInConcat(a, b[..n]);
    }
  }

  lemma OpsInSplit(ws: seq<WriteBatch>, i: nat, j: nat, m: nat)
    requires i <= j <= m <= |ws|
    ensures OpsIn(ws[i..m]) == OpsIn(ws[i..j]) + OpsIn(ws[j..m])
  {
    assert ws[i..m] == ws[i..j] + ws[j..m];
    OpsInConcat(ws[i..j], ws[j..m]);
  }

  /** A write that joined staged operations left room in the batch. */
  ghost predicate LeavesRoom(ws: seq<WriteBatch>, from: nat, to: nat) {
    forall j | from < j < to <= |ws| && !ws[j].IsEmpty() && OpsIn(ws[from..j]) > 0 :: OpsIn(ws[from..j + 1]) < MAX_OPS
  }

  ghost predicate AllLeaveRoom(ws: seq<WriteBatch>, cuts: seq<Cut>) {
    forall c | 0 <= c < |cuts| :: LeavesRoom(ws, cuts[c].from, cuts[c].to)
  }

  lemma LeavesRoomStep(ws: seq<WriteBatch>, from: nat, i: nat)
    requires from <= i < |ws| && LeavesRoom(ws, from, i) && Joins(OpsIn(ws[from..i]), ws[i])
    ensures LeavesRoom(ws, from, i + 1)
  {
    StageStep(ws, from, i);
  }

  lemma {:induction false} StageLeavesRoom(ws: seq<WriteBatch>, i: nat)
    requires i <= |ws|
    ensures AllLeaveRoom(ws, StageCuts(ws, i).0) && LeavesRoom(ws, StageCuts(ws, i).1, i)
  {
    hide LeavesRoom, OpsIn;
    if i == 0 {
      assert LeavesRoom(ws, 0, 0) by { EmptyLeavesRoom(ws, 0); }
    } else {
      StageLeavesRoom(ws, i - 1);
      var (done, from) := StageCuts(ws, i - 1);
      if Joins(OpsIn(ws[from..i - 1]), ws[i - 1]) {
        LeavesRoomStep(ws, from, i - 1);
      } else {
        EmptyLeavesRoom(ws, i - 1);
      }
    }
  }

  lemma EmptyLeavesRoom(ws: seq<WriteBatch>, i: nat)
    ensures LeavesRoom(ws, i, i) && LeavesRoom(ws, i, i + 1)
  {
  }

  lemma CutsLeaveRoom(ws: seq<WriteBatch>)
    ensures AllLeaveRoom(ws, Cuts(ws))
  {
    hide LeavesRoom, OpsIn;
    StageLeavesRoom(ws, |ws|);
  }

  /** Writes that fit together are one commit. */
  lemma {:induction false} SmallCallStages(ws: seq<WriteBatch>, i: nat)
    requires i <= |ws| && OpsIn(ws) < MAX_OPS
    ensures StageCuts(ws, i) == ([], 0)
  {
    if i > 0 {
      SmallCallStages(ws, i - 1);
      StageStep(ws, 0, i - 1);
      OpsInSplit(ws, 0, i, |ws|);
      assert ws[0..|ws|] == ws;
    }
  }

  lemma {:induction false} SmallCallIsOneCommit(ws: seq<WriteBatch>)
    requires 0 < OpsIn(ws) < MAX_OPS
    ensures Cuts(ws) == [Cut(0, |ws|)]
  {
    SmallCallStages(ws, |ws|);
    assert ws[0..] == ws;
  }

  lemma NotEmptyIf(w: WriteBatch, k: Key)
    requires Touches(w, k)
    ensures !w.IsEmpty() && w.OpCount() > 0
  {
  }

  /** A hazard is a call that loses its key. */
  lemma HazardLoses(log: seq<WriteBatch>, i: nat, j: nat, k: Key)
    requires Hazard(log, i, j, k)
    ensures Cuts(log[i..j + 1]) == [Cut(0, j + 1 - i)]
    ensures Tiles(log[i..j + 1], Cuts(log[i..j + 1])) && LostAfter(log[i..j + 1], Cuts(log[i..j + 1]), k)
  {
    hide OpsIn, Cuts;
    var ws := log[i..j + 1];
    OpsInSplit(log, i, j, j + 1);
    StageStep(log, j, j);
    NoOpsIn(log, j);
    NotEmptyIf(log[j], k);
    SmallCallIsOneCommit(ws);
    assert Slice(ws, Cut(0, |ws|)) == ws;
    assert ws[0] == log[i] && ws[|ws| - 1] == log[j];
    assert NoDeleteFrom(ws, |ws| - 1, k);
    assert ResurrectsKey(ws, k);
    assert Touches(ws[0], k);
  }

  lemma SliceOfCall(log: seq<WriteBatch>, p: nat, t: nat, c: Cut)
    requires p <= t <= |log| && InRange(log[p..t], c)
    ensures p + c.to <= t && Slice(log[p..t], c) == log[p + c.from..p + c.to]
  {
    var a, b := log[p..t][c.from..c.to], log[p + c.from..p + c.to];
    assert |a| == |b|;
    assert forall i | 0 <= i < |a| :: a[i] == log[p + c.from + i] == b[i];
  }

  /** What lies between a delete and a later set of one commit is within the cap. */
  lemma HazardInRoom(log: seq<WriteBatch>, from: nat, i: nat, j: nat, k: Key)
    requires from <= i < j < |log| && Touches(log[i], k) && Touches(log[j], k)
    requires OpsIn(log[from..j]) > 0 ==> OpsIn(log[from..j + 1]) < MAX_OPS
    ensures OpsIn(log[i..j + 1]) < MAX_OPS
  {
    hide OpsIn;
    NotEmptyIf(log[i], k);
    StageStep(log, i, i);
    NoOpsIn(log, i);
    OpsInSplit(log, i, i + 1, j);
    OpsInSplit(log, from, i, j);
    OpsInSplit(log, from, i, j + 1);
  }

  lemma RoomOfCall(log: seq<WriteBatch>, p: nat, t: nat, c: Cut, j: nat)
    requires p <= t <= |log| && InRange(log[p..t], c) && LeavesRoom(log[p..t], c.from, c.to)
    requires p + c.from < j < p + c.to && !log[j].IsEmpty()
    ensures OpsIn(log[p + c.from..j]) > 0 ==> OpsIn(log[p + c.from..j + 1]) < MAX_OPS
  {
    hide OpsIn;
    var call := log[p..t];
    assert call[j - p] == log[j];
    assert call[c.from..j - p] == log[p + c.from..j];
    assert call[c.from..j - p + 1] == log[p + c.from..j + 1];
  }

  /** A commit that resurrects a key holds a hazard. */
  lemma LossNeedsHazard(log: seq<WriteBatch>, p: nat, t: nat, c: Cut, k: Key)
    requires p <= t <= |log| && InRange(log[p..t], c) && LeavesRoom(log[p..t], c.from, c.to)
    requires ResurrectsKey(Slice(log[p..t], c), k)
    ensures Hazardous(log)
  {
    hide OpsIn, LeavesRoom, Deletes, Sets, Hazardous;
    SliceOfCall(log, p, t, c);
    var ws := log[p + c.from..p + c.to];
    var i, j :| 0 <= i < j < |ws| && Deletes(ws[i], k) && Sets(ws[j], k) && NoDeleteFrom(ws, j, k);
    HazardAt(log, p, t, c, p + c.from + i, p + c.from + j, k);
  }

  lemma HazardAt(log: seq<WriteBatch>, p: nat, t: nat, c: Cut, i: nat, j: nat, k: Key)
    requires p <= t <= |log| && InRange(log[p..t], c) && LeavesRoom(log[p..t], c.from, c.to)
    requires p + c.from <= i < j < p + c.to && Deletes(log[i], k) && Sets(log[j], k) && !Deletes(log[j], k)
    ensures Hazardous(log)
  {
    hide OpsIn, LeavesRoom, Deletes, Sets;
    NotEmptyIf(log[j], k);
    RoomOfCall(log, p, t, c, j);
    HazardInRoom(log, p + c.from, i, j, k);
    assert Hazard(log, i, j, k);
  }

  /** No way of cutting a log into calls loses a key exactly when the log holds
      no delete of a key followed, within one batch, by a set of it. */
  lemma EveryCallSafeIff(log: seq<WriteBatch>)
    requires EachFits(log)
    ensures EveryCallSafe(log) <==> !Hazardous(log)
  {
    hide Cuts, OpsIn, LostAfter, Hazard, LeavesRoom;
    if i: nat, j: nat, k: Key :| Hazard(log, i, j, k) {
      HazardInLog(log, i, j, k);
      HazardLoses(log, i, j, k);
    } else {
      forall p, t | 0 <= p <= t <= |log|
        ensures Tiles(log[p..t], Cuts(log[p..t])) && NothingLost(log[p..t], Cuts(log[p..t]))
      {
        CutsWellFormed(log[p..t]);
        CutsLeaveRoom(log[p..t]);
        forall k: Key ensures !LostAfter(log[p..t], Cuts(log[p..t]), k) {
          LostNeedsHazard(log, p, t, Cuts(log[p..t]), k);
        }
      }
    }
  }

  lemma HazardInLog(log: seq<WriteBatch>, i: nat, j: nat, k: Key)
    requires Hazard(log, i, j, k)
    ensures i < j < |log|
  {
  }

  lemma {:induction false} LostNeedsHazard(log: seq<WriteBatch>, p: nat, t: nat, cuts: seq<Cut>, k: Key)
    requires p <= t <= |log| && AllInRange(log[p..t], cuts) && AllLeaveRoom(log[p..t], cuts)
    ensures LostAfter(log[p..t], cuts, k) ==> Hazardous(log)
  {
    hide LeavesRoom, Hazardous, ResurrectsKey, TouchedIn;
    if cuts != [] {
      var n := |cuts| - 1;
      LostNeedsHazard(log, p, t, cuts[..n], k);
      if ResurrectsKey(Slice(log[p..t], cuts[n]), k) {
        LossNeedsHazard(log, p, t, cuts[n], k);
      }
    }
  }
}
