/**
 Replicas that apply one committed log in their own calls, crash between any two
 commits, restart from the saved pointer, and install each other's snapshots.

 Data is committed before the pointer that says it was applied, so a restart
 replays writes the data already contains.  How entries are grouped into calls
 is not the state machine's choice, so nothing here limits it.
 */
module RaftReplay {
  import opened Basics
  import opened Storage
  import opened Coalesce

  type Log = seq<WriteBatch>

  /** An apply call over the entries from the pointer up to `to`, with `done` of
      its commits made; or one whose pointer has moved but is not saved yet. */
  datatype Activity =
    | Idle
    | Applying(to: nat, done: nat)
    | PointerSet

  /** `commits` observes which entries each commit of this data merged. */
  datatype Replica = Replica(data: Data, pointer: nat, saved: nat, activity: Activity, commits: seq<Cut>)

  /** A captured snapshot: the data and the applied pointer it was taken with. */
  datatype Snapshot = Snapshot(data: Data, pointer: nat, commits: seq<Cut>)

  datatype System = System(replicas: seq<Replica>, snapshots: seq<Snapshot>)

  function Max(a: nat, b: nat): nat {
    if a < b then b else a
  }

  // ----- Steps -----

  datatype Action =
    | Apply(i: nat, to: nat)
    | CommitNext(i: nat)
    | MovePointer(i: nat)
    | SavePointer(i: nat)
    | Crash(i: nat)
    | Capture(i: nat)
    | Install(i: nat, snapshot: nat)

  /** The entries of the call a replica is in. */
  function Call(log: Log, r: Replica): seq<WriteBatch>
    requires r.activity.Applying? && r.pointer <= r.activity.to <= |log|
  {
    log[r.pointer..r.activity.to]
  }

  predicate InCall(log: Log, r: Replica) {
    r.activity.Applying? && r.pointer <= r.activity.to <= |log|
  }

  function Shift(c: Cut, p: nat): Cut {
    Cut(p + c.from, p + c.to)
  }

  predicate Enabled(log: Log, s: System, a: Action) {
    && a.i < |s.replicas|
    && var r := s.replicas[a.i];
       match a
       case Apply(_, to) => r.activity.Idle? && r.pointer <= to <= |log| && EachFits(log[r.pointer..to])
       case CommitNext(_) =>
         && InCall(log, r) && r.activity.done < |Cuts(Call(log, r))|
         && InRange(Call(log, r), Cuts(Call(log, r))[r.activity.done])
       case MovePointer(_) => InCall(log, r) && r.activity.done == |Cuts(Call(log, r))|
       case SavePointer(_) => r.activity.PointerSet?
       case Crash(_) => true
       case Capture(_) => true
       case Install(_, j) => r.activity.Idle? && j < |s.snapshots|
  }

  function AfterCommit(log: Log, r: Replica): Replica
    requires InCall(log, r) && r.activity.done < |Cuts(Call(log, r))|
    requires InRange(Call(log, r), Cuts(Call(log, r))[r.activity.done])
  {
    var c := Cuts(Call(log, r))[r.activity.done];
    r.(data := CommitData(r.data, Merged(Slice(Call(log, r), c))),
       activity := r.activity.(done := r.activity.done + 1),
       commits := r.commits + [Shift(c, r.pointer)])
  }

  function Restored(s: Snapshot): Replica {
    Replica(s.data, s.pointer, s.pointer, Idle, s.commits)
  }

  /** The replica after an action of its own. */
  function NextReplica(log: Log, s: System, a: Action): Replica
    requires Enabled(log, s, a)
  {
    var r := s.replicas[a.i];
    match a
    case Apply(_, to) => r.(activity := Applying(to, 0))
    case CommitNext(_) => AfterCommit(log, r)
    case MovePointer(_) => r.(pointer := r.activity.to, activity := PointerSet)
    case SavePointer(_) => r.(saved := r.pointer, activity := Idle)
    case Crash(_) => r.(pointer := r.saved, activity := Idle)
    case Capture(_) => r
    case Install(_, j) => Restored(s.snapshots[j])
  }

  function Next(log: Log, s: System, a: Action): System
    requires Enabled(log, s, a)
  {
    var r := s.replicas[a.i];
    s.(replicas := s.replicas[a.i := NextReplica(log, s, a)],
       snapshots := if a.Capture? then s.snapshots + [Snapshot(r.data, r.pointer, r.commits)] else s.snapshots)
  }

  /** The system after a run of actions, if each of them is possible. */
  function Exec(log: Log, s: System, acts: seq<Action>): Option<System> {
    if acts == [] then Some(s)
    else match Exec(log, s, acts[..|acts| - 1])
      case None => None
      case Some(t) => if Enabled(log, t, acts[|acts| - 1]) then Some(Next(log, t, acts[|acts| - 1])) else None
  }

  function Start(d0: Data, n: nat): System {
    System(seq(n, _ => Replica(d0, 0, 0, Idle, [])), [])
  }

  /** `s` is reached by some run from `n` fresh replicas. */
  ghost predicate Reached(log: Log, d0: Data, n: nat, s: System) {
    exists acts :: Exec(log, Start(d0, n), acts) == Some(s)
  }

  // ----- Which commit a key's value comes from -----

  /** No entry before `pos` that touches `k` comes after the last commit that
      touched it. */
  ghost predicate Current(log: Log, commits: seq<Cut>, pos: nat, k: Key)
    requires AllInRange(log, commits) && pos <= |log|
  {
    if commits == [] then !TouchedIn(log[..pos], k)
    else
      var c := commits[|commits| - 1];
      if TouchedIn(Slice(log, c), k) then !TouchedIn(log[c.to..Max(c.to, pos)], k)
      else Current(log, commits[..|commits| - 1], pos, k)
  }

  /** No commit that touches `k` reached beyond `pos`. */
  ghost predicate NotAhead(log: Log, commits: seq<Cut>, pos: nat, k: Key)
    requires AllInRange(log, commits)
  {
    forall c | 0 <= c < |commits| && TouchedIn(Slice(log, commits[c]), k) :: commits[c].to <= pos
  }

  /** The commit was one of those a call over some entries makes. */
  ghost predicate OfSomeCall(log: Log, c: Cut) {
    exists p: nat, t: nat, n: nat ::
      p <= t <= |log| && EachFits(log[p..t]) && n < |Cuts(log[p..t])| && c == Shift(Cuts(log[p..t])[n], p)
  }

  /** How far into the log the commits of the current call have come. */
  function Position(log: Log, r: Replica): nat
    requires r.activity.Applying? ==> InCall(log, r) && r.activity.done <= |Cuts(Call(log, r))|
  {
    if r.activity.Applying? then r.pointer + CutsEnd(Cuts(Call(log, r))[..r.activity.done]) else r.pointer
  }

  ghost predicate AllCurrent(log: Log, commits: seq<Cut>, pos: nat) {
    AllInRange(log, commits) && pos <= |log| && forall k: Key :: Current(log, commits, pos, k)
  }

  ghost predicate Sourced(log: Log, d0: Data, data: Data, commits: seq<Cut>) {
    && AllInRange(log, commits) && data == CutData(d0, log, commits)
    && forall c | 0 <= c < |commits| :: OfSomeCall(log, commits[c])
  }

  ghost predicate ReplicaInv(log: Log, d0: Data, r: Replica) {
    && r.saved <= r.pointer <= |log|
    && (r.activity.Applying? ==>
          InCall(log, r) && EachFits(Call(log, r)) && r.activity.done <= |Cuts(Call(log, r))|)
    && r.pointer <= Position(log, r) && AllCurrent(log, r.commits, Position(log, r))
    && Sourced(log, d0, r.data, r.commits)
  }

  ghost predicate SnapshotInv(log: Log, d0: Data, s: Snapshot) {
    s.pointer <= |log| && AllCurrent(log, s.commits, s.pointer) && Sourced(log, d0, s.data, s.commits)
  }

  ghost predicate Inv(log: Log, d0: Data, s: System) {
    && (forall i | 0 <= i < |s.replicas| :: ReplicaInv(log, d0, s.replicas[i]))
    && (forall i | 0 <= i < |s.snapshots| :: SnapshotInv(log, d0, s.snapshots[i]))
  }

  // ----- Facts about touched keys -----

  lemma TouchedSplit(log: Log, p: nat, m: nat, q: nat, k: Key)
    requires p <= m <= q <= |log|
    ensures TouchedIn(log[p..q], k) <==> TouchedIn(log[p..m], k) || TouchedIn(log[m..q], k)
  {
    hide Touches;
    var a, b, c := log[p..m], log[m..q], log[p..q];
    assert c == a + b;
    if i :| 0 <= i < |c| && Touches(c[i], k) {
      if i < |a| {
        assert Touches(a[i], k);
      } else {
        assert Touches(b[i - |a|], k);
      }
    }
    if i :| 0 <= i < |a| && Touches(a[i], k) {
      assert Touches(c[i], k);
    }
    if i :| 0 <= i < |b| && Touches(b[i], k) {
      assert Touches(c[i + |a|], k);
    }
  }

  lemma NoneTouched(log: Log, p: nat, k: Key)
    requires p <= |log|
    ensures !TouchedIn(log[p..p], k)
  {
  }

  lemma NoOpsUntouched(ws: seq<WriteBatch>, k: Key)
    requires OpsIn(ws) == 0
    ensures !TouchedIn(ws, k)
  {
    NoOpsLeft(ws);
    TouchedIffLastOp(ws, k);
    NothingTouched(k);
  }

  /** Being current is kept when the position moves back, and when it moves on
      over entries that do not touch the key. */
  lemma {:induction false} CurrentMoves(log: Log, commits: seq<Cut>, pos: nat, pos': nat, k: Key)
    requires AllInRange(log, commits) && pos <= |log| && pos' <= |log| && Current(log, commits, pos, k)
    requires pos < pos' ==> !TouchedIn(log[pos..pos'], k)
    ensures Current(log, commits, pos', k)
  {
    hide TouchedIn;
    var lo, hi := if pos < pos' then pos else pos', Max(pos, pos');
    if commits == [] {
      TouchedSplit(log, 0, lo, hi, k);
      assert log[0..lo] == log[..lo] && log[0..hi] == log[..hi];
    } else {
      var c := commits[|commits| - 1];
      if TouchedIn(Slice(log, c), k) {
        UntouchedBeyond(log, c.to, pos, pos', k);
      } else {
        CurrentMoves(log, commits[..|commits| - 1], pos, pos', k);
      }
    }
  }

  lemma UntouchedBeyond(log: Log, b: nat, pos: nat, pos': nat, k: Key)
    requires b <= |log| && pos <= |log| && pos' <= |log| && !TouchedIn(log[b..Max(b, pos)], k)
    requires pos < pos' ==> !TouchedIn(log[pos..pos'], k)
    ensures !TouchedIn(log[b..Max(b, pos')], k)
  {
    hide TouchedIn;
    NoneTouched(log, b, k);
    if b < pos' {
      if pos' <= pos {
        TouchedSplit(log, b, pos', pos, k);
      } else if b <= pos {
        TouchedSplit(log, b, pos, pos', k);
      } else {
        TouchedSplit(log, pos, b, pos', k);
      }
    }
  }

  /** A commit that starts where the earlier ones ended brings every key up to
      its own end. */
  lemma CurrentCommit(log: Log, commits: seq<Cut>, c: Cut)
    requires InRange(log, c) && AllCurrent(log, commits, c.from)
    ensures AllCurrent(log, commits + [c], c.to)
  {
    hide Current, TouchedIn;
    assert (commits + [c])[..|commits|] == commits;
    forall k: Key ensures Current(log, commits + [c], c.to, k) {
      CurrentSnoc(log, commits, c, k);
    }
  }

  lemma CurrentSnoc(log: Log, commits: seq<Cut>, c: Cut, k: Key)
    requires InRange(log, c) && AllInRange(log, commits) && Current(log, commits, c.from, k)
    ensures Current(log, commits + [c], c.to, k)
  {
    hide TouchedIn;
    assert (commits + [c])[..|commits|] == commits;
    if TouchedIn(Slice(log, c), k) {
      NoneTouched(log, c.to, k);
    } else {
      CurrentMoves(log, commits, c.from, c.to, k);
    }
  }

  lemma AllCurrentBack(log: Log, commits: seq<Cut>, pos: nat, pos': nat)
    requires AllCurrent(log, commits, pos) && pos' <= pos
    ensures AllCurrent(log, commits, pos')
  {
    hide Current;
    forall k: Key ensures Current(log, commits, pos', k) {
      CurrentMoves(log, commits, pos, pos', k);
    }
  }

  lemma AllCurrentOn(log: Log, commits: seq<Cut>, pos: nat, pos': nat)
    requires AllCurrent(log, commits, pos) && pos <= pos' <= |log| && OpsIn(log[pos..pos']) == 0
    ensures AllCurrent(log, commits, pos')
  {
    hide Current, OpsIn;
    forall k: Key ensures Current(log, commits, pos', k) {
      NoOpsUntouched(log[pos..pos'], k);
      CurrentMoves(log, commits, pos, pos', k);
    }
  }

  lemma LogDataAt(d1: Data, d2: Data, ws: seq<WriteBatch>, k: Key)
    ensures TouchedIn(ws, k) ==> Get(LogData(d1, ws), k) == Get(LogData(d2, ws), k)
    ensures !TouchedIn(ws, k) ==> Get(LogData(d1, ws), k) == Get(d1, k)
  {
    TouchedIffLastOp(ws, k);
    ApplyOpsAt(d1, OneByOne(ws), k);
    ApplyOpsAt(d2, OneByOne(ws), k);
  }

  lemma LogDataConcat(d: Data, log: Log, p: nat, t: nat)
    requires p <= t <= |log|
    ensures LogData(d, log[..t]) == LogData(LogData(d, log[..p]), log[p..t])
  {
    assert log[..t] == log[..p] + log[p..t];
    OneByOneConcat(log[..p], log[p..t]);
    ApplyOpsConcat(d, OneByOne(log[..p]), OneByOne(log[p..t]));
  }

  /** A key that is current and not ahead holds the log's value, unless the last
      commit that touched it resurrects it; then it is lost. */
  lemma {:induction false} KeyState(d0: Data, log: Log, commits: seq<Cut>, pos: nat, k: Key)
    requires AllInRange(log, commits) && pos <= |log|
    requires Current(log, commits, pos, k) && NotAhead(log, commits, pos, k)
    ensures LostAfter(log, commits, k) ==>
              Get(CutData(d0, log, commits), k) == None && Get(LogData(d0, log[..pos]), k) != None
    ensures !LostAfter(log, commits, k) ==>
              Get(CutData(d0, log, commits), k) == Get(LogData(d0, log[..pos]), k)
  {
    hide TouchedIn, LogData, CommitData, Merged, ResurrectsKey;
    if commits == [] {
      LogDataAt(d0, d0, log[..pos], k);
    } else {
      var init, c := commits[..|commits| - 1], commits[|commits| - 1];
      LastCommitAt(CutData(d0, log, init), d0, log, c, pos, k);
      if !TouchedIn(Slice(log, c), k) {
        assert forall i | 0 <= i < |init| :: init[i] == commits[i];
        KeyState(d0, log, init, pos, k);
      }
    }
  }

  lemma LastCommitAt(d: Data, d0: Data, log: Log, c: Cut, pos: nat, k: Key)
    requires InRange(log, c) && pos <= |log|
    ensures !TouchedIn(Slice(log, c), k) ==> Get(CommitData(d, Merged(Slice(log, c))), k) == Get(d, k)
    ensures TouchedIn(Slice(log, c), k) && c.to <= pos && !TouchedIn(log[c.to..pos], k) ==>
              if ResurrectsKey(Slice(log, c), k)
              then Get(CommitData(d, Merged(Slice(log, c))), k) == None && Get(LogData(d0, log[..pos]), k) != None
              else Get(CommitData(d, Merged(Slice(log, c))), k) == Get(LogData(d0, log[..pos]), k)
  {
    hide TouchedIn, CommitData, Merged, ResurrectsKey, ApplyOps, OneByOne;
    SliceAt(d, LogData(d0, log[..c.from]), Slice(log, c), k);
    LogDataConcat(d0, log, c.from, c.to);
    if c.to <= pos {
      LogDataConcat(d0, log, c.to, pos);
      LogDataAt(LogData(d0, log[..c.to]), d0, log[c.to..pos], k);
    }
  }

  // ----- Every step keeps the invariant -----

  lemma ApplyKeeps(log: Log, d0: Data, s: System, a: Action)
    requires Enabled(log, s, a) && a.Apply? && ReplicaInv(log, d0, s.replicas[a.i])
    ensures ReplicaInv(log, d0, NextReplica(log, s, a))
  {
    hide AllCurrent, Sourced, Cuts;
    var r' := NextReplica(log, s, a);
    assert Cuts(Call(log, r'))[..0] == [];
  }

  lemma CommitKeeps(log: Log, d0: Data, r: Replica)
    requires ReplicaInv(log, d0, r) && InCall(log, r) && r.activity.done < |Cuts(Call(log, r))|
    requires InRange(Call(log, r), Cuts(Call(log, r))[r.activity.done])
    ensures ReplicaInv(log, d0, AfterCommit(log, r))
  {
    hide AllCurrent, Sourced, Cuts, CommitData, Merged;
    var ws, n := Call(log, r), r.activity.done;
    var cuts := Cuts(ws);
    var c := Shift(cuts[n], r.pointer);
    CutsWellFormed(ws);
    assert CutsEnd(cuts[..n]) == cuts[n].from && CutsEnd(cuts[..n + 1]) == cuts[n].to by { TilesStep(ws, cuts, n); }
    SliceOfCall(log, r.pointer, r.activity.to, cuts[n]);
    CurrentCommit(log, r.commits, c);
    SourcedCommit(log, d0, r.data, r.commits, c, r.pointer, r.activity.to, n);
  }

  lemma TilesStep(ws: seq<WriteBatch>, cuts: seq<Cut>, n: nat)
    requires Tiles(ws, cuts) && n < |cuts|
    ensures CutsEnd(cuts[..n]) == cuts[n].from && CutsEnd(cuts[..n + 1]) == cuts[n].to
  {
  }

  lemma SourcedCommit(log: Log, d0: Data, data: Data, commits: seq<Cut>, c: Cut, p: nat, t: nat, n: nat)
    requires Sourced(log, d0, data, commits)
    requires p <= t <= |log| && EachFits(log[p..t]) && n < |Cuts(log[p..t])| && c == Shift(Cuts(log[p..t])[n], p)
    requires InRange(log, c)
    ensures Sourced(log, d0, CommitData(data, Merged(Slice(log, c))), commits + [c])
  {
    hide Cuts, CommitData, Merged;
    assert OfSomeCall(log, c);
    assert (commits + [c])[..|commits|] == commits;
    assert forall i | 0 <= i < |commits| :: (commits + [c])[i] == commits[i];
  }

  lemma MoveKeeps(log: Log, d0: Data, s: System, a: Action)
    requires Enabled(log, s, a) && a.MovePointer? && ReplicaInv(log, d0, s.replicas[a.i])
    ensures ReplicaInv(log, d0, NextReplica(log, s, a))
  {
    hide AllCurrent, Sourced, Cuts, OpsIn;
    var r := s.replicas[a.i];
    var ws := Call(log, r);
    assert Cuts(ws)[..|Cuts(ws)|] == Cuts(ws);
    CutsWellFormed(ws);
    var end := CutsEnd(Cuts(ws));
    assert ws[end..] == log[r.pointer + end..r.activity.to];
    AllCurrentOn(log, r.commits, r.pointer + end, r.activity.to);
  }

  lemma OtherKeeps(log: Log, d0: Data, s: System, a: Action)
    requires Enabled(log, s, a) && Inv(log, d0, s) && !a.Apply? && !a.CommitNext? && !a.MovePointer?
    ensures ReplicaInv(log, d0, NextReplica(log, s, a))
  {
    hide AllCurrent, Sourced, Cuts;
    var r := s.replicas[a.i];
    if a.Crash? {
      AllCurrentBack(log, r.commits, Position(log, r), r.saved);
    }
  }

  lemma NextReplicaKeeps(log: Log, d0: Data, s: System, a: Action)
    requires Enabled(log, s, a) && Inv(log, d0, s)
    ensures ReplicaInv(log, d0, NextReplica(log, s, a))
  {
    hide ReplicaInv, SnapshotInv;
    if a.Apply? {
      ApplyKeeps(log, d0, s, a);
    } else if a.CommitNext? {
      CommitKeeps(log, d0, s.replicas[a.i]);
    } else if a.MovePointer? {
      MoveKeeps(log, d0, s, a);
    } else {
      OtherKeeps(log, d0, s, a);
    }
  }

  lemma CaptureKeeps(log: Log, d0: Data, r: Replica)
    requires ReplicaInv(log, d0, r)
    ensures SnapshotInv(log, d0, Snapshot(r.data, r.pointer, r.commits))
  {
    hide AllCurrent, Sourced, Cuts;
    AllCurrentBack(log, r.commits, Position(log, r), r.pointer);
  }

  lemma NextKeeps(log: Log, d0: Data, s: System, a: Action)
    requires Enabled(log, s, a) && Inv(log, d0, s)
    ensures Inv(log, d0, Next(log, s, a))
  {
    hide ReplicaInv, SnapshotInv, NextReplica, Enabled;
    assert a.i < |s.replicas| by { EnabledIndex(log, s, a); }
    NextReplicaKeeps(log, d0, s, a);
    CaptureKeeps(log, d0, s.replicas[a.i]);
  }

  lemma EnabledIndex(log: Log, s: System, a: Action)
    requires Enabled(log, s, a)
    ensures a.i < |s.replicas|
  {
  }

  lemma StartInv(log: Log, d0: Data, n: nat)
    ensures Inv(log, d0, Start(d0, n))
  {
    hide TouchedIn;
    forall k: Key ensures !TouchedIn(log[..0], k) {
      NoneTouched(log, 0, k);
    }
  }

  /** In every run each replica's data is that of its commits, each commit is
      one of some call, and none of the entries before the pointer is newer than
      the last commit that touched its keys. */
  lemma {:induction false} RunInvariant(log: Log, d0: Data, n: nat, acts: seq<Action>)
    requires Exec(log, Start(d0, n), acts).Some?
    ensures Inv(log, d0, Exec(log, Start(d0, n), acts).value)
    ensures |Exec(log, Start(d0, n), acts).value.replicas| == n
  {
    hide Inv, Enabled, NextReplica;
    if acts == [] {
      StartInv(log, d0, n);
    } else {
      var m := |acts| - 1;
      RunInvariant(log, d0, n, acts[..m]);
      var t := Exec(log, Start(d0, n), acts[..m]).value;
      EnabledIndex(log, t, acts[m]);
      NextKeeps(log, d0, t, acts[m]);
    }
  }

  lemma ReachedInv(log: Log, d0: Data, n: nat, s: System)
    requires Reached(log, d0, n, s)
    ensures Inv(log, d0, s) && |s.replicas| == n
  {
    hide Inv, Exec;
    var acts :| Exec(log, Start(d0, n), acts) == Some(s);
    RunInvariant(log, d0, n, acts);
  }

  // ----- What a replica holds, key by key -----

  /** In every run, whatever was batched, lost in a crash, replayed or installed:
      a key no commit beyond the pointer touched holds its value in the log up to
      the pointer exactly when the last commit that touched it does not resurrect
      it, and is missing otherwise. */
  lemma ReplicaKeyIff(log: Log, d0: Data, n: nat, s: System, i: nat, k: Key)
    requires Reached(log, d0, n, s) && i < |s.replicas|
    ensures s.replicas[i].pointer <= |log| && AllInRange(log, s.replicas[i].commits)
    ensures NotAhead(log, s.replicas[i].commits, s.replicas[i].pointer, k) ==>
              var r := s.replicas[i];
              && (Get(r.data, k) == Get(LogData(d0, log[..r.pointer]), k) <==> !LostAfter(log, r.commits, k))
              && (LostAfter(log, r.commits, k) ==> Get(r.data, k) == None)
  {
    hide LogData, CutData, LostAfter, NotAhead, Current, Cuts;
    ReachedInv(log, d0, n, s);
    var r := s.replicas[i];
    assert ReplicaInv(log, d0, r);
    AllCurrentBack(log, r.commits, Position(log, r), r.pointer);
    if NotAhead(log, r.commits, r.pointer, k) {
      KeyState(d0, log, r.commits, r.pointer, k);
    }
  }

  ghost predicate AllWithin(commits: seq<Cut>, pos: nat) {
    forall c | 0 <= c < |commits| :: commits[c].to <= pos
  }

  /** Nothing was committed beyond the pointer. */
  ghost predicate CaughtUp(r: Replica) {
    AllWithin(r.commits, r.pointer)
  }

  lemma CaughtUpNotAhead(log: Log, r: Replica, k: Key)
    requires AllInRange(log, r.commits) && (CaughtUp(r) || r.pointer == |log|)
    ensures NotAhead(log, r.commits, r.pointer, k)
  {
    hide TouchedIn;
  }

  ghost predicate NoneLost(log: Log, commits: seq<Cut>)
    requires AllInRange(log, commits)
  {
    forall k: Key :: !LostAfter(log, commits, k)
  }

  /** So a caught-up replica holds exactly the log's data if and only if no key's
      last touching commit resurrects it. */
  lemma ReplayConverges(log: Log, d0: Data, n: nat, s: System, i: nat)
    requires Reached(log, d0, n, s) && i < |s.replicas| && CaughtUp(s.replicas[i])
    ensures s.replicas[i].pointer <= |log| && AllInRange(log, s.replicas[i].commits)
    ensures s.replicas[i].data == LogData(d0, log[..s.replicas[i].pointer]) <==> NoneLost(log, s.replicas[i].commits)
  {
    hide LogData, LostAfter, NotAhead, Reached, CaughtUp;
    var r := s.replicas[i];
    forall k: Key
      ensures r.pointer <= |log| && AllInRange(log, r.commits)
      ensures Get(r.data, k) == Get(LogData(d0, log[..r.pointer]), k) <==> !LostAfter(log, r.commits, k)
    {
      ReplicaKeyIff(log, d0, n, s, i, k);
      CaughtUpNotAhead(log, r, k);
    }
    assert r.pointer <= |log| && AllInRange(log, r.commits) by { ReplicaKeyIff(log, d0, n, s, i, ""); }
    if NoneLost(log, r.commits) {
      DataEqual(r.data, LogData(d0, log[..r.pointer]));
    }
  }

  /** Two replicas at one pointer agree on a key exactly when both or neither
      lost it, however each of them batched, crashed and replayed. */
  lemma ReplicasAgreeIff(log: Log, d0: Data, n: nat, s: System, i: nat, j: nat, k: Key)
    requires Reached(log, d0, n, s) && i < |s.replicas| && j < |s.replicas|
    requires s.replicas[i].pointer == s.replicas[j].pointer
    ensures AllInRange(log, s.replicas[i].commits) && AllInRange(log, s.replicas[j].commits)
    ensures && NotAhead(log, s.replicas[i].commits, s.replicas[i].pointer, k)
            && NotAhead(log, s.replicas[j].commits, s.replicas[j].pointer, k) ==>
              (Get(s.replicas[i].data, k) == Get(s.replicas[j].data, k) <==>
               (LostAfter(log, s.replicas[i].commits, k) <==> LostAfter(log, s.replicas[j].commits, k)))
  {
    hide LogData, LostAfter, NotAhead, Reached;
    ReplicaKeyIff(log, d0, n, s, i, k);
    ReplicaKeyIff(log, d0, n, s, j, k);
  }

  // ----- Replaying the log on a snapshot -----

  function ShiftAll(cuts: seq<Cut>, p: nat): (r: seq<Cut>)
    ensures |r| == |cuts| && forall i | 0 <= i < |r| :: r[i] == Shift(cuts[i], p)
  {
    seq(|cuts|, i requires 0 <= i < |cuts| => Shift(cuts[i], p))
  }

  lemma CutDataSnoc(d: Data, ws: seq<WriteBatch>, cuts: seq<Cut>, c: Cut)
    requires AllInRange(ws, cuts) && InRange(ws, c)
    ensures AllInRange(ws, cuts + [c])
    ensures CutData(d, ws, cuts + [c]) == CommitData(CutData(d, ws, cuts), Merged(Slice(ws, c)))
  {
    hide CommitData, Merged;
    assert (cuts + [c])[..|cuts|] == cuts;
  }

  /** Commits of a call are commits of the log, further along. */
  lemma {:induction false} CutDataShift(d0: Data, log: Log, commits: seq<Cut>, p: nat, t: nat, cuts: seq<Cut>)
    requires p <= t <= |log| && AllInRange(log[p..t], cuts) && AllInRange(log, commits)
    ensures AllInRange(log, commits + ShiftAll(cuts, p))
    ensures CutData(CutData(d0, log, commits), log[p..t], cuts) == CutData(d0, log, commits + ShiftAll(cuts, p))
    decreases |cuts|
  {
    hide CommitData, Merged, CutData;
    if cuts == [] {
      assert commits + ShiftAll(cuts, p) == commits;
      assert CutData(CutData(d0, log, commits), log[p..t], []) == CutData(d0, log, commits) by {
        NoCuts(CutData(d0, log, commits), log[p..t]);
      }
    } else {
      var m := |cuts| - 1;
      var init, c := cuts[..m], cuts[m];
      CutDataShift(d0, log, commits, p, t, init);
      assert cuts == init + [c];
      assert commits + ShiftAll(cuts, p) == commits + ShiftAll(init, p) + [Shift(c, p)];
      SliceOfCall(log, p, t, c);
      CutDataSnoc(CutData(d0, log, commits), log[p..t], init, c);
      CutDataSnoc(d0, log, commits + ShiftAll(init, p), Shift(c, p));
    }
  }

  lemma NoCuts(d: Data, ws: seq<WriteBatch>)
    ensures CutData(d, ws, []) == d
  {
  }

  lemma {:induction false} CurrentShift(log: Log, commits: seq<Cut>, p: nat, t: nat, cuts: seq<Cut>)
    requires p <= t <= |log| && Tiles(log[p..t], cuts) && AllCurrent(log, commits, p)
    ensures AllInRange(log, commits + ShiftAll(cuts, p))
    ensures p + CutsEnd(cuts) <= t && AllCurrent(log, commits + ShiftAll(cuts, p), p + CutsEnd(cuts))
    decreases |cuts|
  {
    hide AllCurrent, AllInRange;
    var all := commits + ShiftAll(cuts, p);
    if cuts == [] {
      assert all == commits;
      CurrentInRange(log, commits, p);
    } else {
      var m := |cuts| - 1;
      CutsPrefix(log[p..t], cuts);
      CurrentShift(log, commits, p, t, cuts[..m]);
      assert all == commits + ShiftAll(cuts[..m], p) + [Shift(cuts[m], p)];
      SliceOfCall(log, p, t, cuts[m]);
      CurrentCommit(log, commits + ShiftAll(cuts[..m], p), Shift(cuts[m], p));
      CurrentInRange(log, all, p + cuts[m].to);
    }
  }

  lemma CurrentInRange(log: Log, commits: seq<Cut>, p: nat)
    requires AllCurrent(log, commits, p)
    ensures AllInRange(log, commits) && p <= |log|
  {
  }

  lemma CutsPrefix(ws: seq<WriteBatch>, cuts: seq<Cut>)
    requires Tiles(ws, cuts) && cuts != []
    ensures Tiles(ws, cuts[..|cuts| - 1]) && CutsEnd(cuts[..|cuts| - 1]) == cuts[|cuts| - 1].from
    ensures InRange(ws, cuts[|cuts| - 1])
  {
  }

  /** A snapshot whose data ran ahead of its pointer, with the entries from the
      pointer up to `to` applied on it in one call, holds the log's data exactly
      when no key's last touching commit, its own or the call's, resurrects it. */
  lemma SnapshotCatchesUpIff(log: Log, d0: Data, n: nat, s: System, i: nat, to: nat)
    requires Reached(log, d0, n, s) && i < |s.snapshots|
    requires s.snapshots[i].pointer <= to <= |log| && EachFits(log[s.snapshots[i].pointer..to])
    requires AllWithin(s.snapshots[i].commits, to)
    ensures var x := s.snapshots[i];
            var ws := log[x.pointer..to];
            && Tiles(ws, Cuts(ws)) && AllInRange(log, x.commits + ShiftAll(Cuts(ws), x.pointer))
            && (CutData(x.data, ws, Cuts(ws)) == LogData(d0, log[..to]) <==>
                NoneLost(log, x.commits + ShiftAll(Cuts(ws), x.pointer)))
  {
    hide LogData, CutData, Cuts, LostAfter, AllCurrent, Reached, OpsIn;
    ReachedInv(log, d0, n, s);
    var x := s.snapshots[i];
    assert SnapshotInv(log, d0, x);
    var ws := log[x.pointer..to];
    var cuts := Cuts(ws);
    CutsWellFormed(ws);
    CurrentShift(log, x.commits, x.pointer, to, cuts);
    var all := x.commits + ShiftAll(cuts, x.pointer);
    assert ws[CutsEnd(cuts)..] == log[x.pointer + CutsEnd(cuts)..to];
    AllCurrentOn(log, all, x.pointer + CutsEnd(cuts), to);
    CutDataShift(d0, log, x.commits, x.pointer, to, cuts);
    assert AllWithin(all, to) by { ShiftWithin(log, x.commits, cuts, x.pointer, to); }
    DataIff(d0, log, all, to);
  }

  lemma ShiftWithin(log: Log, commits: seq<Cut>, cuts: seq<Cut>, p: nat, t: nat)
    requires p <= t <= |log| && AllWithin(commits, t) && AllInRange(log[p..t], cuts)
    ensures AllWithin(commits + ShiftAll(cuts, p), t)
  {
  }

  lemma DataIff(d0: Data, log: Log, commits: seq<Cut>, pos: nat)
    requires AllCurrent(log, commits, pos) && AllWithin(commits, pos)
    ensures CutData(d0, log, commits) == LogData(d0, log[..pos]) <==> NoneLost(log, commits)
  {
    hide LogData, CutData, LostAfter, Current;
    forall k: Key
      ensures Get(CutData(d0, log, commits), k) == Get(LogData(d0, log[..pos]), k) <==> !LostAfter(log, commits, k)
    {
      assert NotAhead(log, commits, pos, k);
      KeyState(d0, log, commits, pos, k);
    }
    if NoneLost(log, commits) {
      DataEqual(CutData(d0, log, commits), LogData(d0, log[..pos]));
    }
  }

  // ----- Which logs converge under every batching -----

  /** Whatever the run, a caught-up replica holds the log's data. */
  ghost predicate AlwaysConverges(log: Log, d0: Data) {
    forall n: nat, s: System, i: nat | Reached(log, d0, n, s) && i < |s.replicas| && CaughtUp(s.replicas[i]) ::
      s.replicas[i].pointer <= |log| && s.replicas[i].data == LogData(d0, log[..s.replicas[i].pointer])
  }

  /** Whatever the run, caught-up replicas at one pointer hold the same data. */
  ghost predicate AlwaysAgree(log: Log, d0: Data) {
    forall n: nat, s: System, i: nat, j: nat |
      && Reached(log, d0, n, s) && i < |s.replicas| && j < |s.replicas|
      && CaughtUp(s.replicas[i]) && CaughtUp(s.replicas[j]) && s.replicas[i].pointer == s.replicas[j].pointer ::
      s.replicas[i].data == s.replicas[j].data
  }

  lemma {:induction false} CommitsLoseNothing(log: Log, commits: seq<Cut>, k: Key)
    requires AllInRange(log, commits) && !Hazardous(log)
    requires forall c | 0 <= c < |commits| :: OfSomeCall(log, commits[c])
    ensures !LostAfter(log, commits, k)
  {
    hide Hazardous, ResurrectsKey, TouchedIn, OfSomeCall;
    if commits != [] {
      var m := |commits| - 1;
      var c := commits[m];
      CommitsLoseNothing(log, commits[..m], k);
      if ResurrectsKey(Slice(log, c), k) {
        CallCommitNeedsHazard(log, c, k);
      }
    }
  }

  lemma CallCommitNeedsHazard(log: Log, c: Cut, k: Key)
    requires InRange(log, c) && OfSomeCall(log, c) && ResurrectsKey(Slice(log, c), k)
    ensures Hazardous(log)
  {
    hide Cuts, Hazardous, ResurrectsKey, LeavesRoom;
    var p: nat, t: nat, n: nat :|
      p <= t <= |log| && EachFits(log[p..t]) && n < |Cuts(log[p..t])| && c == Shift(Cuts(log[p..t])[n], p);
    CutsWellFormed(log[p..t]);
    CutsLeaveRoom(log[p..t]);
    SliceOfCall(log, p, t, Cuts(log[p..t])[n]);
    LossNeedsHazard(log, p, t, Cuts(log[p..t])[n], k);
  }

  lemma SafeLogConverges(log: Log, d0: Data)
    requires !Hazardous(log)
    ensures AlwaysConverges(log, d0)
  {
    hide LogData, CaughtUp, Hazardous, LostAfter, Reached, OfSomeCall, CutData;
    forall n: nat, s: System, i: nat | Reached(log, d0, n, s) && i < |s.replicas| && CaughtUp(s.replicas[i])
      ensures s.replicas[i].pointer <= |log| && s.replicas[i].data == LogData(d0, log[..s.replicas[i].pointer])
    {
      var r := s.replicas[i];
      ReplayConverges(log, d0, n, s, i);
      ReachedInv(log, d0, n, s);
      assert ReplicaInv(log, d0, r);
      forall k: Key ensures !LostAfter(log, r.commits, k) {
        CommitsLoseNothing(log, r.commits, k);
      }
    }
  }

  // Building runs.

  lemma {:induction false} ExecConcat(log: Log, s: System, a: seq<Action>, b: seq<Action>)
    requires Exec(log, s, a).Some?
    ensures Exec(log, s, a + b) == Exec(log, Exec(log, s, a).value, b)
    decreases |b|
  {
    hide Enabled, Next;
    if b == [] {
      assert a + b == a;
    } else {
      var m := |b| - 1;
      assert (a + b)[..|a + b| - 1] == a + b[..m];
      ExecConcat(log, s, a, b[..m]);
    }
  }

  lemma ExecOne(log: Log, s: System, a: Action)
    requires Enabled(log, s, a)
    ensures Exec(log, s, [a]) == Some(Next(log, s, a))
  {
    hide Enabled, Next;
    assert [a][..0] == [];
    assert Exec(log, s, []) == Some(s);
  }

  function With(s: System, i: nat, r: Replica): System
    requires i < |s.replicas|
  {
    s.(replicas := s.replicas[i := r])
  }

  /** The replica with the first `m` commits of a call up to `to` made. */
  function MidCall(log: Log, r: Replica, to: nat, m: nat): Replica
    requires r.pointer <= to <= |log| && m <= |Cuts(log[r.pointer..to])|
    requires AllInRange(log[r.pointer..to], Cuts(log[r.pointer..to]))
  {
    var cuts := Cuts(log[r.pointer..to])[..m];
    r.(data := CutData(r.data, log[r.pointer..to], cuts), activity := Applying(to, m),
       commits := r.commits + ShiftAll(cuts, r.pointer))
  }

  lemma MidCallStep(log: Log, r: Replica, to: nat, m: nat)
    requires r.pointer <= to <= |log| && m < |Cuts(log[r.pointer..to])|
    requires AllInRange(log[r.pointer..to], Cuts(log[r.pointer..to]))
    ensures AfterCommit(log, MidCall(log, r, to, m)) == MidCall(log, r, to, m + 1)
  {
    hide Cuts, CommitData, Merged;
    var cuts := Cuts(log[r.pointer..to]);
    assert cuts[..m + 1][..m] == cuts[..m];
    assert r.commits + ShiftAll(cuts[..m], r.pointer) + [Shift(cuts[m], r.pointer)] ==
           r.commits + ShiftAll(cuts[..m + 1], r.pointer);
  }

  lemma {:induction false} CommitsRun(log: Log, s: System, i: nat, to: nat, m: nat) returns (acts: seq<Action>)
    requires i < |s.replicas| && s.replicas[i].activity.Idle? && s.replicas[i].pointer <= to <= |log|
    requires EachFits(log[s.replicas[i].pointer..to]) && m <= |Cuts(log[s.replicas[i].pointer..to])|
    ensures AllInRange(log[s.replicas[i].pointer..to], Cuts(log[s.replicas[i].pointer..to]))
    ensures Exec(log, s, acts) == Some(With(s, i, MidCall(log, s.replicas[i], to, m)))
  {
    hide Cuts, Exec, CutData, AfterCommit;
    var r := s.replicas[i];
    var ws := log[r.pointer..to];
    CutsWellFormed(ws);
    if m == 0 {
      acts := [Apply(i, to)];
      ExecOne(log, s, acts[0]);
      assert MidCall(log, r, to, 0) == r.(activity := Applying(to, 0)) by { MidCallStart(log, r, to); }
    } else {
      var before := CommitsRun(log, s, i, to, m - 1);
      var mid := With(s, i, MidCall(log, r, to, m - 1));
      acts := before + [CommitNext(i)];
      ExecConcat(log, s, before, [CommitNext(i)]);
      ExecOne(log, mid, CommitNext(i));
      MidCallStep(log, r, to, m - 1);
      assert mid.replicas[i := MidCall(log, r, to, m)] == s.replicas[i := MidCall(log, r, to, m)];
    }
  }

  lemma MidCallStart(log: Log, r: Replica, to: nat)
    requires r.pointer <= to <= |log| && AllInRange(log[r.pointer..to], Cuts(log[r.pointer..to]))
    ensures MidCall(log, r, to, 0) == r.(activity := Applying(to, 0))
  {
    hide Cuts;
    assert Cuts(log[r.pointer..to])[..0] == [];
    assert r.commits + ShiftAll([], r.pointer) == r.commits;
  }

  /** The replica after a whole call. */
  function AfterCall(log: Log, r: Replica, to: nat): Replica
    requires r.pointer <= to <= |log| && AllInRange(log[r.pointer..to], Cuts(log[r.pointer..to]))
  {
    var cuts := Cuts(log[r.pointer..to]);
    Replica(CutData(r.data, log[r.pointer..to], cuts), to, to, Idle, r.commits + ShiftAll(cuts, r.pointer))
  }

  lemma WholeCall(log: Log, s: System, i: nat, to: nat) returns (acts: seq<Action>)
    requires i < |s.replicas| && s.replicas[i].activity.Idle? && s.replicas[i].pointer <= to <= |log|
    requires EachFits(log[s.replicas[i].pointer..to])
    ensures AllInRange(log[s.replicas[i].pointer..to], Cuts(log[s.replicas[i].pointer..to]))
    ensures Exec(log, s, acts) == Some(With(s, i, AfterCall(log, s.replicas[i], to)))
  {
    hide Cuts, Exec, CutData;
    var r := s.replicas[i];
    var cuts := Cuts(log[r.pointer..to]);
    acts := CommitsRun(log, s, i, to, |cuts|);
    assert cuts[..|cuts|] == cuts;
    var mid := With(s, i, MidCall(log, r, to, |cuts|));
    var moved := Next(log, mid, MovePointer(i));
    ExecConcat(log, s, acts, [MovePointer(i)]);
    ExecOne(log, mid, MovePointer(i));
    ExecConcat(log, s, acts + [MovePointer(i)], [SavePointer(i)]);
    ExecOne(log, moved, SavePointer(i));
    assert Next(log, moved, SavePointer(i)).replicas == s.replicas[i := AfterCall(log, r, to)];
    acts := acts + [MovePointer(i)] + [SavePointer(i)];
  }

  /** A call may be cut off after any number of its commits; the restart then forgets the
      pointer, and taking the entries again makes those commits a second time. */
  lemma CrashReplays(log: Log, s: System, i: nat, to: nat, m: nat) returns (acts: seq<Action>, r': Replica)
    requires i < |s.replicas| && s.replicas[i].activity.Idle?
    requires s.replicas[i].saved == s.replicas[i].pointer <= to <= |log|
    requires EachFits(log[s.replicas[i].pointer..to]) && m <= |Cuts(log[s.replicas[i].pointer..to])|
    ensures Exec(log, s, acts) == Some(With(s, i, r')) && Crash(i) in acts
    ensures r'.pointer == r'.saved == to && r'.activity.Idle?
    ensures var r := s.replicas[i];
            var cuts := Cuts(log[r.pointer..to]);
            r'.commits == r.commits + ShiftAll(cuts[..m], r.pointer) + ShiftAll(cuts, r.pointer)
  {
    hide Cuts, Exec, CutData;
    var r := s.replicas[i];
    var before := CommitsRun(log, s, i, to, m);
    var cut := With(s, i, MidCall(log, r, to, m));
    ExecConcat(log, s, before, [Crash(i)]);
    ExecOne(log, cut, Crash(i));
    var down := Next(log, cut, Crash(i));
    var again := WholeCall(log, down, i, to);
    ExecConcat(log, s, before + [Crash(i)], again);
    acts, r' := before + [Crash(i)] + again, AfterCall(log, down.replicas[i], to);
    assert down.replicas[i := r'] == s.replicas[i := r'];
    assert acts[|before|] == Crash(i);
  }

  lemma OneEntry(d: Data, w: WriteBatch)
    requires w.OpCount() <= MAX_OPS
    ensures AllInRange([w], Cuts([w])) && CutData(d, [w], Cuts([w])) == LogData(d, [w])
  {
    hide Cuts, CutData, LogData;
    var ws := [w];
    CutsWellFormed(ws);
    FinalDataIff(d, ws);
    forall k: Key ensures !LostAfter(ws, Cuts(ws), k) {
      OneEntryLosesNothing(ws, Cuts(ws), k);
    }
  }

  lemma {:induction false} OneEntryLosesNothing(ws: seq<WriteBatch>, cuts: seq<Cut>, k: Key)
    requires |ws| == 1 && AllInRange(ws, cuts)
    ensures !LostAfter(ws, cuts, k)
  {
    if cuts != [] {
      OneEntryLosesNothing(ws, cuts[..|cuts| - 1], k);
    }
  }

  /** A fresh replica that takes the entries one call each holds the log's data. */
  ghost predicate AppliedSingly(log: Log, d0: Data, r: Replica, m: nat) {
    && m <= |log| && r.pointer == m && r.saved == m && r.activity.Idle? && CaughtUp(r)
    && AllInRange(log, r.commits) && r.data == LogData(d0, log[..m])
  }

  lemma {:induction false} Singles(log: Log, d0: Data, s: System, i: nat, m: nat)
    returns (acts: seq<Action>, r: Replica)
    requires EachFits(log) && m <= |log| && i < |s.replicas| && s.replicas[i] == Replica(d0, 0, 0, Idle, [])
    ensures Exec(log, s, acts) == Some(With(s, i, r)) && AppliedSingly(log, d0, r, m)
  {
    hide Exec, Cuts, CutData, LogData;
    if m == 0 {
      acts, r := [], s.replicas[i];
      assert log[..0] == [];
      assert LogData(d0, []) == d0 && Exec(log, s, []) == Some(s) by { NothingDone(log, d0, s); }
      assert With(s, i, r) == s;
    } else {
      var before, q := Singles(log, d0, s, i, m - 1);
      var mid := With(s, i, q);
      assert log[m - 1..m] == [log[m - 1]];
      var call := WholeCall(log, mid, i, m);
      ExecConcat(log, s, before, call);
      acts, r := before + call, AfterCall(log, q, m);
      assert mid.replicas[i := r] == s.replicas[i := r];
      OneEntry(q.data, log[m - 1]);
      LogDataConcat(d0, log, m - 1, m);
      ShiftWithin(log, q.commits, Cuts(log[m - 1..m]), m - 1, m);
    }
  }

  lemma NothingDone(log: Log, d0: Data, s: System)
    ensures LogData(d0, []) == d0 && Exec(log, s, []) == Some(s)
  {
  }

  /** A log with a hazard splits two replicas that started alike: one takes the
      entries singly, the other those of the hazard in one call.  Both end at one
      saved pointer, and only the first still has the key. */
  lemma DivergingRun(log: Log, d0: Data, i: nat, j: nat, k: Key) returns (s: System)
    requires EachFits(log) && Hazard(log, i, j, k)
    ensures Reached(log, d0, 2, s) && |s.replicas| == 2 && CaughtUp(s.replicas[0]) && CaughtUp(s.replicas[1])
    ensures s.replicas[0].pointer == s.replicas[1].pointer == s.replicas[0].saved == s.replicas[1].saved == j + 1
    ensures j + 1 <= |log| && s.replicas[0].data == LogData(d0, log[..j + 1])
    ensures k in s.replicas[0].data && k !in s.replicas[1].data
  {
    hide Exec, Cuts, CutData, LogData, LostAfter, Hazard;
    HazardInLog(log, i, j, k);
    var s0 := Start(d0, 2);
    var a0, r0 := Singles(log, d0, s0, 0, j + 1);
    var s1 := With(s0, 0, r0);
    var a1, r1 := Singles(log, d0, s1, 1, i);
    var s2 := With(s1, 1, r1);
    var a2 := WholeCall(log, s2, 1, j + 1);
    s := With(s2, 1, AfterCall(log, r1, j + 1));
    ExecConcat(log, s0, a0, a1);
    ExecConcat(log, s0, a0 + a1, a2);
    assert Reached(log, d0, 2, s);
    assert log[r1.pointer..j + 1] == log[i..j + 1];
    ShiftWithin(log, r1.commits, Cuts(log[i..j + 1]), i, j + 1);
    HazardSplits(log, d0, i, j, k);
  }

  lemma HazardSplits(log: Log, d0: Data, i: nat, j: nat, k: Key)
    requires Hazard(log, i, j, k)
    ensures var ws := log[i..j + 1];
            && AllInRange(ws, Cuts(ws)) && k !in CutData(LogData(d0, log[..i]), ws, Cuts(ws))
            && k in LogData(d0, log[..j + 1])
  {
    hide Cuts, CutData, LogData, LostAfter;
    var ws, d := log[i..j + 1], LogData(d0, log[..i]);
    HazardLoses(log, i, j, k);
    KeyAfterCommits(d, ws, Cuts(ws), k);
    assert ws[..|ws|] == ws;
    LogDataConcat(d0, log, i, j + 1);
  }

  /** Every run leaves every caught-up replica with the log's data, and any two
      of them at one pointer alike, exactly when the log never deletes a key and
      sets it again within the operations of one batch. */
  lemma ConvergesIff(log: Log, d0: Data)
    requires EachFits(log)
    ensures AlwaysConverges(log, d0) <==> !Hazardous(log)
    ensures AlwaysAgree(log, d0) <==> !Hazardous(log)
  {
    hide LogData, CaughtUp, Hazard, Reached;
    if i: nat, j: nat, k: Key :| Hazard(log, i, j, k) {
      var s := DivergingRun(log, d0, i, j, k);
    } else {
      SafeLogConverges(log, d0);
    }
  }

  // ----- What an installed replica holds -----

  /** Every snapshot was captured from a replica, earlier in the run. */
  lemma {:induction false} SnapshotOrigin(log: Log, d0: Data, n: nat, acts: seq<Action>, j: nat) returns (m: nat)
    requires Exec(log, Start(d0, n), acts).Some? && j < |Exec(log, Start(d0, n), acts).value.snapshots|
    ensures m < |acts| && acts[m].Capture? && Exec(log, Start(d0, n), acts[..m]).Some?
    ensures var t := Exec(log, Start(d0, n), acts[..m]).value;
            && acts[m].i < |t.replicas|
            && var r := t.replicas[acts[m].i];
               Exec(log, Start(d0, n), acts).value.snapshots[j] == Snapshot(r.data, r.pointer, r.commits)
  {
    hide NextReplica, Cuts;
    var k := |acts| - 1;
    var t := Exec(log, Start(d0, n), acts[..k]).value;
    if j < |t.snapshots| {
      m := SnapshotOrigin(log, d0, n, acts[..k], j);
      assert acts[..k][..m] == acts[..m];
    } else {
      m := k;
    }
  }

  /** In every run, a replica that installs a snapshot then holds the data and stands at
      the pointer, saved, of the replica it was captured from. */
  lemma InstallCopies(log: Log, d0: Data, n: nat, acts: seq<Action>, i: nat, j: nat) returns (m: nat)
    requires Exec(log, Start(d0, n), acts + [Install(i, j)]).Some?
    ensures m < |acts| && acts[m].Capture? && Exec(log, Start(d0, n), acts[..m]).Some?
    ensures var s, t := Exec(log, Start(d0, n), acts + [Install(i, j)]).value, Exec(log, Start(d0, n), acts[..m]).value;
            && i < |s.replicas| && acts[m].i < |t.replicas|
            && var r, from := s.replicas[i], t.replicas[acts[m].i];
               r.data == from.data && r.pointer == r.saved == from.pointer && r.activity.Idle?
  {
    hide Cuts;
    var all := acts + [Install(i, j)];
    assert all[..|all| - 1] == acts;
    m := SnapshotOrigin(log, d0, n, acts, j);
  }
}
