/**
 Snapshots taken while commits are running.

 A commit holds the shared side of one lock while it publishes its data and then
 records its transactions in the conflict history.  Building a snapshot holds
 the exclusive side while it reads the history, then the sequence counter, then
 the data.  Installing one replaces all three on another node.
 */
module RaftSnapshot {
  import opened Basics
  import opened Storage
  import opened Coalesce

  /** One committed batch and the transactions whose records it carries. */
  datatype Commit = Commit(batch: WriteBatch, txns: seq<nat>)

  datatype HistoryEntry = HistoryEntry(txn: nat, marker: nat)

  /** Where a committer is inside its critical section. */
  datatype Phase =
    | Out
    | Locked(commit: Commit)
    | Recording(marker: nat, todo: seq<nat>)
    | Pruned

  /** A snapshot; `applied`, `made` and `floor` observe which commits its data
      contains, which records had been made when it was captured, and the highest
      floor the history had been pruned to. */
  datatype Snapshot = Snapshot(data: Data, maxSeq: nat, history: seq<HistoryEntry>,
                               applied: seq<Commit>, made: seq<HistoryEntry>, floor: nat)

  /** The builder reads history, sequence and data in three separate steps. */
  datatype Builder =
    | NoBuild
    | Start
    | HaveHistory(h: seq<HistoryEntry>)
    | HaveSeq(h: seq<HistoryEntry>, maxSeq: nat)
    | HaveData(h: seq<HistoryEntry>, maxSeq: nat, data: Data)

  datatype Node = Node(data: Data, nextSeq: nat, history: seq<HistoryEntry>, phases: seq<Phase>, builder: Builder,
                       applied: seq<Commit>, made: seq<HistoryEntry>, floor: nat)

  datatype System = System(nodes: seq<Node>, snapshots: seq<Snapshot>)

  predicate SharedHeld(n: Node) {
    exists c :: 0 <= c < |n.phases| && !n.phases[c].Out?
  }

  // ----- Steps of one node -----

  ghost predicate Enter(n: Node, n': Node, c: nat, commit: Commit) {
    && n.builder.NoBuild? && c < |n.phases| && n.phases[c].Out?
    && n' == n.(phases := n.phases[c := Locked(commit)])
  }

  /** The data becomes visible at the marker. */
  ghost predicate Publish(n: Node, n': Node, c: nat) {
    && c < |n.phases| && n.phases[c].Locked?
    && var commit := n.phases[c].commit;
       var marker := n.nextSeq + commit.batch.OpCount();
       n' == n.(data := CommitData(n.data, commit.batch), nextSeq := marker + 1,
                phases := n.phases[c := Recording(marker, commit.txns)],
                applied := n.applied + [commit])
  }

  ghost predicate RecordOne(n: Node, n': Node, c: nat) {
    && c < |n.phases| && n.phases[c].Recording? && n.phases[c].todo != []
    && var m, t := n.phases[c].marker, n.phases[c].todo[0];
       n' == n.(history := n.history + [HistoryEntry(t, m)],
                phases := n.phases[c := Recording(m, n.phases[c].todo[1..])],
                made := n.made + [HistoryEntry(t, m)])
  }

  /** Drops records no open snapshot can conflict with. */
  ghost predicate PruneHistory(n: Node, n': Node, c: nat, floor: nat) {
    && c < |n.phases| && n.phases[c].Recording? && n.phases[c].todo == []
    && n' == n.(history := KeepFrom(n.history, floor), phases := n.phases[c := Pruned],
                floor := if floor > n.floor then floor else n.floor)
  }

  ghost predicate Leave(n: Node, n': Node, c: nat) {
    c < |n.phases| && n.phases[c].Pruned? && n' == n.(phases := n.phases[c := Out])
  }

  /** Pointer saves, log appends and purges take sequence numbers too. */
  ghost predicate Bookkeeping(n: Node, n': Node, count: nat) {
    n.builder.NoBuild? && n' == n.(nextSeq := n.nextSeq + count)
  }

  ghost predicate StartBuild(n: Node, n': Node) {
    n.builder.NoBuild? && !SharedHeld(n) && n' == n.(builder := Start)
  }

  ghost predicate BuildStep(n: Node, n': Node) {
    match n.builder
    case Start => n' == n.(builder := HaveHistory(n.history))
    case HaveHistory(h) => n' == n.(builder := HaveSeq(h, n.nextSeq))
    case HaveSeq(h, m) => n' == n.(builder := HaveData(h, m, n.data))
    case _ => false
  }

  function KeepFrom(h: seq<HistoryEntry>, floor: nat): seq<HistoryEntry> {
    Filter((e: HistoryEntry) => e.marker >= floor, h)
  }

  ghost predicate Finish(n: Node, n': Node, s: Snapshot) {
    && n.builder.HaveData?
    && s == Snapshot(n.builder.data, n.builder.maxSeq, n.builder.h, n.applied, n.made, n.floor)
    && n' == n.(builder := NoBuild)
  }

  /** The counter only moves forward, past everything the snapshot carries. */
  ghost predicate Install(n: Node, n': Node, s: Snapshot) {
    && n.builder.NoBuild? && !SharedHeld(n)
    && n' == n.(data := s.data, history := s.history, applied := s.applied, made := s.made, floor := s.floor,
                nextSeq := if s.maxSeq >= n.nextSeq then s.maxSeq + 1 else n.nextSeq)
  }

  ghost predicate LocalStep(n: Node, n': Node) {
    || (exists c, commit :: Enter(n, n', c, commit))
    || (exists c :: Publish(n, n', c))
    || (exists c :: RecordOne(n, n', c))
    || (exists c, floor :: PruneHistory(n, n', c, floor))
    || (exists c :: Leave(n, n', c))
    || (exists count: nat :: Bookkeeping(n, n', count))
    || StartBuild(n, n')
    || BuildStep(n, n')
  }

  ghost predicate Step(s: System, s': System) {
    || (exists i, n' :: 0 <= i < |s.nodes| && LocalStep(s.nodes[i], n') && s' == s.(nodes := s.nodes[i := n']))
    || (exists i, n', snap ::
          && 0 <= i < |s.nodes| && Finish(s.nodes[i], n', snap)
          && s' == System(s.nodes[i := n'], s.snapshots + [snap]))
    || (exists i, n', j ::
          && 0 <= i < |s.nodes| && 0 <= j < |s.snapshots| && Install(s.nodes[i], n', s.snapshots[j])
          && s' == s.(nodes := s.nodes[i := n']))
  }

  ghost predicate InitNode(d0: Data, n: Node) {
    && n.data == d0 && n.history == [] && n.builder == NoBuild && n.applied == [] && n.made == []
    && forall c | 0 <= c < |n.phases| :: n.phases[c].Out?
  }

  ghost predicate IsRun(d0: Data, run: seq<System>) {
    && run != [] && run[0].snapshots == []
    && (forall i | 0 <= i < |run[0].nodes| :: InitNode(d0, run[0].nodes[i]))
    && (forall n | 0 <= n < |run| - 1 :: Step(run[n], run[n + 1]))
  }

  // ----- What the data and the history hold -----

  function Todo(p: Phase, t: nat): nat {
    if p.Recording? then multiset(p.todo)[t] else 0
  }

  /** How many records of `t` are promised by committers that have published. */
  function Owed(phases: seq<Phase>, t: nat): nat {
    if phases == [] then 0 else Owed(phases[..|phases| - 1], t) + Todo(phases[|phases| - 1], t)
  }

  /** How many times the data contains the record-carrying transaction `t`. */
  function TxnsIn(applied: seq<Commit>, t: nat): nat {
    if applied == [] then 0
    else TxnsIn(applied[..|applied| - 1], t) + multiset(applied[|applied| - 1].txns)[t]
  }

  /** How many records of `t` were made. */
  function MadeOf(made: seq<HistoryEntry>, t: nat): nat {
    if made == [] then 0 else MadeOf(made[..|made| - 1], t) + if made[|made| - 1].txn == t then 1 else 0
  }

  ghost predicate Paired(applied: seq<Commit>, made: seq<HistoryEntry>, phases: seq<Phase>) {
    forall t: nat :: TxnsIn(applied, t) == MadeOf(made, t) + Owed(phases, t)
  }

  function Batches(applied: seq<Commit>): (r: seq<WriteBatch>)
    ensures |r| == |applied| && forall i | 0 <= i < |r| :: r[i] == applied[i].batch
  {
    seq(|applied|, i requires 0 <= i < |applied| => applied[i].batch)
  }

  ghost predicate MarkersBelow(h: seq<HistoryEntry>, bound: nat) {
    forall i | 0 <= i < |h| :: h[i].marker < bound
  }

  /** The history holds only records that were made, and all of those that were
      not below a pruning floor. */
  ghost predicate Kept(h: seq<HistoryEntry>, made: seq<HistoryEntry>, floor: nat) {
    forall e: HistoryEntry ::
      multiset(h)[e] <= multiset(made)[e] && (e.marker >= floor ==> multiset(h)[e] == multiset(made)[e])
  }

  ghost predicate Holds(d0: Data, data: Data, applied: seq<Commit>) {
    data == LogData(d0, Batches(applied))
  }

  ghost predicate BuilderInv(n: Node) {
    && (!n.builder.NoBuild? ==> !SharedHeld(n))
    && (n.builder.HaveHistory? || n.builder.HaveSeq? || n.builder.HaveData? ==> n.builder.h == n.history)
    && (n.builder.HaveSeq? || n.builder.HaveData? ==> n.builder.maxSeq == n.nextSeq)
    && (n.builder.HaveData? ==> n.builder.data == n.data)
  }

  ghost predicate PhasesInv(n: Node) {
    forall c | 0 <= c < |n.phases| && n.phases[c].Recording? :: n.phases[c].marker < n.nextSeq
  }

  ghost predicate NodeInv(d0: Data, n: Node) {
    && Holds(d0, n.data, n.applied)
    && Paired(n.applied, n.made, n.phases)
    && MarkersBelow(n.history, n.nextSeq) && Kept(n.history, n.made, n.floor)
    && PhasesInv(n)
    && BuilderInv(n)
  }

  /** The data is a sequence of whole commits, the transactions in it are exactly
      those whose record was made, each made record is carried unless its marker is
      below a pruning floor, nothing else is carried, and no carried marker reaches
      `maxSeq`. */
  ghost predicate SnapshotInv(d0: Data, s: Snapshot) {
    && Holds(d0, s.data, s.applied)
    && (forall t: nat :: TxnsIn(s.applied, t) == MadeOf(s.made, t))
    && MarkersBelow(s.history, s.maxSeq) && Kept(s.history, s.made, s.floor)
  }

  ghost predicate Inv(d0: Data, s: System) {
    && (forall i | 0 <= i < |s.nodes| :: NodeInv(d0, s.nodes[i]))
    && (forall i | 0 <= i < |s.snapshots| :: SnapshotInv(d0, s.snapshots[i]))
  }

  // ----- Bookkeeping facts -----

  lemma {:induction false} OwedUpdate(phases: seq<Phase>, c: nat, p: Phase, t: nat)
    requires c < |phases|
    ensures Owed(phases[c := p], t) + Todo(phases[c], t) == Owed(phases, t) + Todo(p, t)
  {
    var n := |phases| - 1;
    if c < n {
      OwedUpdate(phases[..n], c, p, t);
      assert phases[c := p][..n] == phases[..n][c := p];
    } else {
      assert phases[c := p][..n] == phases[..n];
    }
  }

  lemma {:induction false} NothingOwed(phases: seq<Phase>, t: nat)
    requires forall c | 0 <= c < |phases| :: phases[c].Out?
    ensures Owed(phases, t) == 0
  {
    if phases != [] {
      NothingOwed(phases[..|phases| - 1], t);
    }
  }

  lemma SamePairing(applied: seq<Commit>, made: seq<HistoryEntry>, phases: seq<Phase>, c: nat, p: Phase)
    requires c < |phases| && Paired(applied, made, phases)
    requires forall t: nat :: Todo(p, t) == Todo(phases[c], t)
    ensures Paired(applied, made, phases[c := p])
  {
    forall t: nat ensures TxnsIn(applied, t) == MadeOf(made, t) + Owed(phases[c := p], t) {
      OwedUpdate(phases, c, p, t);
    }
  }

  lemma PublishHolds(d0: Data, data: Data, applied: seq<Commit>, commit: Commit)
    requires Holds(d0, data, applied)
    ensures Holds(d0, CommitData(data, commit.batch), applied + [commit])
    ensures forall t: nat :: TxnsIn(applied + [commit], t) == TxnsIn(applied, t) + multiset(commit.txns)[t]
  {
    var all := applied + [commit];
    assert all[..|all| - 1] == applied;
    assert Batches(all) == Batches(applied) + [commit.batch];
    var bs := Batches(all);
    assert bs[..|bs| - 1] == Batches(applied) && bs[|bs| - 1] == commit.batch;
    ApplyOpsConcat(d0, OneByOne(Batches(applied)), BatchOps(commit.batch));
  }

  // ----- Every step keeps the invariant -----

  lemma PublishKeeps(d0: Data, n: Node, n': Node, c: nat)
    requires NodeInv(d0, n) && Publish(n, n', c)
    ensures NodeInv(d0, n')
  {
    hide Holds, TxnsIn, Owed, CommitData;
    assert SharedHeld(n);
    PublishHolds(d0, n.data, n.applied, n.phases[c].commit);
    forall t: nat ensures TxnsIn(n'.applied, t) == MadeOf(n'.made, t) + Owed(n'.phases, t) {
      OwedUpdate(n.phases, c, n'.phases[c], t);
    }
  }

  lemma RecordKeeps(d0: Data, n: Node, n': Node, c: nat)
    requires NodeInv(d0, n) && RecordOne(n, n', c)
    ensures NodeInv(d0, n')
  {
    hide Holds, TxnsIn, Owed;
    assert SharedHeld(n);
    var todo := n.phases[c].todo;
    assert todo == [todo[0]] + todo[1..];
    assert n'.made[..|n'.made| - 1] == n.made;
    forall t: nat ensures TxnsIn(n'.applied, t) == MadeOf(n'.made, t) + Owed(n'.phases, t) {
      OwedUpdate(n.phases, c, n'.phases[c], t);
    }
  }

  lemma PruneKeeps(d0: Data, n: Node, n': Node, c: nat, floor: nat)
    requires NodeInv(d0, n) && PruneHistory(n, n', c, floor)
    ensures NodeInv(d0, n')
  {
    hide Holds, Paired, KeepFrom;
    assert SharedHeld(n);
    SamePairing(n.applied, n.made, n.phases, c, Pruned);
    KeepFromCounts(n.history, floor);
    forall i | 0 <= i < |n'.history| ensures n'.history[i].marker < n'.nextSeq {
      assert n'.history[i] in multiset(n'.history);
      assert n'.history[i] in multiset(n.history);
      assert n'.history[i] in n.history;
    }
  }

  lemma KeepFromCounts(h: seq<HistoryEntry>, floor: nat)
    ensures forall e: HistoryEntry ::
              multiset(KeepFrom(h, floor))[e] == if e.marker >= floor then multiset(h)[e] else 0
  {
    forall e: HistoryEntry ensures multiset(KeepFrom(h, floor))[e] == if e.marker >= floor then multiset(h)[e] else 0 {
      FilterCount((x: HistoryEntry) => x.marker >= floor, h, e);
    }
  }

  lemma EnterKeeps(d0: Data, n: Node, n': Node, c: nat, commit: Commit)
    requires NodeInv(d0, n) && Enter(n, n', c, commit)
    ensures NodeInv(d0, n')
  {
    hide Holds, Paired;
    SamePairing(n.applied, n.made, n.phases, c, Locked(commit));
  }

  lemma LeaveKeeps(d0: Data, n: Node, n': Node, c: nat)
    requires NodeInv(d0, n) && Leave(n, n', c)
    ensures NodeInv(d0, n')
  {
    hide Holds, Paired;
    assert SharedHeld(n);
    SamePairing(n.applied, n.made, n.phases, c, Out);
  }

  lemma LocalStepKeeps(d0: Data, n: Node, n': Node)
    requires NodeInv(d0, n) && LocalStep(n, n')
    ensures NodeInv(d0, n')
  {
    hide NodeInv, Enter, Publish, RecordOne, PruneHistory, Leave, Bookkeeping, StartBuild, BuildStep;
    if c :| Publish(n, n', c) {
      PublishKeeps(d0, n, n', c);
    } else if c :| RecordOne(n, n', c) {
      RecordKeeps(d0, n, n', c);
    } else if c, floor :| PruneHistory(n, n', c, floor) {
      PruneKeeps(d0, n, n', c, floor);
    } else if c, commit :| Enter(n, n', c, commit) {
      EnterKeeps(d0, n, n', c, commit);
    } else if c :| Leave(n, n', c) {
      LeaveKeeps(d0, n, n', c);
    } else if count: nat :| Bookkeeping(n, n', count) {
      BookkeepingKeeps(d0, n, n', count);
    } else {
      BuildKeeps(d0, n, n');
    }
  }

  lemma BookkeepingKeeps(d0: Data, n: Node, n': Node, count: nat)
    requires NodeInv(d0, n) && Bookkeeping(n, n', count)
    ensures NodeInv(d0, n')
  {
    hide Holds, Paired, Kept;
  }

  lemma BuildKeeps(d0: Data, n: Node, n': Node)
    requires NodeInv(d0, n) && (StartBuild(n, n') || BuildStep(n, n'))
    ensures NodeInv(d0, n')
  {
    hide Holds, Paired, Kept;
  }

  lemma FinishKeeps(d0: Data, n: Node, n': Node, s: Snapshot)
    requires NodeInv(d0, n) && Finish(n, n', s)
    ensures NodeInv(d0, n') && SnapshotInv(d0, s)
  {
    hide Holds, TxnsIn, Owed;
    forall t: nat ensures Owed(n.phases, t) == 0 {
      NothingOwed(n.phases, t);
    }
  }

  lemma InstallKeeps(d0: Data, n: Node, n': Node, s: Snapshot)
    requires NodeInv(d0, n) && SnapshotInv(d0, s) && Install(n, n', s)
    ensures NodeInv(d0, n') && s.maxSeq < n'.nextSeq
  {
    hide Holds, TxnsIn, Owed;
    forall t: nat ensures Owed(n.phases, t) == 0 {
      NothingOwed(n.phases, t);
    }
  }

  lemma StepKeeps(d0: Data, s: System, s': System)
    requires Inv(d0, s) && Step(s, s')
    ensures Inv(d0, s')
  {
    hide NodeInv, SnapshotInv, LocalStep, Finish, Install;
    if i, n' :| 0 <= i < |s.nodes| && LocalStep(s.nodes[i], n') && s' == s.(nodes := s.nodes[i := n']) {
      LocalStepKeeps(d0, s.nodes[i], n');
    } else if i, n', snap :| && 0 <= i < |s.nodes| && Finish(s.nodes[i], n', snap)
                             && s' == System(s.nodes[i := n'], s.snapshots + [snap]) {
      FinishKeeps(d0, s.nodes[i], n', snap);
    } else {
      var i, n', j :| && 0 <= i < |s.nodes| && 0 <= j < |s.snapshots| && Install(s.nodes[i], n', s.snapshots[j])
                      && s' == s.(nodes := s.nodes[i := n']);
      InstallKeeps(d0, s.nodes[i], n', s.snapshots[j]);
    }
  }

  lemma {:induction false} RunInvariant(d0: Data, run: seq<System>, n: nat)
    requires IsRun(d0, run) && n < |run|
    ensures Inv(d0, run[n])
  {
    if n == 0 {
      forall i | 0 <= i < |run[0].nodes| ensures NodeInv(d0, run[0].nodes[i]) {
        forall t: nat ensures Owed(run[0].nodes[i].phases, t) == 0 {
          NothingOwed(run[0].nodes[i].phases, t);
        }
        assert Batches([]) == [];
      }
    } else {
      RunInvariant(d0, run, n - 1);
      assert Step(run[n - 1], run[n - 1 + 1]);
      StepKeeps(d0, run[n - 1], run[n]);
    }
  }

  /** In every run, every snapshot pairs its data with its history: it contains
      exactly the transactions whose record had been made, carries each such record
      unless it was below a pruning floor, and every marker it carries is below its
      `maxSeq`. */
  lemma SnapshotsArePaired(d0: Data, run: seq<System>, n: nat, j: nat)
    requires IsRun(d0, run) && n < |run| && j < |run[n].snapshots|
    ensures SnapshotInv(d0, run[n].snapshots[j])
  {
    RunInvariant(d0, run, n);
  }

  /** In every run, a commit's marker exceeds every marker in its node's history. */
  lemma MarkersExceedHistory(d0: Data, run: seq<System>, n: nat, i: nat, c: nat, n': Node)
    requires IsRun(d0, run) && n < |run| && i < |run[n].nodes| && Publish(run[n].nodes[i], n', c)
    ensures MarkersBelow(run[n].nodes[i].history, n'.phases[c].marker)
  {
    RunInvariant(d0, run, n);
    assert NodeInv(d0, run[n].nodes[i]);
  }

  /** No step takes a sequence number back. */
  lemma LocalStepForward(n: Node, n': Node)
    requires LocalStep(n, n')
    ensures n.nextSeq <= n'.nextSeq
  {
    hide SharedHeld, KeepFrom, CommitData;
  }

  lemma StepForward(s: System, s': System, i: nat)
    requires Step(s, s') && i < |s.nodes|
    ensures |s'.nodes| == |s.nodes| && s.nodes[i].nextSeq <= s'.nodes[i].nextSeq
  {
    hide LocalStep, SharedHeld;
    if j, n' :| 0 <= j < |s.nodes| && LocalStep(s.nodes[j], n') && s' == s.(nodes := s.nodes[j := n']) {
      LocalStepForward(s.nodes[j], n');
    }
  }

  lemma {:induction false} RunForward(d0: Data, run: seq<System>, n: nat, m: nat, i: nat)
    requires IsRun(d0, run) && n <= m < |run| && i < |run[n].nodes|
    ensures |run[m].nodes| == |run[n].nodes| && run[n].nodes[i].nextSeq <= run[m].nodes[i].nextSeq
    decreases m
  {
    hide Step, InitNode;
    if n < m {
      RunForward(d0, run, n, m - 1, i);
      assert Step(run[m - 1], run[m - 1 + 1]);
      StepForward(run[m - 1], run[m], i);
    }
  }

  /** In every run, once a node has installed a snapshot, the marker of every later
      commit on it exceeds every marker the snapshot carried, pruned since or not. */
  lemma LaterMarkersExceedCarried(d0: Data, run: seq<System>, n: nat, m: nat, i: nat, j: nat, c: nat, n': Node)
    requires IsRun(d0, run) && n < m < |run| && i < |run[n].nodes| && j < |run[n].snapshots|
    requires i < |run[n + 1].nodes| && Install(run[n].nodes[i], run[n + 1].nodes[i], run[n].snapshots[j])
    requires i < |run[m].nodes| && Publish(run[m].nodes[i], n', c)
    ensures MarkersBelow(run[n].snapshots[j].history, n'.phases[c].marker)
  {
    hide NodeInv, SharedHeld, CommitData;
    RunInvariant(d0, run, n);
    var s := run[n].snapshots[j];
    assert SnapshotInv(d0, s);
    InstallKeeps(d0, run[n].nodes[i], run[n + 1].nodes[i], s);
    RunForward(d0, run, n + 1, m, i);
  }

  /** The only step that adds a snapshot adds what the node held. */
  lemma SnapshotStep(d0: Data, s: System, s': System, j: nat) returns (b: nat)
    requires Inv(d0, s) && Step(s, s') && j < |s'.snapshots|
    ensures |s.snapshots| <= |s'.snapshots| <= |s.snapshots| + 1
    ensures j < |s.snapshots| ==> s'.snapshots[j] == s.snapshots[j]
    ensures j >= |s.snapshots| ==> b < |s.nodes| && CopyOf(s'.snapshots[j], s.nodes[b])
  {
    hide NodeInv, SnapshotInv, LocalStep, Install, SharedHeld;
    b := 0;
    if i, n', snap :| && 0 <= i < |s.nodes| && Finish(s.nodes[i], n', snap)
                      && s' == System(s.nodes[i := n'], s.snapshots + [snap]) {
      b := i;
      FinishCopies(d0, s.nodes[i], n', snap);
    }
  }

  /** What a snapshot carries is what the node holds, with no commit under way. */
  ghost predicate CopyOf(s: Snapshot, n: Node) {
    s.data == n.data && s.history == n.history && s.maxSeq == n.nextSeq && !SharedHeld(n)
  }

  lemma FinishCopies(d0: Data, n: Node, n': Node, s: Snapshot)
    requires NodeInv(d0, n) && Finish(n, n', s)
    ensures CopyOf(s, n)
  {
  }

  /** Every snapshot was held by some node at the moment it was finished. */
  lemma {:induction false} SnapshotOrigin(d0: Data, run: seq<System>, n: nat, j: nat) returns (m: nat, b: nat)
    requires IsRun(d0, run) && n < |run| && j < |run[n].snapshots|
    ensures m < n && |run[m].snapshots| == j && b < |run[m].nodes| && CopyOf(run[n].snapshots[j], run[m].nodes[b])
  {
    hide Inv, Step, CopyOf, InitNode;
    assert Step(run[n - 1], run[n - 1 + 1]);
    RunInvariant(d0, run, n - 1);
    b := SnapshotStep(d0, run[n - 1], run[n], j);
    m := n - 1;
    if j < |run[n - 1].snapshots| {
      m, b := SnapshotOrigin(d0, run, n - 1, j);
    }
  }

  /** In every run, a node that installs a snapshot then holds the data and the history
      that the node it was taken on held when it was taken, and numbers what follows
      above everything that node had numbered. */
  lemma InstallCopies(d0: Data, run: seq<System>, n: nat, i: nat, j: nat) returns (m: nat, b: nat)
    requires IsRun(d0, run) && n + 1 < |run| && i < |run[n].nodes| && j < |run[n].snapshots|
    requires i < |run[n + 1].nodes| && Install(run[n].nodes[i], run[n + 1].nodes[i], run[n].snapshots[j])
    ensures m < n && |run[m].snapshots| == j && b < |run[m].nodes| && !SharedHeld(run[m].nodes[b])
    ensures run[n + 1].nodes[i].data == run[m].nodes[b].data
    ensures run[n + 1].nodes[i].history == run[m].nodes[b].history
    ensures run[n + 1].nodes[i].nextSeq > run[m].nodes[b].nextSeq
    ensures run[n + 1].nodes[i].nextSeq >= run[n].nodes[i].nextSeq
  {
    hide IsRun, SharedHeld;
    m, b := SnapshotOrigin(d0, run, n, j);
  }
}
