/**
 Two-phase commit: one coordinator with a recovery log, any number of
 participants, and messages that may be lost, repeated and reordered.

 The coordinator's and participant's calls are functions on their states; the
 protocol is every interleaving of those calls, message deliveries and
 coordinator crashes.
 */
module TwoPhase {
  import opened Basics
  import opened Storage
  import opened Coalesce

  type NodeId = nat

  /** The coordinator's node and its local sequence number. */
  type TxnId = (NodeId, nat)

  datatype Vote = VoteCommit | VoteAbort

  datatype TxnState = Preparing | WaitingForVotes | Committing | Aborted

  datatype LogTag = PREPARE | COMMIT | ABORT

  /** A buffered write is a batch of one operation. */
  datatype Txn = Txn(state: TxnState, writes: map<NodeId, seq<WriteBatch>>, votes: map<NodeId, Vote>)

  type RecoveryLog = map<(TxnId, LogTag), set<NodeId>>

  datatype Coordinator = Coordinator(nodeId: NodeId, nextSeq: nat, active: map<TxnId, Txn>, log: RecoveryLog)

  datatype CallError = NotFound | WrongState | DecidedAbort

  // ----- Coordinator calls -----

  function NewTxn(): Txn {
    Txn(Preparing, map[], map[])
  }

  function NextId(c: Coordinator): TxnId {
    (c.nodeId, c.nextSeq)
  }

  function CoordBegin(c: Coordinator): Coordinator {
    c.(nextSeq := c.nextSeq + 1, active := c.active[NextId(c) := NewTxn()])
  }

  function WithWrite(t: Txn, node: NodeId, w: WriteBatch): Txn {
    t.(writes := t.writes[node := (if node in t.writes then t.writes[node] else []) + [w]])
  }

  function CoordAddWrite(c: Coordinator, id: TxnId, node: NodeId, w: WriteBatch): Result<Coordinator, CallError> {
    if id !in c.active then Err(NotFound)
    else if c.active[id].state != Preparing then Err(WrongState)
    else Ok(c.(active := c.active[id := WithWrite(c.active[id], node, w)]))
  }

  function CoordPrepare(c: Coordinator, id: TxnId): Result<Coordinator, CallError> {
    if id !in c.active then Err(NotFound)
    else if c.active[id].state != Preparing then Err(WrongState)
    else Ok(c.(log := c.log[(id, PREPARE) := c.active[id].writes.Keys],
               active := c.active[id := c.active[id].(state := WaitingForVotes)]))
  }

  predicate AllVotedCommit(t: Txn) {
    forall n | n in t.votes :: t.votes[n] == VoteCommit
  }

  /** Counts a vote and decides once exactly the participants have voted.  The
      new state is visible before the decision is logged. */
  function CountVote(t: Txn, node: NodeId, v: Vote): Txn {
    var t' := t.(votes := t.votes[node := v]);
    if t'.votes.Keys != t'.writes.Keys then t'
    else if AllVotedCommit(t') then t'.(state := Committing)
    else t'.(state := Aborted)
  }

  function CoordVote(c: Coordinator, id: TxnId, node: NodeId, v: Vote): Result<Coordinator, CallError> {
    if id !in c.active then Err(NotFound)
    else if c.active[id].state != WaitingForVotes then Err(WrongState)
    else Ok(c.(active := c.active[id := CountVote(c.active[id], node, v)]))
  }

  function CoordLog(c: Coordinator, id: TxnId, tag: LogTag, participants: set<NodeId>): Coordinator {
    c.(log := c.log[(id, tag) := participants])
  }

  /** Aborting does not look at the state the transaction is in. */
  function CoordAbort(c: Coordinator, id: TxnId): Result<Coordinator, CallError> {
    if id !in c.active then Err(NotFound)
    else Ok(c.(active := c.active[id := c.active[id].(state := Aborted)]))
  }

  function CoordForget(c: Coordinator, id: TxnId): Coordinator {
    c.(active := c.active - {id})
  }

  /** A new coordinator over an existing log; its sequence starts over. */
  function Restarted(nodeId: NodeId, log: RecoveryLog): Coordinator {
    Coordinator(nodeId, 1, map[], log)
  }

  /** What recovery reports for a transaction, if anything. */
  function RecoverOne(log: RecoveryLog, id: TxnId): Option<(LogTag, set<NodeId>)> {
    if (id, COMMIT) in log then Some((COMMIT, log[(id, COMMIT)]))
    else if (id, PREPARE) in log && (id, ABORT) !in log then Some((PREPARE, log[(id, PREPARE)]))
    else None
  }

  predicate InDoubtAt(log: RecoveryLog, id: TxnId, node: NodeId) {
    && (id, PREPARE) in log && node in log[(id, PREPARE)]
    && RecoverOne(log, id) == Some((PREPARE, log[(id, PREPARE)]))
  }

  // ----- Participant calls -----

  /** `applied` observes the batches applied here, in order, and `discarded` the
      prepared transactions that were dropped. */
  datatype Participant = Participant(prepared: map<TxnId, WriteBatch>, data: Data,
                                     applied: seq<(TxnId, WriteBatch)>, discarded: set<TxnId>)

  ghost predicate HasApplied(p: Participant, id: TxnId) {
    exists i :: 0 <= i < |p.applied| && p.applied[i].0 == id
  }

  /** A successful prepare keeps the writes as one batch. */
  function PartPrepare(p: Participant, id: TxnId, writes: seq<WriteBatch>): Participant {
    p.(prepared := p.prepared[id := Merged(writes)])
  }

  function PartCommit(p: Participant, id: TxnId): Participant {
    if id !in p.prepared then p
    else p.(data := CommitData(p.data, p.prepared[id]), prepared := p.prepared - {id},
            applied := p.applied + [(id, p.prepared[id])])
  }

  function PartAbort(p: Participant, id: TxnId): Participant {
    if id !in p.prepared then p
    else p.(prepared := p.prepared - {id}, discarded := p.discarded + {id})
  }

  // ----- The protocol -----

  datatype Message =
    | PrepareMsg(txn: TxnId, node: NodeId, writes: seq<WriteBatch>)
    | VoteMsg(txn: TxnId, node: NodeId, vote: Vote)
    | CommitMsg(txn: TxnId, node: NodeId)
    | AbortMsg(txn: TxnId, node: NodeId)

  /** `sent` holds every message ever sent.  `unlogged` holds the decisions taken
      but not yet in the log: the lock is released before the log is written, so
      one transaction may have a commit and an abort pending together. */
  datatype System = System(c: Coordinator, parts: map<NodeId, Participant>, sent: set<Message>, unlogged: RecoveryLog)

  datatype Action =
    | ABegin
    | AAddWrite(id: TxnId, node: NodeId, w: WriteBatch)
    | APrepare(id: TxnId)
    | APrepareAt(m: Message, v: Vote)
    | AReceiveVote(m: Message)
    | AAbort(id: TxnId)
    | ALog(id: TxnId, tag: LogTag)
    | AForget(id: TxnId)
    | ASendCommit(id: TxnId, node: NodeId)
    | ASendAbort(id: TxnId, node: NodeId)
    | ARecoverAbort(id: TxnId, node: NodeId)
    | ACrash(node: NodeId)
    | ADeliverCommit(m: Message)
    | ADeliverAbort(m: Message)

  /** When an action is possible.  A commit is sent only once it is logged, which
      covers re-sending; an abort to the participants the log names for it, or, in
      recovery, to those of a transaction the log leaves in doubt. */
  predicate Enabled(s: System, a: Action) {
    match a
    case ABegin => true
    case AAddWrite(id, node, w) => node in s.parts && CoordAddWrite(s.c, id, node, w).Ok?
    case APrepare(id) => CoordPrepare(s.c, id).Ok?
    case APrepareAt(m, _) => m in s.sent && m.PrepareMsg? && m.node in s.parts
    case AReceiveVote(m) => m in s.sent && m.VoteMsg? && CoordVote(s.c, m.txn, m.node, m.vote).Ok?
    case AAbort(id) => id in s.c.active
    case ALog(id, tag) => (id, tag) in s.unlogged
    case AForget(_) => true
    case ASendCommit(id, node) => (id, COMMIT) in s.c.log && node in s.c.log[(id, COMMIT)]
    case ASendAbort(id, node) => (id, ABORT) in s.c.log && node in s.c.log[(id, ABORT)]
    case ARecoverAbort(id, node) => InDoubtAt(s.c.log, id, node)
    case ACrash(_) => true
    case ADeliverCommit(m) => m in s.sent && m.CommitMsg? && m.node in s.parts
    case ADeliverAbort(m) => m in s.sent && m.AbortMsg? && m.node in s.parts
  }

  function PrepareMsgs(id: TxnId, writes: map<NodeId, seq<WriteBatch>>): set<Message> {
    set n | n in writes :: PrepareMsg(id, n, writes[n])
  }

  function AfterPrepare(s: System, id: TxnId): System
    requires CoordPrepare(s.c, id).Ok?
  {
    s.(c := CoordPrepare(s.c, id).value, sent := s.sent + PrepareMsgs(id, s.c.active[id].writes))
  }

  /** A participant may refuse for any reason of its own. */
  function AfterPrepareAt(s: System, m: Message, v: Vote): System
    requires m.PrepareMsg? && m.node in s.parts
  {
    s.(sent := s.sent + {VoteMsg(m.txn, m.node, v)},
       parts := if v == VoteAbort then s.parts
                else s.parts[m.node := PartPrepare(s.parts[m.node], m.txn, m.writes)])
  }

  function AfterVote(s: System, m: Message): System
    requires m.VoteMsg? && CoordVote(s.c, m.txn, m.node, m.vote).Ok?
  {
    var c' := CoordVote(s.c, m.txn, m.node, m.vote).value;
    var t := c'.active[m.txn];
    s.(c := c',
       unlogged := if t.state == Committing then s.unlogged[(m.txn, COMMIT) := t.writes.Keys]
                   else if t.state == Aborted then s.unlogged[(m.txn, ABORT) := t.writes.Keys] else s.unlogged)
  }

  /** The abort call takes an active transaction in any state. */
  function AfterAbort(s: System, id: TxnId): System
    requires id in s.c.active
  {
    s.(c := CoordAbort(s.c, id).value, unlogged := s.unlogged[(id, ABORT) := s.c.active[id].writes.Keys])
  }

  function AfterLog(s: System, id: TxnId, tag: LogTag): System
    requires (id, tag) in s.unlogged
  {
    s.(c := CoordLog(s.c, id, tag, s.unlogged[(id, tag)]), unlogged := s.unlogged - {(id, tag)})
  }

  /** The log, the participants and the messages survive a crash. */
  function AfterCrash(s: System, node: NodeId): System {
    s.(c := Restarted(node, s.c.log), unlogged := map[])
  }

  function Next(s: System, a: Action): System
    requires Enabled(s, a)
  {
    match a
    case ABegin => s.(c := CoordBegin(s.c))
    case AAddWrite(id, node, w) => s.(c := CoordAddWrite(s.c, id, node, w).value)
    case APrepare(id) => AfterPrepare(s, id)
    case APrepareAt(m, v) => AfterPrepareAt(s, m, v)
    case AReceiveVote(m) => AfterVote(s, m)
    case AAbort(id) => AfterAbort(s, id)
    case ALog(id, tag) => AfterLog(s, id, tag)
    case AForget(id) => s.(c := CoordForget(s.c, id))
    case ASendCommit(id, node) => s.(sent := s.sent + {CommitMsg(id, node)})
    case ASendAbort(id, node) => s.(sent := s.sent + {AbortMsg(id, node)})
    case ARecoverAbort(id, node) => s.(sent := s.sent + {AbortMsg(id, node)})
    case ACrash(node) => AfterCrash(s, node)
    case ADeliverCommit(m) => s.(parts := s.parts[m.node := PartCommit(s.parts[m.node], m.txn)])
    case ADeliverAbort(m) => s.(parts := s.parts[m.node := PartAbort(s.parts[m.node], m.txn)])
  }

  /** The system after a run of actions, if each of them is possible. */
  function Exec(s: System, acts: seq<Action>): Option<System> {
    if acts == [] then Some(s)
    else match Exec(s, acts[..|acts| - 1])
      case None => None
      case Some(t) => if Enabled(t, acts[|acts| - 1]) then Some(Next(t, acts[|acts| - 1])) else None
  }

  ghost predicate Init(s: System) {
    && s.c == Restarted(s.c.nodeId, map[]) && s.sent == {} && s.unlogged == map[]
    && forall n | n in s.parts :: s.parts[n].prepared == map[] && s.parts[n].applied == [] && s.parts[n].discarded == {}
  }

  // ----- What callers must not do -----

  /** Nothing was decided under this id, and nobody was asked to prepare it. */
  predicate Unrecorded(log: RecoveryLog, id: TxnId) {
    && (id, COMMIT) !in log && (id, ABORT) !in log
    && ((id, PREPARE) in log ==> log[(id, PREPARE)] == {})
  }

  /** Callers do not abort a transaction they can read as committing, do not begin
      one under an id the recovery log already records, and do not recover one that
      is still running or whose commit is being logged. */
  predicate Careful(s: System, a: Action) {
    match a
    case AAbort(id) => id in s.c.active && s.c.active[id].state != Committing
    case ABegin => Unrecorded(s.c.log, NextId(s.c))
    case ARecoverAbort(id, _) => Over(s, id)
    case _ => true
  }

  /** Nobody runs the transaction towards a commit, and no commit of it is on its
      way to the log. */
  predicate Over(s: System, id: TxnId) {
    (id in s.c.active ==> s.c.active[id].state == Aborted) && (id, COMMIT) !in s.unlogged
  }

  /** A possible run whose every action is careful. */
  predicate CarefulRun(s: System, acts: seq<Action>) {
    acts != [] ==>
      && CarefulRun(s, acts[..|acts| - 1])
      && match Exec(s, acts[..|acts| - 1])
         case None => false
         case Some(t) => Enabled(t, acts[|acts| - 1]) && Careful(t, acts[|acts| - 1])
  }

  // ----- The invariant -----

  predicate Committed(s: System, id: TxnId) {
    (id, COMMIT) in s.c.log || (id, COMMIT) in s.unlogged
  }

  ghost predicate Cancelled(s: System, id: TxnId) {
    (id, ABORT) in s.c.log || (id, ABORT) in s.unlogged || exists n: NodeId :: AbortMsg(id, n) in s.sent
  }

  /** Ids in flight are the coordinator's own and below the next one. */
  ghost predicate IdsInv(s: System) {
    && (forall id: TxnId | id in s.c.active :: id.0 == s.c.nodeId && id.1 < s.c.nextSeq)
    && (forall id: TxnId, tag: LogTag | (id, tag) in s.unlogged ::
          id.0 == s.c.nodeId && id.1 < s.c.nextSeq && tag != PREPARE)
  }

  /** The state of a transaction agrees with what is decided about it. */
  ghost predicate StateInv(s: System, id: TxnId) {
    && !(Committed(s, id) && Cancelled(s, id))
    && (id in s.c.active ==>
          && (Committed(s, id) <==> s.c.active[id].state == Committing)
          && (Cancelled(s, id) ==> s.c.active[id].state == Aborted)
          && (s.c.active[id].state == Preparing ==> Unrecorded(s.c.log, id) && s.c.active[id].votes == map[])
          && (s.c.active[id].state == WaitingForVotes ==>
                (id, PREPARE) in s.c.log && s.c.log[(id, PREPARE)] == s.c.active[id].writes.Keys)
          && ((id, COMMIT) in s.c.log ==> s.c.log[(id, COMMIT)] == s.c.active[id].writes.Keys)
          && ((id, COMMIT) in s.unlogged ==> s.unlogged[(id, COMMIT)] == s.c.active[id].writes.Keys)
          && s.c.active[id].votes.Keys <= s.c.active[id].writes.Keys
          && (s.c.active[id].state == WaitingForVotes && s.c.active[id].writes != map[] ==>
                s.c.active[id].votes.Keys != s.c.active[id].writes.Keys))
    && ((id, COMMIT) in s.unlogged ==>
          (id, PREPARE) in s.c.log && s.unlogged[(id, COMMIT)] == s.c.log[(id, PREPARE)])
  }

  ghost predicate StatesInv(s: System) {
    forall id: TxnId :: StateInv(s, id)
  }

  /** Commits carry a commit vote of every participant. */
  ghost predicate VotesInv(s: System) {
    && (forall id: TxnId, n: NodeId | id in s.c.active && n in s.c.active[id].votes ::
          VoteMsg(id, n, s.c.active[id].votes[n]) in s.sent)
    && (forall id: TxnId, n: NodeId | (id, COMMIT) in s.unlogged && n in s.unlogged[(id, COMMIT)] ::
          VoteMsg(id, n, VoteCommit) in s.sent)
    && (forall id: TxnId, n: NodeId | (id, COMMIT) in s.c.log && n in s.c.log[(id, COMMIT)] ::
          VoteMsg(id, n, VoteCommit) in s.sent)
  }

  /** Messages belong to recorded transactions and carry their writes. */
  ghost predicate SentInv(s: System) {
    && (forall m | m in s.sent :: !Unrecorded(s.c.log, m.txn))
    && (forall id: TxnId, n: NodeId | CommitMsg(id, n) in s.sent :: (id, COMMIT) in s.c.log)
    && (forall m | m in s.sent && m.PrepareMsg? && m.txn in s.c.active ::
          m.node in s.c.active[m.txn].writes && s.c.active[m.txn].writes[m.node] == m.writes)
    && (forall m | m in s.sent && m.VoteMsg? && m.txn in s.c.active :: m.node in s.c.active[m.txn].writes)
  }

  ghost predicate Asked(s: System, id: TxnId, n: NodeId) {
    exists w :: PrepareMsg(id, n, w) in s.sent
  }

  /** Participants exist, and those of a prepared transaction were asked. */
  ghost predicate AskedOf(s: System, id: TxnId) {
    && (id in s.c.active ==>
          && (forall n | n in s.c.active[id].writes ::
                n in s.parts && (s.c.active[id].state in {WaitingForVotes, Committing} ==> Asked(s, id, n)))
          && (s.c.active[id].state == Committing ==> s.c.active[id].writes != map[]))
    && ((id, PREPARE) in s.c.log ==> forall n | n in s.c.log[(id, PREPARE)] :: n in s.parts && Asked(s, id, n))
  }

  ghost predicate AskedInv(s: System) {
    forall id: TxnId :: AskedOf(s, id)
  }

  ghost predicate AskedFor(s: System, id: TxnId, n: NodeId, b: WriteBatch) {
    exists w :: PrepareMsg(id, n, w) in s.sent && b == Merged(w)
  }

  /** What a participant did was asked of it. */
  ghost predicate PartInv(s: System, n: NodeId)
    requires n in s.parts
  {
    var p := s.parts[n];
    && (forall id: TxnId | VoteMsg(id, n, VoteCommit) in s.sent ::
          id in p.prepared || HasApplied(p, id) || id in p.discarded)
    && (forall id: TxnId | id in p.prepared :: AskedFor(s, id, n, p.prepared[id]))
    && (forall i | 0 <= i < |p.applied| ::
          (p.applied[i].0, COMMIT) in s.c.log && AskedFor(s, p.applied[i].0, n, p.applied[i].1))
    && (forall id: TxnId | id in p.discarded :: AbortMsg(id, n) in s.sent)
  }

  ghost predicate PartsInv(s: System) {
    forall n: NodeId | n in s.parts :: PartInv(s, n)
  }

  ghost predicate Inv(s: System) {
    IdsInv(s) && StatesInv(s) && VotesInv(s) && SentInv(s) && AskedInv(s) && PartsInv(s)
  }

  // ----- Every careful step keeps the invariant -----

  lemma IdsKept(s: System, a: Action)
    requires IdsInv(s) && Enabled(s, a)
    ensures IdsInv(Next(s, a))
  {
    hide PartPrepare, PartCommit, PartAbort, AllVotedCommit;
  }

  /** The participants' part survives whatever only adds records and messages
      other than votes. */
  lemma PartsFramed(s: System, s': System)
    requires PartsInv(s) && s'.parts == s.parts && s.sent <= s'.sent
    requires forall id: TxnId | (id, COMMIT) in s.c.log :: (id, COMMIT) in s'.c.log
    requires forall m | m in s'.sent && m.VoteMsg? :: m in s.sent
    ensures PartsInv(s')
  {
    hide HasApplied;
    forall n: NodeId | n in s'.parts ensures PartInv(s', n) {
      assert PartInv(s, n);
      forall id: TxnId, b: WriteBatch | AskedFor(s, id, n, b) ensures AskedFor(s', id, n, b) {
      }
    }
  }

  lemma VotesKept(s: System, a: Action)
    requires VotesInv(s) && Enabled(s, a)
    ensures VotesInv(Next(s, a))
  {
    hide PartPrepare, PartCommit, PartAbort, AllVotedCommit;
    if a.AReceiveVote? {
      VoteKeepsVotes(s, a.m);
    }
  }

  lemma VoteKeepsVotes(s: System, m: Message)
    requires VotesInv(s) && Enabled(s, AReceiveVote(m))
    ensures VotesInv(AfterVote(s, m))
  {
    hide AllVotedCommit;
    var t := s.c.active[m.txn];
    DecidedVotes(t.(votes := t.votes[m.node := m.vote]));
  }

  lemma DecidedVotes(t: Txn)
    ensures t.votes.Keys == t.writes.Keys && AllVotedCommit(t) ==>
              forall n | n in t.writes :: n in t.votes && t.votes[n] == VoteCommit
  {
    assert forall n | n in t.writes :: n in t.writes.Keys;
  }

  /** Actions that leave the coordinator alone. */
  predicate OnNetwork(a: Action) {
    a.APrepareAt? || a.ASendCommit? || a.ASendAbort? || a.ARecoverAbort? || a.ADeliverCommit? || a.ADeliverAbort?
  }

  lemma NetworkKeepsSent(s: System, a: Action)
    requires SentInv(s) && Enabled(s, a) && OnNetwork(a)
    ensures SentInv(Next(s, a))
  {
    hide PartPrepare, PartCommit, PartAbort;
  }

  lemma CoordinatorKeepsSent(s: System, a: Action)
    requires IdsInv(s) && StatesInv(s) && SentInv(s) && Enabled(s, a) && Careful(s, a) && !OnNetwork(a)
    ensures SentInv(Next(s, a))
  {
    hide AllVotedCommit;
    if a.APrepare? || a.AAddWrite? {
      assert StateInv(s, a.id);
    }
  }

  lemma SentKept(s: System, a: Action)
    requires IdsInv(s) && StatesInv(s) && SentInv(s) && Enabled(s, a) && Careful(s, a)
    ensures SentInv(Next(s, a))
  {
    hide SentInv, StatesInv, IdsInv, Enabled, Careful, Next;
    if OnNetwork(a) {
      NetworkKeepsSent(s, a);
    } else {
      CoordinatorKeepsSent(s, a);
    }
  }

  lemma AskedMore(s: System, s': System)
    requires s.sent <= s'.sent
    ensures forall id: TxnId, n: NodeId | Asked(s, id, n) :: Asked(s', id, n)
  {
  }

  lemma PrepareKeepsAsked(s: System, id: TxnId, x: TxnId)
    requires AskedOf(s, x) && Enabled(s, APrepare(id))
    ensures AskedOf(AfterPrepare(s, id), x)
  {
    hide Asked;
    var s' := AfterPrepare(s, id);
    AskedMore(s, s');
    forall n: NodeId | n in s.c.active[id].writes ensures Asked(s', id, n) {
      PrepareAsks(s, id, n);
    }
  }

  lemma PrepareAsks(s: System, id: TxnId, n: NodeId)
    requires Enabled(s, APrepare(id)) && n in s.c.active[id].writes
    ensures Asked(AfterPrepare(s, id), id, n)
  {
    assert PrepareMsg(id, n, s.c.active[id].writes[n]) in AfterPrepare(s, id).sent;
  }

  lemma VoteKeepsAsked(s: System, m: Message, x: TxnId)
    requires AskedOf(s, x) && Enabled(s, AReceiveVote(m))
    ensures AskedOf(AfterVote(s, m), x)
  {
    hide Asked, AllVotedCommit;
    AskedMore(s, AfterVote(s, m));
    var t := s.c.active[m.txn];
    assert m.node in t.votes[m.node := m.vote].Keys;
  }

  lemma OtherKeepsAsked(s: System, a: Action, x: TxnId)
    requires IdsInv(s) && AskedOf(s, x) && Enabled(s, a) && !a.APrepare? && !a.AReceiveVote?
    ensures AskedOf(Next(s, a), x)
  {
    hide Asked, PartPrepare, PartCommit, PartAbort;
    AskedMore(s, Next(s, a));
  }

  lemma AskedKept(s: System, a: Action)
    requires IdsInv(s) && AskedInv(s) && Enabled(s, a)
    ensures AskedInv(Next(s, a))
  {
    hide AskedOf, AfterVote, AfterPrepare, IdsInv;
    forall x: TxnId ensures AskedOf(Next(s, a), x) {
      assert AskedOf(s, x);
      if a.APrepare? {
        PrepareKeepsAsked(s, a.id, x);
      } else if a.AReceiveVote? {
        VoteKeepsAsked(s, a.m, x);
      } else {
        OtherKeepsAsked(s, a, x);
      }
    }
  }

  lemma NetworkKeepsState(s: System, a: Action, x: TxnId)
    requires StatesInv(s) && Enabled(s, a) && Careful(s, a) && OnNetwork(a)
    ensures StateInv(Next(s, a), x)
  {
    hide PartPrepare, PartCommit, PartAbort, Unrecorded;
    assert StateInv(s, x);
  }

  lemma BeginKeepsState(s: System, x: TxnId)
    requires IdsInv(s) && StatesInv(s) && SentInv(s) && Careful(s, ABegin)
    ensures StateInv(Next(s, ABegin), x)
  {
    hide CoordAddWrite, CoordPrepare;
    assert StateInv(s, x);
  }

  lemma OpenKeepsState(s: System, a: Action, x: TxnId)
    requires StatesInv(s) && Enabled(s, a) && (a.AAddWrite? || a.APrepare?)
    ensures StateInv(Next(s, a), x)
  {
    assert StateInv(s, x);
  }

  lemma VoteKeepsState(s: System, m: Message, x: TxnId)
    requires StatesInv(s) && SentInv(s) && Enabled(s, AReceiveVote(m))
    ensures StateInv(AfterVote(s, m), x)
  {
    hide AllVotedCommit;
    assert StateInv(s, x);
  }

  lemma AbortKeepsState(s: System, id: TxnId, x: TxnId)
    requires StatesInv(s) && id in s.c.active && s.c.active[id].state != Committing
    ensures StateInv(AfterAbort(s, id), x)
  {
    assert StateInv(s, x);
  }

  lemma LogKeepsState(s: System, id: TxnId, tag: LogTag, x: TxnId)
    requires IdsInv(s) && StatesInv(s) && (id, tag) in s.unlogged
    ensures StateInv(AfterLog(s, id, tag), x)
  {
    assert StateInv(s, x);
  }

  lemma StateKept(s: System, a: Action, x: TxnId)
    requires IdsInv(s) && StatesInv(s) && SentInv(s) && Enabled(s, a) && Careful(s, a)
    ensures StateInv(Next(s, a), x)
  {
    hide StatesInv, StateInv, IdsInv, SentInv, AfterVote, AfterAbort, AfterLog, AfterPrepare, CoordAddWrite,
         CoordPrepare;
    match a
    case ABegin => BeginKeepsState(s, x);
    case AAddWrite(_, _, _) => OpenKeepsState(s, a, x);
    case APrepare(_) => OpenKeepsState(s, a, x);
    case AReceiveVote(m) => VoteKeepsState(s, m, x);
    case AAbort(id) => AbortKeepsState(s, id, x);
    case ALog(id, tag) => LogKeepsState(s, id, tag, x);
    case AForget(_) => ForgetKeepsState(s, a, x);
    case ACrash(_) => ForgetKeepsState(s, a, x);
    case _ => NetworkKeepsState(s, a, x);
  }

  lemma ForgetKeepsState(s: System, a: Action, x: TxnId)
    requires StatesInv(s) && Enabled(s, a) && (a.AForget? || a.ACrash?)
    ensures StateInv(Next(s, a), x)
  {
    hide Unrecorded;
    assert StateInv(s, x);
  }

  // What participants do.

  lemma AskedForMore(s: System, s': System, n: NodeId)
    requires s.sent <= s'.sent
    ensures forall id: TxnId, b: WriteBatch | AskedFor(s, id, n, b) :: AskedFor(s', id, n, b)
  {
  }

  lemma PrepareAtKeepsPart(s: System, m: Message, v: Vote, n: NodeId)
    requires Enabled(s, APrepareAt(m, v)) && n in s.parts && PartInv(s, n)
    ensures PartInv(AfterPrepareAt(s, m, v), n)
  {
    hide AskedFor, Merged, HasApplied;
    var s' := AfterPrepareAt(s, m, v);
    AskedForMore(s, s', n);
    assert HasApplied(s'.parts[n], m.txn) == HasApplied(s.parts[n], m.txn) by { AppliedKept(s.parts[n], s'.parts[n]); }
    AppliedKept(s.parts[n], s'.parts[n]);
    assert AskedFor(s', m.txn, m.node, Merged(m.writes)) by { AskedForIt(s', m); }
  }

  lemma AppliedKept(p: Participant, p': Participant)
    requires p.applied == p'.applied
    ensures forall id: TxnId :: HasApplied(p, id) <==> HasApplied(p', id)
  {
  }

  lemma AskedForIt(s: System, m: Message)
    requires m in s.sent && m.PrepareMsg?
    ensures AskedFor(s, m.txn, m.node, Merged(m.writes))
  {
    assert PrepareMsg(m.txn, m.node, m.writes) in s.sent;
  }

  lemma CommitKeepsPart(s: System, m: Message, n: NodeId)
    requires SentInv(s) && Enabled(s, ADeliverCommit(m)) && n in s.parts && PartInv(s, n)
    ensures PartInv(Next(s, ADeliverCommit(m)), n)
  {
    hide AskedFor, CommitData, HasApplied;
    var s' := Next(s, ADeliverCommit(m));
    AskedForMore(s, s', n);
    CommitApplies(s.parts[m.node], m.txn);
  }

  lemma CommitApplies(p: Participant, x: TxnId)
    ensures forall id: TxnId | HasApplied(p, id) :: HasApplied(PartCommit(p, x), id)
    ensures x in p.prepared ==> HasApplied(PartCommit(p, x), x)
  {
    var p' := PartCommit(p, x);
    forall id: TxnId | HasApplied(p, id) ensures HasApplied(p', id) {
      var i :| 0 <= i < |p.applied| && p.applied[i].0 == id;
      assert p'.applied[i].0 == id;
    }
    if x in p.prepared {
      assert p'.applied[|p.applied|].0 == x;
    }
  }

  lemma AbortKeepsPart(s: System, m: Message, n: NodeId)
    requires Enabled(s, ADeliverAbort(m)) && n in s.parts && PartInv(s, n)
    ensures PartInv(Next(s, ADeliverAbort(m)), n)
  {
    hide AskedFor, HasApplied;
    var s' := Next(s, ADeliverAbort(m));
    AskedForMore(s, s', n);
    AppliedKept(s.parts[n], s'.parts[n]);
  }

  lemma PartsKept(s: System, a: Action)
    requires SentInv(s) && PartsInv(s) && Enabled(s, a)
    ensures PartsInv(Next(s, a))
  {
    hide PartInv, SentInv, AllVotedCommit, PartPrepare, PartCommit, PartAbort;
    if a.APrepareAt? || a.ADeliverCommit? || a.ADeliverAbort? {
      forall n: NodeId | n in s.parts ensures PartInv(Next(s, a), n) {
        match a
        case APrepareAt(m, v) => PrepareAtKeepsPart(s, m, v, n);
        case ADeliverCommit(m) => CommitKeepsPart(s, m, n);
        case ADeliverAbort(m) => AbortKeepsPart(s, m, n);
      }
    } else {
      PartsFramed(s, Next(s, a));
    }
  }

  lemma NextKeeps(s: System, a: Action)
    requires Inv(s) && Enabled(s, a) && Careful(s, a)
    ensures Inv(Next(s, a))
  {
    hide Enabled, Careful, Next, StateInv, IdsInv, VotesInv, SentInv, AskedInv, PartsInv;
    IdsKept(s, a);
    VotesKept(s, a);
    SentKept(s, a);
    AskedKept(s, a);
    PartsKept(s, a);
    forall id: TxnId ensures StateInv(Next(s, a), id) {
      StateKept(s, a, id);
    }
  }

  lemma InitInv(s: System)
    requires Init(s)
    ensures Inv(s)
  {
    forall id: TxnId ensures StateInv(s, id) {
    }
  }

  lemma {:induction false} InvAfter(s: System, acts: seq<Action>)
    requires Inv(s) && CarefulRun(s, acts)
    ensures Exec(s, acts).Some? && Inv(Exec(s, acts).value)
  {
    hide Inv, Enabled, Careful, Next;
    if acts != [] {
      var m := |acts| - 1;
      InvAfter(s, acts[..m]);
      NextKeeps(Exec(s, acts[..m]).value, acts[m]);
    }
  }

  /** What every call, delivery and crash of a careful run keeps. */
  lemma RunInvariant(s0: System, acts: seq<Action>)
    requires Init(s0) && CarefulRun(s0, acts)
    ensures Exec(s0, acts).Some? && Inv(Exec(s0, acts).value)
  {
    hide Inv, CarefulRun, Exec;
    InitInv(s0);
    InvAfter(s0, acts);
  }

  // ----- What careful runs promise -----

  /** The transaction is not applied at one participant and discarded at another. */
  ghost predicate Atomic(s: System, id: TxnId) {
    forall a: NodeId, b: NodeId | a in s.parts && b in s.parts ::
      !(HasApplied(s.parts[a], id) && id in s.parts[b].discarded)
  }

  /** While the transaction commits, whatever was applied under its id is what it
      buffered for that participant. */
  ghost predicate AppliesItsWrites(s: System, id: TxnId) {
    id in s.c.active && s.c.active[id].state == Committing ==>
      forall n: NodeId, i: nat | n in s.parts && i < |s.parts[n].applied| && s.parts[n].applied[i].0 == id ::
        n in s.c.active[id].writes && s.parts[n].applied[i].1 == Merged(s.c.active[id].writes[n])
  }

  /** While the transaction waits for votes, recovery would find it in doubt. */
  ghost predicate Recoverable(s: System, id: TxnId) {
    id in s.c.active && s.c.active[id].state == WaitingForVotes ==>
      RecoverOne(s.c.log, id) == Some((PREPARE, s.c.active[id].writes.Keys))
  }

  ghost predicate Sound(s: System, id: TxnId) {
    Atomic(s, id) && AppliesItsWrites(s, id) && Recoverable(s, id)
  }

  lemma InvIsAtomic(s: System, id: TxnId)
    requires Inv(s)
    ensures Atomic(s, id)
  {
    hide IdsInv, VotesInv, SentInv, AskedInv;
    assert StateInv(s, id);
    forall a: NodeId, b: NodeId | a in s.parts && b in s.parts && id in s.parts[b].discarded
      ensures !HasApplied(s.parts[a], id)
    {
      assert PartInv(s, a) && PartInv(s, b);
    }
  }

  lemma InvIsSound(s: System, id: TxnId)
    requires Inv(s)
    ensures Sound(s, id)
  {
    hide Atomic, IdsInv, VotesInv, AskedInv;
    InvIsAtomic(s, id);
    assert StateInv(s, id);
    forall n: NodeId, i: nat | n in s.parts && i < |s.parts[n].applied| && s.parts[n].applied[i].0 == id
      ensures AskedFor(s, id, n, s.parts[n].applied[i].1)
    {
      assert PartInv(s, n);
    }
  }

  /** In every careful run, no transaction is applied at one participant and
      discarded at another. */
  lemma Atomicity(s0: System, acts: seq<Action>, id: TxnId)
    requires Init(s0) && CarefulRun(s0, acts)
    ensures Exec(s0, acts).Some? && Atomic(Exec(s0, acts).value, id)
  {
    hide Inv, CarefulRun, Exec, Atomic;
    RunInvariant(s0, acts);
    InvIsAtomic(Exec(s0, acts).value, id);
  }

  /** In every careful run, a participant applies exactly what the committing
      transaction buffered for it. */
  lemma AppliedIsWhatWasBuffered(s0: System, acts: seq<Action>, id: TxnId)
    requires Init(s0) && CarefulRun(s0, acts)
    ensures Exec(s0, acts).Some? && AppliesItsWrites(Exec(s0, acts).value, id)
  {
    hide Inv, CarefulRun, Exec, AppliesItsWrites;
    RunInvariant(s0, acts);
    InvIsSound(Exec(s0, acts).value, id);
  }

  /** In every careful run, once a commit is in the log every participant has
      applied the transaction or still holds it prepared. */
  lemma CommitIsNeverLost(s0: System, acts: seq<Action>, a: NodeId, id: TxnId)
    requires Init(s0) && CarefulRun(s0, acts)
    ensures Exec(s0, acts).Some?
    ensures var s := Exec(s0, acts).value;
            (id, COMMIT) in s.c.log && a in s.c.log[(id, COMMIT)] && a in s.parts ==>
              HasApplied(s.parts[a], id) || id in s.parts[a].prepared
  {
    hide CarefulRun, Exec, IdsInv, SentInv, AskedInv;
    RunInvariant(s0, acts);
    var s := Exec(s0, acts).value;
    if (id, COMMIT) in s.c.log && a in s.c.log[(id, COMMIT)] && a in s.parts {
      assert StateInv(s, id) && PartInv(s, a);
      assert VoteMsg(id, a, VoteCommit) in s.sent;
    }
  }

  /** In every careful run, what recovery reports agrees with every decision
      already sent, and conflicting decisions are never sent. */
  lemma RecoveryAgreesWithDecisions(s0: System, acts: seq<Action>, id: TxnId, node: NodeId)
    requires Init(s0) && CarefulRun(s0, acts)
    ensures Exec(s0, acts).Some?
    ensures var s := Exec(s0, acts).value;
            && (CommitMsg(id, node) in s.sent ==>
                  && RecoverOne(s.c.log, id).Some? && RecoverOne(s.c.log, id).value.0 == COMMIT
                  && forall n: NodeId :: AbortMsg(id, n) !in s.sent)
            && (AbortMsg(id, node) in s.sent ==>
                  RecoverOne(s.c.log, id).Some? ==> RecoverOne(s.c.log, id).value.0 == PREPARE)
  {
    hide CarefulRun, Exec, IdsInv, VotesInv, AskedInv, PartsInv;
    RunInvariant(s0, acts);
    assert StateInv(Exec(s0, acts).value, id);
  }

  // ----- From the calls to the data -----

  /** The writes the run's calls added for a participant since the transaction began,
      all of them and in order. */
  function Added(s0: System, acts: seq<Action>, id: TxnId, node: NodeId): seq<WriteBatch> {
    if acts == [] then []
    else
      var m := |acts| - 1;
      var before := Added(s0, acts[..m], id, node);
      match acts[m]
      case ABegin =>
        var t := Exec(s0, acts[..m]);
        if t.Some? && NextId(t.value.c) == id then [] else before
      case AAddWrite(i, n, w) => if i == id && n == node then before + [w] else before
      case _ => before
  }

  /** The nodes are those writes were added for. */
  ghost predicate AreAddedTo(nodes: set<NodeId>, s0: System, acts: seq<Action>, id: TxnId) {
    forall n: NodeId :: n in nodes <==> Added(s0, acts, id, n) != []
  }

  /** Buffers and prepare messages hold what was added, and decisions name those it was
      added for. */
  ghost predicate HoldsAdded(s0: System, acts: seq<Action>, s: System, id: TxnId) {
    && (id in s.c.active ==>
          && AreAddedTo(s.c.active[id].writes.Keys, s0, acts, id)
          && forall n | n in s.c.active[id].writes :: s.c.active[id].writes[n] == Added(s0, acts, id, n))
    && (forall n: NodeId, w | PrepareMsg(id, n, w) in s.sent :: w == Added(s0, acts, id, n))
    && ((id, COMMIT) in s.c.log ==> AreAddedTo(s.c.log[(id, COMMIT)], s0, acts, id))
    && ((id, COMMIT) in s.unlogged ==> AreAddedTo(s.unlogged[(id, COMMIT)], s0, acts, id))
    && ((id, PREPARE) in s.c.log && s.c.log[(id, PREPARE)] != {} ==>
          AreAddedTo(s.c.log[(id, PREPARE)], s0, acts, id))
  }

  /** Whatever else happens, what was added stays as it was. */
  lemma AddedSnoc(s0: System, acts: seq<Action>, s: System, a: Action, id: TxnId)
    requires Exec(s0, acts) == Some(s)
    ensures forall n: NodeId ::
              Added(s0, acts + [a], id, n) ==
              if a.ABegin? && NextId(s.c) == id then []
              else if a.AAddWrite? && a.id == id && a.node == n then Added(s0, acts, id, n) + [a.w]
              else Added(s0, acts, id, n)
  {
    hide Exec;
    assert (acts + [a])[..|acts|] == acts;
  }

  lemma FramedAdded(s0: System, acts: seq<Action>, s: System, acts': seq<Action>, s': System, id: TxnId)
    requires HoldsAdded(s0, acts, s, id)
    requires forall n: NodeId :: Added(s0, acts', id, n) == Added(s0, acts, id, n)
    requires id in s'.c.active ==> id in s.c.active && s'.c.active[id].writes == s.c.active[id].writes
    requires forall n: NodeId, w | PrepareMsg(id, n, w) in s'.sent :: PrepareMsg(id, n, w) in s.sent
    requires forall tag: LogTag | (id, tag) in s'.c.log && tag != ABORT ::
               || ((id, tag) in s.c.log && s'.c.log[(id, tag)] == s.c.log[(id, tag)])
               || (tag == COMMIT && (id, tag) in s.unlogged && s'.c.log[(id, tag)] == s.unlogged[(id, tag)])
    requires (id, COMMIT) in s'.unlogged ==>
               (id, COMMIT) in s.unlogged && s'.unlogged[(id, COMMIT)] == s.unlogged[(id, COMMIT)]
    ensures HoldsAdded(s0, acts', s', id)
  {
    hide Added;
  }

  lemma BeginHoldsAdded(s0: System, acts: seq<Action>, s: System, id: TxnId)
    requires Inv(s) && Exec(s0, acts) == Some(s) && HoldsAdded(s0, acts, s, id) && Careful(s, ABegin)
    ensures HoldsAdded(s0, acts + [ABegin], Next(s, ABegin), id)
  {
    hide Added, Exec, StateInv, VotesInv, AskedInv, PartsInv;
    AddedSnoc(s0, acts, s, ABegin, id);
    if id != NextId(s.c) {
      FramedAdded(s0, acts, s, acts + [ABegin], Next(s, ABegin), id);
    } else {
      assert forall n: NodeId, w | PrepareMsg(id, n, w) in s.sent :: !Unrecorded(s.c.log, PrepareMsg(id, n, w).txn);
    }
  }

  lemma AddHoldsAdded(s0: System, acts: seq<Action>, s: System, a: Action, id: TxnId)
    requires Inv(s) && Exec(s0, acts) == Some(s) && HoldsAdded(s0, acts, s, id) && a.AAddWrite? && Enabled(s, a)
    ensures HoldsAdded(s0, acts + [a], Next(s, a), id)
  {
    hide Added, Exec, IdsInv, VotesInv, AskedInv, PartsInv;
    AddedSnoc(s0, acts, s, a, id);
    if id != a.id {
      FramedAdded(s0, acts, s, acts + [a], Next(s, a), id);
    } else {
      assert StateInv(s, id);
      assert forall n: NodeId, w | PrepareMsg(id, n, w) in s.sent :: !Unrecorded(s.c.log, PrepareMsg(id, n, w).txn);
    }
  }

  lemma PrepareHoldsAdded(s0: System, acts: seq<Action>, s: System, x: TxnId, id: TxnId)
    requires Exec(s0, acts) == Some(s) && HoldsAdded(s0, acts, s, id) && Enabled(s, APrepare(x))
    ensures HoldsAdded(s0, acts + [APrepare(x)], Next(s, APrepare(x)), id)
  {
    hide Added, Exec;
    AddedSnoc(s0, acts, s, APrepare(x), id);
    if id != x {
      FramedAdded(s0, acts, s, acts + [APrepare(x)], Next(s, APrepare(x)), id);
    }
  }

  /** A vote changes no writes, and decides for exactly the transaction's own. */
  lemma VoteKeepsWrites(s: System, m: Message)
    requires Enabled(s, AReceiveVote(m))
    ensures var s' := Next(s, AReceiveVote(m));
            && s'.sent == s.sent && s'.c.log == s.c.log && s'.c.active.Keys == s.c.active.Keys && m.txn in s.c.active
            && (forall x | x in s.c.active :: s'.c.active[x].writes == s.c.active[x].writes)
            && (forall x: TxnId | (x, COMMIT) in s'.unlogged ::
                  || ((x, COMMIT) in s.unlogged && s'.unlogged[(x, COMMIT)] == s.unlogged[(x, COMMIT)])
                  || (x == m.txn && s'.unlogged[(x, COMMIT)] == s.c.active[x].writes.Keys))
  {
    hide AllVotedCommit;
  }

  lemma VoteHoldsAdded(s0: System, acts: seq<Action>, s: System, m: Message, id: TxnId)
    requires Exec(s0, acts) == Some(s) && HoldsAdded(s0, acts, s, id) && Enabled(s, AReceiveVote(m))
    ensures HoldsAdded(s0, acts + [AReceiveVote(m)], Next(s, AReceiveVote(m)), id)
  {
    hide Added, Exec, AfterVote, CoordVote, CountVote, AreAddedTo;
    AddedSnoc(s0, acts, s, AReceiveVote(m), id);
    SameAdded(s0, acts, acts + [AReceiveVote(m)], id);
    VoteKeepsWrites(s, m);
  }

  lemma SameAdded(s0: System, acts: seq<Action>, acts': seq<Action>, id: TxnId)
    requires forall n: NodeId :: Added(s0, acts', id, n) == Added(s0, acts, id, n)
    ensures forall nodes :: AreAddedTo(nodes, s0, acts', id) <==> AreAddedTo(nodes, s0, acts, id)
  {
    hide Added;
  }

  lemma RestHoldsAdded(s0: System, acts: seq<Action>, s: System, a: Action, id: TxnId)
    requires IdsInv(s) && Exec(s0, acts) == Some(s) && HoldsAdded(s0, acts, s, id) && Enabled(s, a)
    requires !a.ABegin? && !a.AAddWrite? && !a.APrepare? && !a.AReceiveVote?
    ensures HoldsAdded(s0, acts + [a], Next(s, a), id)
  {
    hide Added, Exec, PartPrepare, PartCommit, PartAbort, InDoubtAt, HoldsAdded;
    AddedSnoc(s0, acts, s, a, id);
    FramedAdded(s0, acts, s, acts + [a], Next(s, a), id);
  }

  lemma {:induction false} AddedIsHeld(s0: System, acts: seq<Action>, id: TxnId)
    requires Init(s0) && CarefulRun(s0, acts)
    ensures Exec(s0, acts).Some? && HoldsAdded(s0, acts, Exec(s0, acts).value, id)
  {
    hide Inv, Enabled, Careful, Next, HoldsAdded;
    RunInvariant(s0, acts);
    if acts == [] {
      assert HoldsAdded(s0, acts, s0, id) by { NothingAdded(s0, id); }
    } else {
      var m := |acts| - 1;
      var init, a := acts[..m], acts[m];
      AddedIsHeld(s0, init, id);
      RunInvariant(s0, init);
      var s := Exec(s0, init).value;
      assert acts == init + [a];
      if a.ABegin? {
        BeginHoldsAdded(s0, init, s, id);
      } else if a.AAddWrite? {
        AddHoldsAdded(s0, init, s, a, id);
      } else if a.APrepare? {
        PrepareHoldsAdded(s0, init, s, a.id, id);
      } else if a.AReceiveVote? {
        VoteHoldsAdded(s0, init, s, a.m, id);
      } else {
        assert IdsInv(s) by { InvHasIds(s); }
        RestHoldsAdded(s0, init, s, a, id);
      }
    }
  }

  lemma InvHasIds(s: System)
    requires Inv(s)
    ensures IdsInv(s)
  {
  }

  lemma NothingAdded(s0: System, id: TxnId)
    requires Init(s0)
    ensures HoldsAdded(s0, [], s0, id)
  {
  }

  /** In every careful run, what is buffered for a participant, what it is asked to
      prepare, what it holds prepared and what it applies is what the calls added for it
      since the transaction began, merged into one batch where it is held or applied. */
  lemma AppliedIsWhatWasAdded(s0: System, acts: seq<Action>, id: TxnId, node: NodeId)
    requires Init(s0) && CarefulRun(s0, acts)
    ensures Exec(s0, acts).Some?
    ensures var s, added := Exec(s0, acts).value, Added(s0, acts, id, node);
            && (id in s.c.active ==> (node in s.c.active[id].writes <==> added != []))
            && (id in s.c.active && node in s.c.active[id].writes ==> s.c.active[id].writes[node] == added)
            && (forall w | PrepareMsg(id, node, w) in s.sent :: w == added)
            && (node in s.parts && id in s.parts[node].prepared ==> s.parts[node].prepared[id] == Merged(added))
            && (node in s.parts ==> forall i | 0 <= i < |s.parts[node].applied| && s.parts[node].applied[i].0 == id ::
                  s.parts[node].applied[i].1 == Merged(added))
  {
    hide CarefulRun, Exec, Added, IdsInv, StatesInv, VotesInv, SentInv, AskedInv, Merged;
    RunInvariant(s0, acts);
    AddedIsHeld(s0, acts, id);
    var s := Exec(s0, acts).value;
    if node in s.parts {
      assert PartInv(s, node);
    }
  }

  /** In every careful run, recovery's answer names the transaction's own participants: a
      COMMIT one exactly those it has writes for, a PREPARE one them or, where nothing was
      prepared, nobody. */
  lemma RecoveryNamesParticipants(s0: System, acts: seq<Action>, id: TxnId)
    requires Init(s0) && CarefulRun(s0, acts)
    ensures Exec(s0, acts).Some?
    ensures match RecoverOne(Exec(s0, acts).value.c.log, id)
            case None => true
            case Some((tag, nodes)) =>
              || (forall n: NodeId :: n in nodes <==> Added(s0, acts, id, n) != [])
              || (tag == PREPARE && nodes == {})
  {
    hide CarefulRun, Exec, Added;
    AddedIsHeld(s0, acts, id);
  }

  function Batches(applied: seq<(TxnId, WriteBatch)>): (ws: seq<WriteBatch>)
    ensures |ws| == |applied| && forall i | 0 <= i < |ws| :: ws[i] == applied[i].1
  {
    seq(|applied|, i requires 0 <= i < |applied| => applied[i].1)
  }

  /** In every run, a participant's data is its first data with the batches it applied
      committed in order. */
  lemma {:induction false} DataIsWhatWasApplied(s0: System, acts: seq<Action>, node: NodeId)
    requires Init(s0) && node in s0.parts && Exec(s0, acts).Some?
    ensures var s := Exec(s0, acts).value;
            && node in s.parts
            && s.parts[node].data == LogData(s0.parts[node].data, Batches(s.parts[node].applied))
  {
    hide LogData, PartPrepare, CommitData, InDoubtAt;
    if acts == [] {
      assert Batches([]) == [];
      assert LogData(s0.parts[node].data, []) == s0.parts[node].data by { NoBatches(s0.parts[node].data); }
    } else {
      var m := |acts| - 1;
      DataIsWhatWasApplied(s0, acts[..m], node);
      var s, a := Exec(s0, acts[..m]).value, acts[m];
      if a.ADeliverCommit? && a.m.node == node {
        DataSnoc(s0.parts[node].data, s.parts[node], a.m.txn);
      } else if a.APrepareAt? && a.m.node == node {
        PreparedSame(s.parts[node], a.m.txn, a.m.writes);
      }
    }
  }

  lemma NoBatches(d: Data)
    ensures LogData(d, []) == d
  {
  }

  lemma PreparedSame(p: Participant, id: TxnId, writes: seq<WriteBatch>)
    ensures var q := PartPrepare(p, id, writes); q.data == p.data && q.applied == p.applied
  {
  }

  lemma DataSnoc(d: Data, p: Participant, id: TxnId)
    requires p.data == LogData(d, Batches(p.applied))
    ensures var q := PartCommit(p, id); q.data == LogData(d, Batches(q.applied))
  {
    hide ApplyOps, BatchOps;
    if id in p.prepared {
      var ws, w := Batches(p.applied), p.prepared[id];
      assert Batches(p.applied + [(id, w)]) == ws + [w];
      assert (ws + [w])[..|ws|] == ws;
      ApplyOpsConcat(d, OneByOne(ws), BatchOps(w));
    }
  }

  // ----- Where the promises end -----

  ghost predicate StaysAtomic(s: System, id: TxnId) {
    forall acts | CarefulRun(s, acts) :: Exec(s, acts).Some? && Atomic(Exec(s, acts).value, id)
  }

  ghost predicate StaysSound(s: System, id: TxnId) {
    forall acts | CarefulRun(s, acts) :: Exec(s, acts).Some? && Sound(Exec(s, acts).value, id)
  }

  predicate Leads(s: System, acts: seq<Action>, t: System) {
    CarefulRun(s, acts) && Exec(s, acts) == Some(t)
  }

  lemma Stay(s: System)
    ensures Leads(s, [], s)
  {
  }

  lemma Then(s: System, acts: seq<Action>, t: System, a: Action)
    requires Leads(s, acts, t) && Enabled(t, a) && Careful(t, a)
    ensures Leads(s, acts + [a], Next(t, a))
  {
    hide Enabled, Careful, Next;
    assert (acts + [a])[..|acts|] == acts;
  }

  lemma {:induction false} LeadsOn(s: System, a: seq<Action>, t: System, b: seq<Action>, u: System)
    requires Leads(s, a, t) && Leads(t, b, u)
    ensures Leads(s, a + b, u)
    decreases |b|
  {
    hide Enabled, Careful, Next;
    if b == [] {
      assert a + b == a;
    } else {
      var m := |b| - 1;
      var v := Exec(t, b[..m]).value;
      LeadsOn(s, a, t, b[..m], v);
      assert a + b == a + b[..m] + [b[m]];
      Then(s, a + b[..m], v, b[m]);
    }
  }

  /** What an action at participants leaves alone. */
  ghost predicate SameBut(s: System, t: System) {
    t.c == s.c && t.unlogged == s.unlogged && t.parts.Keys == s.parts.Keys && s.sent <= t.sent
  }

  /** A participant that was asked can be brought to hold the transaction
      prepared; a repeated request does it if it no longer does. */
  lemma Rearm(s: System, id: TxnId, n: NodeId) returns (acts: seq<Action>, t: System)
    requires n in s.parts && Asked(s, id, n)
    ensures Leads(s, acts, t) && SameBut(s, t) && id in t.parts[n].prepared
    ensures forall m | m in s.parts :: t.parts[m].applied == s.parts[m].applied
  {
    hide Leads, Merged;
    Stay(s);
    if id in s.parts[n].prepared {
      acts, t := [], s;
    } else {
      var w :| PrepareMsg(id, n, w) in s.sent;
      var a := APrepareAt(PrepareMsg(id, n, w), VoteCommit);
      Then(s, [], s, a);
      acts, t := [] + [a], Next(s, a);
    }
  }

  lemma ApplyAt(s: System, id: TxnId, n: NodeId) returns (acts: seq<Action>, t: System)
    requires n in s.parts && Asked(s, id, n) && (id, COMMIT) in s.c.log && n in s.c.log[(id, COMMIT)]
    ensures Leads(s, acts, t) && SameBut(s, t) && HasApplied(t.parts[n], id)
  {
    hide Leads, Asked, HasApplied, CommitData;
    var u;
    acts, u := Rearm(s, id, n);
    var m := CommitMsg(id, n);
    var v := Next(u, ASendCommit(id, n));
    Then(s, acts, u, ASendCommit(id, n));
    Then(s, acts + [ASendCommit(id, n)], v, ADeliverCommit(m));
    CommitApplies(v.parts[n], id);
    acts, t := acts + [ASendCommit(id, n)] + [ADeliverCommit(m)], Next(v, ADeliverCommit(m));
  }

  lemma DiscardAt(s: System, id: TxnId, n: NodeId) returns (acts: seq<Action>, t: System)
    requires n in s.parts && Asked(s, id, n) && (id, ABORT) in s.c.log && n in s.c.log[(id, ABORT)]
    ensures Leads(s, acts, t) && SameBut(s, t) && id in t.parts[n].discarded
    ensures forall m | m in s.parts :: t.parts[m].applied == s.parts[m].applied
  {
    hide Leads, Asked;
    var u;
    acts, u := Rearm(s, id, n);
    var m := AbortMsg(id, n);
    var v := Next(u, ASendAbort(id, n));
    Then(s, acts, u, ASendAbort(id, n));
    Then(s, acts + [ASendAbort(id, n)], v, ADeliverAbort(m));
    acts, t := acts + [ASendAbort(id, n)] + [ADeliverAbort(m)], Next(v, ADeliverAbort(m));
  }

  /** With both decisions logged, any two participants can end differently. */
  lemma BothDecisionsSplit(s: System, id: TxnId, a: NodeId, b: NodeId) returns (acts: seq<Action>, t: System)
    requires a in s.parts && b in s.parts && Asked(s, id, a) && Asked(s, id, b)
    requires (id, COMMIT) in s.c.log && a in s.c.log[(id, COMMIT)]
    requires (id, ABORT) in s.c.log && b in s.c.log[(id, ABORT)]
    ensures Leads(s, acts, t) && t.parts.Keys == s.parts.Keys
    ensures HasApplied(t.parts[a], id) && id in t.parts[b].discarded && !Atomic(t, id)
  {
    hide Leads, Asked, HasApplied;
    var first, u := ApplyAt(s, id, a);
    AskedMore(s, u);
    assert a in u.parts.Keys && b in u.parts.Keys;
    var second;
    second, t := DiscardAt(u, id, b);
    AppliedKept(u.parts[a], t.parts[a]);
    LeadsOn(s, first, u, second, t);
    acts := first + second;
    assert a in t.parts.Keys && b in t.parts.Keys;
  }

  /** After the abort of a committing transaction both decisions reach the log. */
  lemma LogBoth(s: System, id: TxnId) returns (acts: seq<Action>, t: System)
    requires StatesInv(s) && id in s.c.active && s.c.active[id].state == Committing
    ensures Leads(AfterAbort(s, id), acts, t) && t.parts == s.parts && t.sent == s.sent
    ensures (id, COMMIT) in t.c.log && t.c.log[(id, COMMIT)] == s.c.active[id].writes.Keys
    ensures (id, ABORT) in t.c.log && t.c.log[(id, ABORT)] == s.c.active[id].writes.Keys
  {
    hide Leads, Unrecorded, Cancelled;
    assert StateInv(s, id);
    var s1 := AfterAbort(s, id);
    var s2 := Next(s1, ALog(id, ABORT));
    Stay(s1);
    Then(s1, [], s1, ALog(id, ABORT));
    acts, t := [] + [ALog(id, ABORT)], s2;
    if (id, COMMIT) in s2.unlogged {
      Then(s1, acts, s2, ALog(id, COMMIT));
      acts, t := acts + [ALog(id, COMMIT)], Next(s2, ALog(id, COMMIT));
    }
  }

  /** Aborting a committing transaction lets any participant apply it and any
      other one discard it, by careful actions alone. */
  lemma AbortSplits(s: System, id: TxnId, a: NodeId, b: NodeId) returns (acts: seq<Action>, t: System)
    requires Inv(s) && id in s.c.active && s.c.active[id].state == Committing
    requires a in s.c.active[id].writes && b in s.c.active[id].writes
    ensures Leads(AfterAbort(s, id), acts, t) && t.parts.Keys == s.parts.Keys && a in t.parts && b in t.parts
    ensures HasApplied(t.parts[a], id) && id in t.parts[b].discarded && !Atomic(t, id)
  {
    hide Leads, HasApplied, IdsInv, StatesInv, VotesInv, SentInv, PartsInv, AfterAbort;
    var first, u := LogBoth(s, id);
    AskedMore(s, u);
    assert AskedOf(s, id);
    assert a in s.c.active[id].writes.Keys && b in s.c.active[id].writes.Keys;
    var second;
    second, t := BothDecisionsSplit(u, id, a, b);
    LeadsOn(AfterAbort(s, id), first, u, second, t);
    acts := first + second;
    assert a in t.parts.Keys && b in t.parts.Keys;
  }

  /** After a careful run, aborting an active transaction leaves it atomic in
      every careful continuation exactly when it is not committing, which a caller
      can read off its state before the call. */
  lemma AbortIsSafeIff(s0: System, acts: seq<Action>, s: System, id: TxnId)
    requires Init(s0) && Leads(s0, acts, s) && id in s.c.active
    ensures StaysAtomic(AfterAbort(s, id), id) <==> s.c.active[id].state != Committing
  {
    hide Inv, CarefulRun, Exec, Atomic, Init, AfterAbort;
    RunInvariant(s0, acts);
    if s.c.active[id].state == Committing {
      var a := SomeParticipant(s, id);
      var more, t := AbortSplits(s, id, a, a);
    } else {
      NextKeeps(s, AAbort(id));
      forall more | CarefulRun(AfterAbort(s, id), more)
        ensures Exec(AfterAbort(s, id), more).Some? && Atomic(Exec(AfterAbort(s, id), more).value, id)
      {
        InvAfter(AfterAbort(s, id), more);
        InvIsAtomic(Exec(AfterAbort(s, id), more).value, id);
      }
    }
  }

  lemma SomeParticipant(s: System, id: TxnId) returns (a: NodeId)
    requires Inv(s) && id in s.c.active && s.c.active[id].state == Committing
    ensures a in s.c.active[id].writes
  {
    assert AskedOf(s, id);
    assert s.c.active[id].writes.Keys != {};
    a :| a in s.c.active[id].writes.Keys;
  }

  // Whole runs that end badly.

  /** The transaction is open and nothing was buffered yet. */
  predicate Fresh(s: System, id: TxnId) {
    id in s.c.active && s.c.active[id] == NewTxn()
  }

  /** The transaction is committing for `nodes`, the decision not yet logged, and
      they all hold it prepared. */
  ghost predicate Decided(s: System, t: System, id: TxnId, nodes: set<NodeId>) {
    && id in t.c.active && t.c.active[id].state == Committing && t.c.active[id].writes.Keys == nodes
    && t.c.log == s.c.log[(id, PREPARE) := nodes] && t.unlogged == s.unlogged[(id, COMMIT) := nodes]
    && t.parts.Keys == s.parts.Keys && s.sent <= t.sent
    && forall n | n in nodes :: n in t.parts && id in t.parts[n].prepared && Asked(t, id, n)
  }

  /** A fresh transaction with one write per node, asked for and waiting. */
  lemma AskBoth(s: System, id: TxnId, a: NodeId, b: NodeId, w: WriteBatch) returns (acts: seq<Action>, t: System)
    requires Fresh(s, id) && a in s.parts && b in s.parts && a != b
    ensures Leads(s, acts, t) && t.parts == s.parts && t.unlogged == s.unlogged && s.sent <= t.sent
    ensures id in t.c.active && t.c.active[id] == Txn(WaitingForVotes, map[a := [w], b := [w]], map[])
    ensures t.c.log == s.c.log[(id, PREPARE) := {a, b}]
    ensures PrepareMsg(id, a, [w]) in t.sent && PrepareMsg(id, b, [w]) in t.sent
  {
    hide Leads;
    var a1, a2, a3 := AAddWrite(id, a, w), AAddWrite(id, b, w), APrepare(id);
    Stay(s);
    Then(s, [], s, a1);
    var s1 := Next(s, a1);
    Then(s, [] + [a1], s1, a2);
    var s2 := Next(s1, a2);
    Then(s, [] + [a1] + [a2], s2, a3);
    acts, t := [] + [a1] + [a2] + [a3], Next(s2, a3);
    assert [] + [w] == [w];
    assert s2.c.active[id].writes == map[a := [w], b := [w]];
    assert s2.c.active[id].writes.Keys == {a, b};
  }

  lemma VotesOfBoth(s: System, id: TxnId, a: NodeId, b: NodeId, w: WriteBatch) returns (acts: seq<Action>, t: System)
    requires a in s.parts && b in s.parts && a != b
    requires id in s.c.active && s.c.active[id] == Txn(WaitingForVotes, map[a := [w], b := [w]], map[])
    requires PrepareMsg(id, a, [w]) in s.sent && PrepareMsg(id, b, [w]) in s.sent
    ensures Leads(s, acts, t) && t.c == s.c && t.unlogged == s.unlogged && s.sent <= t.sent
    ensures t.parts.Keys == s.parts.Keys && id in t.parts[a].prepared && id in t.parts[b].prepared
    ensures VoteMsg(id, a, VoteCommit) in t.sent && VoteMsg(id, b, VoteCommit) in t.sent
  {
    hide Leads, Merged;
    var a1, a2 := APrepareAt(PrepareMsg(id, a, [w]), VoteCommit), APrepareAt(PrepareMsg(id, b, [w]), VoteCommit);
    Stay(s);
    Then(s, [], s, a1);
    var s1 := Next(s, a1);
    Then(s, [] + [a1], s1, a2);
    acts, t := [] + [a1] + [a2], Next(s1, a2);
  }

  lemma TwoVotes(t: Txn, a: NodeId, b: NodeId, w: WriteBatch)
    requires a != b && t == Txn(WaitingForVotes, map[a := [w], b := [w]], map[])
    ensures CountVote(t, a, VoteCommit).state == WaitingForVotes
    ensures CountVote(CountVote(t, a, VoteCommit), b, VoteCommit).state == Committing
    ensures CountVote(CountVote(t, a, VoteCommit), b, VoteCommit).writes.Keys == {a, b}
  {
    var t1 := t.(votes := map[a := VoteCommit]);
    assert b in t1.writes.Keys && b !in t1.votes.Keys;
    assert CountVote(t, a, VoteCommit) == t1;
    assert t1.writes.Keys == {a, b} == t1.votes[b := VoteCommit].Keys;
  }

  lemma CountBoth(s: System, id: TxnId, a: NodeId, b: NodeId, w: WriteBatch) returns (acts: seq<Action>, t: System)
    requires a != b && id in s.c.active
    requires s.c.active[id] == Txn(WaitingForVotes, map[a := [w], b := [w]], map[])
    requires VoteMsg(id, a, VoteCommit) in s.sent && VoteMsg(id, b, VoteCommit) in s.sent
    ensures Leads(s, acts, t) && t.parts == s.parts && t.sent == s.sent && t.c.log == s.c.log
    ensures id in t.c.active && t.c.active[id].state == Committing && t.c.active[id].writes.Keys == {a, b}
    ensures t.unlogged == s.unlogged[(id, COMMIT) := {a, b}]
  {
    hide Leads, CountVote;
    var a1, a2 := AReceiveVote(VoteMsg(id, a, VoteCommit)), AReceiveVote(VoteMsg(id, b, VoteCommit));
    TwoVotes(s.c.active[id], a, b, w);
    Stay(s);
    Then(s, [], s, a1);
    var s1 := Next(s, a1);
    Then(s, [] + [a1], s1, a2);
    acts, t := [] + [a1] + [a2], Next(s1, a2);
  }

  /** The protocol itself, for two participants that agree. */
  lemma ToCommitting(s: System, id: TxnId, a: NodeId, b: NodeId, w: WriteBatch) returns (acts: seq<Action>, t: System)
    requires Fresh(s, id) && a in s.parts && b in s.parts && a != b
    ensures Leads(s, acts, t) && Decided(s, t, id, {a, b})
  {
    hide Leads;
    var first, s1 := AskBoth(s, id, a, b, w);
    var second, s2 := VotesOfBoth(s1, id, a, b, w);
    var third;
    third, t := CountBoth(s2, id, a, b, w);
    LeadsOn(s, first, s1, second, s2);
    LeadsOn(s, first + second, s2, third, t);
    acts := first + second + third;
    assert PrepareMsg(id, a, [w]) in t.sent && PrepareMsg(id, b, [w]) in t.sent;
    assert a in t.parts.Keys && b in t.parts.Keys;
  }

  /** A whole run: both participants vote to commit, the transaction is aborted
      while it is committing, and it ends applied at one and discarded at the
      other.  Every action but the abort is careful. */
  lemma AbortAfterCommitSplits(s0: System, a: NodeId, b: NodeId, w: WriteBatch)
    returns (before: seq<Action>, s: System, after: seq<Action>, t: System)
    requires Init(s0) && a in s0.parts && b in s0.parts && a != b
    ensures Leads(s0, before, s) && NextId(s0.c) in s.c.active
    ensures Leads(AfterAbort(s, NextId(s0.c)), after, t) && a in t.parts && b in t.parts
    ensures HasApplied(t.parts[a], NextId(s0.c)) && NextId(s0.c) in t.parts[b].discarded
  {
    hide Leads, Inv, HasApplied, AfterAbort, Atomic;
    var id := NextId(s0.c);
    Stay(s0);
    Then(s0, [], s0, ABegin);
    var s1 := Next(s0, ABegin);
    var rest;
    rest, s := ToCommitting(s1, id, a, b, w);
    LeadsOn(s0, [] + [ABegin], s1, rest, s);
    before := [] + [ABegin] + rest;
    RunInvariantAt(s0, before, s);
    assert a in s.c.active[id].writes.Keys && b in s.c.active[id].writes.Keys;
    after, t := AbortSplits(s, id, a, b);
  }

  lemma RunInvariantAt(s0: System, acts: seq<Action>, s: System)
    requires Init(s0) && Leads(s0, acts, s)
    ensures Inv(s)
  {
    hide Inv, CarefulRun, Exec, Init;
    RunInvariant(s0, acts);
  }

  // Ids start over with a new coordinator.

  /** A transaction with a buffered write is aborted, the abort is logged, and the
      coordinator restarts. */
  lemma AbortAndRestart(s0: System, b: NodeId, w: WriteBatch) returns (acts: seq<Action>, s: System)
    requires Init(s0) && b in s0.parts
    ensures Leads(s0, acts, s) && ACrash(s0.c.nodeId) in acts
    ensures NextId(s.c) == NextId(s0.c) && s.parts == s0.parts && s.unlogged == map[]
    ensures (NextId(s.c), ABORT) in s.c.log && b in s.c.log[(NextId(s.c), ABORT)]
  {
    hide Leads;
    var id := NextId(s0.c);
    var a2, a3, a4, a5 := AAddWrite(id, b, w), AAbort(id), ALog(id, ABORT), ACrash(s0.c.nodeId);
    Stay(s0);
    Then(s0, [], s0, ABegin);
    var s1 := Next(s0, ABegin);
    Then(s0, [] + [ABegin], s1, a2);
    var s2 := Next(s1, a2);
    Then(s0, [] + [ABegin] + [a2], s2, a3);
    var s3 := Next(s2, a3);
    Then(s0, [] + [ABegin] + [a2] + [a3], s3, a4);
    var s4 := Next(s3, a4);
    Then(s0, [] + [ABegin] + [a2] + [a3] + [a4], s4, a5);
    acts, s := [] + [ABegin] + [a2] + [a3] + [a4] + [a5], Next(s4, a5);
    assert acts[4] == a5;
  }

  /** A whole run over a crash: the next transaction gets the id of the aborted
      one, both participants vote to commit it, the commit is logged, and the old
      abort still reaches one of them.  Every action but that second begin is
      careful. */
  lemma ReusedIdSplits(s0: System, a: NodeId, b: NodeId, w: WriteBatch)
    returns (before: seq<Action>, s: System, after: seq<Action>, t: System)
    requires Init(s0) && a in s0.parts && b in s0.parts && a != b
    ensures Leads(s0, before, s) && ACrash(s0.c.nodeId) in before && NextId(s.c) == NextId(s0.c)
    ensures Leads(Next(s, ABegin), after, t) && a in t.parts && b in t.parts
    ensures HasApplied(t.parts[a], NextId(s.c)) && NextId(s.c) in t.parts[b].discarded
  {
    hide Leads, HasApplied, Atomic, Asked;
    before, s := AbortAndRestart(s0, b, w);
    var id, s1 := NextId(s.c), Next(s, ABegin);
    var first, s2 := ToCommitting(s1, id, a, b, w);
    Stay(s2);
    Then(s2, [], s2, ALog(id, COMMIT));
    var s3 := Next(s2, ALog(id, COMMIT));
    LeadsOn(s1, first, s2, [] + [ALog(id, COMMIT)], s3);
    AskedMore(s2, s3);
    var second;
    second, t := BothDecisionsSplit(s3, id, a, b);
    LeadsOn(s1, first + ([] + [ALog(id, COMMIT)]), s3, second, t);
    after := first + ([] + [ALog(id, COMMIT)]) + second;
    assert a in t.parts.Keys && b in t.parts.Keys;
  }

  lemma AskOne(s: System, id: TxnId, n: NodeId, w: WriteBatch) returns (acts: seq<Action>, t: System)
    requires Fresh(s, id) && n in s.parts
    ensures Leads(s, acts, t) && t.parts.Keys == s.parts.Keys && s.sent <= t.sent
    ensures id in t.c.active && t.c.active[id] == Txn(WaitingForVotes, map[n := [w]], map[])
    ensures VoteMsg(id, n, VoteCommit) in t.sent
  {
    hide Leads, Merged;
    var m := PrepareMsg(id, n, [w]);
    var a1, a2, a3 := AAddWrite(id, n, w), APrepare(id), APrepareAt(m, VoteCommit);
    Stay(s);
    Then(s, [], s, a1);
    var s1 := Next(s, a1);
    assert [] + [w] == [w];
    assert s1.c.active[id].writes == map[n := [w]];
    Then(s, [] + [a1], s1, a2);
    var s2 := Next(s1, a2);
    Then(s, [] + [a1] + [a2], s2, a3);
    acts, t := [] + [a1] + [a2] + [a3], Next(s2, a3);
  }

  lemma CommitOne(s: System, id: TxnId, n: NodeId, w: WriteBatch) returns (acts: seq<Action>, t: System)
    requires id in s.c.active && s.c.active[id] == Txn(WaitingForVotes, map[n := [w]], map[])
    requires VoteMsg(id, n, VoteCommit) in s.sent && n in s.parts
    ensures Leads(s, acts, t) && t.parts == s.parts && s.sent <= t.sent
    ensures id in t.c.active && t.c.active[id].state == Committing && t.c.active[id].writes == map[n := [w]]
    ensures CommitMsg(id, n) in t.sent
  {
    hide Leads;
    var a1, a2, a3 := AReceiveVote(VoteMsg(id, n, VoteCommit)), ALog(id, COMMIT), ASendCommit(id, n);
    Stay(s);
    Then(s, [], s, a1);
    var s1 := Next(s, a1);
    var t1 := CountVote(s.c.active[id], n, VoteCommit);
    assert t1.votes.Keys == {n} == t1.writes.Keys;
    Then(s, [] + [a1], s1, a2);
    var s2 := Next(s1, a2);
    assert n in s2.c.log[(id, COMMIT)];
    Then(s, [] + [a1] + [a2], s2, a3);
    acts, t := [] + [a1] + [a2] + [a3], Next(s2, a3);
  }

  /** An old request replaces what the participant holds for the id. */
  lemma StaleApplied(s: System, id: TxnId, n: NodeId, stale: seq<WriteBatch>) returns (acts: seq<Action>, t: System)
    requires n in s.parts && PrepareMsg(id, n, stale) in s.sent && CommitMsg(id, n) in s.sent
    ensures Leads(s, acts, t) && t.c == s.c && t.parts.Keys == s.parts.Keys
    ensures exists i: nat :: i < |t.parts[n].applied| && t.parts[n].applied[i] == (id, Merged(stale))
  {
    hide Leads, Merged, CommitData;
    var a1, a2 := APrepareAt(PrepareMsg(id, n, stale), VoteCommit), ADeliverCommit(CommitMsg(id, n));
    Stay(s);
    Then(s, [], s, a1);
    var s1 := Next(s, a1);
    Then(s, [] + [a1], s1, a2);
    acts, t := [] + [a1] + [a2], Next(s1, a2);
    assert t.parts[n].applied[|s.parts[n].applied|] == (id, Merged(stale));
  }

  /** Under an id whose participant was asked before, the writes applied need not
      be the transaction's own. */
  lemma OldRequestApplied(s: System, id: TxnId, n: NodeId) returns (acts: seq<Action>, t: System)
    requires Fresh(s, id) && n in s.parts && Asked(s, id, n)
    ensures Leads(s, acts, t) && !AppliesItsWrites(t, id)
  {
    hide Leads, Merged;
    var before :| PrepareMsg(id, n, before) in s.sent;
    var w := DifferentWrite(Merged(before));
    var first, s1 := AskOne(s, id, n, w);
    assert n in s1.parts.Keys;
    var second, s2 := CommitOne(s1, id, n, w);
    var third;
    third, t := StaleApplied(s2, id, n, before);
    LeadsOn(s, first, s1, second, s2);
    LeadsOn(s, first + second, s2, third, t);
    acts := first + second + third;
    assert n in t.parts.Keys;
  }

  lemma DifferentWrite(b: WriteBatch) returns (w: WriteBatch)
    ensures Merged([w]) != b && w.OpCount() == 1
  {
    var v, u := WriteBatch([], [""]), WriteBatch([("", Value("", 0))], []);
    OneMerged(v);
    OneMerged(u);
    w := if v == b then u else v;
  }

  lemma OneMerged(w: WriteBatch)
    ensures Merged([w]) == w
  {
    assert [w][..0] == [];
    assert Merged([]) == EMPTY_BATCH;
    assert [] + w.writes == w.writes && [] + w.deletes == w.deletes;
  }

  /** A recorded decision hides the new transaction from recovery. */
  lemma OldDecisionMisleads(s: System, id: TxnId) returns (acts: seq<Action>, t: System)
    requires Fresh(s, id) && ((id, COMMIT) in s.c.log || (id, ABORT) in s.c.log)
    ensures Leads(s, acts, t) && !Recoverable(t, id)
  {
    hide Leads;
    Stay(s);
    Then(s, [], s, APrepare(id));
    acts, t := [] + [APrepare(id)], Next(s, APrepare(id));
  }

  /** After a careful run, beginning a transaction leaves it sound (atomic, applied
      as buffered, found by recovery) in every careful continuation exactly when
      the recovery log has no decision under its id and names nobody who was asked
      to prepare it. */
  lemma BeginIsSafeIff(s0: System, acts: seq<Action>, s: System)
    requires Init(s0) && Leads(s0, acts, s)
    ensures StaysSound(Next(s, ABegin), NextId(s.c)) <==> Unrecorded(s.c.log, NextId(s.c))
  {
    hide Inv, CarefulRun, Exec, Init, Atomic, AppliesItsWrites, Recoverable;
    RunInvariantAt(s0, acts, s);
    var id, s1 := NextId(s.c), Next(s, ABegin);
    if Unrecorded(s.c.log, id) {
      NextKeeps(s, ABegin);
      forall more | CarefulRun(s1, more) ensures Exec(s1, more).Some? && Sound(Exec(s1, more).value, id) {
        InvAfter(s1, more);
        InvIsSound(Exec(s1, more).value, id);
      }
    } else if (id, COMMIT) in s.c.log || (id, ABORT) in s.c.log {
      var more, t := OldDecisionMisleads(s1, id);
    } else {
      var n := AskedBefore(s, id);
      AskedMore(s, s1);
      var more, t := OldRequestApplied(s1, id, n);
    }
  }

  lemma AskedBefore(s: System, id: TxnId) returns (n: NodeId)
    requires Inv(s) && (id, PREPARE) in s.c.log && s.c.log[(id, PREPARE)] != {}
    ensures n in s.parts && Asked(s, id, n)
  {
    hide Asked;
    assert AskedOf(s, id);
    n :| n in s.c.log[(id, PREPARE)];
  }

  // Recovery of a transaction that is not over.

  /** Participants that were asked can all be brought to vote for the commit. */
  lemma {:induction false} AllVote(s: System, id: TxnId, nodes: set<NodeId>) returns (acts: seq<Action>, t: System)
    requires forall n | n in nodes :: n in s.parts && Asked(s, id, n)
    ensures Leads(s, acts, t) && SameBut(s, t)
    ensures forall n | n in nodes :: VoteMsg(id, n, VoteCommit) in t.sent
    decreases nodes
  {
    hide Leads, Merged, Asked;
    Stay(s);
    if nodes == {} {
      acts, t := [], s;
    } else {
      var n :| n in nodes;
      var first, u := VoteOnce(s, id, n);
      AskedMore(s, u);
      assert forall m | m in s.parts :: m in u.parts.Keys;
      var second;
      second, t := AllVote(u, id, nodes - {n});
      LeadsOn(s, first, u, second, t);
      acts := first + second;
    }
  }

  lemma VoteOnce(s: System, id: TxnId, n: NodeId) returns (acts: seq<Action>, t: System)
    requires n in s.parts && Asked(s, id, n)
    ensures Leads(s, acts, t) && SameBut(s, t) && VoteMsg(id, n, VoteCommit) in t.sent
  {
    hide Leads, Merged;
    var w :| PrepareMsg(id, n, w) in s.sent;
    var a := APrepareAt(PrepareMsg(id, n, w), VoteCommit);
    Stay(s);
    Then(s, [], s, a);
    acts, t := [] + [a], Next(s, a);
  }

  /** The participants that have not voted for the commit so far. */
  function Lacking(t: Txn): set<NodeId> {
    set n | n in t.writes && !(n in t.votes && t.votes[n] == VoteCommit)
  }

  predicate Open(t: Txn) {
    t.state == WaitingForVotes && t.votes.Keys <= t.writes.Keys && t.votes.Keys != t.writes.Keys
  }

  /** Counting a commit vote of a participant that lacks one, those that voted against
      first, stays open or decides for the commit. */
  lemma CountCommit(t: Txn, n: NodeId)
    requires Open(t) && n in Lacking(t)
    requires n in t.votes || forall m | m in t.votes :: t.votes[m] == VoteCommit
    ensures var t' := CountVote(t, n, VoteCommit);
            && t'.writes == t.writes && Lacking(t') == Lacking(t) - {n} && (t'.state == Committing || Open(t'))
  {
    var t' := t.(votes := t.votes[n := VoteCommit]);
    assert n in t.writes.Keys;
    assert t'.votes.Keys == t.votes.Keys + {n};
    if n in t.votes {
      assert t'.votes.Keys == t.votes.Keys;
    }
  }

  lemma NextVoter(t: Txn) returns (n: NodeId)
    requires Open(t)
    ensures n in Lacking(t) && (n in t.votes || forall m | m in t.votes :: t.votes[m] == VoteCommit)
  {
    if m :| m in t.votes && t.votes[m] != VoteCommit {
      n := m;
      assert m in t.votes.Keys;
    } else {
      var unvoted := t.writes.Keys - t.votes.Keys;
      assert t.writes.Keys <= t.votes.Keys + unvoted;
      assert unvoted != {};
      n :| n in unvoted;
    }
  }

  lemma {:induction false} ToDecision(s: System, id: TxnId) returns (acts: seq<Action>, t: System)
    requires id in s.c.active && Open(s.c.active[id])
    requires forall n | n in s.c.active[id].writes :: VoteMsg(id, n, VoteCommit) in s.sent
    ensures Leads(s, acts, t) && t.parts == s.parts && t.sent == s.sent && t.c.log == s.c.log
    ensures (id, COMMIT) in t.unlogged && t.unlogged[(id, COMMIT)] == s.c.active[id].writes.Keys
    decreases Lacking(s.c.active[id])
  {
    hide Leads, CountVote, Lacking;
    var x := s.c.active[id];
    var n := NextVoter(x);
    assert n in x.writes by { LackingIn(x, n); }
    CountCommit(x, n);
    var a := AReceiveVote(VoteMsg(id, n, VoteCommit));
    Stay(s);
    Then(s, [], s, a);
    acts, t := [] + [a], Next(s, a);
    if t.c.active[id].state != Committing {
      var more;
      var u := t;
      more, t := ToDecision(u, id);
      LeadsOn(s, acts, u, more, t);
      acts := acts + more;
    }
  }

  lemma LackingIn(t: Txn, n: NodeId)
    requires n in Lacking(t)
    ensures n in t.writes
  {
  }

  /** An abort already sent can still discard what is applied elsewhere. */
  lemma DiscardSent(s: System, id: TxnId, n: NodeId) returns (acts: seq<Action>, t: System)
    requires n in s.parts && Asked(s, id, n) && AbortMsg(id, n) in s.sent
    ensures Leads(s, acts, t) && SameBut(s, t) && id in t.parts[n].discarded
    ensures forall m | m in s.parts :: t.parts[m].applied == s.parts[m].applied
  {
    hide Leads, Asked;
    var u;
    acts, u := Rearm(s, id, n);
    Then(s, acts, u, ADeliverAbort(AbortMsg(id, n)));
    acts, t := acts + [ADeliverAbort(AbortMsg(id, n))], Next(u, ADeliverAbort(AbortMsg(id, n)));
  }

  /** Applied at the one participant and discarded at the other. */
  ghost predicate Split(s: System, id: TxnId, at: NodeId, node: NodeId) {
    at in s.parts && node in s.parts && HasApplied(s.parts[at], id) && id in s.parts[node].discarded
  }

  /** With a commit about to be logged and an abort sent, a participant of the commit
      applies and the one told to abort discards. */
  lemma PendingCommitSplits(s: System, id: TxnId, at: NodeId, n: NodeId) returns (acts: seq<Action>, t: System)
    requires n in s.parts && Asked(s, id, n) && AbortMsg(id, n) in s.sent
    requires at in s.parts && Asked(s, id, at) && (id, COMMIT) in s.unlogged && at in s.unlogged[(id, COMMIT)]
    ensures Leads(s, acts, t) && Split(t, id, at, n)
  {
    hide Leads, Asked, HasApplied;
    Stay(s);
    var a := ALog(id, COMMIT);
    Then(s, [], s, a);
    var s1 := Next(s, a);
    AskedMore(s, s1);
    var first, s2 := ApplyAt(s1, id, at);
    AskedMore(s1, s2);
    assert n in s2.parts.Keys && at in s2.parts.Keys;
    var second;
    second, t := DiscardSent(s2, id, n);
    AppliedKept(s2.parts[at], t.parts[at]);
    LeadsOn(s, [] + [a], s1, first, s2);
    LeadsOn(s, [] + [a] + first, s2, second, t);
    acts := [] + [a] + first + second;
    assert n in t.parts.Keys && at in t.parts.Keys;
  }

  lemma RunningSplits(s: System, id: TxnId, at: NodeId, node: NodeId) returns (acts: seq<Action>, t: System)
    requires Inv(s) && InDoubtAt(s.c.log, id, node) && at in s.c.log[(id, PREPARE)]
    requires id in s.c.active && s.c.active[id].state == WaitingForVotes
    ensures Leads(Next(s, ARecoverAbort(id, node)), acts, t) && Split(t, id, at, node)
  {
    hide Leads, Asked, Split, IdsInv, VotesInv, SentInv, PartsInv;
    var s1 := Next(s, ARecoverAbort(id, node));
    assert StateInv(s, id) && AskedOf(s, id);
    var x := s.c.active[id];
    assert node in x.writes.Keys && at in x.writes.Keys;
    AskedMore(s, s1);
    var first, s2 := AllVote(s1, id, x.writes.Keys);
    var second, s3 := ToDecision(s2, id);
    AskedMore(s1, s3);
    assert node in s3.parts.Keys && at in s3.parts.Keys;
    var third;
    third, t := PendingCommitSplits(s3, id, at, node);
    LeadsOn(s1, first, s2, second, s3);
    LeadsOn(s1, first + second, s3, third, t);
    acts := first + second + third;
  }

  lemma LoggingSplits(s: System, id: TxnId, at: NodeId, node: NodeId) returns (acts: seq<Action>, t: System)
    requires Inv(s) && InDoubtAt(s.c.log, id, node) && at in s.c.log[(id, PREPARE)] && (id, COMMIT) in s.unlogged
    ensures Leads(Next(s, ARecoverAbort(id, node)), acts, t) && Split(t, id, at, node)
  {
    hide Leads, Asked, Split, IdsInv, VotesInv, SentInv, PartsInv;
    var s1 := Next(s, ARecoverAbort(id, node));
    assert StateInv(s, id) && AskedOf(s, id);
    AskedMore(s, s1);
    acts, t := PendingCommitSplits(s1, id, at, node);
  }

  /** Answering with an abort to one participant of a transaction that is not over lets
      any participant apply it, by careful actions alone. */
  lemma RecoverSplits(s: System, id: TxnId, at: NodeId, node: NodeId) returns (acts: seq<Action>, t: System)
    requires Inv(s) && InDoubtAt(s.c.log, id, node) && at in s.c.log[(id, PREPARE)] && !Over(s, id)
    ensures Leads(Next(s, ARecoverAbort(id, node)), acts, t) && Split(t, id, at, node)
  {
    hide Inv, Leads, Split;
    if (id, COMMIT) in s.unlogged {
      acts, t := LoggingSplits(s, id, at, node);
    } else {
      InDoubtWaits(s, id, node);
      acts, t := RunningSplits(s, id, at, node);
    }
  }

  /** After a careful run, recovering a transaction in doubt as aborted leaves it atomic
      in every careful continuation exactly when it is over: not being run towards a
      commit, and with no commit on its way to the log. */
  lemma RecoverIsSafeIff(s0: System, acts: seq<Action>, s: System, id: TxnId, node: NodeId)
    requires Init(s0) && Leads(s0, acts, s) && InDoubtAt(s.c.log, id, node)
    ensures StaysAtomic(Next(s, ARecoverAbort(id, node)), id) <==> Over(s, id)
  {
    hide Inv, CarefulRun, Exec, Atomic, Init;
    RunInvariantAt(s0, acts, s);
    var s1 := Next(s, ARecoverAbort(id, node));
    if Over(s, id) {
      NextKeeps(s, ARecoverAbort(id, node));
      forall more | CarefulRun(s1, more) ensures Exec(s1, more).Some? && Atomic(Exec(s1, more).value, id) {
        InvAfter(s1, more);
        InvIsAtomic(Exec(s1, more).value, id);
      }
    } else {
      var more, t := RecoverSplits(s, id, node, node);
      assert !Atomic(t, id) by { SplitIsNotAtomic(t, id, node, node); }
    }
  }

  lemma SplitIsNotAtomic(s: System, id: TxnId, at: NodeId, node: NodeId)
    requires Split(s, id, at, node)
    ensures !Atomic(s, id)
  {
  }

  lemma InDoubtWaits(s: System, id: TxnId, node: NodeId)
    requires Inv(s) && InDoubtAt(s.c.log, id, node) && (id, COMMIT) !in s.unlogged
    requires id in s.c.active && s.c.active[id].state != Aborted
    ensures s.c.active[id].state == WaitingForVotes
  {
    assert StateInv(s, id);
  }

  // ----- What a participant applies -----

  /** A participant applies a transaction's writes in the order they were
      buffered exactly when no key is deleted and then set again. */
  lemma AppliedWritesInOrderIff(p: Participant, id: TxnId, writes: seq<WriteBatch>)
    ensures PartCommit(PartPrepare(p, id, writes), id).data == LogData(p.data, writes) <==> !Resurrects(writes)
  {
    MergeInvisibleIff(p.data, writes);
  }

  datatype PartCall =
    | CallPrepare(id: TxnId, writes: seq<WriteBatch>)
    | CallCommit(id: TxnId)
    | CallAbort(id: TxnId)

  function PartCalled(p: Participant, call: PartCall): Participant {
    match call
    case CallPrepare(id, writes) => PartPrepare(p, id, writes)
    case CallCommit(id) => PartCommit(p, id)
    case CallAbort(id) => PartAbort(p, id)
  }

  function PartRun(p: Participant, calls: seq<PartCall>): Participant {
    if calls == [] then p else PartCalled(PartRun(p, calls[..|calls| - 1]), calls[|calls| - 1])
  }

  function TimesApplied(p: Participant, id: TxnId): nat {
    |Filter((x: (TxnId, WriteBatch)) => x.0 == id, p.applied)|
  }

  /** A prepare of `id` at `i` with neither its commit nor its abort before `j`. */
  ghost predicate ArmedAt(calls: seq<PartCall>, i: nat, j: nat, id: TxnId) {
    && i < j <= |calls| && calls[i].CallPrepare? && calls[i].id == id
    && forall m | i < m < j :: calls[m] != CallAbort(id) && calls[m] != CallCommit(id)
  }

  ghost predicate Armed(calls: seq<PartCall>, j: nat, id: TxnId) {
    exists i: nat :: ArmedAt(calls, i, j, id)
  }

  /** Some commit of `id` follows a prepare of it that nothing has ended. */
  ghost predicate CommitsArmed(calls: seq<PartCall>, id: TxnId) {
    exists j: nat :: j < |calls| && calls[j] == CallCommit(id) && Armed(calls, j, id)
  }

  lemma ArmedSnoc(calls: seq<PartCall>, call: PartCall, id: TxnId)
    ensures Armed(calls + [call], |calls| + 1, id) <==>
            (call.CallPrepare? && call.id == id) ||
            (Armed(calls, |calls|, id) && call != CallAbort(id) && call != CallCommit(id))
  {
    var all := calls + [call];
    if i: nat :| ArmedAt(all, i, |all|, id) {
      if i < |calls| {
        assert all[|calls|] == call;
        assert ArmedAt(calls, i, |calls|, id) by { assert forall m | 0 <= m < |calls| :: calls[m] == all[m]; }
      }
    }
    if call.CallPrepare? && call.id == id {
      assert ArmedAt(all, |calls|, |all|, id);
    } else if i: nat :| ArmedAt(calls, i, |calls|, id) && call != CallAbort(id) && call != CallCommit(id) {
      assert ArmedAt(all, i, |all|, id);
    }
  }

  lemma ArmedPrefix(calls: seq<PartCall>, call: PartCall, j: nat, id: TxnId)
    requires j <= |calls|
    ensures Armed(calls + [call], j, id) <==> Armed(calls, j, id)
  {
    var all := calls + [call];
    assert forall m | 0 <= m < |calls| :: calls[m] == all[m];
    if i: nat :| ArmedAt(all, i, j, id) {
      assert ArmedAt(calls, i, j, id);
    }
    if i: nat :| ArmedAt(calls, i, j, id) {
      assert ArmedAt(all, i, j, id);
    }
  }

  lemma CommitsArmedSnoc(calls: seq<PartCall>, call: PartCall, id: TxnId)
    ensures CommitsArmed(calls + [call], id) <==>
            CommitsArmed(calls, id) || (call == CallCommit(id) && Armed(calls, |calls|, id))
  {
    hide Armed;
    var all := calls + [call];
    if j: nat :| j < |all| && all[j] == CallCommit(id) && Armed(all, j, id) {
      ArmedPrefix(calls, call, j, id);
    }
    if j: nat :| j < |calls| && calls[j] == CallCommit(id) && Armed(calls, j, id) {
      ArmedPrefix(calls, call, j, id);
      assert all[j] == CallCommit(id);
    }
    if call == CallCommit(id) && Armed(calls, |calls|, id) {
      ArmedPrefix(calls, call, |calls|, id);
      assert all[|calls|] == CallCommit(id);
    }
  }

  lemma TimesSnoc(p: Participant, x: TxnId, b: WriteBatch, id: TxnId)
    ensures TimesApplied(p.(applied := p.applied + [(x, b)]), id) == TimesApplied(p, id) + if x == id then 1 else 0
  {
    assert (p.applied + [(x, b)])[..|p.applied|] == p.applied;
  }

  /** A participant that holds nothing prepared under an id applies it again over
      a list of calls exactly when one of them commits it after a prepare that
      nothing has ended.  A repeated prepare request is enough: it is not told
      from a new one. */
  lemma {:induction false} AppliedAgainIff(p: Participant, calls: seq<PartCall>, id: TxnId)
    requires id !in p.prepared
    ensures id in PartRun(p, calls).prepared <==> Armed(calls, |calls|, id)
    ensures TimesApplied(PartRun(p, calls), id) >= TimesApplied(p, id)
    ensures TimesApplied(PartRun(p, calls), id) > TimesApplied(p, id) <==> CommitsArmed(calls, id)
  {
    hide TimesApplied, Armed, CommitsArmed, CommitData, Merged;
    if calls == [] {
      NothingArmed(id);
    } else {
      var m := |calls| - 1;
      var init, call := calls[..m], calls[m];
      assert calls == init + [call];
      AppliedAgainIff(p, init, id);
      ArmedSnoc(init, call, id);
      CommitsArmedSnoc(init, call, id);
      var q := PartRun(p, init);
      if call.CallCommit? && call.id in q.prepared {
        TimesSnoc(q, call.id, q.prepared[call.id], id);
        TimesOfApplied(q.(applied := q.applied + [(call.id, q.prepared[call.id])]), PartCalled(q, call), id);
      } else {
        TimesOfApplied(q, PartCalled(q, call), id);
      }
    }
  }

  /** A prepare request that arrives again after the commit, and then the commit again,
      apply the transaction twice. */
  lemma AppliedTwice(p: Participant, id: TxnId, writes: seq<WriteBatch>)
    requires id !in p.prepared
    ensures var calls := [CallPrepare(id, writes), CallCommit(id), CallPrepare(id, writes), CallCommit(id)];
            TimesApplied(PartRun(p, calls), id) == TimesApplied(p, id) + 2
  {
    hide TimesApplied, CommitData, Merged;
    var calls := [CallPrepare(id, writes), CallCommit(id)];
    var once := PartRun(p, calls);
    ApplyOnce(p, id, writes);
    ApplyOnce(once, id, writes);
    PartRunConcat(p, calls, calls);
    assert calls + calls == [CallPrepare(id, writes), CallCommit(id), CallPrepare(id, writes), CallCommit(id)];
  }

  lemma ApplyOnce(p: Participant, id: TxnId, writes: seq<WriteBatch>)
    ensures var q := PartRun(p, [CallPrepare(id, writes), CallCommit(id)]);
            id !in q.prepared && TimesApplied(q, id) == TimesApplied(p, id) + 1
  {
    hide TimesApplied, CommitData, Merged;
    var calls := [CallPrepare(id, writes), CallCommit(id)];
    assert calls[..1] == [CallPrepare(id, writes)] && [CallPrepare(id, writes)][..0] == [];
    var q := PartPrepare(p, id, writes);
    assert PartRun(p, []) == p && PartRun(p, [CallPrepare(id, writes)]) == q;
    TimesSnoc(q, id, q.prepared[id], id);
    TimesOfApplied(q.(applied := q.applied + [(id, q.prepared[id])]), PartCommit(q, id), id);
    TimesOfApplied(p, q, id);
  }

  lemma {:induction false} PartRunConcat(p: Participant, a: seq<PartCall>, b: seq<PartCall>)
    ensures PartRun(p, a + b) == PartRun(PartRun(p, a), b)
    decreases |b|
  {
    hide PartCalled;
    if b == [] {
      assert a + b == a;
    } else {
      var m := |b| - 1;
      assert (a + b)[..|a + b| - 1] == a + b[..m];
      PartRunConcat(p, a, b[..m]);
    }
  }

  lemma NothingArmed(id: TxnId)
    ensures !Armed([], 0, id) && !CommitsArmed([], id)
  {
  }

  lemma TimesOfApplied(p: Participant, q: Participant, id: TxnId)
    requires p.applied == q.applied
    ensures TimesApplied(p, id) == TimesApplied(q, id)
  {
  }


  // ----- The calls as they update their object -----

  class TwoPhaseCoordinator {
    const nodeId: NodeId
    var nextSeq: nat
    var active: map<TxnId, Txn>
    var log: RecoveryLog

    function State(): Coordinator
      reads this
    {
      Coordinator(nodeId, nextSeq, active, log)
    }

    constructor (nodeId: NodeId, log: RecoveryLog)
      ensures State() == Restarted(nodeId, log)
    {
      this.nodeId := nodeId;
      nextSeq, active, this.log := 1, map[], log;
    }

    method Begin() returns (id: TxnId)
      modifies this
      ensures id == NextId(old(State())) && State() == CoordBegin(old(State()))
    {
      id := (nodeId, nextSeq);
      nextSeq := nextSeq + 1;
      active := active[id := NewTxn()];
    }

    method AddWrite(id: TxnId, node: NodeId, w: WriteBatch) returns (error: Option<CallError>)
      modifies this
      ensures match CoordAddWrite(old(State()), id, node, w)
              case Ok(c) => error == None && State() == c
              case Err(e) => error == Some(e) && State() == old(State())
      ensures error.None? ==>
                var before, after := old(active), active;
                && after.Keys == before.Keys && id in before
                && (forall x | x in before && x != id :: after[x] == before[x])
                && (forall n | n in before[id].writes && n != node ::
                      n in after[id].writes && after[id].writes[n] == before[id].writes[n])
                && after[id].writes.Keys == before[id].writes.Keys + {node}
                && after[id].writes[node] == (if node in before[id].writes then before[id].writes[node] else []) + [w]
    {
      if id !in active {
        return Some(NotFound);
      }
      if active[id].state != Preparing {
        return Some(WrongState);
      }
      active := active[id := WithWrite(active[id], node, w)];
      return None;
    }

    method Prepare(id: TxnId) returns (r: Result<set<NodeId>, CallError>)
      modifies this
      ensures match CoordPrepare(old(State()), id)
              case Ok(c) => r == Ok(old(active)[id].writes.Keys) && State() == c
              case Err(e) => r == Err(e) && State() == old(State())
    {
      if id !in active {
        return Err(NotFound);
      }
      if active[id].state != Preparing {
        return Err(WrongState);
      }
      LogState(id, PREPARE, active[id].writes.Keys);
      active := active[id := active[id].(state := WaitingForVotes)];
      return Ok(active[id].writes.Keys);
    }

    method LogState(id: TxnId, tag: LogTag, participants: set<NodeId>)
      modifies this`log
      ensures State() == CoordLog(old(State()), id, tag, participants)
    {
      log := log[(id, tag) := participants];
    }

    /** A vote that completes the set decides the transaction and logs it. */
    method ReceiveVote(id: TxnId, node: NodeId, v: Vote) returns (r: Result<TxnState, CallError>)
      modifies this
      ensures match CoordVote(old(State()), id, node, v)
              case Err(e) => r == Err(e) && State() == old(State())
              case Ok(c) =>
                match c.active[id].state
                case Committing => r == Ok(Committing) && State() == CoordLog(c, id, COMMIT, c.active[id].writes.Keys)
                case Aborted => r == Err(DecidedAbort) && State() == CoordLog(c, id, ABORT, c.active[id].writes.Keys)
                case _ => r == Ok(WaitingForVotes) && State() == c
    {
      if id !in active {
        return Err(NotFound);
      }
      if active[id].state != WaitingForVotes {
        return Err(WrongState);
      }
      var t := CountVote(active[id], node, v);
      active := active[id := t];
      if t.state == Committing {
        LogState(id, COMMIT, t.writes.Keys);
        return Ok(Committing);
      }
      if t.state == Aborted {
        LogState(id, ABORT, t.writes.Keys);
        return Err(DecidedAbort);
      }
      return Ok(WaitingForVotes);
    }

    method FinalizeCommit(id: TxnId)
      modifies this
      ensures State() == CoordForget(old(State()), id)
    {
      active := active - {id};
    }

    method Abort(id: TxnId) returns (r: Result<set<NodeId>, CallError>)
      modifies this
      ensures match CoordAbort(old(State()), id)
              case Err(e) => r == Err(e) && State() == old(State())
              case Ok(c) =>
                && r == Ok(c.active[id].writes.Keys)
                && State() == CoordForget(CoordLog(c, id, ABORT, c.active[id].writes.Keys), id)
    {
      if id !in active {
        return Err(NotFound);
      }
      var participants := active[id].writes.Keys;
      active := active[id := active[id].(state := Aborted)];
      LogState(id, ABORT, participants);
      active := active - {id};
      return Ok(participants);
    }

    /** Reports every transaction whose log needs action, once each. */
    method Recover() returns (out: seq<(TxnId, LogTag, set<NodeId>)>)
      ensures forall i | 0 <= i < |out| :: RecoverOne(log, out[i].0) == Some((out[i].1, out[i].2))
      ensures forall i, j | 0 <= i < j < |out| :: out[i].0 != out[j].0
      ensures forall id: TxnId | RecoverOne(log, id).Some? :: exists i :: 0 <= i < |out| && out[i].0 == id
    {
      var ids := set k | k in log :: k.0;
      var left := ids;
      out := [];
      while left != {}
        invariant left <= ids
        invariant forall i | 0 <= i < |out| ::
                    out[i].0 !in left && RecoverOne(log, out[i].0) == Some((out[i].1, out[i].2))
        invariant forall i, j | 0 <= i < j < |out| :: out[i].0 != out[j].0
        invariant forall id | id in ids && id !in left && RecoverOne(log, id).Some? ::
                    exists i :: 0 <= i < |out| && out[i].0 == id
        decreases left
      {
        var id :| id in left;
        left := left - {id};
        ghost var before := out;
        match RecoverOne(log, id) {
          case Some((tag, ps)) => out := out + [(id, tag, ps)];
          case None =>
        }
        forall x | x in ids && x !in left && RecoverOne(log, x).Some?
          ensures exists i :: 0 <= i < |out| && out[i].0 == x
        {
          if x == id {
            assert out[|out| - 1].0 == x;
          } else {
            var i :| 0 <= i < |before| && before[i].0 == x;
            assert out[i].0 == x;
          }
        }
      }
      forall id: TxnId | RecoverOne(log, id).Some? ensures exists i :: 0 <= i < |out| && out[i].0 == id {
        assert id in ids by {
          if (id, COMMIT) in log { assert (id, COMMIT).0 == id; } else { assert (id, PREPARE).0 == id; }
        }
      }
    }
  }

  class TwoPhaseParticipant {
    const nodeId: NodeId
    var prepared: map<TxnId, WriteBatch>
    var data: Data
    ghost var applied: seq<(TxnId, WriteBatch)>
    ghost var discarded: set<TxnId>

    ghost function State(): Participant
      reads this
    {
      Participant(prepared, data, applied, discarded)
    }

    constructor (nodeId: NodeId, data: Data)
      ensures State() == Participant(map[], data, [], {})
    {
      this.nodeId := nodeId;
      prepared, this.data, applied, discarded := map[], data, [], {};
    }

    /** Builds one batch from the buffered writes; refuses only when the batch
        does not fit the cap, and then keeps nothing. */
    method Prepare(id: TxnId, writes: seq<WriteBatch>) returns (v: Vote)
      modifies this`prepared
      ensures v == VoteCommit <==> OpsIn(writes) <= MAX_OPS
      ensures v == VoteCommit ==> State() == PartPrepare(old(State()), id, writes)
      ensures v == VoteAbort ==> State() == old(State())
    {
      var batch := EMPTY_BATCH;
      for i := 0 to |writes|
        invariant batch == Merged(writes[..i]) && batch.OpCount() == OpsIn(writes[..i]) <= MAX_OPS
      {
        assert writes[..i + 1][..i] == writes[..i];
        if batch.OpCount() + writes[i].OpCount() > MAX_OPS {
          OpsInMonotone(writes, i + 1);
          return VoteAbort;
        }
        batch := WriteBatch(batch.writes + writes[i].writes, batch.deletes + writes[i].deletes);
      }
      assert writes[..|writes|] == writes;
      prepared := prepared[id := batch];
      return VoteCommit;
    }

    method Commit(id: TxnId) returns (error: Option<CallError>)
      modifies this
      ensures State() == PartCommit(old(State()), id)
      ensures error == if id in old(prepared) then None else Some(NotFound)
    {
      if id !in prepared {
        return Some(NotFound);
      }
      data := CommitData(data, prepared[id]);
      applied := applied + [(id, prepared[id])];
      prepared := prepared - {id};
      return None;
    }

    method Abort(id: TxnId)
      modifies this
      ensures State() == PartAbort(old(State()), id)
    {
      if id in prepared {
        prepared := prepared - {id};
        discarded := discarded + {id};
      }
    }
  }

  lemma {:induction false} OpsInMonotone(ws: seq<WriteBatch>, i: nat)
    requires i <= |ws|
    ensures OpsIn(ws[..i]) <= OpsIn(ws)
  {
    if i == |ws| {
      assert ws[..i] == ws;
    } else {
      OpsInMonotone(ws[..|ws| - 1], i);
      assert ws[..|ws| - 1][..i] == ws[..i];
    }
  }
}
