/**
 Applying a replicated log to the storage engine.

 One accepted log entry is one atomic client write.  The loop stages entries
 into a batch, flushes it at an entry boundary before it would fill up, stamps
 each staged entry's response with the marker of the commit that contains it,
 and records the entry's conflict record at that marker.  The applied pointer is
 written last, after all data.
 */
module RaftApply {
  import opened Basics
  import opened Storage
  import opened Coalesce

  const RAFT_PREFIX := "__sys__/raft/"

  /** The conflict record a transaction commit carries with its writes. */
  datatype SsiRecord = SsiRecord(txnId: nat, writeKeys: set<Key>, readKeys: set<Key>, readRanges: seq<(Key, Key)>)

  datatype HistoryEntry = HistoryEntry(commitSeq: nat, record: SsiRecord)

  datatype RaftCommand = RaftCommand(sets: seq<(Key, Value)>, dels: seq<Key>, ssi: Option<SsiRecord>)

  datatype LogId = LogId(leader: nat, index: nat)

  /** A log payload; `decoded` is the structured command its text parses to. */
  datatype Payload =
    | Blank
    | Normal(decoded: Option<RaftCommand>, text: string)
    | Membership(nodes: set<nat>)

  datatype Entry = Entry(id: LogId, payload: Payload)

  datatype Response = Empty | Rejected | Pending | Marker(seqNo: nat)

  datatype Meta = Meta(lastApplied: Option<LogId>, membership: Option<(LogId, set<nat>)>)

  predicate Reserved(k: Key) {
    StartsWith(k, RAFT_PREFIX)
  }

  predicate TouchesReserved(cmd: RaftCommand) {
    || (exists i :: 0 <= i < |cmd.sets| && Reserved(cmd.sets[i].0))
    || (exists i :: 0 <= i < |cmd.dels| && Reserved(cmd.dels[i]))
  }

  function CommandBatch(cmd: RaftCommand): WriteBatch {
    WriteBatch(cmd.sets, cmd.dels)
  }

  /** The text form `SET <key> <value>`. */
  function LegacySet(text: string): Option<(Key, string)> {
    if StartsWith(text, "SET ") then SplitOnce(text[4..], ' ') else None
  }

  /** The command an entry stages, if it is accepted. */
  function Accepted(e: Entry): Option<RaftCommand> {
    match e.payload
    case Normal(Some(cmd), _) =>
      if TouchesReserved(cmd) || CommandBatch(cmd).IsEmpty() then None else Some(cmd)
    case Normal(None, text) =>
      (match LegacySet(text)
       case Some((k, v)) =>
         if Reserved(k) then None else Some(RaftCommand([(k, Value(v, 0))], [], None))
       case None => None)
    case _ => None
  }

  predicate IsSet(text: string, k: Key, v: string) {
    text == "SET " + k + " " + v && ' ' !in k
  }

  /** The entries that write, and what they write: a decoded command of at least one
      operation on keys outside the log's own, or, of a text that decodes to none, SET
      of such a key; the value is everything after the second space. */
  ghost predicate IsWrite(e: Entry, cmd: RaftCommand) {
    && e.payload.Normal?
    && if e.payload.decoded.Some? then
         && cmd == e.payload.decoded.value && |cmd.sets| + |cmd.dels| > 0
         && (forall i | 0 <= i < |cmd.sets| :: !(RAFT_PREFIX <= cmd.sets[i].0))
         && (forall i | 0 <= i < |cmd.dels| :: !(RAFT_PREFIX <= cmd.dels[i]))
       else
         exists k, v :: && IsSet(e.payload.text, k, v) && !(RAFT_PREFIX <= k)
                        && cmd == RaftCommand([(k, Value(v, 0))], [], None)
  }

  lemma LegacySetIff(text: string, k: Key, v: string)
    ensures LegacySet(text) == Some((k, v)) <==> IsSet(text, k, v)
  {
    hide SplitOnce;
    if IsSet(text, k, v) {
      assert text == "SET " + (k + [' '] + v);
      assert text[4..] == k + [' '] + v;
      SplitOnceAt(k, ' ', v);
    }
    if LegacySet(text) == Some((k, v)) {
      assert text == "SET " + text[4..];
      assert text == "SET " + k + " " + v;
    }
  }

  /** Exactly the entries that write are accepted. */
  lemma AcceptedIff(e: Entry, cmd: RaftCommand)
    ensures Accepted(e) == Some(cmd) <==> IsWrite(e, cmd)
  {
    hide LegacySet, IsSet;
    if e.payload.Normal? && e.payload.decoded.None? {
      var text := e.payload.text;
      if IsWrite(e, cmd) {
        var k, v :| && IsSet(text, k, v) && !(RAFT_PREFIX <= k)
                    && cmd == RaftCommand([(k, Value(v, 0))], [], None);
        LegacySetIff(text, k, v);
      }
      if Accepted(e) == Some(cmd) {
        var (k, v) := LegacySet(text).value;
        LegacySetIff(text, k, v);
      }
    }
  }

  /** What each entry of a log stages. */
  function Staging(es: seq<Entry>): (p: seq<Option<RaftCommand>>)
    ensures |p| == |es| && forall i | 0 <= i < |es| :: p[i] == Accepted(es[i])
  {
    seq(|es|, i requires 0 <= i < |es| => Accepted(es[i]))
  }

  /** What one entry writes; nothing if it is not accepted. */
  function StagedWrite(p: Option<RaftCommand>): WriteBatch {
    if p.Some? then CommandBatch(p.value) else EMPTY_BATCH
  }

  function Writes(p: seq<Option<RaftCommand>>): (ws: seq<WriteBatch>)
    ensures |ws| == |p| && forall i | 0 <= i < |p| :: ws[i] == StagedWrite(p[i])
  {
    seq(|p|, i requires 0 <= i < |p| => StagedWrite(p[i]))
  }

  lemma ReservedUntouched(e: Entry, k: Key)
    requires Reserved(k)
    ensures !Touches(StagedWrite(Accepted(e)), k)
  {
    hide Reserved;
  }

  /** Whatever the entries, and however many of their commits are made, the log's
      own keys hold what they held. */
  lemma {:induction false} ReservedKeysKept(d: Data, es: seq<Entry>, cuts: seq<Cut>, k: Key)
    requires Reserved(k) && AllInRange(Writes(Staging(es)), cuts)
    ensures Get(CutData(d, Writes(Staging(es)), cuts), k) == Get(d, k)
  {
    hide Reserved, Touches, CommitData, Merged, Accepted, StagedWrite;
    if cuts != [] {
      var ws, init, c := Writes(Staging(es)), cuts[..|cuts| - 1], cuts[|cuts| - 1];
      ReservedKeysKept(d, es, init, k);
      var before := CutData(d, ws, init);
      forall i | 0 <= i < |Slice(ws, c)| ensures !Touches(Slice(ws, c)[i], k) {
        ReservedUntouched(es[c.from + i], k);
      }
      SliceAt(before, before, Slice(ws, c), k);
    }
  }

  function ImmediateResponse(e: Entry): Response {
    if e.payload.Normal? then Rejected else Empty
  }

  // ----- Markers, history and metadata as functions of the input -----

  function SeqAfter(s0: nat, ws: seq<WriteBatch>, cuts: seq<Cut>): nat
    requires AllInRange(ws, cuts)
  {
    if cuts == [] then s0
    else SeqAfter(s0, ws, cuts[..|cuts| - 1]) + OpsIn(Slice(ws, cuts[|cuts| - 1])) + 1
  }

  /** The commit marker of cut `c`: one past the numbers of its operations. */
  function CutMarker(s0: nat, ws: seq<WriteBatch>, cuts: seq<Cut>, c: nat): nat
    requires AllInRange(ws, cuts) && c < |cuts|
  {
    SeqAfter(s0, ws, cuts[..c]) + OpsIn(Slice(ws, cuts[c]))
  }

  function Prune(h: seq<HistoryEntry>, floor: nat): seq<HistoryEntry> {
    if h == [] then []
    else Prune(h[..|h| - 1], floor) + (if h[|h| - 1].commitSeq >= floor then [h[|h| - 1]] else [])
  }

  /** The conflict records of a run of staged commands, all at one marker. */
  function Records(p: seq<Option<RaftCommand>>, marker: nat): seq<HistoryEntry> {
    if p == [] then []
    else Records(p[..|p| - 1], marker) +
         match p[|p| - 1]
         case Some(RaftCommand(_, _, Some(rec))) => [HistoryEntry(marker, rec)]
         case _ => []
  }

  /** The history after the commits `cuts`, each followed by a prune. */
  function HistoryAfter(h: seq<HistoryEntry>, s0: nat, p: seq<Option<RaftCommand>>, cuts: seq<Cut>,
                        pinned: Option<nat>): seq<HistoryEntry>
    requires AllInRange(Writes(p), cuts)
  {
    if cuts == [] then h
    else
      var init, c := cuts[..|cuts| - 1], cuts[|cuts| - 1];
      var marker := CutMarker(s0, Writes(p), cuts, |cuts| - 1);
      Prune(HistoryAfter(h, s0, p, init, pinned) + Records(p[c.from..c.to], marker),
            if pinned.Some? then pinned.value else marker)
  }

  function MetaAfter(m: Meta, es: seq<Entry>): Meta {
    if es == [] then m
    else
      var before := MetaAfter(m, es[..|es| - 1]);
      var e := es[|es| - 1];
      Meta(Some(e.id), if e.payload.Membership? then Some((e.id, e.payload.nodes)) else before.membership)
  }

  ghost predicate FirstTooLarge(ws: seq<WriteBatch>, e: nat) {
    e < |ws| && ws[e].OpCount() > MAX_OPS && forall j | 0 <= j < e :: ws[j].OpCount() <= MAX_OPS
  }

  /** Entry `j`'s response once the commits `cuts` are made. */
  function ResponseAt(p: seq<Option<RaftCommand>>, immediate: seq<Response>, s0: nat, cuts: seq<Cut>, j: nat): Response
    requires |immediate| == |p| && j < |p| && AllInRange(Writes(p), cuts)
  {
    if p[j].None? then immediate[j]
    else if cuts == [] then Pending
    else if cuts[|cuts| - 1].from <= j < cuts[|cuts| - 1].to then Marker(CutMarker(s0, Writes(p), cuts, |cuts| - 1))
    else ResponseAt(p, immediate, s0, cuts[..|cuts| - 1], j)
  }

  ghost predicate Stamped(p: seq<Option<RaftCommand>>, immediate: seq<Response>, s0: nat, cuts: seq<Cut>, i: nat,
                          res: seq<Response>)
    requires |immediate| == |p| && AllInRange(Writes(p), cuts)
  {
    |res| == i <= |p| && forall j | 0 <= j < i :: res[j] == ResponseAt(p, immediate, s0, cuts, j)
  }

  /** An accepted entry's response is the marker of the commit containing it. */
  lemma {:induction false} ResponseIsItsCommitsMarker(
    p: seq<Option<RaftCommand>>, immediate: seq<Response>, s0: nat, cuts: seq<Cut>, c: nat, j: nat)
    requires |immediate| == |p| && Tiles(Writes(p), cuts) && c < |cuts|
    requires cuts[c].from <= j < cuts[c].to && p[j].Some?
    ensures ResponseAt(p, immediate, s0, cuts, j) == Marker(CutMarker(s0, Writes(p), cuts, c))
  {
    var n := |cuts| - 1;
    if c < n {
      CutsBelow(Writes(p), cuts, c, n);
      var init := cuts[..n];
      assert init[c] == cuts[c] && init[..c] == cuts[..c];
      ResponseIsItsCommitsMarker(p, immediate, s0, init, c, j);
    }
  }

  lemma {:induction false} CutsBelow(ws: seq<WriteBatch>, cuts: seq<Cut>, c: nat, n: nat)
    requires Tiles(ws, cuts) && c < n < |cuts|
    ensures cuts[c].to <= cuts[n].from
    decreases n - c
  {
    assert InRange(ws, cuts[c + 1]) && cuts[c + 1].from == cuts[c].to;
    if c + 1 < n {
      CutsBelow(ws, cuts, c + 1, n);
    }
  }

  function Immediate(es: seq<Entry>): (r: seq<Response>)
    ensures |r| == |es| && forall i | 0 <= i < |es| :: r[i] == ImmediateResponse(es[i])
  {
    seq(|es|, i requires 0 <= i < |es| => ImmediateResponse(es[i]))
  }

  // ----- What one entry does -----

  /** An entry that writes is answered with a marker, any other normal one is rejected,
      and blank and membership entries are answered with nothing. */
  ghost predicate Answers(e: Entry, r: Response) {
    && !r.Pending?
    && (r.Marker? <==> exists cmd :: IsWrite(e, cmd))
    && (r.Rejected? <==> e.payload.Normal? && forall cmd :: !IsWrite(e, cmd))
    && (r.Empty? <==> !e.payload.Normal?)
  }

  /** The writes of a log: each entry's own operations, sets before deletes. */
  ghost predicate Carries(es: seq<Entry>, ws: seq<WriteBatch>) {
    && |ws| == |es|
    && (forall j, cmd | 0 <= j < |es| && IsWrite(es[j], cmd) :: ws[j] == WriteBatch(cmd.sets, cmd.dels))
    && (forall j | 0 <= j < |es| && !ws[j].IsEmpty() :: exists cmd :: IsWrite(es[j], cmd))
  }

  lemma StagingCarries(es: seq<Entry>)
    ensures Carries(es, Writes(Staging(es)))
  {
    hide IsWrite, Accepted;
    forall j, cmd | 0 <= j < |es| && IsWrite(es[j], cmd)
      ensures Writes(Staging(es))[j] == WriteBatch(cmd.sets, cmd.dels)
    {
      AcceptedIff(es[j], cmd);
    }
    forall j | 0 <= j < |es| && !Writes(Staging(es))[j].IsEmpty() ensures exists cmd :: IsWrite(es[j], cmd) {
      AcceptedIff(es[j], Accepted(es[j]).value);
    }
  }

  lemma ResponseAnswers(e: Entry, r: Response)
    requires if Accepted(e).Some? then r.Marker? else r == ImmediateResponse(e)
    ensures Answers(e, r)
  {
    hide IsWrite;
    forall cmd ensures IsWrite(e, cmd) <==> Accepted(e) == Some(cmd) {
      AcceptedIff(e, cmd);
    }
    if Accepted(e).Some? {
      assert IsWrite(e, Accepted(e).value);
    }
  }

  /** Every entry of an applied log is answered. */
  lemma {:induction false} StampedAnswers(es: seq<Entry>, s0: nat, res: seq<Response>)
    requires var ws := Writes(Staging(es)); AllInRange(ws, Cuts(ws)) && EachFits(ws)
    requires Stamped(Staging(es), Immediate(es), s0, Cuts(Writes(Staging(es))), |es|, res)
    ensures |res| == |es| && forall j | 0 <= j < |es| :: Answers(es[j], res[j])
  {
    hide Answers, Cuts, ResponseAt, Accepted, CutMarker;
    var p := Staging(es);
    var ws := Writes(p);
    CutsWellFormed(ws);
    forall j | 0 <= j < |es| ensures Answers(es[j], res[j]) {
      if p[j].Some? {
        AcceptedNotEmpty(es[j]);
        var c := CutOf(ws, Cuts(ws), j);
        ResponseIsItsCommitsMarker(p, Immediate(es), s0, Cuts(ws), c, j);
      } else {
        Unstaged(p, Immediate(es), s0, Cuts(ws), j);
      }
      ResponseAnswers(es[j], res[j]);
    }
  }

  /** A write of at least one operation is in some commit. */
  lemma CutOf(ws: seq<WriteBatch>, cuts: seq<Cut>, j: nat) returns (c: nat)
    requires Tiles(ws, cuts) && j < |ws| && !ws[j].IsEmpty()
    requires CutsEnd(cuts) <= |ws| && OpsIn(ws[CutsEnd(cuts)..]) == 0
    ensures c < |cuts| && cuts[c].from <= j < cuts[c].to
  {
    hide OpsIn;
    EmptyTail(ws, CutsEnd(cuts));
    c := TileOf(ws, cuts, j);
  }

  lemma {:induction false} EmptyTail(ws: seq<WriteBatch>, from: nat)
    requires from <= |ws| && OpsIn(ws[from..]) == 0
    ensures forall j | from <= j < |ws| :: ws[j].IsEmpty()
  {
    if from < |ws| {
      var init := ws[..|ws| - 1];
      assert ws[from..][..|ws| - from - 1] == init[from..];
      EmptyTail(init, from);
    }
  }

  lemma {:induction false} TileOf(ws: seq<WriteBatch>, cuts: seq<Cut>, j: nat) returns (c: nat)
    requires Tiles(ws, cuts) && j < CutsEnd(cuts)
    ensures c < |cuts| && cuts[c].from <= j < cuts[c].to
  {
    var n := |cuts| - 1;
    if cuts[n].from <= j {
      c := n;
    } else {
      c := TileOf(ws, cuts[..n], j);
    }
  }

  lemma Unstaged(p: seq<Option<RaftCommand>>, immediate: seq<Response>, s0: nat, cuts: seq<Cut>, j: nat)
    requires |immediate| == |p| && j < |p| && AllInRange(Writes(p), cuts) && p[j].None?
    ensures ResponseAt(p, immediate, s0, cuts, j) == immediate[j]
  {
  }

  /** What applying one entry leaves: its operations in order, its record at its marker
      unless older than the oldest open snapshot. */
  ghost predicate Leaves(cmd: RaftCommand, d: Data, s0: nat, d': Data, h': seq<HistoryEntry>, r: Response,
                         pinned: Option<nat>)
  {
    var marker := s0 + |cmd.sets| + |cmd.dels|;
    && d' == ApplyOps(d, SetOps(cmd.sets) + DelOps(cmd.dels))
    && r == Marker(marker)
    && (cmd.ssi.Some? && (pinned.Some? ==> pinned.value <= marker) ==>
          HistoryEntry(marker, cmd.ssi.value) in h')
  }

  lemma OneEntry(e: Entry, cmd: RaftCommand, d: Data, s0: nat, h: seq<HistoryEntry>, pinned: Option<nat>)
    requires IsWrite(e, cmd)
    ensures EachFits(Writes(Staging([e]))) <==> |cmd.sets| + |cmd.dels| <= MAX_OPS
    ensures var p := Staging([e]);
            var ws := Writes(p);
            && AllInRange(ws, Cuts(ws))
            && Leaves(cmd, d, s0, CutData(d, ws, Cuts(ws)), HistoryAfter(h, s0, p, Cuts(ws), pinned),
                      ResponseAt(p, Immediate([e]), s0, Cuts(ws), 0), pinned)
  {
    hide IsWrite, Accepted, ApplyOps, Cuts, CutData, HistoryAfter, ResponseAt, Leaves;
    AcceptedIff(e, cmd);
    AcceptedNotEmpty(e);
    var p := Staging([e]);
    var ws := Writes(p);
    assert p == [Some(cmd)] && ws == [CommandBatch(cmd)];
    OneCut(ws);
    assert Leaves(cmd, d, s0, CutData(d, ws, Cuts(ws)), HistoryAfter(h, s0, p, Cuts(ws), pinned),
                  ResponseAt(p, Immediate([e]), s0, Cuts(ws), 0), pinned) by {
      OneData(cmd, d);
      OneResponse(cmd, s0, Immediate([e]));
      OneRecord(cmd, s0, h, pinned);
      LeavesIs(cmd, d, s0, CutData(d, ws, Cuts(ws)), HistoryAfter(h, s0, p, Cuts(ws), pinned),
               ResponseAt(p, Immediate([e]), s0, Cuts(ws), 0), pinned);
    }
  }

  lemma LeavesIs(cmd: RaftCommand, d: Data, s0: nat, d': Data, h': seq<HistoryEntry>, r: Response, pinned: Option<nat>)
    requires var marker := s0 + |cmd.sets| + |cmd.dels|;
             && d' == CommitData(d, CommandBatch(cmd)) && r == Marker(marker)
             && (cmd.ssi.Some? && (pinned.Some? ==> pinned.value <= marker) ==>
                   HistoryEntry(marker, cmd.ssi.value) in h')
    ensures Leaves(cmd, d, s0, d', h', r, pinned)
  {
    hide ApplyOps;
  }

  lemma OneData(cmd: RaftCommand, d: Data)
    ensures var ws := [CommandBatch(cmd)]; CutData(d, ws, [Cut(0, 1)]) == CommitData(d, CommandBatch(cmd))
  {
    hide CommitData;
    var ws, cuts := [CommandBatch(cmd)], [Cut(0, 1)];
    assert cuts[..0] == [] && Slice(ws, Cut(0, 1)) == ws && ws[..0] == [];
    assert Merged(ws) == ws[0];
  }

  lemma OneMarker(cmd: RaftCommand, s0: nat)
    ensures CutMarker(s0, [CommandBatch(cmd)], [Cut(0, 1)], 0) == s0 + |cmd.sets| + |cmd.dels|
  {
    var ws, cuts := [CommandBatch(cmd)], [Cut(0, 1)];
    assert cuts[..0] == [] && Slice(ws, Cut(0, 1)) == ws && ws[..0] == [];
    assert OpsIn(ws) == OpsIn(ws[..0]) + ws[0].OpCount();
  }

  lemma OneResponse(cmd: RaftCommand, s0: nat, immediate: seq<Response>)
    requires |immediate| == 1
    ensures var p := [Some(cmd)];
            && Writes(p) == [CommandBatch(cmd)]
            && ResponseAt(p, immediate, s0, [Cut(0, 1)], 0) == Marker(s0 + |cmd.sets| + |cmd.dels|)
  {
    hide CutMarker;
    assert Writes([Some(cmd)]) == [CommandBatch(cmd)];
    OneMarker(cmd, s0);
  }

  lemma OneRecord(cmd: RaftCommand, s0: nat, h: seq<HistoryEntry>, pinned: Option<nat>)
    ensures var p, marker := [Some(cmd)], s0 + |cmd.sets| + |cmd.dels|;
            && Writes(p) == [CommandBatch(cmd)]
            && (cmd.ssi.Some? && (pinned.Some? ==> pinned.value <= marker) ==>
                  HistoryEntry(marker, cmd.ssi.value) in HistoryAfter(h, s0, p, [Cut(0, 1)], pinned))
  {
    hide CutMarker, HistoryAfter;
    var p, cuts := [Some(cmd)], [Cut(0, 1)];
    assert Writes(p) == [CommandBatch(cmd)];
    OneMarker(cmd, s0);
    if cmd.ssi.Some? {
      var x := HistoryEntry(s0 + |cmd.sets| + |cmd.dels|, cmd.ssi.value);
      assert RecordedBy(s0, p, cuts, x) by {
        assert 0 <= 0 < |cuts| && cuts[0].from <= 0 < cuts[0].to && Carrying(p[0], x.record);
      }
      HistoryIff(h, s0, p, cuts, pinned, x);
    }
  }

  lemma {:induction false} OneCut(ws: seq<WriteBatch>)
    requires |ws| == 1 && !ws[0].IsEmpty()
    ensures Cuts(ws) == [Cut(0, 1)] && OpsIn(ws) == ws[0].OpCount()
  {
    assert ws[..0] == [] && ws[0..0] == [] && ws[0..] == ws;
    assert StageCuts(ws, 0) == ([], 0);
    assert StageCuts(ws, 1) == ([], 0);
  }

  /** `SET k v` leaves the key holding the value. */
  lemma SetHolds(e: Entry, k: Key, v: string, d: Data)
    requires e.payload.Normal? && e.payload.decoded.None? && IsSet(e.payload.text, k, v) && !Reserved(k)
    ensures IsWrite(e, RaftCommand([(k, Value(v, 0))], [], None))
    ensures ApplyOps(d, SetOps([(k, Value(v, 0))]) + DelOps([])) == d[k := Value(v, 0)]
  {
    var ops := SetOps([(k, Value(v, 0))]) + DelOps([]);
    assert ops == [Set(k, Value(v, 0))] && ops[..0] == [];
    assert ApplyOps(d, ops[..0]) == d;
  }

  // ----- Which conflict records are kept -----

  /** A prune keeps what is not below the floor, as often as it was there. */
  lemma {:induction false} PruneKeeps(h: seq<HistoryEntry>, floor: nat, x: HistoryEntry)
    ensures multiset(Prune(h, floor))[x] == if x.commitSeq >= floor then multiset(h)[x] else 0
    ensures x in Prune(h, floor) <==> x in h && x.commitSeq >= floor
  {
    if h != [] {
      var n := |h| - 1;
      PruneKeeps(h[..n], floor, x);
      assert h == h[..n] + [h[n]];
    }
  }

  predicate Carrying(staged: Option<RaftCommand>, record: SsiRecord) {
    staged.Some? && staged.value.ssi == Some(record)
  }

  lemma RecordsSnoc(p: seq<Option<RaftCommand>>, marker: nat, x: HistoryEntry)
    requires p != []
    ensures var n := |p| - 1;
            x in Records(p, marker) <==>
            x in Records(p[..n], marker) || (x.commitSeq == marker && Carrying(p[n], x.record))
  {
  }

  lemma {:induction false} RecordsIff(p: seq<Option<RaftCommand>>, marker: nat, x: HistoryEntry)
    ensures x in Records(p, marker) <==>
            x.commitSeq == marker && exists j :: 0 <= j < |p| && Carrying(p[j], x.record)
  {
    hide Carrying;
    if p != [] {
      hide Records;
      var n := |p| - 1;
      RecordsIff(p[..n], marker, x);
      RecordsSnoc(p, marker, x);
      assert forall j | 0 <= j < n :: p[..n][j] == p[j];
    }
  }

  /** The conflict record of one of the commits' entries, at that commit's marker. */
  ghost predicate RecordedBy(s0: nat, p: seq<Option<RaftCommand>>, cuts: seq<Cut>, x: HistoryEntry)
    requires AllInRange(Writes(p), cuts)
  {
    exists c, j :: && 0 <= c < |cuts| && cuts[c].from <= j < cuts[c].to
                   && Carrying(p[j], x.record)
                   && x.commitSeq == CutMarker(s0, Writes(p), cuts, c)
  }

  lemma RecordedSnoc(s0: nat, p: seq<Option<RaftCommand>>, cuts: seq<Cut>, x: HistoryEntry)
    requires AllInRange(Writes(p), cuts) && cuts != []
    ensures var n := |cuts| - 1;
            RecordedBy(s0, p, cuts, x) <==>
            || RecordedBy(s0, p, cuts[..n], x)
            || x in Records(p[cuts[n].from..cuts[n].to], CutMarker(s0, Writes(p), cuts, n))
  {
    hide Records, OpsIn, SeqAfter;
    var n, ws := |cuts| - 1, Writes(p);
    var run := p[cuts[n].from..cuts[n].to];
    RecordsIff(run, CutMarker(s0, ws, cuts, n), x);
    forall c: nat | c < n
      ensures cuts[..n][c] == cuts[c] && CutMarker(s0, ws, cuts[..n], c) == CutMarker(s0, ws, cuts, c)
    {
      assert cuts[..n][..c] == cuts[..c];
    }
    if c, j :| && 0 <= c < |cuts| && cuts[c].from <= j < cuts[c].to && Carrying(p[j], x.record)
               && x.commitSeq == CutMarker(s0, ws, cuts, c) {
      if c < n {
        assert RecordedBy(s0, p, cuts[..n], x) by { assert cuts[..n][c].from <= j < cuts[..n][c].to; }
      } else {
        assert run[j - cuts[n].from] == p[j];
      }
    }
    if RecordedBy(s0, p, cuts[..n], x) {
      var c, j :| && 0 <= c < n && cuts[..n][c].from <= j < cuts[..n][c].to && Carrying(p[j], x.record)
                  && x.commitSeq == CutMarker(s0, ws, cuts[..n], c);
      assert cuts[c].from <= j < cuts[c].to;
    }
    if x in Records(run, CutMarker(s0, ws, cuts, n)) {
      var j :| 0 <= j < |run| && Carrying(run[j], x.record);
      assert cuts[n].from <= cuts[n].from + j < cuts[n].to && p[cuts[n].from + j] == run[j];
    }
  }

  lemma MarkersGrow(s0: nat, ws: seq<WriteBatch>, cuts: seq<Cut>)
    requires AllInRange(ws, cuts) && |cuts| > 1
    ensures CutMarker(s0, ws, cuts[..|cuts| - 1], |cuts| - 2) < CutMarker(s0, ws, cuts, |cuts| - 1)
  {
    hide OpsIn;
    var n := |cuts| - 1;
    var init := cuts[..n];
    assert init[..n - 1] == cuts[..n - 1] && init[n - 1] == cuts[n - 1];
  }

  /** After the commits, the history holds exactly the records not below the floor: the
      oldest open snapshot, or else the last marker. */
  lemma {:induction false} HistoryIff(h: seq<HistoryEntry>, s0: nat, p: seq<Option<RaftCommand>>, cuts: seq<Cut>,
                                      pinned: Option<nat>, x: HistoryEntry)
    requires AllInRange(Writes(p), cuts) && cuts != []
    ensures var floor := if pinned.Some? then pinned.value else CutMarker(s0, Writes(p), cuts, |cuts| - 1);
            x in HistoryAfter(h, s0, p, cuts, pinned) <==>
            x.commitSeq >= floor && (x in h || RecordedBy(s0, p, cuts, x))
  {
    hide Records, OpsIn, SeqAfter, Prune, RecordedBy, CutMarker, Writes;
    var n := |cuts| - 1;
    var init, marker := cuts[..n], CutMarker(s0, Writes(p), cuts, n);
    var before := HistoryAfter(h, s0, p, init, pinned);
    var added := Records(p[cuts[n].from..cuts[n].to], marker);
    PruneKeeps(before + added, if pinned.Some? then pinned.value else marker, x);
    RecordedSnoc(s0, p, cuts, x);
    if init != [] {
      HistoryIff(h, s0, p, init, pinned, x);
      MarkersGrow(s0, Writes(p), cuts);
    } else {
      assert !RecordedBy(s0, p, init, x) by { NothingRecorded(s0, p, x); }
    }
  }

  lemma NothingRecorded(s0: nat, p: seq<Option<RaftCommand>>, x: HistoryEntry)
    ensures !RecordedBy(s0, p, [], x)
  {
  }

  // ----- Staging one command -----

  /** Stages a command's sets and deletes one at a time; the batch's own cap is
      the only thing that can refuse one. */
  method Stage(batch: WriteBatch, cmd: RaftCommand) returns (r: Result<WriteBatch, BatchError>)
    requires batch.OpCount() <= MAX_OPS
    ensures r.Ok? <==> batch.OpCount() + CommandBatch(cmd).OpCount() <= MAX_OPS
    ensures r.Ok? ==> r.value == WriteBatch(batch.writes + cmd.sets, batch.deletes + cmd.dels)
  {
    var b := batch;
    for i := 0 to |cmd.sets|
      invariant b == WriteBatch(batch.writes + cmd.sets[..i], batch.deletes)
      invariant b.OpCount() <= MAX_OPS
    {
      var next := b.AddSet(cmd.sets[i].0, cmd.sets[i].1);
      if next.Err? {
        return Err(next.error);
      }
      b := next.value;
    }
    assert cmd.sets[..|cmd.sets|] == cmd.sets;
    for i := 0 to |cmd.dels|
      invariant b == WriteBatch(batch.writes + cmd.sets, batch.deletes + cmd.dels[..i])
      invariant b.OpCount() <= MAX_OPS
    {
      var next := b.AddDelete(cmd.dels[i]);
      if next.Err? {
        return Err(next.error);
      }
      b := next.value;
    }
    assert cmd.dels[..|cmd.dels|] == cmd.dels;
    return Ok(b);
  }

  // ----- Stamping the staged entries -----

  /** A staged entry's position in the responses and its conflict record. */
  type Slot = (nat, Option<SsiRecord>)

  function Slots(p: seq<Option<RaftCommand>>, from: nat, i: nat): (r: seq<Slot>)
    requires from <= i <= |p|
    ensures forall n | 0 <= n < |r| :: from <= r[n].0 < i
  {
    if i == from then []
    else
      match p[i - 1]
      case Some(cmd) => Slots(p, from, i - 1) + [(i - 1, cmd.ssi)]
      case None => Slots(p, from, i - 1)
  }

  function StampAll(res: seq<Response>, slots: seq<Slot>, marker: nat): (r: seq<Response>)
    requires forall n | 0 <= n < |slots| :: slots[n].0 < |res|
    ensures |r| == |res|
  {
    if slots == [] then res
    else StampAll(res, slots[..|slots| - 1], marker)[slots[|slots| - 1].0 := Marker(marker)]
  }

  function SlotRecords(slots: seq<Slot>, marker: nat): seq<HistoryEntry> {
    if slots == [] then []
    else
      SlotRecords(slots[..|slots| - 1], marker) +
      match slots[|slots| - 1].1
      case Some(rec) => [HistoryEntry(marker, rec)]
      case None => []
  }

  lemma {:induction false} StampedSlot(p: seq<Option<RaftCommand>>, from: nat, i: nat, res: seq<Response>,
                                       marker: nat, j: nat)
    requires from <= i <= |p| && i <= |res| && j < |res|
    ensures StampAll(res, Slots(p, from, i), marker)[j] ==
            if from <= j < i && p[j].Some? then Marker(marker) else res[j]
  {
    hide StampAll, Slots;
    if from < i {
      StampedSlot(p, from, i - 1, res, marker, j);
      SlotsSnoc(p, from, i - 1);
      if p[i - 1].Some? {
        StampSnoc(res, Slots(p, from, i - 1), (i - 1, p[i - 1].value.ssi), marker);
      } else {
        assert Slots(p, from, i - 1) + [] == Slots(p, from, i - 1);
      }
    } else {
      NoSlots(p, from, res, marker);
    }
  }

  lemma StampSnoc(res: seq<Response>, slots: seq<Slot>, slot: Slot, marker: nat)
    requires slot.0 < |res| && forall n | 0 <= n < |slots| :: slots[n].0 < |res|
    ensures StampAll(res, slots + [slot], marker) == StampAll(res, slots, marker)[slot.0 := Marker(marker)]
  {
    assert (slots + [slot])[..|slots|] == slots;
  }

  lemma NoSlots(p: seq<Option<RaftCommand>>, from: nat, res: seq<Response>, marker: nat)
    requires from <= |p|
    ensures Slots(p, from, from) == [] && StampAll(res, [], marker) == res
  {
  }

  lemma {:induction false} RecordedSlots(p: seq<Option<RaftCommand>>, from: nat, i: nat, marker: nat)
    requires from <= i <= |p|
    ensures SlotRecords(Slots(p, from, i), marker) == Records(p[from..i], marker)
  {
    if from < i {
      RecordedSlots(p, from, i - 1, marker);
      var run := p[from..i];
      assert run[..|run| - 1] == p[from..i - 1] && run[|run| - 1] == p[i - 1];
      if p[i - 1].Some? {
        var slots := Slots(p, from, i);
        assert slots[..|slots| - 1] == Slots(p, from, i - 1);
      }
    }
  }

  /** Stamps every slot with the marker and collects the conflict records. */
  method StampSlots(res: seq<Response>, slots: seq<Slot>, marker: nat)
    returns (stamped: seq<Response>, records: seq<HistoryEntry>)
    requires forall n | 0 <= n < |slots| :: slots[n].0 < |res|
    ensures stamped == StampAll(res, slots, marker)
    ensures records == SlotRecords(slots, marker)
  {
    stamped, records := res, [];
    for i := 0 to |slots|
      invariant stamped == StampAll(res, slots[..i], marker)
      invariant records == SlotRecords(slots[..i], marker)
    {
      assert slots[..i + 1][..i] == slots[..i];
      stamped := stamped[slots[i].0 := Marker(marker)];
      if slots[i].1.Some? {
        records := records + [HistoryEntry(marker, slots[i].1.value)];
      }
    }
    assert slots[..|slots|] == slots;
  }

  // ----- The loop's progress, as a relation on values -----

  /** What one call starts from: the staged commands, the responses of entries
      that stage nothing, and the node's data, sequence and history. */
  datatype Call = Call(p: seq<Option<RaftCommand>>, immediate: seq<Response>,
                       d0: Data, s0: nat, h0: seq<HistoryEntry>, pinned: Option<nat>)

  datatype Loop = Loop(data: Data, nextSeq: nat, history: seq<HistoryEntry>,
                       batch: WriteBatch, slots: seq<Slot>, res: seq<Response>)

  /** The node's state after the commits `cuts`. */
  ghost predicate Committed(call: Call, cuts: seq<Cut>, data: Data, nextSeq: nat, history: seq<HistoryEntry>)
    requires AllInRange(Writes(call.p), cuts)
  {
    && data == CutData(call.d0, Writes(call.p), cuts)
    && nextSeq == SeqAfter(call.s0, Writes(call.p), cuts)
    && history == HistoryAfter(call.h0, call.s0, call.p, cuts, call.pinned)
  }

  ghost predicate Progress(call: Call, i: nat, st: Loop)
    requires |call.immediate| == |call.p| && i <= |call.p|
  {
    var ws := Writes(call.p);
    var (done, from) := StageCuts(ws, i);
    && GoodCuts(ws, done, from)
    && Committed(call, done, st.data, st.nextSeq, st.history)
    && st.batch == Merged(ws[from..i]) && st.batch.OpCount() <= MAX_OPS
    && st.slots == Slots(call.p, from, i)
    && Stamped(call.p, call.immediate, call.s0, done, i, st.res)
  }

  /** One more commit. */
  lemma CommittedSnoc(call: Call, cuts: seq<Cut>, c: Cut, data: Data, nextSeq: nat, history: seq<HistoryEntry>)
    requires AllInRange(Writes(call.p), cuts + [c]) && AllInRange(Writes(call.p), cuts) && InRange(Writes(call.p), c)
    requires Committed(call, cuts, data, nextSeq, history)
    ensures var batch := Merged(Slice(Writes(call.p), c));
            var marker := nextSeq + batch.OpCount();
            && CutMarker(call.s0, Writes(call.p), cuts + [c], |cuts|) == marker
            && Committed(call, cuts + [c], CommitData(data, batch), marker + 1,
                         Prune(history + Records(call.p[c.from..c.to], marker),
                               if call.pinned.Some? then call.pinned.value else marker))
  {
    hide Merged, OpsIn, Prune, Records, CommitData, Writes;
    var all := cuts + [c];
    assert all[|all| - 1] == c && all[..|all| - 1] == cuts;
    MergedOpCount(Slice(Writes(call.p), c));
  }

  /** Stamping the staged entries completes the responses of the new commit. */
  lemma StampedSnoc(call: Call, cuts: seq<Cut>, from: nat, i: nat, res: seq<Response>, marker: nat)
    requires |call.immediate| == |call.p| && from < i <= |call.p|
    requires AllInRange(Writes(call.p), cuts) && Stamped(call.p, call.immediate, call.s0, cuts, i, res)
    requires AllInRange(Writes(call.p), cuts + [Cut(from, i)])
    requires CutMarker(call.s0, Writes(call.p), cuts + [Cut(from, i)], |cuts|) == marker
    ensures Stamped(call.p, call.immediate, call.s0, cuts + [Cut(from, i)], i,
                    StampAll(res, Slots(call.p, from, i), marker))
  {
    var all, out := cuts + [Cut(from, i)], StampAll(res, Slots(call.p, from, i), marker);
    assert all[..|all| - 1] == cuts && all[|all| - 1] == Cut(from, i);
    forall j | 0 <= j < i ensures out[j] == ResponseAt(call.p, call.immediate, call.s0, all, j) {
      StampedSlot(call.p, from, i, res, marker, j);
    }
  }

  /** An entry that stages nothing, or one that joins the staged batch. */
  lemma ReadJoins(call: Call, i: nat, st: Loop, batch: WriteBatch, slots: seq<Slot>, r: Response)
    requires |call.immediate| == |call.p| && i < |call.p| && Progress(call, i, st)
    requires Joins(st.batch.OpCount(), Writes(call.p)[i])
    requires batch == WriteBatch(st.batch.writes + Writes(call.p)[i].writes,
                                 st.batch.deletes + Writes(call.p)[i].deletes)
    requires batch.OpCount() <= MAX_OPS
    requires slots == st.slots + (if call.p[i].Some? then [(i, call.p[i].value.ssi)] else [])
    requires r == if call.p[i].Some? then Pending else call.immediate[i]
    ensures Progress(call, i + 1, st.(batch := batch, slots := slots, res := st.res + [r]))
  {
    hide Merged, OpsIn, StageCuts, Slots, Committed, ResponseAt, WithinCap, Writes;
    var ws := Writes(call.p);
    var (done, from) := StageCuts(ws, i);
    MergedOpCount(ws[from..i]);
    StageStep(ws, from, i);
    StageJoins(ws, i);
    SlotsSnoc(call.p, from, i);
    NotYetStamped(call, done, from, i);
  }

  lemma StageJoins(ws: seq<WriteBatch>, i: nat)
    requires i < |ws| && Joins(OpsIn(ws[StageCuts(ws, i).1..i]), ws[i])
    ensures StageCuts(ws, i + 1) == StageCuts(ws, i)
  {
    hide OpsIn;
  }

  lemma StageFlushes(ws: seq<WriteBatch>, i: nat)
    requires i < |ws| && !Joins(OpsIn(ws[StageCuts(ws, i).1..i]), ws[i])
    ensures StageCuts(ws, i + 1) == (StageCuts(ws, i).0 + [Cut(StageCuts(ws, i).1, i)], i)
  {
    hide OpsIn;
  }

  lemma SlotsSnoc(p: seq<Option<RaftCommand>>, from: nat, i: nat)
    requires from <= i < |p|
    ensures Slots(p, from, i + 1) == Slots(p, from, i) + (if p[i].Some? then [(i, p[i].value.ssi)] else [])
  {
  }

  lemma {:induction false} NotYetStamped(call: Call, cuts: seq<Cut>, end: nat, j: nat)
    requires |call.immediate| == |call.p| && j < |call.p|
    requires AllInRange(Writes(call.p), cuts) && Tiles(Writes(call.p), cuts) && CutsEnd(cuts) <= end <= j
    ensures ResponseAt(call.p, call.immediate, call.s0, cuts, j) ==
            if call.p[j].Some? then Pending else call.immediate[j]
  {
    if cuts != [] {
      var n := |cuts| - 1;
      if n > 0 {
        CutsBelow(Writes(call.p), cuts, n - 1, n);
      }
      NotYetStamped(call, cuts[..n], end, j);
    }
  }

  lemma NothingStaged(ws: seq<WriteBatch>, from: nat, i: nat)
    requires from <= i <= |ws| && !Merged(ws[from..i]).IsEmpty()
    ensures from < i
  {
  }

  /** The staged entries are committed. */
  lemma FlushCommits(call: Call, i: nat, st: Loop, stamped: seq<Response>, history: seq<HistoryEntry>)
    requires |call.immediate| == |call.p| && i <= |call.p| && Progress(call, i, st)
    requires !st.batch.IsEmpty()
    requires var marker := st.nextSeq + st.batch.OpCount();
             && stamped == StampAll(st.res, st.slots, marker)
             && history == Prune(st.history + SlotRecords(st.slots, marker),
                                 if call.pinned.Some? then call.pinned.value else marker)
    ensures var (done, from) := StageCuts(Writes(call.p), i);
            && from < i && GoodCuts(Writes(call.p), done + [Cut(from, i)], i)
            && Committed(call, done + [Cut(from, i)], CommitData(st.data, st.batch),
                         st.nextSeq + st.batch.OpCount() + 1, history)
            && Stamped(call.p, call.immediate, call.s0, done + [Cut(from, i)], i, stamped)
  {
    hide Merged, OpsIn, StageCuts, Slots, Committed, Stamped, WithinCap, SlotRecords, StampAll, Prune, Records,
         CommitData;
    var ws := Writes(call.p);
    var (done, from) := StageCuts(ws, i);
    MergedOpCount(ws[from..i]);
    NothingStaged(ws, from, i);
    GoodCutsSnoc(ws, done, Cut(from, i));
    var marker := st.nextSeq + st.batch.OpCount();
    RecordedSlots(call.p, from, i, marker);
    CommittedSnoc(call, done, Cut(from, i), st.data, st.nextSeq, st.history);
    StampedSnoc(call, done, from, i, st.res, marker);
  }

  /** After a flush in front of entry `i`, the entry starts a new batch. */
  lemma ReadAfterFlush(call: Call, i: nat, st: Loop, stamped: seq<Response>, history: seq<HistoryEntry>)
    requires |call.immediate| == |call.p| && i < |call.p| && Progress(call, i, st)
    requires !Joins(st.batch.OpCount(), Writes(call.p)[i]) && Writes(call.p)[i].OpCount() <= MAX_OPS
    requires call.p[i].Some?
    requires var marker := st.nextSeq + st.batch.OpCount();
             && stamped == StampAll(st.res, st.slots, marker)
             && history == Prune(st.history + SlotRecords(st.slots, marker),
                                 if call.pinned.Some? then call.pinned.value else marker)
    ensures Progress(call, i + 1,
                     Loop(CommitData(st.data, st.batch), st.nextSeq + st.batch.OpCount() + 1, history,
                          Writes(call.p)[i], [(i, call.p[i].value.ssi)], stamped + [Pending]))
  {
    hide Merged, OpsIn, StageCuts, Slots, Committed, WithinCap, SlotRecords, StampAll, Prune, Records, CommitData,
         ResponseAt;
    var ws := Writes(call.p);
    var (done, from) := StageCuts(ws, i);
    MergedOpCount(ws[from..i]);
    NewBatch(call.p, i);
    FlushCommits(call, i, st, stamped, history);
    NotYetStamped(call, done + [Cut(from, i)], i, i);
  }

  lemma NewBatch(p: seq<Option<RaftCommand>>, i: nat)
    requires i < |p| && p[i].Some?
    ensures var ws := Writes(p);
            var (done, from) := StageCuts(ws, i);
            && Merged(ws[i..i + 1]) == ws[i]
            && (!Joins(OpsIn(ws[from..i]), ws[i]) ==> StageCuts(ws, i + 1) == (done + [Cut(from, i)], i))
    ensures Slots(p, i, i + 1) == [(i, p[i].value.ssi)]
  {
    hide StageCuts, OpsIn, Writes;
    var ws := Writes(p);
    StageStep(ws, i, i);
    assert ws[i..i] == [];
    assert Merged(ws[i..i]) == EMPTY_BATCH;
    if !Joins(OpsIn(ws[StageCuts(ws, i).1..i]), ws[i]) {
      StageFlushes(ws, i);
    }
    SlotsSnoc(p, i, i);
  }

  lemma ProgressStart(call: Call)
    requires |call.immediate| == |call.p|
    ensures Progress(call, 0, Loop(call.d0, call.s0, call.h0, EMPTY_BATCH, [], []))
  {
    assert Writes(call.p)[0..0] == [];
  }

  /** After the final flush, the commits are exactly `Cuts`. */
  lemma ProgressEnd(call: Call, st: Loop, data: Data, nextSeq: nat, history: seq<HistoryEntry>, stamped: seq<Response>)
    requires |call.immediate| == |call.p| && Progress(call, |call.p|, st)
    requires st.batch.IsEmpty() ==>
               data == st.data && nextSeq == st.nextSeq && history == st.history && stamped == st.res
    requires !st.batch.IsEmpty() ==>
               var marker := st.nextSeq + st.batch.OpCount();
               && data == CommitData(st.data, st.batch) && nextSeq == marker + 1
               && stamped == StampAll(st.res, st.slots, marker)
               && history == Prune(st.history + SlotRecords(st.slots, marker),
                                   if call.pinned.Some? then call.pinned.value else marker)
    ensures AllInRange(Writes(call.p), Cuts(Writes(call.p)))
    ensures Committed(call, Cuts(Writes(call.p)), data, nextSeq, history)
    ensures Stamped(call.p, call.immediate, call.s0, Cuts(Writes(call.p)), |call.p|, stamped)
  {
    hide Merged, OpsIn, StageCuts, Slots, Committed, Stamped, WithinCap, SlotRecords, StampAll, Prune, Records,
         CommitData;
    var ws := Writes(call.p);
    var (done, from) := StageCuts(ws, |ws|);
    assert ws[from..|ws|] == ws[from..];
    MergedOpCount(ws[from..]);
    if !st.batch.IsEmpty() {
      FlushCommits(call, |call.p|, st, stamped, history);
    }
  }

  /** The first oversized command: everything before it is committed. */
  lemma ProgressTooLarge(call: Call, i: nat, st: Loop)
    requires |call.immediate| == |call.p| && i < |call.p| && Progress(call, i, st)
    ensures Tiles(Writes(call.p), Cuts(Writes(call.p)[..i]))
    ensures Committed(call, Cuts(Writes(call.p)[..i]),
                      if st.batch.IsEmpty() then st.data else CommitData(st.data, st.batch),
                      if st.batch.IsEmpty() then st.nextSeq else st.nextSeq + st.batch.OpCount() + 1,
                      if st.batch.IsEmpty() then st.history
                      else Prune(st.history + SlotRecords(st.slots, st.nextSeq + st.batch.OpCount()),
                                 if call.pinned.Some? then call.pinned.value else st.nextSeq + st.batch.OpCount()))
  {
    hide Merged, OpsIn, StageCuts, Slots, Committed, WithinCap, SlotRecords, StampAll, Prune, Records, CommitData;
    var ws := Writes(call.p);
    StageCutsPrefix(ws, i, i);
    var (done, from) := StageCuts(ws, i);
    assert ws[..i][from..] == ws[from..i];
    MergedOpCount(ws[from..i]);
    if !st.batch.IsEmpty() {
      var marker := st.nextSeq + st.batch.OpCount();
      FlushCommits(call, i, st, StampAll(st.res, st.slots, marker),
                   Prune(st.history + SlotRecords(st.slots, marker),
                         if call.pinned.Some? then call.pinned.value else marker));
    }
  }

  lemma {:induction false} StageCutsPrefix(ws: seq<WriteBatch>, e: nat, i: nat)
    requires i <= e <= |ws|
    ensures StageCuts(ws[..e], i) == StageCuts(ws, i)
  {
    if i > 0 {
      StageCutsPrefix(ws, e, i - 1);
      var from := StageCuts(ws, i - 1).1;
      assert ws[..e][from..i - 1] == ws[from..i - 1];
    }
  }

  /** One node's applied state. */
  class StateMachine {
    const db: Engine
    var history: seq<HistoryEntry>
    var meta: Meta
    var savedMeta: Meta
    // The oldest read snapshot still held open, if any.
    var oldestSnapshot: Option<nat>

    ghost predicate Valid()
      reads this, db
    {
      db.Valid()
    }

    constructor (engine: Engine)
      requires engine.Valid()
      ensures Valid() && db == engine && history == [] && meta == savedMeta == Meta(None, None)
      ensures oldestSnapshot == None
    {
      db := engine;
      history, oldestSnapshot := [], None;
      meta, savedMeta := Meta(None, None), Meta(None, None);
    }

    /** Commits the staged batch, stamps its slots with the commit marker and
        records their conflict records at it; the commit and the records happen
        under one shared lock. */
    method Flush(batch: WriteBatch, slots: seq<Slot>, res: seq<Response>) returns (stamped: seq<Response>)
      requires Valid()
      requires forall n | 0 <= n < |slots| :: slots[n].0 < |res|
      modifies this`history, db
      ensures Valid()
      ensures batch.IsEmpty() ==> stamped == res && history == old(history) && unchanged(db)
      ensures !batch.IsEmpty() ==>
                && db.Contents() == CommitData(old(db.Contents()), batch)
                && db.nextSeq == old(db.nextSeq) + batch.OpCount() + 1
                && stamped == StampAll(res, slots, db.nextSeq - 1)
                && history == Prune(old(history) + SlotRecords(slots, db.nextSeq - 1),
                                    if oldestSnapshot.Some? then oldestSnapshot.value else db.nextSeq - 1)
    {
      if batch.IsEmpty() {
        return res;
      }
      var marker := db.Commit(batch);
      var records;
      stamped, records := StampSlots(res, slots, marker);
      history := history + records;
      history := Prune(history, if oldestSnapshot.Some? then oldestSnapshot.value else db.nextSeq - 1);
    }

    /** Writes the applied pointer in a commit of its own. */
    method SaveMeta(m: Meta)
      requires Valid()
      modifies this`meta, this`savedMeta, db
      ensures Valid() && meta == savedMeta == m
      ensures db.Contents() == old(db.Contents()) && db.nextSeq == old(db.nextSeq) + 2
    {
      meta := m;
      savedMeta := meta;
      db.nextSeq := db.nextSeq + 2;
    }

    /** Commits one batch that may exceed the cap, in capped chunks: all sets in
        order, then all deletes. */
    method CommitChunked(batch: WriteBatch)
      requires Valid()
      modifies db
      ensures Valid() && db.Contents() == CommitData(old(db.Contents()), batch)
      ensures batch.OpCount() <= MAX_OPS ==> db.nextSeq == old(db.nextSeq) + batch.OpCount() + 1
    {
      if batch.OpCount() <= MAX_OPS {
        var _ := db.Commit(batch);
        return;
      }
      ghost var d0 := db.Contents();
      var chunk := EMPTY_BATCH;
      for i := 0 to |batch.writes|
        invariant Valid() && chunk.OpCount() <= MAX_OPS && chunk.deletes == []
        invariant CommitData(db.Contents(), chunk) == ApplyOps(d0, SetOps(batch.writes[..i]))
      {
        if chunk.OpCount() >= MAX_OPS {
          var _ := db.Commit(chunk);
          chunk := EMPTY_BATCH;
          assert BatchOps(EMPTY_BATCH) == [];
        }
        ChunkAddSet(db.Contents(), d0, chunk, batch.writes, i);
        chunk := chunk.AddSet(batch.writes[i].0, batch.writes[i].1).value;
      }
      assert batch.writes[..|batch.writes|] == batch.writes;
      assert batch.deletes[..0] == [];
      assert SetOps(batch.writes) + DelOps([]) == SetOps(batch.writes);
      for i := 0 to |batch.deletes|
        invariant Valid() && chunk.OpCount() <= MAX_OPS
        invariant CommitData(db.Contents(), chunk) == ApplyOps(d0, SetOps(batch.writes) + DelOps(batch.deletes[..i]))
      {
        if chunk.OpCount() >= MAX_OPS {
          var _ := db.Commit(chunk);
          chunk := EMPTY_BATCH;
          assert BatchOps(EMPTY_BATCH) == [];
        }
        ChunkAddDelete(db.Contents(), d0, chunk, batch, i);
        chunk := chunk.AddDelete(batch.deletes[i]).value;
      }
      assert batch.deletes[..|batch.deletes|] == batch.deletes;
      if !chunk.IsEmpty() {
        var _ := db.Commit(chunk);
      } else {
        assert BatchOps(chunk) == [];
      }
    }

    /** The loop's values together with this node's state. */
    ghost function At(batch: WriteBatch, slots: seq<Slot>, res: seq<Response>): Loop
      reads this, db
    {
      Loop(db.Contents(), db.nextSeq, history, batch, slots, res)
    }

    /** Reads entry `i`: flushes the staged batch first if the entry would fill
        it, then stages the entry. */
    method ReadEntry(ghost call: Call, ghost i: nat, e: Entry, batch: WriteBatch, slots: seq<Slot>, res: seq<Response>)
      returns (r: Result<(WriteBatch, seq<Slot>, seq<Response>), BatchError>)
      requires Valid() && |call.immediate| == |call.p| && i < |call.p| && call.pinned == oldestSnapshot
      requires call.p[i] == Accepted(e) && call.immediate[i] == ImmediateResponse(e)
      requires Progress(call, i, At(batch, slots, res))
      modifies this`history, db
      ensures Valid()
      ensures r.Ok? <==> Writes(call.p)[i].OpCount() <= MAX_OPS
      ensures r.Ok? ==> Progress(call, i + 1, At(r.value.0, r.value.1, r.value.2))
      ensures r.Err? ==>
                && Tiles(Writes(call.p), Cuts(Writes(call.p)[..i]))
                && db.Contents() == CutData(call.d0, Writes(call.p), Cuts(Writes(call.p)[..i]))
    {
      hide Progress, Merged, OpsIn, StageCuts, Cuts, CutData, Slots, Accepted, StampAll, SlotRecords, Prune,
           CommitData, Tiles;
      ghost var st := At(batch, slots, res);
      ProgressFacts(call, i, st);
      AcceptedNotEmpty(e);
      var staged := Accepted(e);
      if staged.None? {
        ReadJoins(call, i, st, batch, slots, ImmediateResponse(e));
        return Ok((batch, slots, res + [ImmediateResponse(e)]));
      }
      if !batch.IsEmpty() && batch.OpCount() + CommandBatch(staged.value).OpCount() >= MAX_OPS {
        var stamped := Flush(batch, slots, res);
        var next := Stage(EMPTY_BATCH, staged.value);
        if next.Err? {
          ProgressTooLarge(call, i, st);
          return Err(next.error);
        }
        ReadAfterFlush(call, i, st, stamped, history);
        assert next.value == CommandBatch(staged.value);
        return Ok((next.value, [(|stamped|, staged.value.ssi)], stamped + [Pending]));
      }
      var next := Stage(batch, staged.value);
      if next.Err? {
        ProgressTooLarge(call, i, st);
        return Err(next.error);
      }
      ReadJoins(call, i, st, next.value, slots + [(|res|, staged.value.ssi)], Pending);
      return Ok((next.value, slots + [(|res|, staged.value.ssi)], res + [Pending]));
    }

    /** Applies a run of log entries.  It fails exactly when some accepted
        command exceeds the cap by itself; then everything before that command
        is committed and the applied pointer does not move. */
    method Apply(entries: seq<Entry>) returns (r: Result<seq<Response>, BatchError>)
      requires Valid()
      modifies this, db
      ensures Valid() && oldestSnapshot == old(oldestSnapshot)
      ensures r.Ok? <==> EachFits(Writes(Staging(entries)))
      ensures r.Ok? ==>
                var p := Staging(entries);
                var ws := Writes(p);
                && Tiles(ws, Cuts(ws))
                && db.Contents() == CutData(old(db.Contents()), ws, Cuts(ws))
                && db.nextSeq == SeqAfter(old(db.nextSeq), ws, Cuts(ws)) + (if entries == [] then 1 else 2)
                && history == HistoryAfter(old(history), old(db.nextSeq), p, Cuts(ws), oldestSnapshot)
                && Stamped(p, Immediate(entries), old(db.nextSeq), Cuts(ws), |entries|, r.value)
                && |r.value| == |entries| && (forall j | 0 <= j < |entries| :: Answers(entries[j], r.value[j]))
                && Carries(entries, ws)
                && meta == MetaAfter(old(meta), entries)
                && savedMeta == (if entries == [] then old(savedMeta) else meta)
      ensures forall cmd | |entries| == 1 && IsWrite(entries[0], cmd) ::
                && (r.Ok? <==> |cmd.sets| + |cmd.dels| <= MAX_OPS)
                && (r.Ok? ==> Leaves(cmd, old(db.Contents()), old(db.nextSeq), db.Contents(), history, r.value[0],
                                     oldestSnapshot))
      ensures r.Err? ==>
                var ws := Writes(Staging(entries));
                && meta == old(meta) && savedMeta == old(savedMeta)
                && exists e: nat :: && FirstTooLarge(ws, e) && Tiles(ws, Cuts(ws[..e]))
                                    && db.Contents() == CutData(old(db.Contents()), ws, Cuts(ws[..e]))
    {
      var next := NextMeta(meta, entries);
      hide IsWrite, Accepted, Answers, Leaves, CutData, Cuts, SeqAfter, HistoryAfter, ResponseAt;
      r := ApplyData(entries);
      forall cmd | |entries| == 1 && IsWrite(entries[0], cmd)
        ensures r.Ok? <==> |cmd.sets| + |cmd.dels| <= MAX_OPS
        ensures r.Ok? ==> Leaves(cmd, old(db.Contents()), old(db.nextSeq), db.Contents(), history, r.value[0],
                                 oldestSnapshot)
      {
        assert entries == [entries[0]];
        OneEntry(entries[0], cmd, old(db.Contents()), old(db.nextSeq), old(history), oldestSnapshot);
      }
      if r.Err? {
        return;
      }
      StampedAnswers(entries, old(db.nextSeq), r.value);
      StagingCarries(entries);
      if entries != [] {
        SaveMeta(next);
      } else {
        CommitChunked(EMPTY_BATCH);
        assert BatchOps(EMPTY_BATCH) == [];
      }
    }

    /** The data part of an apply: everything except the applied pointer. */
    method ApplyData(entries: seq<Entry>) returns (r: Result<seq<Response>, BatchError>)
      requires Valid()
      modifies this`history, db
      ensures Valid()
      ensures r.Ok? <==> EachFits(Writes(Staging(entries)))
      ensures r.Ok? ==>
                var p := Staging(entries);
                var ws := Writes(p);
                && Tiles(ws, Cuts(ws))
                && db.Contents() == CutData(old(db.Contents()), ws, Cuts(ws))
                && db.nextSeq == SeqAfter(old(db.nextSeq), ws, Cuts(ws))
                && history == HistoryAfter(old(history), old(db.nextSeq), p, Cuts(ws), oldestSnapshot)
                && Stamped(p, Immediate(entries), old(db.nextSeq), Cuts(ws), |entries|, r.value)
      ensures r.Err? ==>
                var ws := Writes(Staging(entries));
                exists e: nat :: && FirstTooLarge(ws, e) && Tiles(ws, Cuts(ws[..e]))
                                 && db.Contents() == CutData(old(db.Contents()), ws, Cuts(ws[..e]))
    {
      hide Progress, Merged, OpsIn, StageCuts, Cuts, CutData, SeqAfter, HistoryAfter, ResponseAt, Slots, Accepted;
      ghost var p := Staging(entries);
      ghost var ws := Writes(p);
      ghost var call := Call(p, Immediate(entries), db.Contents(), db.nextSeq, history, oldestSnapshot);
      var batch, slots: seq<Slot>, res := EMPTY_BATCH, [], [];
      ProgressStart(call);
      for i := 0 to |entries|
        invariant Valid()
        invariant forall j | 0 <= j < i :: ws[j].OpCount() <= MAX_OPS
        invariant Progress(call, i, At(batch, slots, res))
      {
        var next := ReadEntry(call, i, entries[i], batch, slots, res);
        if next.Err? {
          assert FirstTooLarge(ws, i);
          return Err(next.error);
        }
        batch, slots, res := next.value.0, next.value.1, next.value.2;
      }
      ghost var st := At(batch, slots, res);
      ProgressFacts(call, |entries|, st);
      res := Flush(batch, slots, res);
      ProgressEnd(call, st, db.Contents(), db.nextSeq, history, res);
      CutsWellFormed(ws);
      return Ok(res);
    }
  }

  /** The pointer and membership the run of entries leaves. */
  method NextMeta(m: Meta, es: seq<Entry>) returns (next: Meta)
    ensures next == MetaAfter(m, es)
  {
    next := m;
    for i := 0 to |es|
      invariant next == MetaAfter(m, es[..i])
    {
      MetaStep(m, es, i);
      next := next.(lastApplied := Some(es[i].id));
      if es[i].payload.Membership? {
        next := next.(membership := Some((es[i].id, es[i].payload.nodes)));
      }
    }
    assert es[..|es|] == es;
  }

  lemma ChunkAddSet(d: Data, d0: Data, chunk: WriteBatch, writes: seq<(Key, Value)>, i: nat)
    requires chunk.OpCount() < MAX_OPS && chunk.deletes == [] && i < |writes|
    requires CommitData(d, chunk) == ApplyOps(d0, SetOps(writes[..i]))
    ensures CommitData(d, chunk.AddSet(writes[i].0, writes[i].1).value) == ApplyOps(d0, SetOps(writes[..i + 1]))
  {
    hide ApplyOps;
    var op := Set(writes[i].0, writes[i].1);
    ApplyOpsSnoc(d, BatchOps(chunk), op);
    ApplyOpsSnoc(d0, SetOps(writes[..i]), op);
    assert BatchOps(chunk.AddSet(writes[i].0, writes[i].1).value) == BatchOps(chunk) + [op];
    assert SetOps(writes[..i + 1]) == SetOps(writes[..i]) + [op];
  }

  lemma ChunkAddDelete(d: Data, d0: Data, chunk: WriteBatch, batch: WriteBatch, i: nat)
    requires chunk.OpCount() < MAX_OPS && i < |batch.deletes|
    requires CommitData(d, chunk) == ApplyOps(d0, SetOps(batch.writes) + DelOps(batch.deletes[..i]))
    ensures CommitData(d, chunk.AddDelete(batch.deletes[i]).value) ==
            ApplyOps(d0, SetOps(batch.writes) + DelOps(batch.deletes[..i + 1]))
  {
    hide ApplyOps;
    var op := Del(batch.deletes[i]);
    ApplyOpsSnoc(d, BatchOps(chunk), op);
    ApplyOpsSnoc(d0, SetOps(batch.writes) + DelOps(batch.deletes[..i]), op);
    assert BatchOps(chunk.AddDelete(batch.deletes[i]).value) == BatchOps(chunk) + [op];
    assert SetOps(batch.writes) + DelOps(batch.deletes[..i + 1]) ==
           SetOps(batch.writes) + DelOps(batch.deletes[..i]) + [op];
  }

  lemma MetaStep(m: Meta, es: seq<Entry>, i: nat)
    requires i < |es|
    ensures var before := MetaAfter(m, es[..i]);
            MetaAfter(m, es[..i + 1]) ==
            Meta(Some(es[i].id),
                 if es[i].payload.Membership? then Some((es[i].id, es[i].payload.nodes)) else before.membership)
  {
    assert es[..i + 1][..i] == es[..i];
  }

  lemma AcceptedNotEmpty(e: Entry)
    ensures Accepted(e).Some? ==> !CommandBatch(Accepted(e).value).IsEmpty()
  {
  }

  /** What the method needs to see of the loop state. */
  lemma ProgressFacts(call: Call, i: nat, st: Loop)
    requires |call.immediate| == |call.p| && i <= |call.p| && Progress(call, i, st)
    ensures |st.res| == i && st.batch.OpCount() <= MAX_OPS
    ensures forall n | 0 <= n < |st.slots| :: st.slots[n].0 < |st.res|
  {
  }
}
