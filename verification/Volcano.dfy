/** Operator pipelines pulled a row or a chunk at a time. */
module Volcano {
  import opened Basics

  /** An operator with the rows it still holds. `Buffered` copies slices out of
      its buffer; `RowAtATime` has only the row-by-row primitive. */
  datatype Iter<!T> =
    | Buffered(rows: seq<T>, pos: nat)
    | RowAtATime(rows: seq<T>, pos: nat)
    | Where(child: Iter<T>, keep: T -> bool)
    | Project(child: Iter<T>, f: T -> T)
    | Limit(child: Iter<T>, limit: nat, emitted: nat)

  function Depth<T>(it: Iter<T>): nat {
    match it
    case Buffered(_, _) => 0
    case RowAtATime(_, _) => 0
    case Where(child, _) => 1 + Depth(child)
    case Project(child, _) => 1 + Depth(child)
    case Limit(child, _, _) => 1 + Depth(child)
  }

  function Mapped<T>(f: T -> T, s: seq<T>): seq<T> {
    seq(|s|, i requires 0 <= i < |s| => f(s[i]))
  }

  function Prefix<T>(s: seq<T>, n: nat): seq<T> {
    if n <= |s| then s[..n] else s
  }

  function Suffix<T>(s: seq<T>, n: nat): seq<T> {
    if n <= |s| then s[n..] else []
  }

  /** The rows an operator still has to give, in order. */
  function Rest<T>(it: Iter<T>): seq<T> {
    match it
    case Buffered(rows, pos) => Suffix(rows, pos)
    case RowAtATime(rows, pos) => Suffix(rows, pos)
    case Where(child, keep) => Filter(keep, Rest(child))
    case Project(child, f) => Mapped(f, Rest(child))
    case Limit(child, limit, emitted) => Prefix(Rest(child), if emitted < limit then limit - emitted else 0)
  }

  lemma FilterFront<T>(p: T -> bool, x: T, s: seq<T>)
    ensures Filter(p, [x] + s) == (if p(x) then [x] else []) + Filter(p, s)
  {
    FilterConcat(p, [x], s);
  }

  lemma FilterLength<T>(p: T -> bool, s: seq<T>)
    ensures |Filter(p, s)| <= |s|
  {
    if s != [] {
      FilterLength(p, s[..|s| - 1]);
    }
  }

  /** The first of the remaining rows, if any, and what remains after it. */
  ghost predicate IsNext<T>(rest: seq<T>, r: Option<T>, left: seq<T>) {
    if r.None? then rest == [] && left == [] else rest == [r.value] + left
  }

  method NextRow<T>(it: Iter<T>) returns (r: Option<T>, after: Iter<T>)
    ensures Depth(after) == Depth(it)
    ensures IsNext(Rest(it), r, Rest(after))
    decreases Depth(it), 1
  {
    hide Filter, Mapped, Prefix, IsNext;
    match it
    case Buffered(rows, pos) =>
      NextInBuffer(rows, pos);
      if pos < |rows| {
        return Some(rows[pos]), Buffered(rows, pos + 1);
      }
      return None, it;
    case RowAtATime(rows, pos) =>
      NextInBuffer(rows, pos);
      if pos < |rows| {
        return Some(rows[pos]), RowAtATime(rows, pos + 1);
      }
      return None, it;
    case Where(child, keep) =>
      var c;
      r, c := FilterNext(child, keep);
      after := Where(c, keep);
    case Project(child, f) =>
      var row, c := NextRow(child);
      NextMapped(f, Rest(child), row, Rest(c));
      return if row.Some? then Some(f(row.value)) else None, Project(c, f);
    case Limit(child, limit, emitted) =>
      if emitted >= limit {
        NextLimited(Rest(child), limit, emitted, None, Rest(child));
        return None, it;
      }
      var row, c := NextRow(child);
      NextLimited(Rest(child), limit, emitted, row, Rest(c));
      return row, Limit(c, limit, if row.Some? then emitted + 1 else emitted);
  }

  lemma NextInBuffer<T>(rows: seq<T>, pos: nat)
    ensures if pos < |rows| then IsNext(Suffix(rows, pos), Some(rows[pos]), Suffix(rows, pos + 1))
            else IsNext(Suffix(rows, pos), None, Suffix(rows, pos))
  {
  }

  lemma NextMapped<T>(f: T -> T, rest: seq<T>, r: Option<T>, left: seq<T>)
    requires IsNext(rest, r, left)
    ensures IsNext(Mapped(f, rest), if r.Some? then Some(f(r.value)) else None, Mapped(f, left))
  {
  }

  lemma NextLimited<T>(rest: seq<T>, limit: nat, emitted: nat, r: Option<T>, left: seq<T>)
    requires emitted < limit ==> IsNext(rest, r, left)
    requires emitted >= limit ==> r == None && left == rest
    ensures var given := if r.Some? then emitted + 1 else emitted;
            IsNext(Prefix(rest, if emitted < limit then limit - emitted else 0), r,
                   Prefix(left, if given < limit then limit - given else 0))
  {
    if emitted < limit && r.Some? {
      assert forall n | 0 <= n <= |left| :: ([r.value] + left)[..n + 1] == [r.value] + left[..n];
    }
  }

  /** Skips the child's rows until one satisfies the predicate. */
  method FilterNext<T>(child: Iter<T>, keep: T -> bool) returns (r: Option<T>, c: Iter<T>)
    ensures Depth(c) == Depth(child)
    ensures IsNext(Filter(keep, Rest(child)), r, Filter(keep, Rest(c)))
    decreases Depth(child), 2
  {
    hide Filter, Rest, Depth;
    c := child;
    while true
      invariant Depth(c) == Depth(child) && Filter(keep, Rest(c)) == Filter(keep, Rest(child))
      decreases |Rest(c)|
    {
      var row, next := NextRow(c);
      c := next;
      if row.None? {
        FilterNothing(keep);
        return None, c;
      }
      FilterFront(keep, row.value, Rest(c));
      if keep(row.value) {
        return row, c;
      }
    }
  }

  ghost predicate IsPiece<T>(rest: seq<T>, k: nat, out: seq<T>, left: seq<T>) {
    rest == out + left && |out| <= k && (out == [] ==> k == 0 || rest == [])
  }

  /** Up to `k` rows; none only if none are asked for or none are left. */
  method NextChunk<T>(it: Iter<T>, k: nat) returns (out: seq<T>, after: Iter<T>)
    ensures Depth(after) == Depth(it)
    ensures IsPiece(Rest(it), k, out, Rest(after))
    decreases Depth(it), 1
  {
    hide Filter, Mapped, Prefix, IsPiece;
    match it
    case Buffered(rows, pos) =>
      var remaining := if pos < |rows| then |rows| - pos else 0;
      var take := if remaining < k then remaining else k;
      SlicePiece(rows, pos, k, take);
      if take == 0 {
        return [], it;
      }
      return rows[pos..pos + take], Buffered(rows, pos + take);
    case RowAtATime(_, _) =>
      out, after := ChunkByRows(it, k);
    case Where(child, keep) =>
      var c;
      out, c := FilterChunk(child, keep, k);
      after := Where(c, keep);
    case Project(child, f) =>
      if k == 0 {
        assert IsPiece(Rest(it), k, [], Rest(it)) by { NoPiece(Rest(it)); }
        return [], it;
      }
      var scratch, c := NextChunk(child, k);
      MappedPiece(f, Rest(child), k, scratch, Rest(c));
      return Mapped(f, scratch), Project(c, f);
    case Limit(child, limit, emitted) =>
      if k == 0 || emitted >= limit {
        LimitReached(Rest(child), k, limit, emitted);
        return [], it;
      }
      var requested := if k < limit - emitted then k else limit - emitted;
      var c;
      out, c := NextChunk(child, requested);
      LimitPiece(Rest(child), k, limit, emitted, out, Rest(c));
      after := Limit(c, limit, emitted + |out|);
  }

  lemma NoPiece<T>(rest: seq<T>)
    ensures IsPiece(rest, 0, [], rest)
  {
  }

  lemma SlicePiece<T>(rows: seq<T>, pos: nat, k: nat, take: nat)
    requires take == var remaining := if pos < |rows| then |rows| - pos else 0; if remaining < k then remaining else k
    ensures take == 0 ==> IsPiece(Suffix(rows, pos), k, [], Suffix(rows, pos))
    ensures take > 0 ==> IsPiece(Suffix(rows, pos), k, rows[pos..pos + take], Suffix(rows, pos + take))
  {
  }

  lemma MappedPiece<T>(f: T -> T, rest: seq<T>, k: nat, out: seq<T>, left: seq<T>)
    requires IsPiece(rest, k, out, left)
    ensures IsPiece(Mapped(f, rest), k, Mapped(f, out), Mapped(f, left))
  {
  }

  lemma LimitReached<T>(rest: seq<T>, k: nat, limit: nat, emitted: nat)
    requires k == 0 || emitted >= limit
    ensures var due := Prefix(rest, if emitted < limit then limit - emitted else 0); IsPiece(due, k, [], due)
  {
  }

  lemma LimitPiece<T>(rest: seq<T>, k: nat, limit: nat, emitted: nat, out: seq<T>, left: seq<T>)
    requires k > 0 && emitted < limit && IsPiece(rest, if k < limit - emitted then k else limit - emitted, out, left)
    ensures IsPiece(Prefix(rest, limit - emitted), k, out,
                    Prefix(left, if emitted + |out| < limit then limit - (emitted + |out|) else 0))
  {
    var n := limit - emitted - |out|;
    if limit - emitted <= |rest| {
      assert rest[..limit - emitted] == out + left[..n];
    }
  }

  /** The chunk of an operator that only gives single rows. */
  method ChunkByRows<T>(it: Iter<T>, k: nat) returns (out: seq<T>, after: Iter<T>)
    ensures Depth(after) == Depth(it)
    ensures IsPiece(Rest(it), k, out, Rest(after))
    decreases Depth(it), 0
  {
    hide Rest, Depth;
    out, after := [], it;
    while |out| < k
      invariant Depth(after) == Depth(it) && Rest(it) == out + Rest(after) && |out| <= k
      decreases k - |out|
    {
      var row, next := NextRow(after);
      after := next;
      if row.None? {
        return;
      }
      out := out + [row.value];
    }
  }

  /** Fetches no more from the child than it can still hand on, until the chunk
      is full or the child is exhausted. */
  method FilterChunk<T>(child: Iter<T>, keep: T -> bool, k: nat) returns (out: seq<T>, c: Iter<T>)
    ensures Depth(c) == Depth(child)
    ensures IsPiece(Filter(keep, Rest(child)), k, out, Filter(keep, Rest(c)))
    decreases Depth(child), 2
  {
    hide Rest, Depth, Filter;
    out, c := [], child;
    while |out| < k
      invariant Depth(c) == Depth(child) && |out| <= k
      invariant Filter(keep, Rest(child)) == out + Filter(keep, Rest(c))
      decreases |Rest(c)|
    {
      var scratch, next := NextChunk(c, k - |out|);
      FilterConcat(keep, scratch, Rest(next));
      FilterLength(keep, scratch);
      c := next;
      if scratch == [] {
        FilterNothing(keep);
        return;
      }
      out := out + Filter(keep, scratch);
    }
  }

  lemma FilterNothing<T>(p: T -> bool)
    ensures Filter(p, []) == []
  {
  }

  datatype Call = Row | Chunk(k: nat)

  method Answer<T>(it: Iter<T>, call: Call) returns (piece: seq<T>, after: Iter<T>)
    ensures IsPiece(Rest(it), if call.Row? then 1 else call.k, piece, Rest(after))
  {
    hide Rest;
    match call
    case Row =>
      var row;
      row, after := NextRow(it);
      piece := if row.Some? then [row.value] else [];
    case Chunk(k) =>
      piece, after := NextChunk(it, k);
  }

  /** Any mix of calls emits consecutive pieces of the rows the plan denotes;
      an empty piece that was asked to hold a row means there are no more. */
  method Drive<T>(it: Iter<T>, calls: seq<Call>) returns (pieces: seq<seq<T>>, after: Iter<T>)
    ensures |pieces| == |calls|
    ensures Rest(it) == Joined(pieces) + Rest(after)
    ensures forall i | 0 <= i < |calls| && calls[i].Chunk? :: |pieces[i]| <= calls[i].k
    ensures forall i | 0 <= i < |calls| && pieces[i] == [] && calls[i] != Chunk(0) :: Rest(after) == []
  {
    hide Rest, Joined;
    pieces, after := [], it;
    assert Joined(pieces) == [] by { NothingJoined<T>(); }
    for i := 0 to |calls|
      invariant |pieces| == i && Rest(it) == Joined(pieces) + Rest(after)
      invariant forall j | 0 <= j < i && calls[j].Chunk? :: |pieces[j]| <= calls[j].k
      invariant forall j | 0 <= j < i && pieces[j] == [] && calls[j] != Chunk(0) :: Rest(after) == []
    {
      var piece, next := Answer(after, calls[i]);
      JoinedSnoc(pieces, piece);
      after, pieces := next, pieces + [piece];
    }
  }

  function Joined<T>(pieces: seq<seq<T>>): seq<T> {
    if pieces == [] then [] else Joined(pieces[..|pieces| - 1]) + pieces[|pieces| - 1]
  }

  lemma NothingJoined<T>()
    ensures Joined<T>([]) == []
  {
  }

  lemma JoinedSnoc<T>(pieces: seq<seq<T>>, piece: seq<T>)
    ensures Joined(pieces + [piece]) == Joined(pieces) + piece
  {
    assert (pieces + [piece])[..|pieces|] == pieces;
  }
}
