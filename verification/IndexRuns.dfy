/** Documents and their index entries over whole runs of puts, updates and
    deletes, each committed as one batch. */
module IndexRuns {
  import opened Basics
  import opened Storage
  import opened IndexEncoding
  import opened IntegerFloats
  import opened SecondaryIndex

  ghost predicate ValidDoc(doc: Doc) {
    forall f | f in doc :: ValidJson(doc[f])
  }

  /** The entry keys of a document, one per index whose fields it has. */
  ghost function EntryKeys(defs: seq<IndexDef>, pk: string, doc: Doc): seq<string> {
    if defs == [] then []
    else
      var n := |defs| - 1;
      var values := Values(defs[n], doc);
      EntryKeys(defs[..n], pk, doc) + (if values.Some? then [IndexKey(defs[n].id, values.value, pk)] else [])
  }

  ghost predicate IsEntry(defs: seq<IndexDef>, pk: string, doc: Doc, k: string) {
    exists i :: 0 <= i < |defs| && Values(defs[i], doc).Some?
        && k == IndexKey(defs[i].id, Values(defs[i], doc).value, pk)
  }

  lemma {:induction false} EntryKeysHas(defs: seq<IndexDef>, pk: string, doc: Doc, k: string)
    ensures k in EntryKeys(defs, pk, doc) <==> IsEntry(defs, pk, doc, k)
  {
    hide Values, IndexKey;
    if defs != [] {
      var n := |defs| - 1;
      EntryKeysHas(defs[..n], pk, doc, k);
      IsEntryInit(defs, pk, doc, k);
    }
  }

  lemma IsEntryInit(defs: seq<IndexDef>, pk: string, doc: Doc, k: string)
    requires defs != []
    ensures var n := |defs| - 1;
            IsEntry(defs, pk, doc, k) <==>
              || IsEntry(defs[..n], pk, doc, k)
              || (Values(defs[n], doc).Some? && k == IndexKey(defs[n].id, Values(defs[n], doc).value, pk))
  {
    hide Values, IndexKey;
    var n := |defs| - 1;
    assert forall i | 0 <= i < n :: defs[..n][i] == defs[i];
    if IsEntry(defs[..n], pk, doc, k) {
      var i :| 0 <= i < n && Values(defs[..n][i], doc).Some?
          && k == IndexKey(defs[..n][i].id, Values(defs[..n][i], doc).value, pk);
      assert defs[i] == defs[..n][i];
    }
  }

  // ----- Building the batches -----

  function AsWrites(keys: seq<string>, pk: string): seq<(Key, Value)> {
    seq(|keys|, i requires 0 <= i < |keys| => (keys[i], Value(pk, 0)))
  }

  /** The text after the last separator. */
  function AfterLastNul(k: string): string {
    if k == "" || k[|k| - 1] == NUL then "" else AfterLastNul(k[..|k| - 1]) + [k[|k| - 1]]
  }

  predicate Violates(id: nat, values: seq<Bytes>, pk: string, data: Data) {
    exists k | k in data :: InScan(k, ExactPrefix(id, values), ExactPrefix(id, values) + [DEL]) && AfterLastNul(k) != pk
  }

  ghost predicate Admits(defs: seq<IndexDef>, pk: string, doc: Doc, data: Data) {
    forall i | 0 <= i < |defs| && defs[i].unique && Values(defs[i], doc).Some? ::
      !Violates(defs[i].id, Values(defs[i], doc).value, pk, data)
  }

  datatype IndexError = UniqueViolation | TooLarge

  method EncodeFields(def: IndexDef, doc: Doc) returns (r: Option<seq<Bytes>>)
    requires ValidDoc(doc)
    ensures r == Values(def, doc)
  {
    hide Encode;
    var values: seq<Bytes> := [];
    for i := 0 to |def.fields|
      invariant |values| == i
      invariant forall j | 0 <= j < i ::
                  def.fields[j].0 in doc && values[j] == Encode(doc[def.fields[j].0], def.fields[j].1)
    {
      if def.fields[i].0 !in doc {
        return None;
      }
      values := values + [Encode(doc[def.fields[i].0], def.fields[i].1)];
    }
    assert Values(def, doc).Some? && Values(def, doc).value == values;
    return Some(values);
  }

  lemma WritesSnoc(keys: seq<string>, k: string, pk: string)
    ensures AsWrites(keys + [k], pk) == AsWrites(keys, pk) + [(k, Value(pk, 0))]
  {
  }

  lemma EntryKeysSnoc(defs: seq<IndexDef>, i: nat, pk: string, doc: Doc)
    requires i < |defs|
    ensures EntryKeys(defs[..i + 1], pk, doc)
         == if Values(defs[i], doc).Some?
            then EntryKeys(defs[..i], pk, doc) + [IndexKey(defs[i].id, Values(defs[i], doc).value, pk)]
            else EntryKeys(defs[..i], pk, doc)
  {
    hide Values, IndexKey;
    assert defs[..i + 1][..i] == defs[..i];
  }

  lemma AdmitsSnoc(defs: seq<IndexDef>, i: nat, pk: string, doc: Doc, data: Data)
    requires i < |defs| && Admits(defs[..i], pk, doc, data)
    ensures Admits(defs[..i + 1], pk, doc, data) <==>
              !(defs[i].unique && Values(defs[i], doc).Some?
                && Violates(defs[i].id, Values(defs[i], doc).value, pk, data))
  {
    hide Values, Violates;
    assert forall j | 0 <= j < i :: defs[..i + 1][j] == defs[..i][j];
    assert defs[..i + 1][i] == defs[i];
  }

  lemma AdmitsMore(defs: seq<IndexDef>, i: nat, pk: string, doc: Doc, data: Data)
    requires i <= |defs| && Admits(defs, pk, doc, data)
    ensures Admits(defs[..i], pk, doc, data)
  {
    hide Values, Violates;
    assert forall j | 0 <= j < i :: defs[..i][j] == defs[j];
  }

  /** Adds the entries of a document to a batch, refusing a unique tuple that
      another primary key already holds. */
  method IndexDocument(defs: seq<IndexDef>, pk: string, doc: Doc, batch: WriteBatch, data: Data)
    returns (r: Result<WriteBatch, IndexError>)
    requires ValidDoc(doc)
    ensures r.Ok? ==> r.value == WriteBatch(batch.writes + AsWrites(EntryKeys(defs, pk, doc), pk), batch.deletes)
    ensures r.Ok? ==> Admits(defs, pk, doc, data)
    ensures r == Err(UniqueViolation) ==> !Admits(defs, pk, doc, data)
    ensures r == Err(TooLarge) ==> batch.OpCount() + |EntryKeys(defs, pk, doc)| > MAX_OPS
    ensures r.Ok? && EntryKeys(defs, pk, doc) != [] ==> batch.OpCount() + |EntryKeys(defs, pk, doc)| <= MAX_OPS
  {
    hide Values, Violates, IndexKey, EntryKeys, Admits, AsWrites, ValidDoc;
    var b := batch;
    StartIndexing(pk, doc, data);
    assert defs[..0] == [];
    assert batch.writes + [] == batch.writes;
    for i := 0 to |defs|
      invariant b == WriteBatch(batch.writes + AsWrites(EntryKeys(defs[..i], pk, doc), pk), batch.deletes)
      invariant Admits(defs[..i], pk, doc, data)
      invariant b.OpCount() == batch.OpCount() + |EntryKeys(defs[..i], pk, doc)|
      invariant EntryKeys(defs[..i], pk, doc) != [] ==> b.OpCount() <= MAX_OPS
    {
      var done := defs[..i];
      EntryKeysSnoc(defs, i, pk, doc);
      AdmitsSnoc(defs, i, pk, doc, data);
      var values := EncodeFields(defs[i], doc);
      if values.Some? {
        if defs[i].unique && Violates(defs[i].id, values.value, pk, data) {
          if Admits(defs, pk, doc, data) {
            AdmitsMore(defs, i + 1, pk, doc, data);
          }
          return Err(UniqueViolation);
        }
        var key := BuildIndexKey(defs[i].id, values.value, pk);
        WritesSnoc(EntryKeys(done, pk, doc), key, pk);
        match b.AddSet(key, Value(pk, 0))
        case Err(_) =>
          EntryKeysGrow(defs, i + 1, pk, doc);
          return Err(TooLarge);
        case Ok(b') =>
          b := b';
          assert b.writes == batch.writes + AsWrites(EntryKeys(defs[..i + 1], pk, doc), pk);
      }
    }
    assert defs[..|defs|] == defs;
    return Ok(b);
  }

  lemma {:induction false} EntryKeysGrow(defs: seq<IndexDef>, i: nat, pk: string, doc: Doc)
    requires i <= |defs|
    ensures |EntryKeys(defs[..i], pk, doc)| <= |EntryKeys(defs, pk, doc)|
  {
    hide Values, IndexKey;
    if i == |defs| {
      assert defs[..i] == defs;
    } else {
      EntryKeysGrow(defs[..|defs| - 1], i, pk, doc);
      assert defs[..|defs| - 1][..i] == defs[..i];
    }
  }

  lemma StartIndexing(pk: string, doc: Doc, data: Data)
    ensures EntryKeys([], pk, doc) == [] && AsWrites([], pk) == [] && Admits([], pk, doc, data)
  {
  }

  method RemoveDocumentIndexes(defs: seq<IndexDef>, pk: string, doc: Doc, batch: WriteBatch)
    returns (r: Result<WriteBatch, IndexError>)
    requires ValidDoc(doc)
    ensures r.Ok? ==> r.value == WriteBatch(batch.writes, batch.deletes + EntryKeys(defs, pk, doc))
    ensures r.Ok? <==> EntryKeys(defs, pk, doc) == [] || batch.OpCount() + |EntryKeys(defs, pk, doc)| <= MAX_OPS
  {
    hide Values, IndexKey, EntryKeys, ValidDoc;
    var b := batch;
    StartIndexing(pk, doc, map[]);
    assert defs[..0] == [];
    for i := 0 to |defs|
      invariant b == WriteBatch(batch.writes, batch.deletes + EntryKeys(defs[..i], pk, doc))
      invariant EntryKeys(defs[..i], pk, doc) != [] ==> b.OpCount() <= MAX_OPS
    {
      EntryKeysSnoc(defs, i, pk, doc);
      var values := EncodeFields(defs[i], doc);
      if values.Some? {
        var key := BuildIndexKey(defs[i].id, values.value, pk);
        match b.AddDelete(key)
        case Err(_) =>
          EntryKeysGrow(defs, i + 1, pk, doc);
          return Err(TooLarge);
        case Ok(b') => b := b';
      }
    }
    assert defs[..|defs|] == defs;
    return Ok(b);
  }

  // ----- Runs -----

  /** The documents, the index entries in storage, and which entries an update
      has lost. */
  datatype Store = Store(docs: map<string, Doc>, data: Data, lost: set<string>)

  datatype DocOp = Put(pk: string, doc: Doc) | Update(pk: string, doc: Doc) | Delete(pk: string)

  ghost function OldKeys(defs: seq<IndexDef>, s: Store, op: DocOp): seq<string> {
    if !op.Put? && op.pk in s.docs then EntryKeys(defs, op.pk, s.docs[op.pk]) else []
  }

  ghost function NewKeys(defs: seq<IndexDef>, op: DocOp): seq<string> {
    if op.Delete? then [] else EntryKeys(defs, op.pk, op.doc)
  }

  /** An update removes the old entries and indexes the new ones in one batch. */
  ghost function BatchFor(defs: seq<IndexDef>, s: Store, op: DocOp): WriteBatch {
    WriteBatch(AsWrites(NewKeys(defs, op), op.pk), OldKeys(defs, s, op))
  }

  ghost predicate Accepts(defs: seq<IndexDef>, s: Store, op: DocOp) {
    && (op.Put? <==> op.pk !in s.docs)
    && (!op.Delete? ==> ValidDoc(op.doc) && Admits(defs, op.pk, op.doc, s.data))
    && BatchFor(defs, s, op).OpCount() <= MAX_OPS
  }

  function SetOf(keys: seq<string>): set<string> {
    set i | 0 <= i < |keys| :: keys[i]
  }

  /** Deletes win within a batch, so an entry both removed and written is gone. */
  ghost function Step(defs: seq<IndexDef>, s: Store, op: DocOp): Store {
    if !Accepts(defs, s, op) then s
    else
      var was, now := SetOf(OldKeys(defs, s, op)), SetOf(NewKeys(defs, op));
      Store(if op.Delete? then s.docs - {op.pk} else s.docs[op.pk := op.doc],
            CommitData(s.data, BatchFor(defs, s, op)),
            s.lost - was + was * now)
  }

  ghost function Run(defs: seq<IndexDef>, ops: seq<DocOp>): Store {
    if ops == [] then Store(map[], map[], {}) else Step(defs, Run(defs, ops[..|ops| - 1]), ops[|ops| - 1])
  }

  ghost predicate DistinctIds(defs: seq<IndexDef>) {
    forall i, j | 0 <= i < j < |defs| :: defs[i].id != defs[j].id
  }

  /** An entry key has one owner. */
  lemma OneOwner(defs: seq<IndexDef>, pk: string, doc: Doc, pk': string, doc': Doc, k: string)
    requires DistinctIds(defs) && IsEntry(defs, pk, doc, k) && IsEntry(defs, pk', doc', k)
    ensures pk == pk'
  {
    hide IndexKey;
    var i :| 0 <= i < |defs| && Values(defs[i], doc).Some? && k == IndexKey(defs[i].id, Values(defs[i], doc).value, pk);
    var j :| 0 <= j < |defs| && Values(defs[j], doc').Some?
        && k == IndexKey(defs[j].id, Values(defs[j], doc').value, pk');
    assert defs[i].id == defs[j].id ==> i == j;
    KeyUnique(defs[i].id, Values(defs[i], doc).value, pk, defs[j].id, Values(defs[j], doc').value, pk');
  }

  ghost predicate Owns(defs: seq<IndexDef>, s: Store, pk: string, k: string) {
    pk in s.docs && IsEntry(defs, pk, s.docs[pk], k)
  }

  /** The stored entries are those of the documents, less the lost ones. */
  ghost predicate Inv(defs: seq<IndexDef>, s: Store) {
    && (forall k | k in s.data :: Owns(defs, s, s.data[k].text, k) && k !in s.lost)
    && (forall pk, k | Owns(defs, s, pk, k) && k !in s.lost :: k in s.data && s.data[k].text == pk)
    && (forall k | k in s.lost :: exists pk :: Owns(defs, s, pk, k))
  }

  /** What a batch leaves at a key whose writes all carry one value. */
  lemma CommitAt(d: Data, keys: seq<string>, pk: string, deletes: seq<string>, k: string)
    ensures Get(CommitData(d, WriteBatch(AsWrites(keys, pk), deletes)), k)
         == if k in deletes then None else if k in keys then Some(Value(pk, 0)) else Get(d, k)
  {
    hide ApplyOps, LastOp, AsWrites;
    var b := WriteBatch(AsWrites(keys, pk), deletes);
    ApplyOpsAt(d, BatchOps(b), k);
    DeletesWin(b, k);
    LastWrite(keys, pk, k);
  }

  lemma {:induction false} LastWrite(keys: seq<string>, pk: string, k: string)
    ensures LastOp(SetOps(AsWrites(keys, pk)), k) == if k in keys then Some(Set(k, Value(pk, 0))) else None
  {
    if keys != [] {
      var n := |keys| - 1;
      LastWrite(keys[..n], pk, k);
      var ops := SetOps(AsWrites(keys, pk));
      assert ops[..n] == SetOps(AsWrites(keys[..n], pk));
      assert keys == keys[..n] + [keys[n]];
    }
  }

  lemma SetOfHas(keys: seq<string>, k: string)
    ensures k in SetOf(keys) <==> k in keys
  {
  }

  /** Who owns a key after a step, and whether storage holds it. */
  lemma StepAt(defs: seq<IndexDef>, s: Store, op: DocOp, k: string)
    requires Accepts(defs, s, op)
    ensures var was, now := OldKeys(defs, s, op), NewKeys(defs, op);
            var t := Step(defs, s, op);
            && Get(t.data, k) == (if k in was then None else if k in now then Some(Value(op.pk, 0)) else Get(s.data, k))
            && (k in t.lost <==> if k in was then k in now else k in s.lost)
  {
    hide CommitData, EntryKeys, Accepts;
    var was, now := OldKeys(defs, s, op), NewKeys(defs, op);
    CommitAt(s.data, now, op.pk, was, k);
    SetOfHas(was, k);
    SetOfHas(now, k);
  }

  lemma OwnsAfter(defs: seq<IndexDef>, s: Store, op: DocOp, pk: string, k: string)
    requires Accepts(defs, s, op)
    ensures Owns(defs, Step(defs, s, op), pk, k) <==>
            if pk == op.pk then k in NewKeys(defs, op) else Owns(defs, s, pk, k)
  {
    hide CommitData, EntryKeys, IsEntry;
    if pk == op.pk && !op.Delete? {
      EntryKeysHas(defs, op.pk, op.doc, k);
    }
  }

  lemma OldOwned(defs: seq<IndexDef>, s: Store, op: DocOp, k: string)
    requires Accepts(defs, s, op)
    ensures k in OldKeys(defs, s, op) <==> Owns(defs, s, op.pk, k)
  {
    hide EntryKeys, IsEntry, Admits;
    if op.pk in s.docs {
      EntryKeysHas(defs, op.pk, s.docs[op.pk], k);
    }
  }

  lemma StepKeepsSound(defs: seq<IndexDef>, s: Store, op: DocOp, k: string)
    requires DistinctIds(defs) && Inv(defs, s) && Accepts(defs, s, op) && k in Step(defs, s, op).data
    ensures var t := Step(defs, s, op); Owns(defs, t, t.data[k].text, k) && k !in t.lost
  {
    hide Step, Accepts, Owns, OldKeys, NewKeys, DistinctIds;
    var t := Step(defs, s, op);
    StepAt(defs, s, op, k);
    OldOwned(defs, s, op, k);
    OwnsAfter(defs, s, op, t.data[k].text, k);
    if k in NewKeys(defs, op) {
      NewNotLost(defs, s, op, k);
    }
  }

  /** A key the new document gets, unless it is also an old one, was not lost. */
  lemma NewNotLost(defs: seq<IndexDef>, s: Store, op: DocOp, k: string)
    requires DistinctIds(defs) && Inv(defs, s) && Accepts(defs, s, op)
    requires k in NewKeys(defs, op) && k !in OldKeys(defs, s, op)
    ensures k !in s.lost && k !in s.data
  {
    hide Accepts, OldKeys, IsEntry, DistinctIds, EntryKeys;
    EntryKeysHas(defs, op.pk, op.doc, k);
    OldOwned(defs, s, op, k);
    forall pk | Owns(defs, s, pk, k) ensures false {
      OneOwner(defs, op.pk, op.doc, pk, s.docs[pk], k);
    }
  }

  lemma StepKeepsComplete(defs: seq<IndexDef>, s: Store, op: DocOp, pk: string, k: string)
    requires DistinctIds(defs) && Inv(defs, s) && Accepts(defs, s, op)
    requires Owns(defs, Step(defs, s, op), pk, k) && k !in Step(defs, s, op).lost
    ensures var t := Step(defs, s, op); k in t.data && t.data[k].text == pk
  {
    hide Step, Accepts, Owns, OldKeys, NewKeys, DistinctIds;
    StepAt(defs, s, op, k);
    OldOwned(defs, s, op, k);
    OwnsAfter(defs, s, op, pk, k);
    if k in NewKeys(defs, op) && pk != op.pk {
      OwnerOfNew(defs, s, op, pk, k);
    } else if pk != op.pk && k in OldKeys(defs, s, op) {
      OwnersAgree(defs, s, op.pk, pk, k);
    }
  }

  lemma OwnersAgree(defs: seq<IndexDef>, s: Store, a: string, b: string, k: string)
    requires DistinctIds(defs) && Owns(defs, s, a, k) && Owns(defs, s, b, k)
    ensures a == b
  {
    hide IsEntry, DistinctIds;
    OneOwner(defs, a, s.docs[a], b, s.docs[b], k);
  }

  lemma OwnerOfNew(defs: seq<IndexDef>, s: Store, op: DocOp, pk: string, k: string)
    requires DistinctIds(defs) && k in NewKeys(defs, op) && Owns(defs, s, pk, k)
    ensures pk == op.pk
  {
    hide IsEntry, DistinctIds, EntryKeys;
    EntryKeysHas(defs, op.pk, op.doc, k);
    OneOwner(defs, op.pk, op.doc, pk, s.docs[pk], k);
  }

  lemma StepKeepsLost(defs: seq<IndexDef>, s: Store, op: DocOp, k: string)
    requires DistinctIds(defs) && Inv(defs, s) && Accepts(defs, s, op) && k in Step(defs, s, op).lost
    ensures exists pk :: Owns(defs, Step(defs, s, op), pk, k)
  {
    hide Step, Accepts, Owns, OldKeys, NewKeys, DistinctIds;
    StepAt(defs, s, op, k);
    OldOwned(defs, s, op, k);
    if k in OldKeys(defs, s, op) {
      OwnsAfter(defs, s, op, op.pk, k);
    } else {
      var pk :| Owns(defs, s, pk, k);
      OwnsAfter(defs, s, op, pk, k);
    }
  }

  /** Over every run the stored entries are those of the documents, less those
      whose document was last updated without changing them. */
  lemma {:induction false} RunInvariant(defs: seq<IndexDef>, ops: seq<DocOp>)
    requires DistinctIds(defs)
    ensures Inv(defs, Run(defs, ops))
  {
    hide Step, Accepts, Owns, DistinctIds;
    if ops == [] {
      NoOwners(defs);
    } else {
      var s, op := Run(defs, ops[..|ops| - 1]), ops[|ops| - 1];
      RunInvariant(defs, ops[..|ops| - 1]);
      if Accepts(defs, s, op) {
        var t := Step(defs, s, op);
        forall k | k in t.data ensures Owns(defs, t, t.data[k].text, k) && k !in t.lost {
          StepKeepsSound(defs, s, op, k);
        }
        forall pk, k | Owns(defs, t, pk, k) && k !in t.lost ensures k in t.data && t.data[k].text == pk {
          StepKeepsComplete(defs, s, op, pk, k);
        }
        forall k | k in t.lost ensures exists pk :: Owns(defs, t, pk, k) {
          StepKeepsLost(defs, s, op, k);
        }
      } else {
        Refused(defs, s, op);
      }
    }
  }

  lemma NoOwners(defs: seq<IndexDef>)
    ensures forall pk, k :: !Owns(defs, Store(map[], map[], {}), pk, k)
  {
  }

  lemma Refused(defs: seq<IndexDef>, s: Store, op: DocOp)
    requires !Accepts(defs, s, op)
    ensures Step(defs, s, op) == s
  {
  }

  /** Operation `n` is accepted and concerns `pk`. */
  ghost predicate ActsOn(defs: seq<IndexDef>, ops: seq<DocOp>, n: nat, pk: string) {
    n < |ops| && ops[n].pk == pk && Accepts(defs, Run(defs, ops[..n]), ops[n])
  }

  /** The last accepted operation on `pk` is an update, and `k` is an entry of the
      document before it and of the one after it. */
  ghost predicate KeptByUpdateAt(defs: seq<IndexDef>, ops: seq<DocOp>, n: nat, pk: string, k: string) {
    && ActsOn(defs, ops, n, pk) && (forall m: nat | n < m :: !ActsOn(defs, ops, m, pk))
    && ops[n].Update? && pk in Run(defs, ops[..n]).docs
    && IsEntry(defs, pk, Run(defs, ops[..n]).docs[pk], k) && IsEntry(defs, pk, ops[n].doc, k)
  }

  ghost predicate KeptByLastUpdate(defs: seq<IndexDef>, ops: seq<DocOp>, pk: string, k: string) {
    exists n: nat :: KeptByUpdateAt(defs, ops, n, pk, k)
  }

  /** Unfolds the condition at the last operation. */
  ghost predicate KeptNow(defs: seq<IndexDef>, s: Store, op: DocOp, pk: string, k: string) {
    && op.Update? && pk in s.docs && IsEntry(defs, pk, s.docs[pk], k) && IsEntry(defs, pk, op.doc, k)
  }

  lemma ActsOnPrefix(defs: seq<IndexDef>, ops: seq<DocOp>, n: nat, pk: string)
    requires n < |ops| - 1
    ensures ActsOn(defs, ops[..|ops| - 1], n, pk) <==> ActsOn(defs, ops, n, pk)
  {
    hide Accepts, Run;
    assert ops[..|ops| - 1][..n] == ops[..n];
  }

  lemma KeptStep(defs: seq<IndexDef>, ops: seq<DocOp>, pk: string, k: string)
    requires ops != []
    ensures KeptByLastUpdate(defs, ops, pk, k) <==>
              if ActsOn(defs, ops, |ops| - 1, pk) then KeptNow(defs, Run(defs, ops[..|ops| - 1]), ops[|ops| - 1], pk, k)
              else KeptByLastUpdate(defs, ops[..|ops| - 1], pk, k)
  {
    hide Accepts, Run, IsEntry, ActsOn;
    var last, init := |ops| - 1, ops[..|ops| - 1];
    NoneBeyond(defs, ops, pk);
    NoneBeyond(defs, init, pk);
    if ActsOn(defs, ops, last, pk) {
      if KeptNow(defs, Run(defs, init), ops[last], pk, k) {
        assert KeptByUpdateAt(defs, ops, last, pk, k);
      }
    } else {
      if n: nat :| KeptByUpdateAt(defs, ops, n, pk, k) {
        assert n < last;
        KeptAtPrefix(defs, ops, n, pk, k);
      }
      if n: nat :| KeptByUpdateAt(defs, init, n, pk, k) {
        assert n < last;
        KeptAtPrefix(defs, ops, n, pk, k);
      }
    }
  }

  lemma NoneBeyond(defs: seq<IndexDef>, ops: seq<DocOp>, pk: string)
    ensures forall n: nat | |ops| <= n :: !ActsOn(defs, ops, n, pk)
  {
  }

  lemma KeptAtPrefix(defs: seq<IndexDef>, ops: seq<DocOp>, n: nat, pk: string, k: string)
    requires n < |ops| - 1 && !ActsOn(defs, ops, |ops| - 1, pk)
    ensures KeptByUpdateAt(defs, ops, n, pk, k) <==> KeptByUpdateAt(defs, ops[..|ops| - 1], n, pk, k)
  {
    hide Run, IsEntry, ActsOn;
    var init := ops[..|ops| - 1];
    assert init[..n] == ops[..n] && init[n] == ops[n];
    forall m: nat ensures m != |ops| - 1 ==> (ActsOn(defs, ops, m, pk) <==> ActsOn(defs, init, m, pk)) {
      if m < |ops| - 1 {
        ActsOnPrefix(defs, ops, m, pk);
      } else {
        NoneBeyond(defs, ops, pk);
        NoneBeyond(defs, init, pk);
      }
    }
    NoneBeyond(defs, init, pk);
  }

  /** How one accepted operation changes what is lost, for a key owned after it. */
  lemma LostStep(defs: seq<IndexDef>, s: Store, op: DocOp, pk: string, k: string)
    requires DistinctIds(defs) && Inv(defs, s) && Accepts(defs, s, op) && Owns(defs, Step(defs, s, op), pk, k)
    ensures k in Step(defs, s, op).lost <==> if pk == op.pk then KeptNow(defs, s, op, pk, k) else k in s.lost
    ensures pk != op.pk ==> Owns(defs, s, pk, k)
  {
    hide Step, Accepts, OldKeys, NewKeys, DistinctIds, IsEntry, EntryKeys;
    StepAt(defs, s, op, k);
    OldOwned(defs, s, op, k);
    OwnsAfter(defs, s, op, pk, k);
    if pk == op.pk {
      NewIsEntry(defs, op, k);
      if k !in OldKeys(defs, s, op) {
        NewNotLost(defs, s, op, k);
      } else {
        OldOnlyUpdated(defs, s, op, k);
      }
    } else if k in OldKeys(defs, s, op) {
      OwnersAgree(defs, s, op.pk, pk, k);
    }
  }

  lemma NewIsEntry(defs: seq<IndexDef>, op: DocOp, k: string)
    requires k in NewKeys(defs, op)
    ensures !op.Delete? && IsEntry(defs, op.pk, op.doc, k)
  {
    hide EntryKeys, IsEntry;
    EntryKeysHas(defs, op.pk, op.doc, k);
  }

  lemma OldOnlyUpdated(defs: seq<IndexDef>, s: Store, op: DocOp, k: string)
    requires k in OldKeys(defs, s, op)
    ensures !op.Put? && op.pk in s.docs && IsEntry(defs, op.pk, s.docs[op.pk], k)
  {
    hide EntryKeys, IsEntry;
    EntryKeysHas(defs, op.pk, s.docs[op.pk], k);
  }

  /** After any run, an entry of a document is missing from storage exactly when
      the last accepted operation on the document was an update that left the entry
      as it was. */
  lemma {:induction false} LostIff(defs: seq<IndexDef>, ops: seq<DocOp>, pk: string, k: string)
    requires DistinctIds(defs) && Owns(defs, Run(defs, ops), pk, k)
    ensures k in Run(defs, ops).lost <==> KeptByLastUpdate(defs, ops, pk, k)
    ensures k !in Run(defs, ops).data <==> KeptByLastUpdate(defs, ops, pk, k)
  {
    hide Step, Accepts, Owns, DistinctIds, KeptByLastUpdate, IsEntry, KeptNow;
    RunInvariant(defs, ops);
    assert k in Run(defs, ops).data <==> k !in Run(defs, ops).lost;
    if ops == [] {
      NoOwners(defs);
    } else {
      var init, op := ops[..|ops| - 1], ops[|ops| - 1];
      var s := Run(defs, init);
      RunInvariant(defs, init);
      KeptStep(defs, ops, pk, k);
      if Accepts(defs, s, op) {
        LostStep(defs, s, op, pk, k);
        if pk != op.pk {
          LostIff(defs, init, pk, k);
        }
      } else {
        Refused(defs, s, op);
        LostIff(defs, init, pk, k);
      }
    }
  }

  // ----- What lookups return -----

  /** The document's fields equal the tuple as values of their declared types. */
  ghost predicate HasTuple(def: IndexDef, doc: Doc, query: seq<Json>)
    requires |query| == |def.fields|
  {
    forall i | 0 <= i < |query| ::
      def.fields[i].0 in doc && Same(doc[def.fields[i].0], query[i], def.fields[i].1)
  }

  ghost predicate TypedTuple(def: IndexDef, query: seq<Json>) {
    |query| == |def.fields| && forall i | 0 <= i < |query| :: WellTyped(query[i], def.fields[i].1)
  }

  /** Every document holds the covered fields with their declared types, or not at all. */
  ghost predicate TypedDoc(def: IndexDef, doc: Doc) {
    forall i | 0 <= i < |def.fields| && def.fields[i].0 in doc :: WellTyped(doc[def.fields[i].0], def.fields[i].1)
  }

  ghost function EncodeTuple(def: IndexDef, query: seq<Json>): seq<Bytes>
    requires TypedTuple(def, query)
  {
    seq(|query|, i requires 0 <= i < |query| => Encode(query[i], def.fields[i].1))
  }

  lemma TupleIff(def: IndexDef, doc: Doc, query: seq<Json>)
    requires TypedTuple(def, query) && TypedDoc(def, doc)
    ensures Values(def, doc) == Some(EncodeTuple(def, query)) <==> HasTuple(def, doc, query)
  {
    hide Encode, WellTyped, Seen;
    var want := EncodeTuple(def, query);
    forall i | 0 <= i < |query| && def.fields[i].0 in doc
      ensures ValidJson(doc[def.fields[i].0])
      ensures Encode(doc[def.fields[i].0], def.fields[i].1) == want[i] <==>
                Same(doc[def.fields[i].0], query[i], def.fields[i].1)
    {
      TypedIsValid(doc[def.fields[i].0], def.fields[i].1);
      TypedIsValid(query[i], def.fields[i].1);
      EncodeOrder(doc[def.fields[i].0], query[i], def.fields[i].1);
    }
    if Values(def, doc) == Some(want) {
      forall i | 0 <= i < |query|
        ensures def.fields[i].0 in doc && Same(doc[def.fields[i].0], query[i], def.fields[i].1)
      {
        assert Values(def, doc).value[i] == want[i];
      }
    }
    if HasTuple(def, doc, query) {
      assert Values(def, doc).Some?;
      assert Values(def, doc).value == want;
    }
  }

  lemma TypedIsValid(v: Json, t: FieldType)
    requires WellTyped(v, t)
    ensures ValidJson(v)
  {
  }

  /** A lookup returns exactly the primary keys below the end mark of the scan
      whose fields equal the tuple and whose last accepted operation was not an
      update that left this entry as it was. */
  lemma LookupExact(defs: seq<IndexDef>, ops: seq<DocOp>, i: nat, query: seq<Json>, pk: string)
    requires DistinctIds(defs) && i < |defs| && TypedTuple(defs[i], query)
    requires forall p | p in Run(defs, ops).docs :: TypedDoc(defs[i], Run(defs, ops).docs[p])
    ensures var s := Run(defs, ops);
            var values := EncodeTuple(defs[i], query);
            pk in Lookup(s.data, defs[i].id, values) <==>
              && pk in s.docs && HasTuple(defs[i], s.docs[pk], query)
              && !KeptByLastUpdate(defs, ops, pk, IndexKey(defs[i].id, values, pk)) && BelowDel(pk)
  {
    hide Run, DistinctIds, IndexKey, BelowDel, TypedDoc, Values, Lookup, KeptByLastUpdate;
    RunInvariant(defs, ops);
    var s, values := Run(defs, ops), EncodeTuple(defs[i], query);
    LookupIff(defs, s, i, values, pk);
    if pk in s.docs {
      TupleIff(defs[i], s.docs[pk], query);
      if Values(defs[i], s.docs[pk]) == Some(values) {
        assert IsEntry(defs, pk, s.docs[pk], IndexKey(defs[i].id, values, pk));
        LostIff(defs, ops, pk, IndexKey(defs[i].id, values, pk));
      }
    }
  }

  lemma LookupIff(defs: seq<IndexDef>, s: Store, i: nat, values: seq<Bytes>, pk: string)
    requires DistinctIds(defs) && Inv(defs, s) && i < |defs| && |values| == |defs[i].fields|
    ensures pk in Lookup(s.data, defs[i].id, values) <==>
              && pk in s.docs && Values(defs[i], s.docs[pk]) == Some(values)
              && IndexKey(defs[i].id, values, pk) !in s.lost && BelowDel(pk)
  {
    hide DistinctIds, IndexKey, InScan, BelowDel, ExactPrefix, Values;
    var key := IndexKey(defs[i].id, values, pk);
    LookupScans(defs[i].id, values, defs[i].id, values, pk);
    if pk in s.docs && Values(defs[i], s.docs[pk]) == Some(values) && key !in s.lost && BelowDel(pk) {
      assert IsEntry(defs, pk, s.docs[pk], key);
      assert Owns(defs, s, pk, key);
      assert key in s.data && s.data[key].text == pk;
    }
    if pk in Lookup(s.data, defs[i].id, values) {
      var k :| k in s.data && InScan(k, ExactPrefix(defs[i].id, values), ExactPrefix(defs[i].id, values) + [DEL])
          && s.data[k].text == pk;
      assert Owns(defs, s, pk, k);
      FoundEntry(defs, s, i, values, pk, k);
    }
  }

  /** A key found by an exact scan is the entry of its document for that tuple. */
  lemma FoundEntry(defs: seq<IndexDef>, s: Store, i: nat, values: seq<Bytes>, pk: string, k: string)
    requires DistinctIds(defs) && i < |defs| && |values| == |defs[i].fields| && Owns(defs, s, pk, k)
    requires InScan(k, ExactPrefix(defs[i].id, values), ExactPrefix(defs[i].id, values) + [DEL])
    ensures Values(defs[i], s.docs[pk]) == Some(values) && k == IndexKey(defs[i].id, values, pk) && BelowDel(pk)
  {
    hide IndexKey, InScan, BelowDel, ExactPrefix;
    var doc := s.docs[pk];
    var j :| 0 <= j < |defs| && Values(defs[j], doc).Some? && k == IndexKey(defs[j].id, Values(defs[j], doc).value, pk);
    assert defs[i].id == defs[j].id ==> i == j;
    LookupScans(defs[i].id, values, defs[j].id, Values(defs[j], doc).value, pk);
  }

  /** Writing a document back as it is removes it from every lookup. */
  lemma UnchangedUpdateVanishes(defs: seq<IndexDef>, ops: seq<DocOp>, i: nat, pk: string)
    requires DistinctIds(defs) && i < |defs| && pk in Run(defs, ops).docs
    requires Accepts(defs, Run(defs, ops), Update(pk, Run(defs, ops).docs[pk]))
    requires Values(defs[i], Run(defs, ops).docs[pk]).Some?
    ensures var s := Run(defs, ops);
            var t := Run(defs, ops + [Update(pk, s.docs[pk])]);
            t.docs == s.docs && pk !in Lookup(t.data, defs[i].id, Values(defs[i], s.docs[pk]).value)
  {
    hide DistinctIds, IndexKey, BelowDel, Lookup, CommitData, Values, Accepts;
    var s := Run(defs, ops);
    var op := Update(pk, s.docs[pk]);
    var more := ops + [op];
    assert more[..|more| - 1] == ops;
    RunInvariant(defs, more);
    var values := Values(defs[i], s.docs[pk]).value;
    var key := IndexKey(defs[i].id, values, pk);
    assert IsEntry(defs, pk, s.docs[pk], key);
    EntryKeysHas(defs, pk, s.docs[pk], key);
    StepAt(defs, s, op, key);
    assert |values| == |defs[i].fields| by { ValuesLength(defs[i], s.docs[pk]); }
    LookupIff(defs, Run(defs, more), i, values, pk);
  }

  lemma ValuesLength(def: IndexDef, doc: Doc)
    requires Values(def, doc).Some?
    ensures |Values(def, doc).value| == |def.fields|
  {
  }

  // ----- Unique indexes -----

  /** No two entries of a unique index share a tuple. */
  ghost predicate Unique(defs: seq<IndexDef>, data: Data) {
    forall i: nat, values, a, b | i < |defs| && defs[i].unique && |values| == |defs[i].fields|
      && IndexKey(defs[i].id, values, a) in data && IndexKey(defs[i].id, values, b) in data :: a == b
  }

  /** Primary keys the uniqueness check can read back from an entry. */
  predicate PlainKey(pk: string) {
    NoNul(pk) && BelowDel(pk)
  }

  lemma {:induction false} LastPart(p: string, pk: string)
    requires p != "" && p[|p| - 1] == NUL
    ensures AfterLastNul(p + pk) == AfterLastNul(pk)
  {
    if pk == "" {
      assert p + pk == p;
    } else {
      var n := |pk| - 1;
      LastPart(p, pk[..n]);
      assert (p + pk)[..|p + pk| - 1] == p + pk[..n];
    }
  }

  lemma {:induction false} WholePart(pk: string)
    requires NoNul(pk)
    ensures AfterLastNul(pk) == pk
  {
    if pk != "" {
      var n := |pk| - 1;
      WholePart(pk[..n]);
      assert pk == pk[..n] + [pk[n]];
    }
  }

  /** The entries of another primary key that the uniqueness check for `pk` does not
      see: above the end mark of its scan, or read back as `pk` itself. */
  predicate Missed(pk: string, other: string) {
    !BelowDel(other) || AfterLastNul(other) == pk
  }

  lemma PlainNotMissed(pk: string, other: string)
    requires PlainKey(other) && other != pk
    ensures !Missed(pk, other)
  {
    hide BelowDel;
    WholePart(other);
  }

  /** The check is violated by exactly the entries of the tuple it does not miss. */
  lemma ViolatesIff(id: nat, values: seq<Bytes>, data: Data, pk: string, other: string)
    ensures IndexKey(id, values, other) in data && !Violates(id, values, pk, data) ==> Missed(pk, other)
    ensures Missed(pk, other) <==>
              !(&& InScan(IndexKey(id, values, other), ExactPrefix(id, values), ExactPrefix(id, values) + [DEL])
                && AfterLastNul(IndexKey(id, values, other)) != pk)
  {
    hide InScan, BelowDel, ExactPrefix, NoNul, ValuePrefix;
    var k := IndexKey(id, values, other);
    LookupScans(id, values, id, values, other);
    EndsInNul(id, values);
    LastPart(ExactPrefix(id, values), other);
  }

  lemma EndsInNul(id: nat, values: seq<Bytes>)
    ensures ExactPrefix(id, values) != "" && ExactPrefix(id, values)[|ExactPrefix(id, values)| - 1] == NUL
  {
    hide ValuePrefix;
  }

  /** A key of a tuple present after a step was there before, or is the new document's. */
  lemma TupleAfter(defs: seq<IndexDef>, s: Store, op: DocOp, i: nat, values: seq<Bytes>, pk: string)
    requires DistinctIds(defs) && Accepts(defs, s, op) && i < |defs| && |values| == |defs[i].fields|
    requires IndexKey(defs[i].id, values, pk) in Step(defs, s, op).data
    ensures IndexKey(defs[i].id, values, pk) in s.data
         || (!op.Delete? && pk == op.pk && Values(defs[i], op.doc) == Some(values))
  {
    hide Step, Accepts, OldKeys, EntryKeys, IndexKey;
    var k := IndexKey(defs[i].id, values, pk);
    StepAt(defs, s, op, k);
    if k in NewKeys(defs, op) {
      EntryKeysHas(defs, op.pk, op.doc, k);
      var j :| 0 <= j < |defs| && Values(defs[j], op.doc).Some?
          && k == IndexKey(defs[j].id, Values(defs[j], op.doc).value, op.pk);
      assert defs[i].id == defs[j].id ==> i == j;
      KeyUnique(defs[i].id, values, pk, defs[j].id, Values(defs[j], op.doc).value, op.pk);
    }
  }

  ghost predicate KeysIn(ops: seq<DocOp>, keys: iset<string>) {
    forall i | 0 <= i < |ops| :: ops[i].pk in keys
  }

  lemma {:induction false} RunKeysIn(defs: seq<IndexDef>, ops: seq<DocOp>, keys: iset<string>, pk: string)
    requires KeysIn(ops, keys) && pk in Run(defs, ops).docs
    ensures pk in keys
  {
    hide Accepts, CommitData;
    if ops != [] {
      if pk in Run(defs, ops[..|ops| - 1]).docs {
        RunKeysIn(defs, ops[..|ops| - 1], keys, pk);
      }
    }
  }

  lemma {:induction false} StoredKeyIn(defs: seq<IndexDef>, ops: seq<DocOp>, keys: iset<string>, i: nat,
                                       values: seq<Bytes>, pk: string)
    requires DistinctIds(defs) && KeysIn(ops, keys) && i < |defs| && |values| == |defs[i].fields|
    requires IndexKey(defs[i].id, values, pk) in Run(defs, ops).data
    ensures pk in keys
  {
    hide Run, IndexKey, KeysIn;
    RunInvariant(defs, ops);
    var s, k := Run(defs, ops), IndexKey(defs[i].id, values, pk);
    var owner := s.data[k].text;
    assert Owns(defs, s, owner, k);
    var j :| 0 <= j < |defs| && Values(defs[j], s.docs[owner]).Some?
        && k == IndexKey(defs[j].id, Values(defs[j], s.docs[owner]).value, owner);
    assert defs[i].id == defs[j].id ==> i == j;
    KeyUnique(defs[i].id, values, pk, defs[j].id, Values(defs[j], s.docs[owner]).value, owner);
    RunKeysIn(defs, ops, keys, pk);
  }

  /** Storage holds, for another primary key, the tuple the operation brings to a
      unique index, and the new entry is not an old one of the document, which its own
      update would lose. */
  ghost predicate SlipsAt(defs: seq<IndexDef>, s: Store, op: DocOp, i: nat, other: string) {
    && i < |defs| && defs[i].unique && !op.Delete? && other != op.pk && Values(defs[i], op.doc).Some?
    && IndexKey(defs[i].id, Values(defs[i], op.doc).value, other) in s.data
    && IndexKey(defs[i].id, Values(defs[i], op.doc).value, op.pk) !in OldKeys(defs, s, op)
  }

  ghost predicate Slips(defs: seq<IndexDef>, s: Store, op: DocOp) {
    Accepts(defs, s, op) && exists i: nat, other: string :: SlipsAt(defs, s, op, i, other)
  }

  lemma AcceptedMisses(defs: seq<IndexDef>, s: Store, op: DocOp, i: nat, other: string)
    requires Accepts(defs, s, op) && i < |defs| && defs[i].unique && !op.Delete? && Values(defs[i], op.doc).Some?
    requires IndexKey(defs[i].id, Values(defs[i], op.doc).value, other) in s.data
    ensures Missed(op.pk, other)
  {
    hide Values, IndexKey, Violates, Missed;
    ViolatesIff(defs[i].id, Values(defs[i], op.doc).value, s.data, op.pk, other);
  }

  /** A document's old entries name the document. */
  lemma OldKeysOwn(defs: seq<IndexDef>, s: Store, op: DocOp, i: nat, values: seq<Bytes>, pk: string)
    requires DistinctIds(defs) && Accepts(defs, s, op) && i < |defs| && |values| == |defs[i].fields|
    requires IndexKey(defs[i].id, values, pk) in OldKeys(defs, s, op)
    ensures pk == op.pk
  {
    hide IndexKey, EntryKeys, Admits;
    var k := IndexKey(defs[i].id, values, pk);
    EntryKeysHas(defs, op.pk, s.docs[op.pk], k);
    var doc := s.docs[op.pk];
    var j :| 0 <= j < |defs| && Values(defs[j], doc).Some?
        && k == IndexKey(defs[j].id, Values(defs[j], doc).value, op.pk);
    assert defs[i].id == defs[j].id ==> i == j;
    KeyUnique(defs[i].id, values, pk, defs[j].id, Values(defs[j], doc).value, op.pk);
  }

  lemma SlipBreaks(defs: seq<IndexDef>, s: Store, op: DocOp, i: nat, other: string)
    requires DistinctIds(defs) && Accepts(defs, s, op) && SlipsAt(defs, s, op, i, other)
    ensures !Unique(defs, Step(defs, s, op).data)
  {
    hide Step, Accepts, OldKeys, EntryKeys, IndexKey, Values, Missed, DistinctIds;
    var values := Values(defs[i], op.doc).value;
    ValuesLength(defs[i], op.doc);
    var mine, theirs := IndexKey(defs[i].id, values, op.pk), IndexKey(defs[i].id, values, other);
    if theirs in OldKeys(defs, s, op) {
      OldKeysOwn(defs, s, op, i, values, other);
    }
    assert IsEntry(defs, op.pk, op.doc, mine);
    EntryKeysHas(defs, op.pk, op.doc, mine);
    StepAt(defs, s, op, mine);
    StepAt(defs, s, op, theirs);
    assert mine in Step(defs, s, op).data && theirs in Step(defs, s, op).data by {
      StepHas(defs, s, op, mine);
      StepHas(defs, s, op, theirs);
    }
  }

  lemma StepHas(defs: seq<IndexDef>, s: Store, op: DocOp, k: string)
    requires Accepts(defs, s, op)
    ensures k in Step(defs, s, op).data <==> k !in OldKeys(defs, s, op) && (k in NewKeys(defs, op) || k in s.data)
  {
    hide Step, Accepts, OldKeys, NewKeys;
    StepAt(defs, s, op, k);
  }

  /** A step of a store with unique entries keeps them so exactly when it is no slip. */
  lemma UniqueStep(defs: seq<IndexDef>, s: Store, op: DocOp)
    requires DistinctIds(defs) && Unique(defs, s.data)
    ensures Unique(defs, Step(defs, s, op).data) <==> !Slips(defs, s, op)
  {
    hide Step, IndexKey, DistinctIds, Values, Accepts, SlipsAt;
    if !Accepts(defs, s, op) {
      Refused(defs, s, op);
    } else if i: nat, other: string :| SlipsAt(defs, s, op, i, other) {
      SlipBreaks(defs, s, op, i, other);
    } else {
      forall i: nat, values, a, b | i < |defs| && defs[i].unique && |values| == |defs[i].fields|
        && IndexKey(defs[i].id, values, a) in Step(defs, s, op).data
        && IndexKey(defs[i].id, values, b) in Step(defs, s, op).data
        ensures a == b
      {
        TupleAfter(defs, s, op, i, values, a);
        TupleAfter(defs, s, op, i, values, b);
        NewTupleAlone(defs, s, op, i, values, a, b);
        NewTupleAlone(defs, s, op, i, values, b, a);
      }
    }
  }

  lemma NewTupleAlone(defs: seq<IndexDef>, s: Store, op: DocOp, i: nat, values: seq<Bytes>, a: string, b: string)
    requires DistinctIds(defs) && Accepts(defs, s, op)
             && !exists j: nat, other: string :: SlipsAt(defs, s, op, j, other)
    requires i < |defs| && defs[i].unique && |values| == |defs[i].fields|
    ensures (IndexKey(defs[i].id, values, a) in Step(defs, s, op).data && IndexKey(defs[i].id, values, b) in s.data
             && !op.Delete? && a == op.pk && Values(defs[i], op.doc) == Some(values)) ==> a == b
  {
    hide Step, IndexKey, DistinctIds, Values, Accepts, Missed, OldKeys;
    if IndexKey(defs[i].id, values, a) in Step(defs, s, op).data && IndexKey(defs[i].id, values, b) in s.data
        && !op.Delete? && a == op.pk && Values(defs[i], op.doc) == Some(values) {
      AcceptedMisses(defs, s, op, i, b);
      StepHas(defs, s, op, IndexKey(defs[i].id, values, a));
      assert !SlipsAt(defs, s, op, i, b);
    }
  }

  ghost predicate EntriesUniqueThroughout(defs: seq<IndexDef>, ops: seq<DocOp>) {
    forall n | 0 <= n <= |ops| :: Unique(defs, Run(defs, ops[..n]).data)
  }

  ghost predicate NeverSlips(defs: seq<IndexDef>, ops: seq<DocOp>) {
    forall n | 0 <= n < |ops| :: !Slips(defs, Run(defs, ops[..n]), ops[n])
  }

  lemma {:induction false} StaysUniqueEntries(defs: seq<IndexDef>, ops: seq<DocOp>, n: nat)
    requires DistinctIds(defs) && NeverSlips(defs, ops) && n <= |ops|
    ensures Unique(defs, Run(defs, ops[..n]).data)
  {
    hide Step, DistinctIds, Unique, Slips;
    if n == 0 {
      NoEntries(defs);
    } else {
      StaysUniqueEntries(defs, ops, n - 1);
      UniqueStep(defs, Run(defs, ops[..n - 1]), ops[n - 1]);
      RunSnoc(defs, ops, n - 1);
    }
  }

  lemma NoEntries(defs: seq<IndexDef>)
    ensures Unique(defs, Run(defs, []).data)
  {
  }

  /** Throughout a run, one document a batch, a unique index holds at most one
      primary key for a tuple exactly when no accepted operation slips past the check. */
  lemma UniqueHolds(defs: seq<IndexDef>, ops: seq<DocOp>)
    requires DistinctIds(defs)
    ensures EntriesUniqueThroughout(defs, ops) <==> NeverSlips(defs, ops)
  {
    hide Step, DistinctIds, Unique, Slips, Run;
    if NeverSlips(defs, ops) {
      forall n | 0 <= n <= |ops| ensures Unique(defs, Run(defs, ops[..n]).data) {
        StaysUniqueEntries(defs, ops, n);
      }
    }
    if EntriesUniqueThroughout(defs, ops) {
      forall n | 0 <= n < |ops| ensures !Slips(defs, Run(defs, ops[..n]), ops[n]) {
        RunSnoc(defs, ops, n);
        assert Unique(defs, Run(defs, ops[..n]).data) && Unique(defs, Run(defs, ops[..n + 1]).data);
        UniqueStep(defs, Run(defs, ops[..n]), ops[n]);
      }
    }
  }

  /** The check sees every one of the keys when writing any other. */
  ghost predicate NoneMissed(keys: iset<string>) {
    forall a, b | a in keys && b in keys && a != b :: !Missed(b, a)
  }

  /** Runs over such primary keys never slip past it. */
  lemma SeenKeysNeverSlip(defs: seq<IndexDef>, ops: seq<DocOp>, keys: iset<string>)
    requires DistinctIds(defs) && KeysIn(ops, keys) && NoneMissed(keys)
    ensures NeverSlips(defs, ops)
  {
    hide Run, IndexKey, DistinctIds, Values, Missed, Accepts, OldKeys;
    forall n | 0 <= n < |ops| ensures !Slips(defs, Run(defs, ops[..n]), ops[n]) {
      var s, op := Run(defs, ops[..n]), ops[n];
      forall i: nat, other: string | Accepts(defs, s, op) ensures !SlipsAt(defs, s, op, i, other) {
        if SlipsAt(defs, s, op, i, other) {
          ValuesLength(defs[i], op.doc);
          StoredKeyIn(defs, ops[..n], keys, i, Values(defs[i], op.doc).value, other);
          AcceptedMisses(defs, s, op, i, other);
        }
      }
    }
  }

  /** Primary keys without NUL and below the end mark are all seen. */
  lemma PlainKeysSeen(keys: iset<string>)
    requires forall pk | pk in keys :: PlainKey(pk)
    ensures NoneMissed(keys)
  {
    hide PlainKey, Missed;
    forall a, b | a in keys && b in keys && a != b ensures !Missed(b, a) {
      PlainNotMissed(b, a);
    }
  }

  /** No two documents share a tuple of a unique index. */
  ghost predicate DocsUnique(defs: seq<IndexDef>, s: Store) {
    forall i: nat, a, b | i < |defs| && defs[i].unique && a in s.docs && b in s.docs && a != b
      && Values(defs[i], s.docs[a]).Some? :: Values(defs[i], s.docs[a]) != Values(defs[i], s.docs[b])
  }

  /** Another document has the tuple operation `op` writes to a unique index, and the
      check does not see it: its entry was left as it was by its last accepted
      operation, and so lost, or it is one the check misses. */
  ghost predicate SharesAt(defs: seq<IndexDef>, before: seq<DocOp>, op: DocOp, i: nat, a: string) {
    var s := Run(defs, before);
    && i < |defs| && defs[i].unique && !op.Delete? && a in s.docs && a != op.pk
    && Values(defs[i], s.docs[a]).Some? && Values(defs[i], op.doc) == Values(defs[i], s.docs[a])
    && (KeptByLastUpdate(defs, before, a, IndexKey(defs[i].id, Values(defs[i], s.docs[a]).value, a))
        || Missed(op.pk, a))
  }

  ghost predicate Shares(defs: seq<IndexDef>, before: seq<DocOp>, op: DocOp) {
    Accepts(defs, Run(defs, before), op) && exists i: nat, a: string :: SharesAt(defs, before, op, i, a)
  }

  /** A tuple the operation was admitted with, held by another document, has lost
      its entry there or one the check misses. */
  lemma SharedIsLost(defs: seq<IndexDef>, before: seq<DocOp>, op: DocOp, i: nat, a: string)
    requires DistinctIds(defs) && Accepts(defs, Run(defs, before), op)
    requires i < |defs| && defs[i].unique && !op.Delete? && a in Run(defs, before).docs && a != op.pk
    requires Values(defs[i], Run(defs, before).docs[a]).Some?
    requires Values(defs[i], op.doc) == Values(defs[i], Run(defs, before).docs[a])
    ensures SharesAt(defs, before, op, i, a)
  {
    hide Run, IndexKey, DistinctIds, Values, KeptByLastUpdate, Accepts, Missed;
    var s := Run(defs, before);
    var k := IndexKey(defs[i].id, Values(defs[i], s.docs[a]).value, a);
    assert IsEntry(defs, a, s.docs[a], k);
    LostIff(defs, before, a, k);
    if k in s.data {
      AcceptedMisses(defs, s, op, i, a);
    }
  }

  lemma DocsUniqueStep(defs: seq<IndexDef>, before: seq<DocOp>, op: DocOp)
    requires DistinctIds(defs) && DocsUnique(defs, Run(defs, before))
    ensures DocsUnique(defs, Step(defs, Run(defs, before), op)) <==> !Shares(defs, before, op)
  {
    hide Run, IndexKey, DistinctIds, Values, KeptByLastUpdate, Accepts, CommitData, OldKeys, NewKeys, Missed;
    var s := Run(defs, before);
    var t := Step(defs, s, op);
    if Accepts(defs, s, op) {
      if i: nat, a: string :| SharesAt(defs, before, op, i, a) {
        assert t.docs[a] == s.docs[a] && t.docs[op.pk] == op.doc;
      } else {
        forall i: nat, a, b | i < |defs| && defs[i].unique && a in t.docs && b in t.docs && a != b
          && Values(defs[i], t.docs[a]).Some?
          ensures Values(defs[i], t.docs[a]) != Values(defs[i], t.docs[b])
        {
          if Values(defs[i], t.docs[a]) == Values(defs[i], t.docs[b]) && op.pk in {a, b} && !op.Delete? {
            SharedIsLost(defs, before, op, i, if a == op.pk then b else a);
          }
        }
      }
    }
  }

  ghost predicate UniqueThroughout(defs: seq<IndexDef>, ops: seq<DocOp>) {
    forall n | 0 <= n <= |ops| :: DocsUnique(defs, Run(defs, ops[..n]))
  }

  ghost predicate NeverShares(defs: seq<IndexDef>, ops: seq<DocOp>) {
    forall n | 0 <= n < |ops| :: !Shares(defs, ops[..n], ops[n])
  }

  lemma RunSnoc(defs: seq<IndexDef>, ops: seq<DocOp>, n: nat)
    requires n < |ops|
    ensures Run(defs, ops[..n + 1]) == Step(defs, Run(defs, ops[..n]), ops[n])
  {
    hide Step;
    assert ops[..n + 1][..n] == ops[..n];
  }

  lemma {:induction false} StaysUnique(defs: seq<IndexDef>, ops: seq<DocOp>, n: nat)
    requires DistinctIds(defs) && NeverShares(defs, ops) && n <= |ops|
    ensures DocsUnique(defs, Run(defs, ops[..n]))
  {
    hide Step, DistinctIds, DocsUnique, Shares;
    if n == 0 {
      NoDocs(defs);
    } else {
      StaysUnique(defs, ops, n - 1);
      DocsUniqueStep(defs, ops[..n - 1], ops[n - 1]);
      RunSnoc(defs, ops, n - 1);
    }
  }

  lemma NoDocs(defs: seq<IndexDef>)
    ensures DocsUnique(defs, Run(defs, []))
  {
  }

  /** Documents stay unique throughout a run exactly when no accepted put or update
      brings a tuple of a unique index that another document has and whose entry
      there was lost to an update that kept it, or is one the check misses. */
  lemma DocsUniqueIff(defs: seq<IndexDef>, ops: seq<DocOp>)
    requires DistinctIds(defs)
    ensures UniqueThroughout(defs, ops) <==> NeverShares(defs, ops)
  {
    hide Step, DistinctIds, DocsUnique, Shares, Run;
    if NeverShares(defs, ops) {
      forall n | 0 <= n <= |ops| ensures DocsUnique(defs, Run(defs, ops[..n])) {
        StaysUnique(defs, ops, n);
      }
    }
    if UniqueThroughout(defs, ops) {
      forall n | 0 <= n < |ops| ensures !Shares(defs, ops[..n], ops[n]) {
        RunSnoc(defs, ops, n);
        assert DocsUnique(defs, Run(defs, ops[..n])) && DocsUnique(defs, Run(defs, ops[..n + 1]));
        DocsUniqueStep(defs, ops[..n], ops[n]);
      }
    }
  }

  // ----- Runs that break uniqueness -----

  lemma RunSnocOp(defs: seq<IndexDef>, ops: seq<DocOp>, op: DocOp)
    ensures Run(defs, ops + [op]) == Step(defs, Run(defs, ops), op)
  {
    hide Step;
    assert (ops + [op])[..|ops|] == ops;
  }

  lemma OneEntry(def: IndexDef, pk: string, doc: Doc)
    requires Values(def, doc).Some?
    ensures EntryKeys([def], pk, doc) == [IndexKey(def.id, Values(def, doc).value, pk)]
  {
    hide Values, IndexKey;
    assert [def][..0] == [];
    assert EntryKeys([], pk, doc) == [];
  }

  /** A document none of whose unique tuples is stored for another key is accepted. */
  lemma Accepted(def: IndexDef, s: Store, op: DocOp)
    requires !op.Delete? && (op.Put? <==> op.pk !in s.docs) && ValidDoc(op.doc) && Values(def, op.doc).Some?
    requires op.Update? ==> Values(def, s.docs[op.pk]).Some?
    requires forall k | k in s.data :: AfterLastNul(k) == op.pk
    ensures Accepts([def], s, op)
  {
    hide Values, IndexKey, InScan;
    OneEntry(def, op.pk, op.doc);
    if op.Update? {
      OneEntry(def, op.pk, s.docs[op.pk]);
    }
  }

  lemma PutOne(def: IndexDef, a: string, doc: Doc)
    requires ValidDoc(doc) && Values(def, doc).Some?
    ensures var s := Run([def], [Put(a, doc)]);
            && s.docs == map[a := doc] && Unique([def], s.data)
            && forall k | k in s.data :: k == IndexKey(def.id, Values(def, doc).value, a)
    ensures IndexKey(def.id, Values(def, doc).value, a) in Run([def], [Put(a, doc)]).data
  {
    hide Values, IndexKey, CommitData, Accepts, ValidDoc;
    var op := Put(a, doc);
    assert [] + [op] == [op];
    RunSnocOp([def], [], op);
    var s0 := Run([def], []);
    Accepted(def, s0, op);
    OneEntry(def, a, doc);
    var s := Step([def], s0, op);
    forall k ensures k in s.data <==> k == IndexKey(def.id, Values(def, doc).value, a) {
      StepHas([def], s0, op, k);
    }
    forall i: nat, values, x, y | i < 1 && [def][i].unique && |values| == |[def][i].fields|
      && IndexKey([def][i].id, values, x) in s.data && IndexKey([def][i].id, values, y) in s.data
      ensures x == y
    {
      assert [def][i] == def;
      ValuesLength(def, doc);
      KeyUnique(def.id, values, x, def.id, Values(def, doc).value, a);
      KeyUnique(def.id, values, y, def.id, Values(def, doc).value, a);
    }
  }

  /** Writing a document back as it is frees its unique tuples: the next document may
      take them, and then two documents share one. */
  lemma RewriteThenShare(def: IndexDef, a: string, b: string, doc: Doc)
    requires def.unique && ValidDoc(doc) && Values(def, doc).Some? && a != b && NoNul(a)
    ensures var s := Run([def], [Put(a, doc), Update(a, doc), Put(b, doc)]);
            s.docs == map[a := doc, b := doc] && !DocsUnique([def], s)
  {
    hide Values, IndexKey, CommitData, Accepts, ValidDoc, NoNul;
    var put, update, second := Put(a, doc), Update(a, doc), Put(b, doc);
    var s1 := Run([def], [put]);
    PutOne(def, a, doc);
    OneEntry(def, a, doc);
    OneEntry(def, b, doc);
    var k := IndexKey(def.id, Values(def, doc).value, a);
    assert AfterLastNul(k) == a by { OwnPart(def.id, Values(def, doc).value, a); }
    Accepted(def, s1, update);
    assert [put] + [update] == [put, update] && [put, update] + [second] == [put, update, second];
    RunSnocOp([def], [put], update);
    var s2 := Step([def], s1, update);
    forall x ensures x !in s2.data {
      StepHas([def], s1, update, x);
    }
    Accepted(def, s2, second);
    RunSnocOp([def], [put, update], second);
    var s3 := Step([def], s2, second);
    assert s3.docs == map[a := doc, b := doc];
    TwoShare([def], s3, 0, a, b);
  }

  lemma TwoShare(defs: seq<IndexDef>, s: Store, i: nat, a: string, b: string)
    requires i < |defs| && defs[i].unique && a in s.docs && b in s.docs && a != b
    requires Values(defs[i], s.docs[a]).Some? && Values(defs[i], s.docs[a]) == Values(defs[i], s.docs[b])
    ensures !DocsUnique(defs, s)
  {
  }

  lemma OwnPart(id: nat, values: seq<Bytes>, pk: string)
    requires NoNul(pk)
    ensures AfterLastNul(IndexKey(id, values, pk)) == pk
  {
    hide ExactPrefix, ValuePrefix;
    EndsInNul(id, values);
    LastPart(ExactPrefix(id, values), pk);
    WholePart(pk);
  }

  /** A document whose primary key the check misses, because it lies above the end mark
      or ends in the other after its last NUL: the other gets its unique tuple too, and
      storage holds it twice. */
  lemma MissedKeyShares(def: IndexDef, a: string, b: string, doc: Doc)
    requires def.unique && ValidDoc(doc) && Values(def, doc).Some? && a != b && Missed(b, a)
    ensures !Unique([def], Run([def], [Put(a, doc), Put(b, doc)]).data)
  {
    hide Values, IndexKey, CommitData, ValidDoc, BelowDel, Unique, InScan, ExactPrefix;
    var put, second := Put(a, doc), Put(b, doc);
    var s1 := Run([def], [put]);
    PutOne(def, a, doc);
    OneEntry(def, b, doc);
    var values := Values(def, doc).value;
    ViolatesIff(def.id, values, s1.data, b, a);
    assert Admits([def], b, doc, s1.data) by { assert [def][0] == def; }
    assert Accepts([def], s1, second);
    assert [put] + [second] == [put, second];
    RunSnocOp([def], [put], second);
    assert [def][0] == def;
    assert SlipsAt([def], s1, second, 0, a);
    UniqueStep([def], s1, second);
  }

  /** Every run over a set of primary keys keeps a unique index's entries unique exactly
      when the check misses none of them when writing another. */
  lemma KeysStayUniqueIff(def: IndexDef, keys: iset<string>, doc: Doc)
    requires def.unique && ValidDoc(doc) && Values(def, doc).Some?
    ensures (forall ops | KeysIn(ops, keys) :: EntriesUniqueThroughout([def], ops)) <==> NoneMissed(keys)
  {
    hide Values, Missed, Unique, Run, ValidDoc;
    if NoneMissed(keys) {
      forall ops | KeysIn(ops, keys) ensures EntriesUniqueThroughout([def], ops) {
        SeenKeysNeverSlip([def], ops, keys);
        UniqueHolds([def], ops);
      }
    } else {
      var a, b :| a in keys && b in keys && a != b && Missed(b, a);
      var ops := [Put(a, doc), Put(b, doc)];
      MissedKeyShares(def, a, b, doc);
      assert ops[..2] == ops && KeysIn(ops, keys);
      assert !EntriesUniqueThroughout([def], ops);
    }
  }

  // ----- Range scans -----

  /** The field is not below the start and not above the end, or extends the end. */
  ghost predicate InRange(def: IndexDef, doc: Doc, start: Json, end: Json)
    requires |def.fields| == 1
  {
    var (f, t) := def.fields[0];
    && f in doc && WellTyped(start, t) && WellTyped(doc[f], t) && WellTyped(end, t)
    && ValueLeq(start, doc[f], t)
    && (ValueLeq(doc[f], end, t) || (t == StringField && end.bytes <= doc[f].bytes))
  }

  /** On an index over one field, a range scan returns exactly the primary keys
      in range, less those whose last accepted operation was an update that left the
      entry as it was. */
  lemma RangeExact(defs: seq<IndexDef>, ops: seq<DocOp>, i: nat, start: Json, end: Json, pk: string)
    requires DistinctIds(defs) && i < |defs| && |defs[i].fields| == 1
    requires TypedTuple(defs[i], [start]) && TypedTuple(defs[i], [end])
    requires forall p | p in Run(defs, ops).docs :: TypedDoc(defs[i], Run(defs, ops).docs[p])
    ensures var s := Run(defs, ops);
            pk in RangeScan(s.data, defs[i].id, EncodeTuple(defs[i], [start])[0], EncodeTuple(defs[i], [end])[0]) <==>
              && pk in s.docs && InRange(defs[i], s.docs[pk], start, end)
              && Values(defs[i], s.docs[pk]).Some?
              && !KeptByLastUpdate(defs, ops, pk, IndexKey(defs[i].id, Values(defs[i], s.docs[pk]).value, pk))
  {
    hide Run, DistinctIds, IndexKey, RangeScan, InRange, Values, KeptByLastUpdate;
    RunInvariant(defs, ops);
    if pk in Run(defs, ops).docs && Values(defs[i], Run(defs, ops).docs[pk]).Some? {
      var k := IndexKey(defs[i].id, Values(defs[i], Run(defs, ops).docs[pk]).value, pk);
      assert IsEntry(defs, pk, Run(defs, ops).docs[pk], k);
      LostIff(defs, ops, pk, k);
    }
    RangeIff(defs, Run(defs, ops), i, EncodeTuple(defs[i], [start])[0], EncodeTuple(defs[i], [end])[0], pk);
    if pk in Run(defs, ops).docs {
      InRangeIff(defs[i], Run(defs, ops).docs[pk], start, end);
    }
  }

  lemma RangeIff(defs: seq<IndexDef>, s: Store, i: nat, lo: Bytes, hi: Bytes, pk: string)
    requires DistinctIds(defs) && Inv(defs, s) && i < |defs| && |defs[i].fields| == 1
    ensures pk in RangeScan(s.data, defs[i].id, lo, hi) <==>
              && pk in s.docs && Values(defs[i], s.docs[pk]).Some?
              && IndexKey(defs[i].id, Values(defs[i], s.docs[pk]).value, pk) !in s.lost
              && var v := Values(defs[i], s.docs[pk]).value[0]; ByteLeq(lo, v) && (ByteLeq(v, hi) || hi <= v)
  {
    hide DistinctIds, IndexKey, InScan, ValuePrefix, ByteLeq;
    if pk in s.docs && Values(defs[i], s.docs[pk]).Some? {
      var values := Values(defs[i], s.docs[pk]).value;
      assert values == [values[0]];
      var key := IndexKey(defs[i].id, values, pk);
      assert Owns(defs, s, pk, key) by { assert IsEntry(defs, pk, s.docs[pk], key); }
      RangeScans(defs[i].id, lo, hi, values[0], pk);
      assert key !in s.lost ==> key in s.data && s.data[key].text == pk;
    }
    if pk in RangeScan(s.data, defs[i].id, lo, hi) {
      var k :| k in s.data && InScan(k, ValuePrefix(defs[i].id, [lo]), ValuePrefix(defs[i].id, [hi]) + "~~")
          && s.data[k].text == pk;
      assert Owns(defs, s, pk, k);
      FoundInRange(defs, s, i, lo, hi, pk, k);
    }
  }

  lemma InRangeIff(def: IndexDef, doc: Doc, start: Json, end: Json)
    requires |def.fields| == 1 && TypedTuple(def, [start]) && TypedTuple(def, [end]) && TypedDoc(def, doc)
    ensures InRange(def, doc, start, end) <==>
              && Values(def, doc).Some?
              && var v := Values(def, doc).value[0];
                 var lo, hi := EncodeTuple(def, [start])[0], EncodeTuple(def, [end])[0];
                 ByteLeq(lo, v) && (ByteLeq(v, hi) || hi <= v)
  {
    hide Encode, WellTyped, ValueLeq, ByteLeq, Seen;
    var (f, t) := def.fields[0];
    assert WellTyped([start][0], def.fields[0].1) && WellTyped([end][0], def.fields[0].1);
    if f in doc {
      assert WellTyped(doc[def.fields[0].0], def.fields[0].1);
      OneValue(def, doc, f, t);
      EncodeOrder(start, doc[f], t);
      EncodeOrder(doc[f], end, t);
      EncodePrefix(end, doc[f], t);
      SameIsLeq(doc[f], end, t);
      TypedShape(end, t);
      TypedShape(doc[f], t);
    }
  }

  lemma TypedShape(v: Json, t: FieldType)
    requires WellTyped(v, t)
    ensures ValidJson(v) && (t == StringField ==> v.JString?)
  {
  }

  lemma SameIsLeq(v: Json, w: Json, t: FieldType)
    requires WellTyped(v, t) && WellTyped(w, t)
    ensures Seen(v, t) == Seen(w, t) ==> ValueLeq(v, w, t)
  {
    hide IntegerBits;
    PrefixParts(if v.JString? then v.bytes else [], if v.JString? then v.bytes else []);
  }

  lemma OneValue(def: IndexDef, doc: Doc, f: string, t: FieldType)
    requires |def.fields| == 1 && def.fields[0] == (f, t) && f in doc && WellTyped(doc[f], t)
    ensures ValidJson(doc[f]) && Values(def, doc) == Some([Encode(doc[f], t)])
  {
    hide Encode;
    assert Values(def, doc).Some?;
    assert Values(def, doc).value == [Encode(doc[f], t)];
  }

  lemma OneHex(v: Bytes)
    ensures JoinHex([v]) == Hex(v)
  {
  }

  lemma RangeScans(id: nat, lo: Bytes, hi: Bytes, v: Bytes, pk: string)
    ensures InScan(IndexKey(id, [v], pk), ValuePrefix(id, [lo]), ValuePrefix(id, [hi]) + "~~")
       <==> ByteLeq(lo, v) && (ByteLeq(v, hi) || hi <= v)
  {
    hide ScanPrefix, JoinHex, Hex, Leq, ByteLeq;
    OneHex(lo);
    OneHex(hi);
    OneHex(v);
    var p := ScanPrefix(id);
    assert ValuePrefix(id, [hi]) + "~~" == p + (Hex(hi) + "~~");
    assert IndexKey(id, [v], pk) == p + (Hex(v) + [NUL] + pk);
    ScanWithin(p, Hex(lo), Hex(hi) + "~~", Hex(v) + [NUL] + pk);
    HexFollowed(v, lo, pk);
    HexFollowed(v, hi, pk);
  }

  lemma FoundInRange(defs: seq<IndexDef>, s: Store, i: nat, lo: Bytes, hi: Bytes, pk: string, k: string)
    requires DistinctIds(defs) && i < |defs| && |defs[i].fields| == 1 && Owns(defs, s, pk, k)
    requires InScan(k, ValuePrefix(defs[i].id, [lo]), ValuePrefix(defs[i].id, [hi]) + "~~")
    ensures Values(defs[i], s.docs[pk]).Some? && k == IndexKey(defs[i].id, Values(defs[i], s.docs[pk]).value, pk)
  {
    hide InScan, ScanPrefix, JoinHex;
    var doc := s.docs[pk];
    var j :| 0 <= j < |defs| && Values(defs[j], doc).Some? && k == IndexKey(defs[j].id, Values(defs[j], doc).value, pk);
    var p, rest := ScanPrefix(defs[i].id), JoinHex(Values(defs[j], doc).value) + [NUL] + pk;
    assert ValuePrefix(defs[i].id, [hi]) + "~~" == p + (JoinHex([hi]) + "~~");
    ScanKeepsPrefix(p, JoinHex([lo]), JoinHex([hi]) + "~~", k);
    assert k == ScanPrefix(defs[j].id) + rest;
    assert p + "" == p;
    ScanPrefixUnique(defs[i].id, "", defs[j].id, rest);
  }
}
