/** A table of fixed-size rows in pages, as a map from key to row. */
module RowSpec {
  import opened Bytes
  import opened Outcomes
  import opened PageLayout
  import opened TableInit

  type Pages = map<nat, Bytes>

  /** Every indexed row lies behind the header of a page that announces its own id, and no two rows
      overlap. */
  ghost predicate TableOk(c: Pages, index: KeyIndex, size: nat) {
    && size >= WORD
    && (forall k :: k in index ==> RowInPage(c, index[k], size))
    && (forall j, k :: j in index && k in index && j != k ==> Apart(index[j], index[k], size))
  }

  predicate RowInPage(c: Pages, it: Item, size: nat) {
    && it.pageId in c && |c[it.pageId]| == PAGE_SIZE
    && HEADER <= it.location && it.location + size <= PAGE_SIZE
    && Deserialize(c[it.pageId]).pageId == it.pageId
  }

  predicate Apart(a: Item, b: Item, size: nat) {
    a.pageId == b.pageId ==> a.location + size <= b.location || b.location + size <= a.location
  }

  function RowOf(c: Pages, it: Item, size: nat): (row: Bytes)
    requires RowInPage(c, it, size)
    ensures |row| == size
  {
    c[it.pageId][it.location..it.location + size]
  }

  /** The table as a map. */
  ghost function Rows(c: Pages, index: KeyIndex, size: nat): map<nat, Bytes>
    requires TableOk(c, index, size)
  {
    map k | k in index :: RowOf(c, index[k], size)
  }

  lemma TableRow(c: Pages, index: KeyIndex, size: nat, key: nat)
    requires TableOk(c, index, size) && key in index
    ensures RowInPage(c, index[key], size)
    ensures Rows(c, index, size)[key] == RowOf(c, index[key], size)
  {
  }

  /** WriteRow's page update: read the header, copy the row, write the header back. */
  function PageWith(buf: Bytes, it: Item, row: Bytes): Bytes
    requires |buf| == PAGE_SIZE
  {
    Serialize(Deserialize(buf).(buf := Splice(buf, it.location, row)))
  }

  lemma PageWithIsSplice(buf: Bytes, it: Item, row: Bytes)
    requires |buf| == PAGE_SIZE && HEADER <= it.location && it.location + |row| <= PAGE_SIZE
    ensures PageWith(buf, it, row) == Splice(buf, it.location, row)
    ensures Deserialize(PageWith(buf, it, row)).pageId == Deserialize(buf).pageId
  {
    var s := Splice(buf, it.location, row);
    SpliceReads(buf, it.location, row);
    assert s[..WORD] == buf[..WORD] && s[WORD..2 * WORD] == buf[WORD..2 * WORD];
    assert s[2 * WORD..3 * WORD] == buf[2 * WORD..3 * WORD] && s[3 * WORD..4 * WORD] == buf[3 * WORD..4 * WORD];
    assert Deserialize(s) == Deserialize(buf).(buf := s);
    SerializeDeserialize(s);
  }

  function WritePage(c: Pages, it: Item, row: Bytes): Pages
    requires it.pageId in c && |c[it.pageId]| == PAGE_SIZE
  {
    c[it.pageId := PageWith(c[it.pageId], it, row)]
  }

  // Writing `row` at `it` as seen from slot `at`.
  lemma WriteSeenFrom(c: Pages, it: Item, row: Bytes, at: Item)
    requires RowInPage(c, it, |row|) && RowInPage(c, at, |row|) && (at == it || Apart(it, at, |row|))
    ensures RowInPage(WritePage(c, it, row), at, |row|)
    ensures RowOf(WritePage(c, it, row), at, |row|) == if at == it then row else RowOf(c, at, |row|)
  {
    PageWithIsSplice(c[it.pageId], it, row);
    SpliceReads(c[it.pageId], it.location, row);
  }

  // A map given pointwise is the update it should be.
  lemma UpdateByPoints(a: map<nat, Bytes>, b: map<nat, Bytes>, key: nat, row: Bytes)
    requires key in a && b.Keys == a.Keys
    requires forall k :: k in a ==> b[k] == if k == key then row else a[k]
    ensures b == a[key := row]
  {
  }

  /** Writing one key leaves every other row unchanged. */
  lemma WriteUpdatesOneRow(c: Pages, index: KeyIndex, size: nat, key: nat, row: Bytes)
    requires TableOk(c, index, size) && key in index && |row| == size
    ensures TableOk(WritePage(c, index[key], row), index, size)
    ensures Rows(WritePage(c, index[key], row), index, size) == Rows(c, index, size)[key := row]
  {
    var c' := WritePage(c, index[key], row);
    forall k | k in index
      ensures RowInPage(c', index[k], size)
      ensures RowOf(c', index[k], size) == if k == key then row else RowOf(c, index[k], size)
    {
      var it, at := index[key], index[k];
      assert RowInPage(c, it, size) && RowInPage(c, at, size);
      assert k != key ==> Apart(it, at, size) && it != at;
      WriteSeenFrom(c, it, row, at);
    }
    assert TableOk(c', index, size);
    UpdateByPoints(Rows(c, index, size), Rows(c', index, size), key, row);
  }

  /** A freshly laid out table is in order and holds the initial rows. */
  lemma InitialTable(disk: Pages, index: KeyIndex, size: nat, n: nat)
    requires TupleSize(size) && IsU64(n)
    requires forall k :: k in index <==> 0 <= k < n
    requires forall k :: 0 <= k < n ==> index[k] == Slot(size, k)
    requires AllOnDisk(disk, size, n)
    ensures TableOk(disk, index, size)
    ensures Rows(disk, index, size) == map k | 0 <= k < n :: InitialRow(size, k)
    ensures forall k :: k in index ==> KeyOf(InitialRow(size, k)) == k
  {
    forall k | k in index
      ensures RowInPage(disk, index[k], size)
      ensures RowOf(disk, index[k], size) == InitialRow(size, k) && KeyOf(InitialRow(size, k)) == k
    {
      assert OnDisk(disk, size, k);
      InitialRowKey(size, k);
      SlotsDisjoint(size, k, k);
    }
    forall j, k | j in index && k in index && j != k ensures Apart(index[j], index[k], size) {
      SlotsDisjoint(size, j, k);
    }
  }

  // ---------------------------------------------------------------- whole runs

  datatype RowOp = ReadOp(key: nat) | WriteOp(key: nat, row: Bytes)

  /** One call on the pages. ReadRow stops when the row does not carry its key. */
  ghost function Apply(c: Pages, index: KeyIndex, size: nat, op: RowOp): Outcome<(Pages, Bytes)>
    requires TableOk(c, index, size) && op.key in index
  {
    match op
    case WriteOp(key, row) => Done((WritePage(c, index[key], row), []))
    case ReadOp(key) =>
      var row := RowOf(c, index[key], size);
      if KeyOf(row) == key then Done((c, row)) else Stopped
  }

  /** The same call on a map from key to row. */
  ghost function ApplyMap(m: map<nat, Bytes>, op: RowOp): Outcome<(map<nat, Bytes>, Bytes)>
    requires op.key in m && |m[op.key]| >= WORD
  {
    match op
    case WriteOp(key, row) => Done((m[key := row], []))
    case ReadOp(key) => if KeyOf(m[key]) == key then Done((m, m[key])) else Stopped
  }

  predicate OpsOk(index: KeyIndex, size: nat, ops: seq<RowOp>) {
    forall i :: 0 <= i < |ops| ==> ops[i].key in index && (ops[i].WriteOp? ==> |ops[i].row| == size)
  }

  function Prepend<T>(b: Bytes, r: Outcome<(T, seq<Bytes>)>): Outcome<(T, seq<Bytes>)> {
    match r
    case Stopped => Stopped
    case Done((t, bs)) => Done((t, [b] + bs))
  }

  ghost function RunPages(c: Pages, index: KeyIndex, size: nat, ops: seq<RowOp>): Outcome<(Pages, seq<Bytes>)>
    requires TableOk(c, index, size) && OpsOk(index, size, ops)
    decreases |ops|
  {
    if ops == [] then Done((c, [])) else
    match Apply(c, index, size, ops[0])
    case Stopped => Stopped
    case Done((c', b)) =>
      assert TableOk(c', index, size) by {
        if ops[0].WriteOp? { WriteUpdatesOneRow(c, index, size, ops[0].key, ops[0].row); }
      }
      Prepend(b, RunPages(c', index, size, ops[1..]))
  }

  ghost predicate MapOk(m: map<nat, Bytes>, index: KeyIndex, size: nat) {
    m.Keys == index.Keys && size >= WORD && forall k :: k in m ==> |m[k]| == size
  }

  ghost function RunMap(m: map<nat, Bytes>, index: KeyIndex, size: nat, ops: seq<RowOp>): Outcome<(map<nat, Bytes>, seq<Bytes>)>
    requires MapOk(m, index, size) && OpsOk(index, size, ops)
    decreases |ops|
  {
    if ops == [] then Done((m, [])) else
    match ApplyMap(m, ops[0])
    case Stopped => Stopped
    case Done((m', b)) => Prepend(b, RunMap(m', index, size, ops[1..]))
  }

  /** Both stop, or both return the same rows and the pages then hold what the map holds. */
  ghost predicate Agree(p: Outcome<(Pages, seq<Bytes>)>, m: Outcome<(map<nat, Bytes>, seq<Bytes>)>, index: KeyIndex, size: nat) {
    if p.Done? then m.Done? && p.value.1 == m.value.1 && TableOk(p.value.0, index, size) && Rows(p.value.0, index, size) == m.value.0
    else m.Stopped?
  }

  lemma RowsOk(c: Pages, index: KeyIndex, size: nat)
    requires TableOk(c, index, size)
    ensures MapOk(Rows(c, index, size), index, size)
  {
  }

  lemma AgreePrepend(b: Bytes, p: Outcome<(Pages, seq<Bytes>)>, m: Outcome<(map<nat, Bytes>, seq<Bytes>)>, index: KeyIndex, size: nat)
    requires Agree(p, m, index, size)
    ensures Agree(Prepend(b, p), Prepend(b, m), index, size)
  {
  }

  lemma RunPagesStep(c: Pages, index: KeyIndex, size: nat, ops: seq<RowOp>)
    requires TableOk(c, index, size) && OpsOk(index, size, ops) && ops != []
    ensures var r := Apply(c, index, size, ops[0]);
            if r.Done? then TableOk(r.value.0, index, size) &&
                            RunPages(c, index, size, ops) == Prepend(r.value.1, RunPages(r.value.0, index, size, ops[1..]))
            else RunPages(c, index, size, ops) == Stopped
  {
    ApplyRefines(c, index, size, ops[0]);
  }

  lemma RunMapStep(m: map<nat, Bytes>, index: KeyIndex, size: nat, ops: seq<RowOp>)
    requires MapOk(m, index, size) && OpsOk(index, size, ops) && ops != []
    ensures var r := ApplyMap(m, ops[0]);
            if r.Done? then MapOk(r.value.0, index, size) &&
                            RunMap(m, index, size, ops) == Prepend(r.value.1, RunMap(r.value.0, index, size, ops[1..]))
            else RunMap(m, index, size, ops) == Stopped
  {
  }

  ghost predicate Refines(c: Pages, m: map<nat, Bytes>, index: KeyIndex, size: nat, ops: seq<RowOp>) {
    && TableOk(c, index, size) && MapOk(m, index, size) && OpsOk(index, size, ops)
    && Agree(RunPages(c, index, size, ops), RunMap(m, index, size, ops), index, size)
  }

  lemma RefinesStep(c: Pages, m: map<nat, Bytes>, index: KeyIndex, size: nat, ops: seq<RowOp>)
    requires TableOk(c, index, size) && OpsOk(index, size, ops) && ops != [] && MapOk(m, index, size)
    requires var p, q := Apply(c, index, size, ops[0]), ApplyMap(m, ops[0]);
             if p.Done? then q.Done? && p.value.1 == q.value.1 && Refines(p.value.0, q.value.0, index, size, ops[1..]) else q.Stopped?
    ensures Refines(c, m, index, size, ops)
  {
    RunPagesStep(c, index, size, ops);
    RunMapStep(m, index, size, ops);
    var p := Apply(c, index, size, ops[0]);
    if p.Done? {
      var q, rest := ApplyMap(m, ops[0]), ops[1..];
      AgreePrepend(p.value.1, RunPages(p.value.0, index, size, rest), RunMap(q.value.0, index, size, rest), index, size);
    }
  }

  /** The pages hold table m. */
  ghost predicate Stores(c: Pages, m: map<nat, Bytes>, index: KeyIndex, size: nat) {
    TableOk(c, index, size) && m == Rows(c, index, size)
  }

  lemma Advance(c: Pages, m: map<nat, Bytes>, index: KeyIndex, size: nat, op: RowOp)
    returns (stop: bool, c': Pages, m': map<nat, Bytes>, b: Bytes)
    requires Stores(c, m, index, size) && op.key in index && (op.WriteOp? ==> |op.row| == size)
    ensures MapOk(m, index, size)
    ensures stop ==> Apply(c, index, size, op) == Stopped && ApplyMap(m, op) == Stopped
    ensures !stop ==> Apply(c, index, size, op) == Done((c', b)) && ApplyMap(m, op) == Done((m', b)) && Stores(c', m', index, size)
  {
    RowsOk(c, index, size);
    ApplyRefines(c, index, size, op);
    var p, q := Apply(c, index, size, op), ApplyMap(m, op);
    if p.Done? {
      stop, c', m', b := false, p.value.0, q.value.0, p.value.1;
    } else {
      stop, c', m', b := true, c, m, [];
    }
  }

  lemma RefinesNothing(c: Pages, m: map<nat, Bytes>, index: KeyIndex, size: nat)
    requires Stores(c, m, index, size)
    ensures Refines(c, m, index, size, [])
  {
    RowsOk(c, index, size);
  }

  lemma OpsTail(index: KeyIndex, size: nat, ops: seq<RowOp>) returns (rest: seq<RowOp>)
    requires OpsOk(index, size, ops) && ops != []
    ensures rest == ops[1..] && OpsOk(index, size, rest)
  {
    rest := ops[1..];
  }

  /** Any sequence of ReadRow and WriteRow on the pages gives what it gives on a map from key to
      row, including where it stops. */
  lemma {:induction false} RowStoreIsMap(c: Pages, m: map<nat, Bytes>, index: KeyIndex, size: nat, ops: seq<RowOp>)
    requires Stores(c, m, index, size) && OpsOk(index, size, ops)
    ensures Refines(c, m, index, size, ops)
    decreases |ops|
  {
    if ops == [] {
      RefinesNothing(c, m, index, size);
    } else {
      var stop, c', m', b := Advance(c, m, index, size, ops[0]);
      var rest := OpsTail(index, size, ops);
      if !stop {
        RowStoreIsMap(c', m', index, size, rest);
      }
      RefinesStep(c, m, index, size, ops);
    }
  }

  lemma ApplyRefines(c: Pages, index: KeyIndex, size: nat, op: RowOp)
    requires TableOk(c, index, size) && op.key in index && (op.WriteOp? ==> |op.row| == size)
    ensures var p, m := Apply(c, index, size, op), ApplyMap(Rows(c, index, size), op);
            (p.Stopped? <==> m.Stopped?) &&
            (p.Done? ==> p.value.1 == m.value.1 && TableOk(p.value.0, index, size) &&
                         Rows(p.value.0, index, size) == m.value.0)
  {
    if op.WriteOp? { WriteUpdatesOneRow(c, index, size, op.key, op.row); }
  }

  /** Rows that carry their key keep the key-check asserts from ever failing. */
  lemma {:induction false} KeyCheckHolds(m: map<nat, Bytes>, index: KeyIndex, size: nat, ops: seq<RowOp>)
    requires MapOk(m, index, size) && OpsOk(index, size, ops)
    requires forall k :: k in m ==> KeyOf(m[k]) == k
    requires forall i :: 0 <= i < |ops| && ops[i].WriteOp? ==> KeyOf(ops[i].row) == ops[i].key
    ensures RunMap(m, index, size, ops).Done?
    decreases |ops|
  {
    if ops != [] {
      KeyCheckHolds(ApplyMap(m, ops[0]).value.0, index, size, ops[1..]);
    }
  }
}
