/** Laying out a table: ycsb_wl::init_table (common/workload/ycsb_wl.cpp). */
module TableInit {
  import opened Bytes
  import opened PageLayout

  /** Where the index says a key's row is. */
  datatype Item = Item(pageId: nat, location: nat)

  type KeyIndex = map<nat, Item>

  predicate TupleSize(size: nat) {
    2 * WORD <= size <= PAGE_SIZE - HEADER
  }

  function RowsPerPage(size: nat): nat
    requires TupleSize(size)
  {
    (PAGE_SIZE - HEADER) / size
  }

  /** Page and offset of the row of `key`. */
  function Slot(size: nat, key: nat): Item
    requires TupleSize(size)
  {
    RowsFit(size);
    Item(key / RowsPerPage(size), HEADER + key % RowsPerPage(size) * size)
  }

  // ---------------------------------------------------------------- multiples

  /** a * b, unfolded one step at a time. */
  function Times(a: nat, b: nat): nat {
    if a == 0 then 0 else Times(a - 1, b) + b
  }

  lemma {:induction false} TimesIsProduct(a: nat, b: nat)
    ensures Times(a, b) == a * b
  {
    if a > 0 {
      TimesIsProduct(a - 1, b);
      assert (a - 1) * b == a * b - b;
    }
  }

  lemma {:induction false} TimesGrows(a: nat, c: nat, b: nat)
    requires a < c
    ensures Times(a, b) + b <= Times(c, b)
    decreases c
  {
    if a < c - 1 { TimesGrows(a, c - 1, b); }
  }

  /** `r` rows of `size` bytes fit behind the header, and no more. */
  predicate Fits(size: nat, r: nat) {
    2 * WORD <= size && r >= 1 && Times(r, size) <= PAGE_SIZE - HEADER < Times(r, size) + size
  }

  lemma RowsFit(size: nat)
    requires TupleSize(size)
    ensures RowsPerPage(size) >= 1 && Fits(size, RowsPerPage(size))
  {
    var q, m := (PAGE_SIZE - HEADER) / size, (PAGE_SIZE - HEADER) % size;
    assert PAGE_SIZE - HEADER == size * q + m;
    assert size * q == q * size;
    TimesIsProduct(q, size);
    assert q >= 1;
  }

  // ---------------------------------------------------------------- slots

  /** Row `j` of page `p` belongs to this key. */
  function KeyAt(r: nat, p: nat, j: nat): nat {
    Times(p, r) + j
  }

  function Offset(size: nat, j: nat): nat {
    HEADER + Times(j, size)
  }

  lemma SlotOfKey(size: nat, p: nat, j: nat)
    requires TupleSize(size) && j < RowsPerPage(size)
    ensures Slot(size, KeyAt(RowsPerPage(size), p, j)) == Item(p, Offset(size, j))
  {
    var r := RowsPerPage(size);
    TimesIsProduct(p, r);
    TimesIsProduct(j, size);
    assert r * p == p * r;
    DivModUnique(KeyAt(r, p, j), r, p, j);
  }

  lemma KeyHasSlot(r: nat, key: nat)
    requires r >= 1
    ensures key == KeyAt(r, key / r, key % r)
  {
    TimesIsProduct(key / r, r);
    assert key == r * (key / r) + key % r;
    assert r * (key / r) == key / r * r;
  }

  /** Slots lie inside the page, behind the header, and do not overlap. */
  lemma SlotsDisjoint(size: nat, j: nat, k: nat)
    requires TupleSize(size)
    ensures HEADER <= Slot(size, k).location && Slot(size, k).location + size <= PAGE_SIZE
    ensures j != k && Slot(size, j).pageId == Slot(size, k).pageId ==>
              || Slot(size, j).location + size <= Slot(size, k).location
              || Slot(size, k).location + size <= Slot(size, j).location
  {
    RowsFit(size);
    var r := RowsPerPage(size);
    KeyHasSlot(r, j);
    KeyHasSlot(r, k);
    var a, b := j % r, k % r;
    SlotOfKey(size, j / r, a);
    SlotOfKey(size, k / r, b);
    TimesGrows(b, r, size);
    if a < b { TimesGrows(a, b, size); }
    if b < a { TimesGrows(b, a, size); }
  }

  // ---------------------------------------------------------------- rows in pages

  predicate RowAt(buf: Bytes, at: nat, row: Bytes) {
    at + |row| <= |buf| && buf[at..at + |row|] == row
  }

  /** The first `count` slots of the buffer of page `p` hold the initial rows of their keys. */
  ghost predicate Packed(buf: Bytes, size: nat, r: nat, p: nat, count: nat) {
    && |buf| == PAGE_SIZE
    && forall j :: 0 <= j < count ==> RowAt(buf, Offset(size, j), InitialRow(size, KeyAt(r, p, j)))
  }

  /** Page `p` is on disk with its first `count` rows, and announces its own id. */
  ghost predicate PageOnDisk(disk: map<nat, Bytes>, size: nat, r: nat, p: nat, count: nat) {
    p in disk && Packed(disk[p], size, r, p, count) && Deserialize(disk[p]).pageId == p
  }

  lemma PutRow(buf: Bytes, size: nat, r: nat, p: nat, count: nat)
    requires Fits(size, r) && Packed(buf, size, r, p, count) && count < r
    ensures Offset(size, count) + size <= PAGE_SIZE
    ensures Packed(Splice(buf, Offset(size, count), InitialRow(size, KeyAt(r, p, count))), size, r, p, count + 1)
  {
    TimesGrows(count, r, size);
    var at, row := Offset(size, count), InitialRow(size, KeyAt(r, p, count));
    StampAgain(size, 0, KeyAt(r, p, count));
    SpliceReads(buf, at, row);
    var buf' := Splice(buf, at, row);
    forall j | 0 <= j < count + 1 ensures RowAt(buf', Offset(size, j), InitialRow(size, KeyAt(r, p, j))) {
      if j < count {
        TimesGrows(j, count, size);
        StampAgain(size, 0, KeyAt(r, p, j));
        assert RowAt(buf, Offset(size, j), InitialRow(size, KeyAt(r, p, j)));
      }
    }
  }

  // Serialize touches the header only.
  lemma SerializedPacked(page: Page, size: nat, r: nat, count: nat)
    requires Packed(page.buf, size, r, page.pageId, count) && IsU64(page.pageId)
    ensures Packed(Serialize(page), size, r, page.pageId, count)
    ensures Deserialize(Serialize(page)).pageId == page.pageId
  {
    SerializedHeader(page);
    var s := Serialize(page);
    forall j | 0 <= j < count ensures RowAt(s, Offset(size, j), InitialRow(size, KeyAt(r, page.pageId, j))) {
      var at, row := Offset(size, j), InitialRow(size, KeyAt(r, page.pageId, j));
      assert RowAt(page.buf, at, row);
      assert s[at..at + |row|] == s[HEADER..][at - HEADER..at - HEADER + |row|];
      assert page.buf[at..at + |row|] == page.buf[HEADER..][at - HEADER..at - HEADER + |row|];
    }
  }

  // ---------------------------------------------------------------- the loop

  /** `key` rows are laid out: the last `count` on the current page, the others on disk. */
  ghost predicate Filling(disk: map<nat, Bytes>, page: Page, size: nat, r: nat, key: nat, count: nat) {
    && key == KeyAt(r, page.pageId, count) && count <= r && page.pageId <= key
    && page.usedSize == Offset(size, count)
    && Packed(page.buf, size, r, page.pageId, count)
    && forall p :: 0 <= p < page.pageId ==> PageOnDisk(disk, size, r, p, r)
  }

  ghost predicate RowReady(row: Bytes, size: nat, key: nat) {
    row == if key == 0 then Filled(size) else InitialRow(size, key - 1)
  }

  /** The index has keys 0, ..., key - 1 and sends each to its page and offset. */
  ghost predicate Indexed(index: KeyIndex, size: nat, r: nat, key: nat) {
    && (forall k :: k in index <==> 0 <= k < key)
    && (forall p: nat, j: nat :: j < r && KeyAt(r, p, j) < key ==> index[KeyAt(r, p, j)] == Item(p, Offset(size, j)))
  }

  /** A full page goes to disk and its buffer is reused for the next one. */
  method TurnPage(disk: map<nat, Bytes>, page: Page, size: nat, ghost r: nat, ghost key: nat, ghost count: nat)
    returns (disk': map<nat, Bytes>, page': Page)
    requires Fits(size, r) && Filling(disk, page, size, r, key, count) && IsU64(key) && size > PAGE_SIZE - page.usedSize
    ensures Filling(disk', page', size, r, key, 0)
    ensures page.usedSize == r * size + HEADER
  {
    if count < r { TimesGrows(count, r, size); }
    TimesIsProduct(r, size);
    SerializedPacked(page, size, r, count);
    var buf := Serialize(page);
    disk' := disk[page.pageId := buf];
    page' := page.(buf := buf, pageId := page.pageId + 1, usedSize := HEADER);
    PageIdBound(page'.pageId, r);
    forall p | 0 <= p < page'.pageId ensures PageOnDisk(disk', size, r, p, r) {
      assert p < page.pageId ==> PageOnDisk(disk, size, r, p, r);
    }
  }

  lemma {:induction false} PageIdBound(p: nat, r: nat)
    requires r >= 1
    ensures p <= Times(p, r)
  {
    if p > 0 { PageIdBound(p - 1, r); }
  }

  lemma PutKey(disk: map<nat, Bytes>, page: Page, size: nat, r: nat, key: nat, count: nat)
    requires Fits(size, r) && Filling(disk, page, size, r, key, count) && count < r
    ensures page.usedSize + size <= PAGE_SIZE
    ensures Filling(disk, page.(buf := Splice(page.buf, page.usedSize, InitialRow(size, key)), usedSize := page.usedSize + size),
                    size, r, key + 1, count + 1)
  {
    PutRow(page.buf, size, r, page.pageId, count);
  }

  lemma IndexKey(index: KeyIndex, size: nat, r: nat, p: nat, count: nat)
    requires r >= 1 && count < r && Indexed(index, size, r, KeyAt(r, p, count))
    ensures Indexed(index[KeyAt(r, p, count) := Item(p, Offset(size, count))], size, r, KeyAt(r, p, count) + 1)
  {
    var key := KeyAt(r, p, count);
    forall p': nat, j: nat | j < r && KeyAt(r, p', j) == key ensures p' == p && j == count {
      if p' < p { TimesGrows(p', p, r); }
      if p < p' { TimesGrows(p, p', r); }
    }
  }

  /** Pages are filled one after the other, from the end of the header on, with as many rows as fit. */
  ghost predicate InOrder(index: KeyIndex, size: nat, n: nat)
    requires TupleSize(size)
  {
    RowsFit(size);
    var r := (PAGE_SIZE - HEADER) / size;
    forall k :: 0 <= k < n ==> k in index && index[k] == Item(k / r, HEADER + k % r * size)
  }

  lemma IndexSlots(index: KeyIndex, size: nat, n: nat)
    requires TupleSize(size) && Indexed(index, size, RowsPerPage(size), n)
    ensures forall k :: 0 <= k < n ==> k in index && index[k] == Slot(size, k)
    ensures InOrder(index, size, n)
  {
    RowsFit(size);
    var r := RowsPerPage(size);
    forall k | 0 <= k < n ensures index[k] == Slot(size, k) {
      KeyHasSlot(r, k);
      SlotOfKey(size, k / r, k % r);
    }
  }

  /** Stamps the row of `key`, appends it to the page and enters it into the index. */
  method PutNext(disk: map<nat, Bytes>, page: Page, row: Bytes, index: KeyIndex, size: nat, ghost r: nat,
                 key: nat, ghost count: nat)
    returns (page': Page, row': Bytes, index': KeyIndex)
    requires Fits(size, r) && count < r
    requires Filling(disk, page, size, r, key, count) && RowReady(row, size, key) && Indexed(index, size, r, key)
    ensures Filling(disk, page', size, r, key + 1, count + 1)
    ensures RowReady(row', size, key + 1) && Indexed(index', size, r, key + 1)
  {
    StampAgain(size, if key == 0 then 0 else key - 1, key);
    PutKey(disk, page, size, r, key, count);
    IndexKey(index, size, r, page.pageId, count);
    row' := StampRow(row, key);
    page' := page.(buf := Splice(page.buf, page.usedSize, row'), usedSize := page.usedSize + size);
    index' := index[key := Item(page'.pageId, page'.usedSize - size)];
  }

  /** Packs keys 0, 1, ..., n - 1 into pages. `scratch` is the uninitialised page buffer and
      `version` the uninitialised version field. */
  method InitTable(n: nat, size: nat, scratch: Bytes, version: nat)
    returns (disk: map<nat, Bytes>, index: KeyIndex, lastPageId: nat)
    requires TupleSize(size) && IsU64(n) && |scratch| == PAGE_SIZE
    ensures forall k :: k in index <==> 0 <= k < n
    ensures forall k :: 0 <= k < n ==> index[k] == Slot(size, k)
    ensures InOrder(index, size, n)
    ensures AllOnDisk(disk, size, n)
    ensures lastPageId == if n == 0 then 0 else Slot(size, n - 1).pageId
  {
    RowsFit(size);
    ghost var r, count := RowsPerPage(size), 0;
    disk, index := map[], map[];
    var page := Page(0, PAGE_SIZE, HEADER, version, scratch);
    var row := Filled(size);
    for key := 0 to n
      invariant Filling(disk, page, size, r, key, count) && (key > 0 ==> count > 0)
      invariant RowReady(row, size, key) && Indexed(index, size, r, key)
    {
      if size > PAGE_SIZE - page.usedSize {
        disk, page := TurnPage(disk, page, size, r, key, count);
        count := 0;
      }
      page, row, index := PutNext(disk, page, row, index, size, r, key, count);
      count := count + 1;
    }
    LastPage(disk, page, size, n, count);
    IndexSlots(index, size, n);
    if page.usedSize > HEADER {
      disk := disk[page.pageId := Serialize(page)];
    }
    lastPageId := page.pageId;
  }

  /** The row of `key` is on disk where `Slot` says, on a page that announces its own id. */
  ghost predicate OnDisk(disk: map<nat, Bytes>, size: nat, key: nat)
    requires TupleSize(size)
  {
    var s := Slot(size, key);
    && s.pageId in disk && |disk[s.pageId]| == PAGE_SIZE
    && Deserialize(disk[s.pageId]).pageId == s.pageId
    && RowAt(disk[s.pageId], s.location, InitialRow(size, key))
  }

  /** Keys 0, ..., m - 1 are on disk. */
  ghost predicate AllOnDisk(disk: map<nat, Bytes>, size: nat, m: nat)
    requires TupleSize(size)
  {
    forall k :: 0 <= k < m ==> OnDisk(disk, size, k)
  }

  lemma LastPage(disk: map<nat, Bytes>, page: Page, size: nat, n: nat, count: nat)
    requires TupleSize(size) && Filling(disk, page, size, RowsPerPage(size), n, count) && IsU64(n) && (n > 0 ==> count > 0)
    ensures page.usedSize > HEADER <==> n > 0
    ensures n > 0 ==> Slot(size, n - 1).pageId == page.pageId
    ensures n > 0 ==> AllOnDisk(disk[page.pageId := Serialize(page)], size, n)
    ensures n == 0 ==> page.pageId == 0
  {
    RowsFit(size);
    if n > 0 {
      SlotOfKey(size, page.pageId, count - 1);
      TimesGrows(0, count, size);
      SerializedPacked(page, size, RowsPerPage(size), count);
      var disk' := disk[page.pageId := Serialize(page)];
      forall p | 0 <= p < page.pageId ensures PageOnDisk(disk', size, RowsPerPage(size), p, RowsPerPage(size)) {
        assert PageOnDisk(disk, size, RowsPerPage(size), p, RowsPerPage(size));
      }
      PagesHoldKeys(disk', size, page.pageId, count);
    } else {
      PageIdBound(page.pageId, RowsPerPage(size));
    }
  }

  lemma PagesHoldKeys(disk: map<nat, Bytes>, size: nat, last: nat, count: nat)
    requires TupleSize(size) && count <= RowsPerPage(size)
    requires forall p :: 0 <= p < last ==> PageOnDisk(disk, size, RowsPerPage(size), p, RowsPerPage(size))
    requires PageOnDisk(disk, size, RowsPerPage(size), last, count)
    ensures AllOnDisk(disk, size, KeyAt(RowsPerPage(size), last, count))
  {
    var r := RowsPerPage(size);
    RowsFit(size);
    forall k | 0 <= k < KeyAt(r, last, count) ensures OnDisk(disk, size, k) {
      KeyHasSlot(r, k);
      if k / r > last { TimesGrows(last, k / r, r); }
      PageHasKey(disk, size, k / r, k % r, if k / r < last then r else count);
    }
  }

  lemma PageHasKey(disk: map<nat, Bytes>, size: nat, p: nat, j: nat, count: nat)
    requires TupleSize(size) && j < count <= RowsPerPage(size) && PageOnDisk(disk, size, RowsPerPage(size), p, count)
    ensures OnDisk(disk, size, KeyAt(RowsPerPage(size), p, j))
  {
    SlotOfKey(size, p, j);
    assert RowAt(disk[p], Offset(size, j), InitialRow(size, KeyAt(RowsPerPage(size), p, j)));
  }
}
