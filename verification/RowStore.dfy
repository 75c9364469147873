/** ReadRow and WriteRow on top of the lock table and the buffer pool (common/storage/row_handler.cpp). */
module RowStore {
  import opened Bytes
  import opened PageLayout
  import opened TableInit
  import opened RowSpec
  import BP = BufferPool
  import Pool = PoolSpec
  import LT = LockTable

  lemma PutBack(nodes: map<nat, LT.Node>, page: nat, n: LT.Node)
    requires page in nodes
    ensures nodes[page := n][page := nodes[page]] == nodes
  {
  }

  class RowHandler {
    const size: nat
    const index: KeyIndex
    const pool: BP.Buffer
    const locks: LT.Table
    ghost var table: map<nat, Bytes>  // the rows, by key

    ghost predicate Valid()
      reads this, pool, pool.pageList, pool.freeList, pool.frames
    {
      && pool.Valid() && pool.pageNum >= 5
      && TableOk(Pages(), index, size) && table == Rows(Pages(), index, size)
    }

    /** What the pool holds, resident or on disk. */
    ghost function Pages(): RowSpec.Pages
      reads pool
    {
      Pool.Contents(pool.view)
    }

    /** Lock(page of `key`, mode) goes through without waiting: S under O, P or S, X under P. */
    ghost predicate Lockable(key: nat, mode: LT.LockMode)
      reads locks
    {
      key in index && index[key].pageId in locks.nodes && LT.Acquire(locks.nodes[index[key].pageId], mode).Done?
    }

    constructor (size: nat, index: KeyIndex, pool: BP.Buffer, locks: LT.Table)
      requires pool.Valid() && pool.pageNum >= 5 && TableOk(Pool.Contents(pool.view), index, size)
      ensures Valid() && this.pool == pool && this.locks == locks && this.index == index && this.size == size
      ensures table == Rows(Pool.Contents(pool.view), index, size)
    {
      this.size, this.index, this.pool, this.locks := size, index, pool, locks;
      table := Rows(Pool.Contents(pool.view), index, size);
    }

    // A page of the table comes out of the pool as the table says, and the pool still holds it.
    method FetchPage(pageId: nat) returns (page: Bytes)
      requires Valid() && pageId in Pages()
      modifies pool, pool.pageList, pool.freeList, pool.frames
      ensures Valid() && Pages() == old(Pages()) && page == Pages()[pageId] && locks.nodes == old(locks.nodes)
    {
      page := LoadPage(pageId);
    }

    method LoadPage(pageId: nat) returns (page: Bytes)
      requires pool.Valid() && pool.pageNum >= 5 && pageId in Pages()
      modifies pool, pool.pageList, pool.freeList, pool.frames
      ensures pool.Valid() && Pages() == old(Pages()) && page == Pages()[pageId] && locks.nodes == old(locks.nodes)
    {
      page := pool.GetPage(pageId, []);
    }

    method StorePage(pageId: nat, page: Bytes)
      requires pool.Valid() && pool.pageNum >= 5
      modifies pool, pool.pageList, pool.freeList, pool.frames
      ensures pool.Valid() && Pages() == old(Pages())[pageId := page] && locks.nodes == old(locks.nodes)
    {
      pool.PutPage(pageId, page);
    }

    // The page work of ReadRow, between Lock and UnLock.
    method CopyOut(key: nat) returns (row: Bytes)
      requires Valid() && key in index
      modifies pool, pool.pageList, pool.freeList, pool.frames
      ensures Valid() && row == table[key] && locks.nodes == old(locks.nodes)
    {
      ghost var pages := Pages();
      TableRow(pages, index, size, key);
      var page := FetchPage(index[key].pageId);
      row := RowFrom(pages, page, index[key], size);
    }

    // The page names itself; the row lies where the index says.
    static function RowFrom(ghost pages: RowSpec.Pages, page: Bytes, it: Item, size: nat): (row: Bytes)
      requires RowInPage(pages, it, size) && page == pages[it.pageId]
      ensures row == RowOf(pages, it, size)
    {
      assert Deserialize(page).pageId == it.pageId;
      page[it.location..it.location + size]
    }

    // The page work of WriteRow, between Lock and UnLock.
    method CopyIn(key: nat, row: Bytes)
      requires Valid() && key in index && |row| == size
      modifies this, pool, pool.pageList, pool.freeList, pool.frames
      ensures Valid() && table == old(table)[key := row] && locks.nodes == old(locks.nodes)
    {
      TableRow(Pages(), index, size, key);
      var page := FetchPage(index[key].pageId);
      StoreRow(key, row, page);
    }

    method StoreRow(key: nat, row: Bytes, page: Bytes)
      requires Valid() && key in index && |row| == size && RowInPage(Pages(), index[key], size)
      requires page == Pages()[index[key].pageId]
      modifies this, pool, pool.pageList, pool.freeList, pool.frames
      ensures Valid() && table == old(table)[key := row] && locks.nodes == old(locks.nodes)
    {
      var it := index[key];
      ghost var pages := WritePage(Pages(), it, row);
      WriteUpdatesOneRow(Pages(), index, size, key, row);
      StorePage(it.pageId, PageWith(page, it, row));
      assert Pages() == pages;
      table := table[key := row];
    }

    // The lock table is apart from the pool and its pages.
    method LockPage(pageId: nat, mode: LT.LockMode) returns (n: LT.Node)
      requires Valid() && pageId in locks.nodes && LT.Acquire(locks.nodes[pageId], mode).Done?
      modifies locks
      ensures Valid() && locks.nodes == old(locks.nodes)[pageId := n]
      ensures LT.UnLock(n) == LT.Done(old(locks.nodes)[pageId]) && (n.mode == LT.O || n.mode == mode)
    {
      LT.UnLockUndoesLock(locks.nodes[pageId]);
      var rc := locks.Lock(pageId, mode);
      assert rc.Done?;
      n := rc.value;
    }

    method UnlockPage(pageId: nat, ghost before: map<nat, LT.Node>, ghost n: LT.Node)
      requires Valid() && pageId in before && locks.nodes == before[pageId := n] && LT.UnLock(n) == LT.Done(before[pageId])
      modifies locks
      ensures Valid() && locks.nodes == before
    {
      var rc := locks.Unlock(pageId);
      assert rc.Done?;
      PutBack(before, pageId, n);
    }

    /** Returns the row and whether it passed the key check. */
    method ReadRow(key: nat) returns (ok: bool, row: Bytes)
      requires Valid() && Lockable(key, LT.S)
      modifies pool, pool.pageList, pool.freeList, pool.frames, locks
      ensures Valid() && row == table[key]
      ensures ok <==> KeyOf(row) == key
      ensures ok ==> locks.nodes == old(locks.nodes)
    {
      var pageId := index[key].pageId;
      var n := LockPage(pageId, LT.S);
      assert n.mode == LT.O || n.mode == LT.S;
      row := CopyOut(key);
      ok := Decode(row[..WORD]) == key;
      if !ok { return; }
      UnlockPage(pageId, old(locks.nodes), n);
    }

    method WriteRow(key: nat, row: Bytes)
      requires Valid() && Lockable(key, LT.X) && |row| == size
      modifies this, pool, pool.pageList, pool.freeList, pool.frames, locks
      ensures Valid() && table == old(table)[key := row]
      ensures locks.nodes == old(locks.nodes)
    {
      var pageId := index[key].pageId;
      LT.WriterFindsOwned(locks.nodes[pageId]);
      assert locks.nodes[pageId].mode != LT.O;
      var n := LockPage(pageId, LT.X);
      CopyIn(key, row);
      UnlockPage(pageId, old(locks.nodes), n);
    }
  }
}
