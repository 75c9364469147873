/**
  The buffer pool (common/buffer/buffer.cpp). Page frames are the nodes of two linked lists; what
  a node's page holds is kept in the map `pages`.
*/
module BufferPool {
  import opened Bytes
  import opened Lru
  import opened Outcomes
  import Spec = PoolSpec

  /** Node n holds page `id` with the contents `mem` says, and the index leads there. */
  ghost predicate Holds(pages: map<PageNode, Spec.Frame>, n: PageNode, index: map<nat, PageNode>, mem: map<nat, Bytes>, id: nat) {
    && id in index && index[id] == n && n in pages
    && id in mem && pages[n] == Spec.Frame(id, mem[id])
  }

  /** The index is a bijection onto the page list with matching page ids, and the pages hold what
      pool `v` says. */
  ghost predicate Linked(pages: map<PageNode, Spec.Frame>, nodes: seq<PageNode>, index: map<nat, PageNode>, v: Spec.Pool) {
    && Spec.Wf(v)
    && |v.order| == |nodes| && index.Keys == v.mem.Keys
    && forall k :: 0 <= k < |nodes| ==> Holds(pages, nodes[k], index, v.mem, v.order[k])
  }

  lemma HoldsAfterEvict(pages: map<PageNode, Spec.Frame>, n: PageNode, index: map<nat, PageNode>, mem: map<nat, Bytes>, id: nat,
                        m: PageNode, out: nat, f: Spec.Frame)
    requires Holds(pages, n, index, mem, id) && n != m && id != out
    ensures Holds(pages[m := f], n, index - {out}, mem - {out}, id)
  {
  }

  lemma HoldsAfterLoad(pages: map<PageNode, Spec.Frame>, n: PageNode, index: map<nat, PageNode>, mem: map<nat, Bytes>, id: nat,
                       m: PageNode, added: nat, page: Bytes)
    requires Holds(pages, n, index, mem, id) && n != m && id != added
    ensures Holds(pages[m := Spec.Frame(added, page)], n, index[added := m], mem[added := page], id)
  {
  }

  predicate Distinct(nodes: seq<PageNode>) {
    forall j, k :: 0 <= j < k < |nodes| ==> nodes[j] != nodes[k]
  }

  lemma LinkedEvict(pages: map<PageNode, Spec.Frame>, nodes: seq<PageNode>, index: map<nat, PageNode>, v: Spec.Pool)
    requires Linked(pages, nodes, index, v) && Distinct(nodes) && nodes != []
    ensures var last := |nodes| - 1;
            var n := nodes[last];
            && n in pages && Spec.EvictOne(v).disk == v.disk[pages[n].pageId := pages[n].buf]
            && Linked(pages[n := pages[n].(pageId := U64_MAX)], nodes[..last], index - {pages[n].pageId}, Spec.EvictOne(v))
  {
    Spec.EvictOneWf(v);
    var last := |nodes| - 1;
    var n, id := nodes[last], v.order[last];
    assert Holds(pages, n, index, v.mem, id);
    var f := pages[n].(pageId := U64_MAX);
    forall k | 0 <= k < last ensures Holds(pages[n := f], nodes[k], index - {id}, v.mem - {id}, v.order[k]) {
      HoldsAfterEvict(pages, nodes[k], index, v.mem, v.order[k], n, id, f);
    }
    assert (index - {id}).Keys == index.Keys - {id} && (v.mem - {id}).Keys == v.mem.Keys - {id};
  }

  ghost function Added(v: Spec.Pool, id: nat, page: Bytes): Spec.Pool {
    v.(order := [id] + v.order, mem := v.mem[id := page])
  }

  lemma LinkedLoad(pages: map<PageNode, Spec.Frame>, nodes: seq<PageNode>, index: map<nat, PageNode>, v: Spec.Pool,
                   n: PageNode, id: nat, page: Bytes)
    requires Linked(pages, nodes, index, v) && n !in nodes && id !in index && |v.order| < v.frames
    ensures Linked(pages[n := Spec.Frame(id, page)], [n] + nodes, index[id := n], Added(v, id, page))
  {
    Spec.AddPage(v, id, page);
    var pages', nodes', order := pages[n := Spec.Frame(id, page)], [n] + nodes, [id] + v.order;
    forall k | 0 <= k < |nodes'| ensures Holds(pages', nodes'[k], index[id := n], v.mem[id := page], order[k]) {
      if k > 0 {
        assert Holds(pages, nodes[k - 1], index, v.mem, v.order[k - 1]);
        HoldsAfterLoad(pages, nodes[k - 1], index, v.mem, v.order[k - 1], n, id, page);
      }
    }
  }

  lemma IndexLeads(pages: map<PageNode, Spec.Frame>, nodes: seq<PageNode>, index: map<nat, PageNode>, v: Spec.Pool, id: nat)
    requires Linked(pages, nodes, index, v) && id in index
    ensures Holds(pages, index[id], index, v.mem, id) && index[id] in nodes
  {
    assert id in Spec.Elements(v.order);
    var k :| 0 <= k < |v.order| && v.order[k] == id;
    assert Holds(pages, nodes[k], index, v.mem, v.order[k]);
  }

  lemma LinkedWrite(pages: map<PageNode, Spec.Frame>, nodes: seq<PageNode>, index: map<nat, PageNode>, v: Spec.Pool, id: nat, page: Bytes)
    requires Linked(pages, nodes, index, v) && id in index
    ensures index[id] in pages && Linked(pages[index[id] := pages[index[id]].(buf := page)], nodes, index, v.(mem := v.mem[id := page]))
  {
    IndexLeads(pages, nodes, index, v, id);
    var pages', mem := pages[index[id] := pages[index[id]].(buf := page)], v.mem[id := page];
    forall k | 0 <= k < |nodes| ensures Holds(pages', nodes[k], index, mem, v.order[k]) {
      assert Holds(pages, nodes[k], index, v.mem, v.order[k]);
    }
  }

  lemma InsertAdds(v: Spec.Pool, id: nat, page: Bytes)
    requires Spec.Wf(v) && id !in v.mem
    ensures var q, r := Spec.Room(v), Spec.Insert(v, id, page);
            if |q.order| == v.frames then r == Stopped && q == v else r == Done(Added(q, id, page))
  {
    Spec.RoomKeeps(v);
  }

  class Buffer {
    const pageNum: nat
    const pageList: LRU
    const freeList: LRU
    ghost const frames: set<PageNode>
    var pages: map<PageNode, Spec.Frame>
    var index: map<nat, PageNode>
    var disk: map<nat, Bytes>
    ghost var view: Spec.Pool

    /** The two lists partition the frames. */
    ghost predicate Parted()
      reads pageList, freeList, frames
    {
      && pageList != freeList
      && pageList.members + freeList.members == frames && pageList.members !! freeList.members
      && pageList.Valid() && freeList.Valid()
      && |pageList.nodes| + |freeList.nodes| == pageNum
    }

    /** Index, pages and disk say what `view` says. */
    ghost predicate Booked()
      reads this, pageList`nodes
    {
      && view.frames == pageNum && view.disk == disk
      && Linked(pages, pageList.nodes, index, view)
    }

    ghost predicate Valid()
      reads this, pageList, freeList, frames
    {
      Parted() && Booked()
    }

    constructor (frameCount: nat, frameSize: nat, disk: map<nat, Bytes>)
      ensures Valid() && fresh(pageList) && fresh(freeList) && fresh(frames)
      ensures pageNum == frameCount && view == Spec.Pool(frameCount, [], map[], disk)
    {
      var used := new LRU();
      var free := new LRU();
      var blank: map<PageNode, Spec.Frame> := map[];
      for i := 0 to frameCount
        invariant fresh(free) && fresh(free.members) && free.Valid() && |free.nodes| == i
        invariant fresh(used) && used.Valid() && used.nodes == [] && used.members == {} && used != free
      {
        var n := new PageNode();
        free.Prepend(n);
        blank := blank[n := Spec.Frame(U64_MAX, seq(frameSize, _ => 0))];
      }
      pageNum, pageList, freeList, frames := frameCount, used, free, free.members;
      pages, index, this.disk := blank, map[], disk;
      view := Spec.Pool(frameCount, [], map[], disk);
    }

    // The lists do not depend on what the pages hold.
    twostate lemma PartedKept()
      requires old(Parted()) && unchanged(pageList) && unchanged(freeList) && unchanged(frames)
      ensures Parted()
    {
    }

    // The last page node moves to the front of the free list.
    method MoveToFree() returns (n: PageNode)
      requires Parted() && pageList.nodes != []
      modifies pageList, freeList, frames
      ensures Parted()
      ensures n == old(pageList.nodes)[|old(pageList.nodes)| - 1] && pageList.nodes == old(pageList.nodes)[..|old(pageList.nodes)| - 1]
    {
      n := MoveLast(pageList, freeList);
    }

    ghost function LastFree(): (n: PageNode)
      requires Parted() && freeList.nodes != []
      reads pageList, freeList, frames
      ensures n !in pageList.nodes
    {
      freeList.nodes[|freeList.nodes| - 1]
    }

    // And the last free node to the front of the page list.
    method MoveToPages() returns (n: PageNode)
      requires Parted() && freeList.nodes != []
      modifies pageList, freeList, frames
      ensures Parted()
      ensures n == old(LastFree()) && pageList.nodes == [n] + old(pageList.nodes)
    {
      n := MoveLast(freeList, pageList);
    }

    // What a flush does besides moving the node.
    method WriteBack(n: PageNode, ghost v: Spec.Pool)
      requires Parted() && n in pages
      requires Linked(pages[n := pages[n].(pageId := U64_MAX)], pageList.nodes, index - {pages[n].pageId}, v)
      requires v.frames == pageNum && v.disk == disk[pages[n].pageId := pages[n].buf]
      modifies `disk, `index, `pages, `view
      ensures Valid() && view == v
    {
      var f := pages[n];
      disk, index, pages, view := disk[f.pageId := f.buf], index - {f.pageId}, pages[n := f.(pageId := U64_MAX)], v;
      PartedKept();
    }

    /** The body shared by the two flush loops. */
    method EvictLast()
      requires Valid() && view.order != []
      modifies this, pageList, freeList, frames
      ensures Valid() && view == Spec.EvictOne(old(view))
    {
      ghost var v := Spec.EvictOne(view);
      var n := OldestNode(v);
      WriteBack(n, v);
    }

    method OldestNode(ghost v: Spec.Pool) returns (n: PageNode)
      requires Valid() && view.order != [] && v == Spec.EvictOne(view)
      modifies pageList, freeList, frames
      ensures Parted() && n in pages && v.disk == disk[pages[n].pageId := pages[n].buf] && v.frames == pageNum
      ensures Linked(pages[n := pages[n].(pageId := U64_MAX)], pageList.nodes, index - {pages[n].pageId}, v)
    {
      LinkedEvict(pages, pageList.nodes, index, view);
      n := MoveToFree();
    }

    method EvictNext(ghost start: Spec.Pool, ghost i: nat)
      requires Valid() && Spec.Wf(start) && i < |start.order| && view == Spec.Evict(start, i)
      modifies this, pageList, freeList, frames
      ensures Valid() && view == Spec.Evict(start, i + 1)
    {
      Spec.EvictTurn(start, i);
      EvictLast();
    }

    method EvictMany(count: nat)
      requires Valid() && count <= |view.order|
      modifies this, pageList, freeList, frames
      ensures Valid() && view == Spec.Evict(old(view), count)
    {
      Spec.EvictNone(view);
      for i := 0 to count
        invariant Valid() && view == Spec.Evict(old(view), i)
      {
        EvictNext(old(view), i);
      }
    }

    /** Flush a fifth of a full pool. */
    method FlushPageList()
      requires Valid() && freeList.size == 0
      modifies this, pageList, freeList, frames
      ensures Valid() && view == Spec.Evict(old(view), pageNum / 5)
    {
      assert freeList.size == 0;
      assert pageList.size == pageNum;
      EvictMany(pageNum / 5);
    }

    method FlushALl()
      requires Valid()
      modifies this, pageList, freeList, frames
      ensures Valid() && view == Spec.FlushAll(old(view))
    {
      EvictMany(pageList.size);
    }

    // What loading a page does besides moving the node.
    method Fill(n: PageNode, pageId: nat, page: Bytes, ghost v: Spec.Pool)
      requires Parted() && Linked(pages[n := Spec.Frame(pageId, page)], pageList.nodes, index[pageId := n], v)
      requires v.frames == pageNum && v.disk == disk
      modifies `pages, `index, `view
      ensures Valid() && view == v
    {
      pages, index, view := pages[n := Spec.Frame(pageId, page)], index[pageId := n], v;
      PartedKept();
    }

    method FreeListToPageList(pageId: nat, page: Bytes) returns (ok: bool)
      requires Valid() && pageId !in index
      modifies this, pageList, freeList, frames
      ensures Valid()
      ensures ok <==> |old(view).order| < pageNum
      ensures view == if ok then Added(old(view), pageId, page) else old(view)
    {
      if freeList.size == 0 { return false; }
      assert pageList.size < pageNum;
      TakeFree(pageId, page);
      return true;
    }

    method TakeFree(pageId: nat, page: Bytes)
      requires Valid() && pageId !in index && freeList.nodes != []
      modifies this, pageList, freeList, frames
      ensures Valid() && view == Added(old(view), pageId, page)
    {
      ghost var v := Added(view, pageId, page);
      var n := FreshNode(pageId, page, v);
      Fill(n, pageId, page, v);
    }

    method FreshNode(pageId: nat, page: Bytes, ghost v: Spec.Pool) returns (n: PageNode)
      requires Valid() && pageId !in index && freeList.nodes != [] && v == Added(view, pageId, page)
      modifies pageList, freeList, frames
      ensures Parted() && Linked(pages[n := Spec.Frame(pageId, page)], pageList.nodes, index[pageId := n], v)
    {
      LinkedLoad(pages, pageList.nodes, index, view, LastFree(), pageId, page);
      n := MoveToPages();
    }

    // Flush if there is no free frame.
    method MakeRoom()
      requires Valid()
      modifies this, pageList, freeList, frames
      ensures Valid()
      ensures view == Spec.Room(old(view)) && index.Keys <= old(index.Keys)
    {
      Spec.RoomKeeps(view);
      if freeList.size == 0 {
        FlushPageList();
      }
    }

    method Insert(pageId: nat, page: Bytes) returns (ok: bool)
      requires Valid() && pageId !in index
      modifies this, pageList, freeList, frames
      ensures Valid()
      ensures ok <==> Spec.Insert(old(view), pageId, page).Done?
      ensures ok ==> view == Spec.Insert(old(view), pageId, page).value
      ensures !ok ==> view == old(view)
    {
      ghost var q := Spec.Room(view);
      InsertAdds(view, pageId, page);
      MakeRoom();
      assert view == q;
      ok := FreeListToPageList(pageId, page);
    }

    /** `buf` is the caller's buffer, which a page that is nowhere leaves untouched. */
    method BufferGetWithLock(pageId: nat, buf: Bytes) returns (ok: bool, page: Bytes)
      requires Valid()
      modifies this, pageList, freeList, frames
      ensures Valid()
      ensures ok <==> Spec.Get(old(view), pageId, buf).Done?
      ensures ok ==> (view, page) == Spec.Get(old(view), pageId, buf).value
      ensures !ok ==> view == old(view)
    {
      assert pageList.size + freeList.size == pageNum;
      if pageId in index {
        IndexLeads(pages, pageList.nodes, index, view, pageId);
        pageList.Get(index[pageId]);
        return true, pages[index[pageId]].buf;
      }
      page := if pageId in disk then disk[pageId] else buf;
      ok := Insert(pageId, page);
    }

    method BufferPutWithLock(pageId: nat, page: Bytes) returns (ok: bool)
      requires Valid()
      modifies this, pageList, freeList, frames
      ensures Valid()
      ensures ok <==> Spec.Put(old(view), pageId, page).Done?
      ensures ok ==> view == Spec.Put(old(view), pageId, page).value
      ensures !ok ==> view == old(view)
    {
      assert pageList.size + freeList.size == pageNum;
      if pageId in index {
        pageList.Get(index[pageId]);
        Overwrite(pageId, page);
        return true;
      }
      ok := Insert(pageId, page);
    }

    /** What the two calls mean to a caller of a pool of five frames or more. */
    method GetPage(pageId: nat, buf: Bytes) returns (page: Bytes)
      requires Valid() && pageNum >= 5
      modifies this, pageList, freeList, frames
      ensures Valid()
      ensures (Spec.Contents(view), page) == Spec.ApplyMap(Spec.Contents(old(view)), Spec.GetOp(pageId, buf))
    {
      Spec.ApplyRefines(view, Spec.GetOp(pageId, buf));
      var ok;
      ok, page := BufferGetWithLock(pageId, buf);
      assert ok;
    }

    method PutPage(pageId: nat, page: Bytes)
      requires Valid() && pageNum >= 5
      modifies this, pageList, freeList, frames
      ensures Valid() && Spec.Contents(view) == Spec.Contents(old(view))[pageId := page]
    {
      Spec.PutUpdates(view, pageId, page);
      var ok := BufferPutWithLock(pageId, page);
      assert ok;
    }

    method Overwrite(pageId: nat, page: Bytes)
      requires Valid() && pageId in index
      modifies `pages, `view
      ensures Valid() && view == old(view.(mem := view.mem[pageId := page]))
    {
      LinkedWrite(pages, pageList.nodes, index, view, pageId, page);
      pages, view := pages[index[pageId] := pages[index[pageId]].(buf := page)], view.(mem := view.mem[pageId := page]);
      PartedKept();
    }
  }
}
