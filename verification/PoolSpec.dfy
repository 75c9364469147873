/**
  The buffer pool as a value: what common/buffer/buffer.cpp computes, without the pointers, and
  why that is a plain map from page id to page.
*/
module PoolSpec {
  import opened Bytes
  import opened Outcomes

  /** `order` lists the resident pages, newest insertion first. */
  datatype Pool = Pool(frames: nat, order: seq<nat>, mem: map<nat, Bytes>, disk: map<nat, Bytes>)

  /** A page frame and the page it names. */
  datatype Frame = Frame(pageId: nat, buf: Bytes)

  function Elements(s: seq<nat>): set<nat> {
    set id | id in s
  }

  predicate Distinct(s: seq<nat>) {
    forall j, k :: 0 <= j < k < |s| ==> s[j] != s[k]
  }

  /** `order` lists every resident page once. */
  ghost predicate Wf(p: Pool) {
    |p.order| <= p.frames && Distinct(p.order) && p.mem.Keys == Elements(p.order)
  }

  /** What a reader sees: resident pages first, then the disk. */
  function Contents(p: Pool): map<nat, Bytes> {
    p.disk + p.mem
  }

  /** Write the oldest resident page to disk and drop it. */
  function EvictOne(p: Pool): Pool
    requires Wf(p) && p.order != []
  {
    var id := p.order[|p.order| - 1];
    assert id in Elements(p.order);
    Pool(p.frames, p.order[..|p.order| - 1], p.mem - {id}, p.disk[id := p.mem[id]])
  }

  /** Write the k oldest pages to disk and drop them. */
  function Evict(p: Pool, k: nat): Pool
    requires k <= |p.order|
  {
    var out := p.order[|p.order| - k..];
    Pool(p.frames, p.order[..|p.order| - k], p.mem - Elements(out), p.disk + Part(p.mem, out))
  }

  function Part(mem: map<nat, Bytes>, ids: seq<nat>): map<nat, Bytes> {
    map id | id in ids && id in mem :: mem[id]
  }

  lemma ElementsButLast(s: seq<nat>)
    requires s != [] && Distinct(s)
    ensures Elements(s[..|s| - 1]) == Elements(s) - {s[|s| - 1]}
  {
    assert s == s[..|s| - 1] + [s[|s| - 1]];
  }

  lemma {:induction false} DistinctCount(s: seq<nat>)
    requires Distinct(s)
    ensures |Elements(s)| == |s|
  {
    if s != [] {
      DistinctCount(s[..|s| - 1]);
      ElementsButLast(s);
    }
  }

  lemma MoveToDisk(disk: map<nat, Bytes>, mem: map<nat, Bytes>, id: nat)
    requires id in mem
    ensures disk[id := mem[id]] + (mem - {id}) == disk + mem
    ensures (mem - {id}).Keys == mem.Keys - {id}
  {
  }

  lemma EvictOneWf(p: Pool)
    requires Wf(p) && p.order != []
    ensures Wf(EvictOne(p)) && Contents(EvictOne(p)) == Contents(p)
  {
    ElementsButLast(p.order);
    MoveToDisk(p.disk, p.mem, p.order[|p.order| - 1]);
  }

  /** Flush a fifth of a full pool. */
  function Room(p: Pool): Pool {
    if |p.order| == p.frames then Evict(p, p.frames / 5) else p
  }

  /** Takes a free frame, after making room. */
  function Insert(p: Pool, id: nat, b: Bytes): Outcome<Pool>
    requires Wf(p) && id !in p.mem
  {
    var q := Room(p);
    if |q.order| == q.frames then Stopped
    else Done(q.(order := [id] + q.order, mem := q.mem[id := b]))
  }

  /** BufferGet: on a miss the page comes from disk; a page the disk does not have leaves the
      caller's buffer as it was. */
  function Get(p: Pool, id: nat, buf: Bytes): Outcome<(Pool, Bytes)>
    requires Wf(p)
  {
    if id in p.mem then Done((p, p.mem[id])) else
    var b := if id in p.disk then p.disk[id] else buf;
    match Insert(p, id, b)
    case Stopped => Stopped
    case Done(q) => Done((q, b))
  }

  function Put(p: Pool, id: nat, b: Bytes): Outcome<Pool>
    requires Wf(p)
  {
    if id in p.mem then Done(p.(mem := p.mem[id := b])) else Insert(p, id, b)
  }

  function FlushAll(p: Pool): Pool
    requires Wf(p)
  {
    Evict(p, |p.order|)
  }

  // ---------------------------------------------------------------- eviction is invisible

  lemma ElementsSplit(s: seq<nat>, i: nat)
    requires Distinct(s) && i <= |s|
    ensures Elements(s) - Elements(s[i..]) == Elements(s[..i]) && Elements(s[i..]) <= Elements(s)
  {
    assert s == s[..i] + s[i..];
  }

  lemma EvictWf(p: Pool, k: nat)
    requires Wf(p) && k <= |p.order|
    ensures Wf(Evict(p, k))
  {
    ElementsSplit(p.order, |p.order| - k);
    assert Evict(p, k).mem.Keys == p.mem.Keys - Elements(p.order[|p.order| - k..]);
  }

  lemma EvictKeeps(p: Pool, k: nat)
    requires k <= |p.order|
    ensures Contents(Evict(p, k)) == Contents(p)
    ensures Evict(p, k).mem.Keys <= p.mem.Keys
  {
    var out, q := p.order[|p.order| - k..], Evict(p, k);
    MoveOut(p.disk, p.mem, out);
    assert q.disk == p.disk + Part(p.mem, out) && q.mem == p.mem - Elements(out);
  }

  /** What a flush writes: of the k oldest pages the resident copies, and no other page. */
  lemma EvictWrites(p: Pool, k: nat, id: nat)
    requires Wf(p) && k <= |p.order|
    ensures var out := p.order[|p.order| - k..];
            if id in out then id in Evict(p, k).disk && id in p.mem && Evict(p, k).disk[id] == p.mem[id]
            else (id in Evict(p, k).disk <==> id in p.disk) && (id in p.disk ==> Evict(p, k).disk[id] == p.disk[id])
  {
    ElementsSplit(p.order, |p.order| - k);
    assert id in p.order[|p.order| - k..] <==> id in Elements(p.order[|p.order| - k..]);
  }

  lemma MoveOut(disk: map<nat, Bytes>, mem: map<nat, Bytes>, out: seq<nat>)
    ensures (disk + Part(mem, out)) + (mem - Elements(out)) == disk + mem
    ensures (mem - Elements(out)).Keys <= mem.Keys
  {
  }

  /** Room is made exactly if the pool was not full or has five frames. */
  lemma RoomKeeps(p: Pool)
    requires Wf(p)
    ensures var q := Room(p);
            && Wf(q) && q.frames == p.frames && Contents(q) == Contents(p) && q.mem.Keys <= p.mem.Keys
            && (|q.order| == p.frames <==> |p.order| == p.frames < 5)
            && (|q.order| == p.frames ==> q == p)
  {
    if |p.order| == p.frames {
      EvictWf(p, p.frames / 5);
      EvictKeeps(p, p.frames / 5);
      if p.frames < 5 { EvictNone(p); }
    }
  }

  lemma EvictNone(p: Pool)
    ensures Evict(p, 0) == p
  {
    assert p.order[..|p.order|] == p.order && p.order[|p.order|..] == [];
    assert p.mem - Elements([]) == p.mem && p.disk + Part(p.mem, []) == p.disk;
  }

  lemma TailSplit(s: seq<nat>, i: nat)
    requires Distinct(s) && i < |s|
    ensures s[i..] == [s[i]] + s[i + 1..] && s[..i + 1][..i] == s[..i] && s[i] !in s[i + 1..] && s[i] in Elements(s)
  {
  }

  /** The flush loop, turn by turn. */
  lemma EvictTurn(p: Pool, k: nat)
    requires Wf(p) && k < |p.order|
    ensures Wf(Evict(p, k)) && EvictOne(Evict(p, k)) == Evict(p, k + 1)
  {
    var i := |p.order| - k - 1;
    EvictWf(p, k);
    TailSplit(p.order, i);
    OutOne(p.disk, p.mem, p.order[i], p.order[i + 1..]);
  }

  lemma OutOne(disk: map<nat, Bytes>, mem: map<nat, Bytes>, id: nat, out: seq<nat>)
    requires id in mem && id !in out
    ensures id in mem - Elements(out) && (mem - Elements(out))[id] == mem[id]
    ensures (mem - Elements(out)) - {id} == mem - Elements([id] + out)
    ensures (disk + Part(mem, out))[id := mem[id]] == disk + Part(mem, [id] + out)
  {
  }

  lemma MergeUpdate(disk: map<nat, Bytes>, mem: map<nat, Bytes>, id: nat, b: Bytes)
    ensures disk + mem[id := b] == (disk + mem)[id := b]
  {
  }

  lemma AddPage(p: Pool, id: nat, b: Bytes)
    requires Wf(p) && id !in p.mem && |p.order| < p.frames
    ensures Wf(p.(order := [id] + p.order, mem := p.mem[id := b]))
  {
    var order := [id] + p.order;
    assert Elements(order) == Elements(p.order) + {id};
    forall j, k | 0 <= j < k < |order| ensures order[j] != order[k] {
      assert order[k] == p.order[k - 1] && order[k] in Elements(p.order);
    }
  }

  /** The pool stops on an assert exactly when it is full and a fifth of it is no page at all. */
  lemma InsertKeeps(p: Pool, id: nat, b: Bytes)
    requires Wf(p) && id !in p.mem
    ensures Insert(p, id, b) == Stopped <==> |p.order| == p.frames < 5
    ensures Insert(p, id, b).Done? ==>
              var q := Insert(p, id, b).value;
              Wf(q) && q.frames == p.frames && Contents(q) == Contents(p)[id := b]
  {
    RoomKeeps(p);
    var q := Room(p);
    if |q.order| < q.frames {
      AddPage(q, id, b);
      MergeUpdate(q.disk, q.mem, id, b);
    }
  }

  /** A page that comes in goes to the front; a full pool gives up a fifth of its frames for it, the oldest ones,
      and any other pool nothing. */
  lemma InsertPlaces(p: Pool, id: nat, b: Bytes)
    requires Wf(p) && id !in p.mem && Insert(p, id, b).Done?
    ensures var q := Insert(p, id, b).value;
            && q.order == [id] + (if |p.order| < p.frames then p.order else p.order[..p.frames - p.frames / 5])
            && id in q.mem && q.mem[id] == b
            && (|p.order| < p.frames ==> q.disk == p.disk && q.mem == p.mem[id := b])
  {
  }

  /** After FlushALl everything is on disk and nothing is resident. */
  lemma FlushAllWritesEverything(p: Pool)
    requires Wf(p)
    ensures FlushAll(p).mem == map[] && FlushAll(p).disk == Contents(p)
  {
    EvictKeeps(p, |p.order|);
    EvictWf(p, |p.order|);
    NothingResident(FlushAll(p));
  }

  lemma NothingResident(q: Pool)
    requires Wf(q) && q.order == []
    ensures q.mem == map[] && Contents(q) == q.disk
  {
    assert q.mem.Keys == {};
  }

  // ---------------------------------------------------------------- whole runs

  datatype Op = GetOp(id: nat, buf: Bytes) | PutOp(id: nat, page: Bytes) | FlushOp

  /** One call and the bytes it returns (none for a Put or a flush). */
  function Apply(p: Pool, op: Op): Outcome<(Pool, Bytes)>
    requires Wf(p)
  {
    match op
    case GetOp(id, buf) => Get(p, id, buf)
    case PutOp(id, page) => (match Put(p, id, page) case Stopped => Stopped case Done(q) => Done((q, [])))
    case FlushOp => Done((FlushAll(p), []))
  }

  /** The same call on a plain map. */
  function ApplyMap(m: map<nat, Bytes>, op: Op): (map<nat, Bytes>, Bytes) {
    match op
    case GetOp(id, buf) => if id in m then (m, m[id]) else (m[id := buf], buf)
    case PutOp(id, page) => (m[id := page], [])
    case FlushOp => (m, [])
  }

  function RunMap(m: map<nat, Bytes>, ops: seq<Op>): (map<nat, Bytes>, seq<Bytes>)
    decreases |ops|
  {
    if ops == [] then (m, [])
    else
      var (m1, b) := ApplyMap(m, ops[0]);
      var (m2, bs) := RunMap(m1, ops[1..]);
      (m2, [b] + bs)
  }

  lemma ApplyRefines(p: Pool, op: Op)
    requires Wf(p)
    ensures p.frames >= 5 ==> Apply(p, op).Done?
    ensures Apply(p, op).Done? ==>
              var (q, b) := Apply(p, op).value;
              Wf(q) && q.frames == p.frames && (Contents(q), b) == ApplyMap(Contents(p), op)
  {
    match op
    case GetOp(id, buf) =>
      if id !in p.mem {
        var b := if id in p.disk then p.disk[id] else buf;
        InsertKeeps(p, id, b);
        assert id in p.disk ==> Contents(p)[id := b] == Contents(p);
      }
    case PutOp(id, page) =>
      if id !in p.mem { InsertKeeps(p, id, page); }
      else { MergeUpdate(p.disk, p.mem, id, page); }
    case FlushOp =>
      EvictKeeps(p, |p.order|);
      EvictWf(p, |p.order|);
  }

  /** A Put on a pool of five frames or more is a map update. */
  lemma PutUpdates(p: Pool, id: nat, page: Bytes)
    requires Wf(p) && p.frames >= 5
    ensures Put(p, id, page).Done? && Contents(Put(p, id, page).value) == Contents(p)[id := page]
  {
    ApplyRefines(p, PutOp(id, page));
  }

  function RunPool(p: Pool, ops: seq<Op>): (r: Outcome<(Pool, seq<Bytes>)>)
    requires Wf(p)
    ensures r.Done? ==> Wf(r.value.0) && r.value.0.frames == p.frames && |r.value.1| == |ops|
    ensures p.frames >= 5 ==> r.Done?
    decreases |ops|
  {
    if ops == [] then Done((p, [])) else
    assert p.frames >= 5 ==> Apply(p, ops[0]).Done? by { ApplyRefines(p, ops[0]); }
    match Apply(p, ops[0])
    case Stopped => Stopped
    case Done((q, b)) =>
      assert Wf(q) && q.frames == p.frames by { ApplyRefines(p, ops[0]); }
      match RunPool(q, ops[1..])
      case Stopped => Stopped
      case Done((q', bs)) => Done((q', [b] + bs))
  }

  /** Every sequence of calls gives what a plain map gives, whatever gets evicted on the way; a
      pool of five frames or more never stops. */
  lemma {:induction false} PoolIsMap(p: Pool, ops: seq<Op>)
    requires Wf(p)
    ensures p.frames >= 5 ==> RunPool(p, ops).Done?
    ensures RunPool(p, ops).Done? ==>
              var (q, bs) := RunPool(p, ops).value;
              (Contents(q), bs) == RunMap(Contents(p), ops)
    decreases |ops|
  {
    if ops != [] {
      ApplyRefines(p, ops[0]);
      if Apply(p, ops[0]).Done? {
        PoolIsMap(Apply(p, ops[0]).value.0, ops[1..]);
      }
    }
  }

  // ---------------------------------------------------------------- replacement order

  /** The pages a call brings in. */
  function Inserted(p: Pool, op: Op): seq<nat> {
    if (op.GetOp? || op.PutOp?) && op.id !in p.mem then [op.id] else []
  }

  function InsertionLog(p: Pool, ops: seq<Op>): seq<nat>
    requires Wf(p)
    decreases |ops|
  {
    if ops == [] then []
    else match Apply(p, ops[0])
      case Stopped => []
      case Done((q, _)) =>
        assert Wf(q) by { ApplyRefines(p, ops[0]); }
        Inserted(p, ops[0]) + InsertionLog(q, ops[1..])
  }

  /** The resident pages are the latest insertions of `log`, newest first. */
  predicate Newest(order: seq<nat>, log: seq<nat>) {
    |order| <= |log| && forall k :: 0 <= k < |order| ==> order[k] == log[|log| - 1 - k]
  }

  lemma NewestStep(p: Pool, op: Op, log: seq<nat>)
    requires Wf(p) && Newest(p.order, log) && Apply(p, op).Done?
    ensures Newest(Apply(p, op).value.0.order, log + Inserted(p, op))
  {
    if Inserted(p, op) == [] {
      assert log + Inserted(p, op) == log;
    }
  }

  lemma Unroll(p: Pool, ops: seq<Op>)
    requires Wf(p) && ops != [] && RunPool(p, ops).Done?
    ensures Apply(p, ops[0]).Done? && Wf(Apply(p, ops[0]).value.0)
    ensures var q := Apply(p, ops[0]).value.0;
            && RunPool(q, ops[1..]).Done? && RunPool(q, ops[1..]).value.0 == RunPool(p, ops).value.0
            && InsertionLog(p, ops) == Inserted(p, ops[0]) + InsertionLog(q, ops[1..])
  {
    ApplyRefines(p, ops[0]);
  }

  lemma Regroup(a: seq<nat>, b: seq<nat>, c: seq<nat>)
    ensures a + (b + c) == a + b + c
  {
  }

  /** Hits do not count: a flush always evicts the pages inserted longest ago, so at any time the
      resident pages are exactly the most recent insertions. */
  lemma {:induction false} EvictsOldestInsertions(p: Pool, ops: seq<Op>, log: seq<nat>)
    requires Wf(p) && Newest(p.order, log) && RunPool(p, ops).Done?
    ensures Newest(RunPool(p, ops).value.0.order, log + InsertionLog(p, ops))
    decreases |ops|
  {
    if ops == [] {
      assert log + InsertionLog(p, ops) == log;
    } else {
      Unroll(p, ops);
      var q, inserted := Apply(p, ops[0]).value.0, Inserted(p, ops[0]);
      NewestStep(p, ops[0], log);
      EvictsOldestInsertions(q, ops[1..], log + inserted);
      Regroup(log, inserted, InsertionLog(q, ops[1..]));
    }
  }
}
