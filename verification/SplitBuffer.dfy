/**
  BufferGet and BufferPut of common/buffer/buffer.cpp lock the pool only around list changes: the
  index look-up, the disk read and the copy into or out of a frame happen outside. Threads
  interleave at those points, any number of them on any page.
*/
module SplitBuffer {
  import opened Bytes
  import Spec = PoolSpec

  /** `list` holds the frames in use, newest first; `index` leads from a page to its frame. */
  datatype Pool = Pool(frames: seq<Spec.Frame>, list: seq<nat>, index: map<nat, nat>, free: seq<nat>, disk: map<nat, Bytes>)

  datatype Call =
    | Idle
    | Begun(op: Spec.Op)
    | Hit(op: Spec.Op, frame: nat)              // the index gave a frame
    | Miss(op: Spec.Op)                         // the index gave none
    | Fetched(op: Spec.Op, page: Bytes)         // page to be put into a free frame

  datatype State = State(pool: Pool, calls: seq<Call>)

  datatype Event = Begin(t: nat, op: Spec.Op) | LookUp(t: nat) | Fetch(t: nat) | Finish(t: nat)

  // ---------------------------------------------------------------- the pool

  /** Frame n is in use for the page it names. */
  predicate Used(frames: seq<Spec.Frame>, index: map<nat, nat>, n: nat) {
    n < |frames| && frames[n].pageId < U64_MAX && frames[n].pageId in index && index[frames[n].pageId] == n
  }

  predicate Vacant(frames: seq<Spec.Frame>, n: nat) {
    n < |frames| && frames[n].pageId == U64_MAX
  }

  /** The index leads from page `id` to a frame that names it. */
  predicate Leads(frames: seq<Spec.Frame>, index: map<nat, nat>, id: nat) {
    id < U64_MAX && id in index && index[id] < |frames| && frames[index[id]].pageId == id
  }

  predicate Distinct(s: seq<nat>) {
    forall j, k :: 0 <= j < k < |s| ==> s[j] != s[k]
  }

  ghost predicate Wf(p: Pool) {
    && |p.list| + |p.free| == |p.frames| && Distinct(p.list) && Distinct(p.free)
    && (forall k :: 0 <= k < |p.list| ==> Used(p.frames, p.index, p.list[k]))
    && (forall k :: 0 <= k < |p.free| ==> Vacant(p.frames, p.free[k]))
    && (forall id :: id in p.index ==> Leads(p.frames, p.index, id))
  }

  function Resident(p: Pool): map<nat, Bytes> {
    map id | id in p.index && p.index[id] < |p.frames| :: p.frames[p.index[id]].buf
  }

  function Contents(p: Pool): map<nat, Bytes> {
    p.disk + Resident(p)
  }

  /** One turn of the flush loop. */
  function EvictOne(p: Pool): Pool {
    var last := |p.list| - 1;
    if last < 0 || p.list[last] >= |p.frames| then p else
    var n := p.list[last];
    var f := p.frames[n];
    Pool(p.frames[n := f.(pageId := U64_MAX)], p.list[..last], p.index - {f.pageId}, [n] + p.free, p.disk[f.pageId := f.buf])
  }

  function Evict(p: Pool, k: nat): Pool
    decreases k
  {
    if k == 0 then p else Evict(EvictOne(p), k - 1)
  }

  function Load(p: Pool, id: nat, page: Bytes): Pool {
    var last := |p.free| - 1;
    if last < 0 || p.free[last] >= |p.frames| then p else
    var n := p.free[last];
    Pool(p.frames[n := Spec.Frame(id, page)], [n] + p.list, p.index[id := n], p.free[..last], p.disk)
  }

  /** Under the lock: flush a fifth of a full pool. */
  function MakeRoom(p: Pool): Pool {
    if p.free == [] then Evict(p, |p.frames| / 5) else p
  }

  function Overwrite(p: Pool, n: nat, page: Bytes): Pool
    requires n < |p.frames|
  {
    p.(frames := p.frames[n := p.frames[n].(buf := page)])
  }

  // ---------------------------------------------------------------- the calls

  predicate IsCall(op: Spec.Op) {
    (op.GetOp? || op.PutOp?) && op.id < U64_MAX
  }

  predicate InFlight(c: Call, id: nat) {
    !c.Idle? && !c.op.FlushOp? && c.op.id == id
  }

  function PageFor(disk: map<nat, Bytes>, op: Spec.Op): Bytes
    requires IsCall(op)
  {
    if op.PutOp? then op.page else if op.id in disk then disk[op.id] else op.buf
  }

  predicate Enabled(s: State, e: Event) {
    e.t < |s.calls| &&
    var c := s.calls[e.t];
    match e
    case Begin(_, op) => c.Idle? && IsCall(op)
    case LookUp(_) => c.Begun? && IsCall(c.op)
    case Fetch(_) => c.Miss? && IsCall(c.op)
    case Finish(_) => (c.Hit? && c.frame < |s.pool.frames| && IsCall(c.op)) ||
                      (c.Fetched? && IsCall(c.op) && MakeRoom(s.pool).free != [])
  }

  function Next(s: State, e: Event): (State, Bytes)
    requires Enabled(s, e)
  {
    var c, p := s.calls[e.t], s.pool;
    match e
    case Begin(t, op) => (s.(calls := s.calls[t := Begun(op)]), [])
    case LookUp(t) =>
      var c' := if c.op.id in p.index then Hit(c.op, p.index[c.op.id]) else Miss(c.op);
      (s.(calls := s.calls[t := c']), [])
    case Fetch(t) => (s.(calls := s.calls[t := Fetched(c.op, PageFor(p.disk, c.op))]), [])
    case Finish(t) =>
      var (p', b) :=
        if c.Hit? then
          (if c.op.GetOp? then (p, p.frames[c.frame].buf) else (Overwrite(p, c.frame, c.op.page), []))
        else (Load(MakeRoom(p), c.op.id, c.page), if c.op.GetOp? then c.page else []);
      (State(p', s.calls[t := Idle]), b)
  }

  // ---------------------------------------------------------------- what can go wrong

  /** Two different calls are in flight on a page. */
  predicate Crowded(s: State, id: nat) {
    exists t, u :: 0 <= t < u < |s.calls| && InFlight(s.calls[t], id) && InFlight(s.calls[u], id)
  }

  predicate Taken(s: State, id: nat) {
    exists u :: 0 <= u < |s.calls| && InFlight(s.calls[u], id)
  }

  /** A page the flush would take: a call has its frame already, or two calls are about to look it up. */
  predicate FlushHurts(s: State, n: nat) {
    n < |s.pool.frames| &&
    var id := s.pool.frames[n].pageId;
    (exists u :: 0 <= u < |s.calls| && s.calls[u].Hit? && InFlight(s.calls[u], id)) || Crowded(s, id)
  }

  predicate Flushed(p: Pool, n: nat) {
    p.free == [] && |p.frames| / 5 <= |p.list| && n in p.list[|p.list| - |p.frames| / 5..]
  }

  /** A call for a page that is not in the pool while another call is in flight on it, or a flush of
      a page that is in use. */
  predicate Hazard(s: State, e: Event)
    requires Enabled(s, e)
  {
    match e
    case Begin(t, op) => op.id !in s.pool.index && Taken(s, op.id)
    case Finish(t) => s.calls[t].Fetched? && exists n :: n in s.pool.list && Flushed(s.pool, n) && FlushHurts(s, n)
    case _ => false
  }

  // ---------------------------------------------------------------- flushing one frame

  lemma UsedWithout(frames: seq<Spec.Frame>, index: map<nat, nat>, n: nat, m: nat)
    requires Used(frames, index, n) && Used(frames, index, m) && n != m
    ensures Used(frames[n := frames[n].(pageId := U64_MAX)], index - {frames[n].pageId}, m)
  {
  }

  lemma DistinctFront(s: seq<nat>, n: nat)
    requires Distinct(s) && n !in s
    ensures Distinct([n] + s)
  {
    var all := [n] + s;
    forall j, k | 0 <= j < k < |all| ensures all[j] != all[k] {
      assert all[k] == s[k - 1];
    }
  }

  lemma LastUsed(p: Pool)
    requires Wf(p) && p.list != []
    ensures Used(p.frames, p.index, p.list[|p.list| - 1]) && p.list[|p.list| - 1] !in p.free
    ensures forall k :: 0 <= k < |p.list| - 1 ==> p.list[k] != p.list[|p.list| - 1]
  {
    var n := p.list[|p.list| - 1];
    assert Used(p.frames, p.index, n);
    forall k | 0 <= k < |p.free| ensures p.free[k] != n {
      assert Vacant(p.frames, p.free[k]);
    }
  }

  lemma EvictOneWf(p: Pool)
    requires Wf(p) && p.list != []
    ensures Wf(EvictOne(p))
  {
    LastUsed(p);
    var q, n := EvictOne(p), p.list[|p.list| - 1];
    DistinctFront(p.free, n);
    forall k | 0 <= k < |q.list| ensures Used(q.frames, q.index, q.list[k]) {
      UsedWithout(p.frames, p.index, n, p.list[k]);
    }
    forall k | 0 <= k < |q.free| ensures Vacant(q.frames, q.free[k]) {
      if k > 0 { assert Vacant(p.frames, p.free[k - 1]); }
    }
    forall id | id in q.index ensures Leads(q.frames, q.index, id) {
      assert Leads(p.frames, p.index, id);
    }
  }

  // Seen from one page.
  lemma EvictOneLook(p: Pool, id: nat)
    requires Wf(p) && p.list != []
    ensures Look(EvictOne(p), id) == Look(p, id)
  {
    EvictOnePage(p, id);
  }

  lemma EvictOnePage(p: Pool, id: nat)
    requires Wf(p) && p.list != []
    ensures var q, n := EvictOne(p), p.list[|p.list| - 1];
            && (id in q.index <==> id in p.index && p.index[id] != n)
            && (id in q.index ==> q.index[id] == p.index[id] && q.frames[q.index[id]] == p.frames[p.index[id]])
            && (if id in p.index && p.index[id] == n then id in q.disk && q.disk[id] == p.frames[n].buf
                else (id in q.disk <==> id in p.disk) && (id in p.disk ==> q.disk[id] == p.disk[id]))
  {
    LastUsed(p);
    if id in p.index { assert Leads(p.frames, p.index, id); }
  }

  datatype Found = Nothing | Page(page: Bytes)

  /** What a reader of page `id` finds, resident or on disk. */
  function Look(p: Pool, id: nat): Found {
    if id in p.index && p.index[id] < |p.frames| then Page(p.frames[p.index[id]].buf)
    else if id in p.disk then Page(p.disk[id]) else Nothing
  }

  lemma LookIsContents(p: Pool, id: nat)
    ensures Look(p, id) == if id in Contents(p) then Page(Contents(p)[id]) else Nothing
  {
  }

  lemma SameContents(p: Pool, m: map<nat, Bytes>)
    requires forall id: nat :: Look(p, id) == if id in m then Page(m[id]) else Nothing
    ensures Contents(p) == m
  {
    var c := Contents(p);
    forall id: nat ensures (id in c <==> id in m) && (id in m ==> c[id] == m[id]) {
      LookIsContents(p, id);
      assert Look(p, id) == if id in m then Page(m[id]) else Nothing;
    }
  }

  // ---------------------------------------------------------------- flushing many

  lemma TurnOnce(p: Pool) returns (q: Pool)
    requires Wf(p) && p.list != []
    ensures q == EvictOne(p) && Wf(q) && q.list == p.list[..|p.list| - 1] && |q.frames| == |p.frames| && |q.free| == |p.free| + 1
  {
    EvictOneWf(p);
    LastUsed(p);
    q := EvictOne(p);
  }

  lemma {:induction false} EvictWf(p: Pool, k: nat)
    requires Wf(p) && k <= |p.list|
    ensures Wf(Evict(p, k))
    decreases k
  {
    if k > 0 {
      var q := TurnOnce(p);
      EvictWf(q, k - 1);
    }
  }

  lemma {:induction false} EvictShape(p: Pool, k: nat)
    requires k <= |p.list| && forall j :: 0 <= j < |p.list| ==> p.list[j] < |p.frames|
    ensures var q := Evict(p, k);
            q.list == p.list[..|p.list| - k] && |q.frames| == |p.frames| && |q.free| == |p.free| + k
    decreases k
  {
    if k > 0 {
      var q := EvictOne(p);
      EvictShape(q, k - 1);
      assert q.list[..|q.list| - (k - 1)] == p.list[..|p.list| - k];
    }
  }

  /** What k turns of the flush loop leave of a page: its contents; its frame, unless flushed. */
  lemma {:induction false} EvictLook(p: Pool, k: nat, id: nat)
    requires Wf(p) && k <= |p.list|
    ensures Look(Evict(p, k), id) == Look(p, id)
    decreases k
  {
    if k > 0 {
      EvictOneLook(p, id);
      var q := TurnOnce(p);
      EvictLook(q, k - 1, id);
    }
  }

  lemma {:induction false} EvictAbsent(p: Pool, k: nat, id: nat)
    requires Wf(p) && k <= |p.list| && id !in p.index
    ensures id !in Evict(p, k).index
    ensures (id in Evict(p, k).disk <==> id in p.disk) && (id in p.disk ==> Evict(p, k).disk[id] == p.disk[id])
    decreases k
  {
    if k > 0 {
      EvictOnePage(p, id);
      var q := TurnOnce(p);
      EvictAbsent(q, k - 1, id);
    }
  }

  lemma {:induction false} EvictKept(p: Pool, k: nat, id: nat)
    requires Wf(p) && k <= |p.list| && id in p.index && p.index[id] !in p.list[|p.list| - k..]
    ensures id in Evict(p, k).index && Evict(p, k).index[id] == p.index[id]
    decreases k
  {
    if k > 0 {
      EvictOnePage(p, id);
      var q := TurnOnce(p);
      assert p.list[|p.list| - k..] == q.list[|q.list| - (k - 1)..] + [p.list[|p.list| - 1]];
      EvictKept(q, k - 1, id);
    }
  }

  lemma {:induction false} EvictSame(p: Pool, k: nat, id: nat)
    requires Wf(p) && k <= |p.list| && id in Evict(p, k).index
    ensures id in p.index && Evict(p, k).index[id] == p.index[id]
    decreases k
  {
    if k > 0 {
      EvictOnePage(p, id);
      var q := TurnOnce(p);
      EvictSame(q, k - 1, id);
    }
  }

  // Flushed frames end up free.
  lemma {:induction false} EvictFrees(p: Pool, k: nat, n: nat)
    requires Wf(p) && k <= |p.list| && (n in p.free || n in p.list[|p.list| - k..])
    ensures n in Evict(p, k).free
    decreases k
  {
    if k > 0 {
      LastUsed(p);
      var q := TurnOnce(p);
      assert q.free == [p.list[|p.list| - 1]] + p.free;
      assert p.list[|p.list| - k..] == q.list[|q.list| - (k - 1)..] + [p.list[|p.list| - 1]];
      EvictFrees(q, k - 1, n);
    }
  }

  lemma EvictContents(p: Pool, k: nat)
    requires Wf(p) && k <= |p.list|
    ensures Contents(Evict(p, k)) == Contents(p)
  {
    forall id: nat ensures Look(Evict(p, k), id) == if id in Contents(p) then Page(Contents(p)[id]) else Nothing {
      EvictLook(p, k, id);
      LookIsContents(p, id);
    }
    SameContents(Evict(p, k), Contents(p));
  }

  lemma RoomWf(p: Pool)
    requires Wf(p)
    ensures Wf(MakeRoom(p)) && |MakeRoom(p).frames| == |p.frames| && Contents(MakeRoom(p)) == Contents(p)
  {
    if p.free == [] {
      InRange(p);
      EvictWf(p, |p.frames| / 5);
      EvictShape(p, |p.frames| / 5);
      EvictContents(p, |p.frames| / 5);
    }
  }

  lemma InRange(p: Pool)
    requires Wf(p)
    ensures forall j :: 0 <= j < |p.list| ==> p.list[j] < |p.frames|
  {
    forall j | 0 <= j < |p.list| ensures p.list[j] < |p.frames| {
      assert Used(p.frames, p.index, p.list[j]);
    }
  }

  // ---------------------------------------------------------------- loading and overwriting

  lemma UsedWith(frames: seq<Spec.Frame>, index: map<nat, nat>, n: nat, id: nat, page: Bytes, m: nat)
    requires Used(frames, index, m) && Vacant(frames, n) && id !in index
    ensures Used(frames[n := Spec.Frame(id, page)], index[id := n], m)
  {
  }

  lemma LoadWf(p: Pool, id: nat, page: Bytes)
    requires Wf(p) && p.free != [] && id !in p.index && id < U64_MAX
    ensures Wf(Load(p, id, page))
  {
    var last := |p.free| - 1;
    var q, n := Load(p, id, page), p.free[last];
    assert Vacant(p.frames, n);
    forall k | 0 <= k < |p.list| ensures p.list[k] != n {
      assert Used(p.frames, p.index, p.list[k]);
    }
    DistinctFront(p.list, n);
    forall k | 0 <= k < |q.list| ensures Used(q.frames, q.index, q.list[k]) {
      if k > 0 { UsedWith(p.frames, p.index, n, id, page, p.list[k - 1]); }
    }
    forall k | 0 <= k < |q.free| ensures Vacant(q.frames, q.free[k]) {
      assert Vacant(p.frames, p.free[k]) && p.free[k] != n;
    }
    forall i | i in q.index ensures Leads(q.frames, q.index, i) {
      if i != id { assert Leads(p.frames, p.index, i); }
    }
  }

  lemma LoadContents(p: Pool, id: nat, page: Bytes)
    requires Wf(p) && p.free != [] && id !in p.index
    ensures Contents(Load(p, id, page)) == Contents(p)[id := page]
  {
    var q, n := Load(p, id, page), p.free[|p.free| - 1];
    assert Vacant(p.frames, n);
    forall i: nat ensures Look(q, i) == if i in Contents(p)[id := page] then Page(Contents(p)[id := page][i]) else Nothing {
      LookIsContents(p, i);
      if i != id && i in p.index { assert Leads(p.frames, p.index, i); }
    }
    SameContents(q, Contents(p)[id := page]);
  }

  lemma OverwriteWf(p: Pool, id: nat, page: Bytes)
    requires Wf(p) && id in p.index
    ensures p.index[id] < |p.frames| && Wf(Overwrite(p, p.index[id], page))
  {
    assert Leads(p.frames, p.index, id);
    var q := Overwrite(p, p.index[id], page);
    forall k | 0 <= k < |q.list| ensures Used(q.frames, q.index, q.list[k]) {
      assert Used(p.frames, p.index, p.list[k]);
    }
    forall k | 0 <= k < |q.free| ensures Vacant(q.frames, q.free[k]) {
      assert Vacant(p.frames, p.free[k]);
    }
    forall i | i in q.index ensures Leads(q.frames, q.index, i) {
      assert Leads(p.frames, p.index, i);
    }
  }

  lemma OverwriteContents(p: Pool, id: nat, page: Bytes)
    requires Wf(p) && id in p.index
    ensures p.index[id] < |p.frames| && Contents(Overwrite(p, p.index[id], page)) == Contents(p)[id := page]
  {
    assert Leads(p.frames, p.index, id);
    var q := Overwrite(p, p.index[id], page);
    forall i: nat ensures Look(q, i) == if i in Contents(p)[id := page] then Page(Contents(p)[id := page][i]) else Nothing {
      LookIsContents(p, i);
      if i in p.index { assert Leads(p.frames, p.index, i); }
    }
    SameContents(q, Contents(p)[id := page]);
  }

  // ---------------------------------------------------------------- one step

  ghost predicate CallOk(p: Pool, c: Call) {
    match c
    case Idle => true
    case Begun(op) => IsCall(op)
    case Hit(op, n) => IsCall(op) && op.id in p.index && p.index[op.id] == n
    case Miss(op) => IsCall(op) && op.id !in p.index
    case Fetched(op, page) => IsCall(op) && op.id !in p.index && page == PageFor(p.disk, op)
  }

  /** Two calls on one page only while it is resident. */
  ghost predicate CrowdsOk(s: State) {
    forall id :: Crowded(s, id) ==> id in s.pool.index
  }

  ghost predicate Inv(s: State) {
    && Wf(s.pool) && CrowdsOk(s)
    && forall t :: 0 <= t < |s.calls| ==> CallOk(s.pool, s.calls[t])
  }

  /** A finished call did to the pool, and returned, what a plain map would. */
  ghost predicate Refines(s: State, e: Event, s': State, b: Bytes)
    requires e.t < |s.calls|
  {
    if e.Finish? then !s.calls[e.t].Idle? && (Contents(s'.pool), b) == Spec.ApplyMap(Contents(s.pool), s.calls[e.t].op)
    else Contents(s'.pool) == Contents(s.pool)
  }

  // Fewer calls in flight crowd no more pages.
  lemma LessCrowded(s: State, s': State, t: nat, id: nat)
    requires t < |s.calls| && s'.calls == s.calls[t := Idle] && Crowded(s', id)
    ensures Crowded(s, id)
  {
    var a, b :| 0 <= a < b < |s'.calls| && InFlight(s'.calls[a], id) && InFlight(s'.calls[b], id);
    assert InFlight(s.calls[a], id) && InFlight(s.calls[b], id);
  }

  // A look-up, a copy or a new call changes one call only.
  lemma OneCallMoves(s: State, t: nat, c: Call)
    requires Inv(s) && t < |s.calls| && CallOk(s.pool, c)
    requires c.Idle? || (!s.calls[t].Idle? && c.op == s.calls[t].op) || c.op.id in s.pool.index || !Taken(s, c.op.id)
    ensures Inv(s.(calls := s.calls[t := c]))
  {
    var s' := s.(calls := s.calls[t := c]);
    forall id | Crowded(s', id) ensures id in s.pool.index {
      var a, b :| 0 <= a < b < |s'.calls| && InFlight(s'.calls[a], id) && InFlight(s'.calls[b], id);
      assert (a != t ==> InFlight(s.calls[a], id)) && (b != t ==> InFlight(s.calls[b], id));
      assert (a == t || b == t) && !s.calls[t].Idle? && c.op == s.calls[t].op ==> InFlight(s.calls[t], id);
    }
  }

  lemma FinishHit(s: State, t: nat)
    requires Inv(s) && Enabled(s, Finish(t)) && s.calls[t].Hit?
    ensures Inv(Next(s, Finish(t)).0)
    ensures Refines(s, Finish(t), Next(s, Finish(t)).0, Next(s, Finish(t)).1)
  {
    var p, c := s.pool, s.calls[t];
    assert CallOk(p, c);
    LookIsContents(p, c.op.id);
    if c.op.PutOp? {
      OverwriteWf(p, c.op.id, c.op.page);
      OverwriteContents(p, c.op.id, c.op.page);
    }
    OverwrittenInv(s, t, Next(s, Finish(t)).0);
  }

  // The other calls look at ids, the index and the disk only.
  lemma OverwrittenInv(s: State, t: nat, s': State)
    requires Inv(s) && t < |s.calls| && s'.calls == s.calls[t := Idle] && Wf(s'.pool)
    requires s'.pool.index == s.pool.index && s'.pool.disk == s.pool.disk
    ensures Inv(s')
  {
    forall id | Crowded(s', id) ensures id in s'.pool.index {
      LessCrowded(s, s', t, id);
    }
    forall u | 0 <= u < |s'.calls| ensures CallOk(s'.pool, s'.calls[u]) {
      assert CallOk(s.pool, s.calls[u]);
    }
  }

  // A flush that spares the frames calls have looked up keeps what every call relies on.
  lemma RoomKeepsCall(p: Pool, c: Call)
    requires Wf(p) && CallOk(p, c) && (c.Hit? ==> !Flushed(p, c.frame))
    ensures CallOk(MakeRoom(p), c)
  {
    if p.free == [] {
      var k := |p.frames| / 5;
      if c.Hit? {
        EvictKept(p, k, c.op.id);
      } else if c.Miss? || c.Fetched? {
        EvictAbsent(p, k, c.op.id);
      }
    }
  }

  lemma CleanFlushSpares(s: State, t: nat, u: nat)
    requires Inv(s) && Enabled(s, Finish(t)) && !Hazard(s, Finish(t)) && s.calls[t].Fetched? && u < |s.calls|
    ensures CallOk(s.pool, s.calls[u]) && (s.calls[u].Hit? ==> !Flushed(s.pool, s.calls[u].frame))
  {
    var p, c := s.pool, s.calls[u];
    assert CallOk(p, c);
    if c.Hit? {
      assert Leads(p.frames, p.index, c.op.id) && InFlight(c, c.op.id);
      if Flushed(p, c.frame) {
        assert c.frame in p.list && FlushHurts(s, c.frame);
      }
    }
  }

  lemma RoomKeepsCrowd(s: State, t: nat, id: nat)
    requires Inv(s) && Enabled(s, Finish(t)) && !Hazard(s, Finish(t)) && s.calls[t].Fetched? && Crowded(s, id)
    ensures id in MakeRoom(s.pool).index
  {
    var p, k := s.pool, |s.pool.frames| / 5;
    assert Leads(p.frames, p.index, id);
    if p.free == [] {
      if p.index[id] in p.list[|p.list| - k..] {
        assert p.index[id] in p.list && Flushed(p, p.index[id]) && FlushHurts(s, p.index[id]);
      }
      EvictKept(p, k, id);
    }
  }

  // The calls of the other threads do not notice that this one finishes.
  lemma LoadKeepsCall(p: Pool, id: nat, page: Bytes, c: Call)
    requires Wf(p) && p.free != [] && id !in p.index && CallOk(p, c) && !InFlight(c, id)
    ensures CallOk(Load(p, id, page), c)
  {
    assert Vacant(p.frames, p.free[|p.free| - 1]);
  }

  // Nobody else is in flight on a page that is not resident.
  lemma MissIsAlone(s: State, t: nat, u: nat)
    requires Inv(s) && t < |s.calls| && u < |s.calls| && u != t && s.calls[t].Fetched?
    ensures !InFlight(s.calls[u], s.calls[t].op.id)
  {
    var id := s.calls[t].op.id;
    assert CallOk(s.pool, s.calls[t]) && InFlight(s.calls[t], id);
    if InFlight(s.calls[u], id) {
      var a, b := if t < u then t else u, if t < u then u else t;
      assert InFlight(s.calls[a], id) && InFlight(s.calls[b], id);
      assert Crowded(s, id);
    }
  }

  lemma FinishFetchedInv(s: State, t: nat)
    requires Inv(s) && Enabled(s, Finish(t)) && s.calls[t].Fetched? && !Hazard(s, Finish(t))
    ensures Inv(Next(s, Finish(t)).0)
  {
    var p, c := s.pool, s.calls[t];
    var q := MakeRoom(p);
    var s' := Next(s, Finish(t)).0;
    assert CallOk(p, c);
    RoomWf(p);
    RoomKeepsCall(p, c);
    LoadWf(q, c.op.id, c.page);
    assert Vacant(q.frames, q.free[|q.free| - 1]);
    forall u | 0 <= u < |s.calls| ensures CallOk(s'.pool, s'.calls[u]) {
      if u != t {
        CleanFlushSpares(s, t, u);
        RoomKeepsCall(p, s.calls[u]);
        MissIsAlone(s, t, u);
        LoadKeepsCall(q, c.op.id, c.page, s.calls[u]);
      }
    }
    forall id | Crowded(s', id) ensures id in s'.pool.index {
      LessCrowded(s, s', t, id);
      RoomKeepsCrowd(s, t, id);
    }
  }

  // What a miss fetched is what the map holds.
  lemma FetchedIsRead(p: Pool, c: Call)
    requires Wf(p) && c.Fetched? && CallOk(p, c)
    ensures (Contents(p)[c.op.id := c.page], if c.op.GetOp? then c.page else []) == Spec.ApplyMap(Contents(p), c.op)
  {
    LookIsContents(p, c.op.id);
    if c.op.GetOp? && c.op.id in p.disk {
      assert Contents(p)[c.op.id := c.page] == Contents(p);
    }
  }

  lemma FinishFetched(s: State, t: nat)
    requires Inv(s) && Enabled(s, Finish(t)) && s.calls[t].Fetched? && !Hazard(s, Finish(t))
    ensures Refines(s, Finish(t), Next(s, Finish(t)).0, Next(s, Finish(t)).1)
  {
    var p, c := s.pool, s.calls[t];
    assert CallOk(p, c);
    RoomWf(p);
    RoomKeepsCall(p, c);
    LoadContents(MakeRoom(p), c.op.id, c.page);
    FetchedIsRead(p, c);
  }

  /** A step that is not hazardous keeps all calls consistent, and only finishing a call changes
      what readers see. */
  lemma StepRefines(s: State, e: Event)
    requires Inv(s) && Enabled(s, e) && !Hazard(s, e)
    ensures Inv(Next(s, e).0)
    ensures Refines(s, e, Next(s, e).0, Next(s, e).1)
  {
    assert CallOk(s.pool, s.calls[e.t]);
    if !e.Finish? {
      OneCallMoves(s, e.t, Next(s, e).0.calls[e.t]);
    } else if s.calls[e.t].Hit? {
      FinishHit(s, e.t);
    } else {
      FinishFetchedInv(s, e.t);
      FinishFetched(s, e.t);
    }
  }

  // ---------------------------------------------------------------- whole runs

  /** Any interleaving of what the code lets through. */
  ghost predicate Run(s: State, es: seq<Event>)
    decreases |es|
  {
    es == [] || (Enabled(s, es[0]) && Run(Next(s, es[0]).0, es[1..]))
  }

  /** An interleaving without hazardous steps. */
  ghost predicate CleanRun(s: State, es: seq<Event>)
    decreases |es|
  {
    es == [] || (Enabled(s, es[0]) && !Hazard(s, es[0]) && CleanRun(Next(s, es[0]).0, es[1..]))
  }

  lemma {:induction false} CleanRunIsRun(s: State, es: seq<Event>)
    requires CleanRun(s, es)
    ensures Run(s, es)
    decreases |es|
  {
    if es != [] { CleanRunIsRun(Next(s, es[0]).0, es[1..]); }
  }

  ghost function Final(s: State, es: seq<Event>): State
    requires Run(s, es)
    decreases |es|
  {
    if es == [] then s else Final(Next(s, es[0]).0, es[1..])
  }

  /** The calls in the order in which they finish, and what they returned. */
  ghost function Finished(s: State, es: seq<Event>): (r: (seq<Spec.Op>, seq<Bytes>))
    requires Run(s, es)
    decreases |es|
  {
    if es == [] then ([], []) else
    var (s', b) := Next(s, es[0]);
    var (ops, bs) := Finished(s', es[1..]);
    if es[0].Finish? then ([s.calls[es[0].t].op] + ops, [b] + bs) else (ops, bs)
  }

  /** Every interleaving without hazardous steps is linearizable: the calls, in the order in which
      they finish, behave like the same calls made one after the other on a plain map. */
  lemma {:induction false} SplitLockLinearizes(s: State, es: seq<Event>)
    requires Inv(s) && CleanRun(s, es)
    ensures Run(s, es) && Inv(Final(s, es))
    ensures (Contents(Final(s, es).pool), Finished(s, es).1) == Spec.RunMap(Contents(s.pool), Finished(s, es).0)
    decreases |es|
  {
    CleanRunIsRun(s, es);
    if es != [] {
      StepRefines(s, es[0]);
      SplitLockLinearizes(Next(s, es[0]).0, es[1..]);
      var (ops, bs) := Finished(Next(s, es[0]).0, es[1..]);
      if es[0].Finish? {
        assert Finished(s, es).0[1..] == ops;
      }
    }
  }

  // ---------------------------------------------------------------- pools that are large enough

  predicate AsksWithin(es: seq<Event>, pages: set<nat>) {
    forall k :: 0 <= k < |es| && es[k].Begin? && IsCall(es[k].op) ==> es[k].op.id in pages
  }

  ghost predicate CallsWithin(s: State, pages: set<nat>) {
    forall t :: 0 <= t < |s.calls| && !s.calls[t].Idle? && IsCall(s.calls[t].op) ==> s.calls[t].op.id in pages
  }

  lemma AsksTail(es: seq<Event>, pages: set<nat>)
    requires es != [] && AsksWithin(es, pages)
    ensures AsksWithin(es[1..], pages)
  {
    assert forall k :: 0 <= k < |es| - 1 ==> es[1..][k] == es[k + 1];
  }

  /** Once the pages asked for are resident, as after the warm-up, every interleaving is without
      hazards, however many calls there are on one page, and nothing is ever flushed. */
  lemma {:induction false} WarmPoolLinearizes(s: State, es: seq<Event>)
    requires Inv(s) && Run(s, es) && CallsWithin(s, s.pool.index.Keys) && AsksWithin(es, s.pool.index.Keys)
    ensures CleanRun(s, es) && Final(s, es).pool.disk == s.pool.disk
    decreases |es|
  {
    if es != [] {
      var e := es[0];
      assert CallOk(s.pool, s.calls[e.t]);
      assert !Hazard(s, e);
      StepRefines(s, e);
      AsksTail(es, s.pool.index.Keys);
      WarmPoolLinearizes(Next(s, e).0, es[1..]);
    }
  }

  lemma {:induction false} SubsetCount(a: set<nat>, b: set<nat>)
    requires a <= b
    ensures |a| <= |b|
  {
    if a != {} {
      var x :| x in a;
      SubsetCount(a - {x}, b - {x});
    }
  }

  // Every frame in use has its own page in the index.
  lemma UsedCount(p: Pool)
    requires Wf(p)
    ensures |p.list| <= |p.index.Keys|
  {
    InRange(p);
    var ids := seq(|p.list|, k requires 0 <= k < |p.list| => p.frames[p.list[k]].pageId);
    forall j, k | 0 <= j < k < |ids| ensures ids[j] != ids[k] {
      assert Used(p.frames, p.index, p.list[j]) && Used(p.frames, p.index, p.list[k]);
    }
    Spec.DistinctCount(ids);
    forall id | id in Spec.Elements(ids) ensures id in p.index.Keys {
      var k :| 0 <= k < |ids| && ids[k] == id;
      assert Used(p.frames, p.index, p.list[k]);
    }
    SubsetCount(Spec.Elements(ids), p.index.Keys);
  }

  lemma RoomLeft(s: State, t: nat, pages: set<nat>)
    requires Inv(s) && t < |s.calls| && s.calls[t].Fetched?
    requires s.pool.index.Keys <= pages && CallsWithin(s, pages) && |pages| <= |s.pool.frames|
    ensures s.pool.free != []
  {
    var p, id := s.pool, s.calls[t].op.id;
    assert CallOk(p, s.calls[t]);
    UsedCount(p);
    assert p.index.Keys <= pages - {id};
    SubsetCount(p.index.Keys, pages - {id});
  }

  /** No call for a page that is not resident while another is in flight on it. */
  ghost predicate OneMissEach(s: State, es: seq<Event>)
    requires Run(s, es)
    decreases |es|
  {
    es == [] || ((es[0].Begin? ==> !Hazard(s, es[0])) && OneMissEach(Next(s, es[0]).0, es[1..]))
  }

  lemma WithinKept(s: State, e: Event, pages: set<nat>)
    requires Inv(s) && Enabled(s, e) && s.pool.index.Keys <= pages && CallsWithin(s, pages)
    requires (e.Begin? ==> e.op.id in pages) && (e.Finish? && s.calls[e.t].Fetched? ==> s.pool.free != [])
    ensures var s' := Next(s, e).0;
            && s'.pool.index.Keys <= pages && CallsWithin(s', pages)
            && s'.pool.disk == s.pool.disk && |s'.pool.frames| == |s.pool.frames|
  {
    assert CallOk(s.pool, s.calls[e.t]);
  }

  /** With no more distinct pages than frames, as the buffers are sized, no flush ever happens; a
      cold pool then needs no more than one call at a time on each page that is still missing. */
  lemma {:induction false} EnoughFramesNeverFlush(s: State, es: seq<Event>, pages: set<nat>)
    requires Inv(s) && Run(s, es) && OneMissEach(s, es)
    requires s.pool.index.Keys <= pages && CallsWithin(s, pages) && AsksWithin(es, pages) && |pages| <= |s.pool.frames|
    ensures CleanRun(s, es) && Final(s, es).pool.disk == s.pool.disk
    decreases |es|
  {
    if es != [] {
      var e := es[0];
      if e.Finish? && s.calls[e.t].Fetched? { RoomLeft(s, e.t, pages); }
      assert !Hazard(s, e);
      StepRefines(s, e);
      WithinKept(s, e, pages);
      AsksTail(es, pages);
      EnoughFramesNeverFlush(Next(s, e).0, es[1..], pages);
    }
  }
}
