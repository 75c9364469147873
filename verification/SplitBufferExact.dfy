/**
  The hazardous steps of the split-lock pool are exactly what separates interleavings that behave
  like a plain map from interleavings that do not: after any of them some continuation without
  further hazards loses a Put or returns the bytes of another page.
*/
module SplitBufferExact {
  import opened Bytes
  import Spec = PoolSpec
  import opened SplitBuffer

  /** No continuation without hazardous steps ever returns anything that map `m` would not. */
  ghost predicate SafeFrom(s: State, m: map<nat, Bytes>) {
    forall es :: CleanRun(s, es) ==> Run(s, es) && Finished(s, es).1 == Spec.RunMap(m, Finished(s, es).0).1
  }

  /** The same step on the map. */
  ghost function MapStep(s: State, m: map<nat, Bytes>, e: Event): (map<nat, Bytes>, Bytes)
    requires Enabled(s, e)
  {
    if e.Finish? then Spec.ApplyMap(m, s.calls[e.t].op) else (m, [])
  }

  /** The step returns what the map returns, and so do all continuations without hazards. */
  ghost predicate StepSafe(s: State, m: map<nat, Bytes>, e: Event)
    requires Enabled(s, e)
  {
    Next(s, e).1 == MapStep(s, m, e).1 && SafeFrom(Next(s, e).0, MapStep(s, m, e).0)
  }

  lemma InvSafe(s: State)
    requires Inv(s)
    ensures SafeFrom(s, Contents(s.pool))
  {
    forall es | CleanRun(s, es) ensures Run(s, es) && Finished(s, es).1 == Spec.RunMap(Contents(s.pool), Finished(s, es).0).1 {
      SplitLockLinearizes(s, es);
    }
  }

  lemma CleanStepSafe(s: State, e: Event)
    requires Inv(s) && Enabled(s, e) && !Hazard(s, e)
    ensures StepSafe(s, Contents(s.pool), e)
  {
    StepRefines(s, e);
    InvSafe(Next(s, e).0);
  }

  lemma BadAfter(s: State, m: map<nat, Bytes>, e: Event)
    requires Enabled(s, e) && !Hazard(s, e) && !StepSafe(s, m, e)
    ensures !SafeFrom(s, m)
  {
    var (s', b) := Next(s, e);
    var (m', b') := MapStep(s, m, e);
    if b != b' {
      var es := [e];
      var ops := [s.calls[e.t].op];
      assert e.Finish? && es[1..] == [] && ops[1..] == [] && CleanRun(s, es) && Run(s, es);
      assert Finished(s', []) == ([], []) && Finished(s, es).0 == ops && Finished(s, es).1 == [b];
      assert Spec.RunMap(m, ops).1 == [b'];
    } else {
      var rest :| CleanRun(s', rest) && !(Run(s', rest) && Finished(s', rest).1 == Spec.RunMap(m', Finished(s', rest).0).1);
      CleanRunIsRun(s', rest);
      var es := [e] + rest;
      assert es[1..] == rest && CleanRun(s, es) && Run(s, es);
      BadTail(s, m, e, rest);
    }
  }

  lemma BadTail(s: State, m: map<nat, Bytes>, e: Event, rest: seq<Event>)
    requires Enabled(s, e) && Run(Next(s, e).0, rest)
    requires Finished(Next(s, e).0, rest).1 != Spec.RunMap(MapStep(s, m, e).0, Finished(Next(s, e).0, rest).0).1
    ensures Run(s, [e] + rest) && Finished(s, [e] + rest).1 != Spec.RunMap(m, Finished(s, [e] + rest).0).1
  {
    var es := [e] + rest;
    assert es[1..] == rest;
    var (ops, bs) := Finished(Next(s, e).0, rest);
    if e.Finish? {
      var all := Finished(s, es).0;
      assert all == [s.calls[e.t].op] + ops && all[1..] == ops;
      var bs' := Spec.RunMap(MapStep(s, m, e).0, ops).1;
      assert Spec.RunMap(m, all).1 == [MapStep(s, m, e).1] + bs';
      assert ([Next(s, e).1] + bs)[1..] == bs && ([MapStep(s, m, e).1] + bs')[1..] == bs';
    }
  }

  // ---------------------------------------------------------------- a page that differs from the map

  // A Get of a resident page that does not hold what the map holds.
  lemma StaleRead(s: State, m: map<nat, Bytes>, t: nat, id: nat)
    requires t < |s.calls| && s.calls[t].Idle? && id < U64_MAX && id in m
    requires id in s.pool.index && s.pool.index[id] < |s.pool.frames| && s.pool.frames[s.pool.index[id]].buf != m[id]
    ensures !SafeFrom(s, m)
  {
    var op := Spec.GetOp(id, []);
    var s1 := Next(s, Begin(t, op)).0;
    var s2 := Next(s1, LookUp(t)).0;
    BadAfter(s2, m, Finish(t));
    BadAfter(s1, m, LookUp(t));
    BadAfter(s, m, Begin(t, op));
  }

  // A Put into a frame the index no longer leads to.
  lemma LostPut(s: State, m: map<nat, Bytes>, t: nat, id: nat, page: Bytes, n: nat)
    requires t < |s.calls| && s.calls[t] == Hit(Spec.PutOp(id, page), n) && n < |s.pool.frames| && id < U64_MAX
    requires id in s.pool.index && s.pool.index[id] < |s.pool.frames| && s.pool.index[id] != n
    requires s.pool.frames[s.pool.index[id]].buf != page
    ensures !SafeFrom(s, m)
  {
    StaleRead(Next(s, Finish(t)).0, MapStep(s, m, Finish(t)).0, t, id);
    BadAfter(s, m, Finish(t));
  }

  // Some page other than two given ones.
  function Other(a: Bytes, b: Bytes): (x: Bytes)
    ensures x != a && x != b
  {
    seq(|a| + |b| + 1, _ => 0)
  }

  // ---------------------------------------------------------------- a flush under a call that has its frame

  // The frame of call u now belongs to another page: let t fill that page and u finish.
  lemma FrameReused(s: State, m: map<nat, Bytes>, t: nat, u: nat, n: nat)
    requires t < |s.calls| && u < |s.calls| && s.calls[t].Idle? && s.calls[u].Hit? && s.calls[u].frame == n && IsCall(s.calls[u].op)
    requires Used(s.pool.frames, s.pool.index, n) && s.pool.frames[n].pageId != s.calls[u].op.id
    ensures !SafeFrom(s, m)
  {
    var op, id := s.calls[u].op, s.pool.frames[n].pageId;
    var x := if op.PutOp? then Other(op.page, []) else Other(if op.id in m then m[op.id] else op.buf, []);
    var put := Spec.PutOp(id, x);
    var s1 := Next(s, Begin(t, put)).0;
    var s2 := Next(s1, LookUp(t)).0;
    var s3 := Next(s2, Finish(t)).0;
    var m3 := m[id := x];
    assert s3.calls[u] == s.calls[u] && s3.calls[t].Idle? && s3.pool.frames[n].buf == x && s3.pool.index == s.pool.index;
    if op.PutOp? {
      StaleRead(Next(s3, Finish(u)).0, MapStep(s3, m3, Finish(u)).0, t, id);
    }
    BadAfter(s3, m3, Finish(u));
    assert MapStep(s2, m, Finish(t)).0 == m3;
    BadAfter(s2, m, Finish(t));
    BadAfter(s1, m, LookUp(t));
    BadAfter(s, m, Begin(t, put));
  }

  // ---------------------------------------------------------------- page ids nobody uses

  ghost function Range(n: nat): (r: set<nat>)
    ensures |r| == n && forall k: nat :: k in r <==> k < n
  {
    if n == 0 then {} else Range(n - 1) + {n - 1}
  }

  lemma {:induction false} InjectionCount(index: map<nat, nat>, ids: set<nat>, targets: set<nat>)
    requires forall i :: i in ids ==> i in index && index[i] in targets
    requires forall i, j :: i in ids && j in ids && i != j ==> index[i] != index[j]
    ensures |ids| <= |targets|
  {
    if ids != {} {
      var x :| x in ids;
      InjectionCount(index, ids - {x}, targets - {index[x]});
    }
  }

  lemma IndexCount(p: Pool)
    requires Wf(p)
    ensures |p.index.Keys| <= |p.frames|
  {
    forall i | i in p.index ensures p.index[i] in Range(|p.frames|) && p.frames[p.index[i]].pageId == i {
      assert Leads(p.frames, p.index, i);
    }
    InjectionCount(p.index, p.index.Keys, Range(|p.frames|));
  }

  /** The pages with calls in flight. */
  function Busy(calls: seq<Call>): set<nat> {
    if calls == [] then {} else
    var c := calls[|calls| - 1];
    Busy(calls[..|calls| - 1]) + if c.Idle? || c.op.FlushOp? then {} else {c.op.id}
  }

  lemma {:induction false} BusyCount(calls: seq<Call>)
    ensures |Busy(calls)| <= |calls|
    ensures forall t, id :: 0 <= t < |calls| && InFlight(calls[t], id) ==> id in Busy(calls)
  {
    if calls != [] {
      BusyCount(calls[..|calls| - 1]);
    }
  }

  lemma FreshPage(s: State) returns (id: nat)
    requires Wf(s.pool) && |s.pool.frames| + |s.calls| < U64_MAX
    ensures id < U64_MAX && id !in s.pool.index && !Taken(s, id)
  {
    var used := s.pool.index.Keys + Busy(s.calls);
    IndexCount(s.pool);
    BusyCount(s.calls);
    if Range(U64_MAX) <= used {
      SubsetCount(Range(U64_MAX), used);
      assert false;
    }
    id :| id in Range(U64_MAX) && id !in used;
  }

  // The frame of call u is free: t loads new pages until one of them gets it.
  lemma {:induction false} FrameFreed(s: State, m: map<nat, Bytes>, t: nat, u: nat, n: nat)
    requires Wf(s.pool) && |s.pool.frames| + |s.calls| < U64_MAX && n in s.pool.free
    requires t < |s.calls| && u < |s.calls| && s.calls[t].Idle? && s.calls[u].Hit? && s.calls[u].frame == n && IsCall(s.calls[u].op)
    ensures !SafeFrom(s, m)
    decreases |s.pool.free|
  {
    var id := FreshPage(s);
    var p, op := s.pool, Spec.PutOp(id, []);
    var s1 := Next(s, Begin(t, op)).0;
    var s2 := Next(s1, LookUp(t)).0;
    var s3 := Next(s2, Fetch(t)).0;
    var s4 := Next(s3, Finish(t)).0;
    var last := |p.free| - 1;
    LoadWf(p, id, []);
    assert s4.pool == Load(p, id, []) && s4.calls == s.calls[t := Idle];
    assert InFlight(s.calls[u], s.calls[u].op.id);
    assert Vacant(p.frames, p.free[last]);
    if p.free[last] == n {
      FrameReused(s4, MapStep(s3, m, Finish(t)).0, t, u, n);
    } else {
      assert n in p.free[..last];
      FrameFreed(s4, MapStep(s3, m, Finish(t)).0, t, u, n);
    }
    BadAfter(s3, m, Finish(t));
    BadAfter(s2, m, Fetch(t));
    BadAfter(s1, m, LookUp(t));
    BadAfter(s, m, Begin(t, op));
  }

  // ---------------------------------------------------------------- two calls on a page that is not resident

  /** The call does not keep a flush from being clean. */
  predicate Quiet(p: Pool, c: Call) {
    c.Idle? || (!c.Hit? && IsCall(c.op) && c.op.id !in p.index)
  }

  /** u and w are both in flight on `id`, which is not resident. */
  ghost predicate Pair(s: State, u: nat, w: nat, id: nat) {
    && Wf(s.pool) && |s.pool.frames| >= 5 && u < |s.calls| && w < |s.calls| && u != w
    && InFlight(s.calls[u], id) && InFlight(s.calls[w], id) && id !in s.pool.index && id < U64_MAX
    && forall t :: 0 <= t < |s.calls| ==> CallOk(s.pool, s.calls[t])
  }

  /** Calls in flight on resident pages are on the newest page only. */
  ghost predicate OnNewest(s: State) {
    forall v, i :: 0 <= v < |s.calls| && InFlight(s.calls[v], i) && i in s.pool.index ==>
      s.pool.list != [] && s.pool.index[i] == s.pool.list[0]
  }

  // A flush takes the oldest pages, so it is clean then, and makes room.
  lemma QuietFinish(s: State, t: nat)
    requires Wf(s.pool) && |s.pool.frames| >= 5 && t < |s.calls| && s.calls[t].Fetched? && IsCall(s.calls[t].op) && OnNewest(s)
    ensures MakeRoom(s.pool).free != [] && Enabled(s, Finish(t)) && !Hazard(s, Finish(t))
  {
    var p := s.pool;
    var k := |p.frames| / 5;
    InRange(p);
    if p.free == [] {
      EvictShape(p, k);
    }
    forall n | n in p.list && Flushed(p, n) ensures !FlushHurts(s, n) {
      var j :| 0 <= j < |p.list| && p.list[j] == n;
      assert Used(p.frames, p.index, p.list[j]);
      FirstNotInTail(p.list, k);
    }
  }

  lemma FirstNotInTail(list: seq<nat>, k: nat)
    requires Distinct(list) && k < |list|
    ensures list[0] !in list[|list| - k..]
  {
  }

  // Room is made without touching the newest page.
  lemma RoomKeepsNewest(p: Pool, id: nat)
    requires Wf(p) && |p.frames| >= 5 && p.list != [] && id in p.index && p.index[id] == p.list[0]
    ensures id in MakeRoom(p).index && MakeRoom(p).index[id] == p.index[id]
  {
    if p.free == [] {
      FirstNotInTail(p.list, |p.frames| / 5);
      EvictKept(p, |p.frames| / 5, id);
    }
  }

  // Loading a page that has become resident meanwhile puts it into a second frame.
  lemma SecondFrame(p: Pool, id: nat, page: Bytes)
    requires Wf(p) && |p.frames| >= 5 && p.list != [] && id in p.index && p.index[id] == p.list[0] && MakeRoom(p).free != []
    ensures var q, n := Load(MakeRoom(p), id, page), p.index[id];
            && n < |q.frames| && q.frames[n].pageId == id
            && id in q.index && q.index[id] < |q.frames| && q.index[id] != n && q.frames[q.index[id]] == Spec.Frame(id, page)
  {
    var r := MakeRoom(p);
    RoomWf(p);
    RoomKeepsNewest(p, id);
    assert Leads(r.frames, r.index, id) && Vacant(r.frames, r.free[|r.free| - 1]);
  }

  // u has fetched `id`, and w, idle, finds it resident in another frame already.
  lemma SecondLoad(s: State, m: map<nat, Bytes>, u: nat, w: nat, id: nat)
    requires Wf(s.pool) && |s.pool.frames| >= 5 && OnNewest(s) && u < |s.calls| && w < |s.calls| && s.calls[w].Idle?
    requires s.calls[u].Fetched? && IsCall(s.calls[u].op) && s.calls[u].op.id == id && id in s.pool.index
    ensures !SafeFrom(s, m)
  {
    assert InFlight(s.calls[u], id) && Leads(s.pool.frames, s.pool.index, id);
    var page, n := s.calls[u].page, s.pool.index[id];
    var put := Spec.PutOp(id, Other(page, []));
    var s1 := Next(s, Begin(w, put)).0;
    var s2 := Next(s1, LookUp(w)).0;
    assert s2.pool == s.pool && s2.calls == s.calls[w := Hit(put, n)];
    assert OnNewest(s2) by {
      forall v, i | 0 <= v < |s2.calls| && InFlight(s2.calls[v], i) && i in s2.pool.index
        ensures s2.pool.list != [] && s2.pool.index[i] == s2.pool.list[0]
      {
        if v != w { assert InFlight(s.calls[v], i); }
      }
    }
    QuietFinish(s2, u);
    SecondFrame(s.pool, id, page);
    var s3 := Next(s2, Finish(u)).0;
    LostPut(s3, MapStep(s2, m, Finish(u)).0, w, id, put.page, n);
    BadAfter(s2, m, Finish(u));
    BadAfter(s1, m, LookUp(w));
    BadAfter(s, m, Begin(w, put));
  }

  // Both have missed and everyone else is out of the way: w loads the page, then u does.
  lemma BothFetched(s: State, m: map<nat, Bytes>, u: nat, w: nat, id: nat)
    requires Pair(s, u, w, id) && s.calls[u].Fetched? && s.calls[w].Fetched?
    requires forall t :: 0 <= t < |s.calls| ==> Quiet(s.pool, s.calls[t])
    ensures !SafeFrom(s, m)
  {
    assert Quiet(s.pool, s.calls[u]) && Quiet(s.pool, s.calls[w]);
    assert OnNewest(s) by {
      forall v, i | 0 <= v < |s.calls| && InFlight(s.calls[v], i) ensures i !in s.pool.index {
        assert Quiet(s.pool, s.calls[v]);
      }
    }
    QuietFinish(s, w);
    var r := MakeRoom(s.pool);
    var s1 := Next(s, Finish(w)).0;
    RoomWf(s.pool);
    RoomAbsent(s.pool, id);
    LoadWf(r, id, s.calls[w].page);
    assert Vacant(r.frames, r.free[|r.free| - 1]);
    assert OnNewest(s1) by {
      forall v, i | 0 <= v < |s1.calls| && InFlight(s1.calls[v], i) && i in s1.pool.index ensures i == id {
        assert Quiet(s.pool, s.calls[v]);
        RoomAbsent(s.pool, i);
      }
    }
    SecondLoad(s1, MapStep(s, m, Finish(w)).0, u, w, id);
    BadAfter(s, m, Finish(w));
  }

  lemma RoomAbsent(p: Pool, id: nat)
    requires Wf(p) && id !in p.index
    ensures id !in MakeRoom(p).index
  {
    if p.free == [] { EvictAbsent(p, |p.frames| / 5, id); }
  }

  /** Nothing left to do for call v before the two loads. */
  predicate Settled(s: State, u: nat, w: nat, v: nat)
    requires v < |s.calls|
  {
    Quiet(s.pool, s.calls[v]) && (v == u || v == w ==> s.calls[v].Fetched?)
  }

  function CallRank(c: Call): nat {
    match c
    case Idle => 0
    case Begun(_) => 3
    case Hit(_, _) => 2
    case Miss(_) => 2
    case Fetched(_, _) => 0
  }

  function StepOf(c: Call, k: nat): Event {
    match c
    case Begun(_) => LookUp(k)
    case Miss(_) => Fetch(k)
    case _ => Finish(k)
  }

  // A call looks up, copies, or finishes with a frame it has: index and disk stay.
  lemma SettleStep(s: State, u: nat, w: nat, id: nat, k: nat)
    requires Pair(s, u, w, id) && k < |s.calls| && !Settled(s, u, w, k)
    ensures var e := StepOf(s.calls[k], k);
            && Enabled(s, e) && !Hazard(s, e)
            && var s' := Next(s, e).0;
               && Pair(s', u, w, id) && s'.pool.index == s.pool.index && s'.calls == s.calls[k := s'.calls[k]]
               && CallRank(s'.calls[k]) < CallRank(s.calls[k])
  {
    var c, e := s.calls[k], StepOf(s.calls[k], k);
    assert CallOk(s.pool, c) && CallOk(s.pool, s.calls[u]) && CallOk(s.pool, s.calls[w]);
    if c.Hit? {
      OverwriteWf(s.pool, c.op.id, if c.op.PutOp? then c.op.page else []);
    }
    var s' := Next(s, e).0;
    forall t | 0 <= t < |s'.calls| ensures CallOk(s'.pool, s'.calls[t]) {
      assert CallOk(s.pool, s.calls[t]);
    }
  }

  lemma {:induction false} TwoMisses(s: State, m: map<nat, Bytes>, u: nat, w: nat, id: nat, k: nat)
    requires Pair(s, u, w, id) && k <= |s.calls| && forall v :: 0 <= v < k ==> Settled(s, u, w, v)
    ensures !SafeFrom(s, m)
    decreases |s.calls| - k, if k < |s.calls| then CallRank(s.calls[k]) else 0
  {
    if k == |s.calls| {
      assert Settled(s, u, w, u) && Settled(s, u, w, w);
      forall t | 0 <= t < |s.calls| ensures Quiet(s.pool, s.calls[t]) {
        assert Settled(s, u, w, t);
      }
      BothFetched(s, m, u, w, id);
    } else if Settled(s, u, w, k) {
      TwoMisses(s, m, u, w, id, k + 1);
    } else {
      var e := StepOf(s.calls[k], k);
      SettleStep(s, u, w, id, k);
      var s' := Next(s, e).0;
      forall v | 0 <= v < k ensures Settled(s', u, w, v) {
        assert Settled(s, u, w, v);
      }
      TwoMisses(s', MapStep(s, m, e).0, u, w, id, k);
      BadAfter(s, m, e);
    }
  }

  // ---------------------------------------------------------------- both hazards are real

  lemma BeginUnsafe(s: State, m: map<nat, Bytes>, t: nat, op: Spec.Op)
    requires Inv(s) && |s.pool.frames| >= 5 && Enabled(s, Begin(t, op)) && Hazard(s, Begin(t, op))
    ensures !SafeFrom(Next(s, Begin(t, op)).0, m)
  {
    var u :| 0 <= u < |s.calls| && InFlight(s.calls[u], op.id);
    var s' := Next(s, Begin(t, op)).0;
    forall v | 0 <= v < |s'.calls| ensures CallOk(s'.pool, s'.calls[v]) {
      assert CallOk(s.pool, s.calls[v]);
    }
    assert InFlight(s'.calls[t], op.id) && InFlight(s'.calls[u], op.id);
    TwoMisses(s', m, t, u, op.id, 0);
  }

  ghost predicate HitFlushed(s: State, n: nat, u: nat) {
    n in s.pool.list && Flushed(s.pool, n) && u < |s.calls| && s.calls[u].Hit? && s.calls[u].frame == n
  }

  // The flush takes a frame that call u has looked up.
  lemma FlushHitUnsafe(s: State, m: map<nat, Bytes>, t: nat, n: nat, u: nat)
    requires Inv(s) && |s.pool.frames| + |s.calls| < U64_MAX && Enabled(s, Finish(t)) && s.calls[t].Fetched? && HitFlushed(s, n, u)
    ensures !SafeFrom(Next(s, Finish(t)).0, m)
  {
    var p, c, k := s.pool, s.calls[t], |s.pool.frames| / 5;
    var r := MakeRoom(p);
    assert CallOk(p, c) && CallOk(p, s.calls[u]);
    RoomWf(p);
    RoomAbsent(p, c.op.id);
    EvictFrees(p, k, n);
    LoadWf(r, c.op.id, c.page);
    var s' := Next(s, Finish(t)).0;
    var last := |r.free| - 1;
    assert Vacant(r.frames, r.free[last]);
    if r.free[last] == n {
      FrameReused(s', m, t, u, n);
    } else {
      assert n in r.free[..last];
      FrameFreed(s', m, t, u, n);
    }
  }

  lemma CallsAfterLoad(s: State, t: nat)
    requires Inv(s) && Enabled(s, Finish(t)) && s.calls[t].Fetched? && forall i, u :: !HitFlushed(s, i, u)
    ensures var s' := Next(s, Finish(t)).0;
            Wf(s'.pool) && |s'.pool.frames| == |s.pool.frames| && forall v :: 0 <= v < |s'.calls| ==> CallOk(s'.pool, s'.calls[v])
  {
    var p, c := s.pool, s.calls[t];
    var r, s' := MakeRoom(p), Next(s, Finish(t)).0;
    assert CallOk(p, c);
    RoomWf(p);
    RoomAbsent(p, c.op.id);
    LoadWf(r, c.op.id, c.page);
    assert Vacant(r.frames, r.free[|r.free| - 1]);
    forall v | 0 <= v < |s'.calls| ensures CallOk(s'.pool, s'.calls[v]) {
      if v != t {
        assert CallOk(p, s.calls[v]) && !HitFlushed(s, if s.calls[v].Hit? then s.calls[v].frame else 0, v);
        RoomKeepsCall(p, s.calls[v]);
        MissIsAlone(s, t, v);
        LoadKeepsCall(r, c.op.id, c.page, s.calls[v]);
      }
    }
  }

  // The flush takes a page that two calls are about to look up.
  lemma FlushCrowdUnsafe(s: State, m: map<nat, Bytes>, t: nat, n: nat)
    requires Inv(s) && |s.pool.frames| >= 5 && Enabled(s, Finish(t)) && s.calls[t].Fetched?
    requires n in s.pool.list && Flushed(s.pool, n) && n < |s.pool.frames| && Crowded(s, s.pool.frames[n].pageId)
    requires forall i, u :: !HitFlushed(s, i, u)
    ensures !SafeFrom(Next(s, Finish(t)).0, m)
  {
    var c, id := s.calls[t], s.pool.frames[n].pageId;
    var s' := Next(s, Finish(t)).0;
    var a, b :| 0 <= a < b < |s.calls| && InFlight(s.calls[a], id) && InFlight(s.calls[b], id);
    CallsAfterLoad(s, t);
    FlushedGone(s.pool, n);
    assert CallOk(s.pool, c);
    TwoMisses(s', m, a, b, id, 0);
  }

  lemma FlushedGone(p: Pool, n: nat)
    requires Wf(p) && n in p.list && Flushed(p, n)
    ensures n < |p.frames| && p.frames[n].pageId in p.index && p.frames[n].pageId < U64_MAX
    ensures p.frames[n].pageId !in MakeRoom(p).index
  {
    var j :| 0 <= j < |p.list| && p.list[j] == n;
    assert Used(p.frames, p.index, p.list[j]);
    var k, id, r := |p.frames| / 5, p.frames[n].pageId, MakeRoom(p);
    EvictFrees(p, k, n);
    EvictWf(p, k);
    var i :| 0 <= i < |r.free| && r.free[i] == n;
    assert Vacant(r.frames, r.free[i]) && (id in r.index ==> Leads(r.frames, r.index, id));
    if id in r.index {
      EvictSame(p, k, id);
    }
  }

  lemma FinishUnsafe(s: State, m: map<nat, Bytes>, t: nat)
    requires Inv(s) && |s.pool.frames| + |s.calls| < U64_MAX && Enabled(s, Finish(t)) && Hazard(s, Finish(t))
    ensures !SafeFrom(Next(s, Finish(t)).0, m)
  {
    var n :| n in s.pool.list && Flushed(s.pool, n) && FlushHurts(s, n);
    FlushedGone(s.pool, n);
    if i: nat, u: nat :| HitFlushed(s, i, u) {
      FlushHitUnsafe(s, m, t, i, u);
    } else {
      assert Crowded(s, s.pool.frames[n].pageId) by { NoHit(s, n); }
      FlushCrowdUnsafe(s, m, t, n);
    }
  }

  lemma NoHit(s: State, n: nat)
    requires Inv(s) && n in s.pool.list && Flushed(s.pool, n) && FlushHurts(s, n) && forall i, u :: !HitFlushed(s, i, u)
    ensures Crowded(s, s.pool.frames[n].pageId)
  {
    var id := s.pool.frames[n].pageId;
    if u :| 0 <= u < |s.calls| && s.calls[u].Hit? && InFlight(s.calls[u], id) {
      assert CallOk(s.pool, s.calls[u]);
      var j :| 0 <= j < |s.pool.list| && s.pool.list[j] == n;
      assert Used(s.pool.frames, s.pool.index, s.pool.list[j]) && !HitFlushed(s, n, u);
    }
  }

  /** After any run without hazards from a pool of five frames or more, the next step and all its
      continuations without hazards return what a plain map returns if and only if the step is not
      hazardous. */
  lemma HazardsAreExact(s0: State, es: seq<Event>, e: Event)
    requires Inv(s0) && CleanRun(s0, es) && Run(s0, es) && Enabled(Final(s0, es), e)
    requires 5 <= |Final(s0, es).pool.frames| && |Final(s0, es).pool.frames| + |Final(s0, es).calls| < U64_MAX
    ensures var s := Final(s0, es); StepSafe(s, Contents(s.pool), e) <==> !Hazard(s, e)
  {
    var s := Final(s0, es);
    SplitLockLinearizes(s0, es);
    var m := MapStep(s, Contents(s.pool), e).0;
    if !Hazard(s, e) {
      CleanStepSafe(s, e);
    } else if e.Begin? {
      BeginUnsafe(s, m, e.t, e.op);
    } else {
      FinishUnsafe(s, m, e.t);
    }
  }

  // ---------------------------------------------------------------- a concrete run

  /** Five empty frames, two threads, page 7 on disk. */
  function Cold(): State {
    State(Pool(seq(5, _ => Spec.Frame(U64_MAX, [])), [], map[], [0, 1, 2, 3, 4], map[7 := [1]]), [Idle, Idle])
  }

  lemma ColdInv()
    ensures Inv(Cold())
  {
    var s := Cold();
    forall k | 0 <= k < 5 ensures Vacant(s.pool.frames, s.pool.free[k]) {
    }
    forall id | Crowded(s, id) ensures false {
    }
  }

  lemma OneMore(s: State, e: Event, es: seq<Event>)
    requires Enabled(s, e) && Run(Next(s, e).0, es)
    ensures Run(s, [e] + es) && Final(s, [e] + es) == Final(Next(s, e).0, es)
  {
    assert ([e] + es)[1..] == es;
  }

  /** Two readers that miss the same page put it into two frames. */
  lemma TwoFrames() returns (es: seq<Event>)
    ensures Run(Cold(), es)
    ensures var p := Final(Cold(), es).pool; |p.frames| == 5 && p.frames[4] == p.frames[3] == Spec.Frame(7, [1])
  {
    var get := Spec.GetOp(7, []);
    var s0 := Cold();
    var s1 := Next(s0, Begin(0, get)).0;
    var s2 := Next(s1, Begin(1, get)).0;
    var s3 := Next(s2, LookUp(0)).0;
    var s4 := Next(s3, LookUp(1)).0;
    var s5 := Next(s4, Fetch(0)).0;
    var s6 := Next(s5, Fetch(1)).0;
    assert s6.pool == s0.pool && s6.calls == [Fetched(get, [1]), Fetched(get, [1])];
    var s7 := Next(s6, Finish(0)).0;
    assert s7.pool.free == [0, 1, 2, 3] && s7.pool.frames[4] == Spec.Frame(7, [1]);
    es := [Finish(1)];
    OneMore(s7, Finish(1), []);
    OneMore(s6, Finish(0), es);    es := [Finish(0)] + es;
    OneMore(s5, Fetch(1), es);     es := [Fetch(1)] + es;
    OneMore(s4, Fetch(0), es);     es := [Fetch(0)] + es;
    OneMore(s3, LookUp(1), es);    es := [LookUp(1)] + es;
    OneMore(s2, LookUp(0), es);    es := [LookUp(0)] + es;
    OneMore(s1, Begin(1, get), es); es := [Begin(1, get)] + es;
    OneMore(s0, Begin(0, get), es); es := [Begin(0, get)] + es;
  }
}
