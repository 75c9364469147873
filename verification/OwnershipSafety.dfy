/** What every run keeps, and what every run without a hazardous call keeps. */
module OwnershipSafety {
  import opened Bytes
  import LT = LockTable
  import opened Ownership

  // ---------------------------------------------------------------- every run

  /** Facts that no interleaving breaks, hazardous calls included. */
  ghost predicate Base(s: State) {
    && -1 <= s.owner < |s.insts|
    && s.served == (if s.owner < 0 then 0 else 1)
    && (forall i :: 0 <= i < |s.insts| ==> s.insts[i].node.threadCount == |s.insts[i].node.threads|)
    && !s.handover.Expired?
    && (s.handover != Free ==> OwnerKnown(s) && At(s, s.handover.ins, s.handover.thd, Requesting))
    && (s.handover.OwnerLocked? ==> s.insts[s.owner].node.threadCount == 0)
  }

  lemma ActThreads(x: Instance, t: nat, a: Act)
    requires CanAct(x, t, a) && x.node.threadCount == |x.node.threads|
    ensures ActOn(x, t, a).node.threadCount == |ActOn(x, t, a).node.threads|
    ensures !UsesMutex(a) ==> ActOn(x, t, a).node.threads == x.node.threads
    ensures forall u :: 0 <= u < |x.phases| && x.phases[u] == Requesting ==> ActOn(x, t, a).phases[u] == Requesting
  {
    if a.AddThread? || a.RemoveThread? { CountsThreads(x.node, t); }
  }

  lemma CountsThreads(n: LT.Node, t: nat)
    requires n.threadCount == |n.threads|
    ensures LT.AddThread(n, t).threadCount == |LT.AddThread(n, t).threads|
    ensures LT.RemoveThread(n, t).Done? ==> LT.RemoveThread(n, t).value.threadCount == |LT.RemoveThread(n, t).value.threads|
  {
  }

  lemma BaseKept(s: State, e: Event)
    requires Base(s) && Enabled(s, e)
    ensures Base(Next(s, e))
  {
    match e
    case Local(i, t, a) => ActThreads(s.insts[i], t, a);
    case _ =>
  }

  /** In every interleaving: LockInvalid never times out, thread_count is the size of thread_set,
      and the server's own, never updated copy is handed out at most once. */
  lemma {:induction false} NoTimeoutEver(s: State, es: seq<Event>)
    requires Init(s) || Base(s)
    requires Run(s, es)
    ensures Base(Final(s, es))
    ensures !Final(s, es).handover.Expired?
    ensures Final(s, es).served <= 1
    ensures forall i :: 0 <= i < |Final(s, es).insts| ==>
              Final(s, es).insts[i].node.threadCount == |Final(s, es).insts[i].node.threads|
    decreases |es|
  {
    if es != [] {
      BaseKept(s, es[0]);
      NoTimeoutEver(Next(s, es[0]), es[1..]);
    }
  }

  /** Only LockInvalid sets the mode to O, and it waits until thread_set is empty. */
  lemma PinnedStep(s: State, e: Event, i: nat)
    requires Base(s) && Enabled(s, e) && i < |s.insts|
    requires s.insts[i].node.mode != LT.O && s.insts[i].node.threads != {}
    ensures i < |Next(s, e).insts| && Next(s, e).insts[i].node.mode != LT.O
  {
  }

  /** Thread `t` is in instance `i`'s thread_set at every state the run passes. */
  predicate StaysRegistered(s: State, es: seq<Event>, i: nat, t: nat)
    requires Run(s, es)
    decreases |es|
  {
    && i < |s.insts| && t in s.insts[i].node.threads
    && (es == [] || StaysRegistered(Next(s, es[0]), es[1..], i, t))
  }

  /** A thread that registered while the page was owned keeps it owned until it leaves: the assert
      at the top of RemoveThread holds for it in every interleaving. */
  lemma {:induction false} RegisteredPagePinned(s: State, es: seq<Event>, i: nat, t: nat)
    requires Base(s) && Run(s, es) && StaysRegistered(s, es, i, t)
    requires s.insts[i].node.mode != LT.O
    ensures i < |Final(s, es).insts| && Final(s, es).insts[i].node.mode != LT.O
    decreases |es|
  {
    if es != [] {
      BaseKept(s, es[0]);
      PinnedStep(s, es[0], i);
      RegisteredPagePinned(Next(s, es[0]), es[1..], i, t);
    }
  }

  // ---------------------------------------------------------------- runs without hazardous calls

  predicate IsRequest(p: Phase) {
    p.Requesting? || p.Granted? || p.ModeSet? || p.Installed?
  }

  /** `i` is the recorded owner and has not given the page up. */
  predicate Mine(s: State, i: nat) {
    s.owner == i && !s.handover.Taken?
  }

  predicate PhaseOk(x: Instance, p: Phase, mine: bool, latest: Bytes) {
    match p
    case Granted(r) => mine && x.node.mode == LT.O && r == latest
    case ModeSet(r) =>
      if mine then x.node.mode in {LT.P, LT.S} && r == latest && (x.node.mode == LT.S ==> x.buf == r)
      else x.node.mode == LT.O
    case XRead(c) => c == latest
    case SRead(counted, c) => counted ==> c == latest
    case _ => true
  }

  /** At most one thread of the instance is between setting and clearing lock_remoting. */
  predicate OneRequest(x: Instance) {
    && (forall t :: 0 <= t < |x.phases| && IsRequest(x.phases[t]) ==> x.node.remoting)
    && (forall t, u :: 0 <= t < u < |x.phases| ==> !IsRequest(x.phases[t]) || !IsRequest(x.phases[u]))
  }

  predicate NothingIncoming(x: Instance) {
    forall t :: 0 <= t < |x.phases| ==> !Incoming(x.phases[t])
  }

  predicate InstOk(x: Instance, mine: bool, latest: Bytes) {
    && HoldersAgree(x)
    && OneRequest(x)
    && (x.node.mode != LT.O ==> mine)
    && (forall t :: 0 <= t < |x.phases| ==> PhaseOk(x, x.phases[t], mine, latest))
    && (mine && NothingIncoming(x) ==> x.buf == latest)
  }

  ghost predicate Inv(s: State) {
    && Base(s)
    && |s.serverBuf| > 0
    && (s.owner < 0 ==> s.log == [])
    && (s.handover.Taken? ==> s.handover.page == Latest(s))
    && forall i :: 0 <= i < |s.insts| ==> InstOk(s.insts[i], Mine(s, i), Latest(s))
  }

  lemma InitInv(s: State)
    requires Init(s)
    ensures Inv(s)
  {
    forall i | 0 <= i < |s.insts| ensures InstOk(s.insts[i], Mine(s, i), Latest(s)) {
      assert Writers(s.insts[i]) == {} && Readers(s.insts[i]) == {};
    }
  }

  lemma InvGood(s: State)
    requires Inv(s)
    ensures Good(s)
  {
  }

  // One thread moves: what becomes of the holder sets.
  lemma HolderSets(x: Instance, y: Instance, t: nat)
    requires t < |x.phases| == |y.phases| && y.phases == x.phases[t := y.phases[t]]
    ensures Writers(y) == if IsX(y.phases[t]) then Writers(x) + {t} else Writers(x) - {t}
    ensures Readers(y) == if IsCountedS(y.phases[t]) then Readers(x) + {t} else Readers(x) - {t}
    ensures IsX(x.phases[t]) <==> t in Writers(x)
    ensures IsCountedS(x.phases[t]) <==> t in Readers(x)
  {
  }

  // An instance that does not hold the page does not depend on what the latest page is.
  lemma NotMineAnyLatest(x: Instance, latest: Bytes, latest': Bytes)
    requires InstOk(x, false, latest)
    ensures InstOk(x, false, latest')
  {
    forall t | 0 <= t < |x.phases| ensures PhaseOk(x, x.phases[t], false, latest') {
      HolderSets(x, x, t);
    }
  }

  // The lock calls on a node and the threads it counts.
  lemma NodeCalls(n: LT.Node, w: set<nat>, r: set<nat>, t: nat)
    requires Describes(n, w, r)
    ensures LT.LockX(n).Done? ==> Describes(LT.LockX(n).value, w + {t}, r)
    ensures LT.LockS(n).Done? && t !in r ==> Describes(LT.LockS(n).value, w, if n.mode == LT.O then r else r + {t})
    ensures LT.UnLock(n).Done? && t in w ==> Describes(LT.UnLock(n).value, w - {t}, r)
    ensures LT.UnLock(n).Done? && t in r ==> Describes(LT.UnLock(n).value, w, r - {t})
  {
    if LT.UnLock(n).Done? && t in w {
      assert |w - {t}| == 0;
    }
    if LT.UnLock(n).Done? && t in r {
      assert |r - {t}| == |r| - 1;
    }
  }

  // Which acts change the holder sets.
  lemma HolderMoves(x: Instance, t: nat, a: Act)
    requires CanAct(x, t, a)
    ensures Writers(ActOn(x, t, a)) ==
            if a.LockX? then Writers(x) + {t} else if a.UnlockX? then Writers(x) - {t} else Writers(x)
    ensures Readers(ActOn(x, t, a)) ==
            if a.LockS? && x.node.mode != LT.O then Readers(x) + {t}
            else if a.UnlockS? && x.phases[t].counted then Readers(x) - {t} else Readers(x)
    ensures t in Writers(x) <==> IsX(x.phases[t])
    ensures t in Readers(x) <==> IsCountedS(x.phases[t])
  {
    var w, r := Writers(x), Readers(x);
    HolderSets(x, ActOn(x, t, a), t);
    assert t !in w ==> w - {t} == w;
    assert t !in r ==> r - {t} == r;
    assert t in w ==> w + {t} == w;
    assert t in r ==> r + {t} == r;
  }

  lemma ActHolders(x: Instance, t: nat, a: Act)
    requires HoldersAgree(x) && CanAct(x, t, a) && !ActHazard(x, t, a)
    ensures HoldersAgree(ActOn(x, t, a))
  {
    HolderMoves(x, t, a);
    NodeCalls(x.node, Writers(x), Readers(x), t);
  }

  lemma ActRequests(x: Instance, t: nat, a: Act)
    requires OneRequest(x) && CanAct(x, t, a)
    ensures OneRequest(ActOn(x, t, a))
  {
  }

  lemma ActIncoming(x: Instance, t: nat, a: Act)
    requires CanAct(x, t, a) && a != PutPage
    ensures NothingIncoming(ActOn(x, t, a)) ==> NothingIncoming(x)
  {
    var y := ActOn(x, t, a);
    forall u | 0 <= u < |x.phases| && Incoming(x.phases[u]) ensures Incoming(y.phases[u]) {}
  }

  // Whoever is inside, and counted, finds the latest page in the buffer.
  lemma InsideSeesLatest(x: Instance, t: nat, mine: bool, latest: Bytes)
    requires InstOk(x, mine, latest) && t < |x.phases| && (IsX(x.phases[t]) || IsCountedS(x.phases[t]))
    ensures x.buf == latest
  {
    HolderSets(x, x, t);
    assert mine && x.node.mode in {LT.X, LT.S};
    if !NothingIncoming(x) {
      var u :| 0 <= u < |x.phases| && Incoming(x.phases[u]);
      assert PhaseOk(x, x.phases[u], mine, latest);
    }
  }

  // The phase of the thread that acts.
  lemma ActorPhase(x: Instance, t: nat, a: Act, mine: bool, latest: Bytes)
    requires InstOk(x, mine, latest) && CanAct(x, t, a) && !ActHazard(x, t, a) && !a.WriteBack?
    ensures PhaseOk(ActOn(x, t, a), ActOn(x, t, a).phases[t], mine, latest)
  {
    assert PhaseOk(x, x.phases[t], mine, latest);
    if a.ReadForWrite? || (a.ReadPage? && x.phases[t].counted) {
      InsideSeesLatest(x, t, mine, latest);
    }
  }

  // The phases of the threads that do not: they depend on the mode and the buffer only.
  lemma OtherPhase(x: Instance, t: nat, a: Act, mine: bool, latest: Bytes, u: nat)
    requires InstOk(x, mine, latest) && CanAct(x, t, a) && !ActHazard(x, t, a) && !a.WriteBack?
    requires u < |x.phases| && u != t
    ensures PhaseOk(ActOn(x, t, a), x.phases[u], mine, latest)
  {
    var y := ActOn(x, t, a);
    assert PhaseOk(x, x.phases[u], mine, latest);
    if y.node.mode != x.node.mode || y.buf != x.buf {
      if a.SetMode? || a.PutPage? {
        assert !IsRequest(x.phases[u]);
      } else {
        HolderSets(x, x, t);
        assert y.buf == x.buf;
        assert x.phases[u].ModeSet? && y.node.mode == LT.S ==> !StaleBuffer(x);
      }
    }
  }

  lemma ActKept(x: Instance, t: nat, a: Act, mine: bool, latest: Bytes)
    requires InstOk(x, mine, latest) && CanAct(x, t, a) && !ActHazard(x, t, a) && !a.WriteBack?
    ensures InstOk(ActOn(x, t, a), mine, latest)
  {
    ActHolders(x, t, a);
    ActRequests(x, t, a);
    if a != PutPage { ActIncoming(x, t, a); }
    forall u | 0 <= u < |x.phases| ensures PhaseOk(ActOn(x, t, a), ActOn(x, t, a).phases[u], mine, latest) {
      if u == t { ActorPhase(x, t, a, mine, latest); } else { OtherPhase(x, t, a, mine, latest, u); }
    }
  }

  // The X holder is alone inside, and the instance has the page.
  lemma WriterIsAlone(x: Instance, t: nat, mine: bool, latest: Bytes)
    requires InstOk(x, mine, latest) && t < |x.phases| && IsX(x.phases[t])
    ensures mine && x.node.mode == LT.X && Readers(x) == {} && Writers(x) == {t}
  {
    HolderSets(x, x, t);
    assert |Writers(x) - {t}| == |Writers(x)| - 1;
    assert Writers(x) - {t} == {};
  }

  // The X holder puts its changed copy back: that copy is the new latest page.
  lemma WriteKept(x: Instance, t: nat, w: Write, mine: bool, latest: Bytes)
    requires InstOk(x, mine, latest) && CanAct(x, t, WriteBack(w))
    ensures mine
    ensures InstOk(ActOn(x, t, WriteBack(w)), mine, Splice(latest, w.off, w.row))
  {
    var y := ActOn(x, t, WriteBack(w));
    WriterIsAlone(x, t, mine, latest);
    HolderMoves(x, t, WriteBack(w));
    assert PhaseOk(x, x.phases[t], mine, latest);
    forall u | 0 <= u < |y.phases| ensures PhaseOk(y, y.phases[u], mine, Splice(latest, w.off, w.row)) {
      if u != t {
        HolderSets(x, x, u);
        assert PhaseOk(x, x.phases[u], mine, latest);
      }
    }
    ActRequests(x, t, WriteBack(w));
  }

  lemma ReplayAppend(page: Bytes, log: seq<Write>, w: Write)
    ensures Replay(page, log + [w]) == Splice(Replay(page, log), w.off, w.row)
  {
    assert (log + [w])[..|log|] == log;
  }

  // A WriteRow puts its page: everyone's idea of the latest page moves with it.
  lemma WriteBackKept(s: State, i: nat, t: nat, w: Write)
    requires Inv(s) && Enabled(s, Local(i, t, WriteBack(w)))
    ensures Inv(Next(s, Local(i, t, WriteBack(w))))
  {
    var e := Local(i, t, WriteBack(w));
    var s' := Next(s, e);
    BaseKept(s, e);
    assert InstOk(s.insts[i], Mine(s, i), Latest(s));
    WriteKept(s.insts[i], t, w, Mine(s, i), Latest(s));
    ReplayAppend(s.serverBuf, s.log, w);
    forall j | 0 <= j < |s'.insts| ensures InstOk(s'.insts[j], Mine(s', j), Latest(s')) {
      if j != i {
        assert InstOk(s.insts[j], Mine(s, j), Latest(s));
        NotMineAnyLatest(s.insts[j], Latest(s), Latest(s'));
      }
    }
  }

  lemma LocalKept(s: State, i: nat, t: nat, a: Act)
    requires Inv(s) && Enabled(s, Local(i, t, a)) && !Hazard(s, Local(i, t, a)) && !a.WriteBack?
    ensures Inv(Next(s, Local(i, t, a)))
  {
    var s' := Next(s, Local(i, t, a));
    BaseKept(s, Local(i, t, a));
    assert InstOk(s.insts[i], Mine(s, i), Latest(s));
    ActKept(s.insts[i], t, a, Mine(s, i), Latest(s));
    forall j | 0 <= j < |s'.insts| ensures InstOk(s'.insts[j], Mine(s', j), Latest(s')) {
      if j != i {
        assert InstOk(s.insts[j], Mine(s, j), Latest(s));
      }
    }
  }

  // A requester turns into the holder of a grant while nobody else has the page.
  lemma GrantKept(x: Instance, t: nat, latest: Bytes)
    requires InstOk(x, false, latest) && t < |x.phases| && x.phases[t] == Requesting
    ensures InstOk(Goto(x, t, Granted(latest)), true, latest)
  {
    var y := Goto(x, t, Granted(latest));
    HolderSets(x, y, t);
    assert Writers(x) == {} && Readers(x) == {};
    forall u | 0 <= u < |y.phases| ensures PhaseOk(y, y.phases[u], true, latest) {
      HolderSets(x, x, u);
      assert PhaseOk(x, x.phases[u], false, latest);
    }
  }

  // The owner leaves LockInvalid with the mode set to O.
  lemma InvalidKept(x: Instance, latest: Bytes)
    requires InstOk(x, true, latest) && LT.InvalidFinish(x.node).Done?
    requires !GrantPending(x) && !StaleBuffer(x)
    ensures x.buf == latest
    ensures InstOk(x.(node := LT.InvalidFinish(x.node).value), false, latest)
  {
    var y := x.(node := LT.InvalidFinish(x.node).value);
    assert Writers(y) == Writers(x) && Readers(y) == Readers(x);
    assert Writers(x) == {} && Readers(x) == {};
    forall u | 0 <= u < |y.phases| ensures PhaseOk(y, y.phases[u], false, latest) {
      HolderSets(x, x, u);
      assert PhaseOk(x, x.phases[u], true, latest);
    }
    if !NothingIncoming(x) {
      var u :| 0 <= u < |x.phases| && Incoming(x.phases[u]);
      assert PhaseOk(x, x.phases[u], true, latest);
    }
  }

  lemma ServerKept(s: State, e: Event)
    requires Inv(s) && Enabled(s, e) && !Hazard(s, e) && !e.Local?
    ensures Inv(Next(s, e))
  {
    BaseKept(s, e);
    match e
    case ServeFresh(i, t) => GrantKept(s.insts[i], t, Latest(s));
    case InvalidEnd => InvalidKept(s.insts[s.owner], Latest(s));
    case Grant => GrantKept(s.insts[s.handover.ins], s.handover.thd, Latest(s));
    case _ =>
  }

  lemma InvKept(s: State, e: Event)
    requires Inv(s) && Enabled(s, e) && !Hazard(s, e)
    ensures Inv(Next(s, e))
  {
    if !e.Local? {
      ServerKept(s, e);
    } else if e.a.WriteBack? {
      WriteBackKept(s, e.i, e.t, e.a.w);
    } else {
      LocalKept(s, e.i, e.t, e.a);
    }
  }

  lemma {:induction false} CleanRunInv(s: State, es: seq<Event>)
    requires Inv(s) && CleanRun(s, es)
    ensures Run(s, es) && Inv(Final(s, es))
    decreases |es|
  {
    if es != [] {
      InvKept(s, es[0]);
      CleanRunInv(Next(s, es[0]), es[1..]);
    }
  }

  /** The main safety result: in every run without a hazardous call, at every state, only the
      recorded owner has the page, the latest page is where the directory says it is, every
      WriteRow and counted ReadRow works on it, and (mode, count) describes the holders. */
  lemma CleanRunsAreSafe(s: State, es: seq<Event>)
    requires Init(s) && CleanRun(s, es)
    ensures Run(s, es) && Good(Final(s, es))
  {
    InitInv(s);
    CleanRunInv(s, es);
    InvGood(Final(s, es));
  }
}
