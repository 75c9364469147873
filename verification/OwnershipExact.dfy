/**
  The hazardous calls are exactly what separates safe runs from unsafe ones; the locking
  discipline that rules them out; and the protocol over many pages.
*/
module OwnershipExact {
  import opened Bytes
  import LT = LockTable
  import opened Ownership
  import opened OwnershipSafety

  /** No continuation that avoids hazardous calls ever reaches a bad state. */
  ghost predicate Safe(s: State) {
    forall es :: CleanRun(s, es) ==> Run(s, es) && Good(Final(s, es))
  }

  lemma InvSafe(s: State)
    requires Inv(s)
    ensures Safe(s)
  {
    forall es | CleanRun(s, es) ensures Run(s, es) && Good(Final(s, es)) {
      CleanRunInv(s, es);
      InvGood(Final(s, es));
    }
  }

  lemma BadNow(s: State)
    requires !Good(s)
    ensures !Safe(s)
  {
    assert CleanRun(s, []);
  }

  lemma BadAfter(s: State, e: Event)
    requires Enabled(s, e) && !Hazard(s, e) && !Safe(Next(s, e))
    ensures !Safe(s)
  {
    var s' := Next(s, e);
    var es :| CleanRun(s', es) && !(Run(s', es) && Good(Final(s', es)));
    var fs := [e] + es;
    assert fs[1..] == es;
    assert CleanRun(s, fs);
  }

  // LockInvalid while the owner has not set the mode of a grant it was answered: the old and the
  // new owner both end up with the page.
  lemma InvalidBeforeSetMode(s: State)
    requires Inv(s) && Enabled(s, InvalidEnd) && GrantPending(s.insts[s.owner])
    ensures !Safe(Next(s, InvalidEnd))
  {
    var a := s.owner;
    var t :| 0 <= t < |s.insts[a].phases| && s.insts[a].phases[t].Granted?;
    assert InstOk(s.insts[a], Mine(s, a), Latest(s));
    var s1 := Next(s, InvalidEnd);
    assert s1.handover.ins != a;
    var s2 := Next(s1, Grant);
    assert s2.insts[a].phases[t].Granted? && s2.insts[a].node.mode == LT.O;
    var s3 := Next(s2, Local(a, t, SetMode));
    assert s3.insts[a].node.mode == LT.P && s3.owner != a;
    BadNow(s3);
    BadAfter(s2, Local(a, t, SetMode));
    BadAfter(s1, Grant);
  }

  // LockInvalid while the mode is set but the granted page is not in the buffer yet: the page
  // handed over is not the latest one.
  lemma InvalidBeforePutPage(s: State)
    requires Inv(s) && Enabled(s, InvalidEnd) && StaleBuffer(s.insts[s.owner])
    ensures !Safe(Next(s, InvalidEnd))
  {
    var x := s.insts[s.owner];
    var t :| 0 <= t < |x.phases| && x.phases[t].ModeSet? && x.phases[t].reply != x.buf;
    assert InstOk(x, Mine(s, s.owner), Latest(s));
    assert PhaseOk(x, x.phases[t], Mine(s, s.owner), Latest(s));
    BadNow(Next(s, InvalidEnd));
  }

  // A writer let in before the granted page is in the buffer: installing the page wipes its row.
  lemma WriterBeforePutPage(s: State, i: nat, t: nat)
    requires Inv(s) && Enabled(s, Local(i, t, LockX)) && PutPending(s.insts[i])
    ensures !Safe(Next(s, Local(i, t, LockX)))
  {
    var x, latest := s.insts[i], Latest(s);
    var u :| 0 <= u < |x.phases| && x.phases[u].ModeSet?;
    assert InstOk(x, Mine(s, i), latest) && PhaseOk(x, x.phases[u], Mine(s, i), latest);
    var s1 := Next(s, Local(i, t, LockX));
    var s2 := Next(s1, Local(i, t, ReadForWrite));
    assert OneRequest(s2.insts[i]) by {
      ActRequests(x, t, LockX);
      ActRequests(s1.insts[i], t, ReadForWrite);
    }
    WriterBesideGrant(s2, i, t, u);
    BadAfter(s1, Local(i, t, ReadForWrite));
  }

  // A writer about to put its page while a grant is still to be put.
  lemma WriterBesideGrant(s: State, i: nat, t: nat, u: nat)
    requires i < |s.insts| && s.owner == i && !s.handover.Taken? && OneRequest(s.insts[i]) && |s.serverBuf| > 0
    requires CanAct(s.insts[i], t, WriteBack(Write(0, []))) && u < |s.insts[i].phases|
    requires s.insts[i].phases[u] == ModeSet(Latest(s))
    ensures !Safe(s)
  {
    var latest := Latest(s);
    var w := Write(0, [if latest[0] == 0 then 1 else 0]);
    assert Splice(latest, 0, w.row)[0] != latest[0];
    var s' := Next(s, Local(i, t, WriteBack(w)));
    ReplayAppend(s.serverBuf, s.log, w);
    ActRequests(s.insts[i], t, WriteBack(w));
    LostWrite(s', i, u);
    BadAfter(s, Local(i, t, WriteBack(w)));
  }

  // Putting a granted page that is no longer the latest.
  lemma LostWrite(s: State, i: nat, u: nat)
    requires i < |s.insts| && s.owner == i && !s.handover.Taken? && OneRequest(s.insts[i])
    requires u < |s.insts[i].phases| && s.insts[i].phases[u].ModeSet? && s.insts[i].phases[u].reply != Latest(s)
    ensures !Safe(s)
  {
    var s' := Next(s, Local(i, u, PutPage));
    assert NothingIncoming(s'.insts[i]);
    BadNow(s');
    BadAfter(s, Local(i, u, PutPage));
  }

  // A counted reader let in before the granted page is in the buffer returns an older page.
  lemma ReaderBeforePutPage(s: State, i: nat, t: nat)
    requires Inv(s) && Enabled(s, Local(i, t, LockS)) && s.insts[i].node.mode != LT.O && StaleBuffer(s.insts[i])
    ensures !Safe(Next(s, Local(i, t, LockS)))
  {
    var x, latest := s.insts[i], Latest(s);
    var u :| 0 <= u < |x.phases| && x.phases[u].ModeSet? && x.phases[u].reply != x.buf;
    assert InstOk(x, Mine(s, i), latest) && PhaseOk(x, x.phases[u], Mine(s, i), latest);
    var s1 := Next(s, Local(i, t, LockS));
    var s2 := Next(s1, Local(i, t, ReadPage));
    assert s2.insts[i].phases[t] == SRead(true, x.buf) && Thread(s2, i, t);
    BadNow(s2);
    BadAfter(s1, Local(i, t, ReadPage));
  }

  // A reader that was never counted gives up somebody else's lock.
  lemma UncountedUnlock(s: State, i: nat, t: nat)
    requires Inv(s) && Enabled(s, Local(i, t, UnlockS)) && Hazard(s, Local(i, t, UnlockS))
    ensures !Safe(Next(s, Local(i, t, UnlockS)))
  {
    var x := s.insts[i];
    assert InstOk(x, Mine(s, i), Latest(s));
    HolderMoves(x, t, UnlockS);
    BadNow(Next(s, Local(i, t, UnlockS)));
  }

  /** Exactly which calls are unsafe. After any run without hazardous calls, the next event keeps
      the protocol safe for ever if and only if it is not hazardous. */
  lemma HazardsAreExact(s0: State, es: seq<Event>, e: Event)
    requires Init(s0) && CleanRun(s0, es) && Run(s0, es) && Enabled(Final(s0, es), e)
    ensures Safe(Next(Final(s0, es), e)) <==> !Hazard(Final(s0, es), e)
  {
    var s := Final(s0, es);
    InitInv(s0);
    CleanRunInv(s0, es);
    if !Hazard(s, e) {
      InvKept(s, e);
      InvSafe(Next(s, e));
    } else if e.InvalidEnd? {
      if GrantPending(s.insts[s.owner]) { InvalidBeforeSetMode(s); } else { InvalidBeforePutPage(s); }
    } else {
      match e.a
      case LockX => WriterBeforePutPage(s, e.i, e.t);
      case LockS => ReaderBeforePutPage(s, e.i, e.t);
      case UnlockS => UncountedUnlock(s, e.i, e.t);
    }
  }

  // ---------------------------------------------------------------- the code does reach a hazard

  lemma {:induction false} Extend(s: State, es: seq<Event>, e: Event)
    requires Run(s, es) && Enabled(Final(s, es), e)
    ensures Run(s, es + [e]) && Final(s, es + [e]) == Next(Final(s, es), e)
    decreases |es|
  {
    if es == [] {
      assert (es + [e])[1..] == [];
    } else {
      assert (es + [e])[1..] == es[1..] + [e];
      Extend(Next(s, es[0]), es[1..], e);
    }
  }

  function TwoInstances(): State {
    var x := Instance(LT.NewNode(), [0], [Idle]);
    State([x, x], -1, [0], Free, [], 0)
  }

  // The first instance is answered but has not set its mode.
  lemma FirstAnswered() returns (es: seq<Event>)
    ensures Run(TwoInstances(), es)
    ensures Final(TwoInstances(), es) ==
            State([Instance(LT.NewNode().(remoting := true), [0], [Granted([0])]), Instance(LT.NewNode(), [0], [Idle])],
                  0, [0], Free, [], 1)
  {
    var s := TwoInstances();
    es := [];
    Extend(s, es, Local(0, 0, CheckMode));    es := es + [Local(0, 0, CheckMode)];
    Extend(s, es, Local(0, 0, ClaimRequest)); es := es + [Local(0, 0, ClaimRequest)];
    Extend(s, es, ServeFresh(0, 0));          es := es + [ServeFresh(0, 0)];
    var f := Final(s, es);
    assert f.insts[0].phases == [Granted([0])] && f.insts[1].phases == [Idle];
    assert f.insts == [Instance(LT.NewNode().(remoting := true), [0], [Granted([0])]), Instance(LT.NewNode(), [0], [Idle])];
  }

  // The second instance asks for the page and is answered as well.
  lemma BothAnswered() returns (es: seq<Event>)
    ensures Run(TwoInstances(), es)
    ensures var x := Instance(LT.NewNode().(remoting := true), [0], [Granted([0])]);
            Final(TwoInstances(), es) == State([x, x], 1, [0], Free, [], 1)
  {
    var s := TwoInstances();
    es := FirstAnswered();
    Extend(s, es, Local(1, 0, CheckMode));    es := es + [Local(1, 0, CheckMode)];
    Extend(s, es, Local(1, 0, ClaimRequest)); es := es + [Local(1, 0, ClaimRequest)];
    Extend(s, es, Ask(1, 0));                 es := es + [Ask(1, 0)];
    Extend(s, es, InvalidStart);              es := es + [InvalidStart];
    Extend(s, es, InvalidEnd);                es := es + [InvalidEnd];
    Extend(s, es, Grant);                     es := es + [Grant];
    var f := Final(s, es);
    assert f.insts[0].phases == [Granted([0])] && f.insts[1].phases == [Granted([0])];
    assert f.insts == [f.insts[0], f.insts[1]];
  }

  /** GetWritePageLock registers its thread only after LockRemote has returned, so two instances
      asking for the same page one after the other can both end up owning it. */
  lemma TwoOwners() returns (es: seq<Event>)
    ensures Init(TwoInstances()) && Run(TwoInstances(), es)
    ensures var f := Final(TwoInstances(), es);
            |f.insts| == 2 && f.insts[0].node.mode == LT.P && f.insts[1].node.mode == LT.P && !Good(f)
  {
    var s := TwoInstances();
    es := BothAnswered();
    Extend(s, es, Local(0, 0, SetMode)); es := es + [Local(0, 0, SetMode)];
    Extend(s, es, Local(1, 0, SetMode)); es := es + [Local(1, 0, SetMode)];
  }

  // ---------------------------------------------------------------- a discipline without hazards

  predicate IsUncounted(p: Phase) {
    (p.SHeld? || p.SRead?) && !p.counted
  }

  predicate UncountedInside(x: Instance) {
    exists t :: 0 <= t < |x.phases| && IsUncounted(x.phases[t])
  }

  /** A thread registers before it asks for the page and so stays registered until the grant is
      installed; setting the mode waits for uncounted readers; nobody is let in between setting
      the mode and putting the page. */
  predicate Disciplined(s: State, e: Event)
    requires Enabled(s, e)
  {
    e.Local? ==>
      var x := s.insts[e.i];
      match e.a
      case ClaimRequest => e.t in x.node.threads
      case SetMode => !UncountedInside(x)
      case LockX => !PutPending(x)
      case LockS => !PutPending(x)
      case _ => true
  }

  predicate DisciplinedRun(s: State, es: seq<Event>)
    decreases |es|
  {
    es == [] || (Enabled(s, es[0]) && Disciplined(s, es[0]) && DisciplinedRun(Next(s, es[0]), es[1..]))
  }

  predicate Registered(x: Instance) {
    && (forall t :: 0 <= t < |x.phases| && IsRequest(x.phases[t]) ==> t in x.node.threads)
    && (x.node.mode != LT.O ==> !UncountedInside(x))
  }

  ghost predicate DisciplineInv(s: State) {
    Base(s) && forall i :: 0 <= i < |s.insts| ==> Registered(s.insts[i])
  }

  lemma DisciplineKept(s: State, e: Event)
    requires DisciplineInv(s) && Enabled(s, e) && Disciplined(s, e)
    ensures DisciplineInv(Next(s, e)) && !Hazard(s, e)
  {
    BaseKept(s, e);
    if e.Local? {
      RegisteredAct(s.insts[e.i], e.t, e.a);
    } else if e.InvalidEnd? {
      assert Registered(s.insts[s.owner]) && s.insts[s.owner].node.threads == {};
    }
  }

  lemma RegisteredAct(x: Instance, t: nat, a: Act)
    requires Registered(x) && CanAct(x, t, a)
    requires a.ClaimRequest? ==> t in x.node.threads
    requires a.SetMode? ==> !UncountedInside(x)
    ensures Registered(ActOn(x, t, a))
  {
    var y := ActOn(x, t, a);
    forall u | 0 <= u < |y.phases| && IsUncounted(y.phases[u]) ensures y.node.mode == LT.O {
      if u != t { assert x.phases[u] == y.phases[u]; }
    }
  }

  /** With that discipline every run is free of hazardous calls, hence safe. */
  lemma {:induction false} DisciplinedRunsAreSafe(s: State, es: seq<Event>)
    requires Init(s) || DisciplineInv(s)
    requires DisciplinedRun(s, es)
    ensures CleanRun(s, es)
    ensures Init(s) ==> Run(s, es) && Good(Final(s, es))
    decreases |es|
  {
    if es != [] {
      DisciplineKept(s, es[0]);
      DisciplinedRunsAreSafe(Next(s, es[0]), es[1..]);
    }
    if Init(s) { CleanRunsAreSafe(s, es); }
  }

  // ---------------------------------------------------------------- many pages

  /** The state of every page of the table; an event concerns one page. */
  type Cluster = map<nat, State>

  datatype PageEvent = PageEvent(page: nat, e: Event)

  /** Any interleaving of what the code lets through, over all pages. */
  predicate ClusterRun(c: Cluster, es: seq<PageEvent>)
    decreases |es|
  {
    es == [] ||
    (var p := es[0].page;
     p in c && Enabled(c[p], es[0].e) && ClusterRun(c[p := Next(c[p], es[0].e)], es[1..]))
  }

  function ClusterFinal(c: Cluster, es: seq<PageEvent>): Cluster
    requires ClusterRun(c, es)
    decreases |es|
  {
    if es == [] then c
    else var p := es[0].page; ClusterFinal(c[p := Next(c[p], es[0].e)], es[1..])
  }

  /** No hazardous call on any page. */
  predicate CleanCluster(c: Cluster, es: seq<PageEvent>)
    requires ClusterRun(c, es)
    decreases |es|
  {
    es == [] ||
    (var p := es[0].page; !Hazard(c[p], es[0].e) && CleanCluster(c[p := Next(c[p], es[0].e)], es[1..]))
  }

  /** Every instance keeps to the discipline on every page. */
  predicate DisciplinedCluster(c: Cluster, es: seq<PageEvent>)
    requires ClusterRun(c, es)
    decreases |es|
  {
    es == [] ||
    (var p := es[0].page; Disciplined(c[p], es[0].e) && DisciplinedCluster(c[p := Next(c[p], es[0].e)], es[1..]))
  }

  function EventsOf(es: seq<PageEvent>, page: nat): seq<Event> {
    if es == [] then []
    else (if es[0].page == page then [es[0].e] else []) + EventsOf(es[1..], page)
  }

  lemma EventsStep(es: seq<PageEvent>, page: nat)
    requires es != []
    ensures if es[0].page == page then EventsOf(es, page) != [] && EventsOf(es, page)[0] == es[0].e &&
                                       EventsOf(es, page)[1..] == EventsOf(es[1..], page)
            else EventsOf(es, page) == EventsOf(es[1..], page)
  {
  }

  /** Pages do not interfere: what a page goes through is a run of the one-page protocol, clean or
      disciplined if the whole run is. */
  lemma {:induction false} PageProjection(c: Cluster, es: seq<PageEvent>, page: nat)
    requires ClusterRun(c, es) && page in c
    ensures Run(c[page], EventsOf(es, page))
    ensures page in ClusterFinal(c, es) && ClusterFinal(c, es)[page] == Final(c[page], EventsOf(es, page))
    ensures CleanCluster(c, es) ==> CleanRun(c[page], EventsOf(es, page))
    ensures DisciplinedCluster(c, es) ==> DisciplinedRun(c[page], EventsOf(es, page))
    decreases |es|
  {
    if es != [] {
      var p := es[0].page;
      EventsStep(es, page);
      PageProjection(c[p := Next(c[p], es[0].e)], es[1..], page);
    }
  }

  lemma ClusterIsSafe(c: Cluster, es: seq<PageEvent>)
    requires forall p :: p in c ==> Init(c[p])
    requires ClusterRun(c, es) && CleanCluster(c, es)
    ensures forall p :: p in c ==> p in ClusterFinal(c, es) && Good(ClusterFinal(c, es)[p])
  {
    forall p | p in c ensures p in ClusterFinal(c, es) && Good(ClusterFinal(c, es)[p]) {
      PageProjection(c, es, p);
      CleanRunsAreSafe(c[p], EventsOf(es, p));
    }
  }

  /** The discipline makes every run over any number of pages safe. */
  lemma DisciplinedClusterIsSafe(c: Cluster, es: seq<PageEvent>)
    requires forall p :: p in c ==> Init(c[p])
    requires ClusterRun(c, es) && DisciplinedCluster(c, es)
    ensures forall p :: p in c ==> p in ClusterFinal(c, es) && Good(ClusterFinal(c, es)[p])
  {
    forall p | p in c ensures p in ClusterFinal(c, es) && Good(ClusterFinal(c, es)[p]) {
      PageProjection(c, es, p);
      DisciplinedRunsAreSafe(c[p], EventsOf(es, p));
    }
  }
}
