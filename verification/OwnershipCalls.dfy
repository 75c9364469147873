/** Which steps can be taken, and whole calls as runs of steps: what each call leaves behind. */
module OwnershipCalls {
  import opened Bytes
  import LT = LockTable
  import opened Ownership
  import S = OwnershipSafety

  // ---------------------------------------------------------------- no assert on the lock fails

  /** On a node that describes its holders neither Lock nor UnLock stops, and LockInvalid stops exactly
      when nobody is registered while somebody is inside. */
  lemma HoldersNeverStop(n: LT.Node, w: set<nat>, r: set<nat>)
    requires Describes(n, w, r)
    ensures LT.Acquire(n, LT.S) != LT.Stopped && LT.Acquire(n, LT.X) != LT.Stopped
    ensures LT.UnLock(n).Done?
    ensures LT.LockInvalid(n) == LT.Stopped <==> n.threadCount == 0 && (w != {} || r != {})
  {
  }

  /** The step a thread inside a call takes next; `w` is what a WriteRow would write. */
  function NextAct(p: Phase, w: Write): Act {
    match p
    case Idle => CheckMode
    case SawInvalid => ClaimRequest
    case Requesting => ClaimRequest
    case Granted(_) => SetMode
    case ModeSet(_) => PutPage
    case Installed => ClearFlag
    case XHeld => ReadForWrite
    case XRead(_) => WriteBack(w)
    case XWritten => UnlockX
    case SHeld(_) => ReadPage
    case SRead(_, _) => UnlockS
  }

  /** What thread `t` can do: inside a call its next step, outside a call what the mode allows. */
  predicate Moves(x: Instance, t: nat, w: Write) {
    t < |x.phases| &&
    var p := x.phases[t];
    if p.Idle? then
      && (CanAct(x, t, LockX) <==> x.node.mode == LT.P)
      && (CanAct(x, t, LockS) <==> x.node.mode != LT.X)
      && (CanAct(x, t, CheckMode) <==> x.node.mode == LT.O)
      && CanAct(x, t, AddThread) && CanAct(x, t, RemoveThread)
    else
      p.Requesting? || CanAct(x, t, NextAct(p, w))
  }

  lemma ThreadMoves(x: Instance, t: nat, w: Write, writers: set<nat>, readers: set<nat>)
    requires t < |x.phases| && (x.phases[t].Granted? ==> x.node.mode == LT.O)
    requires Describes(x.node, writers, readers) && x.node.threadCount == |x.node.threads|
    ensures Moves(x, t, w)
  {
    HoldersNeverStop(x.node, writers, readers);
    LT.UnregisterLeaves(x.node, t);
  }

  /** After any run without a hazardous call a thread inside a call, unless it waits for LockRemote's answer, can
      take its next step once the node's mutex is free, and a new call waits for the modes in which Lock waits. */
  lemma CallsGoOn(s: State, es: seq<Event>, i: nat, t: nat, w: Write)
    requires Init(s) && CleanRun(s, es) && Run(s, es) && Thread(Final(s, es), i, t)
    ensures Moves(Final(s, es).insts[i], t, w)
  {
    S.InitInv(s);
    S.CleanRunInv(s, es);
    var f := Final(s, es);
    var x := f.insts[i];
    assert S.InstOk(x, S.Mine(f, i), Latest(f));
    assert S.PhaseOk(x, x.phases[t], S.Mine(f, i), Latest(f));
    ThreadMoves(x, t, w, Writers(x), Readers(x));
  }

  /** What the server can do: a request is answered or passed on as soon as the entry is free, LockInvalid
      waits for the owner's registered threads and stops on a holder that did not register, and a page that
      was given up is always granted. */
  ghost predicate ServerMoves(f: State) {
    match f.handover
    case Free => forall i, t :: At(f, i, t, Requesting) ==> if f.owner < 0 then Enabled(f, ServeFresh(i, t)) else Enabled(f, Ask(i, t))
    case Asking(_, _) => OwnerKnown(f) && (Enabled(f, InvalidStart) <==> f.insts[f.owner].node.threads == {})
    case OwnerLocked(_, _) =>
      OwnerKnown(f) && (Enabled(f, InvalidEnd) <==> Writers(f.insts[f.owner]) == {} && Readers(f.insts[f.owner]) == {})
    case Taken(_, _, _) => Enabled(f, Grant)
    case Expired(_, _) => false
  }

  lemma InvServerMoves(f: State)
    requires S.Inv(f)
    ensures ServerMoves(f)
  {
    if f.handover.Asking? || f.handover.OwnerLocked? {
      var x := f.insts[f.owner];
      assert S.InstOk(x, S.Mine(f, f.owner), Latest(f));
      HoldersNeverStop(x.node, Writers(x), Readers(x));
    }
  }

  lemma ServerGoesOn(s: State, es: seq<Event>)
    requires Init(s) && CleanRun(s, es) && Run(s, es)
    ensures ServerMoves(Final(s, es))
  {
    S.InitInv(s);
    S.CleanRunInv(s, es);
    InvServerMoves(Final(s, es));
  }

  // ---------------------------------------------------------------- whole calls

  /** `es` can be taken from `s` and leads to `s'`. */
  predicate Leads(s: State, es: seq<Event>, s': State) {
    Run(s, es) && Final(s, es) == s'
  }

  lemma One(s: State, e: Event)
    requires Enabled(s, e)
    ensures Leads(s, [e], Next(s, e))
  {
    assert [e][1..] == [];
    assert Run(Next(s, e), []);
  }

  lemma {:induction false} Then(a: State, es: seq<Event>, b: State, fs: seq<Event>, c: State)
    requires Leads(a, es, b) && Leads(b, fs, c)
    ensures Leads(a, es + fs, c)
    decreases |es|
  {
    if es == [] {
      assert es + fs == fs;
    } else {
      assert (es + fs)[1..] == es[1..] + fs;
      Then(Next(a, es[0]), es[1..], b, fs, c);
    }
  }

  /** The steps of one thread, one after the other. */
  function Steps(i: nat, t: nat, acts: seq<Act>): seq<Event> {
    seq(|acts|, k requires 0 <= k < |acts| => Local(i, t, acts[k]))
  }

  /** `acts` by thread `t` take instance `x` to `x'`. */
  predicate Takes(x: Instance, t: nat, acts: seq<Act>, x': Instance)
    decreases |acts|
  {
    if acts == [] then x == x'
    else CanAct(x, t, acts[0]) && Takes(ActOn(x, t, acts[0]), t, acts[1..], x')
  }

  function Written(acts: seq<Act>): seq<Write> {
    if acts == [] then [] else Entry(acts[0]) + Written(acts[1..])
  }

  function Entry(a: Act): seq<Write> {
    if a.WriteBack? then [a.w] else []
  }

  lemma OneStep(s: State, i: nat, t: nat, a: Act)
    requires i < |s.insts| && MutexFree(s, i) && CanAct(s.insts[i], t, a)
    ensures Leads(s, [Local(i, t, a)], s.(insts := s.insts[i := ActOn(s.insts[i], t, a)], log := s.log + Entry(a)))
  {
    One(s, Local(i, t, a));
    assert s.log + [] == s.log;
  }

  lemma {:induction false} StepsLead(s: State, i: nat, t: nat, acts: seq<Act>, x': Instance)
    requires i < |s.insts| && MutexFree(s, i) && Takes(s.insts[i], t, acts, x')
    ensures Leads(s, Steps(i, t, acts), s.(insts := s.insts[i := x'], log := s.log + Written(acts)))
    decreases |acts|
  {
    var s' := s.(insts := s.insts[i := x'], log := s.log + Written(acts));
    if acts == [] {
      assert s' == s;
    } else {
      var a, rest := acts[0], acts[1..];
      var m := s.(insts := s.insts[i := ActOn(s.insts[i], t, a)], log := s.log + Entry(a));
      OneStep(s, i, t, a);
      StepsLead(m, i, t, rest, x');
      assert m.insts[i := x'] == s.insts[i := x'];
      assert m.log + Written(rest) == s.log + Written(acts);
      Then(s, [Local(i, t, a)], m, Steps(i, t, rest), s');
      assert [Local(i, t, a)] + Steps(i, t, rest) == Steps(i, t, acts);
    }
  }

  lemma TakesCons(x: Instance, t: nat, a: Act, acts: seq<Act>, x': Instance)
    requires CanAct(x, t, a) && Takes(ActOn(x, t, a), t, acts, x')
    ensures Takes(x, t, [a] + acts, x')
  {
    assert ([a] + acts)[1..] == acts;
  }

  /** WriteRow on a free page changes the buffer and leaves the lock as it was. */
  lemma WriteRowCall(x: Instance, t: nat, w: Write)
    requires t < |x.phases| && x.phases[t] == Idle && x.node.mode == LT.P && x.node.count == 0
    ensures Takes(x, t, [LockX, ReadForWrite, WriteBack(w), UnlockX], x.(buf := Splice(x.buf, w.off, w.row)))
  {
    var x1 := ActOn(x, t, LockX);
    var x2 := ActOn(x1, t, ReadForWrite);
    var x3 := ActOn(x2, t, WriteBack(w));
    var x4 := ActOn(x3, t, UnlockX);
    assert x4.phases == x.phases;
    TakesCons(x3, t, UnlockX, [], x4);
    TakesCons(x2, t, WriteBack(w), [UnlockX], x4);
    TakesCons(x1, t, ReadForWrite, [WriteBack(w), UnlockX], x4);
    TakesCons(x, t, LockX, [ReadForWrite, WriteBack(w), UnlockX], x4);
  }

  /** ReadRow leaves the instance as it was, whether it was counted or let in under O. */
  lemma ReadRowCall(x: Instance, t: nat)
    requires t < |x.phases| && x.phases[t] == Idle
    requires x.node.mode == LT.O || (x.node.mode == LT.P && x.node.count == 0) || (x.node.mode == LT.S && x.node.count > 0)
    ensures Takes(x, t, [LockS, ReadPage, UnlockS], x)
    ensures var y := ActOn(ActOn(x, t, LockS), t, ReadPage); y.phases[t] == SRead(x.node.mode != LT.O, x.buf)
  {
    var x1 := ActOn(x, t, LockS);
    var x2 := ActOn(x1, t, ReadPage);
    var x3 := ActOn(x2, t, UnlockS);
    assert x3.phases == x.phases;
    TakesCons(x2, t, UnlockS, [], x3);
    TakesCons(x1, t, ReadPage, [UnlockS], x3);
    TakesCons(x, t, LockS, [ReadPage, UnlockS], x3);
  }

  /** Only the thread that sets lock_remoting asks the server; another one goes back. */
  lemma RequestCall(x: Instance, t: nat)
    requires t < |x.phases| && x.phases[t] == Idle && x.node.mode == LT.O
    ensures Takes(x, t, [CheckMode, ClaimRequest],
                  if x.node.remoting then x else Goto(x.(node := x.node.(remoting := true)), t, Requesting))
  {
    var x1 := ActOn(x, t, CheckMode);
    var x2 := ActOn(x1, t, ClaimRequest);
    assert x2.phases == x.phases[t := if x.node.remoting then Idle else Requesting];
    assert x.node.remoting ==> x2.phases == x.phases;
    TakesCons(x1, t, ClaimRequest, [], x2);
    TakesCons(x, t, CheckMode, [ClaimRequest], x2);
  }

  /** A granted page is installed: mode P, the reply in the buffer, the flag cleared. */
  lemma InstallCall(x: Instance, t: nat)
    requires t < |x.phases| && x.phases[t].Granted? && x.node.mode == LT.O
    ensures Takes(x, t, [SetMode, PutPage, ClearFlag],
                  Goto(x.(node := x.node.(mode := LT.P, remoting := false), buf := x.phases[t].reply), t, Idle))
  {
    var x1 := ActOn(x, t, SetMode);
    var x2 := ActOn(x1, t, PutPage);
    var x3 := ActOn(x2, t, ClearFlag);
    assert x3.phases == x.phases[t := Idle];
    TakesCons(x2, t, ClearFlag, [], x3);
    TakesCons(x1, t, PutPage, [ClearFlag], x3);
    TakesCons(x, t, SetMode, [PutPage, ClearFlag], x3);
  }

  /** The server's part of a hand-over whose owner has no registered thread and nobody inside. */
  lemma TakeOver(s: State, i: nat, t: nat)
    requires At(s, i, t, Requesting) && s.handover == Free && OwnerKnown(s) && s.owner != i
    requires s.insts[s.owner].node.threadCount == 0 && s.insts[s.owner].node.count == 0
    ensures var o := s.insts[s.owner];
            Leads(s, [Ask(i, t), InvalidStart, InvalidEnd, Grant],
                  s.(owner := i, insts := s.insts[s.owner := o.(node := o.node.(mode := LT.O))]
                                                 [i := Goto(s.insts[i], t, Granted(o.buf))]))
  {
    var a := Next(s, Ask(i, t));
    var b := Next(a, InvalidStart);
    var c := Next(b, InvalidEnd);
    var d := Next(c, Grant);
    One(c, Grant);
    One(b, InvalidEnd);
    Then(b, [InvalidEnd], c, [Grant], d);
    One(a, InvalidStart);
    Then(a, [InvalidStart], b, [InvalidEnd] + [Grant], d);
    One(s, Ask(i, t));
    Then(s, [Ask(i, t)], a, [InvalidStart] + ([InvalidEnd] + [Grant]), d);
    assert [Ask(i, t)] + ([InvalidStart] + ([InvalidEnd] + [Grant])) == [Ask(i, t), InvalidStart, InvalidEnd, Grant];
  }

  /** An instance that has just got the page. */
  function Owning(x: Instance, page: Bytes): Instance {
    x.(node := x.node.(mode := LT.P, remoting := false), buf := page)
  }

  // The two ends of GetWritePageLock around the server's part, from `s` through `q` and `r`.
  lemma RequestLeads(s: State, i: nat, t: nat)
    requires At(s, i, t, Idle) && MutexFree(s, i) && s.insts[i].node.mode == LT.O && !s.insts[i].node.remoting
    ensures var x := s.insts[i];
            Leads(s, Steps(i, t, [CheckMode, ClaimRequest]),
                  SetInst(s, i, Goto(x.(node := x.node.(remoting := true)), t, Requesting)))
  {
    RequestCall(s.insts[i], t);
    StepsLead(s, i, t, [CheckMode, ClaimRequest],
              Goto(s.insts[i].(node := s.insts[i].node.(remoting := true)), t, Requesting));
    assert s.log + Written([CheckMode, ClaimRequest]) == s.log;
  }

  lemma InstallLeads(r: State, i: nat, t: nat)
    requires Thread(r, i, t) && MutexFree(r, i) && r.insts[i].phases[t].Granted? && r.insts[i].node.mode == LT.O
    ensures Leads(r, Steps(i, t, [SetMode, PutPage, ClearFlag]),
                  SetInst(r, i, Goto(Owning(r.insts[i], r.insts[i].phases[t].reply), t, Idle)))
  {
    InstallCall(r.insts[i], t);
    StepsLead(r, i, t, [SetMode, PutPage, ClearFlag], Goto(Owning(r.insts[i], r.insts[i].phases[t].reply), t, Idle));
    assert r.log + Written([SetMode, PutPage, ClearFlag]) == r.log;
  }

  /** GetWritePageLock on a page that another instance has, with nobody registered or inside there: the page
      moves from that instance's buffer into the caller's, and nothing else changes. */
  lemma HandOverCall(s: State, i: nat, t: nat)
    requires At(s, i, t, Idle) && s.insts[i].node.mode == LT.O && !s.insts[i].node.remoting
    requires s.handover == Free && OwnerKnown(s) && s.owner != i
    requires s.insts[s.owner].node.threadCount == 0 && s.insts[s.owner].node.count == 0
    ensures var o := s.insts[s.owner];
            Leads(s, Steps(i, t, [CheckMode, ClaimRequest]) + [Ask(i, t), InvalidStart, InvalidEnd, Grant]
                     + Steps(i, t, [SetMode, PutPage, ClearFlag]),
                  s.(owner := i, insts := s.insts[s.owner := o.(node := o.node.(mode := LT.O))]
                                                 [i := Owning(s.insts[i], o.buf)]))
  {
    var x, o := s.insts[i], s.insts[s.owner];
    var q := SetInst(s, i, Goto(x.(node := x.node.(remoting := true)), t, Requesting));
    RequestLeads(s, i, t);
    var r := q.(owner := i, insts := q.insts[s.owner := o.(node := o.node.(mode := LT.O))]
                                            [i := Goto(q.insts[i], t, Granted(o.buf))]);
    TakeOver(q, i, t);
    Then(s, Steps(i, t, [CheckMode, ClaimRequest]), q, [Ask(i, t), InvalidStart, InvalidEnd, Grant], r);
    InstallLeads(r, i, t);
    var y := Goto(Owning(r.insts[i], o.buf), t, Idle);
    assert y.phases == x.phases;
    var f := s.(owner := i, insts := s.insts[s.owner := o.(node := o.node.(mode := LT.O))][i := Owning(x, o.buf)]);
    assert SetInst(r, i, y).insts == f.insts;
    Then(s, Steps(i, t, [CheckMode, ClaimRequest]) + [Ask(i, t), InvalidStart, InvalidEnd, Grant], r,
         Steps(i, t, [SetMode, PutPage, ClearFlag]), f);
  }

  /** And on a page nobody owns yet: the server's copy is installed. */
  lemma FirstGrantCall(s: State, i: nat, t: nat)
    requires At(s, i, t, Idle) && s.insts[i].node.mode == LT.O && !s.insts[i].node.remoting
    requires s.handover == Free && s.owner < 0
    ensures Leads(s, Steps(i, t, [CheckMode, ClaimRequest]) + [ServeFresh(i, t)] + Steps(i, t, [SetMode, PutPage, ClearFlag]),
                  s.(owner := i, served := s.served + 1, insts := s.insts[i := Owning(s.insts[i], s.serverBuf)]))
  {
    var x := s.insts[i];
    var q := SetInst(s, i, Goto(x.(node := x.node.(remoting := true)), t, Requesting));
    RequestLeads(s, i, t);
    var r := Next(q, ServeFresh(i, t));
    One(q, ServeFresh(i, t));
    Then(s, Steps(i, t, [CheckMode, ClaimRequest]), q, [ServeFresh(i, t)], r);
    InstallLeads(r, i, t);
    var y := Goto(Owning(r.insts[i], s.serverBuf), t, Idle);
    assert y.phases == x.phases;
    var f := s.(owner := i, served := s.served + 1, insts := s.insts[i := Owning(x, s.serverBuf)]);
    assert SetInst(r, i, y).insts == f.insts;
    Then(s, Steps(i, t, [CheckMode, ClaimRequest]) + [ServeFresh(i, t)], r, Steps(i, t, [SetMode, PutPage, ClearFlag]), f);
  }
}
