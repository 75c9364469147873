/**
  The page-ownership protocol between database instances and the lock server, for one page and
  any number of instances and threads. A state is what the instances' lock nodes and buffers, the
  server's directory entry and every thread's program point hold. An event is one critical
  section, or one unprotected access, of
    - LockTable::Lock, UnLock, AddThread, RemoveThread, LockInvalid (common/lock_table/lock_table.cpp),
    - GlobalLock::LockRemote (global_lock/global_lock.cpp),
    - GetWritePageLock, which installs a granted page (instance/txn/ycsb_txn.cpp),
    - RowHandler::ReadRow and WriteRow (common/storage/row_handler.cpp).
  A condition wait is a guard; a failing assert stops the process, so it is a guard as well.
*/
module Ownership {
  import opened Bytes
  import LT = LockTable

  /** One WriteRow: `row` copied into the page at `off`. */
  datatype Write = Write(off: nat, row: Bytes)

  /** Where a thread stands with respect to the page. */
  datatype Phase =
    | Idle
    | SawInvalid                               // read lock_mode == O, compare-and-swap still to come
    | Requesting                               // set lock_remoting, LockRemote sent
    | Granted(reply: Bytes)                    // LockRemote answered, lock_mode still O
    | ModeSet(reply: Bytes)                    // lock_mode set to P, page not yet in the buffer
    | Installed                                // page in the buffer, lock_remoting still set
    | XHeld                                    // WriteRow holds X
    | XRead(copy: Bytes)                       // and has copied the page out
    | XWritten                                 // and has put the changed page back
    | SHeld(counted: bool)                     // ReadRow passed Lock(S); not counted if the mode was O
    | SRead(counted: bool, seen: Bytes)        // and has copied the page out

  datatype Instance = Instance(node: LT.Node, buf: Bytes, phases: seq<Phase>)

  /** Progress of the LockRemote call that holds the server's mutex on the page. */
  datatype Handover =
    | Free
    | Asking(ins: nat, thd: nat)                 // Invalid sent to the owner
    | OwnerLocked(ins: nat, thd: nat)            // owner is inside LockInvalid, past its first wait
    | Taken(ins: nat, thd: nat, page: Bytes)     // owner gave the page up
    | Expired(ins: nat, thd: nat)                // owner reported TIME_OUT

  /** `owner` is write_ins_id; `log` lists all WriteRow calls so far; `served` counts replies
      taken from the server's own buffer. */
  datatype State = State(insts: seq<Instance>, owner: int, serverBuf: Bytes, handover: Handover,
                         log: seq<Write>, served: nat)

  /** One step of one thread of one instance. */
  datatype Act =
    | CheckMode | ClaimRequest                              // GetWritePageLock, before LockRemote
    | SetMode | PutPage | ClearFlag                         // GetWritePageLock, after LockRemote
    | AddThread | RemoveThread
    | LockX | ReadForWrite | WriteBack(w: Write) | UnlockX  // WriteRow
    | LockS | ReadPage | UnlockS                            // ReadRow

  datatype Event =
    | Local(i: nat, t: nat, a: Act)
    | ServeFresh(i: nat, t: nat)     // LockRemote while write_ins_id is -1
    | Ask(i: nat, t: nat)            // LockRemote sends Invalid to the recorded owner
    | InvalidStart                   // the owner's LockInvalid passes its untimed wait
    | InvalidEnd                     // and finishes
    | Grant                          // LockRemote records the new owner and answers
    | Expire                         // LockRemote after a TIME_OUT

  function Replay(page: Bytes, log: seq<Write>): (r: Bytes)
    ensures |r| == |page|
  {
    if log == [] then page
    else var w := log[|log| - 1]; Splice(Replay(page, log[..|log| - 1]), w.off, w.row)
  }

  /** The page with every WriteRow of every instance applied, in order. */
  function Latest(s: State): Bytes {
    Replay(s.serverBuf, s.log)
  }

  predicate Thread(s: State, i: nat, t: nat) {
    i < |s.insts| && t < |s.insts[i].phases|
  }

  predicate At(s: State, i: nat, t: nat, p: Phase) {
    Thread(s, i, t) && s.insts[i].phases[t] == p
  }

  predicate OwnerKnown(s: State) {
    0 <= s.owner < |s.insts|
  }

  predicate UsesMutex(a: Act) {
    a.AddThread? || a.RemoveThread? || a.LockX? || a.UnlockX? || a.LockS? || a.UnlockS?
  }

  /** LockInvalid holds the node's mutex from its first wait to its return. */
  predicate MutexFree(s: State, i: nat) {
    !(s.handover.OwnerLocked? && s.owner == i)
  }

  predicate CanAct(x: Instance, t: nat, a: Act) {
    t < |x.phases| &&
    var p, n := x.phases[t], x.node;
    match a
    case CheckMode => p.Idle? && n.mode == LT.O
    case ClaimRequest => p.SawInvalid?
    case SetMode => p.Granted? && n.mode == LT.O
    case PutPage => p.ModeSet?
    case ClearFlag => p.Installed?
    case AddThread => p.Idle?
    case RemoveThread => p.Idle? && LT.RemoveThread(n, t).Done?
    case LockX => p.Idle? && LT.LockX(n).Done?
    case ReadForWrite => p.XHeld?
    case WriteBack(_) => p.XRead?
    case UnlockX => p.XWritten? && LT.UnLock(n).Done?
    case LockS => p.Idle? && LT.LockS(n).Done?
    case ReadPage => p.SHeld?
    case UnlockS => p.SRead? && LT.UnLock(n).Done?
  }

  function ActOn(x: Instance, t: nat, a: Act): Instance
    requires CanAct(x, t, a)
  {
    var p, n := x.phases[t], x.node;
    match a
    case CheckMode => Goto(x, t, SawInvalid)
    case ClaimRequest =>
      if n.remoting then Goto(x, t, Idle) else Goto(x.(node := n.(remoting := true)), t, Requesting)
    case SetMode => Goto(x.(node := n.(mode := LT.P)), t, ModeSet(p.reply))
    case PutPage => Goto(x.(buf := p.reply), t, Installed)
    case ClearFlag => Goto(x.(node := n.(remoting := false)), t, Idle)
    case AddThread => x.(node := LT.AddThread(n, t))
    case RemoveThread => x.(node := LT.RemoveThread(n, t).value)
    case LockX => Goto(x.(node := LT.LockX(n).value), t, XHeld)
    case ReadForWrite => Goto(x, t, XRead(x.buf))
    case WriteBack(w) => Goto(x.(buf := Splice(p.copy, w.off, w.row)), t, XWritten)
    case UnlockX => Goto(x.(node := LT.UnLock(n).value), t, Idle)
    case LockS => Goto(x.(node := LT.LockS(n).value), t, SHeld(n.mode != LT.O))
    case ReadPage => Goto(x, t, SRead(p.counted, x.buf))
    case UnlockS => Goto(x.(node := LT.UnLock(n).value), t, Idle)
  }

  function Goto(x: Instance, t: nat, p: Phase): Instance
    requires t < |x.phases|
  {
    x.(phases := x.phases[t := p])
  }

  function SetInst(s: State, i: nat, x: Instance): State
    requires i < |s.insts|
  {
    s.(insts := s.insts[i := x])
  }

  predicate Enabled(s: State, e: Event) {
    match e
    case Local(i, t, a) => i < |s.insts| && CanAct(s.insts[i], t, a) && (UsesMutex(a) ==> MutexFree(s, i))
    case ServeFresh(i, t) => At(s, i, t, Requesting) && s.handover == Free && s.owner < 0
    case Ask(i, t) => At(s, i, t, Requesting) && s.handover == Free && OwnerKnown(s)
    case InvalidStart => s.handover.Asking? && OwnerKnown(s) && LT.InvalidMayStart(s.insts[s.owner].node)
    case InvalidEnd => s.handover.OwnerLocked? && OwnerKnown(s) && LT.InvalidFinish(s.insts[s.owner].node) != LT.Stopped
    case Grant => s.handover.Taken? && Thread(s, s.handover.ins, s.handover.thd)
    case Expire => s.handover.Expired? && Thread(s, s.handover.ins, s.handover.thd)
  }

  function Next(s: State, e: Event): State
    requires Enabled(s, e)
  {
    match e
    case Local(i, t, a) =>
      var s' := SetInst(s, i, ActOn(s.insts[i], t, a));
      if a.WriteBack? then s'.(log := s.log + [a.w]) else s'
    case ServeFresh(i, t) =>
      SetInst(s, i, Goto(s.insts[i], t, Granted(s.serverBuf))).(owner := i, served := s.served + 1)
    case Ask(i, t) => s.(handover := Asking(i, t))
    case InvalidStart => s.(handover := OwnerLocked(s.handover.ins, s.handover.thd))
    case InvalidEnd =>
      var h, x := s.handover, s.insts[s.owner];
      var r := LT.InvalidFinish(x.node);
      if r.Done? then SetInst(s, s.owner, x.(node := r.value)).(handover := Taken(h.ins, h.thd, x.buf))
      else s.(handover := Expired(h.ins, h.thd))
    case Grant =>
      var h := s.handover;
      SetInst(s, h.ins, Goto(s.insts[h.ins], h.thd, Granted(h.page))).(owner := h.ins, handover := Free)
    case Expire =>
      var h := s.handover;
      var x := s.insts[h.ins];
      SetInst(s, h.ins, Goto(x.(node := x.node.(remoting := false)), h.thd, Idle)).(owner := h.ins, handover := Free)
  }

  /** Every instance has warmed its buffer from the shared disk, nobody owns the page. */
  predicate Init(s: State) {
    && s.owner == -1 && s.handover == Free && s.log == [] && s.served == 0
    && |s.serverBuf| > 0
    && forall i :: 0 <= i < |s.insts| ==>
         && s.insts[i].node == LT.NewNode() && s.insts[i].buf == s.serverBuf
         && forall t :: 0 <= t < |s.insts[i].phases| ==> s.insts[i].phases[t] == Idle
  }

  /** Runs of the code: any interleaving of enabled events. */
  predicate Run(s: State, es: seq<Event>)
    decreases |es|
  {
    es == [] || (Enabled(s, es[0]) && Run(Next(s, es[0]), es[1..]))
  }

  function Final(s: State, es: seq<Event>): State
    requires Run(s, es)
    decreases |es|
  {
    if es == [] then s else Final(Next(s, es[0]), es[1..])
  }

  // ---------------------------------------------------------------- what must hold

  predicate IsX(p: Phase) {
    p.XHeld? || p.XRead? || p.XWritten?
  }

  predicate IsCountedS(p: Phase) {
    (p.SHeld? || p.SRead?) && p.counted
  }

  function Writers(x: Instance): set<nat> {
    set t | 0 <= t < |x.phases| && IsX(x.phases[t])
  }

  function Readers(x: Instance): set<nat> {
    set t | 0 <= t < |x.phases| && IsCountedS(x.phases[t])
  }

  /** (mode, count) describes exactly the threads that are inside. */
  predicate Describes(n: LT.Node, writers: set<nat>, readers: set<nat>) {
    && n.count == |writers| + |readers|
    && match n.mode
       case X => |writers| == 1 && readers == {}
       case S => writers == {} && readers != {}
       case _ => writers == {} && readers == {}
  }

  predicate HoldersAgree(x: Instance) {
    Describes(x.node, Writers(x), Readers(x))
  }

  /** Only the recorded owner has the page in a mode other than O. */
  predicate OnlyOwner(s: State) {
    forall i :: 0 <= i < |s.insts| && s.insts[i].node.mode != LT.O ==> i == s.owner
  }

  /** A grant that has been answered but whose page is not in the buffer yet. */
  predicate Incoming(p: Phase) {
    p.Granted? || p.ModeSet?
  }

  /** The latest page is at the server, on its way, or in the recorded owner's buffer. */
  predicate LatestIsKept(s: State) {
    if s.owner < 0 then s.serverBuf == Latest(s)
    else if s.handover.Taken? then s.handover.page == Latest(s)
    else
      OwnerKnown(s) &&
      var x := s.insts[s.owner];
      && (forall t :: 0 <= t < |x.phases| && Incoming(x.phases[t]) ==> x.phases[t].reply == Latest(s))
      && ((forall t :: 0 <= t < |x.phases| ==> !Incoming(x.phases[t])) ==> x.buf == Latest(s))
  }

  /** Every WriteRow starts from the latest page and every counted ReadRow returns it. */
  ghost predicate CopiesAreLatest(s: State) {
    forall i: nat, t: nat :: Thread(s, i, t) ==>
      var p := s.insts[i].phases[t];
      && (p.XRead? ==> p.copy == Latest(s))
      && (p.SRead? && p.counted ==> p.seen == Latest(s))
  }

  ghost predicate Good(s: State) {
    && OnlyOwner(s)
    && LatestIsKept(s)
    && CopiesAreLatest(s)
    && forall i :: 0 <= i < |s.insts| ==> HoldersAgree(s.insts[i])
  }

  // ---------------------------------------------------------------- when the code breaks it

  /** An answered grant whose reply is neither in the buffer nor equal to what is there. */
  predicate StaleBuffer(x: Instance) {
    exists t :: 0 <= t < |x.phases| && x.phases[t].ModeSet? && x.phases[t].reply != x.buf
  }

  predicate GrantPending(x: Instance) {
    exists t :: 0 <= t < |x.phases| && x.phases[t].Granted?
  }

  predicate PutPending(x: Instance) {
    exists t :: 0 <= t < |x.phases| && x.phases[t].ModeSet?
  }

  /** Calls the code lets through although a grant is still being installed, and an UnLock by a
      reader that Lock(S) let in without counting it. */
  predicate ActHazard(x: Instance, t: nat, a: Act)
    requires CanAct(x, t, a)
  {
    match a
    case LockX => PutPending(x)
    case LockS => x.node.mode != LT.O && StaleBuffer(x)
    case UnlockS => !x.phases[t].counted && x.node.mode in {LT.S, LT.X}
    case _ => false
  }

  predicate Hazard(s: State, e: Event)
    requires Enabled(s, e)
  {
    match e
    case Local(i, t, a) => ActHazard(s.insts[i], t, a)
    case InvalidEnd => GrantPending(s.insts[s.owner]) || StaleBuffer(s.insts[s.owner])
    case _ => false
  }

  predicate CleanRun(s: State, es: seq<Event>)
    decreases |es|
  {
    es == [] || (Enabled(s, es[0]) && !Hazard(s, es[0]) && CleanRun(Next(s, es[0]), es[1..]))
  }

  lemma {:induction false} CleanRunIsRun(s: State, es: seq<Event>)
    requires CleanRun(s, es)
    ensures Run(s, es)
    decreases |es|
  {
    if es != [] { CleanRunIsRun(Next(s, es[0]), es[1..]); }
  }
}
