/**
  The per-page lock node an instance keeps, and the lock table that owns the nodes
  (common/lock_table/lock_table.cpp). Every operation is one critical section on the node's
  mutex. A condition wait that would block yields `Blocked`; an assert that would stop the
  process yields `Stopped`.
*/
module LockTable {

  /** O: not owned here, P: owned and free, S: read locked, X: write locked. */
  datatype LockMode = O | P | S | X

  datatype Node = Node(mode: LockMode, count: int, threadCount: int, threads: set<nat>, remoting: bool)

  datatype LockResult<+T> = Blocked | Stopped | TimedOut | Done(value: T)

  function NewNode(): Node {
    Node(O, 0, 0, {}, false)
  }

  function LockX(n: Node): LockResult<Node> {
    if n.mode != P then Blocked
    else if n.count != 0 then Stopped
    else Done(n.(mode := X, count := 1))
  }

  function LockS(n: Node): LockResult<Node> {
    match n.mode
    case X => Blocked
    case O => Done(n)
    case P => if n.count != 0 then Stopped else Done(n.(mode := S, count := 1))
    case S => if n.count <= 0 then Stopped else Done(n.(count := n.count + 1))
  }

  /** Only S and X can be asked for. */
  function Acquire(n: Node, mode: LockMode): LockResult<Node> {
    match mode
    case X => LockX(n)
    case S => LockS(n)
    case _ => Stopped
  }

  function UnLock(n: Node): LockResult<Node> {
    match n.mode
    case X => if n.count != 1 then Stopped else Done(n.(mode := P, count := 0))
    case S =>
      if n.count <= 0 then Stopped
      else Done(n.(mode := if n.count == 1 then P else S, count := n.count - 1))
    case _ => Done(n)
  }

  function AddThread(n: Node, t: nat): Node {
    if t in n.threads then n else n.(threads := n.threads + {t}, threadCount := n.threadCount + 1)
  }

  function RemoveThread(n: Node, t: nat): LockResult<Node> {
    if t !in n.threads then Done(n)
    else if n.threadCount <= 0 then Stopped
    else Done(n.(threads := n.threads - {t}, threadCount := n.threadCount - 1))
  }

  /** A lock that was granted is undone by UnLock, whatever the mode it was granted in. */
  lemma UnLockUndoesLock(n: Node)
    ensures forall mode :: Acquire(n, mode).Done? ==>
              UnLock(Acquire(n, mode).value) == Done(n) && Acquire(n, mode).value.mode in {O, mode}
  {
  }

  /** Which calls go through, which wait, and what a call that goes through leaves. Under O a reader passes
      without leaving a trace. */
  lemma GrantedExactly(n: Node)
    ensures Acquire(n, X).Done? <==> n.mode == P && n.count == 0
    ensures Acquire(n, X).Blocked? <==> n.mode != P
    ensures Acquire(n, S).Done? <==> n.mode == O || (n.mode == P && n.count == 0) || (n.mode == S && n.count > 0)
    ensures Acquire(n, S).Blocked? <==> n.mode == X
    ensures n.mode == O ==> Acquire(n, S) == Done(n)
    ensures forall mode :: n.mode != O && Acquire(n, mode).Done? ==>
              Acquire(n, mode).value == n.(mode := mode, count := n.count + 1)
    ensures forall mode :: Acquire(n, mode) == Stopped || mode in {S, X}
  {
  }

  lemma WriterFindsOwned(n: Node)
    ensures Acquire(n, X).Done? ==> n.mode == P
  {
  }

  /** Only the last holder to leave sets the mode to P; under O and P there is nobody to let out. */
  lemma ReleasedExactly(n: Node)
    ensures UnLock(n).Done? <==> (n.mode == X ==> n.count == 1) && (n.mode == S ==> n.count >= 1)
    ensures UnLock(n) != Blocked && UnLock(n) != TimedOut
    ensures n.mode in {O, P} ==> UnLock(n) == Done(n)
    ensures n.mode in {S, X} && UnLock(n).Done? ==>
              UnLock(n).value == n.(mode := if n.count == 1 then P else n.mode, count := n.count - 1)
  {
  }

  /** Registering puts the thread, and nothing else, into the set; from then on LockInvalid waits. */
  lemma RegisterBlocksInvalid(n: Node, t: nat)
    ensures AddThread(n, t).threads == n.threads + {t}
    ensures AddThread(n, t) == n.(threads := AddThread(n, t).threads, threadCount := AddThread(n, t).threadCount)
    ensures n.threadCount == |n.threads| ==>
              AddThread(n, t).threadCount == |n.threads + {t}| && LockInvalid(AddThread(n, t)) == Blocked
  {
    if t in n.threads {
      assert n.threads + {t} == n.threads;
      assert |n.threads - {t}| == |n.threads| - 1;
    }
  }

  /** Leaving takes it out again, and never stops while the counter is the size of the set. */
  lemma UnregisterLeaves(n: Node, t: nat)
    requires n.threadCount == |n.threads|
    ensures RemoveThread(n, t).Done?
    ensures RemoveThread(n, t).value == n.(threads := n.threads - {t}, threadCount := |n.threads - {t}|)
    ensures t !in n.threads ==> RemoveThread(AddThread(n, t), t) == Done(n)
  {
    if t in n.threads {
      assert |n.threads - {t}| == |n.threads| - 1;
    } else {
      assert n.threads - {t} == n.threads && n.threads + {t} - {t} == n.threads;
    }
  }

  /** The untimed wait of LockInvalid: it ends, holding the mutex, once no thread is registered. */
  predicate InvalidMayStart(n: Node) {
    n.threadCount == 0
  }

  /** The rest of LockInvalid, from the timed wait on. */
  function InvalidFinish(n: Node): LockResult<Node> {
    if n.threadCount != 0 then TimedOut
    else if n.count != 0 then Stopped
    else Done(n.(mode := O))
  }

  function LockInvalid(n: Node): LockResult<Node> {
    if !InvalidMayStart(n) then Blocked else InvalidFinish(n)
  }

  /** It waits while a thread is registered, stops if a holder is inside, and changes the mode only. */
  lemma InvalidExactly(n: Node)
    ensures LockInvalid(n) == Blocked <==> n.threadCount != 0
    ensures LockInvalid(n) == Stopped <==> n.threadCount == 0 && n.count != 0
    ensures LockInvalid(n).Done? <==> n.threadCount == 0 && n.count == 0
    ensures LockInvalid(n).Done? ==> LockInvalid(n).value == n.(mode := O)
    ensures InvalidFinish(n) == TimedOut <==> n.threadCount != 0
  {
  }

  class Table {
    var nodes: map<nat, Node>

    constructor (first: nat, end: nat)
      requires first <= end
      ensures forall p :: p in nodes <==> first <= p < end
      ensures forall p :: p in nodes ==> nodes[p].mode == O && nodes[p].count == 0 && !nodes[p].remoting
      ensures forall p :: p in nodes ==> nodes[p].threads == {} && nodes[p].threadCount == 0
    {
      var m: map<nat, Node> := map[];
      for p := first to end
        invariant forall q :: q in m <==> first <= q < p
        invariant forall q :: q in m ==> m[q] == NewNode()
      {
        m := m[p := NewNode()];
      }
      nodes := m;
    }

    /** The new table: `r` installed at `page` when the call went through, else nothing changed. */
    ghost predicate Applied(before: map<nat, Node>, page: nat, r: LockResult<Node>)
      reads this
    {
      nodes == if r.Done? then before[page := r.value] else before
    }

    method Lock(page: nat, mode: LockMode) returns (r: LockResult<Node>)
      modifies this
      ensures page !in old(nodes) ==> r == Stopped
      ensures page in old(nodes) ==> r == Acquire(old(nodes)[page], mode)
      ensures page in old(nodes) && mode == X ==> var n := old(nodes)[page];
                if n.mode != P then r == Blocked else if n.count != 0 then r == Stopped
                else r == Done(n.(mode := X, count := 1))
      ensures Applied(old(nodes), page, r)
    {
      if page !in nodes { return Stopped; }
      var n := nodes[page];
      if mode == X {
        if n.mode != P { return Blocked; }
        n := n.(mode := X);
        var before := n.count;
        n := n.(count := n.count + 1);
        if before != 0 { return Stopped; }
        nodes := nodes[page := n];
        return Done(n);
      }
      if mode == S {
        if n.mode == X { return Blocked; }
        if n.mode == P {
          var before := n.count;
          n := n.(count := n.count + 1);
          if before != 0 { return Stopped; }
          n := n.(mode := S);
        } else if n.mode == S {
          var before := n.count;
          n := n.(count := n.count + 1);
          if before <= 0 { return Stopped; }
        }
        nodes := nodes[page := n];
        return Done(n);
      }
      return Stopped;
    }

    method Unlock(page: nat) returns (r: LockResult<Node>)
      modifies this
      ensures page !in old(nodes) ==> r == Stopped
      ensures page in old(nodes) ==> r == UnLock(old(nodes)[page])
      ensures Applied(old(nodes), page, r)
    {
      if page !in nodes { return Stopped; }
      var n := nodes[page];
      if n.mode == X {
        if n.count != 1 { return Stopped; }
        n := n.(count := 0, mode := P);
      } else if n.mode == S {
        if n.count <= 0 { return Stopped; }
        n := n.(count := n.count - 1);
        if n.count == 0 { n := n.(mode := P); }
      }
      nodes := nodes[page := n];
      return Done(n);
    }

    method Register(page: nat, thread: nat) returns (r: LockResult<Node>)
      modifies this
      ensures page !in old(nodes) ==> r == Stopped
      ensures page in old(nodes) ==> r == Done(AddThread(old(nodes)[page], thread))
      ensures page in old(nodes) ==> var n := old(nodes)[page];
                && r.value == n.(threads := n.threads + {thread}, threadCount := r.value.threadCount)
                && r.value.threadCount == n.threadCount + if thread in n.threads then 0 else 1
      ensures Applied(old(nodes), page, r)
    {
      if page !in nodes { return Stopped; }
      var n := nodes[page];
      if thread !in n.threads {
        n := n.(threads := n.threads + {thread});
        n := n.(threadCount := n.threadCount + 1);
      }
      nodes := nodes[page := n];
      return Done(n);
    }

    method Unregister(page: nat, thread: nat) returns (r: LockResult<Node>)
      modifies this
      ensures page !in old(nodes) || old(nodes)[page].mode == O ==> r == Stopped
      ensures page in old(nodes) && old(nodes)[page].mode != O ==> r == RemoveThread(old(nodes)[page], thread)
      ensures r.Done? ==> var n := old(nodes)[page];
                && r.value == n.(threads := n.threads - {thread}, threadCount := r.value.threadCount)
                && r.value.threadCount == n.threadCount - if thread in n.threads then 1 else 0
      ensures Applied(old(nodes), page, r)
    {
      if page !in nodes { return Stopped; }
      var n := nodes[page];
      if n.mode == O { return Stopped; }
      if thread in n.threads {
        if n.threadCount <= 0 { return Stopped; }
        n := n.(threadCount := n.threadCount - 1);
        n := n.(threads := n.threads - {thread});
      }
      nodes := nodes[page := n];
      return Done(n);
    }

    /** `pageBuf` is what the instance's buffer holds for the page; it is handed out on success. */
    method Invalidate(page: nat, pageBuf: seq<int>) returns (r: LockResult<Node>, out: seq<int>)
      modifies this
      ensures page !in old(nodes) ==> r == Stopped
      ensures page in old(nodes) ==> r == LockInvalid(old(nodes)[page])
      ensures r != TimedOut
      ensures r.Done? ==> r.value.mode == O && out == pageBuf
      ensures Applied(old(nodes), page, r)
    {
      out := [];
      if page !in nodes { return Stopped, out; }
      var n := nodes[page];
      if n.threadCount != 0 { return Blocked, out; }
      if n.threadCount == 0 {
        if n.count != 0 { return Stopped, out; }
        n := n.(mode := O);
        nodes := nodes[page := n];
        return Done(n), pageBuf;
      }
      return TimedOut, out;
    }
  }
}
