/** The lock server's directory (global_lock/global_lock.cpp). A call to the owner's Invalid appears as its reply. */
module GlobalLock {
  import opened Bytes
  import opened Outcomes
  import O = Ownership

  /** What the recorded owner answers to Invalid. */
  datatype Reply = Reply(rc: RC, page: Bytes)

  /** What LockRemote makes of a directory entry: the new owner, the return code and the page. */
  function Serve(owner: int, copy: Bytes, wanted: bool, ins: nat, reply: Reply): (int, RC, Bytes) {
    if owner >= 0 then (ins, reply.rc, reply.page) else (ins, RCOK, if wanted then copy else [])
  }

  class GlobalLock {
    /** write_ins_id of every page, -1 for none. */
    var owners: map<nat, int>
    var timestamp: nat
    /** The server's own copies, which no call ever changes. */
    const copies: map<nat, Bytes>
    /** How often a copy was handed out, and every page handed over by an owner, in order. */
    ghost var served: map<nat, nat>
    ghost var moved: seq<(nat, Reply)>

    ghost predicate Valid()
      reads this
    {
      && owners.Keys == copies.Keys == served.Keys
      && forall p :: p in owners ==> owners[p] >= -1 && served[p] == if owners[p] < 0 then 0 else 1
    }

    constructor (copies: map<nat, Bytes>)
      ensures Valid() && this.copies == copies && timestamp == 1 && moved == []
      ensures forall p :: p in copies ==> owners[p] == -1
    {
      this.copies := copies;
      owners := map p | p in copies :: -1;
      served := map p | p in copies :: 0;
      timestamp, moved := 1, [];
    }

    /** The server's copy leaves at most once per page: `served` counts it, and Valid bounds it by the owner being
        recorded. The new owner is recorded even when the old one reported a time-out. */
    method LockRemote(ins: nat, page: nat, wanted: bool, reply: Reply) returns (stopped: bool, rc: RC, buf: Bytes)
      requires Valid()
      modifies `owners, `served, `moved
      ensures Valid()
      ensures stopped <==> page !in old(owners)
      ensures stopped ==> owners == old(owners) && served == old(served) && moved == old(moved)
      ensures !stopped ==>
                && (owners[page], rc, buf) == Serve(old(owners)[page], copies[page], wanted, ins, reply)
                && owners == old(owners)[page := ins]
                && rc == (if old(owners)[page] < 0 then RCOK else reply.rc)
                && buf == (if old(owners)[page] >= 0 then reply.page else if wanted then copies[page] else [])
                && (if old(owners)[page] >= 0 then served == old(served) && moved == old(moved) + [(page, reply)]
                    else served == old(served)[page := 1] && moved == old(moved))
    {
      if page !in owners { return true, Abort, []; }
      rc, buf := RCOK, [];
      if owners[page] >= 0 {
        rc, buf := reply.rc, reply.page;
        moved := moved + [(page, reply)];
        owners := owners[page := ins];
      } else {
        owners := owners[page := ins];
        served := served[page := served[page] + 1];
        if wanted {
          buf := copies[page];
        }
      }
      stopped := false;
    }

    /** fetch_add: no two calls return the same number. */
    method GetNextTs() returns (ts: nat)
      modifies `timestamp
      ensures ts == old(timestamp) && timestamp == old(timestamp) + 1
    {
      ts := timestamp;
      timestamp := timestamp + 1;
    }
  }

  // ---------------------------------------------------------------- the same calls as steps of the protocol

  /** What an answer does to the caller: RCOK leads to the page being installed, a time-out to the request being
      taken back. */
  ghost predicate Answered(s: O.State, i: nat, t: nat, r: (int, RC, Bytes)) {
    && s.owner == r.0 && O.Thread(s, i, t)
    && (r.1 == RCOK <==> s.insts[i].phases[t].Granted?)
    && (r.1 == RCOK ==> O.At(s, i, t, O.Granted(r.2)))
    && (r.1 == TimeOut ==> O.At(s, i, t, O.Idle) && !s.insts[i].node.remoting)
  }

  /** The three ways in which LockRemote answers are the three answering steps of the protocol; which of them
      it is, is decided by the return code alone. */
  lemma AnswersAreSteps(s: O.State, e: O.Event, any: Reply)
    requires O.Enabled(s, e)
    ensures e.ServeFresh? ==> var r := Serve(s.owner, s.serverBuf, true, e.i, any);
              r.1 == RCOK && Answered(O.Next(s, e), e.i, e.t, r)
    ensures e.Grant? && O.OwnerKnown(s) ==> var h := s.handover;
              var r := Serve(s.owner, s.serverBuf, true, h.ins, Reply(RCOK, h.page));
              r.1 == RCOK && Answered(O.Next(s, e), h.ins, h.thd, r)
    ensures e.Expire? && O.OwnerKnown(s) ==> var h := s.handover;
              var r := Serve(s.owner, s.serverBuf, true, h.ins, Reply(TimeOut, any.page));
              r.1 == TimeOut && Answered(O.Next(s, e), h.ins, h.thd, r)
  {
  }

  /** While a call holds the entry's mutex no other is served and the recorded owner stays. */
  ghost predicate Pending(s: O.State, i: nat, t: nat, owner: int) {
    s.handover != O.Free && s.handover.ins == i && s.handover.thd == t && s.owner == owner >= 0
  }

  ghost predicate NoAnswer(es: seq<O.Event>) {
    forall k :: 0 <= k < |es| ==> !es[k].Grant? && !es[k].Expire?
  }

  lemma {:induction false} PendingKept(s: O.State, es: seq<O.Event>, i: nat, t: nat, owner: int)
    requires Pending(s, i, t, owner) && O.Run(s, es) && NoAnswer(es)
    ensures Pending(O.Final(s, es), i, t, owner)
    decreases |es|
  {
    if es != [] {
      assert !es[0].Grant? && !es[0].Expire?;
      assert forall k :: 0 <= k < |es| - 1 ==> es[1..][k] == es[k + 1];
      PendingKept(O.Next(s, es[0]), es[1..], i, t, owner);
    }
  }

  /** A whole call on an owned page: from Ask to the answer, whatever the instances do in between, the directory
      entry, the return code and the page are those of LockRemote with what the old owner replied. */
  lemma LockRemoteIsSteps(s: O.State, i: nat, t: nat, mid: seq<O.Event>, e: O.Event, any: Bytes)
    requires O.Enabled(s, O.Ask(i, t)) && O.Run(O.Next(s, O.Ask(i, t)), mid) && NoAnswer(mid)
    requires (e.Grant? || e.Expire?) && O.Enabled(O.Final(O.Next(s, O.Ask(i, t)), mid), e)
    ensures var s' := O.Final(O.Next(s, O.Ask(i, t)), mid);
            var reply := if s'.handover.Taken? then Reply(RCOK, s'.handover.page) else Reply(TimeOut, any);
            var r := Serve(s.owner, s.serverBuf, true, i, reply);
            r.1 == reply.rc && (e.Grant? <==> s'.handover.Taken?) && Answered(O.Next(s', e), i, t, r)
  {
    PendingKept(O.Next(s, O.Ask(i, t)), mid, i, t, s.owner);
    AnswersAreSteps(O.Final(O.Next(s, O.Ask(i, t)), mid), e, Reply(RCOK, any));
  }
}
