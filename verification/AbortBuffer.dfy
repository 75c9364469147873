/** The query loop of a worker thread (instance/thread.cpp): picking, running, parking aborted queries. */
module AbortBuffer {
  import opened Bytes
  import opened Outcomes

  const ABORT_BUFFER_SIZE: nat := 10
  const MAX_TXN_PER_PART: nat := 1000

  type Query = nat
  type Time = t: nat | t <= U64_MAX

  datatype Held = Null | Query(query: Query)
  /** A slot keeps its last ready time when its query is taken. */
  datatype Slot = Slot(held: Held, readyTime: Time)

  /** What the outside world does in one round: clock readings while picking, the head of the query queue,
      the outcome of the transaction, and the penalty and clock for parking. */
  datatype Round = Round(clocks: seq<Time>, next: Query, rc: RC, penalty: Time, now: Time)

  // ---------------------------------------------------------------- what the buffer holds

  function NullSlots(s: seq<Slot>): nat {
    if s == [] then 0 else NullSlots(s[..|s| - 1]) + if s[|s| - 1].held.Null? then 1 else 0
  }

  /** How many slots hold q. */
  function Copies(s: seq<Slot>, q: Query): nat {
    if s == [] then 0 else Copies(s[..|s| - 1], q) + Is(s[|s| - 1].held, q)
  }

  function Is(h: Held, q: Query): nat {
    if h == Held.Query(q) then 1 else 0
  }

  lemma {:induction false} CopiesUpdate(s: seq<Slot>, i: nat, x: Slot, q: Query)
    requires i < |s|
    ensures Copies(s[i := x], q) + Is(s[i].held, q) == Copies(s, q) + Is(x.held, q)
  {
    var last := |s| - 1;
    if i == last {
      assert s[i := x][..last] == s[..last];
    } else {
      CopiesUpdate(s[..last], i, x, q);
      assert s[i := x][..last] == s[..last][i := x];
    }
  }

  lemma {:induction false} NullSlotsUpdate(s: seq<Slot>, i: nat, x: Slot)
    requires i < |s|
    ensures NullSlots(s[i := x]) + (if s[i].held.Null? then 1 else 0) == NullSlots(s) + (if x.held.Null? then 1 else 0)
  {
    var last := |s| - 1;
    if i == last {
      assert s[i := x][..last] == s[..last];
    } else {
      NullSlotsUpdate(s[..last], i, x);
      assert s[i := x][..last] == s[..last][i := x];
    }
  }

  lemma {:induction false} NullSlotsRange(s: seq<Slot>)
    ensures NullSlots(s) <= |s|
    ensures NullSlots(s) == 0 <==> forall i :: 0 <= i < |s| ==> s[i].held.Query?
    ensures NullSlots(s) == |s| <==> forall i :: 0 <= i < |s| ==> s[i].held.Null?
  {
    if s != [] {
      NullSlotsRange(s[..|s| - 1]);
    }
  }

  predicate Ready(x: Slot, now: Time) {
    x.held.Query? && now > x.readyTime
  }

  /** Every query fetched is in exactly one place: committed, dropped, parked, or at hand. */
  ghost predicate Conserved(fetched: seq<Query>, committed: seq<Query>, dropped: seq<Query>, s: seq<Slot>, hand: Held) {
    forall q :: multiset(fetched)[q] == multiset(committed)[q] + multiset(dropped)[q] + Copies(s, q) + Is(hand, q)
  }

  class Thread {
    const abortBuffer: array<Slot>
    var emptySlots: nat
    const enable: bool
    ghost var fetched: seq<Query>
    ghost var committed: seq<Query>
    ghost var dropped: seq<Query>

    ghost predicate Valid()
      reads this, abortBuffer
    {
      && abortBuffer.Length == ABORT_BUFFER_SIZE
      && emptySlots == NullSlots(abortBuffer[..])
    }

    constructor (enable: bool)
      ensures Valid() && fresh(abortBuffer) && emptySlots == ABORT_BUFFER_SIZE && this.enable == enable
      ensures fetched == committed == dropped == []
    {
      this.enable := enable;
      abortBuffer := new Slot[ABORT_BUFFER_SIZE](_ => Slot(Null, 0));
      emptySlots := ABORT_BUFFER_SIZE;
      fetched, committed, dropped := [], [], [];
      new;
      NullSlotsRange(abortBuffer[..]);
    }

    /** One look at the buffer: the first query that is ready goes out; otherwise the earliest ready time of a full buffer. */
    method PickReady(now: Time) returns (m: Held, minReadyTime: Time)
      requires Valid()
      modifies `emptySlots, abortBuffer
      ensures Valid()
      ensures m.Null? <==> forall i :: 0 <= i < ABORT_BUFFER_SIZE ==> !Ready(old(abortBuffer[i]), now)
      ensures emptySlots == old(emptySlots) + if m.Null? then 0 else 1
      ensures m.Null? ==> abortBuffer[..] == old(abortBuffer[..])
      ensures m.Query? ==> exists i :: TakenFrom(old(abortBuffer[..]), abortBuffer[..], i, m, now)
      ensures m.Null? && emptySlots == 0 ==> minReadyTime >= now
      ensures m.Null? && emptySlots == 0 ==> forall i :: 0 <= i < ABORT_BUFFER_SIZE ==> minReadyTime <= abortBuffer[i].readyTime
      ensures m.Null? && emptySlots == 0 ==> exists i :: 0 <= i < ABORT_BUFFER_SIZE && minReadyTime == abortBuffer[i].readyTime
    {
      m, minReadyTime := Null, U64_MAX;
      NullSlotsRange(abortBuffer[..]);
      if emptySlots < ABORT_BUFFER_SIZE {
        for i := 0 to ABORT_BUFFER_SIZE
          invariant m.Null? && abortBuffer[..] == old(abortBuffer[..]) && emptySlots == old(emptySlots)
          invariant forall k :: 0 <= k < i ==> !Ready(abortBuffer[k], now)
          invariant emptySlots == 0 ==> forall k :: 0 <= k < i ==> minReadyTime <= abortBuffer[k].readyTime
          invariant emptySlots == 0 ==> now <= minReadyTime
          invariant minReadyTime == U64_MAX || exists k :: 0 <= k < i && minReadyTime == abortBuffer[k].readyTime
        {
          if abortBuffer[i].held.Query? && now > abortBuffer[i].readyTime {
            m := abortBuffer[i].held;
            NullSlotsUpdate(abortBuffer[..], i, Slot(Null, abortBuffer[i].readyTime));
            abortBuffer[i] := abortBuffer[i].(held := Null);
            emptySlots := emptySlots + 1;
            assert abortBuffer[..] == old(abortBuffer[..])[i := Slot(Null, old(abortBuffer[i].readyTime))];
            assert TakenFrom(old(abortBuffer[..]), abortBuffer[..], i, m, now);
            break;
          } else if emptySlots == 0 && abortBuffer[i].readyTime < minReadyTime {
            minReadyTime := abortBuffer[i].readyTime;
          }
        }
      }
      assert abortBuffer[0].readyTime <= U64_MAX;
    }

    /** Looks again at every clock reading until there is a query; out of readings, it is still waiting. */
    method Pick(clocks: seq<Time>, next: Query) returns (m: Held, ghost drawn: bool)
      requires Valid()
      modifies `emptySlots, `fetched, abortBuffer
      ensures Valid()
      ensures m.Null? ==> Waiting(clocks) && fetched == old(fetched) && abortBuffer[..] == old(abortBuffer[..])
      ensures m.Query? ==> emptySlots > 0 && fetched == old(fetched) + if drawn then [next] else []
      ensures m.Query? ==> Picked(old(abortBuffer[..]), abortBuffer[..], m, drawn, clocks, next)
    {
      var trial := 0;
      m, drawn := Null, false;
      for k := 0 to |clocks|
        invariant Valid() && trial == 0 && m.Null? && !drawn
        invariant fetched == old(fetched) && abortBuffer[..] == old(abortBuffer[..])
        invariant Waiting(clocks[..k]) && forall j :: 0 <= j < k ==> Asleep(old(abortBuffer[..]), clocks[j])
      {
        var minReadyTime;
        NullSlotsRange(abortBuffer[..]);
        m, minReadyTime := PickReady(clocks[k]);
        if m.Null? && emptySlots == 0 {
          assert trial == 0;
          assert minReadyTime >= clocks[k];
          assert Asleep(old(abortBuffer[..]), clocks[k]);
        } else if m.Null? {
          m, drawn := Held.Query(next), true;
          fetched := fetched + [next];
        }
        if m.Query? {
          assert PickedAt(old(abortBuffer[..]), abortBuffer[..], m, drawn, clocks, k, next);
          break;
        }
      }
    }

    /** The first empty slot takes the query. */
    method Park(q: Query, penalty: Time, now: Time)
      requires Valid() && emptySlots > 0
      modifies `emptySlots, abortBuffer
      ensures Valid() && emptySlots == old(emptySlots) - 1
      ensures exists i :: ParkedIn(old(abortBuffer[..]), abortBuffer[..], i, q, ReadyAt(now, penalty))
      ensures exists i :: 0 <= i < ABORT_BUFFER_SIZE && old(abortBuffer[i].held).Null? && abortBuffer[i].held == Held.Query(q)
                          && abortBuffer[i].readyTime == now + penalty - if now + penalty <= U64_MAX then 0 else U64_MAX + 1
    {
      ghost var before := abortBuffer[..];
      for i := 0 to ABORT_BUFFER_SIZE
        invariant abortBuffer[..] == before && emptySlots == old(emptySlots)
        invariant forall k :: 0 <= k < i ==> abortBuffer[k].held.Query?
      {
        if abortBuffer[i].held.Null? {
          NullSlotsUpdate(before, i, Slot(Held.Query(q), ReadyAt(now, penalty)));
          abortBuffer[i] := Slot(Held.Query(q), ReadyAt(now, penalty));
          emptySlots := emptySlots - 1;
          assert abortBuffer[..] == before[i := Slot(Held.Query(q), ReadyAt(now, penalty))];
          assert ParkedIn(before, abortBuffer[..], i, q, ReadyAt(now, penalty));
          assert old(abortBuffer[i].held).Null?;
          return;
        }
      }
      NullSlotsRange(before);
      assert false;
    }

    /** The books balance with `hand` being the query that is neither parked nor done. */
    ghost predicate Balanced(hand: Held)
      reads this, abortBuffer
    {
      && Valid() && (!enable ==> emptySlots == ABORT_BUFFER_SIZE)
      && Conserved(fetched, committed, dropped, abortBuffer[..], hand)
      && |fetched| == |committed| + |dropped| + (ABORT_BUFFER_SIZE - emptySlots) + if hand.Null? then 0 else 1
    }

    // Choosing the query of this round: with the buffer off, the last one again unless it committed.
    method NextQuery(last: Held, rc: RC, round: Round) returns (m: Held, ghost drawn: bool)
      requires Balanced(if enable || rc == RCOK then Null else last) && (last.Null? ==> rc == RCOK)
      modifies `emptySlots, `fetched, abortBuffer
      ensures Balanced(m)
      ensures m.Query? ==> !enable || emptySlots > 0
      ensures m.Null? ==> enable && Waiting(round.clocks) && fetched == old(fetched) && abortBuffer[..] == old(abortBuffer[..])
      ensures m.Query? ==> fetched == old(fetched) + if drawn then [round.next] else []
      ensures m.Query? && enable ==> Picked(old(abortBuffer[..]), abortBuffer[..], m, drawn, round.clocks, round.next)
      ensures !enable ==> abortBuffer[..] == old(abortBuffer[..]) && (drawn <==> rc == RCOK)
      ensures !enable ==> m == if rc == RCOK then Held.Query(round.next) else last
    {
      if enable {
        ghost var before, had := abortBuffer[..], fetched;
        m, drawn := Pick(round.clocks, round.next);
        if m.Query? {
          PickConserves(before, had, abortBuffer[..], committed, dropped, m, drawn, round.clocks, round.next);
        }
      } else if rc == RCOK {
        FetchConserves(fetched, committed, dropped, abortBuffer[..], round.next);
        m, drawn := Held.Query(round.next), true;
        fetched := fetched + [round.next];
      } else {
        m, drawn := last, false;
      }
    }

    method ParkHand(q: Query, penalty: Time, now: Time)
      requires Balanced(Held.Query(q)) && enable && emptySlots > 0
      modifies `emptySlots, abortBuffer
      ensures Balanced(Null)
      ensures exists i :: ParkedIn(old(abortBuffer[..]), abortBuffer[..], i, q, ReadyAt(now, penalty))
    {
      ghost var before := abortBuffer[..];
      Park(q, penalty, now);
      ParkConserves(before, abortBuffer[..], fetched, committed, dropped, q, ReadyAt(now, penalty));
    }

    ghost method Commit(q: Query)
      requires Balanced(Held.Query(q))
      modifies `committed
      ensures Balanced(Null) && committed == old(committed) + [q]
    {
      CommitConserves(fetched, committed, dropped, abortBuffer[..], q);
      committed := committed + [q];
    }

    ghost method Drop(q: Query)
      requires Balanced(Held.Query(q))
      modifies `dropped
      ensures Balanced(Null) && dropped == old(dropped) + [q]
    {
      DropConserves(fetched, committed, dropped, abortBuffer[..], q);
      dropped := dropped + [q];
    }

    // After the transaction: parked, counted, dropped, or kept for the next round.
    method Settle(m: Held, round: Round) returns (hand: Held)
      requires Balanced(m) && m.Query? && (enable ==> emptySlots > 0)
      modifies `emptySlots, `committed, `dropped, abortBuffer
      ensures Balanced(hand)
      ensures hand == if enable || round.rc == RCOK then Null else m
      ensures committed == old(committed) + if round.rc == RCOK then [m.query] else []
      ensures dropped == old(dropped) + if Odd(round.rc) && enable then [m.query] else []
      ensures Settled(old(abortBuffer[..]), abortBuffer[..], m.query, enable, round)
    {
      hand := Null;
      if round.rc == Abort {
        if enable {
          assert emptySlots > 0;
          ParkHand(m.query, round.penalty, round.now);
        } else {
          hand := m;
        }
      } else if round.rc == RCOK {
        Commit(m.query);
      } else if enable {
        Drop(m.query);
      } else {
        hand := m;
      }
    }

    // One pass of the loop; without a query the thread is still asleep.
    method OneRound(last: Held, rc: RC, round: Round, ghost tale: Tale) returns (m: Held, hand: Held, ghost t: Tale)
      requires Balanced(if enable || rc == RCOK then Null else last) && (last.Null? ==> rc == RCOK)
      modifies this, abortBuffer
      ensures Balanced(hand)
      ensures m.Null? ==> enable && Waiting(round.clocks) && hand.Null? && t == tale
                          && fetched == old(fetched) && committed == old(committed) && dropped == old(dropped)
      ensures m.Query? ==>
                && hand == (if enable || round.rc == RCOK then Null else m)
                && t.Turn? && t.prior == tale && t.before == old(abortBuffer[..]) && t.after == abortBuffer[..] && m == Held.Query(t.query)
                && (if enable then TurnOn(round, t) else TurnOff(round, t, last, rc))
                && fetched == old(fetched) + (if t.drawn then [t.query] else [])
                && committed == old(committed) + (if round.rc == RCOK then [t.query] else [])
                && dropped == old(dropped) + if Odd(round.rc) && enable then [t.query] else []
    {
      ghost var before := abortBuffer[..];
      ghost var drawn;
      m, drawn := NextQuery(last, rc, round);
      hand, t := m, tale;
      if m.Query? {
        ghost var picked := abortBuffer[..];
        hand := Settle(m, round);
        t := Turn(tale, before, picked, m.query, drawn, abortBuffer[..]);
      }
    }

    /** What a run that this tale tells has done: the queries fetched and committed are those of the tale, in its
        order, the books balance, and nothing was dropped unless an outcome was odd. */
    ghost predicate Tells(rounds: seq<Round>, tale: Tale, hand: Held)
      reads this, abortBuffer
    {
      Balanced(hand) && Recorded(enable, rounds, tale, fetched, committed, dropped)
    }

    // The same pass, with the tale it continues.
    method ToldRound(last: Held, rc: RC, rounds: seq<Round>, k: nat, ghost tale: Tale) returns (m: Held, hand: Held, ghost t: Tale)
      requires k == Length(tale) < |rounds| && last == LastQuery(tale) && rc == LastRc(rounds, tale) && LeftAs(tale, abortBuffer[..])
      requires Tells(rounds, tale, if enable || rc == RCOK then Null else last)
      modifies this, abortBuffer
      ensures Tells(rounds, t, hand)
      ensures m.Null? ==> enable && hand.Null? && t == tale && Waiting(rounds[k].clocks)
      ensures m.Query? ==> hand == (if enable || rounds[k].rc == RCOK then Null else m)
                           && t.Turn? && t.prior == tale && m == LastQuery(t) && LeftAs(t, abortBuffer[..])
    {
      m, hand, t := OneRound(last, rc, rounds[k], tale);
      if m.Query? {
        RecordTurn(enable, rounds, t, old(fetched), old(committed), old(dropped));
      }
    }

    /** The thread's life over any finite stretch of rounds: to the finish, to a sleep, or to where the rounds end.
        `ran` rounds were carried out; `hand` is the query that would be run again; `tale` tells every round. */
    method Run(rounds: seq<Round>) returns (finished: bool, hand: Held, ran: nat, ghost tale: Tale)
      requires Valid() && emptySlots == ABORT_BUFFER_SIZE && fetched == committed == dropped == []
      modifies this, abortBuffer
      ensures ran == Length(tale) <= |rounds| && Tells(rounds, tale, hand)
      ensures if finished then |committed| == MAX_TXN_PER_PART else |committed| < MAX_TXN_PER_PART
      ensures !finished && ran < |rounds| ==> enable && Waiting(rounds[ran].clocks)
      ensures enable || finished ==> hand.Null?
      ensures AllRcok(rounds, ran) ==> InQueueOrder(rounds, committed, ran)
    {
      var rc, m, txnCnt := RCOK, Null, 0;
      hand, tale := Null, Start;
      EmptyBuffer();
      for k := 0 to |rounds|
        invariant k == Length(tale) && Tells(rounds, tale, hand)
        invariant m == LastQuery(tale) && rc == LastRc(rounds, tale) && LeftAs(tale, abortBuffer[..])
        invariant txnCnt == |committed| < MAX_TXN_PER_PART
        invariant hand == if enable || rc == RCOK then Null else m
      {
        m, hand, tale := ToldRound(m, rc, rounds, k, tale);
        CommittedInOrder(enable, rounds, tale);
        if m.Null? { return false, hand, k, tale; }
        rc := rounds[k].rc;
        if rc == RCOK { txnCnt := txnCnt + 1; }
        if txnCnt >= MAX_TXN_PER_PART {
          assert txnCnt == MAX_TXN_PER_PART;
          return true, hand, k + 1, tale;
        }
      }
      CommittedInOrder(enable, rounds, tale);
      return false, hand, |rounds|, tale;
    }

    lemma EmptyBuffer()
      requires Valid() && emptySlots == ABORT_BUFFER_SIZE
      ensures Conserved([], [], [], abortBuffer[..], Null) && Empty(abortBuffer[..])
    {
      NullSlotsRange(abortBuffer[..]);
      forall q ensures Copies(abortBuffer[..], q) == 0 {
        NoCopies(abortBuffer[..], q);
      }
    }

    /** Sleeping with a full buffer of which no entry was ready at any reading. */
    ghost predicate Waiting(clocks: seq<Time>)
      reads this, abortBuffer
    {
      clocks == [] ||
      (emptySlots == 0 && forall k, i :: 0 <= k < |clocks| && 0 <= i < abortBuffer.Length ==> clocks[k] <= abortBuffer[i].readyTime)
    }
  }

  /** The first ready slot is emptied and nothing else changes. */
  ghost predicate TakenFrom(before: seq<Slot>, after: seq<Slot>, i: nat, m: Held, now: Time) {
    && i < |before| && Ready(before[i], now) && m == before[i].held
    && (forall k :: 0 <= k < i ==> !Ready(before[k], now))
    && after == before[i := Slot(Null, before[i].readyTime)]
  }

  /** How many of the first k rounds committed. */
  ghost function Commits(rounds: seq<Round>, k: nat): nat
    requires k <= |rounds|
  {
    if k == 0 then 0 else Commits(rounds, k - 1) + if rounds[k - 1].rc == RCOK then 1 else 0
  }

  /** Neither committed nor aborted. */
  predicate Odd(rc: RC) {
    rc != RCOK && rc != Abort
  }

  ghost predicate NeverOdd(rounds: seq<Round>) {
    forall k :: 0 <= k < |rounds| ==> !Odd(rounds[k].rc)
  }

  function ReadyAt(now: Time, penalty: nat): Time {
    (now + penalty) % (U64_MAX + 1)
  }

  ghost predicate ParkedIn(before: seq<Slot>, after: seq<Slot>, i: nat, q: Query, ready: Time) {
    && i < |before| && before[i].held.Null? && (forall k :: 0 <= k < i ==> before[k].held.Query?)
    && after == before[i := Slot(Held.Query(q), ready)]
  }

  /** At the first reading that does not find the buffer full and nothing ready: a parked query that is ready, or
      else the next of the queue. */
  ghost predicate PickedAt(before: seq<Slot>, after: seq<Slot>, m: Held, drawn: bool, clocks: seq<Time>, k: nat, next: Query) {
    && k < |clocks| && (forall j :: 0 <= j < k ==> Asleep(before, clocks[j]))
    && drawn == NoneReady(before, clocks[k])
    && (drawn ==> !Full(before) && after == before && m == Held.Query(next))
    && (!drawn ==> exists i :: TakenFrom(before, after, i, m, clocks[k]))
  }

  ghost predicate Picked(before: seq<Slot>, after: seq<Slot>, m: Held, drawn: bool, clocks: seq<Time>, next: Query) {
    exists k :: PickedAt(before, after, m, drawn, clocks, k, next)
  }

  ghost predicate NoneReady(s: seq<Slot>, now: Time) {
    forall i :: 0 <= i < |s| ==> !Ready(s[i], now)
  }

  ghost predicate Asleep(s: seq<Slot>, now: Time) {
    Full(s) && NoneReady(s, now)
  }

  ghost predicate Full(s: seq<Slot>) {
    forall i :: 0 <= i < |s| ==> s[i].held.Query?
  }

  ghost predicate Empty(s: seq<Slot>) {
    forall i :: 0 <= i < |s| ==> s[i].held.Null?
  }

  /** What the end of a round does to the buffer. */
  ghost predicate Settled(before: seq<Slot>, after: seq<Slot>, q: Query, enable: bool, round: Round) {
    if enable && round.rc == Abort then exists i :: ParkedIn(before, after, i, q, ReadyAt(round.now, round.penalty))
    else after == before
  }

  lemma FetchConserves(fetched: seq<Query>, committed: seq<Query>, dropped: seq<Query>, s: seq<Slot>, q: Query)
    requires Conserved(fetched, committed, dropped, s, Null)
    ensures Conserved(fetched + [q], committed, dropped, s, Held.Query(q))
  {
  }

  lemma CommitConserves(fetched: seq<Query>, committed: seq<Query>, dropped: seq<Query>, s: seq<Slot>, q: Query)
    requires Conserved(fetched, committed, dropped, s, Held.Query(q))
    ensures Conserved(fetched, committed + [q], dropped, s, Null)
  {
  }

  lemma DropConserves(fetched: seq<Query>, committed: seq<Query>, dropped: seq<Query>, s: seq<Slot>, q: Query)
    requires Conserved(fetched, committed, dropped, s, Held.Query(q))
    ensures Conserved(fetched, committed, dropped + [q], s, Null)
  {
  }

  lemma PickConserves(before: seq<Slot>, fetched: seq<Query>, after: seq<Slot>,
                      committed: seq<Query>, dropped: seq<Query>, m: Held, drawn: bool, clocks: seq<Time>, next: Query)
    requires Conserved(fetched, committed, dropped, before, Null)
    requires Picked(before, after, m, drawn, clocks, next)
    ensures Conserved(fetched + if drawn then [next] else [], committed, dropped, after, m)
    ensures (if drawn then 1 else 0) + NullSlots(after) - NullSlots(before) == 1
  {
    if drawn {
      FetchConserves(fetched, committed, dropped, before, next);
    } else {
      assert fetched + [] == fetched;
      var k: nat :| PickedAt(before, after, m, drawn, clocks, k, next);
      var i: nat :| TakenFrom(before, after, i, m, clocks[k]);
      NullSlotsUpdate(before, i, after[i]);
      forall q ensures Copies(after, q) + Is(m, q) == Copies(before, q) {
        CopiesUpdate(before, i, after[i], q);
      }
    }
  }

  lemma ParkConserves(before: seq<Slot>, after: seq<Slot>, fetched: seq<Query>, committed: seq<Query>, dropped: seq<Query>, p: Query, ready: Time)
    requires Conserved(fetched, committed, dropped, before, Held.Query(p))
    requires exists i :: ParkedIn(before, after, i, p, ready)
    ensures Conserved(fetched, committed, dropped, after, Null)
  {
    var i: nat :| ParkedIn(before, after, i, p, ready);
    forall q ensures Copies(after, q) == Copies(before, q) + Is(Held.Query(p), q) {
      CopiesUpdate(before, i, after[i], q);
    }
  }

  lemma {:induction false} NoCopies(s: seq<Slot>, q: Query)
    requires forall i :: 0 <= i < |s| ==> s[i].held.Null?
    ensures Copies(s, q) == 0
  {
    if s != [] {
      NoCopies(s[..|s| - 1], q);
    }
  }

  // ---------------------------------------------------------------- the rounds of a run

  /** The rounds of a run, the last one outermost: the buffer at the start of the round, after picking and at its
      end, the query it ran, and whether that came from the queue. */
  datatype Tale =
    | Start
    | Turn(prior: Tale, before: seq<Slot>, picked: seq<Slot>, query: Query, drawn: bool, after: seq<Slot>)

  ghost function Length(t: Tale): nat {
    if t.Start? then 0 else Length(t.prior) + 1
  }

  /** With the buffer on: pick, run, and park if aborted. */
  ghost predicate TurnOn(round: Round, t: Tale)
    requires t.Turn?
  {
    && Picked(t.before, t.picked, Held.Query(t.query), t.drawn, round.clocks, round.next)
    && Settled(t.picked, t.after, t.query, true, round)
  }

  /** With the buffer off: the next of the queue after a commit, else the last query again. */
  ghost predicate TurnOff(round: Round, t: Tale, last: Held, rc: RC)
    requires t.Turn?
  {
    && t.after == t.before && t.drawn == (rc == RCOK)
    && Held.Query(t.query) == if rc == RCOK then Held.Query(round.next) else last
  }

  /** The query that ran last, and its outcome; a thread starts as if after a commit. */
  ghost function LastQuery(t: Tale): Held {
    if t.Start? then Null else Held.Query(t.query)
  }

  ghost function LastRc(rounds: seq<Round>, t: Tale): RC
    requires Length(t) <= |rounds|
  {
    if t.Start? then RCOK else rounds[Length(t.prior)].rc
  }

  /** `s` is the buffer after these rounds. */
  ghost predicate LeftAs(t: Tale, s: seq<Slot>) {
    if t.Start? then Empty(s) else s == t.after
  }

  ghost predicate Legal(enable: bool, rounds: seq<Round>, t: Tale) {
    t.Start? ||
    (&& Legal(enable, rounds, t.prior) && Length(t.prior) < |rounds| && LeftAs(t.prior, t.before)
     && var round := rounds[Length(t.prior)];
        if enable then TurnOn(round, t) else TurnOff(round, t, LastQuery(t.prior), LastRc(rounds, t.prior)))
  }

  /** The queries taken from the queue, in order. */
  ghost function Fetched(t: Tale): seq<Query> {
    if t.Start? then [] else Fetched(t.prior) + if t.drawn then [t.query] else []
  }

  /** The queries that committed, in order. */
  ghost function Committed(rounds: seq<Round>, t: Tale): seq<Query>
    requires Length(t) <= |rounds|
  {
    if t.Start? then []
    else Committed(rounds, t.prior) + if rounds[Length(t.prior)].rc == RCOK then [t.query] else []
  }

  ghost predicate Recorded(enable: bool, rounds: seq<Round>, t: Tale, fetched: seq<Query>, committed: seq<Query>, dropped: seq<Query>) {
    && Length(t) <= |rounds| && Legal(enable, rounds, t)
    && fetched == Fetched(t) && committed == Committed(rounds, t) && |committed| == Commits(rounds, Length(t))
    && (!enable || NeverOdd(rounds) ==> dropped == [])
  }

  lemma RecordTurn(enable: bool, rounds: seq<Round>, t: Tale,
                   fetched: seq<Query>, committed: seq<Query>, dropped: seq<Query>)
    requires t.Turn? && Recorded(enable, rounds, t.prior, fetched, committed, dropped) && Length(t.prior) < |rounds|
    requires Legal(enable, rounds, t)
    ensures var round := rounds[Length(t.prior)];
            Recorded(enable, rounds, t, fetched + (if t.drawn then [t.query] else []),
                     committed + (if round.rc == RCOK then [t.query] else []),
                     dropped + if Odd(round.rc) && enable then [t.query] else [])
  {
  }

  ghost predicate AllRcok(rounds: seq<Round>, n: nat) {
    n <= |rounds| && forall k :: 0 <= k < n ==> rounds[k].rc == RCOK
  }

  /** As long as every transaction commits, the queue is run through in its order and nothing is ever parked. */
  lemma {:induction false} AllCommitted(enable: bool, rounds: seq<Round>, t: Tale)
    requires Legal(enable, rounds, t) && AllRcok(rounds, Length(t))
    ensures |Committed(rounds, t)| == Length(t) && Fetched(t) == Committed(rounds, t)
    ensures forall k :: 0 <= k < Length(t) ==> Committed(rounds, t)[k] == rounds[k].next
    ensures t.Turn? ==> Empty(t.after)
  {
    if t.Turn? {
      AllCommitted(enable, rounds, t.prior);
      var n := Length(t.prior);
      if enable {
        var k: nat :| PickedAt(t.before, t.picked, Held.Query(t.query), t.drawn, rounds[n].clocks, k, rounds[n].next);
      }
      assert t.drawn && t.query == rounds[n].next;
    }
  }

  /** `s` are the heads of the queue in the first n rounds. */
  ghost predicate InQueueOrder(rounds: seq<Round>, s: seq<Query>, n: nat) {
    |s| == n <= |rounds| && forall k :: 0 <= k < n ==> s[k] == rounds[k].next
  }

  lemma CommittedInOrder(enable: bool, rounds: seq<Round>, t: Tale)
    requires Length(t) <= |rounds| && Legal(enable, rounds, t)
    ensures AllRcok(rounds, Length(t)) ==> InQueueOrder(rounds, Committed(rounds, t), Length(t))
  {
    if AllRcok(rounds, Length(t)) { AllCommitted(enable, rounds, t); }
  }

  /** With the buffer off queries commit in the order of the queue, each before the next one is fetched. */
  lemma {:induction false} OffInOrder(rounds: seq<Round>, t: Tale)
    requires Legal(false, rounds, t) && Length(t) <= |rounds|
    ensures Fetched(t) == Committed(rounds, t) + if t.Start? || rounds[Length(t) - 1].rc == RCOK then [] else [t.query]
  {
    if t.Turn? {
      OffInOrder(rounds, t.prior);
    }
  }

  // ---------------------------------------------------------------- a query is not run again before its time

  /** With the clock at or past `now`, an entry parked at `now` waits until the penalty has passed; that is so
      exactly if the sum fits in 64 bits. */
  lemma PenaltyIsKept(q: Query, now: Time, penalty: Time)
    ensures (forall clock: Time :: clock >= now ==> (Ready(Slot(Held.Query(q), ReadyAt(now, penalty)), clock) <==> clock > now + penalty))
            <==> now + penalty <= U64_MAX
  {
    var x := Slot(Held.Query(q), ReadyAt(now, penalty));
    if now + penalty > U64_MAX {
      assert x.readyTime == now + penalty - (U64_MAX + 1) < now;
      assert Ready(x, now);
    }
  }

  /** After parking, a look at a reading up to now + penalty does not take that slot, and at a later one something
      is ready. */
  lemma ParkedNotTaken(before: seq<Slot>, after: seq<Slot>, i: nat, q: Query, now: Time, penalty: Time,
                       next: seq<Slot>, m: Held, clock: Time)
    requires ParkedIn(before, after, i, q, ReadyAt(now, penalty)) && now + penalty <= U64_MAX
    ensures TakenFrom(after, next, i, m, clock) ==> clock > now + penalty && m == Held.Query(q)
    ensures clock > now + penalty ==> Ready(after[i], clock) && !NoneReady(after, clock)
  {
    assert after[i] == Slot(Held.Query(q), now + penalty);
  }

  /** `e` is a round before `t`. */
  ghost predicate Before(e: Tale, t: Tale) {
    t.Turn? && (e == t.prior || Before(e, t.prior))
  }

  /** Round `e` aborted and slot x carries its query and the ready time it set. */
  ghost predicate ParkedBy(rounds: seq<Round>, e: Tale, x: Slot) {
    e.Turn? && Length(e) <= |rounds| &&
    var round := rounds[Length(e) - 1];
    round.rc == Abort && x == Slot(Held.Query(e.query), ReadyAt(round.now, round.penalty))
  }

  // A slot that holds a query after a round held it before, or the round put it there.
  lemma AbortsFill(round: Round, t: Tale, i: nat)
    requires t.Turn? && TurnOn(round, t) && i < |t.after| && t.after[i].held.Query?
    ensures i < |t.before|
    ensures t.after[i] != t.before[i] ==>
              round.rc == Abort && t.after[i] == Slot(Held.Query(t.query), ReadyAt(round.now, round.penalty))
  {
    var c: nat :| PickedAt(t.before, t.picked, Held.Query(t.query), t.drawn, round.clocks, c, round.next);
  }

  /** Every query in the buffer when a round begins was put there by an earlier round that aborted. */
  lemma {:induction false} SlotsComeFromAborts(rounds: seq<Round>, t: Tale, i: nat) returns (e: Tale)
    requires t.Turn? && Legal(true, rounds, t) && i < |t.before| && t.before[i].held.Query?
    ensures Before(e, t) && ParkedBy(rounds, e, t.before[i])
    decreases t
  {
    e := t.prior;
    AbortsFill(rounds[Length(e.prior)], e, i);
    if e.after[i] == e.before[i] {
      e := SlotsComeFromAborts(rounds, t.prior, i);
    }
  }

  /** A round that does not take a new query runs one that aborted in an earlier round and was parked then,
      and it read a clock past that round's ready time. */
  lemma RetryAfterPenalty(rounds: seq<Round>, t: Tale) returns (e: Tale, clock: Time)
    requires t.Turn? && Legal(true, rounds, t) && Length(t) <= |rounds| && !t.drawn
    ensures Before(e, t) && e.Turn? && e.query == t.query && Length(e) <= |rounds| && rounds[Length(e) - 1].rc == Abort
    ensures clock in rounds[Length(t) - 1].clocks
    ensures clock > ReadyAt(rounds[Length(e) - 1].now, rounds[Length(e) - 1].penalty)
  {
    var round := rounds[Length(t) - 1];
    var c: nat :| PickedAt(t.before, t.picked, Held.Query(t.query), t.drawn, round.clocks, c, round.next);
    var i: nat :| TakenFrom(t.before, t.picked, i, Held.Query(t.query), round.clocks[c]);
    e := SlotsComeFromAborts(rounds, t, i);
    clock := round.clocks[c];
  }
}
