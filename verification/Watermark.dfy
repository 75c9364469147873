/** Timestamps and the watermark (instance/manager_instance.cpp, instance/thread.cpp) under every interleaving. */
module Watermark {
  import opened Bytes

  /** A thread between transactions, half way through get_next_ts, with a timestamp, with it recorded. */
  datatype Phase = Idle | Once | Got(ts: nat) | Running(ts: nat)

  /** A GetMinTs call: slots below `at` are done; `seen` is the value that passed the comparison.
      `trusted` and `before` are history: nothing was hidden at the start, and how many calls had returned. */
  datatype Scan = NoScan | At(at: nat, min: nat, seen: nat, taking: bool, trusted: bool, before: nat)

  datatype Result = Result(value: nat, trusted: bool, before: nat)

  datatype State = State(next: nat, allTs: seq<nat>, phase: seq<Phase>, scan: seq<Scan>, log: seq<Result>)

  datatype Event =
    | FetchOnce(t: nat) | FetchTwice(t: nat) | AddTs(t: nat) | End(t: nat)
    | Start(t: nat) | Compare(t: nat) | Return(t: nat)
    | Assign(t: nat)                 // the assignment reads the slot again
    | Keep(t: nat)                   // or a build that loads the slot once assigns what it compared

  function Init(n: nat): State {
    State(1, seq(n, _ => U64_MAX), seq(n, _ => Idle), seq(n, _ => NoScan), [])
  }

  predicate Sized(s: State) {
    |s.allTs| == |s.phase| == |s.scan|
  }

  predicate Enabled(s: State, e: Event)
    requires Sized(s)
  {
    e.t < |s.phase| &&
    match e
    case FetchOnce(t) => s.phase[t].Idle? && s.next < U64_MAX
    case FetchTwice(t) => s.phase[t].Once? && s.next < U64_MAX
    case AddTs(t) => s.phase[t].Got?
    case End(t) => s.phase[t].Running? && s.scan[t].NoScan?
    case Start(t) => s.phase[t].Running? && s.scan[t].NoScan?
    case Compare(t) => s.scan[t].At? && !s.scan[t].taking && s.scan[t].at < |s.allTs|
    case Assign(t) => s.scan[t].At? && s.scan[t].taking && s.scan[t].at < |s.allTs|
    case Keep(t) => s.scan[t].At? && s.scan[t].taking
    case Return(t) => s.scan[t].At? && !s.scan[t].taking && s.scan[t].at == |s.allTs|
  }

  /** No thread has a first timestamp below c that it has not yet recorded. */
  predicate NoneHidden(s: State, c: nat)
    requires Sized(s)
  {
    forall u :: 0 <= u < |s.phase| && s.phase[u].Got? && s.allTs[u] == U64_MAX ==> s.phase[u].ts > c
  }

  function Next(s: State, e: Event): (r: State)
    requires Sized(s) && Enabled(s, e)
    ensures Sized(r) && |r.phase| == |s.phase|
  {
    match e
    case FetchOnce(t) => s.(next := s.next + 1, phase := s.phase[t := Once])
    case FetchTwice(t) => s.(next := s.next + 1, phase := s.phase[t := Got(s.next)])
    case AddTs(t) => s.(allTs := s.allTs[t := s.phase[t].ts], phase := s.phase[t := Running(s.phase[t].ts)])
    case End(t) => s.(phase := s.phase[t := Idle])
    case Start(t) => s.(scan := s.scan[t := At(0, U64_MAX, 0, false, NoneHidden(s, s.phase[t].ts), |s.log|)])
    case Compare(t) => s.(scan := s.scan[t := Look(s.scan[t], s.allTs)])
    case Assign(t) => s.(scan := s.scan[t := Take(s.scan[t], s.allTs)])
    case Keep(t) => s.(scan := s.scan[t := s.scan[t].(taking := false, at := s.scan[t].at + 1, min := s.scan[t].seen)])
    case Return(t) =>
      var c := s.scan[t];
      s.(scan := s.scan[t := NoScan], log := s.log + [Result(c.min, c.trusted, c.before)])
  }

  /** The comparison. */
  function Look(c: Scan, allTs: seq<nat>): Scan
    requires c.At? && c.at < |allTs|
  {
    if c.min > allTs[c.at] then c.(taking := true, seen := allTs[c.at]) else c.(at := c.at + 1)
  }

  /** The assignment reads the slot again. */
  function Take(c: Scan, allTs: seq<nat>): Scan
    requires c.At? && c.at < |allTs|
  {
    c.(taking := false, at := c.at + 1, min := allTs[c.at])
  }

  // ---------------------------------------------------------------- runs

  ghost predicate IsRun(s: State, es: seq<Event>)
    requires Sized(s)
    decreases |es|
  {
    es == [] || (Enabled(s, es[0]) && IsRun(Next(s, es[0]), es[1..]))
  }

  ghost function Final(s: State, es: seq<Event>): (r: State)
    requires Sized(s) && IsRun(s, es)
    ensures Sized(r) && |r.phase| == |s.phase|
    decreases |es|
  {
    if es == [] then s else Final(Next(s, es[0]), es[1..])
  }

  // ---------------------------------------------------------------- what holds in every state

  /** No timestamp that thread u has, or will ever get, is below this. */
  ghost function Floor(s: State, u: nat): nat
    requires Sized(s) && u < |s.phase|
  {
    if s.allTs[u] != U64_MAX then s.allTs[u] else if s.phase[u].Got? then s.phase[u].ts else s.next
  }

  ghost predicate ClockOk(s: State, u: nat)
    requires Sized(s) && u < |s.phase|
  {
    && s.next <= U64_MAX && (s.allTs[u] == U64_MAX || s.allTs[u] < s.next)
    && match s.phase[u]
       case Idle => true
       case Once => true
       case Got(ts) => ts < s.next && (s.allTs[u] == U64_MAX || s.allTs[u] < ts)
       case Running(ts) => ts < s.next && s.allTs[u] == ts
  }

  /** No timestamp is given out twice. */
  ghost predicate Unique(s: State, u: nat, v: nat)
    requires Sized(s) && u < |s.phase| && v < |s.phase|
  {
    && (s.allTs[u] == s.allTs[v] ==> s.allTs[u] == U64_MAX)
    && (s.phase[u].Got? ==> s.phase[u].ts != s.allTs[v])
    && (s.phase[u].Got? && s.phase[v].Got? ==> s.phase[u].ts != s.phase[v].ts)
  }

  ghost predicate Clock(s: State) {
    && Sized(s)
    && (forall u :: 0 <= u < |s.phase| ==> ClockOk(s, u))
    && (forall u, v :: 0 <= u < |s.phase| && 0 <= v < |s.phase| && u != v ==> Unique(s, u, v))
  }

  /** The running minimum is below every slot passed, unless that thread started after the caller. */
  ghost predicate Low(s: State, t: nat)
    requires Sized(s) && t < |s.phase| && s.scan[t].At? && s.phase[t].Running?
  {
    forall u :: 0 <= u < s.scan[t].at && u < |s.phase| ==> s.scan[t].min <= Floor(s, u) || Floor(s, u) > s.phase[t].ts
  }

  ghost predicate ScanOk(s: State, t: nat)
    requires Sized(s) && t < |s.phase|
  {
    var c := s.scan[t];
    c.At? ==>
      && s.phase[t].Running? && c.at <= |s.phase| && c.before <= |s.log| && c.min <= U64_MAX
      && (c.taking ==> c.at < |s.phase| && c.seen < c.min && c.seen <= s.allTs[c.at] != U64_MAX)
      && (forall d :: 0 <= d < c.before && s.log[d].trusted ==> s.log[d].value <= c.min && (c.taking ==> s.log[d].value <= c.seen))
      && (c.trusted ==> Low(s, t) && forall u :: 0 <= u < |s.phase| && s.allTs[u] == U64_MAX ==> Floor(s, u) > s.phase[t].ts)
  }

  /** A trusted result stays below everything that runs or will run. */
  ghost predicate Safe(s: State, r: Result)
    requires Sized(s)
  {
    r.value <= U64_MAX && (r.trusted ==> forall u :: 0 <= u < |s.phase| ==> r.value <= Floor(s, u))
  }

  /** Call e started after call d had returned, and got no less. */
  ghost predicate Ordered(log: seq<Result>) {
    && (forall e :: 0 <= e < |log| ==> log[e].before <= e)
    && (forall e, d :: 0 <= e < |log| && 0 <= d < log[e].before && d < |log| && log[d].trusted ==> log[d].value <= log[e].value)
  }

  ghost predicate Inv(s: State) {
    && Clock(s)
    && (forall t :: 0 <= t < |s.phase| ==> ScanOk(s, t))
    && (forall d :: 0 <= d < |s.log| ==> Safe(s, s.log[d]))
    && Ordered(s.log)
  }

  /** The second read comes back above a slot already passed: the slot was overwritten in between. */
  ghost predicate Overtaken(s: State, e: Event)
    requires Sized(s) && Enabled(s, e)
  {
    e.Assign? && s.scan[e.t].trusted && s.phase[e.t].Running? &&
    exists u :: 0 <= u < s.scan[e.t].at && s.allTs[s.scan[e.t].at] > Floor(s, u) && Floor(s, u) <= s.phase[e.t].ts
  }

  ghost predicate NeverOvertaken(s: State, es: seq<Event>)
    requires Sized(s) && IsRun(s, es)
    decreases |es|
  {
    es == [] || (!Overtaken(s, es[0]) && NeverOvertaken(Next(s, es[0]), es[1..]))
  }

  // ---------------------------------------------------------------- one step

  lemma FloorGrows(s: State, e: Event, u: nat)
    requires Clock(s) && Enabled(s, e) && u < |s.phase|
    ensures Floor(Next(s, e), u) >= Floor(s, u)
    ensures Next(s, e).allTs[u] == U64_MAX ==> s.allTs[u] == U64_MAX
    ensures s.allTs[u] != U64_MAX ==> s.allTs[u] <= Next(s, e).allTs[u] != U64_MAX
  {
    assert ClockOk(s, u);
  }

  lemma ClockOkKept(s: State, e: Event, u: nat)
    requires Clock(s) && Enabled(s, e) && u < |s.phase|
    ensures ClockOk(Next(s, e), u)
  {
    assert ClockOk(s, u);
  }

  lemma UniqueKept(s: State, e: Event, u: nat, v: nat)
    requires Clock(s) && Enabled(s, e) && u < |s.phase| && v < |s.phase| && u != v
    ensures Unique(Next(s, e), u, v)
  {
    assert ClockOk(s, u) && ClockOk(s, v) && Unique(s, u, v) && Unique(s, v, u);
  }

  lemma ClockKept(s: State, e: Event)
    requires Clock(s) && Enabled(s, e)
    ensures Clock(Next(s, e))
  {
    var r := Next(s, e);
    forall u | 0 <= u < |r.phase| ensures ClockOk(r, u) {
      ClockOkKept(s, e, u);
    }
    forall u, v | 0 <= u < |r.phase| && 0 <= v < |r.phase| && u != v ensures Unique(r, u, v) {
      UniqueKept(s, e, u, v);
    }
  }

  /** A call in progress is not disturbed by what others do. */
  lemma OtherScanKept(s: State, e: Event, t: nat)
    requires Inv(s) && Enabled(s, e) && t < |s.phase| && (e.t != t || e.FetchOnce? || e.FetchTwice? || e.AddTs? || e.End?)
    ensures ScanOk(Next(s, e), t)
  {
    var r := Next(s, e);
    assert ScanOk(s, t) && ClockOk(s, t);
    if s.scan[t].At? {
      forall u | 0 <= u < |s.phase| ensures Floor(r, u) >= Floor(s, u) && (r.allTs[u] == U64_MAX ==> s.allTs[u] == U64_MAX) {
        FloorGrows(s, e, u);
      }
      if s.scan[t].taking { FloorGrows(s, e, s.scan[t].at); }
      assert forall d :: 0 <= d < |s.log| ==> r.log[d] == s.log[d];
    }
  }

  lemma StartKept(s: State, t: nat)
    requires Inv(s) && Enabled(s, Start(t))
    ensures ScanOk(Next(s, Start(t)), t)
  {
    var r := Next(s, Start(t));
    forall u | 0 <= u < |s.phase| && s.allTs[u] == U64_MAX && r.scan[t].trusted ensures Floor(r, u) > s.phase[t].ts {
      assert ClockOk(s, u) && ClockOk(s, t);
    }
    forall d | 0 <= d < |s.log| ensures s.log[d].value <= U64_MAX {
      assert Safe(s, s.log[d]);
    }
  }

  lemma CompareKept(s: State, t: nat)
    requires Inv(s) && Enabled(s, Compare(t))
    ensures ScanOk(Next(s, Compare(t)), t)
  {
    assert ScanOk(s, t);
    var r, c := Next(s, Compare(t)), s.scan[t];
    forall u | 0 <= u < |s.phase| ensures Floor(r, u) == Floor(s, u) {
    }
    forall d | 0 <= d < c.before && s.log[d].trusted ensures s.log[d].value <= Floor(s, c.at) {
      assert Safe(s, s.log[d]);
    }
  }

  lemma KeepKept(s: State, t: nat)
    requires Inv(s) && Enabled(s, Keep(t))
    ensures ScanOk(Next(s, Keep(t)), t)
  {
    assert ScanOk(s, t) && ClockOk(s, s.scan[t].at);
    var r := Next(s, Keep(t));
    forall u | 0 <= u < |s.phase| ensures Floor(r, u) == Floor(s, u) {
    }
  }

  // After the assignment the minimum is low unless the second read was overtaken.
  lemma AssignExact(s: State, t: nat)
    requires Inv(s) && Enabled(s, Assign(t)) && s.scan[t].trusted
    ensures ScanOk(s, t) && (Low(Next(s, Assign(t)), t) <==> !Overtaken(s, Assign(t)))
  {
    assert ScanOk(s, t);
    var r, c := Next(s, Assign(t)), s.scan[t];
    forall u | 0 <= u < |s.phase| ensures Floor(r, u) == Floor(s, u) {
    }
  }

  lemma AssignKept(s: State, t: nat)
    requires Inv(s) && Enabled(s, Assign(t)) && !Overtaken(s, Assign(t))
    ensures ScanOk(Next(s, Assign(t)), t)
  {
    assert ScanOk(s, t) && ClockOk(s, s.scan[t].at);
    var r, c := Next(s, Assign(t)), s.scan[t];
    forall u | 0 <= u < |s.phase| ensures Floor(r, u) == Floor(s, u) {
    }
    forall d | 0 <= d < c.before && s.log[d].trusted ensures s.log[d].value <= s.allTs[c.at] {
      assert Safe(s, s.log[d]) && s.log[d].value <= Floor(s, c.at);
    }
    if c.trusted {
      AssignExact(s, t);
    }
  }

  /** One load instead of two: the value compared is the value assigned. */
  lemma OneLoadIsEnough(s: State, t: nat)
    requires Inv(s) && Enabled(s, Assign(t)) && s.allTs[s.scan[t].at] == s.scan[t].seen
    ensures !Overtaken(s, Assign(t))
  {
    assert ScanOk(s, t);
  }

  lemma ReturnSafe(s: State, t: nat)
    requires Inv(s) && Enabled(s, Return(t))
    ensures var c := s.scan[t]; Safe(s, Result(c.min, c.trusted, c.before))
  {
    assert ScanOk(s, t) && ClockOk(s, t);
    if s.scan[t].trusted {
      assert Floor(s, t) == s.phase[t].ts;
      assert s.scan[t].min <= s.phase[t].ts;
    }
  }

  lemma LogKept(s: State, e: Event)
    requires Inv(s) && Enabled(s, e)
    ensures var r := Next(s, e); (forall d :: 0 <= d < |r.log| ==> Safe(r, r.log[d])) && Ordered(r.log)
  {
    var r := Next(s, e);
    if e.Return? {
      ReturnSafe(s, e.t);
      assert ScanOk(s, e.t);
    }
    forall d | 0 <= d < |r.log| ensures Safe(r, r.log[d]) {
      assert Safe(s, r.log[d]);
      forall u | 0 <= u < |s.phase| ensures Floor(r, u) >= Floor(s, u) {
        FloorGrows(s, e, u);
      }
    }
  }

  lemma InvKept(s: State, e: Event)
    requires Inv(s) && Enabled(s, e) && !Overtaken(s, e)
    ensures Inv(Next(s, e))
  {
    ClockKept(s, e);
    LogKept(s, e);
    forall t | 0 <= t < |s.phase| ensures ScanOk(Next(s, e), t) {
      if e == Start(t) {
        StartKept(s, t);
      } else if e == Compare(t) {
        CompareKept(s, t);
      } else if e == Assign(t) {
        AssignKept(s, t);
      } else if e == Keep(t) {
        KeepKept(s, t);
      } else if e != Return(t) {
        OtherScanKept(s, e, t);
      }
    }
  }

  lemma {:induction false} RunInv(s: State, es: seq<Event>)
    requires Inv(s) && IsRun(s, es) && NeverOvertaken(s, es)
    ensures Inv(Final(s, es))
    decreases |es|
  {
    if es != [] {
      InvKept(s, es[0]);
      RunInv(Next(s, es[0]), es[1..]);
    }
  }

  /** The timestamp of the transaction thread u is in, recorded or not. */
  ghost predicate Has(s: State, u: nat, ts: nat) {
    Sized(s) && u < |s.phase| && (s.phase[u] == Got(ts) || s.phase[u] == Running(ts))
  }

  /** In every state of every run: a watermark taken when no first timestamp below the caller's was unrecorded
      - so in particular once all threads have recorded one - exceeds no timestamp now in use or still to come,
      a later call never returns less, and no two transactions have the same timestamp. */
  lemma WatermarkIsSafe(n: nat, es: seq<Event>)
    requires IsRun(Init(n), es) && NeverOvertaken(Init(n), es)
    ensures var s := Final(Init(n), es);
            && (forall d, u, ts :: 0 <= d < |s.log| && s.log[d].trusted && Has(s, u, ts) ==> s.log[d].value <= ts)
            && (forall d :: 0 <= d < |s.log| && s.log[d].trusted && n > 0 ==> s.log[d].value <= s.next)
            && Ordered(s.log)
            && (forall u, v, ts :: Has(s, u, ts) && Has(s, v, ts) ==> u == v)
  {
    RunInv(Init(n), es);
    var s := Final(Init(n), es);
    forall d, u, ts | 0 <= d < |s.log| && s.log[d].trusted && Has(s, u, ts) ensures s.log[d].value <= ts {
      assert Safe(s, s.log[d]) && ClockOk(s, u) && s.log[d].value <= Floor(s, u);
    }
    forall d | 0 <= d < |s.log| && s.log[d].trusted && n > 0 ensures s.log[d].value <= s.next {
      assert Safe(s, s.log[d]) && ClockOk(s, 0) && s.log[d].value <= Floor(s, 0);
    }
    forall u, v, ts | Has(s, u, ts) && Has(s, v, ts) ensures u == v {
      assert ClockOk(s, u) && ClockOk(s, v);
      assert u == v || (Unique(s, u, v) && Unique(s, v, u));
    }
  }

  // ---------------------------------------------------------------- where it fails

  lemma {:induction false} Extend(s: State, es: seq<Event>, e: Event)
    requires Sized(s) && IsRun(s, es) && Enabled(Final(s, es), e)
    ensures IsRun(s, es + [e]) && Final(s, es + [e]) == Next(Final(s, es), e)
    decreases |es|
  {
    var all := es + [e];
    if es == [] {
      assert all[1..] == [] && all[0] == e;
    } else {
      Extend(Next(s, es[0]), es[1..], e);
      assert all[1..] == es[1..] + [e] && all[0] == es[0];
    }
  }

  /** Both threads have begun: thread `a` with timestamp 2, then thread `b` with 4, which is recorded. */
  lemma TwoThreads(a: nat, b: nat) returns (es: seq<Event>)
    requires a < 2 && b == 1 - a
    ensures IsRun(Init(2), es)
    ensures var s := Final(Init(2), es);
            s.next == 5 && s.phase[a] == Got(2) && s.phase[b] == Running(4) && s.log == [] && s.scan == [NoScan, NoScan]
            && s.allTs[a] == U64_MAX && s.allTs[b] == 4
  {
    Extend(Init(2), [], FetchOnce(a));
    Extend(Init(2), [FetchOnce(a)], FetchTwice(a));
    es := [FetchOnce(a)] + [FetchTwice(a)];
    Extend(Init(2), es, FetchOnce(b));
    es := es + [FetchOnce(b)];
    Extend(Init(2), es, FetchTwice(b));
    es := es + [FetchTwice(b)];
    Extend(Init(2), es, AddTs(b));
    es := es + [AddTs(b)];
  }

  /** A call made while thread 0 sits on an unrecorded timestamp returns more than that timestamp. */
  lemma EarlyCall() returns (es: seq<Event>)
    ensures IsRun(Init(2), es)
    ensures var s := Final(Init(2), es); s.log == [Result(4, false, 0)] && Has(s, 0, 2)
  {
    es := TwoThreads(0, 1);
    Extend(Init(2), es, Start(1));
    es := es + [Start(1)];
    Extend(Init(2), es, Compare(1));
    es := es + [Compare(1)];
    Extend(Init(2), es, Compare(1));
    es := es + [Compare(1)];
    Extend(Init(2), es, Assign(1));
    es := es + [Assign(1)];
    Extend(Init(2), es, Return(1));
    es := es + [Return(1)];
  }

  /** Everything recorded, the caller half way: slot 0 holds the caller's 4, slot 1 compared at 2. */
  lemma HalfWay() returns (es: seq<Event>)
    ensures IsRun(Init(2), es)
    ensures var s := Final(Init(2), es);
            s.next == 5 && s.phase == [Running(4), Running(2)] && s.allTs == [4, 2] && s.log == []
            && s.scan == [At(1, 4, 2, true, true, 0), NoScan]
  {
    es := TwoThreads(1, 0);
    Extend(Init(2), es, AddTs(1));
    es := es + [AddTs(1)];
    Extend(Init(2), es, Start(0));
    es := es + [Start(0)];
    Extend(Init(2), es, Compare(0));
    es := es + [Compare(0)];
    Extend(Init(2), es, Assign(0));
    es := es + [Assign(0)];
    Extend(Init(2), es, Compare(0));
    es := es + [Compare(0)];
  }

  /** Thread 1 commits and begins again between the two reads: the call returns 6 while its own thread runs at 4. */
  lemma SecondRead() returns (es: seq<Event>)
    ensures IsRun(Init(2), es)
    ensures var s := Final(Init(2), es); s.log == [Result(6, true, 0)] && Has(s, 0, 4)
  {
    es := HalfWay();
    Extend(Init(2), es, End(1));
    es := es + [End(1)];
    Extend(Init(2), es, FetchOnce(1));
    es := es + [FetchOnce(1)];
    Extend(Init(2), es, FetchTwice(1));
    es := es + [FetchTwice(1)];
    Extend(Init(2), es, AddTs(1));
    es := es + [AddTs(1)];
    Extend(Init(2), es, Assign(0));
    es := es + [Assign(0)];
    Extend(Init(2), es, Return(0));
    es := es + [Return(0)];
  }

  // ---------------------------------------------------------------- one call on its own

  /** The least of the first k slots. */
  function MinOf(a: seq<nat>, k: nat): nat
    requires k <= |a|
  {
    if k == 0 then U64_MAX else if a[k - 1] < MinOf(a, k - 1) then a[k - 1] else MinOf(a, k - 1)
  }

  lemma {:induction false} MinOfIsLeast(a: seq<nat>, k: nat)
    requires k <= |a|
    ensures forall i :: 0 <= i < k ==> MinOf(a, k) <= a[i]
    ensures MinOf(a, k) == U64_MAX || exists i :: 0 <= i < k && MinOf(a, k) == a[i]
  {
    if k > 0 {
      MinOfIsLeast(a, k - 1);
    }
  }

  /** With nobody in between, the steps of a call add up to the least slot. */
  lemma AloneIsMin(c: Scan, allTs: seq<nat>)
    requires c.At? && c.at < |allTs| && !c.taking && c.min == MinOf(allTs, c.at)
    ensures var l := Look(c, allTs); var d := if l.taking then Take(l, allTs) else l;
            d.at == c.at + 1 && !d.taking && d.min == MinOf(allTs, c.at + 1)
  {
  }

  /** What such a call returns is safe if and only if no unrecorded timestamp lies below the least recorded one. */
  lemma AloneExact(s: State, t: nat)
    requires Clock(s) && t < |s.phase| && s.phase[t].Running?
    ensures var m := MinOf(s.allTs, |s.allTs|);
            (forall u :: 0 <= u < |s.phase| ==> m <= Floor(s, u)) <==>
            (forall u :: 0 <= u < |s.phase| && s.phase[u].Got? && s.allTs[u] == U64_MAX ==> m <= s.phase[u].ts)
  {
    var m := MinOf(s.allTs, |s.allTs|);
    MinOfIsLeast(s.allTs, |s.allTs|);
    assert ClockOk(s, t) && m <= s.allTs[t] < s.next;
    forall u | 0 <= u < |s.phase| && s.phase[u].Got? && s.allTs[u] == U64_MAX ensures Floor(s, u) == s.phase[u].ts {
    }
  }

  class ManagerInstance {
    var timestamp: nat
    const allTs: array<nat>

    constructor (threads: nat)
      ensures timestamp == 1 && fresh(allTs) && allTs.Length == threads && forall i :: 0 <= i < threads ==> allTs[i] == U64_MAX
    {
      timestamp := 1;
      allTs := new nat[threads](_ => U64_MAX);
    }

    /** fetch_add */
    method GetNextTs() returns (ts: nat)
      modifies `timestamp
      ensures ts == old(timestamp) && timestamp == old(timestamp) + 1
    {
      ts := timestamp;
      timestamp := timestamp + 1;
    }

    /** thread_t::get_next_ts throws the first number away. */
    method NextTsOfThread() returns (ts: nat)
      modifies `timestamp
      ensures ts == old(timestamp) + 1 && timestamp == old(timestamp) + 2
    {
      var unused := GetNextTs();
      ts := GetNextTs();
    }

    method AddTs(thread: nat, ts: nat)
      requires thread < allTs.Length
      modifies allTs
      ensures allTs[..] == old(allTs[..])[thread := ts]
    {
      allTs[thread] := ts;
    }

    method GetMinTs() returns (min: nat)
      ensures min == MinOf(allTs[..], allTs.Length)
      ensures forall i :: 0 <= i < allTs.Length ==> min <= allTs[i]
      ensures min == U64_MAX || exists i :: 0 <= i < allTs.Length && min == allTs[i]
    {
      min := U64_MAX;
      for thread := 0 to allTs.Length
        invariant min == MinOf(allTs[..], thread)
      {
        if min > allTs[thread] {
          min := allTs[thread];
        }
      }
      MinOfIsLeast(allTs[..], allTs.Length);
    }
  }
}
