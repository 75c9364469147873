/**
  Exactly which steps make the watermark unsafe. A step is hazardous if it starts a call while a
  first timestamp below the caller's is unrecorded, or if it is an assignment whose second read
  comes back above a slot already passed. Runs without such steps are safe; and after any of them
  one hazardous step is enough for some continuation without further hazards to go wrong.
*/
module WatermarkExact {
  import opened Bytes
  import opened Watermark

  /** What GetMinTs is for, said of all calls: no result is above a timestamp in use, and a call
      that starts after another has returned gets no less. */
  ghost predicate Good(s: State) {
    && (forall d, u, ts :: 0 <= d < |s.log| && Has(s, u, ts) ==> s.log[d].value <= ts)
    && (forall e, d :: 0 <= e < |s.log| && 0 <= d < s.log[e].before && d < |s.log| ==> s.log[d].value <= s.log[e].value)
  }

  ghost predicate Hazard(s: State, e: Event)
    requires Sized(s) && Enabled(s, e)
  {
    if e.Start? then !NoneHidden(s, s.phase[e.t].ts) else Overtaken(s, e)
  }

  ghost predicate CleanRun(s: State, es: seq<Event>)
    requires Sized(s)
    decreases |es|
  {
    es == [] || (Enabled(s, es[0]) && !Hazard(s, es[0]) && CleanRun(Next(s, es[0]), es[1..]))
  }

  ghost function CleanFinal(s: State, es: seq<Event>): (r: State)
    requires Sized(s) && CleanRun(s, es)
    ensures Sized(r) && |r.phase| == |s.phase|
    decreases |es|
  {
    if es == [] then s else CleanFinal(Next(s, es[0]), es[1..])
  }

  /** No continuation without hazardous steps ever goes wrong. */
  ghost predicate SafeFrom(s: State)
    requires Sized(s)
  {
    forall es :: CleanRun(s, es) ==> Good(CleanFinal(s, es))
  }

  // ---------------------------------------------------------------- without hazards

  /** In a run without hazards every call is trusted. */
  ghost predicate AllTrusted(s: State) {
    && (forall t :: 0 <= t < |s.scan| && s.scan[t].At? ==> s.scan[t].trusted)
    && (forall d :: 0 <= d < |s.log| ==> s.log[d].trusted)
  }

  ghost predicate CleanInv(s: State) {
    Inv(s) && AllTrusted(s)
  }

  lemma InitClean(n: nat)
    ensures CleanInv(Init(n))
  {
  }

  lemma CleanInvKept(s: State, e: Event)
    requires CleanInv(s) && Enabled(s, e) && !Hazard(s, e)
    ensures CleanInv(Next(s, e))
  {
    InvKept(s, e);
  }

  lemma CleanInvGood(s: State)
    requires CleanInv(s)
    ensures Good(s)
  {
    forall d, u, ts | 0 <= d < |s.log| && Has(s, u, ts) ensures s.log[d].value <= ts {
      assert Safe(s, s.log[d]) && ClockOk(s, u) && s.log[d].value <= Floor(s, u);
    }
  }

  lemma {:induction false} CleanRunInv(s: State, es: seq<Event>)
    requires CleanInv(s) && CleanRun(s, es)
    ensures CleanInv(CleanFinal(s, es))
    decreases |es|
  {
    if es != [] {
      CleanInvKept(s, es[0]);
      CleanRunInv(Next(s, es[0]), es[1..]);
    }
  }

  lemma CleanInvSafe(s: State)
    requires CleanInv(s)
    ensures SafeFrom(s)
  {
    forall es | CleanRun(s, es) ensures Good(CleanFinal(s, es)) {
      CleanRunInv(s, es);
      CleanInvGood(CleanFinal(s, es));
    }
  }

  // ---------------------------------------------------------------- how a hazard shows

  lemma BadNow(s: State)
    requires Sized(s) && !Good(s)
    ensures !SafeFrom(s)
  {
    assert CleanRun(s, []);
  }

  lemma BadAfter(s: State, e: Event)
    requires Sized(s) && Enabled(s, e) && !Hazard(s, e) && !SafeFrom(Next(s, e))
    ensures !SafeFrom(s)
  {
    var s' := Next(s, e);
    var es :| CleanRun(s', es) && !Good(CleanFinal(s', es));
    var all := [e] + es;
    assert all[1..] == es;
    assert CleanRun(s, all);
  }

  ghost predicate ShapeOk(s: State, t: nat)
    requires Sized(s) && t < |s.phase|
  {
    s.scan[t].At? ==> s.phase[t].Running? && s.scan[t].at <= |s.phase| && (s.scan[t].taking ==> s.scan[t].at < |s.phase|)
  }

  /** Timestamps as always, and calls only in transactions. */
  ghost predicate Shaped(s: State) {
    Clock(s) && forall t :: 0 <= t < |s.phase| ==> ShapeOk(s, t)
  }

  lemma ShapedKept(s: State, e: Event)
    requires Shaped(s) && Enabled(s, e)
    ensures Shaped(Next(s, e))
  {
    ClockKept(s, e);
    var r := Next(s, e);
    forall t | 0 <= t < |r.phase| ensures ShapeOk(r, t) {
      assert ShapeOk(s, t) && ShapeOk(s, e.t);
    }
  }

  /** Thread u will show that a result of t above f was too large: f is its first timestamp and not
      recorded yet, or f is recorded and t can call again. */
  ghost predicate Witness(s: State, t: nat, u: nat, f: nat, hidden: bool)
    requires Sized(s) && t < |s.phase| && u < |s.phase| && s.phase[t].Running?
  {
    && f <= s.phase[t].ts
    && if hidden then u != t && s.phase[u] == Got(f) && s.allTs[u] == U64_MAX
       else s.allTs[u] == f && NoneHidden(s, s.phase[t].ts)
  }

  /** The call of t is about to return more than f, as far as slots below k go. */
  ghost predicate Trap(s: State, t: nat, u: nat, f: nat, hidden: bool, k: nat) {
    && Shaped(s) && t < |s.phase| && u < |s.phase| && k <= |s.phase| && s.scan[t].At? && s.phase[t].Running?
    && Witness(s, t, u, f, hidden)
    && var c := s.scan[t];
       && c.min > f && (c.taking ==> c.seen > f) && c.at <= k
       && (!hidden ==> u < c.at)
       && (c.at <= t ==> s.allTs[t] > f)
       && forall j :: c.at <= j < k ==> s.allTs[j] > f
  }

  // The second call passes u's slot, so it returns f or less.
  ghost predicate Second(s: State, t: nat, u: nat, f: nat) {
    && Shaped(s) && t < |s.phase| && u < |s.phase| && s.scan[t].At? && s.allTs[u] == f
    && var c := s.scan[t];
       && |s.log| > 0 && c.before == |s.log| && s.log[|s.log| - 1].value > f
       && (u < c.at ==> c.min <= f) && (c.taking ==> c.seen <= c.min && (c.at == u ==> c.seen <= f))
  }

  ghost function ScanRank(s: State, t: nat): nat
    requires Shaped(s) && t < |s.phase| && s.scan[t].At?
  {
    assert ShapeOk(s, t);
    2 * (|s.phase| - s.scan[t].at) + if s.scan[t].taking then 0 else 1
  }

  lemma {:induction false} SecondUnsafe(s: State, t: nat, u: nat, f: nat)
    requires Second(s, t, u, f)
    ensures !SafeFrom(s)
    decreases ScanRank(s, t)
  {
    assert ShapeOk(s, t);
    var c := s.scan[t];
    if !c.taking && c.at == |s.phase| {
      var r := Next(s, Return(t));
      assert r.log[|s.log|].before == |s.log| && r.log[|s.log| - 1].value > r.log[|s.log|].value;
      BadNow(r);
      BadAfter(s, Return(t));
    } else {
      var e := if c.taking then Keep(t) else Compare(t);
      ShapedKept(s, e);
      SecondUnsafe(Next(s, e), t, u, f);
      BadAfter(s, e);
    }
  }

  // The first call returned more than f.
  lemma ReturnedUnsafe(s: State, t: nat, u: nat, f: nat, hidden: bool)
    requires Shaped(s) && t < |s.phase| && u < |s.phase| && s.phase[t].Running? && s.scan[t].NoScan?
    requires Witness(s, t, u, f, hidden) && |s.log| > 0 && s.log[|s.log| - 1].value > f
    ensures !SafeFrom(s)
  {
    var e := if hidden then AddTs(u) else Start(t);
    ShapedKept(s, e);
    var r := Next(s, e);
    if hidden {
      assert Has(r, u, f) && r.log[|r.log| - 1].value > f;
      BadNow(r);
    } else {
      SecondUnsafe(r, t, u, f);
    }
    BadAfter(s, e);
  }

  // Nothing ahead of the first call is f or less any more.
  lemma {:induction false} ScanUnsafe(s: State, t: nat, u: nat, f: nat, hidden: bool)
    requires Trap(s, t, u, f, hidden, |s.phase|)
    ensures !SafeFrom(s)
    decreases ScanRank(s, t)
  {
    assert ShapeOk(s, t);
    var c := s.scan[t];
    var e := if c.taking then Keep(t) else if c.at < |s.phase| then Compare(t) else Return(t);
    ShapedKept(s, e);
    if e.Return? {
      ReturnedUnsafe(Next(s, e), t, u, f, hidden);
    } else {
      ScanUnsafe(Next(s, e), t, u, f, hidden);
    }
    BadAfter(s, e);
  }

  // ---------------------------------------------------------------- clearing the way

  /** What thread k does to come back with a new timestamp. */
  function StepOf(s: State, k: nat): Event
    requires Sized(s) && k < |s.phase|
  {
    if s.scan[k].At? then
      if s.scan[k].taking then Keep(k) else if s.scan[k].at < |s.phase| then Compare(k) else Return(k)
    else match s.phase[k]
      case Idle => FetchOnce(k)
      case Once => FetchTwice(k)
      case Got(_) => AddTs(k)
      case Running(_) => End(k)
  }

  /** How many numbers k takes from the counter until its slot is above f, and how many steps. */
  ghost function Fetches(s: State, f: nat, k: nat): nat
    requires Sized(s) && k < |s.phase|
  {
    match s.phase[k]
    case Idle => 2
    case Once => 1
    case Got(ts) => if ts > f then 0 else 2
    case Running(_) => 2
  }

  ghost function Rank(s: State, f: nat, k: nat): nat
    requires Shaped(s) && k < |s.phase|
  {
    match s.phase[k]
    case Idle => 3
    case Once => 2
    case Got(ts) => if ts > f then 1 else 5
    case Running(_) => if s.scan[k].At? then 5 + ScanRank(s, k) else 4
  }

  ghost predicate Room(s: State, f: nat, k: nat)
    requires Sized(s) && k <= |s.phase|
  {
    k < |s.phase| ==> s.next + Fetches(s, f, k) + 2 * (|s.phase| - k - 1) <= U64_MAX
  }

  // One step of k on the way: t and u do not notice.
  lemma StepKeepsTrap(s: State, t: nat, u: nat, f: nat, hidden: bool, k: nat)
    requires Trap(s, t, u, f, hidden, k) && k < |s.phase| && s.allTs[k] <= f && Room(s, f, k)
    ensures var e := StepOf(s, k); Enabled(s, e) && !Hazard(s, e) && Trap(Next(s, e), t, u, f, hidden, k)
  {
    assert ShapeOk(s, k) && ClockOk(s, k) && ClockOk(s, t);
    assert k != t && k != u;
    ShapedKept(s, StepOf(s, k));
  }

  // And it brings k closer to a new timestamp.
  lemma StepGoesOn(s: State, f: nat, k: nat)
    requires Shaped(s) && k < |s.phase| && s.allTs[k] <= f < s.next && Room(s, f, k) && Enabled(s, StepOf(s, k))
    ensures var r := Next(s, StepOf(s, k));
            && Shaped(r)
            && (if r.allTs[k] > f then k + 1 < |s.phase| ==> Room(r, f, k + 1)
                else Room(r, f, k) && Rank(r, f, k) < Rank(s, f, k))
  {
    assert ShapeOk(s, k) && ClockOk(s, k);
    ShapedKept(s, StepOf(s, k));
  }

  lemma {:induction false} LiftUnsafe(s: State, t: nat, u: nat, f: nat, hidden: bool, k: nat)
    requires Trap(s, t, u, f, hidden, k) && Room(s, f, k)
    ensures !SafeFrom(s)
    decreases |s.phase| - k, if k < |s.phase| then Rank(s, f, k) else 0
  {
    if k == |s.phase| {
      ScanUnsafe(s, t, u, f, hidden);
    } else if s.allTs[k] > f {
      LiftUnsafe(s, t, u, f, hidden, k + 1);
    } else {
      assert ClockOk(s, t);
      StepKeepsTrap(s, t, u, f, hidden, k);
      StepGoesOn(s, f, k);
      var e := StepOf(s, k);
      if Next(s, e).allTs[k] > f {
        LiftUnsafe(Next(s, e), t, u, f, hidden, k + 1);
      } else {
        LiftUnsafe(Next(s, e), t, u, f, hidden, k);
      }
      BadAfter(s, e);
    }
  }

  // ---------------------------------------------------------------- both hazards are real

  lemma InvShaped(s: State)
    requires Inv(s)
    ensures Shaped(s)
  {
    forall t | 0 <= t < |s.phase| ensures ShapeOk(s, t) {
      assert ScanOk(s, t);
    }
  }

  // A call that starts while u's first timestamp is not recorded.
  lemma StartUnsafe(s: State, t: nat)
    requires CleanInv(s) && Enabled(s, Start(t)) && Hazard(s, Start(t)) && s.next + 2 * |s.phase| <= U64_MAX
    ensures !SafeFrom(Next(s, Start(t)))
  {
    var u :| 0 <= u < |s.phase| && s.phase[u].Got? && s.allTs[u] == U64_MAX && s.phase[u].ts <= s.phase[t].ts;
    assert ClockOk(s, u) && ClockOk(s, t) && Unique(s, u, t);
    InvShaped(s);
    ShapedKept(s, Start(t));
    LiftUnsafe(Next(s, Start(t)), t, u, s.phase[u].ts, true, 0);
  }

  // An assignment that jumps above u's slot.
  lemma AssignUnsafe(s: State, t: nat)
    requires CleanInv(s) && Enabled(s, Assign(t)) && Hazard(s, Assign(t)) && s.next + 2 * |s.phase| <= U64_MAX
    ensures !SafeFrom(Next(s, Assign(t)))
  {
    var c := s.scan[t];
    var u :| 0 <= u < c.at && s.allTs[c.at] > Floor(s, u) && Floor(s, u) <= s.phase[t].ts;
    assert ScanOk(s, t) && ClockOk(s, u) && ClockOk(s, t) && (u != t ==> Unique(s, u, t));
    InvShaped(s);
    ShapedKept(s, Assign(t));
    var r := Next(s, Assign(t));
    forall w | 0 <= w < |s.phase| && s.phase[w].Got? && s.allTs[w] == U64_MAX ensures s.phase[w].ts > s.phase[t].ts {
      assert Floor(s, w) == s.phase[w].ts;
    }
    LiftUnsafe(r, t, u, s.allTs[u], false, c.at + 1);
  }

  /** After any run without hazards, and with room for two more numbers per thread, the next step
      leaves all continuations without hazards safe if and only if it is not hazardous itself. */
  lemma HazardsAreExact(n: nat, es: seq<Event>, e: Event)
    requires CleanRun(Init(n), es) && Enabled(CleanFinal(Init(n), es), e)
    requires CleanFinal(Init(n), es).next + 2 * n <= U64_MAX
    ensures SafeFrom(Next(CleanFinal(Init(n), es), e)) <==> !Hazard(CleanFinal(Init(n), es), e)
  {
    var s := CleanFinal(Init(n), es);
    InitClean(n);
    CleanRunInv(Init(n), es);
    if !Hazard(s, e) {
      CleanInvKept(s, e);
      CleanInvSafe(Next(s, e));
    } else if e.Start? {
      StartUnsafe(s, e.t);
    } else {
      AssignUnsafe(s, e.t);
    }
  }

  // ---------------------------------------------------------------- a discipline without hazards

  /** A call starts only when every thread has recorded a timestamp, and an assignment finds the slot
      as it was compared. */
  predicate Disciplined(s: State, e: Event)
    requires Sized(s) && Enabled(s, e)
  {
    && (e.Start? ==> forall u :: 0 <= u < |s.allTs| ==> s.allTs[u] != U64_MAX)
    && (e.Assign? ==> s.allTs[s.scan[e.t].at] == s.scan[e.t].seen)
  }

  ghost predicate DisciplinedRun(s: State, es: seq<Event>)
    requires Sized(s)
    decreases |es|
  {
    es == [] || (Enabled(s, es[0]) && Disciplined(s, es[0]) && DisciplinedRun(Next(s, es[0]), es[1..]))
  }

  /** Every run of that kind, whatever the interleaving, is free of hazards and safe. */
  lemma {:induction false} DisciplinedRunsAreSafe(s: State, es: seq<Event>)
    requires CleanInv(s) && DisciplinedRun(s, es)
    ensures CleanRun(s, es) && Good(CleanFinal(s, es))
    decreases |es|
  {
    if es == [] {
      CleanInvGood(s);
    } else {
      var e := es[0];
      if e.Assign? { OneLoadIsEnough(s, e.t); }
      assert !Hazard(s, e);
      CleanInvKept(s, e);
      DisciplinedRunsAreSafe(Next(s, e), es[1..]);
    }
  }
}
