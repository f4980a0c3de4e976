/** Reference counts: the lock-free loops of refcount_c11.c, as interleaved
    thread steps, against the locked operations of refcount_lock.c. */
module Refcount {
  import opened Options

  /** CRYPTO_REFCOUNT_MAX, at which a count sticks. */
  const MAX := 0xFFFF_FFFF

  type Count = c: int | 0 <= c <= MAX

  datatype Op = Inc | Dec

  /** What an operation gives its caller; `Aborted` stands for abort(). */
  datatype Outcome = Done | Zero(isZero: bool) | Aborted

  // -- The locked operations ---------------------------------------------------------

  function LockedCount(op: Op, c: Count): Count {
    match op
    case Inc => if c < MAX then c + 1 else c
    case Dec => if c == 0 || c == MAX then c else c - 1
  }

  function LockedOutcome(op: Op, c: Count): Outcome {
    match op
    case Inc => Done
    case Dec => if c == 0 then Aborted else Zero(LockedCount(op, c) == 0)
  }

  /** A count that refcount_lock.c updates while holding its lock. */
  class Locked {
    var count: Count

    constructor ()
      ensures count == 1
    {
      count := 1;
    }

    method Inc()
      modifies this
      ensures count == LockedCount(Op.Inc, old(count))
    {
      if count < MAX {
        count := count + 1;
      }
    }

    method DecAndTestZero() returns (outcome: Outcome)
      modifies this
      ensures count == LockedCount(Dec, old(count)) && outcome == LockedOutcome(Dec, old(count))
    {
      if count == 0 {
        return Aborted;
      }
      if count < MAX {
        count := count - 1;
      }
      return Zero(count == 0);
    }
  }

  // -- The lock-free threads ------------------------------------------------------------

  /** Where a thread stands: between calls, before the atomic load, or at the
      head of the loop with the value it last saw. */
  datatype Thread = Idle | Starting(op: Op) | Looping(op: Op, expected: Count)

  datatype State = State(count: Count, threads: seq<Thread>)

  /** One step of thread `t`.  A turn of the loop is its test of `expected`, which
      is private, and then one weak compare-exchange, which may fail although
      the count is as expected. */
  datatype Step = Call(t: nat, op: Op) | Load(t: nat) | Turn(t: nat, spurious: bool)

  /** An operation that thread `t` completed. */
  datatype Entry = Entry(t: nat, op: Op, outcome: Outcome)

  predicate Enabled(s: State, step: Step) {
    && step.t < |s.threads|
    && match step
       case Call(t, _) => s.threads[t].Idle?
       case Load(t) => s.threads[t].Starting?
       case Turn(t, _) => s.threads[t].Looping?
  }

  /** The loop exits without a compare-exchange on this value. */
  predicate Settled(op: Op, c: Count) {
    c == MAX || (op == Dec && c == 0)
  }

  predicate Exchanges(s: State, step: Step)
    requires Enabled(s, step)
  {
    && step.Turn? && !step.spurious
    && !Settled(s.threads[step.t].op, s.threads[step.t].expected)
    && s.threads[step.t].expected == s.count
  }

  /** `expected + 1` or `expected - 1`. */
  function Desired(op: Op, expected: Count): Count
    requires !Settled(op, expected)
  {
    match op case Inc => expected + 1 case Dec => expected - 1
  }

  function Next(s: State, step: Step): (s': State)
    requires Enabled(s, step)
    ensures |s'.threads| == |s.threads|
  {
    var th := s.threads[step.t];
    match step
    case Call(t, op) => s.(threads := s.threads[t := Starting(op)])
    case Load(t) => s.(threads := s.threads[t := Looping(th.op, s.count)])
    case Turn(t, _) =>
      if Settled(th.op, th.expected) then s.(threads := s.threads[t := Idle])
      else if Exchanges(s, step) then State(Desired(th.op, th.expected), s.threads[t := Idle])
      else s.(threads := s.threads[t := Looping(th.op, s.count)])
  }

  /** What the step returns to its caller, as the loops compute it. */
  function Returned(s: State, step: Step): seq<Entry>
    requires Enabled(s, step)
  {
    if !step.Turn? then []
    else
      var th := s.threads[step.t];
      if Settled(th.op, th.expected) then
        [Entry(step.t, th.op, if th.op == Inc then Done else if th.expected == 0 then Aborted else Zero(false))]
      else if Exchanges(s, step) then
        [Entry(step.t, th.op, if th.op == Inc then Done else Zero(Desired(th.op, th.expected) == 0))]
      else []
  }

  // -- Linearization ---------------------------------------------------------------------

  /** The operation takes effect when it reads a value that settles it, or
      else when its compare-exchange succeeds. */
  function Effect(s: State, step: Step): seq<Entry>
    requires Enabled(s, step)
  {
    if step.Call? then []
    else
      var th := s.threads[step.t];
      if step.Turn? && Settled(th.op, th.expected) then []
      else if Exchanges(s, step) || Settled(th.op, s.count) then
        [Entry(step.t, th.op, LockedOutcome(th.op, s.count))]
      else []
  }

  /** An operation that took effect and has not returned. */
  function Pending(t: nat, th: Thread): seq<Entry> {
    if th.Looping? && Settled(th.op, th.expected) then [Entry(t, th.op, LockedOutcome(th.op, th.expected))] else []
  }

  /** A run: the state it ends in, the operations in the order they took effect,
      and in the order they returned. */
  datatype Trace = Trace(s: State, effects: seq<Entry>, results: seq<Entry>)

  function Run(s: State, steps: seq<Step>): Option<Trace> {
    if steps == [] then Some(Trace(s, [], []))
    else
      var n := |steps| - 1;
      match Run(s, steps[..n])
      case None => None
      case Some(r) =>
        if !Enabled(r.s, steps[n]) then None
        else Some(Trace(Next(r.s, steps[n]), r.effects + Effect(r.s, steps[n]), r.results + Returned(r.s, steps[n])))
  }

  /** The locked operations, one after the other, starting from `c`: the final
      count, provided each has the outcome the log gives it. */
  function Replay(c: Count, log: seq<Entry>): Option<Count> {
    if log == [] then Some(c)
    else
      var n := |log| - 1;
      match Replay(c, log[..n])
      case None => None
      case Some(b) => if log[n].outcome == LockedOutcome(log[n].op, b) then Some(LockedCount(log[n].op, b)) else None
  }

  function Of(t: nat, log: seq<Entry>): seq<Entry> {
    if log == [] then []
    else Of(t, log[..|log| - 1]) + if log[|log| - 1].t == t then [log[|log| - 1]] else []
  }

  predicate AllIdle(s: State) {
    forall t :: 0 <= t < |s.threads| ==> s.threads[t].Idle?
  }

  /** Everything a thread has done took effect once and in its own order: what
      it returned, and then at most the operation it is about to return. */
  predicate InOrder(r: Trace) {
    forall t :: 0 <= t < |r.s.threads| ==> Of(t, r.effects) == Of(t, r.results) + Pending(t, r.s.threads[t])
  }

  lemma OfStep(t: nat, log: seq<Entry>, more: seq<Entry>)
    requires |more| <= 1
    ensures Of(t, log + more) == Of(t, log) + if more != [] && more[0].t == t then more else []
  {
    if more == [] {
      assert log + more == log;
    } else {
      assert (log + more)[..|log|] == log && more == [more[0]];
    }
  }

  lemma ReplayStep(c: Count, log: seq<Entry>, more: seq<Entry>, b: Count)
    requires Replay(c, log) == Some(b) && |more| <= 1
    requires more != [] ==> more[0].outcome == LockedOutcome(more[0].op, b)
    ensures Replay(c, log + more) == Some(if more == [] then b else LockedCount(more[0].op, b))
  {
    if more == [] {
      assert log + more == log;
    } else {
      assert (log + more)[..|log|] == log;
    }
  }

  /** One thread step does to the count what the locked operations it completes
      do, and hands each thread what took effect for it. */
  lemma StepRefines(s: State, step: Step)
    requires Enabled(s, step)
    ensures Next(s, step).count == if Effect(s, step) == [] then s.count
        else LockedCount(Effect(s, step)[0].op, s.count)
    ensures Effect(s, step) != [] ==> Effect(s, step)[0].outcome == LockedOutcome(Effect(s, step)[0].op, s.count)
    ensures Pending(step.t, s.threads[step.t]) + Effect(s, step) ==
            Returned(s, step) + Pending(step.t, Next(s, step).threads[step.t])
  {
  }

  /** A step is about its own thread. */
  lemma StepLocal(s: State, step: Step)
    requires Enabled(s, step)
    ensures |Effect(s, step)| <= 1 && (Effect(s, step) != [] ==> Effect(s, step)[0].t == step.t)
    ensures |Returned(s, step)| <= 1 && (Returned(s, step) != [] ==> Returned(s, step)[0].t == step.t)
    ensures forall t :: 0 <= t < |s.threads| && t != step.t ==> Next(s, step).threads[t] == s.threads[t]
  {
  }

  lemma Regrouped(a: seq<Entry>, b: seq<Entry>, c: seq<Entry>, d: seq<Entry>, e: seq<Entry>)
    requires b + c == d + e
    ensures a + b + c == a + d + e
  {
    assert a + b + c == a + (b + c) == a + (d + e);
  }

  lemma ThreadInOrder(r: Trace, step: Step, t: nat)
    requires Enabled(r.s, step) && t < |r.s.threads|
        && Of(t, r.effects) == Of(t, r.results) + Pending(t, r.s.threads[t])
    ensures Of(t, r.effects + Effect(r.s, step)) ==
            Of(t, r.results + Returned(r.s, step)) + Pending(t, Next(r.s, step).threads[t])
  {
    hide Effect, Returned, Next, Pending, Of, Enabled;
    StepRefines(r.s, step);
    StepLocal(r.s, step);
    OfStep(t, r.effects, Effect(r.s, step));
    OfStep(t, r.results, Returned(r.s, step));
    if t == step.t {
      Regrouped(Of(t, r.results), Pending(t, r.s.threads[t]), Effect(r.s, step),
                Returned(r.s, step), Pending(t, Next(r.s, step).threads[t]));
    }
  }

  lemma StepInOrder(r: Trace, step: Step)
    requires Enabled(r.s, step) && InOrder(r)
    ensures InOrder(Trace(Next(r.s, step), r.effects + Effect(r.s, step), r.results + Returned(r.s, step)))
  {
    hide Effect, Returned, Next, Pending, Of, Enabled;
    forall t | 0 <= t < |r.s.threads|
      ensures Of(t, r.effects + Effect(r.s, step)) ==
              Of(t, r.results + Returned(r.s, step)) + Pending(t, Next(r.s, step).threads[t])
    {
      ThreadInOrder(r, step, t);
    }
  }

  /** Every interleaving of any number of threads, with spurious failures, is
      matched by the locked operations executed one at a time in the order the
      lock-free ones took effect, each after its call and before its return. */
  lemma {:induction false} LockFreeRefinesLocked(s: State, steps: seq<Step>)
    requires AllIdle(s) && Run(s, steps).Some?
    ensures var r := Run(s, steps).value;
            Replay(s.count, r.effects) == Some(r.s.count) && |r.s.threads| == |s.threads| && InOrder(r)
    decreases |steps|
  {
    if steps != [] {
      var n := |steps| - 1;
      LockFreeRefinesLocked(s, steps[..n]);
      var r := Run(s, steps[..n]).value;
      StepRefines(r.s, steps[n]);
      ReplayStep(s.count, r.effects, Effect(r.s, steps[n]), r.s.count);
      StepInOrder(r, steps[n]);
    }
  }

  /** A saturated count stays saturated, whatever the threads were doing. */
  lemma {:induction false} SaturatedForever(s: State, steps: seq<Step>)
    requires s.count == MAX && Run(s, steps).Some?
    ensures Run(s, steps).value.s.count == MAX
    decreases |steps|
  {
    if steps != [] {
      SaturatedForever(s, steps[..|steps| - 1]);
    }
  }

  // -- Balanced runs -----------------------------------------------------------------------

  datatype Kind = Take | Release | LastRelease | Abort

  predicate Is(k: Kind, e: Entry) {
    match k
    case Take => e.op == Inc
    case Release => e.op == Dec
    case LastRelease => e.outcome == Zero(true)
    case Abort => e.outcome == Aborted
  }

  function Tally(k: Kind, log: seq<Entry>): nat {
    if log == [] then 0 else Tally(k, log[..|log| - 1]) + if Is(k, log[|log| - 1]) then 1 else 0
  }

  /** Takes that found the count at zero. */
  function Revivals(c: Count, log: seq<Entry>): nat {
    if log == [] then 0
    else
      var n := |log| - 1;
      Revivals(c, log[..n]) + if log[n].op == Inc && Replay(c, log[..n]) == Some(0) then 1 else 0
  }

  lemma {:induction false} TallyAppend(k: Kind, a: seq<Entry>, b: seq<Entry>)
    ensures Tally(k, a + b) == Tally(k, a) + Tally(k, b)
    decreases |b|
  {
    if b == [] {
      assert a + b == a;
    } else {
      var n := |b| - 1;
      assert (a + b)[..|a| + n] == a + b[..n] && (a + b)[|a| + n] == b[n];
      TallyAppend(k, a, b[..n]);
    }
  }

  /** Below saturation the count is the number of references held, and every
      release that returned true but the last was undone by a take at zero. */
  lemma {:induction false} ReplayCounts(log: seq<Entry>, c: Count)
    requires Replay(1, log) == Some(c) && 1 + Tally(Take, log) < MAX
    ensures c == 1 + Tally(Take, log) - Tally(Release, log) + Tally(Abort, log) <= 1 + Tally(Take, log)
    ensures Tally(LastRelease, log) + (if c > 0 then 1 else 0) == 1 + Revivals(1, log)
    decreases |log|
  {
    if log != [] {
      var n := |log| - 1;
      ReplayCounts(log[..n], Replay(1, log[..n]).value);
    }
  }

  /** Operations that took effect and have not returned, over all threads. */
  function PendingTally(k: Kind, threads: seq<Thread>): nat {
    if threads == [] then 0
    else
      var n := |threads| - 1;
      PendingTally(k, threads[..n]) + Tally(k, Pending(n, threads[n]))
  }

  lemma {:induction false} PendingUpdate(k: Kind, threads: seq<Thread>, t: nat, th: Thread)
    requires t < |threads|
    ensures PendingTally(k, threads[t := th]) + Tally(k, Pending(t, threads[t]))
         == PendingTally(k, threads) + Tally(k, Pending(t, th))
    decreases |threads|
  {
    var n := |threads| - 1;
    if t == n {
      assert threads[t := th][..n] == threads[..n];
    } else {
      assert threads[t := th][..n] == threads[..n][t := th];
      PendingUpdate(k, threads[..n], t, th);
    }
  }

  lemma {:induction false} NonePending(k: Kind, s: State, n: nat)
    requires AllIdle(s) && n <= |s.threads|
    ensures PendingTally(k, s.threads[..n]) == 0
  {
    assert s.threads[..0] == [];
    if n > 0 {
      assert s.threads[..n][..n - 1] == s.threads[..n - 1] && s.threads[..n][n - 1] == s.threads[n - 1];
      NonePending(k, s, n - 1);
    }
  }

  /** What took effect is what returned and what is about to. */
  lemma {:induction false} EffectsReturned(k: Kind, s: State, steps: seq<Step>)
    requires AllIdle(s) && Run(s, steps).Some?
    ensures var r := Run(s, steps).value;
            Tally(k, r.effects) == Tally(k, r.results) + PendingTally(k, r.s.threads)
    decreases |steps|
  {
    if steps == [] {
      assert s.threads[..|s.threads|] == s.threads;
      NonePending(k, s, |s.threads|);
    } else {
      var n := |steps| - 1;
      EffectsReturned(k, s, steps[..n]);
      var r := Run(s, steps[..n]).value;
      var step := steps[n];
      var next := Next(r.s, step).threads;
      StepRefines(r.s, step);
      TallyAppend(k, r.effects, Effect(r.s, step));
      TallyAppend(k, r.results, Returned(r.s, step));
      TallyAppend(k, Pending(step.t, r.s.threads[step.t]), Effect(r.s, step));
      TallyAppend(k, Returned(r.s, step), Pending(step.t, next[step.t]));
      PendingUpdate(k, r.s.threads, step.t, next[step.t]);
      assert next == r.s.threads[step.t := next[step.t]];
    }
  }

  /** A run that starts with one reference, releases it and every one it
      takes, and stays below saturation: the count ends at zero, and exactly
      one release returned true if and only if nobody took at zero. */
  lemma BalancedRun(s: State, steps: seq<Step>)
    requires AllIdle(s) && s.count == 1 && Run(s, steps).Some? && AllIdle(Run(s, steps).value.s)
    requires var results := Run(s, steps).value.results;
             && Tally(Release, results) == Tally(Take, results) + 1
             && Tally(Abort, results) == 0 && 1 + Tally(Take, results) < MAX
    ensures var r := Run(s, steps).value;
            && r.s.count == 0
            && Tally(LastRelease, r.results) == 1 + Revivals(1, r.effects)
            && (Tally(LastRelease, r.results) == 1 <==> Revivals(1, r.effects) == 0)
  {
    var r := Run(s, steps).value;
    LockFreeRefinesLocked(s, steps);
    forall k: Kind ensures Tally(k, r.effects) == Tally(k, r.results) {
      EffectsReturned(k, s, steps);
      NonePending(k, r.s, |r.s.threads|);
      assert r.s.threads[..|r.s.threads|] == r.s.threads;
    }
    ReplayCounts(r.effects, r.s.count);
  }

  lemma RunMore(s: State, steps: seq<Step>, step: Step)
    requires Run(s, steps).Some? && Enabled(Run(s, steps).value.s, step)
    ensures var r := Run(s, steps).value;
            Run(s, steps + [step]) ==
                Some(Trace(Next(r.s, step), r.effects + Effect(r.s, step), r.results + Returned(r.s, step)))
  {
    assert (steps + [step])[..|steps|] == steps;
  }

  /** What a thread does that nobody disturbs. */
  function Alone(op: Op): seq<Step> {
    [Call(0, op), Load(0), Turn(0, false)]
  }

  lemma OneCall(s: State, steps: seq<Step>, op: Op)
    requires Run(s, steps).Some?
    requires var t := Run(s, steps).value.s; t.threads == [Idle] && !Settled(op, t.count)
    ensures var r := Run(s, steps).value;
            var e := Entry(0, op, LockedOutcome(op, r.s.count));
            Run(s, steps + Alone(op)) ==
                Some(Trace(State(Desired(op, r.s.count), [Idle]), r.effects + [e], r.results + [e]))
  {
    hide Run;
    var r := Run(s, steps).value;
    var a, b, c := Call(0, op), Load(0), Turn(0, false);
    RunMore(s, steps, a);
    assert [Idle][0 := Starting(op)] == [Starting(op)] && r.effects + [] == r.effects && r.results + [] == r.results;
    RunMore(s, steps + [a], b);
    assert [Starting(op)][0 := Looping(op, r.s.count)] == [Looping(op, r.s.count)];
    RunMore(s, steps + [a] + [b], c);
    assert [Looping(op, r.s.count)][0 := Idle] == [Idle];
    assert steps + [a] + [b] + [c] == steps + Alone(op);
  }

  /** One reference, one thread: it releases, takes at zero and releases again, and two
      releases have returned true. */
  lemma TwoLastReleases() returns (s: State, steps: seq<Step>)
    ensures AllIdle(s) && s.count == 1 && Run(s, steps).Some? && AllIdle(Run(s, steps).value.s)
    ensures var results := Run(s, steps).value.results;
            results == [Entry(0, Dec, Zero(true)), Entry(0, Inc, Done), Entry(0, Dec, Zero(true))]
    ensures Revivals(1, Run(s, steps).value.effects) == 1
  {
    s, steps := State(1, [Idle]), [];
    var log: seq<Entry> := [];
    assert Run(s, steps) == Some(Trace(s, log, log));
    hide Run;
    OneCall(s, steps, Dec);
    steps, log := steps + Alone(Dec), log + [Entry(0, Dec, Zero(true))];
    OneCall(s, steps, Inc);
    steps, log := steps + Alone(Inc), log + [Entry(0, Inc, Done)];
    OneCall(s, steps, Dec);
    steps, log := steps + Alone(Dec), log + [Entry(0, Dec, Zero(true))];
    OneRevival();
  }

  lemma OneRevival()
    ensures Revivals(1, [Entry(0, Dec, Zero(true)), Entry(0, Inc, Done), Entry(0, Dec, Zero(true))]) == 1
  {
    var first := [Entry(0, Dec, Zero(true))];
    var second := first + [Entry(0, Inc, Done)];
    var third := second + [Entry(0, Dec, Zero(true))];
    assert third[..2] == second && second[..1] == first && first[..0] == [];
    assert Replay(1, first) == Some(0) && Replay(1, second) == Some(1);
    assert Revivals(1, first) == 0 && Revivals(1, second) == 1;
    assert third == [Entry(0, Dec, Zero(true)), Entry(0, Inc, Done), Entry(0, Dec, Zero(true))];
  }

  // -- Callers that hold what they use -------------------------------------------------------

  /** A step of a thread, or an idle thread handing a reference on to another. */
  datatype Act = Does(step: Step) | Gives(src: nat, dst: nat)

  /** A run, and the references each thread holds. */
  datatype Owned = Owned(r: Trace, held: seq<nat>)

  /** What a caller can check before it acts: it takes a reference, releases one or
      hands one on only while it holds one. */
  predicate Allowed(o: Owned, act: Act) {
    && |o.held| == |o.r.s.threads|
    && match act
       case Does(step) => Enabled(o.r.s, step) && (step.Call? ==> o.held[step.t] > 0)
       case Gives(src, dst) => src < |o.held| && dst < |o.held| && o.r.s.threads[src].Idle? && o.held[src] > 0
  }

  /** A release gives up its reference at the call; a take has one once it returns. */
  function Holds(o: Owned, act: Act): seq<nat>
    requires Allowed(o, act)
  {
    match act
    case Gives(src, dst) =>
      var less := o.held[src := o.held[src] - 1];
      less[dst := less[dst] + 1]
    case Does(step) =>
      if step.Call? && step.op == Dec then o.held[step.t := o.held[step.t] - 1]
      else if Returned(o.r.s, step) != [] && o.r.s.threads[step.t].op == Inc then o.held[step.t := o.held[step.t] + 1]
      else o.held
  }

  function Trail(r: Trace, act: Act): Trace
    requires act.Does? ==> Enabled(r.s, act.step)
  {
    match act
    case Gives(_, _) => r
    case Does(step) => Trace(Next(r.s, step), r.effects + Effect(r.s, step), r.results + Returned(r.s, step))
  }

  function Lives(s: State, held: seq<nat>, acts: seq<Act>): Option<Owned> {
    if acts == [] then Some(Owned(Trace(s, [], []), held))
    else
      var n := |acts| - 1;
      match Lives(s, held, acts[..n])
      case None => None
      case Some(o) => if Allowed(o, acts[n]) then Some(Owned(Trail(o.r, acts[n]), Holds(o, acts[n]))) else None
  }

  function StepsOf(acts: seq<Act>): seq<Step> {
    if acts == [] then []
    else
      var n := |acts| - 1;
      StepsOf(acts[..n]) + match acts[n] case Does(step) => [step] case Gives(_, _) => []
  }

  lemma OneMoreStep(s: State, steps: seq<Step>, step: Step)
    requires Run(s, steps).Some? && Enabled(Run(s, steps).value.s, step)
    ensures Run(s, steps + [step]) == Some(Trail(Run(s, steps).value, Does(step)))
  {
    hide Next, Effect, Returned, Enabled;
    assert (steps + [step])[..|steps|] == steps;
  }

  lemma LastAct(s: State, held: seq<nat>, acts: seq<Act>)
    requires acts != [] && Lives(s, held, acts).Some?
    ensures var n := |acts| - 1;
            && Lives(s, held, acts[..n]).Some?
            && var o := Lives(s, held, acts[..n]).value;
               && (acts[n].Does? ==> Enabled(o.r.s, acts[n].step))
               && Lives(s, held, acts).value.r == Trail(o.r, acts[n])
               && StepsOf(acts) == StepsOf(acts[..n]) + if acts[n].Does? then [acts[n].step] else []
  {
    hide Next, Effect, Returned, Enabled, Holds, Trail;
  }

  /** Such a run is one of the runs above. */
  lemma {:induction false} LivesIsRun(s: State, held: seq<nat>, acts: seq<Act>)
    requires Lives(s, held, acts).Some?
    ensures Run(s, StepsOf(acts)) == Some(Lives(s, held, acts).value.r)
  {
    if acts != [] {
      hide Run, Lives, StepsOf, Enabled;
      LastAct(s, held, acts);
      var n := |acts| - 1;
      LivesIsRun(s, held, acts[..n]);
      var steps := StepsOf(acts[..n]);
      if acts[n].Does? {
        OneMoreStep(s, steps, acts[n].step);
      } else {
        assert steps + [] == steps;
      }
    }
  }

  predicate Busy(th: Thread) {
    !th.Idle?
  }

  /** The references of one thread: those it holds, the one it is giving up, and with
      `coming` the one it is taking. */
  function Share(coming: bool, h: nat, th: Thread): nat {
    h + if Busy(th) && (coming || th.op == Dec) then 1 else 0
  }

  function Shares(coming: bool, held: seq<nat>, threads: seq<Thread>): nat
    requires |held| == |threads|
  {
    if held == [] then 0
    else
      var n := |held| - 1;
      Shares(coming, held[..n], threads[..n]) + Share(coming, held[n], threads[n])
  }

  lemma {:induction false} SharesUpdate(coming: bool, held: seq<nat>, threads: seq<Thread>, t: nat, h: nat, th: Thread)
    requires |held| == |threads| && t < |held|
    ensures Shares(coming, held[t := h], threads[t := th]) + Share(coming, held[t], threads[t])
         == Shares(coming, held, threads) + Share(coming, h, th)
    ensures Shares(coming, held, threads) >= Share(coming, held[t], threads[t])
    decreases |held|
  {
    var n := |held| - 1;
    if t == n {
      assert held[t := h][..n] == held[..n] && threads[t := th][..n] == threads[..n];
    } else {
      assert held[t := h][..n] == held[..n][t := h] && threads[t := th][..n] == threads[..n][t := th];
      SharesUpdate(coming, held[..n], threads[..n], t, h, th);
    }
  }

  /** A thread inside a call has seen a count that settles nothing, and holds the
      reference it takes from. */
  predicate Safe(h: nat, th: Thread) {
    && (Busy(th) && th.op == Inc ==> h > 0)
    && (th.Looping? ==> 0 < th.expected < MAX)
  }

  /** The count is the references held and those being given up. */
  predicate Sound(o: Owned) {
    && |o.held| == |o.r.s.threads|
    && o.r.s.count == Shares(false, o.held, o.r.s.threads)
    && forall t :: 0 <= t < |o.held| ==> Safe(o.held[t], o.r.s.threads[t])
  }

  /** Calls of CRYPTO_refcount_inc. */
  function Takes(acts: seq<Act>): nat {
    if acts == [] then 0
    else
      var n := |acts| - 1;
      Takes(acts[..n]) + if acts[n].Does? && acts[n].step.Call? && acts[n].step.op == Inc then 1 else 0
  }

  lemma GivesSound(o: Owned, act: Act)
    requires Sound(o) && Allowed(o, act) && act.Gives?
    ensures Sound(Owned(o.r, Holds(o, act)))
    ensures Shares(true, Holds(o, act), o.r.s.threads) == Shares(true, o.held, o.r.s.threads)
  {
    var src, dst, threads := act.src, act.dst, o.r.s.threads;
    var less := o.held[src := o.held[src] - 1];
    forall coming: bool
      ensures Shares(coming, Holds(o, act), threads) == Shares(coming, o.held, threads)
    {
      SharesUpdate(coming, o.held, threads, src, o.held[src] - 1, threads[src]);
      SharesUpdate(coming, less, threads, dst, less[dst] + 1, threads[dst]);
      assert threads[src := threads[src]] == threads && threads[dst := threads[dst]] == threads;
    }
  }

  /** A step of a thread that keeps to the rule: what takes effect returns at once, and
      finds the count above zero. */
  lemma StepSound(o: Owned, step: Step)
    requires Sound(o) && Allowed(o, Does(step)) && o.r.s.count < MAX
    ensures Sound(Owned(Trail(o.r, Does(step)), Holds(o, Does(step))))
    ensures var next := Next(o.r.s, step).threads;
            Shares(true, Holds(o, Does(step)), next) <=
            Shares(true, o.held, o.r.s.threads) + if step.Call? && step.op == Inc then 1 else 0
    ensures Effect(o.r.s, step) == Returned(o.r.s, step)
    ensures Effect(o.r.s, step) != [] ==> o.r.s.count > 0
  {
    var t, s := step.t, o.r.s;
    var held', next := Holds(o, Does(step)), Next(s, step).threads;
    assert Safe(o.held[t], s.threads[t]);
    forall coming: bool
      ensures Shares(coming, held', next) + Share(coming, o.held[t], s.threads[t])
           == Shares(coming, o.held, s.threads) + Share(coming, held'[t], next[t])
      ensures Shares(coming, o.held, s.threads) >= Share(coming, o.held[t], s.threads[t])
    {
      SharesUpdate(coming, o.held, s.threads, t, held'[t], next[t]);
      assert o.held[t := held'[t]] == held' && s.threads[t := next[t]] == next;
    }
    hide Shares;
  }

  /** While every caller holds what it uses, and below saturation, no operation aborts,
      nobody takes at zero, and a release returns true exactly when the count reaches
      zero, which ends the run. */
  lemma {:induction false} OwnersNeverFail(s: State, held: seq<nat>, acts: seq<Act>)
    requires AllIdle(s) && |held| == |s.threads| && s.count > 0
    requires Shares(false, held, s.threads) == s.count && s.count + Takes(acts) < MAX
    requires Lives(s, held, acts).Some?
    ensures var o := Lives(s, held, acts).value;
            && Sound(o) && o.r.effects == o.r.results && o.r.s.count <= s.count + Takes(acts)
            && Tally(Abort, o.r.results) == 0 && Revivals(s.count, o.r.effects) == 0
            && Tally(LastRelease, o.r.results) == (if o.r.s.count == 0 then 1 else 0)
            && (o.r.s.count == 0 ==> o.r.results != [] && o.r.results[|o.r.results| - 1].outcome == Zero(true))
  {
    hide Sound, Shares, Replay, Revivals, Tally, Lives, Takes;
    OwnersSound(s, held, acts);
    OwnersTally(s, held, acts);
    CountBound(s, held, acts);
  }

  lemma CountBound(s: State, held: seq<nat>, acts: seq<Act>)
    requires AllIdle(s) && |held| == |s.threads|
    requires Shares(false, held, s.threads) == s.count && s.count + Takes(acts) < MAX
    requires Lives(s, held, acts).Some?
    ensures Lives(s, held, acts).value.r.s.count <= s.count + Takes(acts)
  {
    hide Lives;
    OwnersSound(s, held, acts);
    ComingMore(Lives(s, held, acts).value.held, Lives(s, held, acts).value.r.s.threads);
  }

  lemma IdleShares(s: State, held: seq<nat>, n: nat)
    requires AllIdle(s) && n <= |held| == |s.threads|
    ensures Shares(true, held[..n], s.threads[..n]) == Shares(false, held[..n], s.threads[..n])
  {
    if n > 0 {
      IdleShares(s, held, n - 1);
      assert held[..n][..n - 1] == held[..n - 1] && s.threads[..n][..n - 1] == s.threads[..n - 1];
    }
  }

  lemma {:induction false} OwnersSound(s: State, held: seq<nat>, acts: seq<Act>)
    requires AllIdle(s) && |held| == |s.threads|
    requires Shares(false, held, s.threads) == s.count && s.count + Takes(acts) < MAX
    requires Lives(s, held, acts).Some?
    ensures var o := Lives(s, held, acts).value;
            && Sound(o) && o.r.effects == o.r.results
            && Shares(true, o.held, o.r.s.threads) <= s.count + Takes(acts)
  {
    if acts == [] {
      IdleShares(s, held, |held|);
      assert held[..|held|] == held && s.threads[..|held|] == s.threads;
    } else {
      var n := |acts| - 1;
      OwnersSound(s, held, acts[..n]);
      var o := Lives(s, held, acts[..n]).value;
      ComingMore(o.held, o.r.s.threads);
      match acts[n]
      case Does(step) => StepSound(o, step);
      case Gives(_, _) => GivesSound(o, acts[n]);
    }
  }

  lemma {:induction false} ComingMore(held: seq<nat>, threads: seq<Thread>)
    requires |held| == |threads|
    ensures Shares(false, held, threads) <= Shares(true, held, threads)
    decreases |held|
  {
    if held != [] {
      ComingMore(held[..|held| - 1], threads[..|held| - 1]);
    }
  }

  lemma {:induction false} OwnersTally(s: State, held: seq<nat>, acts: seq<Act>)
    requires AllIdle(s) && |held| == |s.threads| && s.count > 0
    requires Shares(false, held, s.threads) == s.count && s.count + Takes(acts) < MAX
    requires Lives(s, held, acts).Some?
    ensures var o := Lives(s, held, acts).value;
            && Replay(s.count, o.r.effects) == Some(o.r.s.count)
            && Tally(Abort, o.r.effects) == 0 && Revivals(s.count, o.r.effects) == 0
            && Tally(LastRelease, o.r.effects) == (if o.r.s.count == 0 then 1 else 0)
            && (o.r.s.count == 0 ==> o.r.effects != [] && o.r.effects[|o.r.effects| - 1].outcome == Zero(true))
  {
    if acts != [] {
      var n := |acts| - 1;
      OwnersTally(s, held, acts[..n]);
      OwnersSound(s, held, acts[..n]);
      var o := Lives(s, held, acts[..n]).value;
      ComingMore(o.held, o.r.s.threads);
      if acts[n].Does? {
        StepSound(o, acts[n].step);
        StepRefines(o.r.s, acts[n].step);
        StepLocal(o.r.s, acts[n].step);
        EffectCounts(s.count, o.r.effects, Effect(o.r.s, acts[n].step), o.r.s.count);
      }
    }
  }

  /** One more operation on a count above zero. */
  lemma EffectCounts(c: Count, log: seq<Entry>, more: seq<Entry>, b: Count)
    requires Replay(c, log) == Some(b) && |more| <= 1 && b < MAX
    requires more != [] ==> b > 0 && more[0].outcome == LockedOutcome(more[0].op, b)
    ensures Replay(c, log + more) == Some(if more == [] then b else LockedCount(more[0].op, b))
    ensures Revivals(c, log + more) == Revivals(c, log) && Tally(Abort, log + more) == Tally(Abort, log)
    ensures Tally(LastRelease, log + more) == Tally(LastRelease, log) +
                                              if more != [] && LockedCount(more[0].op, b) == 0 then 1 else 0
    ensures more != [] && LockedCount(more[0].op, b) == 0 ==> (log + more)[|log + more| - 1].outcome == Zero(true)
  {
    ReplayStep(c, log, more, b);
    if more == [] {
      assert log + more == log;
    } else {
      assert (log + more)[..|log|] == log;
    }
  }

  lemma {:induction false} NoShares(held: seq<nat>, threads: seq<Thread>)
    requires |held| == |threads| && forall t :: 0 <= t < |held| ==> held[t] == 0 && threads[t].Idle?
    ensures Shares(false, held, threads) == 0
    decreases |held|
  {
    if held != [] {
      NoShares(held[..|held| - 1], threads[..|held| - 1]);
    }
  }

  /** Once they have all been released, exactly one release has returned true, the
      last operation of all. */
  lemma OneLastRelease(s: State, held: seq<nat>, acts: seq<Act>)
    requires AllIdle(s) && |held| == |s.threads| && s.count > 0
    requires Shares(false, held, s.threads) == s.count && s.count + Takes(acts) < MAX
    requires Lives(s, held, acts).Some?
    requires var o := Lives(s, held, acts).value; AllIdle(o.r.s) && forall t :: 0 <= t < |o.held| ==> o.held[t] == 0
    ensures var results := Lives(s, held, acts).value.r.results;
            && Lives(s, held, acts).value.r.s.count == 0 && Tally(LastRelease, results) == 1
            && results != [] && results[|results| - 1].outcome == Zero(true)
  {
    OwnersNeverFail(s, held, acts);
    var o := Lives(s, held, acts).value;
    NoShares(o.held, o.r.s.threads);
  }

  /** Where the two files differ.  A decrement that has read zero aborts even
      when the count has risen since; under the lock nothing comes between. */
  lemma LateAbort() returns (s: State, steps: seq<Step>)
    ensures AllIdle(s) && Run(s, steps).Some?
    ensures var r := Run(s, steps).value;
            && r.results == [Entry(1, Inc, Done), Entry(0, Dec, Aborted)]
            && r.s.count == 1 && LockedOutcome(Dec, 1) != Aborted
  {
    s, steps := State(0, [Idle, Idle]), [];
    assert Run(s, []) == Some(Trace(s, [], []));
    hide Run;
    RunMore(s, [], Call(0, Dec));
    assert Run(s, [] + [Call(0, Dec)]).value.s == State(0, [Starting(Dec), Idle]);
    steps := [] + [Call(0, Dec)];
    RunMore(s, steps, Load(0));
    steps := steps + [Load(0)];
    assert Run(s, steps).value.s == State(0, [Looping(Dec, 0), Idle]);
    RunMore(s, steps, Call(1, Inc));
    steps := steps + [Call(1, Inc)];
    assert Run(s, steps).value.s == State(0, [Looping(Dec, 0), Starting(Inc)]);
    RunMore(s, steps, Load(1));
    steps := steps + [Load(1)];
    assert Run(s, steps).value.s == State(0, [Looping(Dec, 0), Looping(Inc, 0)]);
    RunMore(s, steps, Turn(1, false));
    steps := steps + [Turn(1, false)];
    assert Run(s, steps).value.s == State(1, [Looping(Dec, 0), Idle]);
    RunMore(s, steps, Turn(0, false));
    steps := steps + [Turn(0, false)];
  }
}
