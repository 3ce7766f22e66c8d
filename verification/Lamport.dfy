/** Lamport clocks: the compare-and-swap loops of one clock, and causality across processes. */
module Lamport {
  import opened Common

  type Stamp = x: int | 0 <= x < U64

  const MAX_STAMP: Stamp := U64 - 1

  datatype Op = Tick | Update(received: Stamp)

  /** One more than everything seen so far, sticking at the largest value. */
  function Apply(op: Op, clock: Stamp): (r: Stamp)
    ensures clock < r || r == clock == MAX_STAMP
    ensures op.Update? ==> op.received < r || op.received == r == MAX_STAMP
    ensures r <= clock + 1 || (op.Update? && r <= op.received + 1)
  {
    var seen := if op.Update? && op.received > clock then op.received else clock;
    if seen < MAX_STAMP then seen + 1 else seen
  }

  /** No smaller timestamp would do. */
  lemma ApplyIsLeast(op: Op, clock: Stamp, v: Stamp)
    requires clock < v && (op.Update? ==> op.received < v)
    ensures Apply(op, clock) <= v
  {
  }

  // ----- One clock, many callers -----

  type Caller = nat

  /** A caller is between operations, about to load, or holding a loaded value to swap against. */
  datatype Phase = Idle | Trying(op: Op) | Loaded(op: Op, current: Stamp)

  datatype Return = Return(caller: Caller, op: Op, value: Stamp)

  datatype Machine = Machine(counter: Stamp, phases: map<Caller, Phase>, returned: seq<Return>) {
    function At(c: Caller): Phase {
      if c in phases then phases[c] else Idle
    }

    function Move(c: Caller, p: Phase): Machine {
      this.(phases := phases[c := p])
    }

    function Finish(c: Caller, op: Op, value: Stamp): Machine {
      Machine(value, phases[c := Idle], returned + [Return(c, op, value)])
    }
  }

  datatype Action = Call(c: Caller, op: Op) | Load(c: Caller) | Swap(c: Caller)

  predicate Enabled(m: Machine, a: Action) {
    match a
    case Call(c, _) => m.At(c).Idle?
    case Load(c) => m.At(c).Trying?
    case Swap(c) => m.At(c).Loaded?
  }

  /** Each step touches the counter atomically; a failed swap goes round the loop again. */
  function Next(m: Machine, a: Action): Machine
    requires Enabled(m, a)
  {
    match a
    case Call(c, op) => m.Move(c, Trying(op))
    case Load(c) =>
      var op := m.At(c).op;
      if op.Tick? && m.counter == MAX_STAMP then m.Finish(c, op, MAX_STAMP) else m.Move(c, Loaded(op, m.counter))
    case Swap(c) =>
      var Loaded(op, current) := m.At(c);
      if m.counter == current then m.Finish(c, op, Apply(op, current)) else m.Move(c, Trying(op))
  }

  ghost predicate Runs(m: Machine, actions: seq<Action>)
    decreases |actions|, 0
  {
    actions == [] ||
    var n := |actions| - 1;
    Runs(m, actions[..n]) && Enabled(After(m, actions[..n]), actions[n])
  }

  ghost function After(m: Machine, actions: seq<Action>): Machine
    requires Runs(m, actions)
    decreases |actions|, 1
  {
    if actions == [] then m
    else Next(After(m, actions[..|actions| - 1]), actions[|actions| - 1])
  }

  /** The operations one after the other on a clock that starts at `clock`. */
  ghost predicate Sequential(clock: Stamp, history: seq<Return>) {
    history == [] ||
    var n := |history| - 1;
    Sequential(clock, history[..n]) && history[n].value == Apply(history[n].op, Final(clock, history[..n]))
  }

  ghost function Final(clock: Stamp, history: seq<Return>): Stamp {
    if history == [] then clock else history[|history| - 1].value
  }

  /** Every interleaving of the loops is a sequence of atomic operations, in the order they return. */
  lemma {:induction false} Linearizable(m: Machine, actions: seq<Action>)
    requires m.returned == [] && Runs(m, actions)
    ensures Sequential(m.counter, After(m, actions).returned)
    ensures After(m, actions).counter == Final(m.counter, After(m, actions).returned)
  {
    if actions != [] {
      var n := |actions| - 1;
      Linearizable(m, actions[..n]);
      var before, after := After(m, actions[..n]), After(m, actions);
      if after.returned != before.returned {
        var last := after.returned[|after.returned| - 1];
        assert after.returned[..|after.returned| - 1] == before.returned;
        assert last.value == Apply(last.op, before.counter);
      }
    }
  }

  lemma {:induction false} SequentialGrows(clock: Stamp, history: seq<Return>, i: nat)
    requires Sequential(clock, history) && i < |history|
    ensures clock < history[i].value || clock == history[i].value == MAX_STAMP
    ensures history[i].value <= Final(clock, history)
    ensures i < |history| - 1 ==> history[i].value < Final(clock, history) || history[i].value == MAX_STAMP
  {
    var n := |history| - 1;
    if n > 0 {
      SequentialGrows(clock, history[..n], if i < n then i else n - 1);
    }
  }

  lemma {:induction false} SequentialPrefix(clock: Stamp, history: seq<Return>, k: nat)
    requires Sequential(clock, history) && k <= |history|
    ensures Sequential(clock, history[..k])
  {
    if k == |history| {
      assert history[..k] == history;
    } else {
      var n := |history| - 1;
      SequentialPrefix(clock, history[..n], k);
      assert history[..n][..k] == history[..k];
    }
  }

  /** However the callers interleave, two calls that return below the maximum return different values. */
  lemma ConcurrentCallsDistinct(m: Machine, actions: seq<Action>, i: nat, j: nat)
    requires m.returned == [] && Runs(m, actions) && i < j < |After(m, actions).returned|
    ensures
      var done := After(m, actions).returned;
      done[i].value < done[j].value || done[i].value == done[j].value == MAX_STAMP
  {
    var done := After(m, actions).returned;
    Linearizable(m, actions);
    SequentialPrefix(m.counter, done, j + 1);
    SequentialGrows(m.counter, done[..j + 1], i);
  }

  predicate ActsFor(a: Action, c: Caller) {
    a.c == c
  }

  /** Others leave a caller where it is, and the counter moves only when a call returns. */
  lemma {:induction false} OthersReturn(m: Machine, actions: seq<Action>, c: Caller)
    requires Runs(m, actions) && forall a :: a in actions ==> !ActsFor(a, c)
    ensures After(m, actions).At(c) == m.At(c) && m.returned <= After(m, actions).returned
    ensures After(m, actions).returned == m.returned ==> After(m, actions).counter == m.counter
  {
    if actions != [] {
      var n := |actions| - 1;
      assert actions[n] in actions && forall a :: a in actions[..n] ==> a in actions;
      OthersReturn(m, actions[..n], c);
    }
  }

  /** The loops make progress: a caller that has just loaded succeeds with its swap, returning the timestamp of its
      operation, unless another call returned in between. */
  lemma SwapSucceedsUnlessAnotherReturned(m: Machine, actions: seq<Action>, c: Caller)
    requires Runs(m, actions) && forall a :: a in actions ==> !ActsFor(a, c)
    requires m.At(c).Loaded? && m.At(c).current == m.counter
    ensures Enabled(After(m, actions), Swap(c))
    ensures
      var before, op := After(m, actions), m.At(c).op;
      var after := Next(before, Swap(c));
      if after.At(c).Idle? then after.returned == before.returned + [Return(c, op, Apply(op, m.counter))]
      else |before.returned| > |m.returned|
  {
    OthersReturn(m, actions, c);
  }

  /** A tick or an update loads the counter, or returns at once from a clock that is at its end. */
  lemma LoadProgresses(m: Machine, c: Caller)
    requires Enabled(m, Load(c))
    ensures
      var after, op := Next(m, Load(c)), m.At(c).op;
      || after.At(c) == Loaded(op, m.counter)
      || (m.counter == MAX_STAMP && after.returned == m.returned + [Return(c, op, MAX_STAMP)] && after.At(c).Idle?)
  {
  }

  // ----- Many processes -----

  type Process = nat

  /** A local event, a message sent, the receipt of the message sent at an earlier event, or an update with
      a timestamp from outside the run. */
  datatype Event =
    | Local(p: Process)
    | Send(p: Process)
    | Receive(p: Process, from: nat)
    | Foreign(p: Process, received: Stamp)

  ghost predicate WellFormed(run: seq<Event>) {
    forall i | 0 <= i < |run| :: run[i].Receive? ==> run[i].from < i && run[run[i].from].Send?
  }

  /** The clock of a process after the first `n` events; clocks may start anywhere. */
  ghost function Clock(start: Process -> Stamp, run: seq<Event>, n: nat, p: Process): Stamp
    requires WellFormed(run) && n <= |run|
    decreases n, 1
  {
    if n == 0 then start(p)
    else if run[n - 1].p == p then StampOf(start, run, n - 1)
    else Clock(start, run, n - 1, p)
  }

  /** The timestamp given to event `i`: a receipt updates with the sender's timestamp. */
  ghost function StampOf(start: Process -> Stamp, run: seq<Event>, i: nat): Stamp
    requires WellFormed(run) && i < |run|
    decreases i, 2
  {
    var clock := Clock(start, run, i, run[i].p);
    match run[i]
    case Local(_) => Apply(Tick, clock)
    case Send(_) => Apply(Tick, clock)
    case Receive(_, from) => Apply(Update(StampOf(start, run, from)), clock)
    case Foreign(_, received) => Apply(Update(received), clock)
  }

  /** Program order or message order. */
  ghost predicate Precedes(run: seq<Event>, i: nat, j: nat) {
    i < j < |run| && (run[i].p == run[j].p || (run[j].Receive? && run[j].from == i))
  }

  /** The transitive closure of program order and message order. */
  ghost predicate HappensBefore(run: seq<Event>, i: nat, j: nat)
    decreases j
  {
    exists k: nat | k < j :: Precedes(run, k, j) && (i == k || HappensBefore(run, i, k))
  }

  lemma {:induction false} HappensBeforeTransitive(run: seq<Event>, i: nat, j: nat, k: nat)
    requires HappensBefore(run, i, j) && HappensBefore(run, j, k)
    ensures HappensBefore(run, i, k)
    decreases k
  {
    var h: nat :| h < k && Precedes(run, h, k) && (j == h || HappensBefore(run, j, h));
    if j != h { HappensBeforeTransitive(run, i, j, h); }
  }

  /** A process's clock is at least every timestamp it has given out. */
  lemma {:induction false} ClockCovers(start: Process -> Stamp, run: seq<Event>, i: nat, n: nat)
    requires WellFormed(run) && i < n <= |run|
    ensures StampOf(start, run, i) <= Clock(start, run, n, run[i].p)
  {
    if i < n - 1 {
      ClockCovers(start, run, i, n - 1);
    }
  }

  lemma PrecedesOrders(start: Process -> Stamp, run: seq<Event>, i: nat, j: nat)
    requires WellFormed(run) && Precedes(run, i, j)
    ensures
      var a, b := StampOf(start, run, i), StampOf(start, run, j);
      a < b || a == b == MAX_STAMP
  {
    if run[i].p == run[j].p { ClockCovers(start, run, i, j); }
  }

  lemma {:induction false} CausalityNeverReversed(start: Process -> Stamp, run: seq<Event>, i: nat, j: nat)
    requires WellFormed(run) && HappensBefore(run, i, j)
    ensures
      i < j < |run| &&
      var a, b := StampOf(start, run, i), StampOf(start, run, j);
      a < b || a == b == MAX_STAMP
    decreases j
  {
    var k: nat :| k < j && Precedes(run, k, j) && (i == k || HappensBefore(run, i, k));
    PrecedesOrders(start, run, k, j);
    if i != k { CausalityNeverReversed(start, run, i, k); }
  }

  /** The promised order is strict exactly while the earlier timestamp is below the maximum. */
  lemma CausalityStrictIffUnsaturated(start: Process -> Stamp, run: seq<Event>, i: nat, j: nat)
    requires WellFormed(run) && HappensBefore(run, i, j)
    ensures i < j < |run|
    ensures StampOf(start, run, i) < StampOf(start, run, j) <==> StampOf(start, run, i) < MAX_STAMP
  {
    CausalityNeverReversed(start, run, i, j);
  }

  /** A clock restored at the maximum orders nothing: a message and its receipt get the same timestamp. */
  lemma SaturatedClockTies(run: seq<Event>)
    requires run == [Send(0), Receive(1, 0)]
    ensures WellFormed(run) && HappensBefore(run, 0, 1)
    ensures StampOf(_ => MAX_STAMP, run, 0) == StampOf(_ => MAX_STAMP, run, 1)
  {
    assert Precedes(run, 0, 1);
  }

  // ----- What a timestamp counts -----

  /** A causal chain: each event follows the one before it in program or message order. */
  ghost predicate Chain(run: seq<Event>, c: seq<nat>) {
    && c != [] && c[|c| - 1] < |run|
    && forall k | 0 <= k < |c| - 1 :: Precedes(run, c[k], c[k + 1])
  }

  ghost predicate EndsAt(c: seq<nat>, i: nat) {
    c != [] && c[|c| - 1] == i
  }

  ghost predicate NothingForeign(run: seq<Event>) {
    forall e :: e in run ==> !e.Foreign?
  }

  /** A process's clock is where it started, or the timestamp of its last event. */
  lemma {:induction false} LastEvent(start: Process -> Stamp, run: seq<Event>, n: nat, p: Process)
    returns (last: Option<nat>)
    requires WellFormed(run) && n <= |run|
    ensures last.None? ==> Clock(start, run, n, p) == start(p)
    ensures last.Some? ==>
      last.value < n && run[last.value].p == p && Clock(start, run, n, p) == StampOf(start, run, last.value)
  {
    if n == 0 {
      last := None;
    } else if run[n - 1].p == p {
      last := Some(n - 1);
    } else {
      last := LastEvent(start, run, n - 1, p);
    }
  }

  lemma ChainSnoc(run: seq<Event>, c: seq<nat>, i: nat)
    requires Chain(run, c) && Precedes(run, c[|c| - 1], i)
    ensures Chain(run, c + [i]) && EndsAt(c + [i], i)
  {
    var d := c + [i];
    assert forall k | 0 <= k < |c| :: d[k] == c[k];
  }

  /** Timestamps grow along every chain, so an event's timestamp is at least the length of a chain that ends there. */
  lemma {:induction false} ChainBelowStamp(start: Process -> Stamp, run: seq<Event>, c: seq<nat>)
    requires WellFormed(run) && Chain(run, c)
    ensures
      var stamp := StampOf(start, run, c[|c| - 1]);
      |c| <= stamp || stamp == MAX_STAMP
  {
    var i := c[|c| - 1];
    if |c| > 1 {
      var front := c[..|c| - 1];
      assert Precedes(run, c[|c| - 2], c[|c| - 1]);
      ChainBelowStamp(start, run, front);
      PrecedesOrders(start, run, c[|c| - 2], i);
    }
  }

  /** A chain along which the timestamp was counted up. */
  lemma {:induction false} SomeChain(start: Process -> Stamp, run: seq<Event>, i: nat) returns (c: seq<nat>)
    requires WellFormed(run) && NothingForeign(run) && i < |run| && forall p :: start(p) == 0
    ensures Chain(run, c) && EndsAt(c, i) && StampOf(start, run, i) <= |c| <= i + 1
    decreases i
  {
    assert run[i] in run;
    var p := run[i].p;
    var last := LastEvent(start, run, i, p);
    var clock := Clock(start, run, i, p);
    c := [i];
    if run[i].Receive? && StampOf(start, run, run[i].from) > clock {
      var d := SomeChain(start, run, run[i].from);
      ChainSnoc(run, d, i);
      c := d + [i];
    } else if last.Some? {
      var d := SomeChain(start, run, last.value);
      ChainSnoc(run, d, i);
      c := d + [i];
    }
  }

  /** From clocks at 0, and without timestamps from outside, an event's timestamp is the length of the longest causal
      chain that ends at it, as long as that is below the maximum; it never exceeds the number of events so far. */
  lemma StampIsLongestChain(start: Process -> Stamp, run: seq<Event>, i: nat) returns (longest: seq<nat>)
    requires WellFormed(run) && NothingForeign(run) && i < |run| && forall p :: start(p) == 0
    ensures Chain(run, longest) && EndsAt(longest, i) && |longest| <= i + 1
    ensures StampOf(start, run, i) == if |longest| < MAX_STAMP then |longest| else MAX_STAMP
    ensures forall c :: Chain(run, c) && EndsAt(c, i) ==>
      |c| <= StampOf(start, run, i) || StampOf(start, run, i) == MAX_STAMP
  {
    longest := SomeChain(start, run, i);
    ChainBelowStamp(start, run, longest);
    forall c | Chain(run, c) && EndsAt(c, i)
      ensures |c| <= StampOf(start, run, i) || StampOf(start, run, i) == MAX_STAMP
    {
      ChainBelowStamp(start, run, c);
    }
  }

  /** The promised strict order, for every run of fewer than 2^64 events from new clocks. */
  lemma NewClocksOrderStrictly(start: Process -> Stamp, run: seq<Event>, i: nat, j: nat)
    requires WellFormed(run) && NothingForeign(run) && |run| <= MAX_STAMP && forall p :: start(p) == 0
    requires HappensBefore(run, i, j)
    ensures i < j < |run| && StampOf(start, run, i) < StampOf(start, run, j)
  {
    CausalityNeverReversed(start, run, i, j);
    var c := StampIsLongestChain(start, run, i);
  }
}
