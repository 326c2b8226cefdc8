/**
 The proxy add-on chain (proxy-addons/context.go, proxy-addons/addons.go): handlers run in order, each may run
 the rest of the chain from inside itself, abort it, or reject the request. A single 8-bit cursor is shared by all
 the nested runs.
 */
module AddonChain {
  import opened Common

  const ABORT_INDEX := 63

  /** What a handler does to its context, in order. */
  datatype Action = CallNext | CallAbort | CallReject(error: string)

  /** The cursor and error of a context, and two records of the run: handlers started, and whether any stopped it. */
  datatype Context = Context(index: int, err: Option<string>, started: seq<nat>, stopped: bool)

  const START := Context(-1, None, [], false)

  /** How a run ends; a negative cursor indexes outside the chain, and a run may also never end. */
  datatype Outcome = Done(c: Context) | Panic | OutOfFuel

  /** Increment of a signed 8-bit counter. */
  function Inc8(i: int): (r: int)
    ensures -128 <= i < 128 ==> -128 <= r < 128 && (r == i + 1 || r + 256 == i + 1)
  {
    if i == 127 then -128 else i + 1
  }

  /** Conversion of a length to a signed 8-bit number. */
  function Int8(n: nat): (r: int)
    ensures -128 <= r < 128 && (n - r) % 256 == 0
  {
    if n % 256 >= 128 then n % 256 - 256 else n % 256
  }

  function Stop(c: Context): Context {
    c.(index := ABORT_INDEX, stopped := true)
  }

  /** Runs the rest of the chain. Fuel bounds the number of handlers started one after or inside another. */
  function Next(fuel: nat, chain: seq<seq<Action>>, c: Context): Outcome
    decreases fuel, 1
  {
    Loop(fuel, chain, c.(index := Inc8(c.index)))
  }

  function Loop(fuel: nat, chain: seq<seq<Action>>, c: Context): Outcome
    decreases fuel, 0
  {
    if c.index >= Int8(|chain|) then Done(c)
    else if c.index < 0 || c.index >= |chain| then Panic
    else if fuel == 0 then OutOfFuel
    else
      match Perform(fuel - 1, chain, chain[c.index], c.(started := c.started + [c.index]))
      case Done(d) => Loop(fuel - 1, chain, d.(index := Inc8(d.index)))
      case other => other
  }

  /** Carries out a handler's actions. */
  function Perform(fuel: nat, chain: seq<seq<Action>>, script: seq<Action>, c: Context): Outcome
    decreases fuel, 2 + |script|
  {
    if script == [] then Done(c)
    else
      match script[0]
      case CallAbort => Perform(fuel, chain, script[1..], Stop(c))
      case CallReject(e) => Perform(fuel, chain, script[1..], Stop(c).(err := Some(e)))
      case CallNext =>
        match Next(fuel, chain, c)
        case Done(d) => Perform(fuel, chain, script[1..], d)
        case other => other
  }

  // -------- chains of at most 63 handlers --------

  /** A handler that runs the rest of the chain at most once. */
  ghost predicate NextOnce(script: seq<Action>) {
    forall j, k :: 0 <= j < k < |script| && script[j].CallNext? ==> !script[k].CallNext?
  }

  ghost predicate WellBehaved(chain: seq<seq<Action>>) {
    forall i :: 0 <= i < |chain| ==> NextOnce(chain[i])
  }

  ghost function Nexts(script: seq<Action>): nat {
    if script == [] then 0 else Nexts(script[1..]) + if script[0].CallNext? then 1 else 0
  }

  lemma {:induction false} NextsOnce(script: seq<Action>)
    requires NextOnce(script)
    ensures Nexts(script) <= 1 && (Nexts(script) == 0 <==> CallNext !in script)
  {
    if script != [] {
      NextsOnce(script[1..]);
    }
  }

  function Range(a: nat, b: nat): (r: seq<nat>)
    ensures |r| == if a < b then b - a else 0
  {
    if a < b then seq(b - a, i requires 0 <= i => a + i) else []
  }

  lemma RangeJoins(a: nat, b: nat, c: nat)
    requires a <= b <= c
    ensures Range(a, b) + Range(b, c) == Range(a, c)
  {
  }

  /** How far the cursor can be when a run of the rest of the chain from position k returns. */
  function Cap(n: nat, k: int): int {
    64 + if n > k + 1 then n - (k + 1) else 0
  }

  /** What stays true of a context: once stopped, the cursor is at or past the sentinel; an error means stopped. */
  predicate Sane(c: Context) {
    (c.stopped ==> c.index >= ABORT_INDEX) && (c.err.Some? ==> c.stopped)
  }

  /** Between two contexts m handlers were started, consecutive from a position; none once stopped; errors stay. */
  ghost predicate Started(from: nat, m: nat, c: Context, d: Context) {
    && d.started == c.started + Range(from, from + m)
    && (c.stopped ==> d.stopped && m == 0)
    && (c.err.Some? ==> d.err.Some?)
  }

  lemma StartedNone(from: nat, c: Context)
    ensures Started(from, 0, c, c)
  {
    assert Range(from, from) == [] && c.started + [] == c.started;
  }

  lemma StartedJoins(from: nat, m: nat, l: nat, c: Context, d: Context, e: Context)
    requires Started(from, m, c, d) && Started(from + m, l, d, e)
    ensures Started(from, m + l, c, e)
  {
    hide Range;
    RangeJoins(from, from + m, from + m + l);
    var x, y := Range(from, from + m), Range(from + m, from + m + l);
    assert (c.started + x) + y == c.started + (x + y);
  }

  /** A run of the rest of the chain, from position k, of n handlers: all of the rest unless stopped. */
  ghost predicate RanOn(n: nat, k: int, from: nat, m: nat, c: Context, d: Context) {
    && Sane(d) && n <= d.index <= Cap(n, k)
    && Started(from, m, c, d) && (from + m <= n || m == 0)
    && (!d.stopped ==> from + m >= n)
  }

  /** A handler's own effect: it leaves the cursor on itself, or ran or stopped the rest. */
  ghost predicate Performed(n: nat, j: nat, m: nat, c: Context, d: Context) {
    && Sane(d) && j <= d.index <= Cap(n, j)
    && Started(j + 1, m, c, d) && j + 1 + m <= n
    && (!d.stopped ==> (d.index == c.index && m == 0) || (d.index >= n && j + 1 + m == n))
  }

  lemma {:induction false} NextRuns(fuel: nat, chain: seq<seq<Action>>, c: Context) returns (m: nat)
    requires |chain| <= 63 && WellBehaved(chain) && Sane(c) && -1 <= c.index <= 63
    requires fuel + c.index + 1 >= |chain|
    ensures Next(fuel, chain, c).Done? && RanOn(|chain|, c.index, c.index + 1, m, c, Next(fuel, chain, c).c)
    decreases fuel, 1
  {
    m := LoopRuns(fuel, chain, c.(index := c.index + 1), c.index);
  }

  lemma {:induction false} LoopRuns(fuel: nat, chain: seq<seq<Action>>, c: Context, k: int) returns (m: nat)
    requires |chain| <= 63 && WellBehaved(chain) && Sane(c) && -1 <= k < c.index <= Cap(|chain|, k)
    requires fuel + c.index >= |chain|
    ensures Loop(fuel, chain, c).Done? && RanOn(|chain|, k, c.index, m, c, Loop(fuel, chain, c).c)
    decreases fuel, 0
  {
    hide Started, Range, Perform;
    var n, j := |chain|, c.index;
    if j >= n {
      m := 0;
      StartedNone(j, c);
    } else {
      var c1 := c.(started := c.started + [j]);
      NextsOnce(chain[j]);
      var m1 := PerformRuns(fuel - 1, chain, chain[j], c1, j);
      var d := Perform(fuel - 1, chain, chain[j], c1).c;
      var d1 := d.(index := d.index + 1);
      var m2 := LoopRuns(fuel - 1, chain, d1, k);
      m := 1 + m1 + m2;
      LoopStep(n, k, j, m1, m2, c, d, Loop(fuel - 1, chain, d1).c);
    }
  }

  /** One turn of the loop: a handler, what it ran or stopped, and the rest. */
  lemma LoopStep(n: nat, k: int, j: nat, m1: nat, m2: nat, c: Context, d: Context, e: Context)
    requires j < n <= 63 && k < j && c.index == j && Sane(c)
    requires Performed(n, j, m1, c.(started := c.started + [j]), d)
    requires RanOn(n, k, d.index + 1, m2, d.(index := d.index + 1), e)
    ensures RanOn(n, k, j, 1 + m1 + m2, c, e)
  {
    assert Range(j, j + 1) == [j];
    assert Started(j, 1, c, c.(started := c.started + [j]));
    StartedJoins(j, 1, m1, c, c.(started := c.started + [j]), d);
    if m2 == 0 {
      assert Range(j + 1 + m1, j + 1 + m1) == [];
    }
    StartedJoins(j, 1 + m1, m2, c, d, e);
  }

  lemma {:induction false} PerformRuns(fuel: nat, chain: seq<seq<Action>>, script: seq<Action>, c: Context, j: nat) returns (m: nat)
    requires |chain| <= 63 && WellBehaved(chain) && j < |chain| && Sane(c) && j <= c.index <= Cap(|chain|, j)
    requires Nexts(script) <= 1
    requires Nexts(script) == 1 ==> (c.index == j && !c.stopped) || (c.index == 63 && c.stopped)
    requires fuel + j + 1 >= |chain|
    ensures Perform(fuel, chain, script, c).Done? && Performed(|chain|, j, m, c, Perform(fuel, chain, script, c).c)
    ensures Nexts(script) == 0 ==> m == 0
    decreases fuel, 2 + |script|
  {
    var n := |chain|;
    if script == [] {
      m := 0;
      assert Range(j + 1, j + 1) == [] && c.started + [] == c.started;
    } else {
      match script[0]
      case CallAbort =>
        m := PerformRuns(fuel, chain, script[1..], Stop(c), j);
      case CallReject(e) =>
        m := PerformRuns(fuel, chain, script[1..], Stop(c).(err := Some(e)), j);
      case CallNext =>
        var m1 := NextRuns(fuel, chain, c);
        var d := Next(fuel, chain, c).c;
        var m2 := PerformRuns(fuel, chain, script[1..], d, j);
        m := m1;
        PerformStep(n, j, m1, c, d, Perform(fuel, chain, script[1..], d).c);
    }
  }

  lemma PerformStep(n: nat, j: nat, m: nat, c: Context, d: Context, e: Context)
    requires j < n <= 63 && Sane(c) && ((c.index == j && !c.stopped) || (c.index == 63 && c.stopped))
    requires RanOn(n, c.index, c.index + 1, m, c, d) && Performed(n, j, 0, d, e)
    ensures Performed(n, j, m, c, e)
  {
    assert Range(j + 1, j + 1) == [] && d.started + [] == d.started;
    if c.stopped {
      assert Range(64, 64) == [] && c.started + [] == c.started;
    }
  }

  /** The rest of the chain from the start, as a prefix of all the handlers. */
  lemma ChainRuns(fuel: nat, chain: seq<seq<Action>>)
    requires |chain| <= 63 && WellBehaved(chain) && fuel >= |chain|
    ensures Next(fuel, chain, START).Done?
    ensures var d := Next(fuel, chain, START).c;
            && |d.started| <= |chain| && d.started == Range(0, |d.started|)
            && (!d.stopped ==> d.started == Range(0, |chain|))
            && (d.err.Some? ==> d.stopped)
            && |chain| <= d.index <= 127
  {
    var m := NextRuns(fuel, chain, START);
    var d := Next(fuel, chain, START).c;
    assert [] + Range(0, m) == Range(0, m);
  }

  // -------- fuel only bounds the run --------

  lemma {:induction false} MoreFuelNext(fuel: nat, chain: seq<seq<Action>>, c: Context)
    requires Next(fuel, chain, c) != OutOfFuel
    ensures Next(fuel + 1, chain, c) == Next(fuel, chain, c)
    decreases fuel, 1
  {
    MoreFuelLoop(fuel, chain, c.(index := Inc8(c.index)));
  }

  lemma {:induction false} MoreFuelLoop(fuel: nat, chain: seq<seq<Action>>, c: Context)
    requires Loop(fuel, chain, c) != OutOfFuel
    ensures Loop(fuel + 1, chain, c) == Loop(fuel, chain, c)
    decreases fuel, 0
  {
    if 0 <= c.index < Int8(|chain|) && c.index < |chain| {
      var c1 := c.(started := c.started + [c.index]);
      MoreFuelPerform(fuel - 1, chain, chain[c.index], c1);
      var r := Perform(fuel - 1, chain, chain[c.index], c1);
      if r.Done? {
        MoreFuelLoop(fuel - 1, chain, r.c.(index := Inc8(r.c.index)));
      }
    }
  }

  lemma {:induction false} MoreFuelPerform(fuel: nat, chain: seq<seq<Action>>, script: seq<Action>, c: Context)
    requires Perform(fuel, chain, script, c) != OutOfFuel
    ensures Perform(fuel + 1, chain, script, c) == Perform(fuel, chain, script, c)
    decreases fuel, 2 + |script|
  {
    if script != [] {
      match script[0]
      case CallAbort => MoreFuelPerform(fuel, chain, script[1..], Stop(c));
      case CallReject(e) => MoreFuelPerform(fuel, chain, script[1..], Stop(c).(err := Some(e)));
      case CallNext =>
        MoreFuelNext(fuel, chain, c);
        if Next(fuel, chain, c).Done? {
          MoreFuelPerform(fuel, chain, script[1..], Next(fuel, chain, c).c);
        }
    }
  }

  // -------- longer chains --------

  /** A chain whose every handler runs the rest from inside itself. */
  function AllNext(n: nat): (chain: seq<seq<Action>>)
    ensures |chain| == n
  {
    seq(n, _ => [CallNext])
  }

  /** The cursor counts once on the way in and once on the way out of each handler. */
  lemma {:induction false} AllNextLoop(fuel: nat, n: nat, m: nat, c: Context)
    requires Int8(n) == m && m <= n && 0 <= c.index <= m && fuel + c.index >= m
    ensures Loop(fuel, AllNext(n), c) ==
            if 2 * m - c.index <= 127
            then Done(c.(index := 2 * m - c.index, started := c.started + Range(c.index, m))) else Panic
    decreases m - c.index
  {
    hide Perform, Range, AllNext;
    var chain, j := AllNext(n), c.index;
    if j == m {
      NextRange(c.started, m, m);
      LoopOver(fuel, chain, c);
    } else {
      var c1 := c.(started := c.started + [j]);
      var inner := c1.(index := j + 1);
      AllNextLoop(fuel - 1, n, m, inner);
      assert Next(fuel - 1, chain, c1) == Loop(fuel - 1, chain, inner);
      AllNextAt(n, j);
      AllNextTurn(fuel, chain, c);
      NextRange(c.started, j, m);
      if 2 * m - j <= 128 {
        LoopOver(fuel - 1, chain, Loop(fuel - 1, chain, inner).c.(index := Inc8(2 * m - j - 1)));
      }
    }
  }

  lemma NextRange(s: seq<nat>, j: nat, m: nat)
    requires j <= m
    ensures j == m ==> s + Range(j, m) == s
    ensures j < m ==> s + Range(j, m) == (s + [j]) + Range(j + 1, m)
  {
    if j < m {
      assert Range(j, m) == [j] + Range(j + 1, m);
    }
  }

  lemma AllNextAt(n: nat, j: nat)
    requires j < n
    ensures AllNext(n)[j] == [CallNext]
  {
  }

  /** The loop ends, or indexes outside the chain, as soon as the cursor leaves it. */
  lemma LoopOver(fuel: nat, chain: seq<seq<Action>>, c: Context)
    ensures c.index >= Int8(|chain|) ==> Loop(fuel, chain, c) == Done(c)
    ensures c.index < Int8(|chain|) && c.index < 0 ==> Loop(fuel, chain, c) == Panic
  {
  }

  lemma AllNextTurn(fuel: nat, chain: seq<seq<Action>>, c: Context)
    requires fuel > 0 && 0 <= c.index < Int8(|chain|) && c.index < |chain| && chain[c.index] == [CallNext]
    ensures Loop(fuel, chain, c) ==
            match Next(fuel - 1, chain, c.(started := c.started + [c.index]))
            case Done(d) => Loop(fuel - 1, chain, d.(index := Inc8(d.index)))
            case other => other
  {
    hide Next;
    var c1, script := c.(started := c.started + [c.index]), chain[c.index];
    var r := Next(fuel - 1, chain, c1);
    assert Perform(fuel - 1, chain, script, c1) == r by {
      assert script[0] == CallNext && script[1..] == [];
      if r.Done? {
        assert Perform(fuel - 1, chain, script[1..], r.c) == Done(r.c);
      }
    }
  }

  /** A chain of handlers that all nest runs them all and returns exactly when there are at most 63 of them. */
  lemma AllNextRunsIff(fuel: nat, n: nat)
    requires fuel >= n
    ensures (Next(fuel, AllNext(n), START).Done? && Next(fuel, AllNext(n), START).c.started == Range(0, n)) <==> n <= 63
  {
    var m := Int8(n);
    if m > 0 {
      AllNextLoop(fuel, n, m, START.(index := 0));
    }
  }

  /** A chain of idle handlers, except for one that aborts. */
  function AbortAt(n: nat, k: nat): (chain: seq<seq<Action>>)
    ensures |chain| == n
  {
    seq(n, i => if i == k then [CallAbort] else [])
  }

  ghost function IdledTo(c: Context, end: nat): Context
    requires 0 <= c.index <= end
  {
    Context(end, c.err, c.started + Range(c.index, end), c.stopped)
  }

  lemma IdleTurn(fuel: nat, n: nat, k: nat, c: Context)
    requires n <= 127 && 0 <= c.index < n && k != c.index && fuel > 0
    ensures Loop(fuel, AbortAt(n, k), c) ==
            Loop(fuel - 1, AbortAt(n, k), c.(index := c.index + 1, started := c.started + [c.index]))
  {
    assert AbortAt(n, k)[c.index] == [];
  }

  lemma {:induction false} IdleLoop(fuel: nat, n: nat, k: nat, c: Context, end: nat)
    requires n <= 127 && 0 <= c.index <= end <= n && (k < c.index || k >= end) && fuel + c.index >= end
    ensures Loop(fuel, AbortAt(n, k), c) == Loop(fuel - (end - c.index), AbortAt(n, k), IdledTo(c, end))
    decreases end - c.index
  {
    hide Loop, AbortAt;
    IdledSteps(c, end);
    if c.index < end {
      IdleTurn(fuel, n, k, c);
      IdleLoop(fuel - 1, n, k, c.(index := c.index + 1, started := c.started + [c.index]), end);
    }
  }

  lemma IdledSteps(c: Context, end: nat)
    requires 0 <= c.index <= end
    ensures c.index == end ==> IdledTo(c, end) == c
    ensures c.index < end ==> IdledTo(c.(index := c.index + 1, started := c.started + [c.index]), end) == IdledTo(c, end)
  {
    var j := c.index;
    if j == end {
      assert c.started + Range(end, end) == c.started;
    } else {
      assert Range(j, end) == [j] + Range(j + 1, end);
      assert c.started + ([j] + Range(j + 1, end)) == (c.started + [j]) + Range(j + 1, end);
    }
  }

  lemma AbortTurn(fuel: nat, n: nat, k: nat, c: Context)
    requires n <= 127 && c.index == k < n && fuel > 0
    ensures Loop(fuel, AbortAt(n, k), c) ==
            Loop(fuel - 1, AbortAt(n, k), c.(index := 64, started := c.started + [k], stopped := true))
  {
    var chain, c1 := AbortAt(n, k), c.(started := c.started + [k]);
    var script := chain[k];
    assert Perform(fuel - 1, chain, script, c1) == Done(Stop(c1)) by {
      assert script[0] == CallAbort && script[1..] == [];
      assert Perform(fuel - 1, chain, script[1..], Stop(c1)) == Done(Stop(c1));
    }
  }

  /** Aborting in the first handler keeps the others from starting exactly when there are at most 64. */
  lemma AbortHoldsIff(fuel: nat, n: nat)
    requires 1 <= n <= 127 && fuel >= n
    ensures Next(fuel, AbortAt(n, 0), START).Done?
    ensures Next(fuel, AbortAt(n, 0), START).c.started == [0] <==> n <= 64
  {
    var c := START.(index := 0);
    AbortTurn(fuel, n, 0, c);
    var c1 := c.(index := 64, started := c.started + [0], stopped := true);
    assert c1.started == [0];
    if n > 64 {
      IdleLoop(fuel - 1, n, 0, c1, n);
      assert |IdledTo(c1, n).started| > 1;
    }
  }

  lemma {:induction false} AbortLoops(fuel: nat, c: Context)
    requires c.index == 64
    ensures Loop(fuel, AbortAt(65, 64), c) == OutOfFuel
  {
    if fuel > 0 {
      AbortTurn(fuel, 65, 64, c);
      AbortLoops(fuel - 1, c.(started := c.started + [64], stopped := true));
    }
  }

  /** With 65 handlers, an abort in the last one sends the cursor back to it: the run never ends. */
  lemma AbortMayNeverEnd(fuel: nat)
    ensures Next(fuel, AbortAt(65, 64), START) == OutOfFuel
  {
    var c := START.(index := 0);
    if fuel >= 64 {
      IdleLoop(fuel, 65, 64, c, 64);
      AbortLoops(fuel - 64, c.(index := 64, started := [] + Range(0, 64)));
    } else {
      IdleLoop(fuel, 65, 64, c, fuel);
    }
  }

  // -------- rejections --------

  predicate HasReject(script: seq<Action>) {
    script != [] && (script[0].CallReject? || HasReject(script[1..]))
  }

  /** Does some handler among those started reject? */
  predicate AnyRejects(chain: seq<seq<Action>>, started: seq<nat>) {
    started != [] && ((started[0] < |chain| && HasReject(chain[started[0]])) || AnyRejects(chain, started[1..]))
  }

  lemma {:induction false} AnyRejectsJoins(chain: seq<seq<Action>>, a: seq<nat>, b: seq<nat>)
    ensures AnyRejects(chain, a + b) <==> AnyRejects(chain, a) || AnyRejects(chain, b)
  {
    if a == [] {
      assert a + b == b;
    } else {
      assert (a + b)[1..] == a[1..] + b;
      AnyRejectsJoins(chain, a[1..], b);
    }
  }

  /** The error is set exactly by what happened in between: a rejection already due, or one by a handler started. */
  ghost predicate Tracks(chain: seq<seq<Action>>, due: bool, c: Context, d: Context) {
    && c.started <= d.started
    && (d.err.Some? <==> c.err.Some? || due || AnyRejects(chain, d.started[|c.started|..]))
  }

  lemma TracksJoins(chain: seq<seq<Action>>, p: bool, q: bool, c: Context, d: Context, e: Context)
    requires Tracks(chain, p, c, d) && Tracks(chain, q, d, e)
    ensures Tracks(chain, p || q, c, e)
  {
    var a, b := d.started[|c.started|..], e.started[|d.started|..];
    AnyRejectsJoins(chain, a, b);
    assert e.started[|c.started|..] == a + b;
  }

  lemma {:induction false} NextTracks(fuel: nat, chain: seq<seq<Action>>, c: Context)
    requires Next(fuel, chain, c).Done?
    ensures Tracks(chain, false, c, Next(fuel, chain, c).c)
    decreases fuel, 1
  {
    LoopTracks(fuel, chain, c.(index := Inc8(c.index)));
  }

  lemma {:induction false} LoopTracks(fuel: nat, chain: seq<seq<Action>>, c: Context)
    requires Loop(fuel, chain, c).Done?
    ensures Tracks(chain, false, c, Loop(fuel, chain, c).c)
    decreases fuel, 0
  {
    if 0 <= c.index < Int8(|chain|) && c.index < |chain| {
      var j := c.index;
      var c1 := c.(started := c.started + [j]);
      PerformTracks(fuel - 1, chain, chain[j], c1);
      var d := Perform(fuel - 1, chain, chain[j], c1).c;
      var d1 := d.(index := Inc8(d.index));
      LoopTracks(fuel - 1, chain, d1);
      TracksStart(chain, j, c, d1);
      TracksJoins(chain, false, false, c, d1, Loop(fuel - 1, chain, d1).c);
    }
  }

  lemma TracksStart(chain: seq<seq<Action>>, j: nat, c: Context, d: Context)
    requires j < |chain| && Tracks(chain, HasReject(chain[j]), c.(started := c.started + [j]), d)
    ensures Tracks(chain, false, c, d)
  {
    var more := d.started[|c.started| + 1..];
    assert d.started[|c.started|..] == [j] + more;
    assert ([j] + more)[1..] == more;
  }

  lemma {:induction false} PerformTracks(fuel: nat, chain: seq<seq<Action>>, script: seq<Action>, c: Context)
    requires Perform(fuel, chain, script, c).Done?
    ensures Tracks(chain, HasReject(script), c, Perform(fuel, chain, script, c).c)
    decreases fuel, 2 + |script|
  {
    if script != [] {
      match script[0]
      case CallAbort => PerformTracks(fuel, chain, script[1..], Stop(c));
      case CallReject(e) => PerformTracks(fuel, chain, script[1..], Stop(c).(err := Some(e)));
      case CallNext =>
        NextTracks(fuel, chain, c);
        var d := Next(fuel, chain, c).c;
        PerformTracks(fuel, chain, script[1..], d);
        TracksJoins(chain, false, HasReject(script[1..]), c, d, Perform(fuel, chain, script[1..], d).c);
    }
  }

  /** Some handler among those started rejects with an error. */
  predicate RejectsWith(chain: seq<seq<Action>>, started: seq<nat>, error: string) {
    exists i :: 0 <= i < |started| && started[i] < |chain| && CallReject(error) in chain[started[i]]
  }

  /** An error that appears is one that a script still due, or a handler started meanwhile, rejects with. */
  ghost predicate ErrsFrom(chain: seq<seq<Action>>, due: seq<Action>, c: Context, d: Context) {
    && c.started <= d.started
    && (d.err.Some? ==> d.err == c.err || CallReject(d.err.value) in due || RejectsWith(chain, d.started, d.err.value))
  }

  lemma MoreStarted(chain: seq<seq<Action>>, a: seq<nat>, b: seq<nat>, error: string)
    requires a <= b && RejectsWith(chain, a, error)
    ensures RejectsWith(chain, b, error)
  {
    var i :| 0 <= i < |a| && a[i] < |chain| && CallReject(error) in chain[a[i]];
    assert b[i] == a[i];
  }

  lemma ErrsJoin(chain: seq<seq<Action>>, p: seq<Action>, q: seq<Action>, c: Context, d: Context, e: Context)
    requires ErrsFrom(chain, p, c, d) && ErrsFrom(chain, q, d, e)
    ensures ErrsFrom(chain, p + q, c, e)
  {
    if d.err.Some? && RejectsWith(chain, d.started, d.err.value) {
      MoreStarted(chain, d.started, e.started, d.err.value);
    }
  }

  lemma {:induction false} NextErrs(fuel: nat, chain: seq<seq<Action>>, c: Context)
    requires Next(fuel, chain, c).Done?
    ensures ErrsFrom(chain, [], c, Next(fuel, chain, c).c)
    decreases fuel, 1
  {
    LoopErrs(fuel, chain, c.(index := Inc8(c.index)));
  }

  lemma {:induction false} LoopErrs(fuel: nat, chain: seq<seq<Action>>, c: Context)
    requires Loop(fuel, chain, c).Done?
    ensures ErrsFrom(chain, [], c, Loop(fuel, chain, c).c)
    decreases fuel, 0
  {
    hide Perform, RejectsWith;
    if 0 <= c.index < Int8(|chain|) && c.index < |chain| {
      var j := c.index;
      var c1 := c.(started := c.started + [j]);
      PerformErrs(fuel - 1, chain, chain[j], c1);
      var d := Perform(fuel - 1, chain, chain[j], c1).c;
      var d1 := d.(index := Inc8(d.index));
      LoopErrs(fuel - 1, chain, d1);
      ErrsStart(chain, j, c, d1);
      ErrsJoin(chain, [], [], c, d1, Loop(fuel - 1, chain, d1).c);
    }
  }

  lemma ErrsStart(chain: seq<seq<Action>>, j: nat, c: Context, d: Context)
    requires j < |chain| && ErrsFrom(chain, chain[j], c.(started := c.started + [j]), d)
    ensures ErrsFrom(chain, [], c, d)
  {
    assert d.started[|c.started|] == j;
  }

  lemma {:induction false} PerformErrs(fuel: nat, chain: seq<seq<Action>>, script: seq<Action>, c: Context)
    requires Perform(fuel, chain, script, c).Done?
    ensures ErrsFrom(chain, script, c, Perform(fuel, chain, script, c).c)
    decreases fuel, 2 + |script|
  {
    hide RejectsWith;
    if script != [] {
      assert script == [script[0]] + script[1..];
      match script[0]
      case CallAbort => PerformErrs(fuel, chain, script[1..], Stop(c));
      case CallReject(e) => PerformErrs(fuel, chain, script[1..], Stop(c).(err := Some(e)));
      case CallNext =>
        NextErrs(fuel, chain, c);
        var d := Next(fuel, chain, c).c;
        PerformErrs(fuel, chain, script[1..], d);
        ErrsJoin(chain, [], script[1..], c, d, Perform(fuel, chain, script[1..], d).c);
    }
  }

  // -------- the interceptor --------

  /** What comes of a request: whether the real call was made, and the error returned, if any. */
  datatype Reply = Reply(invoked: bool, error: Option<string>)

  /** The HTTP interceptor; `copied` and `called` are the errors of copying the body and of the call itself. */
  function Intercept(fuel: nat, request: seq<seq<Action>>, response: seq<seq<Action>>,
                     copied: Option<string>, called: Option<string>): Option<Reply>
  {
    match Next(fuel, request, START)
    case Done(c) =>
      if c.err.Some? then Some(Reply(false, c.err))
      else if copied.Some? then Some(Reply(false, copied))
      else if called.Some? then Some(Reply(true, called))
      else
        (match Next(fuel, response, START)
         case Done(d) => Some(Reply(true, d.err))
         case _ => None)
    case _ => None
  }

  /**
   With at most 63 well-behaved handlers on each side the interceptor always replies, and the real call is made
   exactly when no request handler that was started rejects (and the body could be copied). The error returned is the
   first there is: one a request handler that was started rejects with, then of the copy, of the call, of the response.
   */
  lemma RejectedNeverInvoked(fuel: nat, request: seq<seq<Action>>, response: seq<seq<Action>>,
                             copied: Option<string>, called: Option<string>)
    requires |request| <= 63 && WellBehaved(request) && |response| <= 63 && WellBehaved(response)
    requires fuel >= 63
    ensures Next(fuel, request, START).Done? && Next(fuel, response, START).Done?
    ensures var c, d := Next(fuel, request, START).c, Next(fuel, response, START).c;
            var reply := Intercept(fuel, request, response, copied, called);
            && reply.Some?
            && (reply.value.invoked <==> !AnyRejects(request, c.started) && copied == None)
            && (reply.value.error == None <==>
                  !AnyRejects(request, c.started) && copied == None && called == None && !AnyRejects(response, d.started))
            && reply.value.error ==
               (if AnyRejects(request, c.started) then c.err
                else if copied.Some? then copied
                else if called.Some? then called
                else d.err)
            && (c.err.Some? ==> RejectsWith(request, c.started, c.err.value))
            && (d.err.Some? ==> RejectsWith(response, d.started, d.err.value))
  {
    hide Next;
    ChainRuns(fuel, request);
    ChainRuns(fuel, response);
    NextTracks(fuel, request, START);
    NextTracks(fuel, response, START);
    NextErrs(fuel, request, START);
    NextErrs(fuel, response, START);
  }

  // -------- the context as the source runs it --------

  /** How a call on a context comes back: it returns, indexes outside the chain, or is still going when fuel runs out. */
  datatype End = Returned | Panicked | Unfinished

  ghost predicate Ends(outcome: Outcome, end: End, c: Context) {
    match outcome
    case Done(d) => end == Returned && c == d
    case Panic => end == Panicked
    case OutOfFuel => end == Unfinished
  }

  class ContextT {
    const chain: seq<seq<Action>>
    var index: int
    var err: Option<string>
    ghost var started: seq<nat>
    ghost var stopped: bool

    ghost function View(): Context
      reads this
    {
      Context(index, err, started, stopped)
    }

    constructor (chain: seq<seq<Action>>)
      ensures this.chain == chain && View() == START
    {
      this.chain := chain;
      index, err, started, stopped := -1, None, [], false;
    }

    method Abort()
      modifies this
      ensures View() == Stop(old(View())) && index == 63 && err == old(err)
    {
      index := ABORT_INDEX;
      stopped := true;
    }

    method Reject(error: string)
      modifies this
      ensures View() == Stop(old(View())).(err := Some(error)) && index == 63 && err == Some(error)
    {
      Abort();
      err := Some(error);
    }

    /** Runs the rest of the chain. */
    method RunRest(fuel: nat) returns (end: End)
      modifies this
      ensures Ends(Next(fuel, chain, old(View())), end, View())
      decreases fuel, 1
    {
      index := Inc8(index);
      var left: nat := fuel;
      while index < Int8(|chain|)
        invariant left <= fuel && Loop(left, chain, View()) == Next(fuel, chain, old(View()))
        decreases left
      {
        if index < 0 || index >= |chain| {
          return Panicked;
        }
        if left == 0 {
          return Unfinished;
        }
        var k := index;
        started := started + [k];
        left := left - 1;
        end := RunHandler(left, chain[k]);
        if end != Returned {
          return;
        }
        index := Inc8(index);
      }
      return Returned;
    }

    method RunHandler(fuel: nat, script: seq<Action>) returns (end: End)
      modifies this
      ensures Ends(Perform(fuel, chain, script, old(View())), end, View())
      decreases fuel, 2 + |script|
    {
      for i := 0 to |script|
        invariant Perform(fuel, chain, script[i..], View()) == Perform(fuel, chain, script, old(View()))
      {
        assert script[i..][1..] == script[i + 1..];
        match script[i]
        case CallAbort =>
          Abort();
        case CallReject(e) =>
          Reject(e);
        case CallNext =>
          end := RunRest(fuel);
          if end != Returned {
            return;
          }
      }
      return Returned;
    }
  }
}
