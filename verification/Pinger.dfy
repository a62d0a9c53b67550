/** The timer loop of chapter3/ping.go. Between any two of its operations time may pass and the timer may
    expire. Both behaviours of a Go timer are covered: before Go 1.23 a tick stays in the timer's channel
    until it is received, since then Stop and Reset take back one that has not been. */
module Pinger {
  const DEFAULT_PING_INTERVAL := 30_000_000_000

  // ---------------------------------------------------------------- the timer

  /** setAt: when it was last armed; ticks: what its channel holds, each by the time it was armed. */
  datatype Timer = Timer(armed: bool, setAt: nat, deadline: nat, ticks: seq<nat>)

  /** Time passing between two operations; fires: whether the runtime gets round to expiring the timer,
      should it be due. */
  datatype Pause = Pause(elapse: nat, fires: bool)

  function Expire(t: Timer, now: nat, fires: bool): Timer {
    if t.armed && now >= t.deadline && fires
    then t.(armed := false, ticks := if t.ticks == [] then [t.setAt] else t.ticks)
    else t
  }

  /** Stop reports whether it kept the timer from delivering its tick. */
  function Stopped(t: Timer, takesBack: bool): (Timer, bool) {
    if t.armed then (t.(armed := false), true)
    else if takesBack && t.ticks != [] then (t.(ticks := []), true)
    else (t, false)
  }

  function Armed(t: Timer, now: nat, interval: nat, takesBack: bool): Timer {
    Timer(true, now, now + interval, if takesBack then [] else t.ticks)
  }

  // ---------------------------------------------------------------- the loop

  /** What the first, non-blocking, select finds. */
  datatype First = Cancelled | Value(d: int) | Nothing

  /** The case a select takes, and what happens until the timer is armed again or the function returns. */
  datatype Choice =
    | Done
    | Reset(d: int, beforeStop: Pause)
    | Tick(ok: bool, writing: Pause)   // ok: the write of the ping succeeds

  datatype Round = Round(waiting: Pause, choice: Choice, beforeEnd: Pause)

  datatype Status = Running | Returned | Stuck

  /** A ping as it is written: when, by a tick of a timer armed when, under which interval, and the latest
      of the start, the last reset and the last ping before it. */
  datatype Ping = Ping(time: nat, setAt: nat, interval: nat, since: nat, ok: bool)

  datatype State = State(now: nat, timer: Timer, interval: nat, status: Status, since: nat, pings: seq<Ping>)

  function Later(y: State, p: Pause): State {
    y.(now := y.now + p.elapse, timer := Expire(y.timer, y.now + p.elapse, p.fires))
  }

  /** Stop the timer and, if that came too late, receive its tick: for ever, if there is none. */
  function Drain(y: State, takesBack: bool): State {
    var (t, stopped) := Stopped(y.timer, takesBack);
    if stopped then y.(timer := t)
    else if t.ticks == [] then y.(timer := t, status := Stuck)
    else y.(timer := t.(ticks := t.ticks[1..]))
  }

  function Rearm(y: State, takesBack: bool): State {
    if y.status.Running? then y.(timer := Armed(y.timer, y.now, y.interval, takesBack)) else y
  }

  /** The deferred function, run when the loop is left. */
  function Leave(y: State, takesBack: bool): State {
    var z := Drain(y, takesBack);
    if z.status.Stuck? then z else z.(status := Returned)
  }

  /** One pass of the loop. A select that finds the chosen case not ready goes on waiting. */
  function Pass(y: State, r: Round, takesBack: bool): State {
    if !y.status.Running? then y
    else
      var z := Later(y, r.waiting);
      match r.choice
      case Done => Leave(Later(z, r.beforeEnd), takesBack)
      case Reset(d, beforeStop) =>
        var drained := Drain(Later(z, beforeStop), takesBack);
        if drained.status.Stuck? then drained
        else
          var reset := drained.(since := z.now, interval := if d > 0 then d else drained.interval);
          Rearm(Later(reset, r.beforeEnd), takesBack)
      case Tick(ok, writing) =>
        if z.timer.ticks == [] then z
        else
          var ping := Ping(z.now, z.timer.ticks[0], z.interval, z.since, ok);
          var received := z.(timer := z.timer.(ticks := z.timer.ticks[1..]), pings := z.pings + [ping]);
          var written := Later(received.(since := z.now), writing);
          if ok then Rearm(Later(written, r.beforeEnd), takesBack)
          else Leave(Later(written, r.beforeEnd), takesBack)
  }

  function FirstInterval(first: First): nat {
    if first.Value? && first.d > 0 then first.d else DEFAULT_PING_INTERVAL
  }

  function Start(now: nat, first: First): State {
    if first.Cancelled? then State(now, Timer(false, 0, 0, []), 0, Returned, now, [])
    else State(now, Timer(true, now, now + FirstInterval(first), []), FirstInterval(first), Running, now, [])
  }

  function Run(now: nat, first: First, rounds: seq<Round>, takesBack: bool): State {
    if rounds == [] then Start(now, first)
    else
      var n := |rounds| - 1;
      Pass(Run(now, first, rounds[..n], takesBack), rounds[n], takesBack)
  }

  // ---------------------------------------------------------------- the loop as it is written

  /** The timer and the clock it runs on. */
  class Runtime {
    var now: nat
    var timer: Timer
    const takesBack: bool

    constructor (now: nat, takesBack: bool)
      ensures this.now == now && this.takesBack == takesBack && timer == Timer(false, 0, 0, [])
    {
      this.now, this.takesBack := now, takesBack;
      timer := Timer(false, 0, 0, []);
    }

    method Wait(p: Pause)
      modifies this
      ensures now == old(now) + p.elapse && timer == Expire(old(timer), now, p.fires)
    {
      now := now + p.elapse;
      if timer.armed && now >= timer.deadline && p.fires {
        timer := timer.(armed := false);
        if timer.ticks == [] {
          timer := timer.(ticks := [timer.setAt]);
        }
      }
    }

    method Stop() returns (stopped: bool)
      modifies this`timer
      ensures (timer, stopped) == Stopped(old(timer), takesBack) && !timer.armed
    {
      if timer.armed {
        timer := timer.(armed := false);
        return true;
      }
      if takesBack && timer.ticks != [] {
        timer := timer.(ticks := []);
        return true;
      }
      return false;
    }

    /** <-timer.C: blocked for ever when the channel is empty, for it is not received from while the timer
        is armed and the channel empty. */
    method Receive() returns (tick: nat, blocked: bool)
      requires timer.armed ==> timer.ticks != []
      modifies this`timer
      ensures blocked == (old(timer).ticks == [])
      ensures if blocked then timer == old(timer)
              else tick == old(timer).ticks[0] && timer == old(timer).(ticks := old(timer).ticks[1..])
    {
      blocked := timer.ticks == [];
      tick := 0;
      if !blocked {
        tick := timer.ticks[0];
        timer := timer.(ticks := timer.ticks[1..]);
      }
    }

    method Arm(interval: nat)
      modifies this`timer
      ensures timer == Armed(old(timer), now, interval, takesBack)
    {
      timer := Timer(true, now, now + interval, if takesBack then [] else timer.ticks);
    }
  }

  lemma {:induction false} StaysOver(now: nat, first: First, rounds: seq<Round>, takesBack: bool, i: nat)
    requires i <= |rounds| && !Run(now, first, rounds[..i], takesBack).status.Running?
    ensures Run(now, first, rounds, takesBack) == Run(now, first, rounds[..i], takesBack)
    decreases |rounds| - i
  {
    if i == |rounds| {
      assert rounds[..i] == rounds;
    } else {
      assert rounds[..i + 1][..i] == rounds[..i];
      StaysOver(now, first, rounds, takesBack, i + 1);
    }
  }

  /** The deferred function. */
  method Deferred(rt: Runtime, ghost y: State) returns (status: Status)
    requires y.timer == rt.timer && y.status.Running?
    modifies rt`timer
    ensures Leave(y, rt.takesBack) == y.(timer := rt.timer, status := status)
  {
    var stopped := rt.Stop();
    if !stopped {
      var tick, blocked := rt.Receive();
      if blocked {
        return Stuck;
      }
    }
    return Returned;
  }

  /** The case of a reset: stop, drain, take the new interval if it is one. */
  method TakeReset(rt: Runtime, d: int, beforeStop: Pause, interval: nat, ghost y: State)
    returns (newInterval: nat, blocked: bool)
    requires y.timer == rt.timer && y.now == rt.now && y.interval == interval && y.status.Running?
    modifies rt
    ensures var z := Drain(Later(y, beforeStop), rt.takesBack);
            && blocked == z.status.Stuck? && rt.now == z.now && rt.timer == z.timer
            && newInterval == if !blocked && d > 0 then d else interval
  {
    hide Expire;
    rt.Wait(beforeStop);
    newInterval, blocked := interval, false;
    var stopped := rt.Stop();
    if !stopped {
      var tick: nat;
      tick, blocked := rt.Receive();
      if blocked {
        return;
      }
    }
    if d > 0 {
      newInterval := d;
    }
  }

  lemma DrainKeeps(y: State, takesBack: bool)
    ensures var z := Drain(y, takesBack);
            z == y.(timer := z.timer, status := z.status) && (z.status == y.status || z.status.Stuck?)
  {}

  /** One pass of the loop. */
  method Once(rt: Runtime, r: Round, interval: nat, since: nat, pings: seq<Ping>, ghost y: State)
    returns (interval': nat, status: Status, since': nat, pings': seq<Ping>)
    requires y == State(rt.now, rt.timer, interval, Running, since, pings)
    modifies rt
    ensures State(rt.now, rt.timer, interval', status, since', pings') == Pass(y, r, rt.takesBack)
  {
    hide Expire, Armed, Stopped, Drain;
    interval', status, since', pings' := interval, Running, since, pings;
    rt.Wait(r.waiting);
    ghost var z := Later(y, r.waiting);
    match r.choice {
      case Done =>
        rt.Wait(r.beforeEnd);
        status := Deferred(rt, Later(z, r.beforeEnd));
        return;
      case Reset(d, beforeStop) =>
        since' := rt.now;
        var blocked: bool;
        DrainKeeps(Later(z, beforeStop), rt.takesBack);
        interval', blocked := TakeReset(rt, d, beforeStop, interval, z);
        if blocked {
          since', status := since, Stuck;
          return;
        }
      case Tick(ok, writing) =>
        if rt.timer.ticks == [] {
          return;
        }
        var tick, blocked := rt.Receive();
        pings' := pings + [Ping(rt.now, tick, interval, since, ok)];
        since' := rt.now;
        rt.Wait(writing);
        if !ok {
          rt.Wait(r.beforeEnd);
          status := Deferred(rt, State(rt.now, rt.timer, interval, Running, since', pings'));
          return;
        }
    }
    rt.Wait(r.beforeEnd);
    rt.Arm(interval');
  }

  lemma NoRounds(now: nat, first: First, rounds: seq<Round>, takesBack: bool)
    ensures Run(now, first, rounds[..0], takesBack) == Start(now, first)
  {}

  lemma OneMoreRound(now: nat, first: First, rounds: seq<Round>, takesBack: bool, i: nat)
    requires i < |rounds|
    ensures Run(now, first, rounds[..i + 1], takesBack)
         == Pass(Run(now, first, rounds[..i], takesBack), rounds[i], takesBack)
  {
    hide Pass;
    assert rounds[..i + 1][..i] == rounds[..i];
  }

  /** Pinger, for as long as the rounds last. */
  method Pinger(rt: Runtime, first: First, rounds: seq<Round>)
    returns (interval: nat, status: Status, since: nat, pings: seq<Ping>)
    requires rt.timer == Timer(false, 0, 0, [])
    modifies rt
    ensures State(rt.now, rt.timer, interval, status, since, pings) == Run(old(rt.now), first, rounds, rt.takesBack)
  {
    hide Pass, Run;
    ghost var start := rt.now;
    NoRounds(start, first, rounds, rt.takesBack);
    interval, status, since, pings := 0, Running, rt.now, [];
    match first {
      case Cancelled =>
        status := Returned;
        StaysOver(start, first, rounds, rt.takesBack, 0);
        return;
      case Value(d) =>
        if d > 0 {
          interval := d;
        }
      case Nothing =>
    }
    if interval <= 0 {
      interval := DEFAULT_PING_INTERVAL;
    }
    rt.Arm(interval);
    var i := 0;
    while i < |rounds|
      invariant 0 <= i <= |rounds| && status.Running?
      invariant State(rt.now, rt.timer, interval, status, since, pings) == Run(start, first, rounds[..i], rt.takesBack)
    {
      OneMoreRound(start, first, rounds, rt.takesBack, i);
      interval, status, since, pings :=
        Once(rt, rounds[i], interval, since, pings, State(rt.now, rt.timer, interval, status, since, pings));
      i := i + 1;
      if !status.Running? {
        StaysOver(start, first, rounds, rt.takesBack, i);
        return;
      }
    }
    assert rounds[..i] == rounds;
  }

  // ---------------------------------------------------------------- what holds at every select

  /** The timer is armed and no tick waits, or it has expired and exactly its own tick waits; it was
      armed under the interval in force, after the latest start, reset or ping. */
  predicate Settled(y: State) {
    && y.interval > 0
    && y.timer.ticks == (if y.timer.armed then [] else [y.timer.setAt])
    && y.timer.deadline == y.timer.setAt + y.interval
    && y.since <= y.timer.setAt <= y.now
    && (!y.timer.armed ==> y.timer.deadline <= y.now)
  }

  /** Each ping was caused by a tick of a timer armed after the event before it, and comes at least the
      interval after that; the events are in order. */
  predicate Spaced(y: State) {
    && (forall j :: 0 <= j < |y.pings| ==>
          y.pings[j].since <= y.pings[j].setAt && y.pings[j].setAt + y.pings[j].interval <= y.pings[j].time)
    && (forall i, j :: 0 <= i < j < |y.pings| ==> y.pings[i].time <= y.pings[j].since)
    && (forall j :: 0 <= j < |y.pings| ==> y.pings[j].time <= y.since)
  }

  predicate AllWritten(y: State) {
    forall j :: 0 <= j < |y.pings| ==> y.pings[j].ok
  }

  predicate LastFailed(y: State) {
    y.pings != [] && !y.pings[|y.pings| - 1].ok && forall j :: 0 <= j < |y.pings| - 1 ==> y.pings[j].ok
  }

  predicate Inv(y: State) {
    && Spaced(y)
    && match y.status
       case Running => Settled(y) && AllWritten(y)
       case Returned => AllWritten(y)
       case Stuck => LastFailed(y)
  }

  lemma LaterSettled(y: State, p: Pause)
    requires Settled(y)
    ensures Settled(Later(y, p))
  {}

  /** Stop-and-drain finds the tick it waits for and leaves the channel empty. */
  lemma DrainSettled(y: State, takesBack: bool)
    requires Settled(y)
    ensures Drain(y, takesBack) == y.(timer := Drain(y, takesBack).timer)
    ensures Drain(y, takesBack).timer.ticks == [] && !Drain(y, takesBack).timer.armed
  {}

  /** A timer that is stopped stays so, whatever time passes. */
  lemma LaterIdle(y: State, p: Pause)
    requires !y.timer.armed
    ensures Later(y, p) == y.(now := y.now + p.elapse)
  {}

  /** The tick was received before the write: when that fails, the deferred drain waits for a second one
      that never comes. */
  lemma StuckWithoutTick(y: State, takesBack: bool)
    requires !y.timer.armed && y.timer.ticks == []
    ensures Leave(y, takesBack) == y.(status := Stuck)
  {}

  lemma SameSpaced(y: State, z: State)
    requires Spaced(y) && z.pings == y.pings && z.since >= y.since
    ensures Spaced(z)
  {}

  lemma MoreSpaced(y: State, ping: Ping, z: State)
    requires Spaced(y) && z.pings == y.pings + [ping] && z.since == ping.time
    requires y.since == ping.since <= ping.setAt && ping.setAt + ping.interval <= ping.time
    ensures Spaced(z)
  {}

  lemma DoneKeeps(y: State, r: Round, takesBack: bool)
    requires Inv(y) && y.status.Running? && r.choice.Done?
    ensures Inv(Pass(y, r, takesBack))
  {
    hide Expire, Stopped, Spaced;
    LaterSettled(y, r.waiting);
    var z := Later(y, r.waiting);
    LaterSettled(z, r.beforeEnd);
    DrainSettled(Later(z, r.beforeEnd), takesBack);
    SameSpaced(y, Pass(y, r, takesBack));
  }

  lemma ResetKeeps(y: State, r: Round, takesBack: bool)
    requires Inv(y) && y.status.Running? && r.choice.Reset?
    ensures Inv(Pass(y, r, takesBack))
  {
    hide Expire, Stopped, Spaced;
    LaterSettled(y, r.waiting);
    var z := Later(y, r.waiting);
    LaterSettled(z, r.choice.beforeStop);
    var drained := Drain(Later(z, r.choice.beforeStop), takesBack);
    DrainSettled(Later(z, r.choice.beforeStop), takesBack);
    LaterIdle(drained, r.beforeEnd);
    SameSpaced(y, Pass(y, r, takesBack));
  }

  lemma TickKeeps(y: State, r: Round, takesBack: bool)
    requires Inv(y) && y.status.Running? && r.choice.Tick?
    ensures Inv(Pass(y, r, takesBack))
  {
    hide Expire, Drain, Spaced;
    LaterSettled(y, r.waiting);
    var z := Later(y, r.waiting);
    if z.timer.ticks == [] {
      SameSpaced(y, z);
    } else {
      var ping := Ping(z.now, z.timer.ticks[0], z.interval, z.since, r.choice.ok);
      var received := z.(timer := z.timer.(ticks := z.timer.ticks[1..]), pings := z.pings + [ping], since := z.now);
      LaterIdle(received, r.choice.writing);
      var written := Later(received, r.choice.writing);
      LaterIdle(written, r.beforeEnd);
      StuckWithoutTick(Later(written, r.beforeEnd), takesBack);
      MoreSpaced(y, ping, Pass(y, r, takesBack));
    }
  }

  lemma PassKeeps(y: State, r: Round, takesBack: bool)
    requires Inv(y)
    ensures Inv(Pass(y, r, takesBack))
  {
    hide Inv;
    if y.status.Running? {
      match r.choice
      case Done => DoneKeeps(y, r, takesBack);
      case Reset(_, _) => ResetKeeps(y, r, takesBack);
      case Tick(_, _) => TickKeeps(y, r, takesBack);
    }
  }

  lemma StartInv(now: nat, first: First)
    ensures Inv(Start(now, first))
  {}

  lemma {:induction false} RunKeeps(now: nat, first: First, rounds: seq<Round>, takesBack: bool)
    ensures Inv(Run(now, first, rounds, takesBack))
  {
    hide Pass, Inv;
    if rounds == [] {
      StartInv(now, first);
    } else {
      var n := |rounds| - 1;
      RunKeeps(now, first, rounds[..n], takesBack);
      PassKeeps(Run(now, first, rounds[..n], takesBack), rounds[n], takesBack);
    }
  }

  // ---------------------------------------------------------------- and what follows

  /** In every run, under either timer behaviour: at each select the timer is armed with no tick waiting,
      or expired with exactly its own tick waiting. */
  lemma {:induction false} OneTickOrArmed(now: nat, first: First, rounds: seq<Round>, takesBack: bool)
    ensures var y := Run(now, first, rounds, takesBack);
            y.status.Running? ==> y.timer.ticks == if y.timer.armed then [] else [y.timer.setAt]
  {
    hide Run, Spaced;
    RunKeeps(now, first, rounds, takesBack);
  }

  /** Pinger blocks for ever exactly when a ping could not be written; every other way out of the loop
      stops the timer and returns. */
  lemma {:induction false} StuckExactlyOnWriteError(now: nat, first: First, rounds: seq<Round>, takesBack: bool)
    ensures var y := Run(now, first, rounds, takesBack);
            y.status.Stuck? <==> exists j :: 0 <= j < |y.pings| && !y.pings[j].ok
  {
    hide Run, Spaced;
    RunKeeps(now, first, rounds, takesBack);
    var y := Run(now, first, rounds, takesBack);
    if y.status.Stuck? {
      assert !y.pings[|y.pings| - 1].ok;
    }
  }

  /** The n-th round is taken, and it is the cancellation. */
  predicate CancelledAt(now: nat, first: First, rounds: seq<Round>, takesBack: bool, n: nat) {
    n < |rounds| && Run(now, first, rounds[..n], takesBack).status.Running? && rounds[n].choice.Done?
  }

  lemma PassReset(y: State, r: Round, takesBack: bool)
    requires Settled(y) && y.status.Running? && r.choice.Reset?
    ensures var z, at := Pass(y, r, takesBack), y.now + r.waiting.elapse;
            && z.now == at + r.choice.beforeStop.elapse + r.beforeEnd.elapse
            && z == State(z.now, Timer(true, z.now, z.now + z.interval, []),
                          if r.choice.d > 0 then r.choice.d else y.interval, Running, at, y.pings)
  {
    hide Expire, Stopped;
    LaterSettled(y, r.waiting);
    var z := Later(y, r.waiting);
    LaterSettled(z, r.choice.beforeStop);
    var drained := Drain(Later(z, r.choice.beforeStop), takesBack);
    DrainSettled(Later(z, r.choice.beforeStop), takesBack);
    LaterIdle(drained, r.beforeEnd);
  }

  /** No timer runs, no tick waits. */
  predicate Quiet(y: State) {
    !y.timer.armed && y.timer.ticks == []
  }

  lemma PassTick(y: State, r: Round, takesBack: bool)
    requires Settled(y) && y.status.Running? && r.choice.Tick?
    ensures var z, at := Pass(y, r, takesBack), y.now + r.waiting.elapse;
            if !(y.timer.ticks != [] || (at >= y.timer.deadline && r.waiting.fires)) then z == y.(now := at)
            else
              && z.now == at + r.choice.writing.elapse + r.beforeEnd.elapse
              && z == State(z.now, if r.choice.ok then Timer(true, z.now, z.now + y.interval, []) else z.timer,
                            y.interval, if r.choice.ok then Running else Stuck, at,
                            y.pings + [Ping(at, y.timer.setAt, y.interval, y.since, r.choice.ok)])
              && (!r.choice.ok ==> Quiet(z))
  {
    hide Drain;
    LaterSettled(y, r.waiting);
    var z := Later(y, r.waiting);
    if z.timer.ticks != [] {
      var ping := Ping(z.now, z.timer.ticks[0], z.interval, z.since, r.choice.ok);
      var received := z.(timer := z.timer.(ticks := z.timer.ticks[1..]), pings := z.pings + [ping], since := z.now);
      LaterIdle(received, r.choice.writing);
      var written := Later(received, r.choice.writing);
      LaterIdle(written, r.beforeEnd);
      StuckWithoutTick(Later(written, r.beforeEnd), takesBack);
    }
  }

  lemma PassDone(y: State, r: Round, takesBack: bool)
    requires Inv(y) && y.status.Running?
    ensures Pass(y, r, takesBack).status.Returned? <==> r.choice.Done?
    ensures r.choice.Done? ==> Quiet(Pass(y, r, takesBack)) && Pass(y, r, takesBack).pings == y.pings
  {
    hide Expire, Stopped, Spaced;
    LaterSettled(y, r.waiting);
    var z := Later(y, r.waiting);
    match r.choice
    case Done =>
      LaterSettled(z, r.beforeEnd);
      DrainSettled(Later(z, r.beforeEnd), takesBack);
    case Reset(d, beforeStop) =>
      LaterSettled(z, beforeStop);
      DrainSettled(Later(z, beforeStop), takesBack);
    case Tick(ok, writing) =>
      if z.timer.ticks != [] {
        var received := z.(timer := z.timer.(ticks := z.timer.ticks[1..]),
                           pings := z.pings + [Ping(z.now, z.timer.ticks[0], z.interval, z.since, ok)], since := z.now);
        LaterIdle(received, writing);
        LaterIdle(Later(received, writing), r.beforeEnd);
        StuckWithoutTick(Later(Later(received, writing), r.beforeEnd), takesBack);
      }
  }

  /** Cancellation ends it: whatever rounds follow, Pinger has returned, its timer does not run, no tick waits,
      and there is no ping after it. */
  lemma {:induction false} CancelEnds(now: nat, first: First, rounds: seq<Round>, takesBack: bool, n: nat)
    requires CancelledAt(now, first, rounds, takesBack, n)
    ensures var y := Run(now, first, rounds, takesBack);
            y.status.Returned? && Quiet(y) && y.pings == Run(now, first, rounds[..n], takesBack).pings
  {
    hide Pass, Run;
    RunKeeps(now, first, rounds[..n], takesBack);
    PassDone(Run(now, first, rounds[..n], takesBack), rounds[n], takesBack);
    OneMoreRound(now, first, rounds, takesBack, n);
    StaysOver(now, first, rounds, takesBack, n + 1);
  }

  lemma PassOver(y: State, r: Round, takesBack: bool)
    requires !y.status.Running?
    ensures Pass(y, r, takesBack) == y
  {}

  lemma {:induction false} ReturnedBy(now: nat, first: First, rounds: seq<Round>, takesBack: bool, i: nat)
    requires !first.Cancelled? && i <= |rounds|
    ensures Run(now, first, rounds[..i], takesBack).status.Returned?
        ==> exists n: nat :: n < i && CancelledAt(now, first, rounds, takesBack, n)
  {
    hide Pass, Run, Inv;
    if i == 0 {
      NoRounds(now, first, rounds, takesBack);
    } else {
      ReturnedBy(now, first, rounds, takesBack, i - 1);
      OneMoreRound(now, first, rounds, takesBack, i - 1);
      var y := Run(now, first, rounds[..i - 1], takesBack);
      RunKeeps(now, first, rounds[..i - 1], takesBack);
      if y.status.Running? {
        PassDone(y, rounds[i - 1], takesBack);
        assert rounds[i - 1].choice.Done? ==> CancelledAt(now, first, rounds, takesBack, i - 1);
      } else {
        PassOver(y, rounds[i - 1], takesBack);
      }
    }
  }

  /** And nothing else does: Pinger has returned if and only if the first select found the context cancelled,
      with nothing pinged and no timer ever armed, or a later select did. */
  lemma {:induction false} ReturnsExactly(now: nat, first: First, rounds: seq<Round>, takesBack: bool)
    ensures Run(now, first, rounds, takesBack).status.Returned?
       <==> first.Cancelled? || exists n: nat :: CancelledAt(now, first, rounds, takesBack, n)
    ensures first.Cancelled? ==>
              Run(now, first, rounds, takesBack) == State(now, Timer(false, 0, 0, []), 0, Returned, now, [])
  {
    hide Pass, Run, Inv;
    NoRounds(now, first, rounds, takesBack);
    if first.Cancelled? {
      StaysOver(now, first, rounds, takesBack, 0);
    } else {
      ReturnedBy(now, first, rounds, takesBack, |rounds|);
      assert rounds[..|rounds|] == rounds;
      if n: nat :| CancelledAt(now, first, rounds, takesBack, n) {
        CancelEnds(now, first, rounds, takesBack, n);
      }
    }
  }

  /** What each round of a run comes to. A reset never blocks: the timer runs afresh for the interval then in
      force. A tick is received if and only if the timer is due; then exactly one ping is written, and the
      timer runs afresh. */
  lemma {:induction false} EachRound(now: nat, first: First, rounds: seq<Round>, takesBack: bool, n: nat)
    requires n < |rounds| && Run(now, first, rounds[..n], takesBack).status.Running? && !rounds[n].choice.Done?
    ensures var y, z := Run(now, first, rounds[..n], takesBack), Run(now, first, rounds[..n + 1], takesBack);
            var r := rounds[n];
            var at := y.now + r.waiting.elapse;
            match r.choice
            case Reset(d, beforeStop) =>
              && z.now == at + beforeStop.elapse + r.beforeEnd.elapse
              && z == State(z.now, Timer(true, z.now, z.now + z.interval, []), if d > 0 then d else y.interval,
                            Running, at, y.pings)
            case Tick(ok, writing) =>
              if !(y.timer.ticks != [] || (at >= y.timer.deadline && r.waiting.fires)) then z == y.(now := at)
              else
                && z.now == at + writing.elapse + r.beforeEnd.elapse
                && z == State(z.now, if ok then Timer(true, z.now, z.now + y.interval, []) else z.timer, y.interval,
                              if ok then Running else Stuck, at,
                              y.pings + [Ping(at, y.timer.setAt, y.interval, y.since, ok)])
                && (!ok ==> Quiet(z))
  {
    hide Pass, Run, Spaced;
    RunKeeps(now, first, rounds[..n], takesBack);
    OneMoreRound(now, first, rounds, takesBack, n);
    if rounds[n].choice.Reset? {
      PassReset(Run(now, first, rounds[..n], takesBack), rounds[n], takesBack);
    } else {
      PassTick(Run(now, first, rounds[..n], takesBack), rounds[n], takesBack);
    }
  }

  /** Both happen, whatever the first value and the time: the tick is received when it is due, and the ping
      is written, or it is not and Pinger never returns. */
  lemma {:induction false} BothHappen(now: nat, first: First, ok: bool, takesBack: bool) returns (rounds: seq<Round>)
    requires !first.Cancelled?
    ensures var y, interval := Run(now, first, rounds, takesBack), FirstInterval(first);
            && y.pings == [Ping(now + interval, now, interval, now, ok)]
            && y.status == if ok then Running else Stuck
  {
    rounds := [Round(Pause(FirstInterval(first), true), Tick(ok, Pause(0, false)), Pause(0, false))];
    NoRounds(now, first, rounds, takesBack);
    OneMoreRound(now, first, rounds, takesBack, 0);
    assert rounds[..1] == rounds;
  }

  /** No tick armed before a start, reset or ping causes a ping after it: each ping's timer was armed
      after the latest of these, the ping comes at least the interval later, and the pings are so far
      apart as well. */
  lemma {:induction false} NoStaleTick(now: nat, first: First, rounds: seq<Round>, takesBack: bool, j: nat)
    requires j < |Run(now, first, rounds, takesBack).pings|
    ensures var ps := Run(now, first, rounds, takesBack).pings;
            && ps[j].since <= ps[j].setAt
            && ps[j].time >= ps[j].since + ps[j].interval
            && (j > 0 ==> ps[j].time >= ps[j - 1].time + ps[j].interval)
  {
    hide Run;
    RunKeeps(now, first, rounds, takesBack);
  }

  /** The values received from the reset channel, in order. */
  function Heard(now: nat, first: First, rounds: seq<Round>, takesBack: bool): seq<int> {
    if rounds == [] then (if first.Value? then [first.d] else [])
    else
      var n := |rounds| - 1;
      Heard(now, first, rounds[..n], takesBack)
      + if Run(now, first, rounds[..n], takesBack).status.Running? && rounds[n].choice.Reset?
        then [rounds[n].choice.d] else []
  }

  function LatestPositive(values: seq<int>): nat {
    if values == [] then 30_000_000_000
    else if values[|values| - 1] > 0 then values[|values| - 1]
    else LatestPositive(values[..|values| - 1])
  }

  lemma LatestOfMore(values: seq<int>, d: int)
    ensures LatestPositive(values + [d]) == if d > 0 then d else LatestPositive(values)
  {
    assert (values + [d])[..|values|] == values;
  }

  lemma PassInterval(y: State, r: Round, takesBack: bool)
    requires Inv(y)
    ensures Pass(y, r, takesBack).interval
         == if y.status.Running? && r.choice.Reset? && r.choice.d > 0 then r.choice.d else y.interval
    ensures var z := Pass(y, r, takesBack);
            z.pings == y.pings || (|z.pings| == |y.pings| + 1 && z.pings[..|y.pings|] == y.pings
                                   && z.pings[|y.pings|].interval == y.interval)
  {
    if y.status.Running? && r.choice.Reset? {
      LaterSettled(y, r.waiting);
      LaterSettled(Later(y, r.waiting), r.choice.beforeStop);
      DrainSettled(Later(Later(y, r.waiting), r.choice.beforeStop), takesBack);
    }
    hide Stopped, Expire, Spaced, Settled;
  }

  /** The interval is the latest positive value received, or 30 seconds, and never anything else; a ping
      goes out under the interval in force when its round began. */
  lemma {:induction false} IntervalInForce(now: nat, first: First, rounds: seq<Round>, takesBack: bool)
    requires !first.Cancelled?
    ensures Run(now, first, rounds, takesBack).interval == LatestPositive(Heard(now, first, rounds, takesBack)) > 0
    ensures rounds != [] ==>
              var y, z := Run(now, first, rounds[..|rounds| - 1], takesBack), Run(now, first, rounds, takesBack);
              z.pings == y.pings || (|z.pings| == |y.pings| + 1
                                     && z.pings[|y.pings|].interval
                                        == LatestPositive(Heard(now, first, rounds[..|rounds| - 1], takesBack)))
  {
    hide Pass, Inv;
    if rounds == [] {
      LatestOfMore([], FirstInterval(first));
      if first.Value? {
        LatestOfMore([], first.d);
        assert [] + [first.d] == [first.d];
      }
    } else {
      var n := |rounds| - 1;
      IntervalInForce(now, first, rounds[..n], takesBack);
      RunKeeps(now, first, rounds[..n], takesBack);
      PassInterval(Run(now, first, rounds[..n], takesBack), rounds[n], takesBack);
      var before := Heard(now, first, rounds[..n], takesBack);
      assert before + [] == before;
      if rounds[n].choice.Reset? {
        LatestOfMore(before, rounds[n].choice.d);
      }
    }
  }
}
