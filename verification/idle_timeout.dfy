/** The inactivity auto-logout hook (hooks/useIdleTimeout.ts) as a state
    machine. The hook's state is the prompt's visibility, the countdown
    shown on it, and which of its three timers is pending (with the delay it
    was armed with). Timers firing, the one-second countdown ticks, user
    activity and unmounting are events; `onIdle` being called is an output
    of a step. Durations are milliseconds; the countdown is in seconds and is
    a JavaScript number, modelled as an exact real. */
module IdleTimeout {
  import opened Types

  /** `idleTimeout` and `promptTimeout`, in milliseconds. */
  datatype Config = Config(idleTimeout: nat, promptTimeout: nat)

  /** The countdown interval's period. */
  const TickMillis: nat := 1000

  /** `promptTimeout / 1000`: the countdown's starting value in seconds. */
  function PromptSeconds(cfg: Config): (s: real)
    ensures s >= 0.0
    ensures s * 1000.0 == cfg.promptTimeout as real
  {
    cfg.promptTimeout as real / 1000.0
  }

  /** The hook's state: whether its effect is mounted (listeners attached),
      `isPromptVisible`, `remainingTime`, and the pending idle timeout,
      logout timeout and countdown interval, each with its delay. */
  datatype Hook = Hook(
    mounted: bool,
    visible: bool,
    remaining: real,
    idleTimer: Option<nat>,
    promptTimer: Option<nat>,
    countdown: Option<nat>)

  /** The user-visible phase the state is in. */
  predicate IsActive(h: Hook)
  {
    h.mounted && !h.visible && h.idleTimer.Some? && h.promptTimer.None? && h.countdown.None?
  }

  predicate IsWarning(h: Hook)
  {
    h.mounted && h.visible && h.idleTimer.None? && h.promptTimer.Some? && h.countdown.Some?
  }

  predicate NoTimers(h: Hook)
  {
    h.idleTimer.None? && h.promptTimer.None? && h.countdown.None?
  }

  /** The state before the effect first runs: the `useState` and `useRef`
      initial values. */
  function Initial(cfg: Config): (h: Hook)
    ensures !h.mounted && !h.visible && NoTimers(h)
    ensures h.remaining == PromptSeconds(cfg)
  {
    Hook(false, false, PromptSeconds(cfg), None, None, None)
  }

  /** `clearTimers`: every pending timer is cancelled. */
  function ClearTimers(h: Hook): (r: Hook)
    ensures NoTimers(r)
    ensures r.mounted == h.mounted && r.visible == h.visible && r.remaining == h.remaining
  {
    h.(idleTimer := None, promptTimer := None, countdown := None)
  }

  /** `reset` (also `stayActive`): the prompt is hidden, every timer is
      cancelled, and one idle timer of `idleTimeout` is armed. */
  function Reset(cfg: Config, h: Hook): (r: Hook)
    ensures !r.visible && r.idleTimer == Some(cfg.idleTimeout)
    ensures r.promptTimer.None? && r.countdown.None?
    ensures r.mounted == h.mounted && r.remaining == h.remaining
  {
    ClearTimers(h).(visible := false, idleTimer := Some(cfg.idleTimeout))
  }

  /** `showPrompt`, run when the idle timer fires: the prompt shows with the
      full countdown, the countdown interval and one logout timer of
      `promptTimeout` are armed. */
  function ShowPrompt(cfg: Config, h: Hook): (r: Hook)
    requires h.idleTimer.None?
    ensures r.visible && r.remaining == PromptSeconds(cfg)
    ensures r.promptTimer == Some(cfg.promptTimeout) && r.countdown == Some(TickMillis)
    ensures r.idleTimer.None? && r.mounted == h.mounted
  {
    h.(visible := true, remaining := PromptSeconds(cfg),
       countdown := Some(TickMillis), promptTimer := Some(cfg.promptTimeout))
  }

  /** `handleIdle`, run when the logout timer fires (after `onIdle`): the
      prompt is hidden and every timer is cancelled. */
  function HandleIdle(h: Hook): (r: Hook)
    ensures !r.visible && NoTimers(r) && r.mounted == h.mounted
  {
    ClearTimers(h.(visible := false))
  }

  /** One countdown tick as written: `prev > 0 ? prev - 1 : 0`. */
  function CountDownAsWritten(prev: real): (r: real)
    ensures prev > 0.0 ==> r == prev - 1.0
    ensures prev <= 0.0 ==> r == 0.0
  {
    if prev > 0.0 then prev - 1.0 else 0.0
  }

  /** A start of 1.5 seconds (`promptTimeout` 1500) counts 1.5, 0.5, -0.5:
      the display goes below zero. */
  lemma CountDownAsWrittenGoesNegative()
    ensures CountDownAsWritten(CountDownAsWritten(PromptSeconds(Config(900000, 1500)))) < 0.0
  {
    assert PromptSeconds(Config(900000, 1500)) == 1.5;
  }

  /** One countdown tick, floored at zero as evidently intended. */
  function CountDown(prev: real): (r: real)
    ensures r >= 0.0
    ensures prev >= 1.0 ==> r == prev - 1.0
    ensures prev < 1.0 ==> r == 0.0
  {
    if prev > 1.0 then prev - 1.0 else 0.0
  }

  /** On whole seconds, which is every value the countdown takes when
      `promptTimeout` is a multiple of 1000, the two ticks agree. */
  lemma CountDownAgreesOnWholeSeconds(prev: real)
    requires prev >= 0.0 && prev == prev.Floor as real
    ensures CountDownAsWritten(prev) == CountDown(prev)
  {
  }

  /** What can happen to the hook. `Activity` is any of the listened
      window events; `StayActive` is the prompt's button. */
  datatype Event = Activity | StayActive | IdleElapsed | Tick | PromptElapsed | Teardown

  /** A step's new state and whether `onIdle` was called during it. */
  datatype Step = Step(hook: Hook, idleFired: bool)

  /** The effect's first run: listeners attached and an initial `reset`. */
  function Mount(cfg: Config): (h: Hook)
    ensures IsActive(h) && h.idleTimer == Some(cfg.idleTimeout)
    ensures h.remaining == PromptSeconds(cfg)
  {
    Reset(cfg, Initial(cfg).(mounted := true))
  }

  /** How one event changes the hook. A timer can only fire while pending;
      activity only reaches the hook while its listeners are attached. */
  function Next(cfg: Config, h: Hook, e: Event): (s: Step)
    ensures s.idleFired <==> e == PromptElapsed && h.promptTimer.Some?
    ensures (e == Activity || e == StayActive) && h.mounted ==> s.hook == Reset(cfg, h)
    ensures s.hook.mounted == (h.mounted && e != Teardown)
  {
    match e
    case Activity | StayActive =>
      if h.mounted then Step(Reset(cfg, h), false) else Step(h, false)
    case IdleElapsed =>
      if h.idleTimer.Some? then Step(ShowPrompt(cfg, h.(idleTimer := None)), false) else Step(h, false)
    case Tick =>
      if h.countdown.Some? then Step(h.(remaining := CountDown(h.remaining)), false) else Step(h, false)
    case PromptElapsed =>
      if h.promptTimer.Some? then Step(HandleIdle(h), true) else Step(h, false)
    case Teardown =>
      if h.mounted then Step(ClearTimers(h).(mounted := false), false) else Step(h, false)
  }

  /** The states the hook can be in: the countdown is never negative;
      nothing is pending once unmounted; the logout timer and the countdown
      interval are armed together, only while the prompt shows, never
      alongside the idle timer, and at most one of each is pending. */
  ghost predicate Inv(cfg: Config, h: Hook)
  {
    && h.remaining >= 0.0
    && (!h.mounted ==> NoTimers(h))
    && (h.promptTimer.Some? <==> h.countdown.Some?)
    && (h.promptTimer.Some? ==> h.promptTimer == Some(cfg.promptTimeout) && h.countdown == Some(TickMillis) && h.idleTimer.None?)
    && (h.idleTimer.Some? ==> h.idleTimer == Some(cfg.idleTimeout))
    && (h.mounted ==> (h.visible <==> h.promptTimer.Some?))
  }

  lemma MountSatisfiesInv(cfg: Config)
    ensures Inv(cfg, Mount(cfg))
  {
  }

  /** Every event keeps the invariant, so mounted states are either Active,
      Warning, or idle after the logout fired. */
  lemma NextKeepsInv(cfg: Config, h: Hook, e: Event)
    requires Inv(cfg, h)
    ensures Inv(cfg, Next(cfg, h, e).hook)
    ensures h.mounted ==> var n := Next(cfg, h, e).hook;
                          !n.mounted || IsActive(n) || IsWarning(n) || (!n.visible && NoTimers(n))
  {
  }

  /** A run of events: the final state and how many times `onIdle` fired. */
  datatype Trace = Trace(hook: Hook, fired: nat)

  function Run(cfg: Config, h: Hook, events: seq<Event>): (t: Trace)
    decreases |events|
  {
    if events == [] then Trace(h, 0)
    else
      var s := Next(cfg, h, events[0]);
      var rest := Run(cfg, s.hook, events[1..]);
      Trace(rest.hook, rest.fired + if s.idleFired then 1 else 0)
  }

  /** How many idle timeouts a run contains: each one starts a warning
      cycle. */
  function CountIdleElapsed(events: seq<Event>): (n: nat)
    ensures n == multiset(events)[IdleElapsed]
  {
    if events == [] then 0
    else
      assert events == [events[0]] + events[1..];
      (if events[0] == IdleElapsed then 1 else 0) + CountIdleElapsed(events[1..])
  }

  /** The invariant holds after any run of events. */
  lemma {:induction false} RunKeepsInv(cfg: Config, h: Hook, events: seq<Event>)
    requires Inv(cfg, h)
    ensures Inv(cfg, Run(cfg, h, events).hook)
    decreases |events|
  {
    if events != [] {
      NextKeepsInv(cfg, h, events[0]);
      RunKeepsInv(cfg, Next(cfg, h, events[0]).hook, events[1..]);
    }
  }

  /** `onIdle` fires at most once per warning cycle: at most once for a
      warning already showing, plus once per idle timeout in the run. */
  lemma {:induction false} FiresAtMostOncePerWarning(cfg: Config, h: Hook, events: seq<Event>)
    requires Inv(cfg, h)
    ensures Run(cfg, h, events).fired <= (if h.promptTimer.Some? then 1 else 0) + CountIdleElapsed(events)
    decreases |events|
  {
    if events != [] {
      NextKeepsInv(cfg, h, events[0]);
      FiresAtMostOncePerWarning(cfg, Next(cfg, h, events[0]).hook, events[1..]);
    }
  }

  /** Activity, or "stay active", during a warning returns to Active, and
      the logout of that warning can no longer fire: in any later run
      without a new idle timeout `onIdle` is never called. */
  lemma StayActiveCancelsLogout(cfg: Config, h: Hook, e: Event, events: seq<Event>)
    requires Inv(cfg, h) && IsWarning(h)
    requires e == Activity || e == StayActive
    requires CountIdleElapsed(events) == 0
    ensures IsActive(Next(cfg, h, e).hook)
    ensures !Next(cfg, h, e).idleFired
    ensures Run(cfg, Next(cfg, h, e).hook, events).fired == 0
  {
    NextKeepsInv(cfg, h, e);
    FiresAtMostOncePerWarning(cfg, Next(cfg, h, e).hook, events);
  }

  /** After teardown no timer fires and no event changes anything. */
  lemma {:induction false} QuietAfterTeardown(cfg: Config, h: Hook, events: seq<Event>)
    requires !h.mounted && NoTimers(h)
    ensures Run(cfg, h, events) == Trace(h, 0)
    decreases |events|
  {
    if events != [] {
      assert Next(cfg, h, events[0]) == Step(h, false);
      QuietAfterTeardown(cfg, h, events[1..]);
    }
  }

  lemma TeardownSilences(cfg: Config, h: Hook, events: seq<Event>)
    requires Inv(cfg, h)
    ensures var t := Next(cfg, h, Teardown).hook;
            !t.mounted && NoTimers(t) && Run(cfg, t, events) == Trace(t, 0)
  {
    QuietAfterTeardown(cfg, Next(cfg, h, Teardown).hook, events);
  }

  /** The full cycle without activity: mounting arms the idle timer; when
      it fires the warning shows the full countdown; when the logout timer
      fires `onIdle` is called once and nothing is left pending. */
  lemma IdleCycle(cfg: Config)
    ensures var warn := Next(cfg, Mount(cfg), IdleElapsed);
            && !warn.idleFired && IsWarning(warn.hook)
            && warn.hook.remaining == PromptSeconds(cfg)
            && warn.hook.promptTimer == Some(cfg.promptTimeout)
    ensures var out := Run(cfg, Mount(cfg), [IdleElapsed, PromptElapsed]);
            && out.fired == 1 && !out.hook.visible && NoTimers(out.hook)
  {
    var warn := Next(cfg, Mount(cfg), IdleElapsed).hook;
    assert Run(cfg, Mount(cfg), [IdleElapsed, PromptElapsed]).hook
        == Run(cfg, warn, [PromptElapsed]).hook;
  }

  /** The larger of `a` and zero. */
  function FloorAtZero(a: real): real
  {
    if a > 0.0 then a else 0.0
  }

  /** `k` ticks of a running countdown from `r` leave `max(r - k, 0)`. */
  lemma {:induction false} CountdownAfterTicks(cfg: Config, h: Hook, k: nat)
    requires h.countdown.Some? && h.remaining >= 0.0
    ensures Run(cfg, h, seq(k, _ => Tick)).hook.remaining == FloorAtZero(h.remaining - k as real)
    ensures Run(cfg, h, seq(k, _ => Tick)).fired == 0
    decreases k
  {
    if k > 0 {
      var ticks := seq(k, _ => Tick);
      assert ticks[0] == Tick;
      assert ticks[1..] == seq(k - 1, _ => Tick);
      var n := Next(cfg, h, Tick).hook;
      CountdownAfterTicks(cfg, n, k - 1);
    }
  }

  /** A countdown value the source's tick cannot take below zero: a whole,
      non-negative number of seconds. */
  predicate WholeSeconds(x: real)
  {
    x >= 0.0 && x == x.Floor as real
  }

  /** A prompt that lasts a whole number of seconds starts the countdown on
      a whole number. */
  lemma PromptSecondsWhole(cfg: Config)
    requires cfg.promptTimeout % 1000 == 0
    ensures WholeSeconds(PromptSeconds(cfg))
  {
    var k := cfg.promptTimeout / 1000;
    assert cfg.promptTimeout == 1000 * k;
    assert PromptSeconds(cfg) == k as real;
  }

  /** One event as the source handles it: as `Next`, except that a tick
      uses the source's `prev > 0 ? prev - 1 : 0`. */
  function NextAsWritten(cfg: Config, h: Hook, e: Event): (s: Step)
    ensures e != Tick || h.countdown.None? ==> s == Next(cfg, h, e)
    ensures e == Tick && h.countdown.Some? ==>
              s == Step(h.(remaining := CountDownAsWritten(h.remaining)), false)
  {
    if e == Tick && h.countdown.Some? then Step(h.(remaining := CountDownAsWritten(h.remaining)), false)
    else Next(cfg, h, e)
  }

  /** A run of events as the source handles them. */
  function RunAsWritten(cfg: Config, h: Hook, events: seq<Event>): (t: Trace)
    decreases |events|
  {
    if events == [] then Trace(h, 0)
    else
      var s := NextAsWritten(cfg, h, events[0]);
      var rest := RunAsWritten(cfg, s.hook, events[1..]);
      Trace(rest.hook, rest.fired + if s.idleFired then 1 else 0)
  }

  /** With a whole-second prompt, every event keeps the countdown on whole
      seconds, and the source's step is the modelled step. */
  lemma NextKeepsWholeSeconds(cfg: Config, h: Hook, e: Event)
    requires cfg.promptTimeout % 1000 == 0
    requires WholeSeconds(h.remaining)
    ensures NextAsWritten(cfg, h, e) == Next(cfg, h, e)
    ensures WholeSeconds(Next(cfg, h, e).hook.remaining)
  {
    match e
    case Tick =>
      if h.countdown.Some? {
        CountDownAgreesOnWholeSeconds(h.remaining);
        CountDownKeepsWholeSeconds(h.remaining);
      }
    case IdleElapsed =>
      if h.idleTimer.Some? {
        PromptSecondsWhole(cfg);
      }
    case _ =>
  }

  /** The floored tick takes a whole number of seconds to another one. */
  lemma CountDownKeepsWholeSeconds(x: real)
    requires WholeSeconds(x)
    ensures WholeSeconds(CountDown(x))
  {
    if x > 1.0 {
      var k := x.Floor;
      assert x - 1.0 == (k - 1) as real;
    }
  }

  /** With a whole-second prompt, the source's run from a whole-second state
      is the modelled run, event for event: the invariant and the countdown
      results proved for `Run` hold for the program as written. */
  lemma {:induction false} AsWrittenAgreesOnWholeSeconds(cfg: Config, h: Hook, events: seq<Event>)
    requires cfg.promptTimeout % 1000 == 0
    requires WholeSeconds(h.remaining)
    ensures RunAsWritten(cfg, h, events) == Run(cfg, h, events)
    decreases |events|
  {
    if events != [] {
      NextKeepsWholeSeconds(cfg, h, events[0]);
      AsWrittenAgreesOnWholeSeconds(cfg, Next(cfg, h, events[0]).hook, events[1..]);
    }
  }

  /** From mounting, a whole-second prompt makes the source's run the
      modelled one. */
  lemma MountedAsWrittenAgrees(cfg: Config, events: seq<Event>)
    requires cfg.promptTimeout % 1000 == 0
    ensures RunAsWritten(cfg, Mount(cfg), events) == Run(cfg, Mount(cfg), events)
  {
    PromptSecondsWhole(cfg);
    AsWrittenAgreesOnWholeSeconds(cfg, Mount(cfg), events);
  }

  /** A 1500 ms prompt reaches a negative countdown in the source's run:
      idle, then two ticks. */
  lemma AsWrittenRunGoesNegative()
    ensures RunAsWritten(Config(900000, 1500), Mount(Config(900000, 1500)), [IdleElapsed, Tick, Tick]).hook.remaining < 0.0
  {
    var cfg := Config(900000, 1500);
    var h0 := Mount(cfg);
    var h1 := NextAsWritten(cfg, h0, IdleElapsed).hook;
    assert h1.remaining == 1.5 && h1.countdown.Some?;
    var h2 := NextAsWritten(cfg, h1, Tick).hook;
    assert h2.remaining == 0.5 && h2.countdown.Some?;
    var h3 := NextAsWritten(cfg, h2, Tick).hook;
    assert h3.remaining == -0.5;
    assert [IdleElapsed, Tick, Tick][1..] == [Tick, Tick];
    assert [Tick, Tick][1..] == [Tick];
  }

  /** `k` applications of the source's tick. */
  function TicksAsWritten(x: real, k: nat): real
    decreases k
  {
    if k == 0 then x else TicksAsWritten(CountDownAsWritten(x), k - 1)
  }

  /** Ticks that arrive in due order never take the source's countdown
      below zero. The interval ticks at 1000, 2000, ... ms, and the logout
      timer at `promptTimeout` ms clears it, so at most
      `promptTimeout / 1000` ticks (rounded down) precede the logout. After
      that many ticks the shown value is `promptTimeout / 1000` less the
      ticks, which is not negative. */
  lemma {:induction false} DueOrderTicksStayNonNegative(cfg: Config, k: nat)
    requires k <= cfg.promptTimeout / 1000
    ensures TicksAsWritten(PromptSeconds(cfg), k) == PromptSeconds(cfg) - k as real
    ensures TicksAsWritten(PromptSeconds(cfg), k) >= 0.0
  {
    assert (cfg.promptTimeout / 1000) * 1000 <= cfg.promptTimeout;
    assert k as real <= PromptSeconds(cfg);
    TicksFromAbove(PromptSeconds(cfg), k);
  }

  /** While at least one second is left for every tick, each tick takes off
      exactly one second. */
  lemma {:induction false} TicksFromAbove(x: real, k: nat)
    requires k as real <= x
    ensures TicksAsWritten(x, k) == x - k as real
    decreases k
  {
    if k > 0 {
      assert CountDownAsWritten(x) == x - 1.0;
      TicksFromAbove(x - 1.0, k - 1);
    }
  }
}
