/** The application shell of `App.tsx`: the wallet-presence poll loop that drives the
    "no MetaNet client" modal, and the tab bar that picks which form is shown.

    The poll loop is modelled as a sequence of ticks run one after another. A tick that finds
    the interval already cleared does nothing at all, in particular it issues no probe. */
module AppShell {
  import MetaNetProbe

  /** One observable step of a tick, in the order the interval callback performs them. */
  datatype Effect =
    | Probe                            // `await checkForMetaNetClient()`
    | AwaitAuthentication(ok: bool)    // `await walletclient.waitForAuthentication()`, resolved or rejected
    | ClearInterval                    // `clearInterval(intervalId)`
    | SetMissing(missing: bool)        // `setMNCMissing(missing)`

  /** What can happen to the shell's wallet state. */
  datatype Event =
    | Tick(probe: int, authOk: bool)   // the interval fires; `probe` is the wallet probe's answer
    | CloseModal                       // the modal's `onClose`
    | Teardown                         // the closure the mount effect returns, taken to run on unmount

  /** The wallet part of the shell: `MNCmissing`, whether the interval is still registered, and
      the effects performed so far. */
  datatype Monitor = Monitor(missing: bool, active: bool, trace: seq<Effect>)

  /** The state right after mounting: the modal is closed and the interval is registered. */
  const Mounted: Monitor := Monitor(false, true, [])

  /** The effects of one tick whose probe answered `probe`. A zero answer marks the wallet
      missing. Any other answer waits for authentication; if that wait rejects, the callback
      stops there, otherwise it clears the interval and then hides the modal. */
  function TickEffects(probe: int, authOk: bool): (es: seq<Effect>)
    ensures |es| >= 2 && es[0] == Probe
    ensures probe == 0 <==> SetMissing(true) in es
    ensures ClearInterval in es <==> probe != 0 && authOk
  {
    if probe == 0 then [Probe, SetMissing(true)]
    else if authOk then [Probe, AwaitAuthentication(true), ClearInterval, SetMissing(false)]
    else [Probe, AwaitAuthentication(false)]
  }

  /** Performs one effect. */
  function Apply(m: Monitor, e: Effect): (r: Monitor)
    ensures r.trace == m.trace + [e]
  {
    var m' := m.(trace := m.trace + [e]);
    match e
    case Probe => m'
    case AwaitAuthentication(_) => m'
    case ClearInterval => m'.(active := false)
    case SetMissing(b) => m'.(missing := b)
  }

  /** Performs effects in order. */
  function ApplyAll(m: Monitor, es: seq<Effect>): (r: Monitor)
    ensures r.trace == m.trace + es
    ensures r.active == (m.active && ClearInterval !in es)
    decreases |es|
  {
    if es == [] then m
    else
      var r := ApplyAll(Apply(m, es[0]), es[1..]);
      assert m.trace + [es[0]] + es[1..] == m.trace + es;
      assert ClearInterval in es <==> es[0] == ClearInterval || ClearInterval in es[1..];
      r
  }

  /** The shell's reaction to one event. */
  function Step(m: Monitor, ev: Event): Monitor {
    match ev
    case Tick(probe, authOk) => if m.active then ApplyAll(m, TickEffects(probe, authOk)) else m
    case CloseModal => m.(missing := false)
    case Teardown => m.(active := false)
  }

  /** The shell's reaction to events taken in order. */
  function Run(m: Monitor, evs: seq<Event>): Monitor
    decreases |evs|
  {
    if evs == [] then m else Run(Step(m, evs[0]), evs[1..])
  }

  /** The number of `e` in `trace`. */
  function Count(trace: seq<Effect>, e: Effect): (n: nat)
    ensures n <= |trace|
    ensures n == 0 <==> e !in trace
    decreases |trace|
  {
    if trace == [] then 0
    else Count(trace[..|trace| - 1], e) + (if trace[|trace| - 1] == e then 1 else 0)
  }

  lemma {:induction false} CountAppend(a: seq<Effect>, b: seq<Effect>, e: Effect)
    ensures Count(a + b, e) == Count(a, e) + Count(b, e)
    decreases |b|
  {
    if b == [] {
      assert a + b == a;
    } else {
      var b' := b[..|b| - 1];
      assert (a + b)[..|a + b| - 1] == a + b';
      CountAppend(a, b', e);
    }
  }

  /** Successful authentications so far. */
  function Authentications(m: Monitor): nat {
    Count(m.trace, AwaitAuthentication(true))
  }

  /** Probes issued so far. */
  function Probes(m: Monitor): nat {
    Count(m.trace, Probe)
  }

  /** The loop's invariant: at most one successful authentication, and once it has happened the
      interval is gone. */
  predicate Invariant(m: Monitor) {
    Authentications(m) <= 1 && (Authentications(m) == 1 ==> !m.active)
  }

  /** A tick authenticates at most once, and only a tick whose authentication succeeds clears
      the interval. */
  lemma TickCounts(probe: int, authOk: bool)
    ensures Count(TickEffects(probe, authOk), AwaitAuthentication(true)) ==
              (if probe != 0 && authOk then 1 else 0)
    ensures Count(TickEffects(probe, authOk), Probe) == 1
  {
    var es := TickEffects(probe, authOk);
    assert [Probe][..0] == [];
    assert Count([Probe], Probe) == 1 && Count([Probe], AwaitAuthentication(true)) == 0;
    if probe == 0 {
      assert es[..1] == [Probe];
    } else if authOk {
      var p2 := [Probe, AwaitAuthentication(true)];
      var p3 := p2 + [ClearInterval];
      assert p2[..1] == [Probe] && p3[..2] == p2 && es[..3] == p3;
      assert Count(p2, Probe) == 1 && Count(p2, AwaitAuthentication(true)) == 1;
      assert Count(p3, Probe) == 1 && Count(p3, AwaitAuthentication(true)) == 1;
    } else {
      assert es[..1] == [Probe];
    }
  }

  /** The state a tick leaves behind, with the interval still registered. */
  lemma TickResult(m: Monitor, probe: int, authOk: bool)
    requires m.active
    ensures var r := Step(m, Tick(probe, authOk));
      r.trace == m.trace + TickEffects(probe, authOk) &&
      r.missing == (if probe == 0 then true else if authOk then false else m.missing) &&
      r.active == (probe == 0 || !authOk)
  {
    var es := TickEffects(probe, authOk);
    var m1 := Apply(m, es[0]);
    assert ApplyAll(m, es) == ApplyAll(m1, es[1..]);
    var m2 := Apply(m1, es[1]);
    assert ApplyAll(m1, es[1..]) == ApplyAll(m2, es[2..]);
    if probe != 0 && authOk {
      var m3 := Apply(m2, es[2]);
      assert ApplyAll(m2, es[2..]) == ApplyAll(m3, es[3..]);
      var m4 := Apply(m3, es[3]);
      assert ApplyAll(m3, es[3..]) == ApplyAll(m4, es[4..]);
    }
  }

  /** Every event keeps the invariant. */
  lemma StepValid(m: Monitor, ev: Event)
    requires Invariant(m)
    ensures Invariant(Step(m, ev))
  {
    match ev
    case Tick(probe, authOk) =>
      if m.active {
        var es := TickEffects(probe, authOk);
        CountAppend(m.trace, es, AwaitAuthentication(true));
        TickCounts(probe, authOk);
      }
    case CloseModal =>
    case Teardown =>
  }

  /** Any run from a valid state ends in a valid state. */
  lemma {:induction false} RunValid(m: Monitor, evs: seq<Event>)
    requires Invariant(m)
    ensures Invariant(Run(m, evs))
    decreases |evs|
  {
    if evs != [] {
      StepValid(m, evs[0]);
      RunValid(Step(m, evs[0]), evs[1..]);
    }
  }

  /** Authentication happens at most once per mount, whatever the ticks, modal closes and
      teardowns that follow. */
  lemma AuthenticatesAtMostOnce(evs: seq<Event>)
    ensures Authentications(Run(Mounted, evs)) <= 1
  {
    RunValid(Mounted, evs);
  }

  /** Once the interval is cleared, nothing more is probed or awaited: the effect trace and the
      interval stay as they were, whatever events follow. */
  lemma {:induction false} StoppedStaysQuiet(m: Monitor, evs: seq<Event>)
    requires !m.active
    ensures !Run(m, evs).active
    ensures Run(m, evs).trace == m.trace
    decreases |evs|
  {
    if evs != [] {
      StoppedStaysQuiet(Step(m, evs[0]), evs[1..]);
    }
  }

  /** A tick whose probe answers `0` shows the modal, keeps polling and issues one probe. */
  lemma MissingTickKeepsPolling(m: Monitor, authOk: bool)
    requires m.active
    ensures Step(m, Tick(0, authOk)).missing
    ensures Step(m, Tick(0, authOk)).active
    ensures Probes(Step(m, Tick(0, authOk))) == Probes(m) + 1
    ensures Authentications(Step(m, Tick(0, authOk))) == Authentications(m)
  {
    TickResult(m, 0, authOk);
    CountAppend(m.trace, TickEffects(0, authOk), Probe);
    CountAppend(m.trace, TickEffects(0, authOk), AwaitAuthentication(true));
    TickCounts(0, authOk);
  }

  /** A tick whose probe answers anything but `0` (so `-1` too) awaits authentication, then
      clears the interval, then hides the modal, in that order. If the wait rejects, the tick
      changes nothing beyond its trace and polling goes on. */
  lemma PresentTickStopsPolling(m: Monitor, probe: int, authOk: bool)
    requires m.active && probe != 0
    ensures var r := Step(m, Tick(probe, authOk));
      if authOk then
        !r.active && !r.missing &&
        r.trace == m.trace + [Probe, AwaitAuthentication(true), ClearInterval, SetMissing(false)]
      else
        r.active && r.missing == m.missing &&
        r.trace == m.trace + [Probe, AwaitAuthentication(false)]
  {
    TickResult(m, probe, authOk);
  }

  /** Teardown stops the interval; tearing down again, or tearing down an interval a tick has
      already cleared, changes nothing. */
  lemma TeardownIdempotent(m: Monitor)
    ensures !Step(m, Teardown).active
    ensures Step(Step(m, Teardown), Teardown) == Step(m, Teardown)
    ensures !m.active ==> Step(m, Teardown) == m
  {
  }

  /** Closing the modal hides it and leaves polling as it was. */
  lemma CloseModalKeepsPolling(m: Monitor)
    ensures !Step(m, CloseModal).missing
    ensures Step(m, CloseModal).active == m.active
    ensures Step(m, CloseModal).trace == m.trace
  {
  }

  /** The probe sequence "call throws, wallet reports a known network, call throws" fed through
      the local classifier while polling: the first tick shows the modal, the second
      authenticates once, clears the interval and hides the modal, and the third finds the
      interval gone and probes nothing. */
  lemma ThrowKnownThrow(m: Monitor, network: string, authOk: bool)
    requires m.active && MetaNetProbe.IsKnownNetwork(network)
    ensures var r := Run(m, [Tick(MetaNetProbe.Classify(MetaNetProbe.Threw), authOk),
                             Tick(MetaNetProbe.Classify(MetaNetProbe.Reported(network)), true),
                             Tick(MetaNetProbe.Classify(MetaNetProbe.Threw), authOk)]);
      !r.missing && !r.active &&
      Probes(r) == Probes(m) + 2 && Authentications(r) == Authentications(m) + 1
  {
    var evs := [Tick(0, authOk), Tick(1, true), Tick(0, authOk)];
    TickResult(m, 0, authOk);
    var t1 := Step(m, evs[0]);
    CountAppend(m.trace, TickEffects(0, authOk), Probe);
    CountAppend(m.trace, TickEffects(0, authOk), AwaitAuthentication(true));
    TickResult(t1, 1, true);
    var t2 := Step(t1, evs[1]);
    CountAppend(t1.trace, TickEffects(1, true), Probe);
    CountAppend(t1.trace, TickEffects(1, true), AwaitAuthentication(true));
    TickCounts(0, authOk);
    TickCounts(1, true);
    assert Run(m, evs) == Run(t1, evs[1..]);
    assert Run(t1, evs[1..]) == Run(t2, evs[2..]);
    StoppedStaysQuiet(t2, evs[2..]);
  }

  /** The same sequence right after mounting, with mainnet: two probes, one authentication,
      and the modal hidden with polling stopped. */
  lemma ThrowMainnetThrow(authOk: bool)
    ensures var r := Run(Mounted, [Tick(MetaNetProbe.Classify(MetaNetProbe.Threw), authOk),
                                   Tick(MetaNetProbe.Classify(MetaNetProbe.Reported("mainnet")), true),
                                   Tick(MetaNetProbe.Classify(MetaNetProbe.Threw), authOk)]);
      !r.missing && !r.active && Probes(r) == 2 && Authentications(r) == 1
  {
    ThrowKnownThrow(Mounted, "mainnet", authOk);
  }

  /** The forms the shell can show. */
  datatype Form = DownloadForm | UploadForm | FilesForm

  /** The forms shown for a tab index: each form is shown when the index equals its tab. */
  function Shown(tabIndex: int): set<Form> {
    (if tabIndex == 0 then {DownloadForm} else {}) +
    (if tabIndex == 1 then {UploadForm} else {}) +
    (if tabIndex == 2 then {FilesForm} else {})
  }

  /** Exactly one form is shown for each of the three tabs, none for any other index. */
  lemma ExactlyOneFormPerTab(tabIndex: int)
    ensures 0 <= tabIndex <= 2 ==> |Shown(tabIndex)| == 1
    ensures !(0 <= tabIndex <= 2) ==> Shown(tabIndex) == {}
  {
  }

  /** The mounted `App` component. */
  class App {
    var tabIndex: int
    var missing: bool
    /** Whether the poll interval is still registered. */
    var active: bool
    ghost var trace: seq<Effect>

    ghost function State(): Monitor
      reads this
    {
      Monitor(missing, active, trace)
    }

    ghost predicate Valid()
      reads this
    {
      Invariant(State())
    }

    /** Mounting: the first tab, no modal, and the interval registered by the mount effect. */
    constructor ()
      ensures tabIndex == 0 && !missing && active
      ensures State() == Mounted && Valid()
    {
      tabIndex := 0;
      missing := false;
      active := true;
      trace := [];
    }

    /** The interval callback, run to completion before the next one starts. */
    method Tick(probe: int, authOk: bool)
      requires Valid()
      modifies this
      ensures Valid()
      ensures State() == Step(old(State()), Event.Tick(probe, authOk))
      ensures tabIndex == old(tabIndex)
    {
      StepValid(State(), Event.Tick(probe, authOk));
      if active {
        TickResult(State(), probe, authOk);
        if probe == 0 {
          missing := true;
          trace := trace + [Probe, SetMissing(true)];
        } else if authOk {
          active := false;
          missing := false;
          trace := trace + [Probe, AwaitAuthentication(true), ClearInterval, SetMissing(false)];
        } else {
          // the rejected wait ends the callback before the interval is cleared
          trace := trace + [Probe, AwaitAuthentication(false)];
        }
      }
    }

    /** The modal's `onClose`. */
    method CloseModal()
      requires Valid()
      modifies this
      ensures Valid()
      ensures State() == Step(old(State()), Event.CloseModal)
      ensures tabIndex == old(tabIndex)
    {
      missing := false;
    }

    /** The closure the mount effect returns (`clearInterval(intervalId)`), taken to run on
        unmount like a React effect cleanup. */
    method Teardown()
      requires Valid()
      modifies this
      ensures Valid()
      ensures State() == Step(old(State()), Event.Teardown)
      ensures tabIndex == old(tabIndex)
    {
      active := false;
    }

    /** `handleTabChange`: the chosen tab becomes current; the wallet state is untouched. */
    method HandleTabChange(newValue: int)
      modifies this
      ensures tabIndex == newValue
      ensures State() == old(State())
    {
      tabIndex := newValue;
    }
  }
}
