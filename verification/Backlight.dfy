/** The backlight controller: level sensor, proximity sensor, touch feedback and a timer. */
module Backlight {
  import Fade

  /** Tick counts are 32-bit; time itself is unbounded here. */
  const WRAP := 0x1_0000_0000

  /** The event codes touch feedback reacts to, as the library numbers them. */
  const LV_EVENT_PRESSED := 1
  const LV_EVENT_RELEASED := 8

  const BRIGHTNESS: seq<int> := [45, 75, 105, 135, 165, 195, 225, 255]

  /** Milliseconds from an earlier tick count to now, as the tick library computes them. */
  function Elapsed(now: nat, tick: int): int {
    (now - tick) % WRAP
  }

  /** The controller's variables: `want` is the sensor's switch, `en` and `value` what the timer
      has made of it, `last` the cached hardware value, `log` the values written so far. */
  datatype State = State(en: bool, value: int, want: bool, level: int, timeout: int, start: int,
                         fd: int, last: int, inputOn: bool, log: seq<int>)

  datatype Event =
    | Touch(code: int, now: nat)
    | Light(level: int)
    | Proximity(want: bool)
    | SetTimeout(timeout: int)
    | Tick(now: nat, pressed: bool)

  predicate Feedback(e: Event) {
    e.Touch? && LV_EVENT_PRESSED <= e.code <= LV_EVENT_RELEASED
  }

  function Target(level: int): int
    requires level < |BRIGHTNESS|
  {
    BRIGHTNESS[if level < 0 then 0 else level]
  }

  /** Bring the hardware to the given value unless the cache says it is there already. */
  function Drive(s: State, en: bool, value: int): State {
    var final := if en then value % 256 else 0;
    if s.fd <= 0 || s.last == final then s
    else s.(last := final, log := s.log + [final],
            inputOn := if (s.last != 0) != (final != 0) then final != 0 else s.inputOn)
  }

  /** Whether this tick is the one that switches the screen off. */
  predicate Fires(s: State, now: nat) {
    s.en && !s.want && s.timeout > 0 && s.start != 0 && Elapsed(now, s.start) > s.timeout
  }

  function OnTick(s: State, now: nat, pressed: bool): State
    requires s.level < |BRIGHTNESS|
  {
    var v := Fade.Step(s.value, Target(s.level));
    var en := if s.en then !Fires(s, now) else s.want;
    var start := if s.en == s.want then 0
                 else if s.en && s.timeout > 0 && s.start == 0 then now % WRAP
                 else s.start;
    var t := Drive(s.(en := en, value := v, start := start), en, v);
    if !en && pressed then Drive(t.(en := true), true, v) else t
  }

  function Step(s: State, e: Event): State
    requires s.level < |BRIGHTNESS|
  {
    match e
    case Touch(code, now) => if Feedback(e) then s.(start := now % WRAP) else s
    case Light(level) => s.(level := level)
    case Proximity(want) => s.(want := want)
    case SetTimeout(timeout) => s.(timeout := timeout)
    case Tick(now, pressed) => OnTick(s, now, pressed)
  }

  /** The controller after lvgl_init opened the brightness node as `fd`. */
  function Init(fd: int): State {
    Drive(State(true, 255, true, 7, 5000, 0, fd, 0, true, []), true, Target(7)).(want := false)
  }

  class Controller {
    var en: bool
    var value: int
    var want: bool
    var level: int
    var timeout: int
    var start: int
    var fd: int
    var last: int
    var inputOn: bool
    var log: seq<int>

    ghost function Now(): State
      reads this
    {
      State(en, value, want, level, timeout, start, fd, last, inputOn, log)
    }

    /** Static initialisers followed by lvgl_init. */
    constructor (fd: int)
      ensures Now() == Init(fd)
    {
      en, value, want, level, timeout, start := true, 255, true, 7, 5000, 0;
      this.fd, last, inputOn, log := fd, 0, true, [];
      new;
      UpdateBacklight(true, BRIGHTNESS[level]);
      want := false;
    }

    method BacklightSetTimeout(timeout: int)
      requires level < |BRIGHTNESS|
      modifies this`timeout
      ensures Now() == Step(old(Now()), SetTimeout(timeout))
    {
      this.timeout := timeout;
    }

    method TouchpadFeedback(code: int, now: nat)
      requires level < |BRIGHTNESS|
      modifies this`start
      ensures Now() == Step(old(Now()), Touch(code, now))
    {
      if code >= LV_EVENT_PRESSED && code <= LV_EVENT_RELEASED {
        start := now % WRAP;
      }
    }

    /** The upper clamp of the program compares without assigning, so a level beyond the table
        reads outside it: callers must stay below. */
    method LevelToBrightness(level: int) returns (b: int)
      requires level < |BRIGHTNESS|
      ensures b == Target(level) == 45 + 30 * (if level < 0 then 0 else level)
    {
      var l := level;
      if l < 0 {
        l := 0;
      }
      return BRIGHTNESS[l];
    }

    method UpdateBacklight(on: bool, v: int)
      modifies this`last, this`inputOn, this`log
      ensures Now() == Drive(old(Now()), on, v)
    {
      if fd <= 0 {
        return;
      }
      var final: int;
      if on {
        final := v % 256;
      } else {
        final := 0;
      }
      if last == final {
        return;
      }
      if (last != 0) != (final != 0) {
        inputOn := final != 0;
      }
      last := final;
      log := log + [final];
    }

    /** The scan over the input devices stops at the first that reports a press. */
    static method AnyPressed(devices: seq<bool>) returns (pressed: bool)
      ensures pressed <==> true in devices
    {
      for i := 0 to |devices|
        invariant true !in devices[..i]
      {
        if devices[i] {
          return true;
        }
      }
      assert devices[..|devices|] == devices;
      return false;
    }

    /** The timer callback; `devices` are the press states the input devices report. */
    method BacklightCb(now: nat, devices: seq<bool>)
      requires level < |BRIGHTNESS|
      modifies this
      ensures Now() == Step(old(Now()), Tick(now, true in devices))
    {
      var target := LevelToBrightness(level);
      value := Fade.Approach(value, target);
      if en != want {
        if !en {
          en := want;
        } else if timeout > 0 {
          if start == 0 {
            start := now % WRAP;
          } else if Elapsed(now, start) > timeout {
            en := want;
          }
        }
      } else {
        start := 0;
      }
      UpdateBacklight(en, value);
      if !en {
        var pressed := AnyPressed(devices);
        if pressed {
          en := true;
          UpdateBacklight(en, value);
        }
      }
    }

    method LsensorCb(key: int)
      requires level < |BRIGHTNESS|
      modifies this`level
      ensures Now() == Step(old(Now()), Light(key))
    {
      level := key;
    }

    method PsensorCb(state: bool)
      requires level < |BRIGHTNESS|
      modifies this`want
      ensures Now() == Step(old(Now()), Proximity(state))
    {
      want := state;
    }
  }

  /** Levels come from a sensor with eight of them. */
  predicate LevelsInTable(run: seq<Event>) {
    forall i :: 0 <= i < |run| && run[i].Light? ==> run[i].level < |BRIGHTNESS|
  }

  function Run(s: State, run: seq<Event>): (t: State)
    requires s.level < |BRIGHTNESS| && LevelsInTable(run)
    ensures t.level < |BRIGHTNESS|
  {
    if run == [] then s else Step(Run(s, run[..|run| - 1]), run[|run| - 1])
  }

  /** No value is written twice in a row. */
  predicate NoRepeats(log: seq<int>) {
    forall i :: 0 < i < |log| ==> log[i - 1] != log[i]
  }

  /** What the node shows, writes being assumed to succeed. */
  function Hardware(log: seq<int>): int {
    if log == [] then 0 else log[|log| - 1]
  }

  ghost predicate InStep(s: State) {
    && 45 <= s.value <= 255
    && Hardware(s.log) == s.last && NoRepeats(s.log)
    && s.last == (if s.en then s.value else 0)
    && (s.inputOn <==> s.en)
  }

  lemma StepKeepsInStep(s: State, e: Event)
    requires s.level < |BRIGHTNESS| && 0 < s.fd && InStep(s)
    ensures InStep(Step(s, e)) && Step(s, e).fd == s.fd
  {
    if e.Tick? {
      var target := Target(s.level);
      Fade.StepDistance(s.value, target);
      assert 45 <= target <= 255;
      var v := Fade.Step(s.value, target);
      assert 45 <= v <= 255 && v % 256 == v;
    }
  }

  /** After initialisation and after every event of every run: the brightness stays in the
      table's range, cache and hardware both show the enabled brightness or 0, touch input is
      on exactly while the screen is, and no write repeats the one before. */
  lemma {:induction false} AlwaysInStep(fd: int, run: seq<Event>)
    requires 0 < fd && LevelsInTable(run)
    ensures InStep(Run(Init(fd), run)) && Run(Init(fd), run).fd == fd
  {
    if run != [] {
      AlwaysInStep(fd, run[..|run| - 1]);
      StepKeepsInStep(Run(Init(fd), run[..|run| - 1]), run[|run| - 1]);
    }
  }

  /** Without the node nothing is ever written, and touch input is never switched; the brightness
      stays in the table's range all the same. */
  lemma {:induction false} ClosedNode(fd: int, run: seq<Event>)
    requires fd <= 0 && LevelsInTable(run)
    ensures var s := Run(Init(fd), run); s.log == [] && s.inputOn && s.fd == fd && 45 <= s.value <= 255
  {
    if run != [] {
      ClosedNode(fd, run[..|run| - 1]);
      ClosedStep(Run(Init(fd), run[..|run| - 1]), run[|run| - 1]);
    }
  }

  lemma ClosedStep(s: State, e: Event)
    requires s.level < |BRIGHTNESS| && s.fd <= 0 && 45 <= s.value <= 255
    ensures var t := Step(s, e);
            t.log == s.log && t.inputOn == s.inputOn && t.fd == s.fd && 45 <= t.value <= 255
  {
    if e.Tick? {
      Fade.StepDistance(s.value, Target(s.level));
      assert 45 <= Target(s.level) <= 255;
    }
  }

  // ----- Settings and brightness -----

  /** The controller starts with the screen on at full brightness, written to the node if that is
      open, the sensor's switch off and no start tick. */
  lemma InitialState(fd: int)
    ensures var written := if 0 < fd then [255] else [];
            Init(fd) == State(true, 255, false, 7, 5000, 0, fd, if 0 < fd then 255 else 0, true, written)
  {
  }

  /** The latest light reading, 7 before any. */
  function LatestLevel(run: seq<Event>): int {
    if run == [] then 7
    else match run[|run| - 1]
         case Light(level) => level
         case _ => LatestLevel(run[..|run| - 1])
  }

  /** The latest proximity reading, off before any. */
  function LatestWant(run: seq<Event>): bool {
    if run == [] then false
    else match run[|run| - 1]
         case Proximity(want) => want
         case _ => LatestWant(run[..|run| - 1])
  }

  /** The latest timeout set, five seconds before any. */
  function LatestTimeout(run: seq<Event>): int {
    if run == [] then 5000
    else match run[|run| - 1]
         case SetTimeout(timeout) => timeout
         case _ => LatestTimeout(run[..|run| - 1])
  }

  /** Over every run the controller goes by the latest readings and setting, each kind of its own,
      and nothing else changes them. */
  lemma {:induction false} GoesByLatest(fd: int, run: seq<Event>)
    requires LevelsInTable(run)
    ensures var s := Run(Init(fd), run);
            s.level == LatestLevel(run) && s.want == LatestWant(run) && s.timeout == LatestTimeout(run)
  {
    if run != [] {
      var n := |run| - 1;
      GoesByLatest(fd, run[..n]);
      SettingsAfter(Run(Init(fd), run[..n]), run[n]);
    }
  }

  lemma SettingsAfter(s: State, e: Event)
    requires s.level < |BRIGHTNESS|
    ensures var t := Step(s, e);
            && t.level == (if e.Light? then e.level else s.level)
            && t.want == (if e.Proximity? then e.want else s.want)
            && t.timeout == (if e.SetTimeout? then e.timeout else s.timeout)
            && (!e.Tick? ==> t.en == s.en)
  {
  }

  /** The level is held: every light reading repeats it. */
  predicate Holds(run: seq<Event>, level: int) {
    forall i :: 0 <= i < |run| && run[i].Light? ==> run[i].level == level
  }

  function Ticks(run: seq<Event>): nat {
    if run == [] then 0 else Ticks(run[..|run| - 1]) + if run[|run| - 1].Tick? then 1 else 0
  }

  lemma TargetIs(level: int)
    requires level < |BRIGHTNESS|
    ensures Target(level) == 45 + 30 * (if level < 0 then 0 else level)
  {
  }

  lemma ValueAfter(s: State, e: Event)
    requires s.level < |BRIGHTNESS|
    ensures Step(s, e).value == if e.Tick? then Fade.Step(s.value, Target(s.level)) else s.value
  {
  }

  lemma {:induction false} FadesRun(s: State, run: seq<Event>)
    requires s.level < |BRIGHTNESS| && LevelsInTable(run) && Holds(run, s.level)
    ensures var t := Run(s, run);
            t.level == s.level && t.value == Fade.After(s.value, Target(s.level), Ticks(run))
  {
    if run != [] {
      var n := |run| - 1;
      FadesRun(s, run[..n]);
      var u := Run(s, run[..n]);
      SettingsAfter(u, run[n]);
      ValueAfter(u, run[n]);
      Fade.AfterOneMore(s.value, Target(s.level), Ticks(run[..n]));
    }
  }

  /** With the level held over a run of n ticks, whatever else happens, the brightness moves from
      v towards 45 + 30 * level (levels below 0 counting as 0), never back and never past it, and
      has reached it if and only if it started there, or n >= 1 and the distance is at most
      2^(n-1). */
  lemma FadesIn(s: State, run: seq<Event>)
    requires s.level < |BRIGHTNESS| && LevelsInTable(run) && Holds(run, s.level)
    ensures var goal, v, u := 45 + 30 * (if s.level < 0 then 0 else s.level), s.value, Run(s, run).value;
            var n := Ticks(run);
            && (u == goal <==>
                  v == goal || (1 <= n && v - goal <= Fade.Pow2(n - 1) && goal - v <= Fade.Pow2(n - 1)))
            && (v <= goal ==> v <= u <= goal)
            && (goal <= v ==> goal <= u <= v)
  {
    var goal, n := Target(s.level), Ticks(run);
    TargetIs(s.level);
    FadesRun(s, run);
    Fade.NoOvershoot(s.value, goal, n);
    if s.value != goal {
      Fade.FadeTime(s.value, goal, n);
    }
  }

  predicate Timed(e: Event) {
    e.Touch? || e.Tick?
  }

  /** Event times never run backwards. */
  predicate Timely(run: seq<Event>) {
    forall i, j :: 0 <= i < j < |run| && Timed(run[i]) && Timed(run[j]) ==> run[i].now <= run[j].now
  }

  /** Event k is a tick that finds the screen as the sensor wants it. */
  predicate Agreed(fd: int, run: seq<Event>, k: nat)
    requires LevelsInTable(run) && k < |run|
  {
    run[k].Tick? && var s := Run(Init(fd), run[..k]); s.en == s.want
  }

  lemma AgreedBefore(fd: int, run: seq<Event>, n: nat, k: nat)
    requires LevelsInTable(run) && k < n <= |run|
    ensures Agreed(fd, run[..n], k) == Agreed(fd, run, k)
  {
    assert run[..n][..k] == run[..k];
  }

  /** The start tick, unless unset, is the tick count of a moment `since` that is not after the
      latest event and not before any touch feedback, nor any tick that found the screen as wanted. */
  ghost predicate StartsAt(fd: int, s: State, run: seq<Event>, since: nat)
    requires LevelsInTable(run)
  {
    && s.start == since % WRAP
    && (forall i :: 0 <= i < |run| && Feedback(run[i]) ==> run[i].now <= since)
    && (forall i :: 0 <= i < |run| && Agreed(fd, run, i) ==> run[i].now <= since)
    && exists i :: 0 <= i < |run| && Timed(run[i]) && since <= run[i].now
  }

  /** How an event leaves the start tick: as it was, or set to the event's own time. */
  lemma StartAfter(s: State, e: Event)
    requires s.level < |BRIGHTNESS|
    ensures var t := Step(s, e);
            || t.start == 0
            || (t.start == s.start && !Feedback(e) && !(e.Tick? && s.en == s.want))
            || (Timed(e) && t.start == e.now % WRAP)
  {
  }

  lemma StartsStill(fd: int, s: State, t: State, run: seq<Event>, since: nat)
    requires LevelsInTable(run) && run != [] && StartsAt(fd, s, run[..|run| - 1], since)
    requires t.start == s.start && !Feedback(run[|run| - 1]) && !Agreed(fd, run, |run| - 1)
    ensures StartsAt(fd, t, run, since)
  {
    var n := |run| - 1;
    var i :| 0 <= i < n && Timed(run[..n][i]) && since <= run[..n][i].now;
    assert Timed(run[i]) && since <= run[i].now;
    forall k | 0 <= k < |run| && Feedback(run[k])
      ensures run[k].now <= since
    {
      assert k < n && run[..n][k] == run[k];
    }
    forall k | 0 <= k < |run| && Agreed(fd, run, k)
      ensures run[k].now <= since
    {
      AgreedBefore(fd, run, n, k);
      assert run[..n][k] == run[k];
    }
  }

  lemma {:induction false} StartTick(fd: int, run: seq<Event>) returns (since: nat)
    requires LevelsInTable(run) && Timely(run)
    ensures var s := Run(Init(fd), run); s.start != 0 ==> StartsAt(fd, s, run, since)
  {
    since := 0;
    if run != [] {
      var n := |run| - 1;
      since := StartTick(fd, run[..n]);
      var s, e := Run(Init(fd), run[..n]), run[n];
      var t := Run(Init(fd), run);
      StartAfter(s, e);
      if t.start != 0 {
        if Timed(e) && t.start == e.now % WRAP {
          since := e.now;
          assert Timed(run[n]);
        } else {
          StartsStill(fd, s, t, run, since);
        }
      }
    }
  }

  lemma WrapElapsed(now: nat, since: nat)
    requires since <= now
    ensures Elapsed(now, since % WRAP) == (now - since) % WRAP <= now - since
  {
    var d := since / WRAP;
    assert since == d * WRAP + since % WRAP;
    assert now - since % WRAP == (now - since) + d * WRAP;
    ModPlusMultiple(now - since, d);
  }

  lemma {:induction false} ModPlusMultiple(a: int, d: nat)
    ensures (a + d * WRAP) % WRAP == a % WRAP
    decreases d
  {
    if d > 0 {
      ModPlusMultiple(a, d - 1);
      assert a + d * WRAP == a + (d - 1) * WRAP + WRAP;
    }
  }

  /** Over every run, tick wrap-around included: the screen goes off only on a timer tick, with
      the sensor's switch off and a positive timeout, and strictly later than the timeout after
      every touch feedback there has been, and after every tick that found the screen as wanted. */
  lemma SwitchOffSafe(fd: int, run: seq<Event>, k: nat)
    requires LevelsInTable(run) && Timely(run) && k < |run|
    requires var before, after := Run(Init(fd), run[..k]), Run(Init(fd), run[..k + 1]);
             before.en && !after.en
    ensures var before := Run(Init(fd), run[..k]);
            && run[k].Tick? && !before.want && 0 < before.timeout
            && forall j :: 0 <= j < k && run[j].Touch? && 1 <= run[j].code <= 8 ==>
                 run[k].now - run[j].now > before.timeout
    ensures var before := Run(Init(fd), run[..k]);
            forall j :: 0 <= j < k && Agreed(fd, run, j) ==> run[k].now - run[j].now > before.timeout
  {
    var before := Run(Init(fd), run[..k]);
    assert run[..k + 1][..k] == run[..k];
    var since := StartTick(fd, run[..k]);
    assert Fires(before, run[k].now);
    var i :| 0 <= i < k && Timed(run[..k][i]) && since <= run[..k][i].now;
    assert Timed(run[i]) && Timed(run[k]);
    WrapElapsed(run[k].now, since);
    forall j | 0 <= j < k && run[j].Touch? && 1 <= run[j].code <= 8
      ensures run[k].now - run[j].now > before.timeout
    {
      assert Feedback(run[..k][j]);
    }
    forall j | 0 <= j < k && Agreed(fd, run, j)
      ensures run[k].now - run[j].now > before.timeout
    {
      AgreedBefore(fd, run, k, j);
      assert run[..k][j] == run[j];
    }
  }

  /** When a tick leaves the screen on: after any press, while the sensor asks for it, and, the
      screen having been on, unless this is the tick that switches it off. */
  lemma OnAfterTick(s: State, now: nat, pressed: bool)
    requires s.level < |BRIGHTNESS|
    ensures OnTick(s, now, pressed).en <==> pressed || s.want || (s.en && !Fires(s, now))
  {
  }

  /** Nothing but timer ticks without a press, light readings, and touch codes that are neither
      press nor release nor between. */
  predicate Quiet(run: seq<Event>) {
    forall i :: 0 <= i < |run| ==>
      || run[i].Light?
      || (run[i].Tick? && !run[i].pressed)
      || (run[i].Touch? && !(1 <= run[i].code <= 8))
  }

  /** Still on at a tick at t0: the start tick is set and not older than the timeout. */
  predicate Counting(s: State, t0: nat) {
    s.start != 0 && Elapsed(t0, s.start) <= s.timeout
  }

  lemma {:induction false} StaysCounting(s: State, run: seq<Event>, t0: nat)
    requires s.level < |BRIGHTNESS| && LevelsInTable(run) && Quiet(run)
    requires !s.want && 0 < s.timeout && (s.en ==> Counting(s, t0))
    ensures var t := Run(s, run);
            !t.want && t.timeout == s.timeout && (t.en ==> t.start == s.start && Counting(t, t0) && s.en)
  {
    if run != [] {
      StaysCounting(s, run[..|run| - 1], t0);
    }
  }

  /** A tick, a quiet stretch and another tick leave the screen off. */
  predicate DarkAfter(s: State, t0: nat, quiet: seq<Event>, now: nat)
    requires s.level < |BRIGHTNESS|
  {
    var run := [Tick(t0, false)] + quiet + [Tick(now, false)];
    LevelsInTable(run) && !Run(s, run).en
  }

  /** The switched-on screen's start tick is set by the tick at t0, if not before. */
  predicate Starts(s: State, t0: nat) {
    !s.en || s.start != 0 || t0 % WRAP != 0
  }

  /** With the sensor's switch off, a positive timeout and no touch, the screen is off by the
      first tick later than the timeout after the first tick, provided it comes within
      2^32 ms less the timeout and a start tick that is still unset is not set to a wrapped zero. */
  lemma OffInTime(s: State, t0: nat, quiet: seq<Event>, now: nat)
    requires s.level < |BRIGHTNESS| && !s.want && 0 < s.timeout
    requires LevelsInTable(quiet) && Quiet(quiet)
    requires Starts(s, t0) && 0 <= s.start < WRAP
    requires s.timeout < now - t0 < WRAP - s.timeout
    ensures DarkAfter(s, t0, quiet, now)
  {
    var first, all := [Tick(t0, false)], [Tick(t0, false)] + quiet + [Tick(now, false)];
    assert all[..|all| - 1] == first + quiet;
    var s1 := Step(s, Tick(t0, false));
    assert first[..0] == [];
    assert Run(s, first) == s1;
    if s.en && s.start == 0 {
      WrapElapsed(t0, t0);
    }
    RunSplit(s, first, quiet);
    StaysCounting(s1, quiet, t0);
    var s2 := Run(s1, quiet);
    if s2.en {
      LaterElapsed(t0, now, s2.start);
    }
  }

  /** A wrapped tick count of zero is stored but reads as unset: the next tick, however late,
      only starts the count anew. */
  lemma LateAtZero(s: State, t0: nat, now: nat)
    requires s.level < |BRIGHTNESS| && !s.want && 0 < s.timeout
    requires s.en && s.start == 0 && t0 % WRAP == 0
    ensures !DarkAfter(s, t0, [], now)
  {
    var run := [Tick(t0, false)] + [] + [Tick(now, false)];
    assert run[..1] == [Tick(t0, false)] && run[..1][..0] == [];
    assert Run(s, run[..1]) == Step(s, Tick(t0, false));
  }

  /** The screen goes off in time through every quiet stretch if and only if the first tick does
      not meet a screen on, an unset start tick and a wrapped tick count of zero (a timeout too
      long for an int would leave no time to look). */
  lemma OffInTimeIff(s: State, t0: nat)
    requires s.level < |BRIGHTNESS| && !s.want && 0 < s.timeout && 0 <= s.start < WRAP
    ensures (forall quiet, now: nat ::
               LevelsInTable(quiet) && Quiet(quiet) && s.timeout < now - t0 < WRAP - s.timeout ==>
                 DarkAfter(s, t0, quiet, now))
            <==> Starts(s, t0) || WRAP <= 2 * s.timeout + 1
  {
    if Starts(s, t0) {
      forall quiet, now: nat | LevelsInTable(quiet) && Quiet(quiet) && s.timeout < now - t0 < WRAP - s.timeout
        ensures DarkAfter(s, t0, quiet, now)
      {
        OffInTime(s, t0, quiet, now);
      }
    } else if 2 * s.timeout + 1 < WRAP {
      LateAtZero(s, t0, t0 + s.timeout + 1);
      assert Quiet([]) && LevelsInTable([]);
    }
  }

  lemma LaterElapsed(t0: nat, now: nat, tick: int)
    requires t0 <= now && Elapsed(t0, tick) + (now - t0) < WRAP
    ensures Elapsed(now, tick) == Elapsed(t0, tick) + (now - t0)
  {
  }

  lemma {:induction false} RunSplit(s: State, a: seq<Event>, b: seq<Event>)
    requires s.level < |BRIGHTNESS| && LevelsInTable(a) && LevelsInTable(b)
    ensures LevelsInTable(a + b) && Run(s, a + b) == Run(Run(s, a), b)
    decreases |b|
  {
    if b == [] {
      assert a + b == a;
    } else {
      RunSplit(s, a, b[..|b| - 1]);
      assert (a + b)[..|a + b| - 1] == a + b[..|b| - 1];
    }
  }
}
