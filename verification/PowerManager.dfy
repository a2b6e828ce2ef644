/**
 The power manager: an event loop over flags, a clock and the devices it switches. Clock readings
 and pin levels are parameters of the events. `Off` is where deep sleep leaves it.
 */
module PowerManager {

  const WFI_MIN_SEC: nat := 5
  const WFI_IDLE_SEC_INIT: nat := 60
  const MOTION_IRQ_MARGIN_MS: nat := 1000

  datatype Pin = High | Low

  datatype Devices = Devices(screen: bool, watchdog: bool, alarm: bool)

  /** The loop's variables, and the devices it switches. */
  datatype Power = Power(
    enabled: bool, idleSec: nat, awaitingKey: bool, forceWfi: bool, forceDeepSleep: bool,
    screenOffRequested: bool, lastActionMs: nat, vbus: Pin, alarmSet: bool, devices: Devices, off: bool)

  datatype Event =
    | Enable(on: bool, seconds: nat)
    | Poll
    | MotionIrq(active: bool)
    | VbusIrq(level: Pin)
    | KeyPress(rtcKey: bool, level: Pin)
    | Boot(level: Pin)
    | ForceDeepSleep
    | ForceWfi
    | ScreenOffRequest
    | PowerOffTimer
    | Other

  function Initial(clock: nat, vbus: Pin): Power {
    Power(false, WFI_IDLE_SEC_INIT, false, false, false, false, clock, vbus, false, Devices(true, true, false), false)
  }

  /** Power management is off, or external power is present. */
  predicate Held(s: Power) { !s.enabled || s.vbus.High? }

  /** The last action as the poll sees it: clamped to the clock, and restarted while held. */
  function LastSeen(s: Power, now: nat): (last: nat)
    ensures last <= now
  {
    if Held(s) || s.lastActionMs > now then now else s.lastActionMs
  }

  function Patience(s: Power): nat { if s.awaitingKey then MOTION_IRQ_MARGIN_MS else s.idleSec * 1000 }

  predicate PollSuspends(s: Power, now: nat) {
    s.forceWfi || now - LastSeen(s, now) > Patience(s)
  }

  function AfterPoll(s: Power, now: nat): Power {
    var suspends := PollSuspends(s, now);
    Power(s.enabled, s.idleSec, s.awaitingKey || suspends, s.forceWfi && !suspends, s.forceDeepSleep,
          s.screenOffRequested, if suspends then now else LastSeen(s, now), s.vbus, s.alarmSet && !Held(s),
          Devices(s.devices.screen && !suspends, s.devices.watchdog || suspends,
                  s.devices.alarm && !(s.alarmSet && Held(s))),
          s.off)
  }

  predicate SleepsDeep(s: Power, rtcKey: bool) { rtcKey || s.forceDeepSleep }

  function AfterDeepSleep(s: Power, now: nat): Power {
    s.(forceDeepSleep := false, devices := Devices(false, false, s.devices.alarm), off := true, lastActionMs := now)
  }

  function AfterKey(s: Power, level: Pin, now: nat): Power {
    Power(s.enabled, s.idleSec, false, s.forceWfi, s.forceDeepSleep, false, now, level, s.alarmSet || level.Low?,
          Devices(s.devices.screen || s.screenOffRequested || s.awaitingKey, s.devices.watchdog,
                  s.devices.alarm || level.Low?),
          s.off)
  }

  function Step(s: Power, e: Event, now: nat): Power {
    match e
    case Enable(on, seconds) => s.(enabled := on, idleSec := if seconds > WFI_MIN_SEC then seconds else s.idleSec)
    case Poll => AfterPoll(s, now)
    case MotionIrq(active) =>
      if active && s.vbus.Low? then s.(alarmSet := true, devices := s.devices.(alarm := true)) else s
    case VbusIrq(level) => s.(vbus := level, devices := s.devices.(alarm := s.devices.alarm || level.Low?))
    case KeyPress(rtcKey, level) => if SleepsDeep(s, rtcKey) then AfterDeepSleep(s, now) else AfterKey(s, level, now)
    case Boot(level) => s.(enabled := true, vbus := level, alarmSet := true, devices := s.devices.(alarm := true))
    case ForceDeepSleep => s.(forceDeepSleep := true)
    case ForceWfi => s.(forceWfi := true)
    case ScreenOffRequest => s.(screenOffRequested := true, devices := s.devices.(screen := false))
    case PowerOffTimer => s.(devices := s.devices.(alarm := false))
    case Other => s
  }

  // ---- runs ----

  /** An event and the clock reading when the loop handles it. */
  datatype Tick = Tick(event: Event, clock: nat)

  /**
   The states of a run that starts at clock reading `start`: the clock never goes back, and nothing
   is handled once off.
   */
  ghost predicate Run(ss: seq<Power>, ts: seq<Tick>, start: nat, vbus: Pin) {
    && |ss| == |ts| + 1 && ss[0] == Initial(start, vbus)
    && forall i :: 0 <= i < |ts| ==> Follows(ss, ts, start, i)
  }

  predicate Follows(ss: seq<Power>, ts: seq<Tick>, start: nat, i: nat)
    requires i < |ts| < |ss|
  {
    ss[i + 1] == Step(ss[i], ts[i].event, ts[i].clock) && !ss[i].off && Clock(ts, start, i) <= ts[i].clock
  }

  /** The latest clock reading before tick `i`. */
  function Clock(ts: seq<Tick>, start: nat, i: nat): nat
    requires i <= |ts|
  {
    if i == 0 then start else ts[i - 1].clock
  }

  predicate IsKey(s: Power, t: Tick) { t.event.KeyPress? && !SleepsDeep(s, t.event.rtcKey) }

  predicate Suspends(s: Power, t: Tick) { t.event.Poll? && PollSuspends(s, t.clock) }

  /** When the latest key press before state `i` was handled; the start, if there was none. */
  ghost function LastKey(ss: seq<Power>, ts: seq<Tick>, start: nat, i: nat): nat
    requires i <= |ts| < |ss|
  {
    if i == 0 then start
    else if IsKey(ss[i - 1], ts[i - 1]) then ts[i - 1].clock
    else LastKey(ss, ts, start, i - 1)
  }

  /** Was a suspend forced between that key press and state `i`? */
  ghost predicate ForcedSinceKey(ss: seq<Power>, ts: seq<Tick>, i: nat)
    requires i <= |ts| < |ss|
  {
    if i == 0 || IsKey(ss[i - 1], ts[i - 1]) then false
    else (Suspends(ss[i - 1], ts[i - 1]) && ss[i - 1].forceWfi) || ForcedSinceKey(ss, ts, i - 1)
  }

  /** What every state of every run satisfies. `clock` is the latest reading, `key` the latest key press. */
  predicate Sound(s: Power, clock: nat, key: nat, forced: bool) {
    && s.idleSec > WFI_MIN_SEC
    && key <= s.lastActionMs <= clock
    && (s.awaitingKey && !forced ==> s.lastActionMs > key + 6000)
    && (!s.off ==> s.devices.watchdog && (s.devices.screen <==> !s.awaitingKey && !s.screenOffRequested))
  }

  lemma StepSound(s: Power, t: Tick, clock: nat, key: nat, forced: bool)
    requires Sound(s, clock, key, forced) && !s.off && clock <= t.clock
    ensures var k := if IsKey(s, t) then t.clock else key;
            var f := !IsKey(s, t) && ((Suspends(s, t) && s.forceWfi) || forced);
            Sound(Step(s, t.event, t.clock), t.clock, k, f)
  {
    match t.event
    case Poll => PollSound(s, t.clock, clock, key, forced);
    case KeyPress(rtcKey, level) =>
      if !SleepsDeep(s, rtcKey) {
        KeySound(s, level, t.clock, clock, key, forced);
      }
    case _ => OtherSound(s, t.event, t.clock, clock, key, forced);
  }

  lemma OtherSound(s: Power, e: Event, now: nat, clock: nat, key: nat, forced: bool)
    requires Sound(s, clock, key, forced) && !s.off && clock <= now && !e.Poll? && !e.KeyPress?
    ensures Sound(Step(s, e, now), now, key, forced)
  {
    match e
    case Enable(on, seconds) =>
    case MotionIrq(active) =>
    case VbusIrq(level) =>
    case _ =>
  }

  lemma KeySound(s: Power, level: Pin, now: nat, clock: nat, key: nat, forced: bool)
    requires Sound(s, clock, key, forced) && !s.off && clock <= now
    ensures Sound(AfterKey(s, level, now), now, now, false)
  {
  }

  lemma PollSound(s: Power, now: nat, clock: nat, key: nat, forced: bool)
    requires Sound(s, clock, key, forced) && !s.off && clock <= now
    ensures Sound(AfterPoll(s, now), now, key, (PollSuspends(s, now) && s.forceWfi) || forced)
  {
  }

  lemma TickAfter(ss: seq<Power>, ts: seq<Tick>, start: nat, vbus: Pin, i: nat)
    requires Run(ss, ts, start, vbus) && i < |ts|
    ensures ss[i + 1] == Step(ss[i], ts[i].event, ts[i].clock) && !ss[i].off && Clock(ts, start, i) <= ts[i].clock
    ensures Clock(ts, start, i + 1) == ts[i].clock
  {
    assert Follows(ss, ts, start, i);
  }

  lemma LastKeyAfter(ss: seq<Power>, ts: seq<Tick>, start: nat, i: nat)
    requires i < |ts| < |ss|
    ensures LastKey(ss, ts, start, i + 1) == if IsKey(ss[i], ts[i]) then ts[i].clock else LastKey(ss, ts, start, i)
  {
  }

  lemma ForcedAfter(ss: seq<Power>, ts: seq<Tick>, i: nat)
    requires i < |ts| < |ss|
    ensures ForcedSinceKey(ss, ts, i + 1) <==>
            !IsKey(ss[i], ts[i]) && ((Suspends(ss[i], ts[i]) && ss[i].forceWfi) || ForcedSinceKey(ss, ts, i))
  {
  }

  /**
   Over every run: the idle time stays above five seconds; the last action is never later than the
   clock, so the poll's subtraction never underflows and its clamp never fires; the watchdog is on
   whenever the loop waits; and the screen is on exactly when neither a suspend nor a screen-off request
   is waiting for a key.
   */
  lemma {:induction false} RunSound(ss: seq<Power>, ts: seq<Tick>, start: nat, vbus: Pin, i: nat)
    requires Run(ss, ts, start, vbus) && i <= |ts|
    ensures Sound(ss[i], Clock(ts, start, i), LastKey(ss, ts, start, i), ForcedSinceKey(ss, ts, i))
  {
    if i > 0 {
      var before, t := ss[i - 1], ts[i - 1];
      var clock, key := Clock(ts, start, i - 1), LastKey(ss, ts, start, i - 1);
      var forced := ForcedSinceKey(ss, ts, i - 1);
      RunSound(ss, ts, start, vbus, i - 1);
      TickAfter(ss, ts, start, vbus, i - 1);
      LastKeyAfter(ss, ts, start, i - 1);
      ForcedAfter(ss, ts, i - 1);
      StepSound(before, t, clock, key, forced);
    }
  }

  /** No suspend while management is disabled or external power is present, unless one was forced. */
  lemma NoSuspendWhileHeld(s: Power, now: nat)
    requires Held(s) && PollSuspends(s, now)
    ensures s.forceWfi
  {
  }

  /**
   When a poll of any run suspends unforced, more than six seconds have passed since the latest key
   press, provided no suspend was forced in between; and it is neither disabled nor on external power.
   */
  lemma UnforcedSuspendWaits(ss: seq<Power>, ts: seq<Tick>, start: nat, vbus: Pin, i: nat)
    requires Run(ss, ts, start, vbus) && i < |ts|
    requires Suspends(ss[i], ts[i]) && !ss[i].forceWfi
    ensures !Held(ss[i])
    ensures ForcedSinceKey(ss, ts, i) || ts[i].clock > LastKey(ss, ts, start, i) + 6000
  {
    RunSound(ss, ts, start, vbus, i);
    TickAfter(ss, ts, start, vbus, i);
  }

  /**
   Without that proviso the wait can be shorter. In every run, an unforced poll suspends within six
   seconds of the latest key press exactly when this guard holds before the poll.
   */
  lemma EarlySuspendIff(ss: seq<Power>, ts: seq<Tick>, start: nat, vbus: Pin, i: nat)
    requires Run(ss, ts, start, vbus) && i < |ts| && ts[i].event.Poll? && !ss[i].forceWfi
    requires ts[i].clock <= LastKey(ss, ts, start, i) + 6000
    ensures Suspends(ss[i], ts[i]) <==>
            !Held(ss[i]) && ss[i].awaitingKey && ts[i].clock > ss[i].lastActionMs + MOTION_IRQ_MARGIN_MS
  {
    RunSound(ss, ts, start, vbus, i);
    TickAfter(ss, ts, start, vbus, i);
  }

  /** Such a run: a key, a forced suspend a moment later, and a second, unforced one 1.2 seconds after the key. */
  lemma EarlySuspendHappens()
    returns (ss: seq<Power>, ts: seq<Tick>)
    ensures Run(ss, ts, 0, Low)
    ensures |ts| == 5 && Suspends(ss[4], ts[4]) && !ss[4].forceWfi
    ensures LastKey(ss, ts, 0, 4) == 0 && ts[4].clock == 1200
  {
    ts := [Tick(Boot(Low), 0), Tick(KeyPress(false, Low), 0), Tick(ForceWfi, 0), Tick(Poll, 100), Tick(Poll, 1200)];
    var s0 := Initial(0, Low);
    var s1 := Step(s0, ts[0].event, 0);
    var s2 := Step(s1, ts[1].event, 0);
    var s3 := Step(s2, ts[2].event, 0);
    var s4 := Step(s3, ts[3].event, 100);
    var s5 := Step(s4, ts[4].event, 1200);
    ss := [s0, s1, s2, s3, s4, s5];
    assert !IsKey(ss[3], ts[3]) && !IsKey(ss[2], ts[2]) && IsKey(ss[1], ts[1]);
    assert LastKey(ss, ts, 0, 4) == LastKey(ss, ts, 0, 3) == LastKey(ss, ts, 0, 2) == 0;
  }

  // ---- deep sleep ----

  predicate SleepForced(ts: seq<Tick>, i: nat)
    requires i <= |ts|
  {
    exists j :: 0 <= j < i && ts[j].event == ForceDeepSleep
  }

  /**
   The machine goes to deep sleep at exactly two kinds of key press: the alarm's own key, and any key
   after deep sleep was forced. Until then the request stays pending.
   */
  lemma {:induction false} RunSleepsIff(ss: seq<Power>, ts: seq<Tick>, start: nat, vbus: Pin, i: nat)
    requires Run(ss, ts, start, vbus) && i <= |ts|
    ensures ss[i].off <==>
            i > 0 && ts[i - 1].event.KeyPress? && (ts[i - 1].event.rtcKey || SleepForced(ts, i - 1))
    ensures !ss[i].off ==> (ss[i].forceDeepSleep <==> SleepForced(ts, i))
  {
    if i > 0 {
      RunSleepsIff(ss, ts, start, vbus, i - 1);
      TickAfter(ss, ts, start, vbus, i - 1);
      var t := ts[i - 1];
      assert SleepForced(ts, i) <==> SleepForced(ts, i - 1) || t.event == ForceDeepSleep;
      StepSleeps(ss[i - 1], t.event, t.clock);
    }
  }

  lemma StepSleeps(s: Power, e: Event, now: nat)
    requires !s.off
    ensures Step(s, e, now).off <==> e.KeyPress? && (e.rtcKey || s.forceDeepSleep)
    ensures !Step(s, e, now).off ==> (Step(s, e, now).forceDeepSleep <==> s.forceDeepSleep || e.ForceDeepSleep?)
  {
    match e
    case Poll =>
    case KeyPress(rtcKey, level) =>
    case _ =>
  }

  // ---- the deep-sleep alarm ----

  /** The two events that set the alarm and its flag apart. */
  predicate Unrecorded(s: Power, e: Event) {
    (e.VbusIrq? && e.level.Low? && !s.alarmSet) || (e.PowerOffTimer? && s.alarmSet)
  }

  /**
   When the flag tells whether the alarm is armed, it still does after an event, exactly unless the
   event is one of those two.
   */
  lemma StepRecordsAlarmIff(s: Power, e: Event, now: nat)
    requires s.alarmSet == s.devices.alarm
    ensures Step(s, e, now).alarmSet == Step(s, e, now).devices.alarm <==> !Unrecorded(s, e)
  {
    match e
    case Poll =>
    case VbusIrq(level) =>
    case KeyPress(rtcKey, level) =>
    case MotionIrq(active) =>
    case _ =>
  }

  lemma {:induction false} RunRecordsAlarm(ss: seq<Power>, ts: seq<Tick>, start: nat, vbus: Pin, i: nat)
    requires Run(ss, ts, start, vbus) && i <= |ts|
    requires forall k :: 0 <= k < i ==> ts[k].event != VbusIrq(Low) && ts[k].event != PowerOffTimer
    ensures ss[i].alarmSet == ss[i].devices.alarm
  {
    if i > 0 {
      RunRecordsAlarm(ss, ts, start, vbus, i - 1);
      TickAfter(ss, ts, start, vbus, i - 1);
      StepRecordsAlarmIff(ss[i - 1], ts[i - 1].event, ts[i - 1].clock);
    }
  }

  /** While the flag is right, one poll on external power, or with management disabled, disarms the alarm. */
  lemma PollDisarmsIff(s: Power, now: nat)
    ensures !Step(s, Poll, now).devices.alarm <==> !s.devices.alarm || (Held(s) && s.alarmSet)
  {
  }

  /** An alarm armed without its flag outlives any number of polls. */
  lemma {:induction false} UnrecordedAlarmStays(s: Power, clocks: seq<nat>)
    requires s.devices.alarm && !s.alarmSet
    ensures Polled(s, clocks).devices.alarm && !Polled(s, clocks).alarmSet
    decreases |clocks|
  {
    if clocks != [] {
      UnrecordedAlarmStays(Step(s, Poll, clocks[0]), clocks[1..]);
    }
  }

  function Polled(s: Power, clocks: seq<nat>): Power
    decreases |clocks|
  {
    if clocks == [] then s else Polled(Step(s, Poll, clocks[0]), clocks[1..])
  }

  /**
   It is reached by booting plugged in, pulling the plug and plugging in again: external power with
   the alarm still armed.
   */
  lemma UnrecordedAlarmHappens() returns (ss: seq<Power>, ts: seq<Tick>)
    ensures Run(ss, ts, 0, High) && |ts| == 4
    ensures ss[4].devices.alarm && !ss[4].alarmSet && ss[4].vbus == High
  {
    ts := [Tick(Boot(High), 0), Tick(Poll, 1), Tick(VbusIrq(Low), 2), Tick(VbusIrq(High), 3)];
    var s0 := Initial(0, High);
    var s1 := Step(s0, ts[0].event, 0);
    var s2 := Step(s1, ts[1].event, 1);
    var s3 := Step(s2, ts[2].event, 2);
    ss := [s0, s1, s2, s3, Step(s3, ts[3].event, 3)];
  }

  // ---- the state, told from what happened ----

  /** Something has begun it, and nothing has ended it since. */
  ghost predicate Since(begins: nat -> bool, ends: nat -> bool, i: nat) {
    exists j :: 0 <= j < i && begins(j) && forall k :: j < k < i ==> !ends(k)
  }

  lemma SinceStep(begins: nat -> bool, ends: nat -> bool, i: nat)
    ensures Since(begins, ends, i + 1) <==> begins(i) || (Since(begins, ends, i) && !ends(i))
  {
    if Since(begins, ends, i) && !ends(i) {
      var j :| 0 <= j < i && begins(j) && forall k :: j < k < i ==> !ends(k);
      assert forall k :: j < k < i + 1 ==> !ends(k);
    }
  }

  /** A key press that wakes: not the alarm's own, and deep sleep was not asked for. */
  predicate Wakes(ts: seq<Tick>, j: nat) {
    j < |ts| && ts[j].event.KeyPress? && !ts[j].event.rtcKey && !SleepForced(ts, j)
  }

  /** The level of external power that the latest event to read it found. */
  function LevelAt(ts: seq<Tick>, vbus: Pin, i: nat): Pin
    requires i <= |ts|
  {
    if i == 0 then vbus
    else
      match ts[i - 1].event
      case VbusIrq(level) => level
      case Boot(level) => level
      case KeyPress(_, level) => if Wakes(ts, i - 1) then level else LevelAt(ts, vbus, i - 1)
      case _ => LevelAt(ts, vbus, i - 1)
  }

  /** Management is enabled by booting, and as the latest message says. */
  function EnabledAt(ts: seq<Tick>, i: nat): bool
    requires i <= |ts|
  {
    if i == 0 then false
    else
      match ts[i - 1].event
      case Enable(on, _) => on
      case Boot(_) => true
      case _ => EnabledAt(ts, i - 1)
  }

  /** The idle time of the latest message that has more than five seconds; a minute, without one. */
  function IdleAt(ts: seq<Tick>, i: nat): nat
    requires i <= |ts|
  {
    if i == 0 then 60
    else
      match ts[i - 1].event
      case Enable(_, seconds) => if seconds > 5 then seconds else IdleAt(ts, i - 1)
      case _ => IdleAt(ts, i - 1)
  }

  /** A poll without need for power management: it is disabled, or there is external power. */
  predicate HeldPoll(ts: seq<Tick>, vbus: Pin, j: nat) {
    j < |ts| && ts[j].event.Poll? && (!EnabledAt(ts, j) || LevelAt(ts, vbus, j) == High)
  }

  /** The alarm is armed on record by booting, by a waking key on battery, and by motion on battery. */
  predicate Records(ts: seq<Tick>, vbus: Pin, j: nat) {
    && j < |ts|
    && match ts[j].event
       case Boot(_) => true
       case KeyPress(_, level) => Wakes(ts, j) && level == Low
       case MotionIrq(active) => active && LevelAt(ts, vbus, j) == Low
       case _ => false
  }

  /** It is also armed, off the record, by an interrupt that sees the plug pulled. */
  predicate Arms(ts: seq<Tick>, vbus: Pin, j: nat) {
    Records(ts, vbus, j) || (j < |ts| && ts[j].event == VbusIrq(Low))
  }

  ghost predicate RecordedAt(ts: seq<Tick>, vbus: Pin, i: nat) {
    Since((j: nat) => Records(ts, vbus, j), (j: nat) => HeldPoll(ts, vbus, j), i)
  }

  /** It is disarmed by the power-off timer, and by a poll without need for it while it is on record. */
  ghost predicate Disarms(ts: seq<Tick>, vbus: Pin, j: nat) {
    j < |ts| && (ts[j].event.PowerOffTimer? || (HeldPoll(ts, vbus, j) && RecordedAt(ts, vbus, j)))
  }

  ghost predicate ArmedAt(ts: seq<Tick>, vbus: Pin, i: nat) {
    Since((j: nat) => Arms(ts, vbus, j), (j: nat) => Disarms(ts, vbus, j), i)
  }

  lemma WakesIff(ss: seq<Power>, ts: seq<Tick>, start: nat, vbus: Pin, i: nat)
    requires Run(ss, ts, start, vbus) && i < |ts|
    ensures IsKey(ss[i], ts[i]) <==> Wakes(ts, i)
  {
    RunSleepsIff(ss, ts, start, vbus, i);
    TickAfter(ss, ts, start, vbus, i);
  }

  /** Over every run, `vbus` is the level read last, and the setting is the one received last. */
  lemma {:induction false} RunKnowsSetting(ss: seq<Power>, ts: seq<Tick>, start: nat, vbus: Pin, i: nat)
    requires Run(ss, ts, start, vbus) && i <= |ts|
    ensures ss[i].vbus == LevelAt(ts, vbus, i) && ss[i].enabled == EnabledAt(ts, i) && ss[i].idleSec == IdleAt(ts, i)
  {
    if i > 0 {
      var j := i - 1;
      RunKnowsSetting(ss, ts, start, vbus, j);
      TickAfter(ss, ts, start, vbus, j);
      WakesIff(ss, ts, start, vbus, j);
      StepReads(ss[j], ts[j]);
      SettingAfter(ts, vbus, j);
    }
  }

  /** The level an event reads and the part of the setting it brings, and what they are without one. */
  lemma StepReads(s: Power, t: Tick)
    ensures var after := Step(s, t.event, t.clock);
            && after.vbus == (if t.event.VbusIrq? || t.event.Boot? || IsKey(s, t) then t.event.level else s.vbus)
            && after.enabled == (if t.event.Enable? then t.event.on else t.event.Boot? || s.enabled)
            && after.idleSec == if t.event.Enable? && t.event.seconds > 5 then t.event.seconds else s.idleSec
  {
    match t.event
    case Poll =>
    case KeyPress(rtcKey, level) =>
    case MotionIrq(active) =>
    case _ =>
  }

  lemma SettingAfter(ts: seq<Tick>, vbus: Pin, i: nat)
    requires i < |ts|
    ensures var e := ts[i].event;
            && LevelAt(ts, vbus, i + 1) ==
               (if e.VbusIrq? || e.Boot? || Wakes(ts, i) then e.level else LevelAt(ts, vbus, i))
            && EnabledAt(ts, i + 1) == (if e.Enable? then e.on else e.Boot? || EnabledAt(ts, i))
            && IdleAt(ts, i + 1) == if e.Enable? && e.seconds > 5 then e.seconds else IdleAt(ts, i)
  {
  }

  /**
   Over every run, the alarm is armed exactly when something has armed it and nothing has disarmed it
   since, and the flag says so for what was armed on record.
   */
  lemma {:induction false} RunArmsIff(ss: seq<Power>, ts: seq<Tick>, start: nat, vbus: Pin, i: nat)
    requires Run(ss, ts, start, vbus) && i <= |ts|
    ensures ss[i].alarmSet <==> RecordedAt(ts, vbus, i)
    ensures ss[i].devices.alarm <==> ArmedAt(ts, vbus, i)
  {
    if i > 0 {
      var j := i - 1;
      RunArmsIff(ss, ts, start, vbus, j);
      RunKnowsSetting(ss, ts, start, vbus, j);
      TickAfter(ss, ts, start, vbus, j);
      WakesIff(ss, ts, start, vbus, j);
      SinceStep((k: nat) => Records(ts, vbus, k), (k: nat) => HeldPoll(ts, vbus, k), j);
      SinceStep((k: nat) => Arms(ts, vbus, k), (k: nat) => Disarms(ts, vbus, k), j);
      StepArms(ss[j], ts[j].event, ts[j].clock);
    }
  }

  /** What one event does to the alarm and its flag. */
  lemma StepArms(s: Power, e: Event, now: nat)
    ensures var recorded := e.Boot? || (e.MotionIrq? && e.active && s.vbus == Low)
                            || (e.KeyPress? && !SleepsDeep(s, e.rtcKey) && e.level == Low);
            var held := e.Poll? && (!s.enabled || s.vbus == High);
            && (Step(s, e, now).alarmSet <==> recorded || (s.alarmSet && !held))
            && (Step(s, e, now).devices.alarm <==>
                  || recorded || e == VbusIrq(Low)
                  || (s.devices.alarm && !e.PowerOffTimer? && !(held && s.alarmSet)))
  {
    match e
    case Poll =>
    case KeyPress(rtcKey, level) =>
    case MotionIrq(active) =>
    case VbusIrq(level) =>
    case _ =>
  }

  // ---- when it suspends ----

  predicate Suspended(ss: seq<Power>, ts: seq<Tick>, j: nat) { j < |ts| && j < |ss| && Suspends(ss[j], ts[j]) }

  /** A suspend was asked for and has not happened yet. */
  ghost predicate ForcedAt(ss: seq<Power>, ts: seq<Tick>, i: nat) {
    Since((j: nat) => j < |ts| && ts[j].event == ForceWfi, (j: nat) => Suspended(ss, ts, j), i)
  }

  /** It has suspended and no key has woken it since. */
  ghost predicate AwaitingAt(ss: seq<Power>, ts: seq<Tick>, i: nat) {
    Since((j: nat) => Suspended(ss, ts, j), (j: nat) => Wakes(ts, j), i)
  }

  ghost predicate ScreenOffAt(ts: seq<Tick>, i: nat) {
    Since((j: nat) => j < |ts| && ts[j].event == ScreenOffRequest, (j: nat) => Wakes(ts, j), i)
  }

  /** When the latest key, suspend, or poll without need for power management was handled; or the start. */
  ghost function LastActionAt(ss: seq<Power>, ts: seq<Tick>, start: nat, vbus: Pin, i: nat): nat
    requires i <= |ts|
  {
    if i == 0 then start
    else if ts[i - 1].event.KeyPress? || Suspended(ss, ts, i - 1) || HeldPoll(ts, vbus, i - 1) then ts[i - 1].clock
    else LastActionAt(ss, ts, start, vbus, i - 1)
  }

  /** Over every run, the loop's remaining variables tell these things. */
  lemma {:induction false} RunKnowsWaits(ss: seq<Power>, ts: seq<Tick>, start: nat, vbus: Pin, i: nat)
    requires Run(ss, ts, start, vbus) && i <= |ts|
    ensures ss[i].forceWfi <==> ForcedAt(ss, ts, i)
    ensures ss[i].awaitingKey <==> AwaitingAt(ss, ts, i)
    ensures ss[i].screenOffRequested <==> ScreenOffAt(ts, i)
  {
    if i > 0 {
      var j := i - 1;
      RunKnowsWaits(ss, ts, start, vbus, j);
      TickAfter(ss, ts, start, vbus, j);
      WakesIff(ss, ts, start, vbus, j);
      SinceStep((k: nat) => k < |ts| && ts[k].event == ForceWfi, (k: nat) => Suspended(ss, ts, k), j);
      SinceStep((k: nat) => Suspended(ss, ts, k), (k: nat) => Wakes(ts, k), j);
      SinceStep((k: nat) => k < |ts| && ts[k].event == ScreenOffRequest, (k: nat) => Wakes(ts, k), j);
      StepForces(ss[j], ts[j]);
      StepAwaits(ss[j], ts[j]);
      StepScreenOff(ss[j], ts[j]);
    }
  }

  lemma StepForces(s: Power, t: Tick)
    ensures Step(s, t.event, t.clock).forceWfi <==> t.event == ForceWfi || (s.forceWfi && !Suspends(s, t))
  {
    match t.event
    case Poll =>
    case KeyPress(rtcKey, level) =>
    case MotionIrq(active) =>
    case _ =>
  }

  lemma StepAwaits(s: Power, t: Tick)
    ensures Step(s, t.event, t.clock).awaitingKey <==> Suspends(s, t) || (s.awaitingKey && !IsKey(s, t))
  {
    match t.event
    case Poll =>
    case KeyPress(rtcKey, level) =>
    case MotionIrq(active) =>
    case _ =>
  }

  lemma StepScreenOff(s: Power, t: Tick)
    ensures Step(s, t.event, t.clock).screenOffRequested <==>
            t.event == ScreenOffRequest || (s.screenOffRequested && !IsKey(s, t))
  {
    match t.event
    case Poll =>
    case KeyPress(rtcKey, level) =>
    case MotionIrq(active) =>
    case _ =>
  }

  lemma {:induction false} RunKnowsLastAction(ss: seq<Power>, ts: seq<Tick>, start: nat, vbus: Pin, i: nat)
    requires Run(ss, ts, start, vbus) && i <= |ts|
    ensures ss[i].lastActionMs == LastActionAt(ss, ts, start, vbus, i)
  {
    if i > 0 {
      var j := i - 1;
      RunKnowsLastAction(ss, ts, start, vbus, j);
      RunKnowsSetting(ss, ts, start, vbus, j);
      RunSound(ss, ts, start, vbus, j);
      TickAfter(ss, ts, start, vbus, j);
      StepActs(ss[j], ts[j]);
    }
  }

  lemma StepActs(s: Power, t: Tick)
    requires s.lastActionMs <= t.clock
    ensures Step(s, t.event, t.clock).lastActionMs ==
            if t.event.KeyPress? || Suspends(s, t) || (t.event.Poll? && (!s.enabled || s.vbus == High)) then t.clock
            else s.lastActionMs
  {
    match t.event
    case Poll =>
    case KeyPress(rtcKey, level) =>
    case MotionIrq(active) =>
    case _ =>
  }

  /**
   Over every run, a poll suspends exactly when a suspend was asked for, or when management is enabled,
   there is no external power, and the last action lies back longer than the idle time, or than one
   second while a key is awaited.
   */
  lemma RunSuspendsIff(ss: seq<Power>, ts: seq<Tick>, start: nat, vbus: Pin, i: nat)
    requires Run(ss, ts, start, vbus) && i < |ts| && ts[i].event.Poll?
    ensures Suspended(ss, ts, i) <==>
            || ForcedAt(ss, ts, i)
            || (EnabledAt(ts, i) && LevelAt(ts, vbus, i) == Low
                && ts[i].clock > LastActionAt(ss, ts, start, vbus, i)
                                 + (if AwaitingAt(ss, ts, i) then 1000 else 1000 * IdleAt(ts, i)))
  {
    RunKnowsSetting(ss, ts, start, vbus, i);
    RunKnowsWaits(ss, ts, start, vbus, i);
    RunKnowsLastAction(ss, ts, start, vbus, i);
    RunSound(ss, ts, start, vbus, i);
    TickAfter(ss, ts, start, vbus, i);
  }

  // ---- the loop ----

  class PowerManager {
    var pwrMgrEnabled: bool
    var wfiAwaitingKeypress: bool
    var idleSec: nat
    var forceWfi: bool
    var forceDeepSleep: bool
    var screenOffRequested: bool
    var lastActionTimeMs: nat
    var vbusState: Pin
    var alarmSet: bool
    var screen: bool
    var watchdog: bool
    var alarm: bool
    var off: bool

    ghost function State(): Power
      reads this
    {
      Power(pwrMgrEnabled, idleSec, wfiAwaitingKeypress, forceWfi, forceDeepSleep, screenOffRequested,
            lastActionTimeMs, vbusState, alarmSet, Devices(screen, watchdog, alarm), off)
    }

    constructor (clock: nat, vbus: Pin)
      ensures State() == Initial(clock, vbus)
    {
      pwrMgrEnabled, idleSec, wfiAwaitingKeypress := false, WFI_IDLE_SEC_INIT, false;
      forceWfi, forceDeepSleep, screenOffRequested := false, false, false;
      lastActionTimeMs, vbusState, alarmSet := clock, vbus, false;
      screen, watchdog, alarm, off := true, true, false, false;
    }

    /** Clamp the last action to the clock; while held, restart it and clear the alarm. */
    method Refresh(now: nat)
      modifies this`lastActionTimeMs, this`alarm, this`alarmSet
      ensures lastActionTimeMs == LastSeen(old(State()), now)
      ensures alarmSet == (old(alarmSet) && !Held(old(State())))
      ensures alarm == (old(alarm) && !(old(alarmSet) && Held(old(State()))))
    {
      if lastActionTimeMs > now {
        lastActionTimeMs := now;
      }
      if !pwrMgrEnabled || vbusState == High {
        lastActionTimeMs := now;
        if alarmSet {
          alarm := false;
          alarmSet := false;
        }
      }
    }

    method HandlePoll(now: nat) returns (suspended: bool)
      modifies this
      ensures State() == AfterPoll(old(State()), now)
      ensures suspended <==> PollSuspends(old(State()), now)
    {
      Refresh(now);
      suspended := (!wfiAwaitingKeypress && now - lastActionTimeMs > idleSec * 1000)
                   || (wfiAwaitingKeypress && now - lastActionTimeMs > MOTION_IRQ_MARGIN_MS)
                   || forceWfi;
      if suspended {
        forceWfi := false;
        screen := false;
        wfiAwaitingKeypress := true;
        watchdog := false;
        // the system is suspended here
        watchdog := true;
        lastActionTimeMs := now;
      }
    }

    method HandleKeyPress(rtcKey: bool, level: Pin, now: nat)
      modifies this
      ensures State() == Step(old(State()), KeyPress(rtcKey, level), now)
    {
      if rtcKey || forceDeepSleep {
        forceDeepSleep := false;
        screen := false;
        watchdog := false;
        off := true;
      } else {
        if screenOffRequested {
          screenOffRequested := false;
          screen := true;
        }
        if wfiAwaitingKeypress {
          screen := true;
          wfiAwaitingKeypress := false;
        }
        vbusState := level;
        if vbusState == Low {
          SetWakeupAlarm();
          alarmSet := true;
        }
      }
      lastActionTimeMs := now;
    }

    method SetWakeupAlarm()
      modifies this`alarm
      ensures alarm
    {
      alarm := true;
    }

    method HandleEnable(on: bool, seconds: nat)
      modifies this
      ensures State() == Step(old(State()), Enable(on, seconds), 0)
    {
      pwrMgrEnabled := on;
      if seconds > WFI_MIN_SEC { idleSec := seconds; }
    }

    method HandleMotion(active: bool)
      modifies this
      ensures State() == Step(old(State()), MotionIrq(active), 0)
    {
      if active && vbusState == Low {
        SetWakeupAlarm();
        alarmSet := true;
      }
    }

    method HandleVbus(level: Pin)
      modifies this
      ensures State() == Step(old(State()), VbusIrq(level), 0)
    {
      vbusState := level;
      if vbusState == Low { SetWakeupAlarm(); }
    }

    method HandleBoot(level: Pin)
      modifies this
      ensures State() == Step(old(State()), Boot(level), 0)
    {
      pwrMgrEnabled := true;
      SetWakeupAlarm();
      alarmSet := true;
      vbusState := level;
    }

    /** One turn of the loop. */
    method Handle(e: Event, now: nat)
      modifies this
      ensures State() == Step(old(State()), e, now)
    {
      match e {
        case Enable(on, seconds) => HandleEnable(on, seconds); return;
        case Poll => var _ := HandlePoll(now); return;
        case MotionIrq(active) => HandleMotion(active); return;
        case VbusIrq(level) => HandleVbus(level); return;
        case KeyPress(rtcKey, level) => HandleKeyPress(rtcKey, level, now); return;
        case Boot(level) => HandleBoot(level); return;
        case ForceDeepSleep => forceDeepSleep := true;
        case ForceWfi => forceWfi := true;
        case ScreenOffRequest =>
          screenOffRequested := true;
          screen := false;
        case PowerOffTimer => alarm := false;
        case Other =>
      }
    }
  }
}
