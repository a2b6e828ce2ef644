/**
 The vault as a client of the power manager: which setting it sends, and when. The two processes
 run side by side; configuration and boot messages come from the vault only, everything else reaches
 the power manager at any moment.
 */
module VaultPower {
  import opened Wrappers
  import PM = PowerManager

  datatype VaultMode =
    | Idle | IdleDevMode | ShowKey(quantum: nat) | ResponseGene(quantum: nat) | ConfirmGene | GeneScan
    | FactoryTest | StandAloneTest | Tour | TokenTour | DefconHelp | About | Totp | Password | TokenHelp

  /** The timeouts, in seconds, of a build; the power manager takes up none of five seconds or less. */
  datatype Seconds = Seconds(short: nat, medium: nat, long: nat)

  type Timeouts = s: Seconds
    | s.short > PM.WFI_MIN_SEC && s.medium > PM.WFI_MIN_SEC && s.long > PM.WFI_MIN_SEC
    witness Seconds(36, 69, 0x69)

  datatype Build = Badge | Uber

  function TimeoutsOf(build: Build): Timeouts {
    match build
    case Badge => Seconds(36, 69, 0x69)
    case Uber => Seconds(4 * 60 * 60, 8 * 60 * 60, 8 * 60 * 60)
  }

  datatype Setting = Setting(enable: bool, seconds: nat)

  function SettingFor(t: Timeouts, mode: VaultMode): Setting {
    match mode
    case About => Setting(true, t.short)
    case ConfirmGene => Setting(true, t.medium)
    case FactoryTest => Setting(false, 0)
    case StandAloneTest => Setting(false, 0)
    case DefconHelp => Setting(true, t.short)
    case TokenHelp => Setting(true, t.medium)
    case Idle => Setting(true, t.short)
    case IdleDevMode => Setting(true, t.short)
    case Password => Setting(true, t.medium)
    case Totp => Setting(true, t.medium)
    case GeneScan => Setting(true, t.long)
    case ResponseGene(_) => Setting(true, t.long)
    case ShowKey(_) => Setting(true, t.long)
    case TokenTour => Setting(true, t.medium)
    case Tour => Setting(true, t.medium)
  }

  datatype Client = Client(alwaysOn: bool, previousMode: Option<VaultMode>, mode: VaultMode, bootSent: bool)

  /** The message `update_power_state` sends, if any. */
  function Message(t: Timeouts, c: Client): Option<Setting> {
    if c.alwaysOn then Some(Setting(false, 0))
    else if c.previousMode != Some(c.mode) then Some(SettingFor(t, c.mode))
    else None
  }

  datatype System = System(client: Client, power: PM.Power)

  function Deliver(power: PM.Power, s: Setting): PM.Power { PM.Step(power, PM.Enable(s.enable, s.seconds), 0) }

  function Update(t: Timeouts, s: System): System {
    var m := Message(t, s.client);
    System(s.client.(previousMode := Some(s.client.mode)), if m.Some? then Deliver(s.power, m.value) else s.power)
  }

  /**
   What the vault is told: to redraw, to toggle the always-on setting, or anything else. A redraw and
   anything else leave it in some mode.
   */
  datatype VaultMessage = Redraw(mode: VaultMode) | ToggleAlwaysOn | Other(mode: VaultMode)

  function Handle(t: Timeouts, s: System, m: VaultMessage, level: PM.Pin): System {
    match m
    case Redraw(mode) =>
      System(s.client.(bootSent := true, mode := mode),
             if s.client.bootSent then s.power else PM.Step(s.power, PM.Boot(level), 0))
    case ToggleAlwaysOn =>
      Update(t, s.(client := s.client.(alwaysOn := !s.client.alwaysOn, previousMode := None)))
    case Other(mode) => s.(client := s.client.(mode := mode))
  }

  /** One turn of the vault's loop, from waiting for a message to waiting for the next. */
  function Turn(t: Timeouts, s: System, m: VaultMessage, level: PM.Pin): System { Update(t, Handle(t, s, m, level)) }

  /** Where the loop first waits; a module outside a badge has sent the boot message already. */
  function Start(t: Timeouts, alwaysOn: bool, mode: VaultMode, bootSent: bool, clock: nat, level: PM.Pin): System {
    var power := PM.Initial(clock, level);
    var booted := if bootSent then PM.Step(power, PM.Boot(level), clock) else power;
    Update(t, System(Client(alwaysOn, None, mode, bootSent), booted))
  }

  /** What happens while or after the vault waits: a turn of its loop, or an event of the power manager's own. */
  datatype Action = VaultTurn(message: VaultMessage, level: PM.Pin) | PowerEvent(event: PM.Event, clock: nat)

  predicate Own(e: PM.Event) { !e.Enable? && !e.Boot? }

  function Act(t: Timeouts, s: System, a: Action): System {
    match a
    case VaultTurn(m, level) => Turn(t, s, m, level)
    case PowerEvent(e, clock) => if Own(e) then s.(power := PM.Step(s.power, e, clock)) else s
  }

  function Run(t: Timeouts, s: System, actions: seq<Action>): System
    decreases |actions|
  {
    if actions == [] then s else Run(t, Act(t, s, actions[0]), actions[1..])
  }

  // ---- what holds whenever the vault waits ----

  /** The setting a waiting vault wants. */
  function Wanted(t: Timeouts, c: Client): Setting { if c.alwaysOn then Setting(false, 0) else SettingFor(t, c.mode) }

  predicate Waiting(t: Timeouts, s: System) {
    && s.client.previousMode == Some(s.client.mode)
    && (s.client.alwaysOn ==> !s.power.enabled)
    && (Wanted(t, s.client).enable ==> s.power.enabled && s.power.idleSec == Wanted(t, s.client).seconds)
  }

  /** The power manager is enabled exactly when the vault wants it to be. */
  predicate Matches(t: Timeouts, s: System) { s.power.enabled == Wanted(t, s.client).enable }

  lemma OwnEventsKeepTheSetting(p: PM.Power, e: PM.Event, clock: nat)
    requires Own(e)
    ensures PM.Step(p, e, clock).enabled == p.enabled && PM.Step(p, e, clock).idleSec == p.idleSec
  {
    match e
    case Poll =>
    case KeyPress(rtcKey, level) =>
    case MotionIrq(active) =>
    case VbusIrq(level) =>
    case _ =>
  }

  /**
   The boot message can leave the power manager on against the vault's wish: when the redraw that
   sends it stays in a mode that wants it off, so that no setting follows.
   */
  predicate BootsUnwanted(t: Timeouts, s: System, a: Action) {
    && a.VaultTurn? && a.message.Redraw? && a.message.mode == s.client.mode && !s.client.bootSent
    && !s.client.alwaysOn && !SettingFor(t, s.client.mode).enable
  }

  lemma ActKeeps(t: Timeouts, s: System, a: Action)
    requires Waiting(t, s)
    ensures Waiting(t, Act(t, s, a))
    ensures Matches(t, s) ==> (Matches(t, Act(t, s, a)) <==> !BootsUnwanted(t, s, a))
  {
    match a
    case VaultTurn(m, level) => TurnKeeps(t, s, m, level);
    case PowerEvent(e, clock) =>
      if Own(e) {
        OwnEventsKeepTheSetting(s.power, e, clock);
      }
  }

  lemma TurnKeeps(t: Timeouts, s: System, m: VaultMessage, level: PM.Pin)
    requires Waiting(t, s)
    ensures Waiting(t, Turn(t, s, m, level))
    ensures Matches(t, s) ==> (Matches(t, Turn(t, s, m, level)) <==> !BootsUnwanted(t, s, VaultTurn(m, level)))
  {
    match m
    case Redraw(mode) =>
    case ToggleAlwaysOn =>
    case Other(mode) =>
  }

  /**
   Whatever the two processes do: when the vault waits with always-on set, the power manager is
   disabled; otherwise it has the mode's timeout whenever the mode wants one.
   */
  lemma {:induction false} RunKeepsWaiting(t: Timeouts, s: System, actions: seq<Action>)
    requires Waiting(t, s)
    ensures Waiting(t, Run(t, s, actions))
    decreases |actions|
  {
    if actions != [] {
      ActKeeps(t, s, actions[0]);
      RunKeepsWaiting(t, Act(t, s, actions[0]), actions[1..]);
    }
  }

  lemma StartWaits(t: Timeouts, alwaysOn: bool, mode: VaultMode, bootSent: bool, clock: nat, level: PM.Pin)
    ensures Waiting(t, Start(t, alwaysOn, mode, bootSent, clock, level))
    ensures Matches(t, Start(t, alwaysOn, mode, bootSent, clock, level))
  {
  }

  /** Does no action of a run boot the power manager in a mode that wants it off? */
  predicate BootsWanted(t: Timeouts, s: System, actions: seq<Action>)
    decreases |actions|
  {
    actions == [] || (!BootsUnwanted(t, s, actions[0]) && BootsWanted(t, Act(t, s, actions[0]), actions[1..]))
  }

  /**
   A run that fails to match: start in the factory test with always-on off, and redraw once. The
   mode's wish waits for a mode change; had the first redraw made one, it would have been met.
   */
  lemma UnwantedBootHappens(t: Timeouts, clock: nat, level: PM.Pin, m: VaultMessage)
    requires !m.ToggleAlwaysOn? && m.mode == FactoryTest
    ensures var s := Start(t, false, FactoryTest, false, clock, level);
            var booted := Run(t, s, [VaultTurn(Redraw(FactoryTest), level)]);
            && Matches(t, s) && BootsUnwanted(t, s, VaultTurn(Redraw(FactoryTest), level))
            && !Matches(t, booted) && booted.power.enabled
            && !Matches(t, Turn(t, booted, m, level))
            && Matches(t, Turn(t, booted, Other(StandAloneTest), level))
            && Matches(t, Turn(t, s, Redraw(StandAloneTest), level))
  {
    var s := Start(t, false, FactoryTest, false, clock, level);
    var actions := [VaultTurn(Redraw(FactoryTest), level)];
    assert Run(t, s, actions) == Run(t, Act(t, s, actions[0]), actions[1..]) == Act(t, s, actions[0]);
  }

  lemma {:induction false} RunMatches(t: Timeouts, s: System, actions: seq<Action>)
    requires Waiting(t, s) && Matches(t, s) && BootsWanted(t, s, actions)
    ensures Matches(t, Run(t, s, actions))
    decreases |actions|
  {
    if actions != [] {
      ActKeeps(t, s, actions[0]);
      RunMatches(t, Act(t, s, actions[0]), actions[1..]);
    }
  }

  /** With always-on set, no poll of any run suspends the system, unless a suspend was forced. */
  lemma AlwaysOnNeverSuspends(t: Timeouts, alwaysOn: bool, mode: VaultMode, bootSent: bool, start: nat, level: PM.Pin,
                              actions: seq<Action>, now: nat)
    ensures var s := Run(t, Start(t, alwaysOn, mode, bootSent, start, level), actions);
            s.client.alwaysOn && PM.PollSuspends(s.power, now) ==> s.power.forceWfi
  {
    StartWaits(t, alwaysOn, mode, bootSent, start, level);
    var s := Run(t, Start(t, alwaysOn, mode, bootSent, start, level), actions);
    RunKeepsWaiting(t, Start(t, alwaysOn, mode, bootSent, start, level), actions);
    if s.client.alwaysOn && PM.PollSuspends(s.power, now) {
      PM.NoSuspendWhileHeld(s.power, now);
    }
  }

  /** The idle time each mode gets, in seconds; none in the two tests. */
  function IdleTime(build: Build, mode: VaultMode): Option<nat> {
    if mode == FactoryTest || mode == StandAloneTest then None
    else if mode in {Idle, IdleDevMode, About, DefconHelp} then Some(if build == Badge then 36 else 14400)
    else if mode == GeneScan || mode.ShowKey? || mode.ResponseGene? then Some(if build == Badge then 105 else 28800)
    else Some(if build == Badge then 69 else 28800)
  }

  /**
   In every run of both processes from the start, a waiting vault finds the power manager disabled with
   always-on set, and else with its mode's idle time; in a test it finds it disabled, unless the boot
   message came against its wish.
   */
  lemma RunTimeouts(build: Build, alwaysOn: bool, mode: VaultMode, bootSent: bool, start: nat, level: PM.Pin,
                    actions: seq<Action>)
    ensures var first := Start(TimeoutsOf(build), alwaysOn, mode, bootSent, start, level);
            var s := Run(TimeoutsOf(build), first, actions);
            && (s.client.alwaysOn ==> !s.power.enabled)
            && (!s.client.alwaysOn ==>
                  match IdleTime(build, s.client.mode)
                  case Some(seconds) => s.power.enabled && s.power.idleSec == seconds
                  case None => BootsWanted(TimeoutsOf(build), first, actions) ==> !s.power.enabled)
  {
    var t := TimeoutsOf(build);
    StartWaits(t, alwaysOn, mode, bootSent, start, level);
    var first := Start(t, alwaysOn, mode, bootSent, start, level);
    RunKeepsWaiting(t, first, actions);
    if BootsWanted(t, first, actions) {
      RunMatches(t, first, actions);
    }
    SettingOf(build, Run(t, first, actions).client.mode);
  }

  lemma SettingOf(build: Build, mode: VaultMode)
    ensures var setting := SettingFor(TimeoutsOf(build), mode);
            match IdleTime(build, mode)
            case Some(seconds) => setting == Setting(true, seconds)
            case None => !setting.enable
  {
  }

  /** Switching always-on off sends the current mode's setting although the mode is the one it was. */
  lemma ToggleOffResends(t: Timeouts, s: System, level: PM.Pin)
    requires Waiting(t, s) && s.client.alwaysOn
    ensures var off := s.client.(alwaysOn := false);
            && Message(t, off).None?
            && Message(t, off.(previousMode := None)) == Some(SettingFor(t, s.client.mode))
            && Turn(t, s, ToggleAlwaysOn, level) == System(off, Deliver(s.power, SettingFor(t, s.client.mode)))
  {
  }

  /** Switching it on and off again restores the whole system, the power manager included. */
  lemma ToggleTwice(t: Timeouts, s: System, level: PM.Pin)
    requires Waiting(t, s) && Matches(t, s) && !s.client.alwaysOn
    ensures Turn(t, Turn(t, s, ToggleAlwaysOn, level), ToggleAlwaysOn, level) == s
  {
    var on := Turn(t, s, ToggleAlwaysOn, level);
    assert on.power == s.power.(enabled := false);
  }

  // ---- the vault's side ----

  class Vault {
    const timeouts: Timeouts
    const powerManager: PM.PowerManager
    var displayAlwaysOn: bool
    var previousMode: Option<VaultMode>
    var mode: VaultMode
    var bootSent: bool

    ghost function State(): System
      reads this, powerManager
    {
      System(Client(displayAlwaysOn, previousMode, mode, bootSent), powerManager.State())
    }

    constructor (build: Build, pm: PM.PowerManager, alwaysOn: bool, initialMode: VaultMode, booted: bool)
      ensures powerManager == pm && timeouts == TimeoutsOf(build)
      ensures State() == System(Client(alwaysOn, None, initialMode, booted), pm.State())
    {
      timeouts, powerManager := TimeoutsOf(build), pm;
      displayAlwaysOn, previousMode, mode, bootSent := alwaysOn, None, initialMode, booted;
    }

    method UpdatePowerState()
      modifies this, powerManager
      ensures State() == Update(timeouts, old(State()))
    {
      if displayAlwaysOn {
        powerManager.Handle(PM.Enable(false, 0), 0);
      } else if previousMode != Some(mode) {
        var s := SettingFor(timeouts, mode);
        powerManager.Handle(PM.Enable(s.enable, s.seconds), 0);
      }
      previousMode := Some(mode);
    }

    method Toggle() returns (alwaysOn: bool)
      modifies this
      ensures alwaysOn == !old(displayAlwaysOn)
      ensures State() == old(State()).(client := old(State()).client.(alwaysOn := alwaysOn, previousMode := None))
    {
      displayAlwaysOn := !displayAlwaysOn;
      previousMode := None;
      return displayAlwaysOn;
    }

    /** Handle one message and come back to the top of the loop. */
    method HandleMessage(m: VaultMessage, level: PM.Pin)
      modifies this, powerManager
      ensures State() == Turn(timeouts, old(State()), m, level)
    {
      match m {
        case Redraw(newMode) =>
          if !bootSent {
            bootSent := true;
            powerManager.Handle(PM.Boot(level), 0);
          }
          mode := newMode;
        case ToggleAlwaysOn =>
          var _ := Toggle();
          UpdatePowerState();
        case Other(newMode) =>
          mode := newMode;
      }
      assert State() == Handle(timeouts, old(State()), m, level);
      UpdatePowerState();
    }
  }
}
