/**
  The main window's controller: the one-shot reconciliation of Wi-Fi, Internet
  and VPN, the status labels with their confirmation-gated corrective actions,
  the auto-configuration timer, the VPN labels fed by the Psiphon monitor, and
  saving a profile typed in by the user.

  The widgets are one value, `Widgets`; the user's answers to questions come
  from an oracle of everything asked before, like the host's replies; messages
  shown to the user are recorded as notices.
 */
module Controller {
  import opened Os
  import opened Profiles
  import opened Network
  import opened WifiProfiles
  import opened DuplicateProfiles
  import opened MessageBox
  import Monitor = PsiphonMonitor

  // ---------------------------------------------------------------------------
  // Widgets, questions and notices

  /** The state of the window's widgets that the controller reads or writes. */
  datatype Widgets = Widgets(
    currentWifi: string,
    wifiStatus: string,
    netStatus: string,
    vpnStatus: string,
    vpnTunneling: string,
    useVpn: bool,
    interval: int,
    intervalReadOnly: bool,
    autoConfigEnabled: bool,
    stopAutoConfigEnabled: bool,
    ssidInput: string,
    passwordInput: string)

  /** The auto-configuration timer: whether it runs, and its period in milliseconds. */
  datatype Timer = Timer(active: bool, period: int)

  /** The questions the controller asks, each a timed question. */
  datatype Prompt = ResetWifiPrompt(ssid: string) | StartVpnPrompt | ConnectNowPrompt(savedSsid: string)

  datatype Asked = Asked(prompt: Prompt, answer: Button)

  datatype Level = InfoLevel | WarningLevel | ErrorLevel

  /** The messages shown to the user. */
  datatype Message =
    | CredentialsRequired
    | SaveFailed(ssid: string)
    | WifiConnectFailed
    | InternetRestoreFailed
    | VpnStartFailed
    | IntervalInvalid
    | AutoConfigStarted(seconds: int)
    | AutoConfigStopped

  datatype Notice = Notice(level: Level, message: Message)

  /** How a reconciliation run ended: at the Wi-Fi step, at the Internet step, or after the VPN step. */
  datatype Outcome = WifiUnavailable | InternetUnavailable | Configured(vpnFailed: bool)

  const ConnectedText: string := "Connected"
  const NotConnectedText: string := "Not Connected"

  /** The text of the Wi-Fi and Internet status labels. */
  function StatusWord(up: bool): string {
    if up then ConnectedText else NotConnectedText
  }

  /** The widgets as the window starts: nothing selected or connected, a 20-second interval, auto-configuration idle. */
  const InitialWidgets: Widgets :=
    Widgets("Not Selected", NotConnectedText, NotConnectedText, "Not Running", "Not Running",
            false, 20, false, true, false, "", "")

  /** Auto-configuration is idle: the interval is editable, "start" enabled and "stop" disabled. */
  predicate Idle(w: Widgets) {
    !w.intervalReadOnly && w.autoConfigEnabled && !w.stopAutoConfigEnabled
  }

  /** The widgets while auto-configuration runs: the interval is read-only, "start" disabled and "stop" enabled. */
  function Locked(w: Widgets): (l: Widgets)
    ensures !Idle(l)
  {
    w.(intervalReadOnly := true, autoConfigEnabled := false, stopAutoConfigEnabled := true)
  }

  /** The widgets once auto-configuration stopped. */
  function Unlocked(w: Widgets): (u: Widgets)
    ensures Idle(u)
  {
    w.(intervalReadOnly := false, autoConfigEnabled := true, stopAutoConfigEnabled := false)
  }

  /** Stopping after starting gives back the idle widgets. */
  lemma UnlockLocked(w: Widgets)
    requires Idle(w)
    ensures Unlocked(Locked(w)) == w
  {
  }

  // ---------------------------------------------------------------------------
  // The VPN labels

  const NotRunningText: string := "Not Running"
  const TunnelStoppedText: string := "Running, Tunnel Stopped"
  const TunnelingFailedText: string := "Running, Tunneling Failed"
  const RunningPrefix: string := "Running - "
  const SucceedText: string := "Succeed - Active"
  const InProgressText: string := "Tunneling - In Progress"
  const NotTunnelingText: string := "Not Tunneling"

  /**
    The VPN status label, decided by the user interface, then the tunnel core, then
    the tunnel, in that priority; `clock` is the current time as hours and minutes.
   */
  function VpnStatusText(uiRunning: bool, tunnelRunning: bool, tunnelActive: bool, clock: string): (text: string)
    ensures text == NotRunningText <==> !uiRunning
    ensures text == TunnelStoppedText <==> uiRunning && !tunnelRunning
    ensures text == TunnelingFailedText <==> uiRunning && tunnelRunning && !tunnelActive
    ensures text == RunningPrefix + clock <==> uiRunning && tunnelRunning && tunnelActive
  {
    assert (RunningPrefix + clock)[7] == ' ' && TunnelStoppedText[7] == ',' && TunnelingFailedText[7] == ',';
    assert (RunningPrefix + clock)[0] == 'R' && NotRunningText[0] == 'N';
    if !uiRunning then NotRunningText
    else if !tunnelRunning then TunnelStoppedText
    else if !tunnelActive then TunnelingFailedText
    else RunningPrefix + clock
  }

  /** The tunneling label: succeeded iff active and established, in progress iff the core runs without a tunnel. */
  function TunnelingText(tunnelRunning: bool, tunnelActive: bool, established: bool): (text: string)
    ensures text == SucceedText <==> tunnelActive && established
    ensures text == InProgressText <==> tunnelRunning && !tunnelActive
    ensures text == NotTunnelingText <==> !(tunnelActive && established) && !(tunnelRunning && !tunnelActive)
  {
    if tunnelActive && established then SucceedText
    else if tunnelRunning && !tunnelActive then InProgressText
    else NotTunnelingText
  }

  /** For an update of the monitor, the tunneling label shows success exactly when the status label shows the clock. */
  lemma LabelsAgree(s: Monitor.Sample, clock: string)
    ensures var u := Monitor.Sampled(s);
            TunnelingText(u.tunnelRunning, u.tunnelActive, u.established) == SucceedText
            <==> VpnStatusText(u.uiRunning, u.tunnelRunning, u.tunnelActive, clock) == RunningPrefix + clock
  {
    var u := Monitor.Sampled(s);
    assert u.established <==> u.uiRunning && u.tunnelRunning && u.tunnelActive;
  }

  // ---------------------------------------------------------------------------
  // Shapes of the exchanges of each step

  /** The exchanges of `disconnect_wifi` for the selected `ssid`. */
  predicate DisconnectShape(added: seq<Exchange>, ssid: string) {
    && AllOf(added, WifiKind)
    && (ssid == "" ==> added == [])
    && (ssid != "" ==>
          && 1 <= |added| <= 3 && added[0].command == ShowInterfaces
          && (|added| == 1 <==> !WifiStatusOf(ssid, added[0].reply).0)
          && (|added| > 1 ==> added[1].command == Disconnect)
          && (|added| == 2 <==> |added| > 1 && added[1].reply.Raised?)
          && (|added| == 3 ==> added[2].command == ShowInterfaces))
  }

  /** The exchanges of a Wi-Fi reset: a disconnection up to `split`, then a connection. */
  predicate ResetShape(added: seq<Exchange>, ssid: string, split: nat) {
    && split < |added|
    && DisconnectShape(added[..split], ssid)
    && AllOf(added[split..], WifiKind)
  }

  /** The exchanges of `start_psiphon`: a task list, and a launch only right after one not showing Psiphon. */
  predicate StartShape(added: seq<Exchange>) {
    && added != [] && AllOf(added, VpnKind)
    && added[0].command == TaskList && |added| <= 3
    && (|added| == 1 <==> PsiphonListed(added[0].reply))
    && (|added| > 1 ==> added[1].command == LaunchPsiphon)
    && forall i | 0 <= i < |added| :: added[i].command == LaunchPsiphon ==> i == 1
  }

  /** The exchanges of `stop_psiphon`: a task list, and a kill only right after one showing Psiphon. */
  predicate StopShape(added: seq<Exchange>) {
    && added != [] && AllOf(added, VpnKind)
    && added[0].command == TaskList && |added| <= 3
    && (|added| == 1 <==> !PsiphonListed(added[0].reply))
    && (|added| > 1 ==> added[1].command == KillPsiphon)
    && forall i | 0 <= i < |added| :: added[i].command == KillPsiphon ==> i == 1
  }

  /** The first samples of a run: the Wi-Fi status (none without a selection), then the task list. */
  predicate StartSampled(added: seq<Exchange>, ssid: string) {
    && |added| == (if ssid == "" then 1 else 2)
    && (ssid != "" ==> added[0].command == ShowInterfaces)
    && added[|added| - 1].command == TaskList
  }

  /** Whether the first sample found the selected network connected. */
  function WifiAtStart(added: seq<Exchange>, ssid: string): bool
    requires StartSampled(added, ssid)
  {
    ssid != "" && WifiStatusOf(ssid, added[0].reply).0
  }

  /** Whether the first task list showed Psiphon. */
  function PsiphonAtStart(added: seq<Exchange>): bool
    requires added != []
  {
    PsiphonListed(added[|added| - 1].reply)
  }

  /** The Wi-Fi step: nothing when connected; otherwise a connection and a re-check that decides `ok`. */
  predicate Reconnected(added: seq<Exchange>, wasConnected: bool, selected: string, ok: bool) {
    if wasConnected then added == [] && ok
    else added != [] && AllOf(added, WifiKind) && (ok <==> Confirms(added, selected))
  }

  /**
    The Internet step: a probe; when it fails, a disconnection up to `split`, a
    connection, and one more probe that decides `up`.
   */
  predicate InternetRestored(added: seq<Exchange>, ssid: string, split: nat, up: bool) {
    && added != [] && added[0].command == ProbeInternet
    && (InternetUp(added[0].reply) ==> |added| == 1 && up)
    && (!InternetUp(added[0].reply) ==>
          && 1 <= split < |added| - 1
          && DisconnectShape(added[1..split], ssid)
          && AllOf(added[split..|added| - 1], WifiKind)
          && added[|added| - 1].command == ProbeInternet
          && (up <==> InternetUp(added[|added| - 1].reply)))
  }

  /**
    The VPN step. With the VPN wanted: nothing when Psiphon ran at the start,
    otherwise a start and a task list that decides `failed`. Without it: a task
    list, and a stop when it shows Psiphon.
   */
  predicate VpnApplied(added: seq<Exchange>, useVpn: bool, wasRunning: bool, failed: bool) {
    && (useVpn && wasRunning ==> added == [] && !failed)
    && (useVpn && !wasRunning ==>
          && |added| >= 2 && StartShape(added[..|added| - 1])
          && added[|added| - 1].command == TaskList
          && (failed <==> !PsiphonListed(added[|added| - 1].reply)))
    && (!useVpn ==>
          && added != [] && added[0].command == TaskList && !failed
          && (PsiphonListed(added[0].reply) ==> StopShape(added[1..]))
          && (!PsiphonListed(added[0].reply) ==> |added| == 1))
  }

  /**
    The exchanges of a run, step by step, with the network selected after the
    Wi-Fi step and where the Internet step's disconnection ends.
   */
  datatype Steps = Steps(sample: seq<Exchange>, connect: seq<Exchange>, internet: seq<Exchange>, vpn: seq<Exchange>,
                         selected: string, split: nat)
  {
    function All(): seq<Exchange> {
      sample + connect + internet + vpn
    }
  }

  /**
    The exchanges of a reconciliation run that started with `ssid` selected and
    "use VPN" at `useVpn`: the first samples, the Wi-Fi step, then, only when
    Wi-Fi is up, the Internet step, then, only when the Internet is up, the VPN
    step decided by the Psiphon sample taken at the start.
   */
  predicate RunRecorded(s: Steps, ssid: string, useVpn: bool, outcome: Outcome) {
    && StartSampled(s.sample, ssid)
    && Reconnected(s.connect, WifiAtStart(s.sample, ssid), s.selected, !outcome.WifiUnavailable?)
    && (outcome.WifiUnavailable? ==> s.internet == [] && s.vpn == [])
    && (!outcome.WifiUnavailable? ==> InternetRestored(s.internet, s.selected, s.split, !outcome.InternetUnavailable?))
    && (outcome.InternetUnavailable? ==> s.vpn == [])
    && (outcome.Configured? ==> VpnApplied(s.vpn, useVpn, PsiphonAtStart(s.sample), outcome.vpnFailed))
  }

  /** What a run shows the user: an error where it stopped, a warning when Psiphon did not start. */
  function RunNotices(outcome: Outcome): seq<Notice> {
    match outcome
    case WifiUnavailable => [Notice(ErrorLevel, WifiConnectFailed)]
    case InternetUnavailable => [Notice(ErrorLevel, InternetRestoreFailed)]
    case Configured(failed) => if failed then [Notice(WarningLevel, VpnStartFailed)] else []
  }

  /** The samples taken by the label update: the Wi-Fi status (none without a selection), then the probe. */
  predicate StatusSampled(added: seq<Exchange>, ssid: string, wifiConnected: bool, internetConnected: bool) {
    && |added| == (if ssid == "" then 1 else 2)
    && (ssid != "" ==> added[0].command == ShowInterfaces)
    && (wifiConnected <==> ssid != "" && WifiStatusOf(ssid, added[0].reply).0)
    && added[|added| - 1].command == ProbeInternet
    && (internetConnected <==> InternetUp(added[|added| - 1].reply))
  }

  /** Before switching to a saved profile: a task list, and Psiphon stopped when it shows it. */
  predicate VpnStoppedFirst(vpn: seq<Exchange>) {
    && vpn != [] && vpn[0].command == TaskList
    && (PsiphonListed(vpn[0].reply) ==> StopShape(vpn[1..]))
    && (!PsiphonListed(vpn[0].reply) ==> |vpn| == 1)
  }

  /** A failed probe, a disconnection, a connection and a second probe make up the Internet step. */
  lemma RestoredAfterRetry(first: Exchange, disconnection: seq<Exchange>, connection: seq<Exchange>, last: Exchange, ssid: string)
    requires first.command == ProbeInternet && !InternetUp(first.reply)
    requires DisconnectShape(disconnection, ssid)
    requires connection != [] && AllOf(connection, WifiKind)
    requires last.command == ProbeInternet
    ensures InternetRestored([first] + disconnection + connection + [last], ssid, 1 + |disconnection|, InternetUp(last.reply))
  {
    var added := [first] + disconnection + connection + [last];
    assert added[1..1 + |disconnection|] == disconnection;
    assert added[1 + |disconnection|..|added| - 1] == connection;
  }

  /** What two steps added holds `x` exactly when the second step added it, if the first did not. */
  lemma NotAddedBefore<T>(a0: seq<T>, a1: seq<T>, a: seq<T>, x: T)
    requires a0 <= a1 <= a && x !in a1[|a0|..]
    ensures x in a[|a0|..] <==> x in a[|a1|..]
  {
    assert a[|a0|..] == a1[|a0|..] + a[|a1|..];
  }

  /** A suffix of the trace ends where the trace ends. */
  lemma ConfirmsSuffix(t0: seq<Exchange>, t: seq<Exchange>, ssid: string)
    requires t0 < t
    ensures Confirms(t[|t0|..], ssid) <==> Confirms(t, ssid)
  {
    assert t[|t0|..][|t[|t0|..]| - 1] == t[|t| - 1];
  }

  // ---------------------------------------------------------------------------
  // The controller

  class MainController {
    const manager: NetworkManager
    /** The user's answer to a question, as events reaching the dialog, given every question asked before. */
    const answers: (seq<Asked>, Prompt) -> seq<DialogEvent>
    var ui: Widgets
    var timer: Timer
    var asked: seq<Asked>
    var notices: seq<Notice>

    /** The profile store the manager reads is a valid one. */
    ghost predicate Valid()
      reads manager.model
    {
      manager.model.Valid()
    }

    /** The window's initial widgets and a stopped timer. */
    constructor (manager: NetworkManager, answers: (seq<Asked>, Prompt) -> seq<DialogEvent>)
      ensures this.manager == manager && this.answers == answers
      ensures ui == InitialWidgets && Idle(ui) && timer == Timer(false, 0) && asked == [] && notices == []
    {
      this.manager := manager;
      this.answers := answers;
      ui := InitialWidgets;
      timer := Timer(false, 0);
      asked := [];
      notices := [];
    }

    /** Asks a timed question; the user's events come from the oracle. */
    method Ask(p: Prompt) returns (b: Button)
      modifies this
      ensures b == QuestionAnswer(true, DefaultTimeout, answers(old(asked), p))
      ensures asked == old(asked) + [Asked(p, b)]
      ensures ui == old(ui) && timer == old(timer) && notices == old(notices)
    {
      b := Question(true, DefaultTimeout, answers(asked, p));
      asked := asked + [Asked(p, b)];
    }

    /** Shows a message to the user. */
    method Notify(level: Level, message: Message)
      modifies this
      ensures notices == old(notices) + [Notice(level, message)]
      ensures ui == old(ui) && timer == old(timer) && asked == old(asked)
    {
      notices := notices + [Notice(level, message)];
    }

    /**
      Adopts the connected network: when the interfaces listing names one and the
      store has a non-empty password for it, both become the manager's selection
      and the label shows it; otherwise nothing changes.
     */
    method SetCurrentWifi()
      modifies this, manager, manager.host
      ensures manager.host.trace == old(manager.host.trace) + [Exchange(ShowInterfaces, manager.host.respond(old(manager.host.trace), ShowInterfaces))]
      ensures var ssid := CurrentSsidOf(manager.host.trace[|manager.host.trace| - 1].reply);
              var password := manager.model.GetPassword(ssid);
              if ssid != "" && password.Some? && password.value != "" then
                && manager.currentSsid == ssid && manager.currentPassword == password.value
                && ui == old(ui).(currentWifi := ssid)
              else
                && manager.currentSsid == old(manager.currentSsid) && manager.currentPassword == old(manager.currentPassword)
                && ui == old(ui)
      ensures manager.availableNetworks == old(manager.availableNetworks)
      ensures timer == old(timer) && asked == old(asked) && notices == old(notices)
    {
      var ssid := manager.GetCurrentWifi();
      AdoptNetwork(ssid);
    }

    /** Makes `ssid` the selection, with its stored password, when it is named and has a non-empty one. */
    method AdoptNetwork(ssid: string)
      modifies this, manager
      ensures var password := manager.model.GetPassword(ssid);
              if ssid != "" && password.Some? && password.value != "" then
                && manager.currentSsid == ssid && manager.currentPassword == password.value
                && ui == old(ui).(currentWifi := ssid)
              else
                && manager.currentSsid == old(manager.currentSsid) && manager.currentPassword == old(manager.currentPassword)
                && ui == old(ui)
      ensures manager.availableNetworks == old(manager.availableNetworks)
      ensures timer == old(timer) && asked == old(asked) && notices == old(notices)
    {
      if ssid != "" {
        var password := manager.model.GetPassword(ssid);
        if password.Some? && password.value != "" {
          manager.SetWifiCredentials(ssid, password.value);
          ui := ui.(currentWifi := ssid);
        }
      }
    }

    /**
      `connect_wifi` as the controller relies on it: Wi-Fi exchanges only, at least
      one, and a complete selection is kept.
     */
    method Reconnect()
      modifies manager, manager.host
      ensures old(manager.host.trace) < manager.host.trace
      ensures AllOf(Added(old(manager.host.trace), manager.host.trace), WifiKind)
      ensures old(manager.currentSsid) != "" && old(manager.currentPassword) != "" ==>
                manager.currentSsid == old(manager.currentSsid) && manager.currentPassword == old(manager.currentPassword)
    {
      var connected := manager.ConnectWifi();
    }

    /** Disconnects and reconnects the selected network. */
    method ResetWifi() returns (ghost split: nat)
      modifies manager, manager.host
      ensures old(manager.host.trace) < manager.host.trace
      ensures ResetShape(Added(old(manager.host.trace), manager.host.trace), old(manager.currentSsid), split)
      ensures AllOf(Added(old(manager.host.trace), manager.host.trace), WifiKind)
      ensures old(manager.currentSsid) != "" && old(manager.currentPassword) != "" ==>
                manager.currentSsid == old(manager.currentSsid) && manager.currentPassword == old(manager.currentPassword)
    {
      ghost var t0 := manager.host.trace;
      var disconnected := manager.DisconnectWifi();
      ghost var t1 := manager.host.trace;
      split := |t1| - |t0|;
      Reconnect();
      ghost var t := manager.host.trace;
      AllOfTwice(t0, t1, t, WifiKind);
      assert Added(t0, t)[..split] == Added(t0, t1);
      assert Added(t0, t)[split..] == Added(t1, t);
    }

    /** Stops and restarts Psiphon. */
    method ResetVpn() returns (ghost split: nat)
      modifies manager.host
      ensures old(manager.host.trace) < manager.host.trace
      ensures var added := Added(old(manager.host.trace), manager.host.trace);
              split < |added| && StopShape(added[..split]) && StartShape(added[split..])
    {
      ghost var t0 := manager.host.trace;
      var stopped := manager.StopPsiphon();
      ghost var t1 := manager.host.trace;
      split := |t1| - |t0|;
      var started := manager.StartPsiphon();
      ghost var t := manager.host.trace;
      assert Added(t0, t)[..split] == Added(t0, t1);
      assert Added(t0, t)[split..] == Added(t1, t);
    }

    /** Without Internet, offers a Wi-Fi reset and performs it on "Yes". */
    method OfferWifiReset(internetConnected: bool) returns (ghost split: nat)
      modifies this, manager, manager.host
      ensures old(manager.host.trace) <= manager.host.trace
      ensures AllOf(Added(old(manager.host.trace), manager.host.trace), WifiKind)
      ensures internetConnected ==> manager.host.trace == old(manager.host.trace) && asked == old(asked)
      ensures !internetConnected ==>
                var p := ResetWifiPrompt(old(manager.currentSsid));
                var b := QuestionAnswer(true, DefaultTimeout, answers(old(asked), p));
                && asked == old(asked) + [Asked(p, b)]
                && (b == No ==> manager.host.trace == old(manager.host.trace))
                && (b == Yes ==> ResetShape(Added(old(manager.host.trace), manager.host.trace), old(manager.currentSsid), split))
      ensures Asked(StartVpnPrompt, Yes) !in asked[|old(asked)|..]
      ensures ui == old(ui) && timer == old(timer) && notices == old(notices)
    {
      split := 0;
      if !internetConnected {
        var reply := Ask(ResetWifiPrompt(manager.currentSsid));
        if reply == Yes {
          split := ResetWifi();
        }
      }
    }

    /** Offers to start Psiphon when the task list does not show it; on "Yes" starts it and ticks "use VPN". */
    method OfferVpnStart()
      modifies this, manager.host
      ensures old(manager.host.trace) < manager.host.trace
      ensures var added := Added(old(manager.host.trace), manager.host.trace);
              && AllOf(added, VpnKind) && added[0].command == TaskList
              && (PsiphonListed(added[0].reply) ==> |added| == 1 && asked == old(asked) && ui == old(ui))
              && (!PsiphonListed(added[0].reply) ==>
                    var b := QuestionAnswer(true, DefaultTimeout, answers(old(asked), StartVpnPrompt));
                    && asked == old(asked) + [Asked(StartVpnPrompt, b)]
                    && (b == Yes ==> ui == old(ui).(useVpn := true) && StartShape(added[1..]))
                    && (b == No ==> |added| == 1 && ui == old(ui)))
      ensures old(asked) <= asked
      ensures ui.useVpn <==> old(ui.useVpn) || Asked(StartVpnPrompt, Yes) in asked[|old(asked)|..]
      ensures timer == old(timer) && notices == old(notices)
    {
      ghost var t0 := manager.host.trace;
      var running := manager.IsPsiphonRunning();
      ghost var t1 := manager.host.trace;
      if !running {
        var reply := Ask(StartVpnPrompt);
        if reply == Yes {
          var started := manager.StartPsiphon();
          ui := ui.(useVpn := true);
          AllOfTwice(t0, t1, manager.host.trace, VpnKind);
          assert Added(t0, manager.host.trace)[1..] == Added(t1, manager.host.trace);
        }
      }
    }

    /** Ticks "use VPN" when the task list shows Psiphon running. */
    method MarkVpnInUse()
      modifies this, manager.host
      ensures manager.host.trace == old(manager.host.trace) + [Exchange(TaskList, manager.host.respond(old(manager.host.trace), TaskList))]
      ensures ui == old(ui).(useVpn := old(ui.useVpn) || PsiphonListed(manager.host.trace[|manager.host.trace| - 1].reply))
      ensures timer == old(timer) && asked == old(asked) && notices == old(notices)
    {
      var running := manager.IsPsiphonRunning();
      if running {
        ui := ui.(useVpn := true);
      }
    }

    /** Samples the Wi-Fi status and the Internet and shows both. */
    method SampleStatus() returns (wifiConnected: bool, internetConnected: bool)
      modifies this, manager.host
      ensures old(manager.host.trace) < manager.host.trace
      ensures StatusSampled(Added(old(manager.host.trace), manager.host.trace), manager.currentSsid, wifiConnected, internetConnected)
      ensures ui == old(ui).(wifiStatus := StatusWord(wifiConnected), netStatus := StatusWord(internetConnected))
      ensures timer == old(timer) && asked == old(asked) && notices == old(notices)
    {
      var message;
      wifiConnected, message := manager.GetWifiStatus();
      internetConnected := manager.GetInternetStatus();
      ui := ui.(wifiStatus := StatusWord(wifiConnected), netStatus := StatusWord(internetConnected));
    }

    /**
      `update_status_labels`: samples the Wi-Fi status and the Internet, shows
      both, then offers the corrective actions; returns the two samples taken
      before any of them. `status` and `rest` are the exchanges before and after.
     */
    method UpdateStatusLabels() returns (wifiConnected: bool, internetConnected: bool,
                                         ghost status: seq<Exchange>, ghost rest: seq<Exchange>)
      modifies this, manager, manager.host
      ensures old(manager.host.trace) <= manager.host.trace
      ensures Added(old(manager.host.trace), manager.host.trace) == status + rest
      ensures StatusSampled(status, old(manager.currentSsid), wifiConnected, internetConnected)
      ensures old(asked) <= asked
      ensures internetConnected ==> AllOf(rest, VpnKind)
      ensures !internetConnected ==>
                |asked| > |old(asked)| && asked[|old(asked)|].prompt == ResetWifiPrompt(old(manager.currentSsid))
      ensures ui.wifiStatus == StatusWord(wifiConnected) && ui.netStatus == StatusWord(internetConnected)
      ensures ui == old(ui).(wifiStatus := ui.wifiStatus, netStatus := ui.netStatus, useVpn := ui.useVpn)
      ensures ui.useVpn <==> old(ui.useVpn) || Asked(StartVpnPrompt, Yes) in asked[|old(asked)|..] || PsiphonSeen(manager.host.trace, true)
      ensures timer == old(timer) && notices == old(notices)
    {
      ghost var t0 := manager.host.trace;
      ghost var a0 := asked;
      wifiConnected, internetConnected := SampleStatus();
      ghost var t1 := manager.host.trace;
      status := Added(t0, t1);
      ghost var split := OfferWifiReset(internetConnected);
      ghost var t2 := manager.host.trace;
      ghost var a2 := asked;
      OfferVpnStart();
      ghost var t3 := manager.host.trace;
      MarkVpnInUse();
      ghost var t := manager.host.trace;
      rest := Added(t1, t);
      AddedTwice(t0, t1, t);
      NotAddedBefore(a0, a2, asked, Asked(StartVpnPrompt, Yes));
      if internetConnected {
        assert Added(t3, t) == [t[|t| - 1]];
        AllOfTwice(t2, t3, t, VpnKind);
        assert rest == Added(t2, t);
      } else {
        assert asked[|a0|] == a2[|a0|];
      }
    }

    /** The first step of a run: the Wi-Fi status, then whether Psiphon runs. */
    method SampleStart() returns (wifiConnected: bool, psiphonRunning: bool)
      modifies manager.host
      ensures old(manager.host.trace) < manager.host.trace
      ensures var added := Added(old(manager.host.trace), manager.host.trace);
              && StartSampled(added, manager.currentSsid)
              && wifiConnected == WifiAtStart(added, manager.currentSsid)
              && psiphonRunning == PsiphonAtStart(added)
    {
      var message;
      wifiConnected, message := manager.GetWifiStatus();
      psiphonRunning := manager.IsPsiphonRunning();
    }

    /** The Wi-Fi step: when not connected, connects and re-checks. */
    method EnsureWifi(wasConnected: bool) returns (ok: bool, ghost selected: string)
      modifies manager, manager.host
      ensures old(manager.host.trace) <= manager.host.trace
      ensures Reconnected(Added(old(manager.host.trace), manager.host.trace), wasConnected, selected, ok)
      ensures selected == manager.currentSsid
      ensures wasConnected ==> manager.currentSsid == old(manager.currentSsid) && manager.currentPassword == old(manager.currentPassword)
    {
      selected := manager.currentSsid;
      if wasConnected {
        return true, selected;
      }
      ghost var t0 := manager.host.trace;
      Reconnect();
      ghost var t1 := manager.host.trace;
      var message;
      ok, message := manager.GetWifiStatus();
      selected := manager.currentSsid;
      ghost var t := manager.host.trace;
      AllOfTwice(t0, t1, t, WifiKind);
      ConfirmsSuffix(t0, t, selected);
    }

    /** The Internet step: when the probe fails, disconnects, reconnects and probes once more. */
    method EnsureInternet() returns (up: bool, ghost split: nat)
      modifies manager, manager.host
      ensures old(manager.host.trace) < manager.host.trace
      ensures InternetRestored(Added(old(manager.host.trace), manager.host.trace), old(manager.currentSsid), split, up)
    {
      ghost var t0 := manager.host.trace;
      up := manager.GetInternetStatus();
      split := 0;
      if !up {
        ghost var t1 := manager.host.trace;
        ghost var ssid := manager.currentSsid;
        var disconnected := manager.DisconnectWifi();
        ghost var t2 := manager.host.trace;
        split := |t2| - |t0|;
        Reconnect();
        ghost var t3 := manager.host.trace;
        up := manager.GetInternetStatus();
        ghost var t := manager.host.trace;
        AddedTwice(t0, t1, t2);
        AddedTwice(t0, t2, t3);
        AddedTwice(t0, t3, t);
        assert Added(t0, t1) == [t1[|t0|]];
        assert Added(t3, t) == [t[|t| - 1]];
        RestoredAfterRetry(t1[|t0|], Added(t1, t2), Added(t2, t3), t[|t| - 1], ssid);
      }
    }

    /** The VPN step, decided by "use VPN" and by whether Psiphon ran at the start of the run. */
    method ApplyVpnChoice(useVpn: bool, wasRunning: bool) returns (failed: bool)
      modifies this, manager.host
      ensures old(manager.host.trace) <= manager.host.trace
      ensures VpnApplied(Added(old(manager.host.trace), manager.host.trace), useVpn, wasRunning, failed)
      ensures notices == old(notices) + (if failed then [Notice(WarningLevel, VpnStartFailed)] else [])
      ensures ui == old(ui) && timer == old(timer) && asked == old(asked)
    {
      ghost var t0 := manager.host.trace;
      failed := false;
      if useVpn {
        if !wasRunning {
          var started := manager.StartPsiphon();
          ghost var t1 := manager.host.trace;
          var running := manager.IsPsiphonRunning();
          assert Added(t0, manager.host.trace)[..|Added(t0, manager.host.trace)| - 1] == Added(t0, t1);
          if !running {
            failed := true;
            Notify(WarningLevel, VpnStartFailed);
          }
        }
      } else {
        var running := manager.IsPsiphonRunning();
        ghost var t1 := manager.host.trace;
        if running {
          var stopped := manager.StopPsiphon();
          assert Added(t0, manager.host.trace)[1..] == Added(t1, manager.host.trace);
        }
      }
    }

    /**
      One reconciliation run without the final label update: samples Wi-Fi and
      Psiphon, then the Wi-Fi step, the Internet step and the VPN step, returning
      at the first step that fails; `steps` splits the exchanges by step.
     */
    method Reconcile() returns (outcome: Outcome, ghost steps: Steps)
      modifies this, manager, manager.host
      ensures old(manager.host.trace) <= manager.host.trace
      ensures Added(old(manager.host.trace), manager.host.trace) == steps.All()
      ensures RunRecorded(steps, old(manager.currentSsid), old(ui.useVpn), outcome)
      ensures notices == old(notices) + RunNotices(outcome)
      ensures ui == old(ui) && timer == old(timer) && asked == old(asked)
    {
      ghost var t0 := manager.host.trace;
      var wifiConnected, psiphonRunning := SampleStart();
      ghost var t1 := manager.host.trace;
      var useVpn := ui.useVpn;
      var ok;
      ghost var selected;
      ok, selected := EnsureWifi(wifiConnected);
      ghost var t2 := manager.host.trace;
      if !ok {
        Notify(ErrorLevel, WifiConnectFailed);
        steps := Steps(Added(t0, t1), Added(t1, t2), [], [], selected, 0);
        AddedTwice(t0, t1, t2);
        return WifiUnavailable, steps;
      }
      var up;
      ghost var split;
      up, split := EnsureInternet();
      ghost var t3 := manager.host.trace;
      if !up {
        Notify(ErrorLevel, InternetRestoreFailed);
        steps := Steps(Added(t0, t1), Added(t1, t2), Added(t2, t3), [], selected, split);
        AddedTwice(t0, t1, t2);
        AddedTwice(t0, t2, t3);
        return InternetUnavailable, steps;
      }
      var failed := ApplyVpnChoice(useVpn, psiphonRunning);
      ghost var t := manager.host.trace;
      outcome := Configured(failed);
      steps := Steps(Added(t0, t1), Added(t1, t2), Added(t2, t3), Added(t3, t), selected, split);
      AddedTwice(t0, t1, t2);
      AddedTwice(t0, t2, t3);
      AddedTwice(t0, t3, t);
    }

    /**
      `run_once_config`: a reconciliation run, followed by the label update only
      when it got past the Wi-Fi and Internet steps.
     */
    method RunOnceConfig() returns (outcome: Outcome, ghost steps: Steps)
      modifies this, manager, manager.host
      ensures old(manager.host.trace) <= manager.host.trace
      ensures steps.All() <= Added(old(manager.host.trace), manager.host.trace)
      ensures RunRecorded(steps, old(manager.currentSsid), old(ui.useVpn), outcome)
      ensures !outcome.Configured? ==>
                && Added(old(manager.host.trace), manager.host.trace) == steps.All()
                && ui == old(ui) && asked == old(asked)
      ensures outcome.Configured? ==>
                && |Added(old(manager.host.trace), manager.host.trace)| > |steps.All()|
                && ui == old(ui).(wifiStatus := ui.wifiStatus, netStatus := ui.netStatus, useVpn := ui.useVpn)
                && old(asked) <= asked
                && (ui.useVpn <==> old(ui.useVpn) || Asked(StartVpnPrompt, Yes) in asked[|old(asked)|..] || PsiphonSeen(manager.host.trace, true))
      ensures notices == old(notices) + RunNotices(outcome)
      ensures timer == old(timer)
    {
      ghost var t0 := manager.host.trace;
      outcome, steps := Reconcile();
      ghost var t1 := manager.host.trace;
      if outcome.Configured? {
        var wifiConnected, internetConnected;
        ghost var status, rest;
        wifiConnected, internetConnected, status, rest := UpdateStatusLabels();
        assert Added(t0, manager.host.trace) == Added(t0, t1) + Added(t1, manager.host.trace);
      }
    }

    /** Shows an update of the Psiphon monitor; `clock` is the current time as hours and minutes. */
    method UpdatePsiphonUi(u: Monitor.StatusUpdate, clock: string)
      modifies this
      ensures ui == old(ui).(vpnStatus := VpnStatusText(u.uiRunning, u.tunnelRunning, u.tunnelActive, clock),
                             vpnTunneling := TunnelingText(u.tunnelRunning, u.tunnelActive, u.established))
      ensures timer == old(timer) && asked == old(asked) && notices == old(notices)
    {
      ui := ui.(vpnStatus := VpnStatusText(u.uiRunning, u.tunnelRunning, u.tunnelActive, clock),
                vpnTunneling := TunnelingText(u.tunnelRunning, u.tunnelActive, u.established));
    }

    /**
      Starts auto-configuration: a non-positive interval is refused with an
      error; otherwise the widgets are locked and the timer (re)started with the
      interval in milliseconds. Nothing checks whether it already runs.
     */
    method StartAutoConfig()
      modifies this
      ensures old(ui.interval) <= 0 ==>
                && ui == old(ui) && timer == old(timer)
                && notices == old(notices) + [Notice(ErrorLevel, IntervalInvalid)]
      ensures old(ui.interval) > 0 ==>
                && ui == Locked(old(ui)) && timer == Timer(true, old(ui.interval) * 1000)
                && notices == old(notices) + [Notice(InfoLevel, AutoConfigStarted(old(ui.interval)))]
      ensures asked == old(asked)
    {
      var interval := ui.interval;
      if interval <= 0 {
        Notify(ErrorLevel, IntervalInvalid);
        return;
      }
      ui := Locked(ui);
      timer := Timer(true, interval * 1000);
      Notify(InfoLevel, AutoConfigStarted(interval));
    }

    /** Stops the timer, keeping its period, and unlocks the widgets. */
    method StopAutoConfig()
      modifies this
      ensures ui == Unlocked(old(ui)) && timer == Timer(false, old(timer.period))
      ensures notices == old(notices) + [Notice(InfoLevel, AutoConfigStopped)]
      ensures asked == old(asked)
    {
      timer := timer.(active := false);
      ui := Unlocked(ui);
      Notify(InfoLevel, AutoConfigStopped);
    }

    /**
      Switches to a saved profile: stops Psiphon when it runs, then selects the
      profile, shows it and connects. `vpn` and `wifi` are the exchanges of the two parts.
     */
    method SwitchToSaved(ssid: string, password: string) returns (ghost vpn: seq<Exchange>, ghost wifi: seq<Exchange>)
      requires ssid != "" && password != ""
      modifies this, manager, manager.host
      ensures old(manager.host.trace) <= manager.host.trace
      ensures Added(old(manager.host.trace), manager.host.trace) == vpn + wifi
      ensures VpnStoppedFirst(vpn) && wifi != [] && AllOf(wifi, WifiKind)
      ensures manager.currentSsid == ssid && manager.currentPassword == password
      ensures ui == old(ui).(currentWifi := ssid)
      ensures timer == old(timer) && asked == old(asked) && notices == old(notices)
    {
      ghost var t0 := manager.host.trace;
      var running := manager.IsPsiphonRunning();
      ghost var t1 := manager.host.trace;
      if running {
        var stopped := manager.StopPsiphon();
      }
      ghost var t2 := manager.host.trace;
      vpn := Added(t0, t2);
      assert vpn[0] == t1[|t0|];
      assert vpn[1..] == Added(t1, t2);
      manager.SetWifiCredentials(ssid, password);
      ui := ui.(currentWifi := ssid);
      Reconnect();
      wifi := Added(t2, manager.host.trace);
      assert Added(t0, manager.host.trace) == vpn + wifi;
    }

    /**
      `handle_save_profile`: saves the profile typed in by the user. Both fields
      are required. Once the store accepts the batch, the user is asked whether
      to connect now, and on "Yes" the profile is switched to; the fields are
      then cleared. `duplicates` is the user's handling of the duplicate dialog.
     */
    method HandleSaveProfile(duplicates: DuplicateAnswer) returns (ghost vpn: seq<Exchange>, ghost wifi: seq<Exchange>)
      requires Valid()
      modifies this, manager, manager.host, manager.model
      ensures Valid()
      ensures old(manager.host.trace) <= manager.host.trace
      ensures var ssid := old(ui.ssidInput);
              var password := old(ui.passwordInput);
              ssid == "" || password == "" ==>
                && manager.model.table == old(manager.model.table)
                && manager.host.trace == old(manager.host.trace)
                && manager.currentSsid == old(manager.currentSsid) && manager.currentPassword == old(manager.currentPassword)
                && ui == old(ui) && asked == old(asked)
                && notices == old(notices) + [Notice(ErrorLevel, CredentialsRequired)]
      ensures var ssid := old(ui.ssidInput);
              var password := old(ui.passwordInput);
              ssid != "" && password != "" ==>
                && manager.model.table ==
                     (if manager.model.conn then Collected(old(manager.model.table), [Profile(ssid, password)], duplicates)
                      else old(manager.model.table))
                && (!manager.model.conn ==>
                      && manager.host.trace == old(manager.host.trace) && ui == old(ui) && asked == old(asked)
                      && notices == old(notices) + [Notice(ErrorLevel, SaveFailed(ssid))])
      ensures var ssid := old(ui.ssidInput);
              var password := old(ui.passwordInput);
              var p := ConnectNowPrompt(ssid);
              var b := QuestionAnswer(true, DefaultTimeout, answers(old(asked), p));
              ssid != "" && password != "" && manager.model.conn ==>
                && asked == old(asked) + [Asked(p, b)] && notices == old(notices)
                && (b == No ==>
                      && manager.host.trace == old(manager.host.trace)
                      && manager.currentSsid == old(manager.currentSsid) && manager.currentPassword == old(manager.currentPassword)
                      && ui == old(ui).(ssidInput := "", passwordInput := ""))
                && (b == Yes ==>
                      && Added(old(manager.host.trace), manager.host.trace) == vpn + wifi
                      && VpnStoppedFirst(vpn) && wifi != [] && AllOf(wifi, WifiKind)
                      && manager.currentSsid == ssid && manager.currentPassword == password
                      && ui == old(ui).(currentWifi := ssid, ssidInput := "", passwordInput := ""))
      ensures timer == old(timer)
    {
      vpn, wifi := [], [];
      var ssid := ui.ssidInput;
      var password := ui.passwordInput;
      if ssid == "" || password == "" {
        Notify(ErrorLevel, CredentialsRequired);
        return;
      }
      var saved := manager.model.CollectDuplicateProfiles([Profile(ssid, password)], duplicates);
      if !saved {
        Notify(ErrorLevel, SaveFailed(ssid));
        return;
      }
      var reply := Ask(ConnectNowPrompt(ssid));
      if reply == Yes {
        vpn, wifi := SwitchToSaved(ssid, password);
      }
      ui := ui.(ssidInput := "", passwordInput := "");
    }
  }
}
