/**
  The Psiphon monitor: a loop that samples the process table once per iteration,
  classifies the Psiphon processes, checks whether the tunnel core holds an
  established connection, logs a transition when the overall state changes, and
  emits one status update per iteration.

  A process table is a snapshot handed in by the caller; each iteration reads two
  of them, one for the process check and one for the tunnel check, because the
  two checks walk the process table separately.
 */
module PsiphonMonitor {
  import opened Wrappers
  import opened Text

  const UiImage: string := "psiphon3.exe"
  const TunnelImage: string := "psiphon-tunnel-core.exe"

  /** `psutil.CONN_ESTABLISHED`. */
  const Established: string := "ESTABLISHED"

  /** What asking a process for its connections gives: their statuses, or one of the errors. */
  datatype Connections = Listed(statuses: seq<string>) | AccessDenied | NoSuchProcess | Failed

  /** One entry of the process table: its name (possibly missing) and its connections. */
  datatype Proc = Proc(name: Option<string>, connections: Connections)

  /** What one iteration reads: a snapshot for the process check and one for the tunnel check. */
  datatype Sample = Sample(processes: seq<Proc>, tunnel: seq<Proc>)

  /** The four flags an iteration emits. */
  datatype StatusUpdate = StatusUpdate(uiRunning: bool, tunnelRunning: bool, tunnelActive: bool, established: bool)

  /** The transition an iteration logs when the overall state changes. */
  datatype Transition = Connected | Disconnected | InitiallyDown

  /** The process's lower-cased name mentions the Psiphon user interface. */
  predicate IsUi(p: Proc) {
    p.name.Some? && Contains(Lower(p.name.value), UiImage)
  }

  /** The process's lower-cased name mentions the tunnel core, and not the user interface. */
  predicate IsTunnelOnly(p: Proc) {
    p.name.Some? && !Contains(Lower(p.name.value), UiImage) && Contains(Lower(p.name.value), TunnelImage)
  }

  /** The tunnel check's test: a non-empty name mentioning the tunnel core. */
  predicate IsTunnelCore(p: Proc) {
    p.name.Some? && p.name.value != "" && Contains(Lower(p.name.value), TunnelImage)
  }

  /**
    The process check: a process without a name makes the scan raise, which gives
    (false, false); otherwise whether some process is the user interface, and
    whether some other one is the tunnel core.
   */
  function ProcessFlags(scan: seq<Proc>): (flags: (bool, bool))
    ensures flags.0 || flags.1 ==> forall k | 0 <= k < |scan| :: scan[k].name.Some?
    ensures flags.0 ==> exists k | 0 <= k < |scan| :: IsUi(scan[k])
    ensures flags.1 ==> exists k | 0 <= k < |scan| :: IsTunnelOnly(scan[k])
  {
    if exists k | 0 <= k < |scan| :: scan[k].name.None? then (false, false)
    else ((exists k | 0 <= k < |scan| :: IsUi(scan[k])), (exists k | 0 <= k < |scan| :: IsTunnelOnly(scan[k])))
  }

  /**
    The tunnel check, process by process: a tunnel core with an established
    connection decides true; one that denies access or has exited is skipped; any
    other failure decides false.
   */
  function TunnelActive(scan: seq<Proc>): bool {
    if scan == [] then false
    else if !IsTunnelCore(scan[0]) then TunnelActive(scan[1..])
    else
      match scan[0].connections
      case Listed(statuses) => if Established in statuses then true else TunnelActive(scan[1..])
      case AccessDenied => TunnelActive(scan[1..])
      case NoSuchProcess => TunnelActive(scan[1..])
      case Failed => false
  }

  /** A tunnel core with an established connection. */
  predicate HoldsTunnel(p: Proc) {
    IsTunnelCore(p) && p.connections.Listed? && Established in p.connections.statuses
  }

  /** A tunnel core whose connections could not be read for a reason other than access or exit. */
  predicate BreaksScan(p: Proc) {
    IsTunnelCore(p) && p.connections.Failed?
  }

  /** The update of one iteration. */
  function Sampled(s: Sample): (u: StatusUpdate)
    ensures u.established <==> u.uiRunning && u.tunnelRunning && u.tunnelActive
  {
    var flags := ProcessFlags(s.processes);
    var active := TunnelActive(s.tunnel);
    StatusUpdate(flags.0, flags.1, active, flags.0 && flags.1 && active)
  }

  /** What is logged when the overall state becomes `now`, coming from `last`; nothing when it did not change. */
  function TransitionOf(last: Option<bool>, now: bool): (logged: seq<Transition>)
    ensures |logged| <= 1
    ensures logged == [] <==> last == Some(now)
    ensures logged != [] ==> (logged[0] == Connected <==> now)
  {
    if last == Some(now) then []
    else if now then [Connected]
    else if last.Some? then [Disconnected]
    else [InitiallyDown]
  }

  /** The last overall state after a series of states, starting from `last`. */
  function LastState(last: Option<bool>, states: seq<bool>): Option<bool> {
    if states == [] then last else Some(states[|states| - 1])
  }

  /** Everything logged over a series of overall states, starting from `last`. */
  function Transitions(last: Option<bool>, states: seq<bool>): seq<Transition> {
    if states == [] then []
    else
      var init := states[..|states| - 1];
      Transitions(last, init) + TransitionOf(LastState(last, init), states[|states| - 1])
  }

  /** The overall states of a series of samples. */
  function States(samples: seq<Sample>): (states: seq<bool>)
    ensures |states| == |samples|
    ensures forall k | 0 <= k < |samples| :: states[k] == Sampled(samples[k]).established
  {
    seq(|samples|, k requires 0 <= k < |samples| => Sampled(samples[k]).established)
  }

  /** The updates of a series of samples. */
  function Updates(samples: seq<Sample>): (updates: seq<StatusUpdate>)
    ensures |updates| == |samples|
    ensures forall k | 0 <= k < |samples| :: updates[k] == Sampled(samples[k])
  {
    seq(|samples|, k requires 0 <= k < |samples| => Sampled(samples[k]))
  }

  /** The process check over one snapshot. */
  method CheckPsiphonProcesses(scan: seq<Proc>) returns (uiRunning: bool, tunnelRunning: bool)
    ensures (uiRunning, tunnelRunning) == ProcessFlags(scan)
  {
    uiRunning, tunnelRunning := false, false;
    var i := 0;
    while i < |scan|
      invariant i <= |scan|
      invariant forall k | 0 <= k < i :: scan[k].name.Some?
      invariant uiRunning <==> exists k | 0 <= k < i :: IsUi(scan[k])
      invariant tunnelRunning <==> exists k | 0 <= k < i :: IsTunnelOnly(scan[k])
    {
      if scan[i].name.None? {
        return false, false;
      }
      var name := Lower(scan[i].name.value);
      if Contains(name, UiImage) {
        uiRunning := true;
      } else if Contains(name, TunnelImage) {
        tunnelRunning := true;
      }
      i := i + 1;
    }
  }

  /** The tunnel check over one snapshot. */
  method CheckTunnelStatus(scan: seq<Proc>) returns (active: bool)
    ensures active == TunnelActive(scan)
  {
    var i := 0;
    while i < |scan|
      invariant i <= |scan|
      invariant TunnelActive(scan) == TunnelActive(scan[i..])
    {
      assert scan[i..][1..] == scan[i + 1..];
      var p := scan[i];
      if p.name.Some? && p.name.value != "" && Contains(Lower(p.name.value), TunnelImage) {
        match p.connections {
          case Listed(statuses) =>
            var j := 0;
            while j < |statuses|
              invariant j <= |statuses|
              invariant forall k | 0 <= k < j :: statuses[k] != Established
            {
              if statuses[j] == Established {
                return true;
              }
              j := j + 1;
            }
          case AccessDenied =>
          case NoSuchProcess =>
          case Failed =>
            return false;
        }
      }
      i := i + 1;
    }
    return false;
  }

  class PsiphonMonitor {
    var monitoring: bool
    /** The overall state last logged; none before the first iteration. */
    var lastConnected: Option<bool>
    /** The transitions logged so far. */
    var transitions: seq<Transition>
    /** The status updates emitted so far. */
    var updates: seq<StatusUpdate>

    constructor ()
      ensures !monitoring && lastConnected.None? && transitions == [] && updates == []
    {
      monitoring := false;
      lastConnected := None;
      transitions := [];
      updates := [];
    }

    /** One iteration of the loop, which runs only while monitoring. */
    method Iterate(s: Sample)
      requires monitoring
      modifies this
      ensures monitoring
      ensures updates == old(updates) + [Sampled(s)]
      ensures lastConnected == Some(Sampled(s).established)
      ensures transitions == old(transitions) + TransitionOf(old(lastConnected), Sampled(s).established)
    {
      var uiRunning, tunnelRunning := CheckPsiphonProcesses(s.processes);
      var tunnelActive := CheckTunnelStatus(s.tunnel);
      var connected := uiRunning && tunnelRunning && tunnelActive;
      if lastConnected != Some(connected) {
        if connected {
          transitions := transitions + [Connected];
        } else if lastConnected.Some? {
          transitions := transitions + [Disconnected];
        } else {
          transitions := transitions + [InitiallyDown];
        }
        lastConnected := Some(connected);
      }
      updates := updates + [StatusUpdate(uiRunning, tunnelRunning, tunnelActive, connected)];
    }

    /**
      The monitoring thread: starts monitoring with no state logged yet, then runs
      one iteration per sample; the samples end where another thread stops it.
     */
    method Run(samples: seq<Sample>)
      modifies this
      ensures monitoring
      ensures updates == old(updates) + Updates(samples)
      ensures transitions == old(transitions) + Transitions(None, States(samples))
      ensures lastConnected == LastState(None, States(samples))
    {
      monitoring := true;
      lastConnected := None;
      var i := 0;
      while i < |samples|
        invariant i <= |samples| && monitoring
        invariant updates == old(updates) + Updates(samples[..i])
        invariant transitions == old(transitions) + Transitions(None, States(samples[..i]))
        invariant lastConnected == LastState(None, States(samples[..i]))
      {
        RunStep(samples, i);
        ghost var last := LastState(None, States(samples[..i]));
        Iterate(samples[i]);
        AppendAssoc(old(updates), Updates(samples[..i]), [Sampled(samples[i])]);
        AppendAssoc(old(transitions), Transitions(None, States(samples[..i])),
                    TransitionOf(last, Sampled(samples[i]).established));
        i := i + 1;
      }
      assert samples[..i] == samples;
    }

    /** Clears `monitoring`, so the loop ends after its current iteration. */
    method Stop()
      modifies this
      ensures !monitoring
      ensures lastConnected == old(lastConnected) && transitions == old(transitions) && updates == old(updates)
    {
      monitoring := false;
    }
  }

  lemma AppendAssoc<T>(a: seq<T>, b: seq<T>, c: seq<T>)
    ensures a + b + c == a + (b + c)
  {
  }

  /** One more sample adds its update, its state and the transition into that state. */
  lemma RunStep(samples: seq<Sample>, i: nat)
    requires i < |samples|
    ensures Updates(samples[..i + 1]) == Updates(samples[..i]) + [Sampled(samples[i])]
    ensures Transitions(None, States(samples[..i + 1]))
         == Transitions(None, States(samples[..i]))
            + TransitionOf(LastState(None, States(samples[..i])), Sampled(samples[i]).established)
    ensures LastState(None, States(samples[..i + 1])) == Some(Sampled(samples[i]).established)
  {
    var before, after := States(samples[..i]), States(samples[..i + 1]);
    assert after[..i] == before;
    assert after[i] == Sampled(samples[i]).established;
    assert Updates(samples[..i + 1]) == Updates(samples[..i]) + [Sampled(samples[i])];
  }

  /** The first iteration always logs a transition: "connected" or the initial "not connected". */
  lemma {:induction false} FirstSampleLogs(states: seq<bool>)
    requires states != []
    ensures Transitions(None, states) != []
    ensures Transitions(None, states)[0] == (if states[0] then Connected else InitiallyDown)
  {
    var init := states[..|states| - 1];
    if init == [] {
      assert states == [states[0]];
    } else {
      assert init[0] == states[0];
      FirstSampleLogs(init);
    }
  }

  /** A series of states that are never established never logs "connected". */
  lemma {:induction false} NeverUpLogsNoConnected(last: Option<bool>, states: seq<bool>)
    requires forall k | 0 <= k < |states| :: !states[k]
    ensures Connected !in Transitions(last, states)
  {
    if states != [] {
      NeverUpLogsNoConnected(last, states[..|states| - 1]);
    }
  }

  /**
    "Connected" is logged only when the user interface, the tunnel core and an
    active tunnel were all seen in one sample.
   */
  lemma ConnectedNeedsAll(last: Option<bool>, samples: seq<Sample>)
    requires forall k | 0 <= k < |samples| :: !(ProcessFlags(samples[k].processes) == (true, true) && TunnelActive(samples[k].tunnel))
    ensures Connected !in Transitions(last, States(samples))
  {
    NeverUpLogsNoConnected(last, States(samples));
  }

  /** Iterations that see the state already logged log nothing. */
  lemma {:induction false} SteadyStateLogsNothing(state: bool, states: seq<bool>)
    requires forall k | 0 <= k < |states| :: states[k] == state
    ensures Transitions(Some(state), states) == []
  {
    if states != [] {
      SteadyStateLogsNothing(state, states[..|states| - 1]);
    }
  }

  /** Every logged transition is a change: the log is never longer than the series of states. */
  lemma {:induction false} TransitionsBounded(last: Option<bool>, states: seq<bool>)
    ensures |Transitions(last, states)| <= |states|
  {
    if states != [] {
      TransitionsBounded(last, states[..|states| - 1]);
    }
  }

  /**
    The tunnel check is true iff some tunnel core holds an established connection
    and no tunnel core before it failed in a way other than access or exit.
   */
  lemma {:induction false} TunnelActiveIff(scan: seq<Proc>)
    ensures TunnelActive(scan) <==>
              exists i | 0 <= i < |scan| :: HoldsTunnel(scan[i]) && forall j | 0 <= j < i :: !BreaksScan(scan[j])
  {
    if scan != [] {
      TunnelActiveIff(scan[1..]);
      if TunnelActive(scan) {
        if !HoldsTunnel(scan[0]) {
          var i :| 0 <= i < |scan[1..]| && HoldsTunnel(scan[1..][i]) && forall j | 0 <= j < i :: !BreaksScan(scan[1..][j]);
          assert HoldsTunnel(scan[i + 1]);
          assert forall j | 0 <= j < i + 1 :: !BreaksScan(scan[j]) by {
            forall j | 0 <= j < i + 1 ensures !BreaksScan(scan[j]) {
              if j > 0 { assert scan[j] == scan[1..][j - 1]; }
            }
          }
        }
      } else {
        forall i | 0 <= i < |scan| && HoldsTunnel(scan[i])
          ensures exists j | 0 <= j < i :: BreaksScan(scan[j])
        {
          if i > 0 && !BreaksScan(scan[0]) {
            assert scan[i] == scan[1..][i - 1];
            var j :| 0 <= j < i - 1 && BreaksScan(scan[1..][j]);
            assert BreaksScan(scan[j + 1]);
          }
        }
      }
    }
  }

  /**
    The two checks read the process table separately and disagree on a process
    without a name: the process check raises on it and reports nothing running,
    while the tunnel check skips it and still finds the tunnel active.
   */
  lemma NamelessProcessHidesTunnel(tunnel: Proc)
    requires HoldsTunnel(tunnel)
    ensures var scan := [Proc(None, Listed([])), tunnel];
            Sampled(Sample(scan, scan)) == StatusUpdate(false, false, true, false)
  {
    var scan := [Proc(None, Listed([])), tunnel];
    assert scan[0].name.None?;
    assert !IsTunnelCore(scan[0]);
    assert scan[1..] == [tunnel];
    assert TunnelActive([tunnel]);
  }
}
