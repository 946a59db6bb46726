/**
  The outside world as the application sees it: every `netsh`, `tasklist`,
  `taskkill` and Psiphon launch, and the HTTP connectivity probe, is a command
  sent to the host, which answers with a reply. The host's answers are an
  oracle of everything it was asked before, so any behaviour of Windows and the
  network is a possible host; the trace records the exchanges in order.
 */
module Os {

  /** Every external command the connectivity code issues. */
  datatype Command =
    | ShowProfiles              // netsh wlan show profiles
    | ShowProfileKey(ssid: string) // netsh wlan show profile name="<ssid>" key=clear
    | ShowInterfaces            // netsh wlan show interfaces
    | ShowNetworks              // netsh wlan show networks
    | AddProfile(document: string) // write the profile XML to a file and netsh wlan add profile
    | ConnectTo(ssid: string)   // netsh wlan connect name="<ssid>"
    | Disconnect                // netsh wlan disconnect
    | ProbeInternet             // GET http://connectivitycheck.gstatic.com/generate_204
    | TaskList                  // tasklist
    | LaunchPsiphon             // start otherapps/psiphon3.exe
    | KillPsiphon               // taskkill /IM psiphon3.exe /F

  /**
    The outcome of a command: it completed with an exit code (the HTTP status for
    the probe) and its standard output, or it raised before completing (the
    executable or the network was unreachable, the output could not be decoded).
   */
  datatype Reply = Completed(code: int, stdout: string) | Raised

  datatype Exchange = Exchange(command: Command, reply: Reply)

  /** What a command talks to: the Wi-Fi adapter, the Internet, or the Psiphon process. */
  datatype Kind = WifiKind | ProbeKind | VpnKind

  function KindOf(c: Command): Kind {
    match c
    case ProbeInternet => ProbeKind
    case TaskList => VpnKind
    case LaunchPsiphon => VpnKind
    case KillPsiphon => VpnKind
    case _ => WifiKind
  }

  /** Every exchange of `es` is of kind `k`. */
  predicate AllOf(es: seq<Exchange>, k: Kind) {
    forall i | 0 <= i < |es| :: KindOf(es[i].command) == k
  }

  /** The exchanges a step added to the trace, which it only extended. */
  function Added(before: seq<Exchange>, after: seq<Exchange>): seq<Exchange>
    requires before <= after
  {
    after[|before|..]
  }

  /** Two steps in a row add the exchanges of the first and then those of the second. */
  lemma AddedTwice(t0: seq<Exchange>, t1: seq<Exchange>, t2: seq<Exchange>)
    requires t0 <= t1 <= t2
    ensures t0 <= t2 && Added(t0, t2) == Added(t0, t1) + Added(t1, t2)
  {
  }

  /** A step that added only exchanges of one kind, followed by another such step, added only that kind. */
  lemma AllOfTwice(t0: seq<Exchange>, t1: seq<Exchange>, t2: seq<Exchange>, k: Kind)
    requires t0 <= t1 <= t2
    requires AllOf(Added(t0, t1), k) && AllOf(Added(t1, t2), k)
    ensures t0 <= t2 && AllOf(Added(t0, t2), k)
  {
    AddedTwice(t0, t1, t2);
    var a: seq<Exchange>, b: seq<Exchange> := Added(t0, t1), Added(t1, t2);
    forall i | 0 <= i < |a + b| ensures KindOf((a + b)[i].command) == k {
      if i < |a| { assert (a + b)[i] == a[i]; } else { assert (a + b)[i] == b[i - |a|]; }
    }
  }

  /** The machine the application runs on. */
  class Host {
    /** How the host answers a command, given every exchange before it. */
    const respond: (seq<Exchange>, Command) -> Reply
    var trace: seq<Exchange>

    constructor (respond: (seq<Exchange>, Command) -> Reply)
      ensures this.respond == respond && trace == []
    {
      this.respond := respond;
      trace := [];
    }

    /** Issues one command; the reply is the oracle's answer to the trace so far. */
    method Run(c: Command) returns (r: Reply)
      modifies this
      ensures r == respond(old(trace), c)
      ensures trace == old(trace) + [Exchange(c, r)]
    {
      r := respond(trace, c);
      trace := trace + [Exchange(c, r)];
    }
  }
}
