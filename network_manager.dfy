/**
  The network manager: the selected Wi-Fi credentials, the last scan of visible
  networks, and the operations that read `netsh`/`tasklist` output, act on the
  adapter or the Psiphon process, and then re-check the state they acted on.
  An empty string stands for an unset SSID or password (Python's `None`; both are
  falsy and treated alike). The settle delays between an action and its re-check
  are not modelled: the host's next answer already reflects the action.
 */
module Network {
  import opened Wrappers
  import opened Text
  import opened FieldPattern
  import opened Profiles
  import opened Os
  import opened WifiProfiles
  import opened WlanProfile

  /** The keys the `netsh` listings are searched for. */
  const ProfileKey: string := "All User Profile"
  const KeyContentKey: string := "Key Content"
  const SsidKey: string := "SSID"

  const NotAvailable: string := "Not Available"
  const ErrorText: string := "Error"
  const NotSelected: string := "Wi-Fi not selected"
  const NotConnected: string := "Not Connected"

  /** The Psiphon image name looked for in the lower-cased task list. */
  const PsiphonImage: string := "psiphon3.exe"

  /** HTTP 204 No Content (section 15.3.5 of RFC 9110), the only status the probe accepts. */
  const NoContent: int := 204

  /** A command that completed with exit code 0. */
  predicate Succeeded(r: Reply) {
    r.Completed? && r.code == 0
  }

  // ---------------------------------------------------------------------------
  // Reading command output

  /** The profile names of `netsh wlan show profiles`, as captured (not stripped); none unless it exited with 0. */
  function ProfileNames(r: Reply): (names: seq<string>)
    ensures !Succeeded(r) ==> names == []
  {
    if Succeeded(r) then FindAll(ProfileKey, r.stdout) else []
  }

  /** The password in the key listing of one profile: the stripped `Key Content`, "Not Available", or "Error". */
  function PasswordOf(r: Reply): (pw: string)
    ensures r.Raised? ==> pw == ErrorText
  {
    match r
    case Raised => ErrorText
    case Completed(_, out) =>
      match Search(KeyContentKey, out)
      case Some(g) => Strip(g)
      case None => NotAvailable
  }

  /** The SSID of `netsh wlan show interfaces`: the stripped first `SSID` field, "" when there is none or the command failed. */
  function CurrentSsidOf(r: Reply): (ssid: string)
    ensures !Succeeded(r) ==> ssid == ""
    ensures '\n' !in ssid
    ensures ssid != "" ==> !IsSpace(ssid[0]) && !IsSpace(ssid[|ssid| - 1])
  {
    if Succeeded(r) then
      match Search(SsidKey, r.stdout)
      case Some(g) => StripOmits(g, '\n'); Strip(g)
      case None => ""
    else ""
  }

  /** The status of a selected network in `netsh wlan show interfaces`: a substring test on the whole output. */
  function WifiStatusOf(ssid: string, r: Reply): (status: (bool, string))
    ensures status.0 <==> Succeeded(r) && Contains(r.stdout, ssid)
    ensures status.1 == (if status.0 then "Connected to " + ssid else if Succeeded(r) then NotConnected else ErrorText)
  {
    if !Succeeded(r) then (false, ErrorText)
    else if Contains(r.stdout, ssid) then (true, "Connected to " + ssid)
    else (false, NotConnected)
  }

  /** A line of the network scan that names a network: it mentions "SSID" but not "BSSID". */
  predicate NamesNetwork(line: string) {
    Contains(line, SsidKey) && !Contains(line, "BSSID")
  }

  /**
    The network names of the scan's lines: for each line that names a network, the
    stripped text between its first and second ':'. A naming line without a ':'
    raises, which loses the whole list.
   */
  function NetworkNames(lines: seq<string>): (names: Option<seq<string>>)
    ensures names.Some? ==> |names.value| <= |lines|
  {
    if lines == [] then Some([])
    else
      var tail := NetworkNames(lines[1..]);
      if !NamesNetwork(lines[0]) then tail
      else
        var pieces := Split(lines[0], ':');
        if |pieces| < 2 || tail.None? then None
        else
          Some([Strip(pieces[1])] + tail.value)
  }

  /** A name is read from between two ':', so none holds a ':'. */
  lemma {:induction false} NamesWithoutColon(lines: seq<string>)
    requires NetworkNames(lines).Some?
    ensures forall k | 0 <= k < |NetworkNames(lines).value| :: ':' !in NetworkNames(lines).value[k]
  {
    if lines != [] {
      NamesWithoutColon(lines[1..]);
      if NamesNetwork(lines[0]) {
        var pieces := Split(lines[0], ':');
        StripOmits(pieces[1], ':');
        NoneHolds([Strip(pieces[1])], NetworkNames(lines[1..]).value, ':');
      }
    }
  }

  /** Two lists of texts none of which holds `c` make such a list together. */
  lemma NoneHolds(a: seq<string>, b: seq<string>, c: char)
    requires forall k | 0 <= k < |a| :: c !in a[k]
    requires forall k | 0 <= k < |b| :: c !in b[k]
    ensures forall k | 0 <= k < |a + b| :: c !in (a + b)[k]
  {
    forall k | 0 <= k < |a + b| ensures c !in (a + b)[k] {
      if k >= |a| {
        assert (a + b)[k] == b[k - |a|];
      }
    }
  }

  /** The visible networks of `netsh wlan show networks`: empty when it failed, printed nothing, or a line could not be read. */
  function AvailableOf(r: Reply): (names: seq<string>)
    ensures !Succeeded(r) || r.stdout == "" ==> names == []
    ensures forall k | 0 <= k < |names| :: ':' !in names[k]
  {
    if Succeeded(r) && r.stdout != "" then
      var lines := Split(r.stdout, '\n');
      if NetworkNames(lines).Some? then NamesWithoutColon(lines); NetworkNames(lines).value else []
    else []
  }

  /** The probe found the Internet: the request completed with status 204. */
  function InternetUp(r: Reply): bool {
    r.Completed? && r.code == NoContent
  }

  /** `tasklist` succeeded and lists the Psiphon image, compared in lower case. */
  function PsiphonListed(r: Reply): bool {
    Succeeded(r) && Contains(Lower(r.stdout), PsiphonImage)
  }

  /** The first stored profile, in store order, whose SSID is among the visible networks. */
  function AutoSelect(known: seq<Profile>, available: seq<string>): (r: Option<Profile>)
    ensures r.Some? ==> r.value in known && r.value.ssid in available
    ensures r.None? <==> forall i | 0 <= i < |known| :: known[i].ssid !in available
  {
    if known == [] then None
    else if known[0].ssid in available then Some(known[0])
    else
      var r := AutoSelect(known[1..], available);
      assert forall i | 1 <= i < |known| :: known[i] == known[1..][i - 1];
      r
  }

  // ---------------------------------------------------------------------------
  // The manager

  /** The last exchange is an interfaces listing confirming that `ssid` is connected. */
  predicate Confirms(t: seq<Exchange>, ssid: string) {
    t != [] && t[|t| - 1].command == ShowInterfaces && ssid != "" && WifiStatusOf(ssid, t[|t| - 1].reply).0
  }

  /** The last exchange is a task list and says whether Psiphon runs. */
  predicate PsiphonSeen(t: seq<Exchange>, running: bool) {
    t != [] && t[|t| - 1].command == TaskList && PsiphonListed(t[|t| - 1].reply) == running
  }

  /** The profile listing does not mention `ssid`, so a profile has to be created first. */
  predicate ProfileMissing(r: Reply, ssid: string) {
    Succeeded(r) && !Contains(r.stdout, ssid)
  }

  /**
    The exchanges of a connection attempt: the profile listing first, only Wi-Fi
    commands, and a profile added at most once, right after a listing that did not
    mention the SSID, made of the selected SSID and password.
   */
  predicate AttemptShape(added: seq<Exchange>, ssid: string, password: string) {
    && added != [] && added[0].command == ShowProfiles && AllOf(added, WifiKind)
    && forall i | 0 <= i < |added| && added[i].command.AddProfile? ::
         && i == 1 && ProfileMissing(added[0].reply, ssid) && password != ""
         && added[i].command == AddProfile(ProfileDocument(ssid, password))
  }

  /** A Wi-Fi exchange that adds no profile keeps the shape of an attempt. */
  lemma AttemptShapeSnoc(added: seq<Exchange>, e: Exchange, ssid: string, password: string)
    requires AttemptShape(added, ssid, password)
    requires KindOf(e.command) == WifiKind && !e.command.AddProfile?
    ensures AttemptShape(added + [e], ssid, password)
  {
    var a := added + [e];
    forall i | 0 <= i < |a| ensures KindOf(a[i].command) == WifiKind {
      if i < |added| { assert a[i] == added[i]; }
    }
    forall i | 0 <= i < |a| && a[i].command.AddProfile?
      ensures i == 1 && ProfileMissing(a[0].reply, ssid) && password != ""
      ensures a[i].command == AddProfile(ProfileDocument(ssid, password))
    {
      assert a[i] == added[i];
    }
  }

  /** The key listings read so far: one per profile name, in order, each giving that profile's password. */
  ghost predicate KeysRead(keys: seq<Exchange>, names: seq<string>, profiles: seq<Profile>) {
    && |keys| == |names| == |profiles|
    && forall k | 0 <= k < |names| ::
         && keys[k].command == ShowProfileKey(names[k])
         && profiles[k] == Profile(names[k], PasswordOf(keys[k].reply))
  }

  /** Reading the key listing of the next name extends what was read. */
  lemma KeysReadSnoc(keys: seq<Exchange>, names: seq<string>, profiles: seq<Profile>, i: nat, pr: Reply)
    requires i < |names| && KeysRead(keys, names[..i], profiles)
    ensures KeysRead(keys + [Exchange(ShowProfileKey(names[i]), pr)], names[..i + 1],
                     profiles + [Profile(names[i], PasswordOf(pr))])
  {
    var keys', profiles' := keys + [Exchange(ShowProfileKey(names[i]), pr)], profiles + [Profile(names[i], PasswordOf(pr))];
    forall k | 0 <= k < i + 1
      ensures keys'[k].command == ShowProfileKey(names[..i + 1][k])
      ensures profiles'[k] == Profile(names[..i + 1][k], PasswordOf(keys'[k].reply))
    {
      if k < i {
        assert keys'[k] == keys[k] && profiles'[k] == profiles[k] && names[..i + 1][k] == names[..i][k];
      }
    }
  }

  /** The listing followed by the key listings, as positions of the whole trace. */
  lemma KeysReadTrace(t0: seq<Exchange>, e0: Exchange, keys: seq<Exchange>, names: seq<string>, profiles: seq<Profile>)
    requires e0.command == ShowProfiles && KeysRead(keys, names, profiles)
    ensures var t := t0 + [e0] + keys;
            && t0 < t && AllOf(Added(t0, t), WifiKind)
            && t[|t0|] == e0 && |t| == |t0| + 1 + |names|
            && forall i | 0 <= i < |names| ::
                 && t[|t0| + 1 + i].command == ShowProfileKey(names[i])
                 && profiles[i] == Profile(names[i], PasswordOf(t[|t0| + 1 + i].reply))
  {
    var added := [e0] + keys;
    var t := t0 + added;
    assert t0 + [e0] + keys == t;
    assert Added(t0, t) == added;
    forall i | 0 <= i < |added| ensures KindOf(added[i].command) == WifiKind {
      if i > 0 {
        assert added[i] == keys[i - 1];
      }
    }
    forall i | 0 <= i < |names| ensures t[|t0| + 1 + i] == keys[i] {
      assert t[|t0| + 1 + i] == added[1 + i];
    }
  }

  class NetworkManager {
    var currentSsid: string
    var currentPassword: string
    var availableNetworks: seq<string>
    const host: Host
    const model: WifiProfilesModel

    constructor (host: Host, model: WifiProfilesModel)
      ensures this.host == host && this.model == model
      ensures currentSsid == "" && currentPassword == "" && availableNetworks == []
    {
      this.host := host;
      this.model := model;
      currentSsid := "";
      currentPassword := "";
      availableNetworks := [];
    }

    /**
      Lists the system's saved profiles with their passwords: one entry per
      profile name of the listing, in order, each with the password read from
      that profile's own key listing.
     */
    method GetWifiPasswords() returns (profiles: seq<Profile>)
      modifies host
      ensures old(host.trace) < host.trace && AllOf(Added(old(host.trace), host.trace), WifiKind)
      ensures var t0 := old(host.trace);
              var names := ProfileNames(host.trace[|t0|].reply);
              && host.trace[|t0|].command == ShowProfiles
              && |host.trace| == |t0| + 1 + |names| && |profiles| == |names|
              && forall i | 0 <= i < |names| ::
                   && host.trace[|t0| + 1 + i].command == ShowProfileKey(names[i])
                   && profiles[i] == Profile(names[i], PasswordOf(host.trace[|t0| + 1 + i].reply))
    {
      ghost var t0 := host.trace;
      var r := host.Run(ShowProfiles);
      var names := ProfileNames(r);
      ghost var keys: seq<Exchange> := [];
      profiles := [];
      var i := 0;
      while i < |names|
        invariant i <= |names|
        invariant host.trace == t0 + [Exchange(ShowProfiles, r)] + keys
        invariant KeysRead(keys, names[..i], profiles)
      {
        var pr := host.Run(ShowProfileKey(names[i]));
        KeysReadSnoc(keys, names, profiles, i, pr);
        keys := keys + [Exchange(ShowProfileKey(names[i]), pr)];
        profiles := profiles + [Profile(names[i], PasswordOf(pr))];
        i := i + 1;
      }
      assert names[..i] == names;
      KeysReadTrace(t0, Exchange(ShowProfiles, r), keys, names, profiles);
    }

    /** The SSID the adapter is connected to, "" when none. */
    method GetCurrentWifi() returns (ssid: string)
      modifies host
      ensures host.trace == old(host.trace) + [Exchange(ShowInterfaces, host.respond(old(host.trace), ShowInterfaces))]
      ensures ssid == CurrentSsidOf(host.trace[|host.trace| - 1].reply)
    {
      var r := host.Run(ShowInterfaces);
      ssid := CurrentSsidOf(r);
    }

    /** Selects the network to connect to. */
    method SetWifiCredentials(ssid: string, password: string)
      modifies this
      ensures currentSsid == ssid && currentPassword == password
      ensures availableNetworks == old(availableNetworks)
    {
      currentSsid := ssid;
      currentPassword := password;
    }

    /** Whether the selected network is connected, and a status message; no command without a selection. */
    method GetWifiStatus() returns (connected: bool, message: string)
      modifies host
      ensures currentSsid == "" ==> host.trace == old(host.trace) && !connected && message == NotSelected
      ensures currentSsid != "" ==>
                && host.trace == old(host.trace) + [Exchange(ShowInterfaces, host.respond(old(host.trace), ShowInterfaces))]
                && (connected, message) == WifiStatusOf(currentSsid, host.trace[|host.trace| - 1].reply)
      ensures connected <==> Confirms(host.trace, currentSsid) && host.trace != old(host.trace)
    {
      if currentSsid == "" {
        return false, NotSelected;
      }
      var r := host.Run(ShowInterfaces);
      connected, message := WifiStatusOf(currentSsid, r).0, WifiStatusOf(currentSsid, r).1;
    }

    /** Scans for visible networks and keeps their names. */
    method GetAvailableWifi()
      modifies this, host
      ensures host.trace == old(host.trace) + [Exchange(ShowNetworks, host.respond(old(host.trace), ShowNetworks))]
      ensures availableNetworks == AvailableOf(host.trace[|host.trace| - 1].reply)
      ensures currentSsid == old(currentSsid) && currentPassword == old(currentPassword)
    {
      var r := host.Run(ShowNetworks);
      if Succeeded(r) && r.stdout != "" {
        var names := NetworkNames(Split(r.stdout, '\n'));
        if names.Some? {
          availableNetworks := names.value;
        } else {
          availableNetworks := [];
        }
      } else {
        availableNetworks := [];
      }
    }

    /**
      The auto-selection step of connecting: scans, then takes the first stored
      profile whose SSID is visible and selects its SSID and password.
     */
    method SelectKnownNetwork()
      modifies this, host
      ensures host.trace == old(host.trace) + [Exchange(ShowNetworks, host.respond(old(host.trace), ShowNetworks))]
      ensures availableNetworks == AvailableOf(host.trace[|host.trace| - 1].reply)
      ensures match AutoSelect(model.GetAllProfilesDetails(), availableNetworks)
              case Some(p) => currentSsid == p.ssid && currentPassword == p.password
              case None => currentSsid == old(currentSsid) && currentPassword == old(currentPassword)
    {
      GetAvailableWifi();
      var known := model.GetAllProfilesDetails();
      var i := 0;
      while i < |known|
        invariant i <= |known|
        invariant AutoSelect(known, availableNetworks) == AutoSelect(known[i..], availableNetworks)
        invariant currentSsid == old(currentSsid) && currentPassword == old(currentPassword)
      {
        assert known[i..][1..] == known[i + 1..];
        if known[i].ssid in availableNetworks {
          currentSsid := known[i].ssid;
          currentPassword := known[i].password;
          return;
        }
        i := i + 1;
      }
    }

    /**
      Adds the profile document for the selection to the system: nothing to do
      without both an SSID and a password, otherwise succeeds iff adding it exits with 0.
     */
    method CreateWifiProfile() returns (ok: bool)
      modifies host
      ensures currentSsid == "" || currentPassword == "" ==> !ok && host.trace == old(host.trace)
      ensures currentSsid != "" && currentPassword != "" ==>
                var c := AddProfile(ProfileDocument(currentSsid, currentPassword));
                && host.trace == old(host.trace) + [Exchange(c, host.respond(old(host.trace), c))]
                && ok == Succeeded(host.trace[|host.trace| - 1].reply)
    {
      if currentSsid == "" || currentPassword == "" {
        return false;
      }
      var r := host.Run(AddProfile(ProfileDocument(currentSsid, currentPassword)));
      ok := Succeeded(r);
    }

    /**
      Lists the stored profiles and, when the listing succeeded without mentioning
      the selected SSID, creates a profile for it; `listed` says whether the listing succeeded.
     */
    method EnsureProfile() returns (listed: bool)
      requires currentSsid != ""
      modifies host
      ensures old(host.trace) < host.trace
      ensures AttemptShape(Added(old(host.trace), host.trace), currentSsid, currentPassword)
      ensures listed == Succeeded(host.trace[|old(host.trace)|].reply)
      ensures !listed ==> host.trace == old(host.trace) + [host.trace[|old(host.trace)|]]
    {
      ghost var t0 := host.trace;
      var listing := host.Run(ShowProfiles);
      ghost var e0 := Exchange(ShowProfiles, listing);
      listed := Succeeded(listing);
      if !listed {
        assert Added(t0, host.trace) == [e0];
        return;
      }
      if !Contains(listing.stdout, currentSsid) {
        var _ := CreateWifiProfile();
      }
      assert Added(t0, host.trace) == [e0] + host.trace[|t0| + 1..];
    }

    /**
      The connecting step for a selected SSID: creates a profile when the profile
      listing does not mention the SSID, issues the connect, and re-checks.
     */
    method AttemptConnection() returns (ok: bool)
      requires currentSsid != ""
      modifies host
      ensures old(host.trace) < host.trace
      ensures AttemptShape(Added(old(host.trace), host.trace), currentSsid, currentPassword)
      ensures ok <==> Confirms(host.trace, currentSsid)
      ensures ok ==> |host.trace| >= 2 && host.trace[|host.trace| - 2].command == ConnectTo(currentSsid)
    {
      ghost var t0 := host.trace;
      var listed := EnsureProfile();
      if !listed {
        return false;
      }
      ghost var t1 := host.trace;
      var r := host.Run(ConnectTo(currentSsid));
      ghost var e1 := Exchange(ConnectTo(currentSsid), r);
      assert Added(t0, host.trace) == Added(t0, t1) + [e1];
      AttemptShapeSnoc(Added(t0, t1), e1, currentSsid, currentPassword);
      if r.Raised? {
        return false;
      }
      ghost var t2 := host.trace;
      var status;
      ok, status := GetWifiStatus();
      ghost var e2 := host.trace[|host.trace| - 1];
      assert Added(t0, host.trace) == Added(t0, t2) + [e2];
      AttemptShapeSnoc(Added(t0, t2), e2, currentSsid, currentPassword);
    }

    /**
      The part of connecting after the status check found the selection not
      connected: auto-selects when the SSID or the password is missing, gives up
      without an SSID, and otherwise attempts the connection.
     */
    method ConnectSelection() returns (ok: bool)
      modifies this, host
      ensures old(host.trace) < host.trace && AllOf(Added(old(host.trace), host.trace), WifiKind)
      ensures ok <==> Confirms(host.trace, currentSsid)
      ensures var t0 := old(host.trace);
              old(currentSsid) != "" && old(currentPassword) != "" ==>
                && currentSsid == old(currentSsid) && currentPassword == old(currentPassword)
                && availableNetworks == old(availableNetworks)
                && AttemptShape(host.trace[|t0|..], currentSsid, currentPassword)
      ensures var t0 := old(host.trace);
              old(currentSsid) == "" || old(currentPassword) == "" ==>
                && host.trace[|t0|].command == ShowNetworks
                && availableNetworks == AvailableOf(host.trace[|t0|].reply)
                && (match AutoSelect(model.GetAllProfilesDetails(), availableNetworks)
                    case Some(p) => currentSsid == p.ssid && currentPassword == p.password
                    case None => currentSsid == old(currentSsid) && currentPassword == old(currentPassword))
                && (currentSsid == "" ==> !ok && |host.trace| == |t0| + 1)
                && (currentSsid != "" ==> AttemptShape(host.trace[|t0| + 1..], currentSsid, currentPassword))
    {
      ghost var t0 := host.trace;
      if currentSsid == "" || currentPassword == "" {
        SelectKnownNetwork();
      }
      ghost var t1 := host.trace;
      if currentSsid == "" {
        return false;
      }
      ok := AttemptConnection();
      AllOfTwice(t0, t1, host.trace, WifiKind);
      AddedTwice(t0, t1, host.trace);
    }

    /**
      Connects to the selected network. Already connected: done, nothing changes.
      Otherwise the result is that of `ConnectSelection`, the status re-checked
      after connecting.
     */
    method ConnectWifi() returns (ok: bool)
      modifies this, host
      ensures old(host.trace) < host.trace && AllOf(Added(old(host.trace), host.trace), WifiKind)
      ensures ok <==> Confirms(host.trace, currentSsid)
      ensures var t0 := old(host.trace);
              old(currentSsid) != "" && WifiStatusOf(old(currentSsid), host.respond(t0, ShowInterfaces)).0 ==>
                && ok && host.trace == t0 + [Exchange(ShowInterfaces, host.respond(t0, ShowInterfaces))]
                && currentSsid == old(currentSsid) && currentPassword == old(currentPassword)
                && availableNetworks == old(availableNetworks)
      ensures old(currentSsid) != "" && old(currentPassword) != "" ==>
                currentSsid == old(currentSsid) && currentPassword == old(currentPassword)
                && availableNetworks == old(availableNetworks)
      ensures var t0 := old(host.trace);
              var k := if old(currentSsid) == "" then |t0| else |t0| + 1;
              (old(currentSsid) == "" || old(currentPassword) == "")
              && !(old(currentSsid) != "" && WifiStatusOf(old(currentSsid), host.respond(t0, ShowInterfaces)).0) ==>
                && |host.trace| > k && host.trace[k].command == ShowNetworks
                && availableNetworks == AvailableOf(host.trace[k].reply)
                && (match AutoSelect(model.GetAllProfilesDetails(), availableNetworks)
                    case Some(p) => currentSsid == p.ssid && currentPassword == p.password
                    case None => currentSsid == old(currentSsid) && currentPassword == old(currentPassword))
                && (currentSsid == "" ==> !ok && |host.trace| == k + 1)
    {
      ghost var t0 := host.trace;
      var connected, message := GetWifiStatus();
      if connected {
        return true;
      }
      ghost var t1 := host.trace;
      ok := ConnectSelection();
      AllOfTwice(t0, t1, host.trace, WifiKind);
    }

    /**
      Disconnects. Already disconnected (or nothing selected): done. Otherwise the
      result is whether the re-check no longer finds the selected network.
     */
    method DisconnectWifi() returns (ok: bool)
      modifies host
      ensures old(host.trace) <= host.trace
      ensures AllOf(Added(old(host.trace), host.trace), WifiKind)
      ensures currentSsid == "" ==> ok && host.trace == old(host.trace)
      ensures var added := Added(old(host.trace), host.trace);
              currentSsid != "" ==>
                && 1 <= |added| <= 3 && added[0].command == ShowInterfaces
                && (|added| == 1 <==> !WifiStatusOf(currentSsid, added[0].reply).0)
                && (|added| == 1 ==> ok)
                && (|added| > 1 ==> added[1].command == Disconnect)
                && (|added| == 2 <==> |added| > 1 && added[1].reply.Raised?)
                && (|added| == 2 ==> !ok)
                && (|added| == 3 ==> added[2].command == ShowInterfaces && (ok <==> !Confirms(host.trace, currentSsid)))
    {
      ghost var t0 := host.trace;
      var connected, message := GetWifiStatus();
      if !connected {
        return true;
      }
      var r := host.Run(Disconnect);
      if r.Raised? {
        return false;
      }
      connected, message := GetWifiStatus();
      ok := !connected;
    }

    /** Probes `generate_204`: up iff the answer is 204. */
    method GetInternetStatus() returns (up: bool)
      modifies host
      ensures host.trace == old(host.trace) + [Exchange(ProbeInternet, host.respond(old(host.trace), ProbeInternet))]
      ensures up <==> host.trace[|host.trace| - 1].reply.Completed? && host.trace[|host.trace| - 1].reply.code == NoContent
    {
      var r := host.Run(ProbeInternet);
      up := InternetUp(r);
    }

    /** Whether the task list shows Psiphon. */
    method IsPsiphonRunning() returns (running: bool)
      modifies host
      ensures host.trace == old(host.trace) + [Exchange(TaskList, host.respond(old(host.trace), TaskList))]
      ensures running == PsiphonListed(host.trace[|host.trace| - 1].reply)
    {
      var r := host.Run(TaskList);
      running := PsiphonListed(r);
    }

    /**
      Starts Psiphon unless it already runs; the result is whether the last task
      list shows it. It is launched only when the first task list did not show it.
     */
    method StartPsiphon() returns (ok: bool)
      modifies host
      ensures old(host.trace) < host.trace && AllOf(Added(old(host.trace), host.trace), VpnKind)
      ensures ok <==> PsiphonSeen(host.trace, true)
      ensures var added := Added(old(host.trace), host.trace);
              && added[0].command == TaskList && |added| <= 3
              && (|added| == 1 <==> PsiphonListed(added[0].reply))
              && (|added| > 1 ==> added[1].command == LaunchPsiphon)
              && forall i | 0 <= i < |added| :: added[i].command == LaunchPsiphon ==> i == 1
    {
      ghost var t0 := host.trace;
      var running := IsPsiphonRunning();
      if running {
        return true;
      }
      var r := host.Run(LaunchPsiphon);
      if r.Raised? {
        return false;
      }
      ok := IsPsiphonRunning();
    }

    /**
      Stops Psiphon unless it is not running; the result is whether the last task
      list no longer shows it. It is killed only when the first task list showed it.
     */
    method StopPsiphon() returns (ok: bool)
      modifies host
      ensures old(host.trace) < host.trace && AllOf(Added(old(host.trace), host.trace), VpnKind)
      ensures ok <==> PsiphonSeen(host.trace, false)
      ensures var added := Added(old(host.trace), host.trace);
              && added[0].command == TaskList && |added| <= 3
              && (|added| == 1 <==> !PsiphonListed(added[0].reply))
              && (|added| > 1 ==> added[1].command == KillPsiphon)
              && forall i | 0 <= i < |added| :: added[i].command == KillPsiphon ==> i == 1
    {
      var running := IsPsiphonRunning();
      if !running {
        return true;
      }
      var r := host.Run(KillPsiphon);
      if r.Raised? {
        return false;
      }
      var still := IsPsiphonRunning();
      ok := !still;
    }
  }

  // ---------------------------------------------------------------------------
  // What the readers recover from well-formed listings

  /**
    A profile listing yields its profile names, in order and as captured: every
    line `All User Profile<pad>: <name>` gives `name`, trailing whitespace included.
   */
  lemma ProfileNamesListing(indent: string, pad: string, names: seq<string>)
    requires 'A' !in indent && '\n' !in indent && AllSpace(pad)
    requires forall k :: 0 <= k < |names| ==> WellFormedValue(names[k])
    ensures ProfileNames(Completed(0, Listing(indent, ProfileKey, pad, names))) == names
  {
    FindAllListing(indent, ProfileKey, pad, names);
  }

  /** The key listing of a profile yields its `Key Content`, without the whitespace around it. */
  lemma PasswordOfListing(code: int, junk: string, pad: string, password: string, rest: string)
    requires KeyFreeBefore(KeyContentKey, junk) && AllSpace(pad)
    requires WellFormedValue(password) && !IsSpace(password[|password| - 1])
    ensures PasswordOf(Completed(code, junk + FieldLine(KeyContentKey, pad, password) + "\n" + rest)) == password
  {
    SearchFieldLine(KeyContentKey, junk, pad, password, rest);
    StripTrimmed(password);
  }

  /** A key listing without a `Key Content` line (an open network, or a key the user may not see) yields "Not Available". */
  lemma PasswordOfNoKey(code: int, out: string)
    requires 'K' !in out
    ensures PasswordOf(Completed(code, out)) == NotAvailable
  {
    SearchSkip(KeyContentKey, out, "");
    assert out + "" == out;
  }

  /**
    An interfaces listing whose first `SSID` field names a network: the current
    SSID is that network, and the status test on that SSID finds it connected.
   */
  lemma InterfacesListing(junk: string, pad: string, ssid: string, rest: string)
    requires KeyFreeBefore(SsidKey, junk) && AllSpace(pad)
    requires WellFormedValue(ssid) && !IsSpace(ssid[|ssid| - 1])
    ensures CurrentSsidOf(Completed(0, junk + FieldLine(SsidKey, pad, ssid) + "\n" + rest)) == ssid
    ensures WifiStatusOf(ssid, Completed(0, junk + FieldLine(SsidKey, pad, ssid) + "\n" + rest)) == (true, "Connected to " + ssid)
  {
    SearchFieldLine(SsidKey, junk, pad, ssid, rest);
    StripTrimmed(ssid);
    FieldLineMentions(junk, SsidKey, pad, ssid, rest);
  }

  /** A field line's value occurs in any text holding the line. */
  lemma FieldLineMentions(junk: string, key: string, pad: string, value: string, rest: string)
    ensures Contains(junk + FieldLine(key, pad, value) + "\n" + rest, value)
  {
    var out := junk + FieldLine(key, pad, value) + "\n" + rest;
    var at := |junk| + |key| + |pad| + 2;
    assert out[at..] == value + "\n" + rest;
    ContainsAt(out, value, at);
  }

  /** As `netsh` prints it: the adapter's `State` line comes before its `SSID` line, and does not hide it. */
  lemma InterfacesAfterState(pad: string, ssid: string, rest: string)
    requires AllSpace(pad)
    requires WellFormedValue(ssid) && !IsSpace(ssid[|ssid| - 1])
    ensures CurrentSsidOf(Completed(0, "    State : connected\n    " + FieldLine(SsidKey, pad, ssid) + "\n" + rest)) == ssid
  {
    var junk := "    State : connected\n    ";
    forall i | 0 <= i < |junk| ensures junk[i] != SsidKey[0] || (i + 1 < |junk| && junk[i + 1] != SsidKey[1]) {
    }
    KeyFreeOfPairs(SsidKey, junk);
    InterfacesListing(junk, pad, ssid, rest);
  }

  /**
    The status test is a substring test: connected to `name + more`, the adapter
    also counts as connected to `name`.
   */
  lemma StatusBySubstring(junk: string, pad: string, name: string, more: string, rest: string)
    requires KeyFreeBefore(SsidKey, junk) && AllSpace(pad)
    requires name != [] && '\n' !in more
    requires WellFormedValue(name + more) && !IsSpace((name + more)[|name + more| - 1])
    ensures CurrentSsidOf(Completed(0, junk + FieldLine(SsidKey, pad, name + more) + "\n" + rest)) == name + more
    ensures WifiStatusOf(name, Completed(0, junk + FieldLine(SsidKey, pad, name + more) + "\n" + rest)).0
  {
    var out := junk + FieldLine(SsidKey, pad, name + more) + "\n" + rest;
    InterfacesListing(junk, pad, name + more, rest);
    ContainsShorter(out, name, more);
  }

  /** One line of the network scan: `SSID <tag> : <name>` with the carriage return `netsh` ends it with. */
  function NetworkLine(tag: string, name: string): string {
    SsidKey + tag + " : " + name + "\r"
  }

  function NetworkLines(tag: string, names: seq<string>): (lines: seq<string>)
    ensures |lines| == |names|
    ensures forall k | 0 <= k < |names| :: lines[k] == NetworkLine(tag, names[k])
  {
    seq(|names|, k requires 0 <= k < |names| => NetworkLine(tag, names[k]))
  }

  /** A name the scan can carry: one trimmed line, with neither ':' nor 'B'. */
  predicate ScannableName(name: string) {
    name != [] && !IsSpace(name[0]) && !IsSpace(name[|name| - 1])
    && ':' !in name && '\n' !in name && 'B' !in name
  }

  /** A network line is one non-empty line. */
  lemma NetworkLineOneLine(tag: string, name: string)
    requires '\n' !in tag && '\n' !in name
    ensures NetworkLine(tag, name) != "" && '\n' !in NetworkLine(tag, name)
  {
    var line := NetworkLine(tag, name);
    assert line == SsidKey + tag + " : " + name + "\r";
    assert forall c | c in line :: c in SsidKey || c in tag || c in " : " || c in name || c == '\r';
  }

  /** One network line is kept, and its name recovered. */
  lemma NetworkLineRead(tag: string, name: string)
    requires ScannableName(name) && ':' !in tag && 'B' !in tag && '\n' !in tag
    ensures NamesNetwork(NetworkLine(tag, name))
    ensures var pieces := Split(NetworkLine(tag, name), ':'); |pieces| >= 2 && Strip(pieces[1]) == name
  {
    var line := NetworkLine(tag, name);
    ContainsAt(line, SsidKey, 0);
    ContainsSkip(line, "", "BSSID");
    assert line + "" == line;
    var first := SsidKey + tag + " ";
    assert line == first + (":" + (" " + name + "\r"));
    SplitGlue(first, ":" + (" " + name + "\r"), ':');
    var after := " " + name + "\r";
    SplitNoSep(after, ':');
    assert (":" + after)[1..] == after;
    assert Split(":" + after, ':') == [""] + [after];
    StripPadded(" ", name, "\r");
    assert " " + name + "\r" == after;
  }

  /** Lines that do not mention "SSID" are skipped. */
  lemma {:induction false} NetworkNamesSkip(header: seq<string>, lines: seq<string>)
    requires forall k | 0 <= k < |header| :: !Contains(header[k], SsidKey)
    ensures NetworkNames(header + lines) == NetworkNames(lines)
  {
    if header != [] {
      assert (header + lines)[0] == header[0];
      assert (header + lines)[1..] == header[1..] + lines;
      NetworkNamesSkip(header[1..], lines);
    } else {
      assert header + lines == lines;
    }
  }

  /** `SSID <tag> : <name>` lines give their names in order. */
  lemma {:induction false} NetworkNamesOfLines(tag: string, names: seq<string>)
    requires ':' !in tag && 'B' !in tag && '\n' !in tag
    requires forall k | 0 <= k < |names| :: ScannableName(names[k])
    ensures NetworkNames(NetworkLines(tag, names)) == Some(names)
  {
    var lines := NetworkLines(tag, names);
    if names != [] {
      NetworkLineRead(tag, names[0]);
      assert lines[1..] == NetworkLines(tag, names[1..]);
      NetworkNamesOfLines(tag, names[1..]);
      assert names == [names[0]] + names[1..];
    }
  }

  /**
    A scan whose naming lines are `SSID <tag> : <name>` lines, after header lines
    that do not mention "SSID", gives the names in order.
   */
  lemma NetworkNamesListing(header: seq<string>, tag: string, names: seq<string>)
    requires forall k | 0 <= k < |header| :: !Contains(header[k], SsidKey)
    requires ':' !in tag && 'B' !in tag && '\n' !in tag
    requires forall k | 0 <= k < |names| :: ScannableName(names[k])
    ensures NetworkNames(header + NetworkLines(tag, names)) == Some(names)
  {
    NetworkNamesSkip(header, NetworkLines(tag, names));
    NetworkNamesOfLines(tag, names);
  }

  /** The whole scan output, lines joined by '\n', gives the visible networks in order. */
  lemma AvailableListing(header: seq<string>, tag: string, names: seq<string>)
    requires forall k | 0 <= k < |header| :: !Contains(header[k], SsidKey) && '\n' !in header[k]
    requires ':' !in tag && 'B' !in tag && '\n' !in tag
    requires names != [] && forall k | 0 <= k < |names| :: ScannableName(names[k])
    ensures AvailableOf(Completed(0, Join(header + NetworkLines(tag, names), "\n"))) == names
  {
    var lines := header + NetworkLines(tag, names);
    ScanLinesOneLine(header, tag, names);
    NetworkNamesListing(header, tag, names);
    AvailableOfJoined(lines, names);
  }

  /** Lines joined by '\n' split back into themselves, so the scan reads them. */
  lemma AvailableOfJoined(lines: seq<string>, names: seq<string>)
    requires lines != [] && lines[|lines| - 1] != ""
    requires forall k | 0 <= k < |lines| :: '\n' !in lines[k]
    requires NetworkNames(lines) == Some(names)
    ensures AvailableOf(Completed(0, Join(lines, "\n"))) == names
  {
    SplitJoin(lines, '\n');
    JoinNotEmpty(lines, "\n");
  }

  /** The lines of a scan are single lines, and the last, a network line, is not empty. */
  lemma ScanLinesOneLine(header: seq<string>, tag: string, names: seq<string>)
    requires forall k | 0 <= k < |header| :: '\n' !in header[k]
    requires '\n' !in tag
    requires names != [] && forall k | 0 <= k < |names| :: ScannableName(names[k])
    ensures forall k | 0 <= k < |header + NetworkLines(tag, names)| :: '\n' !in (header + NetworkLines(tag, names))[k]
    ensures (header + NetworkLines(tag, names))[|header| + |names| - 1] != ""
  {
    var lines := header + NetworkLines(tag, names);
    forall k | 0 <= k < |lines| ensures '\n' !in lines[k] {
      if k >= |header| {
        assert lines[k] == NetworkLine(tag, names[k - |header|]);
        NetworkLineOneLine(tag, names[k - |header|]);
      }
    }
    assert lines[|header| + |names| - 1] == NetworkLine(tag, names[|names| - 1]);
    NetworkLineOneLine(tag, names[|names| - 1]);
  }

  /** A naming line without a ':' loses the whole scan. */
  lemma {:induction false} ScanWithoutColon(lines: seq<string>, i: nat)
    requires i < |lines| && NamesNetwork(lines[i]) && ':' !in lines[i]
    ensures NetworkNames(lines) == None
    decreases i
  {
    SplitNoSep(lines[i], ':');
    if i > 0 {
      ScanWithoutColon(lines[1..], i - 1);
    }
  }

  /** The task list is searched in lower case: the Psiphon image is found however its name is capitalised. */
  lemma PsiphonListedAnyCase(before: string, image: string, after: string)
    requires Lower(image) == PsiphonImage
    ensures PsiphonListed(Completed(0, before + image + after))
  {
    var out := before + image + after;
    var low := Lower(out);
    forall k | 0 <= k < |image| ensures low[|before| + k] == PsiphonImage[k] {
      assert out[|before| + k] == image[k];
    }
    assert PsiphonImage <= low[|before|..];
    ContainsAt(low, PsiphonImage, |before|);
  }

  /** Auto-selection takes the first stored profile, in store order, that is visible. */
  lemma {:induction false} AutoSelectFirst(known: seq<Profile>, available: seq<string>, i: nat)
    requires i < |known| && known[i].ssid in available
    requires forall j | 0 <= j < i :: known[j].ssid !in available
    ensures AutoSelect(known, available) == Some(known[i])
    decreases i
  {
    if i > 0 {
      assert forall j | 0 <= j < i - 1 :: known[1..][j] == known[j + 1];
      AutoSelectFirst(known[1..], available, i - 1);
    }
  }
}
