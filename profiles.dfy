/** A saved Wi-Fi profile: the `(ssid, password)` pair passed between the store, the dialog and the network manager. */
module Profiles {

  datatype Profile = Profile(ssid: string, password: string)

  /** The SSIDs of a list of profiles, as a set. */
  function SsidSet(ps: seq<Profile>): set<string> {
    set i | 0 <= i < |ps| :: ps[i].ssid
  }

  /** No two profiles of the list share an SSID (the table's primary key). */
  predicate DistinctSsids(ps: seq<Profile>) {
    forall i, j :: 0 <= i < j < |ps| ==> ps[i].ssid != ps[j].ssid
  }

  /** A list of SSIDs names at most as many networks as it has entries, exactly as many when they are distinct. */
  lemma {:induction false} SsidSetSize(ps: seq<Profile>)
    ensures |SsidSet(ps)| <= |ps|
    ensures |SsidSet(ps)| == |ps| <==> DistinctSsids(ps)
  {
    if ps != [] {
      var init := ps[..|ps| - 1];
      SsidSetSize(init);
      SsidSetSnoc(ps);
      DistinctSnoc(ps);
    }
  }

  /** The SSIDs of a non-empty list are those of all but its last entry, plus the last one's. */
  lemma SsidSetSnoc(ps: seq<Profile>)
    requires ps != []
    ensures SsidSet(ps) == SsidSet(ps[..|ps| - 1]) + {ps[|ps| - 1].ssid}
  {
    var init := ps[..|ps| - 1];
    forall s | s in SsidSet(ps) ensures s in SsidSet(init) + {ps[|ps| - 1].ssid} {
      var i :| 0 <= i < |ps| && ps[i].ssid == s;
      if i < |ps| - 1 { assert init[i] == ps[i]; }
    }
    forall s | s in SsidSet(init) ensures s in SsidSet(ps) {
      var i :| 0 <= i < |init| && init[i].ssid == s;
      assert ps[i] == init[i];
    }
  }

  /** A non-empty list has distinct SSIDs iff all but its last entry do and the last SSID is new. */
  lemma DistinctSnoc(ps: seq<Profile>)
    requires ps != []
    ensures DistinctSsids(ps) <==> DistinctSsids(ps[..|ps| - 1]) && ps[|ps| - 1].ssid !in SsidSet(ps[..|ps| - 1])
  {
    var init := ps[..|ps| - 1];
    var last := ps[|ps| - 1];
    if last.ssid in SsidSet(init) {
      var i :| 0 <= i < |init| && init[i].ssid == last.ssid;
      assert ps[i].ssid == ps[|ps| - 1].ssid;
    } else if DistinctSsids(init) {
      forall i, j | 0 <= i < j < |ps| ensures ps[i].ssid != ps[j].ssid {
        if j < |ps| - 1 {
          assert init[i] == ps[i] && init[j] == ps[j];
        } else {
          assert init[i] == ps[i];
        }
      }
    }
    if DistinctSsids(ps) {
      forall i, j | 0 <= i < j < |init| ensures init[i].ssid != init[j].ssid {
        assert init[i] == ps[i] && init[j] == ps[j];
      }
    }
  }
}
