/**
  The profile store: the `profiles` table of the application's SQLite database,
  with `ssid` as its primary key. The table is a sequence of rows in the order
  the store lists them, which the model takes to be the order of insertion.
 */
module WifiProfiles {
  import opened Wrappers
  import opened Profiles
  import opened DuplicateProfiles

  /** `SELECT password FROM profiles WHERE ssid = ?`: the password of the row for `ssid`. */
  function Find(table: seq<Profile>, ssid: string): (r: Option<string>)
    ensures r.Some? ==> Profile(ssid, r.value) in table
    ensures r.None? <==> forall i | 0 <= i < |table| :: table[i].ssid != ssid
  {
    if table == [] then None
    else if table[0].ssid == ssid then Some(table[0].password)
    else Find(table[1..], ssid)
  }

  /** With the primary key in force, a lookup finds exactly the password of the listed row. */
  lemma FindListed(table: seq<Profile>, ssid: string, password: string)
    requires DistinctSsids(table)
    ensures Find(table, ssid) == Some(password) <==> Profile(ssid, password) in table
  {
    if Profile(ssid, password) in table {
      var i :| 0 <= i < |table| && table[i] == Profile(ssid, password);
      FindAt(table, i);
    }
  }

  /** The lookup of the SSID of row `i` of a table with distinct SSIDs returns that row's password. */
  lemma {:induction false} FindAt(table: seq<Profile>, i: nat)
    requires DistinctSsids(table) && i < |table|
    ensures Find(table, table[i].ssid) == Some(table[i].password)
  {
    if i > 0 {
      assert table[0].ssid != table[i].ssid;
      assert table[1..][i - 1] == table[i];
      FindAt(table[1..], i - 1);
    }
  }

  /** A lookup after a row is appended. */
  lemma {:induction false} FindAppend(table: seq<Profile>, p: Profile, ssid: string)
    ensures Find(table + [p], ssid)
         == if Find(table, ssid).Some? then Find(table, ssid)
            else if p.ssid == ssid then Some(p.password) else None
  {
    if table == [] {
      assert [p][1..] == [];
    } else {
      assert (table + [p])[1..] == table[1..] + [p];
      FindAppend(table[1..], p, ssid);
    }
  }

  /** The pairs of a batch whose SSID the table does not hold, in batch order. */
  function NewProfiles(table: seq<Profile>, ps: seq<Profile>): seq<Profile> {
    if ps == [] then []
    else
      var p := ps[|ps| - 1];
      NewProfiles(table, ps[..|ps| - 1]) + (if Find(table, p.ssid).None? then [p] else [])
  }

  /** The pairs of a batch whose SSID the table holds with a different password, in batch order. */
  function Duplicates(table: seq<Profile>, ps: seq<Profile>): seq<Profile> {
    if ps == [] then []
    else
      var p := ps[|ps| - 1];
      var stored := Find(table, p.ssid);
      Duplicates(table, ps[..|ps| - 1]) + (if stored.Some? && stored.value != p.password then [p] else [])
  }

  /**
    The batch classification: an absent SSID is new, a present SSID with another
    password is a duplicate, and a present SSID with the same password is neither.
   */
  lemma {:induction false} Classification(table: seq<Profile>, ps: seq<Profile>, p: Profile)
    ensures p in NewProfiles(table, ps) <==> p in ps && Find(table, p.ssid).None?
    ensures p in Duplicates(table, ps) <==> p in ps && Find(table, p.ssid).Some? && Find(table, p.ssid).value != p.password
    ensures p in ps && Find(table, p.ssid) == Some(p.password) ==> p !in NewProfiles(table, ps) && p !in Duplicates(table, ps)
  {
    if ps != [] {
      var init := ps[..|ps| - 1];
      Classification(table, init, p);
      assert ps == init + [ps[|ps| - 1]];
    }
  }

  /** `INSERT INTO profiles`: a new row, or nothing when the primary key is already taken. */
  function Insert(table: seq<Profile>, p: Profile): seq<Profile> {
    if Find(table, p.ssid).Some? then table else table + [p]
  }

  /** The rows after inserting each pair of the list in order. */
  function InsertAll(table: seq<Profile>, ps: seq<Profile>): seq<Profile> {
    if ps == [] then table else Insert(InsertAll(table, ps[..|ps| - 1]), ps[|ps| - 1])
  }

  /** Inserting one more pair of the list inserts it into the rows the earlier pairs left. */
  lemma InsertAllStep(table: seq<Profile>, ps: seq<Profile>, j: nat)
    requires j < |ps|
    ensures InsertAll(table, ps[..j + 1]) == Insert(InsertAll(table, ps[..j]), ps[j])
  {
    assert ps[..j + 1][..j] == ps[..j];
  }

  /** The password of the first pair of the list with this SSID. */
  function FirstPassword(ps: seq<Profile>, ssid: string): Option<string> {
    if ps == [] then None
    else
      match FirstPassword(ps[..|ps| - 1], ssid)
      case Some(pw) => Some(pw)
      case None => if ps[|ps| - 1].ssid == ssid then Some(ps[|ps| - 1].password) else None
  }

  /**
    Inserting a batch keeps the primary key, never changes a stored password, and
    stores for a new SSID the password of its first pair: later pairs with that
    SSID fail on the primary key.
   */
  lemma {:induction false} InsertAllFind(table: seq<Profile>, ps: seq<Profile>, ssid: string)
    requires DistinctSsids(table)
    ensures DistinctSsids(InsertAll(table, ps))
    ensures table <= InsertAll(table, ps)
    ensures Find(InsertAll(table, ps), ssid)
         == if Find(table, ssid).Some? then Find(table, ssid) else FirstPassword(ps, ssid)
  {
    if ps != [] {
      var init := ps[..|ps| - 1];
      var p := ps[|ps| - 1];
      var t := InsertAll(table, init);
      InsertAllFind(table, init, ssid);
      InsertKeepsKey(t, p);
      if Find(t, p.ssid).None? {
        FindAppend(t, p, ssid);
      }
    }
  }

  /** One insert keeps the primary key and only appends. */
  lemma InsertKeepsKey(table: seq<Profile>, p: Profile)
    requires DistinctSsids(table)
    ensures DistinctSsids(Insert(table, p)) && table <= Insert(table, p)
  {
  }

  /** `UPDATE profiles SET password = ? WHERE ssid = ?`. */
  function Update(table: seq<Profile>, ssid: string, password: string): (r: seq<Profile>)
    ensures |r| == |table|
    ensures forall i | 0 <= i < |r| :: r[i].ssid == table[i].ssid
  {
    seq(|table|, i requires 0 <= i < |table| => if table[i].ssid == ssid then Profile(ssid, password) else table[i])
  }

  /** An update sets the password of a stored SSID and leaves every other lookup alone; an absent SSID stays absent. */
  lemma {:induction false} UpdateFind(table: seq<Profile>, ssid: string, password: string, s: string)
    ensures Find(Update(table, ssid, password), s)
         == if s == ssid && Find(table, s).Some? then Some(password) else Find(table, s)
  {
    if table != [] {
      assert Update(table, ssid, password)[1..] == Update(table[1..], ssid, password);
      UpdateFind(table[1..], ssid, password, s);
    }
  }

  /** `choices.get(ssid, "skip")`. */
  function ChoiceFor(choices: map<string, string>, ssid: string): string {
    if ssid in choices then choices[ssid] else Skip
  }

  /** The rows after resolving each duplicate in order: replaced when its choice is "replace", kept otherwise. */
  function ApplyChoices(table: seq<Profile>, dups: seq<Profile>, choices: map<string, string>): seq<Profile> {
    if dups == [] then table
    else
      var t := ApplyChoices(table, dups[..|dups| - 1], choices);
      var d := dups[|dups| - 1];
      if ChoiceFor(choices, d.ssid) == Replace then Update(t, d.ssid, d.password) else t
  }

  /** The password of the last pair of the list with this SSID. */
  function LastPassword(ps: seq<Profile>, ssid: string): Option<string> {
    if ps == [] then None
    else if ps[|ps| - 1].ssid == ssid then Some(ps[|ps| - 1].password)
    else LastPassword(ps[..|ps| - 1], ssid)
  }

  /**
    Resolving duplicates keeps the SSID column as it is; a stored SSID whose choice
    is "replace" ends with the password of its last duplicate, any other keeps its
    password.
   */
  lemma {:induction false} ApplyChoicesFind(table: seq<Profile>, dups: seq<Profile>, choices: map<string, string>, s: string)
    ensures |ApplyChoices(table, dups, choices)| == |table|
    ensures forall i | 0 <= i < |table| :: ApplyChoices(table, dups, choices)[i].ssid == table[i].ssid
    ensures Find(ApplyChoices(table, dups, choices), s)
         == if Find(table, s).Some? && ChoiceFor(choices, s) == Replace && LastPassword(dups, s).Some?
            then LastPassword(dups, s) else Find(table, s)
  {
    if dups != [] {
      var init := dups[..|dups| - 1];
      var d := dups[|dups| - 1];
      var t := ApplyChoices(table, init, choices);
      ApplyChoicesFind(table, init, choices, s);
      if ChoiceFor(choices, d.ssid) == Replace {
        UpdateFind(t, d.ssid, d.password, s);
      }
    }
  }

  /** `DELETE FROM profiles WHERE ssid = ?`. */
  function Remove(table: seq<Profile>, ssid: string): seq<Profile> {
    if table == [] then []
    else (if table[0].ssid == ssid then [] else [table[0]]) + Remove(table[1..], ssid)
  }

  /** A delete drops exactly the rows of that SSID. */
  lemma {:induction false} RemoveRows(table: seq<Profile>, ssid: string, p: Profile)
    ensures p in Remove(table, ssid) <==> p in table && p.ssid != ssid
  {
    if table != [] {
      RemoveRows(table[1..], ssid, p);
      assert table == [table[0]] + table[1..];
    }
  }

  /** A delete keeps the primary key, and afterwards the SSID is absent while every other lookup is unchanged. */
  lemma {:induction false} RemoveFind(table: seq<Profile>, ssid: string, s: string)
    requires DistinctSsids(table)
    ensures DistinctSsids(Remove(table, ssid))
    ensures Find(Remove(table, ssid), s) == if s == ssid then None else Find(table, s)
  {
    if table != [] {
      RemoveFind(table[1..], ssid, s);
      var rest := Remove(table[1..], ssid);
      if table[0].ssid != ssid {
        forall p | p in rest ensures p.ssid != table[0].ssid {
          RemoveRows(table[1..], ssid, p);
        }
        ConsDistinct(table[0], rest);
        FindCons(table[0], rest, s);
      } else {
        assert Remove(table, ssid) == [] + rest;
        assert [] + rest == rest;
      }
    }
  }

  /** A lookup in a table with one more row at the front. */
  lemma FindCons(p: Profile, rest: seq<Profile>, s: string)
    ensures Find([p] + rest, s) == if p.ssid == s then Some(p.password) else Find(rest, s)
  {
    assert ([p] + rest)[1..] == rest;
  }

  /** A row in front of rows with other SSIDs keeps the primary key. */
  lemma ConsDistinct(p: Profile, rest: seq<Profile>)
    requires DistinctSsids(rest)
    requires forall q | q in rest :: q.ssid != p.ssid
    ensures DistinctSsids([p] + rest)
  {
    var r := [p] + rest;
    forall i, j | 0 <= i < j < |r| ensures r[i].ssid != r[j].ssid {
      assert r[j] == rest[j - 1];
      if i > 0 { assert r[i] == rest[i - 1]; }
    }
  }

  /** The effect of the duplicate dialog: cancelling keeps the rows, confirming applies the user's choices. */
  function Resolved(table: seq<Profile>, dups: seq<Profile>, answer: DuplicateAnswer): seq<Profile> {
    match answer
    case Cancel => table
    case Confirm(clicks) => ApplyChoices(table, dups, AfterClicks(InitialChoices(dups), dups, clicks))
  }

  /** The rows after a batch: new pairs inserted first, then the duplicates resolved through the dialog. */
  function Collected(table: seq<Profile>, ps: seq<Profile>, answer: DuplicateAnswer): seq<Profile> {
    var inserted := InsertAll(table, NewProfiles(table, ps));
    var dups := Duplicates(table, ps);
    if dups == [] then inserted else Resolved(inserted, dups, answer)
  }

  /** Resolving duplicates keeps the primary key. */
  lemma ApplyChoicesDistinct(table: seq<Profile>, dups: seq<Profile>, choices: map<string, string>)
    requires DistinctSsids(table)
    ensures DistinctSsids(ApplyChoices(table, dups, choices))
  {
    ApplyChoicesFind(table, dups, choices, "");
  }

  /** A batch keeps the primary key, whatever the user does with the dialog. */
  lemma CollectedDistinct(table: seq<Profile>, ps: seq<Profile>, answer: DuplicateAnswer)
    requires DistinctSsids(table)
    ensures DistinctSsids(Collected(table, ps, answer))
  {
    var inserted := InsertAll(table, NewProfiles(table, ps));
    InsertAllFind(table, NewProfiles(table, ps), "");
    if answer.Confirm? {
      var dups := Duplicates(table, ps);
      ApplyChoicesDistinct(inserted, dups, AfterClicks(InitialChoices(dups), dups, answer.clicks));
    }
  }

  /** After a batch, an SSID the table did not hold has the password of its first pair in the batch, if any. */
  lemma CollectedFindNew(table: seq<Profile>, ps: seq<Profile>, answer: DuplicateAnswer, s: string)
    requires DistinctSsids(table) && Find(table, s).None?
    ensures Find(Collected(table, ps, answer), s) == FirstPassword(ps, s)
  {
    var newOnes := NewProfiles(table, ps);
    var inserted := InsertAll(table, newOnes);
    var dups := Duplicates(table, ps);
    InsertAllFind(table, newOnes, s);
    FirstPasswordNew(table, ps, s);
    if dups != [] && answer.Confirm? {
      var choices := AfterClicks(InitialChoices(dups), dups, answer.clicks);
      ApplyChoicesFind(inserted, dups, choices, s);
      forall k | 0 <= k < |dups| ensures dups[k].ssid != s {
        Classification(table, ps, dups[k]);
      }
      LastPasswordAbsent(dups, s);
    }
  }

  /**
    After a batch, an SSID the table held keeps its password unless the user
    confirmed the dialog with its choice on "replace": then it has the password of
    its last duplicate.
   */
  lemma CollectedFindStored(table: seq<Profile>, ps: seq<Profile>, answer: DuplicateAnswer, s: string)
    requires DistinctSsids(table) && Find(table, s).Some?
    ensures Find(Collected(table, ps, answer), s)
         == var dups := Duplicates(table, ps);
            if answer.Confirm? && ChoiceFor(AfterClicks(InitialChoices(dups), dups, answer.clicks), s) == Replace
            then LastPassword(dups, s) else Find(table, s)
  {
    var newOnes := NewProfiles(table, ps);
    var inserted := InsertAll(table, newOnes);
    var dups := Duplicates(table, ps);
    InsertAllFind(table, newOnes, s);
    if answer.Confirm? {
      var choices := AfterClicks(InitialChoices(dups), dups, answer.clicks);
      if s in SsidSet(dups) {
        var k :| 0 <= k < |dups| && dups[k].ssid == s;
        LastPasswordPresent(dups, k);
      } else {
        ChoiceSkipOutside(dups, answer.clicks, s);
      }
      if dups != [] {
        ApplyChoicesFind(inserted, dups, choices, s);
      }
    }
  }

  /** `LastPassword` finds nothing when no pair has the SSID. */
  lemma {:induction false} LastPasswordAbsent(ps: seq<Profile>, s: string)
    requires forall k | 0 <= k < |ps| :: ps[k].ssid != s
    ensures LastPassword(ps, s).None?
  {
    if ps != [] {
      LastPasswordAbsent(ps[..|ps| - 1], s);
    }
  }

  /** `LastPassword` finds a password when a pair has the SSID. */
  lemma {:induction false} LastPasswordPresent(ps: seq<Profile>, k: nat)
    requires k < |ps|
    ensures LastPassword(ps, ps[k].ssid).Some?
  {
    if k < |ps| - 1 {
      LastPasswordPresent(ps[..|ps| - 1], k);
    }
  }

  /** A new SSID's first password is the same whether taken from the batch or from its new pairs. */
  lemma {:induction false} FirstPasswordNew(table: seq<Profile>, ps: seq<Profile>, s: string)
    requires Find(table, s).None?
    ensures FirstPassword(NewProfiles(table, ps), s) == FirstPassword(ps, s)
  {
    if ps != [] {
      var init := ps[..|ps| - 1];
      var p := ps[|ps| - 1];
      FirstPasswordNew(table, init, s);
      if Find(table, p.ssid).None? {
        FirstPasswordSnoc(NewProfiles(table, init), p, s);
      } else {
        assert NewProfiles(table, init) + [] == NewProfiles(table, init);
        assert NewProfiles(table, ps) == NewProfiles(table, init);
        assert p.ssid != s;
      }
    }
  }

  /** `FirstPassword` of a list with one more pair at the end. */
  lemma FirstPasswordSnoc(ps: seq<Profile>, p: Profile, s: string)
    ensures FirstPassword(ps + [p], s)
         == if FirstPassword(ps, s).Some? then FirstPassword(ps, s)
            else if p.ssid == s then Some(p.password) else None
  {
    assert (ps + [p])[..|ps|] == ps;
  }

  /** An SSID no row shows is never given "replace" by the dialog. */
  lemma ChoiceSkipOutside(dups: seq<Profile>, clicks: seq<Click>, s: string)
    requires s !in SsidSet(dups)
    ensures ChoiceFor(AfterClicks(InitialChoices(dups), dups, clicks), s) == Skip
  {
    InitialChoicesShape(dups);
    AfterClicksShape(InitialChoices(dups), dups, clicks);
  }

  class WifiProfilesModel {
    /** Whether the database connection opened. */
    const conn: bool
    var table: seq<Profile>

    ghost predicate Valid()
      reads this
    {
      DistinctSsids(table)
    }

    /** Opens the store on the rows the database file already holds. */
    constructor (connected: bool, stored: seq<Profile>)
      requires DistinctSsids(stored)
      ensures conn == connected && table == stored && Valid()
    {
      conn := connected;
      table := stored;
    }

    /** Saves one profile; fails without a connection and when the SSID is already stored. */
    method SaveProfile(ssid: string, password: string) returns (ok: bool)
      requires Valid()
      modifies this
      ensures Valid()
      ensures ok <==> conn && Find(old(table), ssid).None?
      ensures table == if ok then old(table) + [Profile(ssid, password)] else old(table)
    {
      if !conn {
        return false;
      }
      if Find(table, ssid).Some? {
        return false;
      }
      table := table + [Profile(ssid, password)];
      return true;
    }

    /**
      Stores a batch: classifies every pair against the rows as they were, inserts
      the new ones, then lets the user resolve the duplicates. Succeeds whenever
      the connection is open, also when the user cancels the dialog.
     */
    method CollectDuplicateProfiles(profiles: seq<Profile>, answer: DuplicateAnswer) returns (ok: bool)
      requires Valid()
      modifies this
      ensures Valid()
      ensures ok == conn
      ensures table == if conn then Collected(old(table), profiles, answer) else old(table)
    {
      if !conn {
        return false;
      }
      var newOnes, dups := Classify(profiles);
      ghost var t0 := table;
      var j := 0;
      while j < |newOnes|
        invariant j <= |newOnes|
        invariant table == InsertAll(t0, newOnes[..j])
        invariant Valid()
      {
        InsertAllStep(t0, newOnes, j);
        var _ := SaveProfile(newOnes[j].ssid, newOnes[j].password);
        j := j + 1;
      }
      assert newOnes[..j] == newOnes;
      if dups != [] {
        var _ := HandleDuplicateProfiles(dups, answer);
      }
      return true;
    }

    /** The classification loop: each pair is looked up in the rows as they are before any insert. */
    method Classify(profiles: seq<Profile>) returns (newOnes: seq<Profile>, dups: seq<Profile>)
      ensures newOnes == NewProfiles(table, profiles)
      ensures dups == Duplicates(table, profiles)
    {
      dups := [];
      newOnes := [];
      var i := 0;
      while i < |profiles|
        invariant i <= |profiles|
        invariant dups == Duplicates(table, profiles[..i])
        invariant newOnes == NewProfiles(table, profiles[..i])
      {
        var ssid := profiles[i].ssid;
        var password := profiles[i].password;
        var existing := Find(table, ssid);
        if existing.Some? {
          if existing.value != password {
            dups := dups + [profiles[i]];
          }
        } else {
          newOnes := newOnes + [profiles[i]];
        }
        assert profiles[..i + 1][..i] == profiles[..i];
        i := i + 1;
      }
      assert profiles[..i] == profiles;
    }

    /** Shows the duplicate dialog and applies its choices; a cancelled dialog changes nothing. */
    method HandleDuplicateProfiles(dups: seq<Profile>, answer: DuplicateAnswer) returns (ok: bool)
      requires Valid()
      modifies this
      ensures Valid()
      ensures ok <==> dups == [] || answer.Confirm?
      ensures table == if dups == [] then old(table) else Resolved(old(table), dups, answer)
    {
      if dups == [] {
        return true;
      }
      var dialog := new DuplicateProfilesDialog(dups);
      match answer {
        case Cancel =>
          return false;
        case Confirm(clicks) =>
          var k := 0;
          while k < |clicks|
            invariant k <= |clicks|
            invariant table == old(table)
            invariant dialog.Valid() && dialog.rowCount == |dups| && dialog.profiles == dups
            invariant dialog.choices == AfterClicks(InitialChoices(dups), dups, clicks[..k])
          {
            var c := clicks[k];
            AfterClicksSnoc(InitialChoices(dups), dups, clicks[..k], c);
            if c.row < dialog.rowCount {
              dialog.UpdateChoice(dups[c.row].ssid, c.radio.Text());
            }
            assert clicks[..k + 1] == clicks[..k] + [c];
            k := k + 1;
          }
          assert clicks[..k] == clicks;
          var choices := dialog.GetChoices();
          ghost var t0 := table;
          var n := 0;
          while n < |dups|
            invariant n <= |dups|
            invariant table == ApplyChoices(t0, dups[..n], choices)
            invariant Valid()
          {
            var choice := ChoiceFor(choices, dups[n].ssid);
            ghost var before := table;
            if choice == Replace {
              table := Update(table, dups[n].ssid, dups[n].password);
            } else if choice == Skip {
            }
            assert dups[..n + 1][..n] == dups[..n];
            assert DistinctSsids(table) by {
              forall a, b | 0 <= a < b < |table| ensures table[a].ssid != table[b].ssid {
                assert table[a].ssid == before[a].ssid && table[b].ssid == before[b].ssid;
              }
            }
            n := n + 1;
          }
          assert dups[..n] == dups;
          return true;
      }
    }

    /** `SELECT ssid, password FROM profiles`: every row, or none without a connection. */
    function GetAllProfilesDetails(): (r: seq<Profile>)
      reads this
      ensures Valid() ==> DistinctSsids(r)
      ensures !conn ==> r == []
    {
      if conn then table else []
    }

    /** The stored password of an SSID, or `None` when it is absent or there is no connection. */
    function GetPassword(ssid: string): (r: Option<string>)
      reads this
      ensures Valid() ==> forall pw :: r == Some(pw) <==> Profile(ssid, pw) in GetAllProfilesDetails()
    {
      if conn then
        var r := Find(table, ssid);
        assert Valid() ==> forall pw :: r == Some(pw) <==> Profile(ssid, pw) in table by {
          if Valid() {
            forall pw ensures r == Some(pw) <==> Profile(ssid, pw) in table {
              FindListed(table, ssid, pw);
            }
          }
        }
        r
      else None
    }

    /** Deletes the row of an SSID: succeeds iff it was stored, and removes nothing else. */
    method DeleteProfile(ssid: string) returns (ok: bool)
      requires Valid()
      modifies this
      ensures Valid()
      ensures ok <==> conn && Find(old(table), ssid).Some?
      ensures table == if ok then Remove(old(table), ssid) else old(table)
    {
      if !conn {
        return false;
      }
      if Find(table, ssid).None? {
        return false;
      }
      RemoveFind(table, ssid, ssid);
      table := Remove(table, ssid);
      return true;
    }
  }
}
