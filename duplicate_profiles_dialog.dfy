/**
  The duplicate-profiles dialog: one table row per duplicate `(ssid, password)`
  pair, each row with a "Replace" and a "Skip" radio button, and a `choices`
  map from SSID to "replace" or "skip" that the radio buttons update.
 */
module DuplicateProfiles {
  import opened Wrappers
  import opened Profiles

  const Replace: string := "replace"
  const Skip: string := "skip"

  /** The two radio buttons of a row, with the text they display. */
  datatype Radio = ReplaceRadio | SkipRadio {
    function Text(): string {
      match this
      case ReplaceRadio => "Replace"
      case SkipRadio => "Skip"
    }
  }

  /** The user clicking one of the radio buttons of a table row. */
  datatype Click = Click(row: nat, radio: Radio)

  /** How the user leaves the dialog: "Cancel", or "Confirm" after clicking radio buttons. */
  datatype DuplicateAnswer = Cancel | Confirm(clicks: seq<Click>)

  /** Every value of the map is "replace" or "skip". */
  predicate WellFormedChoices(choices: map<string, string>) {
    forall s | s in choices :: choices[s] == Replace || choices[s] == Skip
  }

  /** The choice a button text selects: "replace" for the "Replace" button, "skip" for any other. */
  function ChoiceOfText(text: string): (c: string)
    ensures c == Replace <==> text == "Replace"
    ensures c == Replace || c == Skip
  {
    if text == "Replace" then Replace else Skip
  }

  /** The choices right after the table is loaded: every listed SSID on "replace". */
  function InitialChoices(ps: seq<Profile>): map<string, string> {
    map s | s in SsidSet(ps) :: Replace
  }

  /** The choices after a series of clicks; a click on a row that does not exist changes nothing. */
  function AfterClicks(choices: map<string, string>, ps: seq<Profile>, clicks: seq<Click>): map<string, string>
    decreases |clicks|
  {
    if clicks == [] then choices
    else
      var c := clicks[0];
      var next := if c.row < |ps| then choices[ps[c.row].ssid := ChoiceOfText(c.radio.Text())] else choices;
      AfterClicks(next, ps, clicks[1..])
  }

  /** The radio button of the last click on a row showing `ssid`, if any. */
  function LastClick(ps: seq<Profile>, clicks: seq<Click>, ssid: string): Option<Radio> {
    if clicks == [] then None
    else
      var c := clicks[|clicks| - 1];
      if c.row < |ps| && ps[c.row].ssid == ssid then Some(c.radio)
      else LastClick(ps, clicks[..|clicks| - 1], ssid)
  }

  class DuplicateProfilesDialog {
    const profiles: seq<Profile>
    var rowCount: nat
    var choices: map<string, string>

    ghost predicate Valid()
      reads this
    {
      WellFormedChoices(choices)
    }

    /** Builds the table: one row per pair, and one "replace" entry per SSID. */
    constructor (duplicates: seq<Profile>)
      ensures profiles == duplicates && rowCount == |duplicates|
      ensures choices == InitialChoices(duplicates)
      ensures Valid()
    {
      var c: map<string, string> := map[];
      var row := 0;
      while row < |duplicates|
        invariant row <= |duplicates|
        invariant c == InitialChoices(duplicates[..row])
      {
        assert SsidSet(duplicates[..row + 1]) == SsidSet(duplicates[..row]) + {duplicates[row].ssid} by {
          assert forall i | 0 <= i < row :: duplicates[..row + 1][i] == duplicates[..row][i];
          assert duplicates[..row + 1][row] == duplicates[row];
        }
        c := c[duplicates[row].ssid := Replace];
        row := row + 1;
      }
      assert duplicates[..row] == duplicates;
      profiles := duplicates;
      rowCount := |duplicates|;
      choices := c;
    }

    /** A radio button of the row for `ssid` was clicked: "replace" iff its text is "Replace". */
    method UpdateChoice(ssid: string, text: string)
      requires Valid()
      modifies this
      ensures Valid()
      ensures choices == old(choices)[ssid := ChoiceOfText(text)]
      ensures rowCount == old(rowCount)
    {
      if text == "Replace" {
        choices := choices[ssid := Replace];
      } else {
        choices := choices[ssid := Skip];
      }
    }

    /** The user's choice per SSID. */
    function GetChoices(): (c: map<string, string>)
      requires Valid()
      reads this
      ensures WellFormedChoices(c)
    {
      choices
    }
  }

  /** The table has one row per pair while the choices have one key per distinct SSID, and all start on "replace". */
  lemma InitialChoicesShape(ps: seq<Profile>)
    ensures InitialChoices(ps).Keys == SsidSet(ps)
    ensures |InitialChoices(ps).Keys| <= |ps|
    ensures |InitialChoices(ps).Keys| == |ps| <==> DistinctSsids(ps)
    ensures forall s | s in InitialChoices(ps) :: InitialChoices(ps)[s] == Replace
  {
    SsidSetSize(ps);
  }

  /** Clicks keep the keys and keep every value "replace" or "skip". */
  lemma {:induction false} AfterClicksShape(choices: map<string, string>, ps: seq<Profile>, clicks: seq<Click>)
    requires WellFormedChoices(choices) && SsidSet(ps) <= choices.Keys
    ensures WellFormedChoices(AfterClicks(choices, ps, clicks))
    ensures AfterClicks(choices, ps, clicks).Keys == choices.Keys
  {
    if clicks != [] {
      var c := clicks[0];
      if c.row < |ps| {
        assert ps[c.row].ssid in SsidSet(ps);
      }
      AfterClicksShape(if c.row < |ps| then choices[ps[c.row].ssid := ChoiceOfText(c.radio.Text())] else choices,
                       ps, clicks[1..]);
    }
  }

  /** The choice for an SSID is set by the last click on one of its rows; without one it stays as it was. */
  lemma {:induction false} AfterClicksValue(choices: map<string, string>, ps: seq<Profile>, clicks: seq<Click>, ssid: string)
    requires ssid in choices
    ensures ssid in AfterClicks(choices, ps, clicks)
    ensures AfterClicks(choices, ps, clicks)[ssid]
         == match LastClick(ps, clicks, ssid)
            case Some(r) => ChoiceOfText(r.Text())
            case None => choices[ssid]
    decreases |clicks|
  {
    if clicks != [] {
      var init := clicks[..|clicks| - 1];
      var c := clicks[|clicks| - 1];
      assert clicks == init + [c];
      AfterClicksSnoc(choices, ps, init, c);
      AfterClicksValue(choices, ps, init, ssid);
    }
  }

  /** `AfterClicks` applied to one more click at the end. */
  lemma {:induction false} AfterClicksSnoc(choices: map<string, string>, ps: seq<Profile>, clicks: seq<Click>, c: Click)
    ensures AfterClicks(choices, ps, clicks + [c])
         == var m := AfterClicks(choices, ps, clicks);
            if c.row < |ps| then m[ps[c.row].ssid := ChoiceOfText(c.radio.Text())] else m
    decreases |clicks|
  {
    if clicks == [] {
      assert [c][1..] == [];
    } else {
      var next := if clicks[0].row < |ps| then choices[ps[clicks[0].row].ssid := ChoiceOfText(clicks[0].radio.Text())] else choices;
      assert (clicks + [c])[0] == clicks[0];
      assert (clicks + [c])[1..] == clicks[1..] + [c];
      AfterClicksSnoc(next, ps, clicks[1..], c);
    }
  }
}
