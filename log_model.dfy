/**
  The log list model behind the log view: two parallel lists, the messages and
  their levels, that only grow at the end or are cleared together.
 */
module LogModel {
  import opened Text

  /** Qt's `ItemDataRole.DisplayRole`. */
  const DisplayRole: int := 0

  /** A model index: an invalid index, or a valid one at a row. */
  datatype ModelIndex = InvalidIndex | ValidIndex(row: nat)

  /** What `data` hands back: Python's `None`, a message, or an empty `QVariant`. */
  datatype Value = NoValue | Message(text: string) | EmptyVariant

  class LogListModel {
    var logs: seq<string>
    var levels: seq<string>

    /** Each message has its level. */
    ghost predicate Valid()
      reads this
    {
      |logs| == |levels|
    }

    constructor ()
      ensures logs == [] && levels == [] && Valid()
    {
      logs := [];
      levels := [];
    }

    /** The number of rows: one per message. */
    function RowCount(): (n: nat)
      reads this
      ensures n == |logs|
    {
      |logs|
    }

    /** Appends a message and its level at the ends of their lists. */
    method AddLog(message: string, level: string)
      requires Valid()
      modifies this
      ensures Valid()
      ensures logs == old(logs) + [message] && levels == old(levels) + [level]
      ensures RowCount() == old(RowCount()) + 1
    {
      logs := logs + [message];
      levels := levels + [level];
    }

    /** Empties both lists. */
    method Clear()
      modifies this
      ensures Valid() && logs == [] && levels == [] && RowCount() == 0
    {
      logs := [];
      levels := [];
    }

    /** The message of a valid row for the display role, nothing for an invalid or out-of-range row. */
    function Data(index: ModelIndex, role: int): (v: Value)
      reads this
      ensures (index.InvalidIndex? || index.row >= |logs|) <==> v == NoValue
      ensures v.Message? <==> index.ValidIndex? && index.row < |logs| && role == DisplayRole
      ensures v.Message? ==> v.text == logs[index.row]
    {
      if index.InvalidIndex? || index.row >= RowCount() then NoValue
      else if role == DisplayRole then Message(logs[index.row])
      else EmptyVariant
    }

    /** All messages joined by line breaks, in insertion order. */
    function AllLogs(): (s: string)
      reads this
      ensures logs == [] ==> s == ""
    {
      Join(logs, "\n")
    }
  }

  /** The joined log is empty iff there is no message, or a single empty one. */
  lemma {:induction false} JoinEmpty(parts: seq<string>, sep: string)
    requires sep != ""
    ensures Join(parts, sep) == "" <==> parts == [] || parts == [""]
  {
    if |parts| >= 2 {
      assert |Join(parts, sep)| >= |sep|;
    }
  }

  /** Splitting the joined log at line breaks gives back the messages when none of them spans lines. */
  lemma AllLogsLines(m: LogListModel)
    requires m.logs != [] && forall k | 0 <= k < |m.logs| :: '\n' !in m.logs[k]
    ensures Split(m.AllLogs(), '\n') == m.logs
  {
    SplitJoin(m.logs, '\n');
  }
}
