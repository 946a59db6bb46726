/**
  The regular expression `<key>\s*:\s*(.+)` that the network manager runs over
  `netsh` output, with Python `re` semantics: `\s` is `Text.IsSpace`, `.` is any
  character but '\n', both quantifiers are greedy and backtrack.

  `MatchAt` matches at the start of a text, `Search` is `re.search(...).group(1)`
  and `FindAll` is `re.findall(...)` (the list of captured groups).
 */
module FieldPattern {
  import opened Wrappers
  import opened Text

  /** Length of the greedy `\s*` run at the start of `s`. */
  function SpaceRun(s: string): (n: nat)
    ensures n <= |s|
  {
    if s != [] && IsSpace(s[0]) then 1 + SpaceRun(s[1..]) else 0
  }

  /** The whitespace run covers only whitespace and stops at the first other character. */
  lemma {:induction false} SpaceRunStops(s: string)
    ensures AllSpace(s[..SpaceRun(s)])
    ensures SpaceRun(s) < |s| ==> !IsSpace(s[SpaceRun(s)])
  {
    if s != [] && IsSpace(s[0]) {
      SpaceRunStops(s[1..]);
      assert s[..SpaceRun(s)] == [s[0]] + s[1..][..SpaceRun(s[1..])];
    }
  }

  /** Length of the greedy `.*` run at the start of `s`: everything up to the first '\n'. */
  function LineRun(s: string): (n: nat)
    ensures n <= |s|
  {
    if s != [] && s[0] != '\n' then 1 + LineRun(s[1..]) else 0
  }

  /** The line run holds no line break and stops at the first one. */
  lemma {:induction false} LineRunStops(s: string)
    ensures '\n' !in s[..LineRun(s)]
    ensures LineRun(s) < |s| ==> s[LineRun(s)] == '\n'
  {
    if s != [] && s[0] != '\n' {
      LineRunStops(s[1..]);
      assert s[..LineRun(s)] == [s[0]] + s[1..][..LineRun(s[1..])];
    }
  }

  /** A successful match: the captured group and where the match ends. */
  datatype Match = Match(group: string, end: nat)

  /**
    The match of `\s*(.+)` at the start of `t`, the text after the colon. Over
    leading whitespace the greedy `\s*` goes on and the match is that of the rest;
    only when the rest has none does backtracking make the whitespace character
    itself the group, unless it is a line break. At the first other character the
    group is the rest of its line.
   */
  function GroupAt(t: string): (m: Option<Match>)
    ensures m.Some? ==> 0 < m.value.end <= |t| && |m.value.group| <= m.value.end
    ensures m.Some? ==> m.value.group != [] && '\n' !in m.value.group
  {
    if t == [] then None
    else if !IsSpace(t[0]) then
      var e := LineRun(t);
      LineRunStops(t);
      Some(Match(t[..e], e))
    else
      match GroupAt(t[1..])
      case Some(g) => Some(Match(g.group, 1 + g.end))
      case None => if t[0] != '\n' then Some(Match([t[0]], 1)) else None
  }

  /**
    After a colon followed only by whitespace, backtracking makes the group the
    last character that is not a line break, and nothing matches when every
    character is a line break.
   */
  lemma {:induction false} GroupOfBlank(t: string)
    requires AllSpace(t)
    ensures GroupAt(t).None? <==> forall k :: 0 <= k < |t| ==> t[k] == '\n'
    ensures GroupAt(t).Some? ==>
              var m := GroupAt(t).value;
              m.group == [t[m.end - 1]] && forall k :: m.end <= k < |t| ==> t[k] == '\n'
  {
    if t != [] {
      assert IsSpace(t[0]);
      var u := t[1..];
      assert AllSpace(u) by {
        forall k | 0 <= k < |u| ensures IsSpace(u[k]) { assert u[k] == t[k + 1]; }
      }
      GroupOfBlank(u);
      forall k | 0 < k < |t| ensures t[k] == u[k - 1] { }
    }
  }

  /** The match of `<key>\s*:\s*(.+)` at the start of `s`. */
  function MatchAt(key: string, s: string): (m: Option<Match>)
    ensures m.Some? ==> key <= s && |key| < m.value.end <= |s| && |m.value.group| <= m.value.end
    ensures m.Some? ==> m.value.group != [] && '\n' !in m.value.group
  {
    if !(key <= s) then None else ColonAt(s, |key| + SpaceRun(s[|key|..]))
  }

  /** The match of `:\s*(.+)` at position `j` of `s`, reported in positions of `s`. */
  function ColonAt(s: string, j: nat): (m: Option<Match>)
    requires j <= |s|
    ensures m.Some? ==> j < m.value.end <= |s| && |m.value.group| <= m.value.end
    ensures m.Some? ==> m.value.group != [] && '\n' !in m.value.group
  {
    if j == |s| || s[j] != ':' then None
    else
      match GroupAt(s[j + 1..])
      case Some(g) => Some(Match(g.group, j + 1 + g.end))
      case None => None
  }

  /** `re.search(pattern, s).group(1)`, or `None` when nothing matches. */
  function Search(key: string, s: string): (r: Option<string>)
    ensures r.Some? ==> r.value != [] && '\n' !in r.value
    decreases |s|
  {
    match MatchAt(key, s)
    case Some(m) => Some(m.group)
    case None => if s == [] then None else Search(key, s[1..])
  }

  /** `re.findall(pattern, s)`: the groups of the successive non-overlapping matches. */
  function FindAll(key: string, s: string): (r: seq<string>)
    ensures forall k :: 0 <= k < |r| ==> r[k] != [] && '\n' !in r[k]
    decreases |s|
  {
    match MatchAt(key, s)
    case Some(m) => [m.group] + FindAll(key, s[m.end..])
    case None => if s == [] then [] else FindAll(key, s[1..])
  }

  /** The value of a field line is well formed when it is one non-empty line not starting with whitespace. */
  predicate WellFormedValue(value: string) {
    value != [] && !IsSpace(value[0]) && '\n' !in value
  }

  /** One `netsh`-style line: `<key><padding>: <value>`. */
  function FieldLine(key: string, pad: string, value: string): string {
    key + pad + ": " + value
  }

  /** A greedy whitespace run stops at the first character that is not whitespace. */
  lemma {:induction false} SpaceRunOver(pad: string, t: string)
    requires AllSpace(pad)
    requires t != [] && !IsSpace(t[0])
    ensures SpaceRun(pad + t) == |pad|
  {
    if pad != [] {
      assert (pad + t)[1..] == pad[1..] + t;
      SpaceRunOver(pad[1..], t);
    } else {
      assert pad + t == t;
    }
  }

  /** A line run stops at the first line break. */
  lemma {:induction false} LineRunOver(line: string, rest: string)
    requires '\n' !in line
    ensures LineRun(line + "\n" + rest) == |line|
  {
    if line != [] {
      assert (line + "\n" + rest)[1..] == line[1..] + "\n" + rest;
      LineRunOver(line[1..], rest);
    } else {
      assert line + "\n" + rest == "\n" + rest;
    }
  }

  /** After the colon, one space and a well-formed value: the group is the value. */
  lemma GroupOfValue(value: string, rest: string)
    requires WellFormedValue(value)
    ensures GroupAt(" " + value + "\n" + rest) == Some(Match(value, 1 + |value|))
  {
    var t := " " + value + "\n" + rest;
    var u := value + "\n" + rest;
    assert t[1..] == u && u[0] == value[0];
    LineRunOver(value, rest);
    assert u[..|value|] == value;
  }

  /** In a field line the colon follows the key and its padding, and one space and the value follow the colon. */
  lemma ColonOfFieldLine(key: string, pad: string, value: string, rest: string, s: string)
    requires AllSpace(pad) && s == FieldLine(key, pad, value) + "\n" + rest
    ensures key <= s && |key| + |pad| < |s|
    ensures SpaceRun(s[|key|..]) == |pad| && s[|key| + |pad|] == ':'
    ensures s[|key| + |pad| + 1..] == " " + value + "\n" + rest
  {
    var tail := " " + value + "\n" + rest;
    var after := [':'] + tail;
    assert s == key + (pad + after);
    assert s[|key|..] == pad + after;
    SpaceRunOver(pad, after);
    assert s[|key| + |pad|..] == after;
  }

  /** A field line followed by a line break matches with its value as the group. */
  lemma MatchFieldLine(key: string, pad: string, value: string, rest: string)
    requires AllSpace(pad) && WellFormedValue(value)
    ensures MatchAt(key, FieldLine(key, pad, value) + "\n" + rest)
         == Some(Match(value, |key| + |pad| + 2 + |value|))
  {
    var s := FieldLine(key, pad, value) + "\n" + rest;
    ColonOfFieldLine(key, pad, value, rest, s);
    GroupOfValue(value, rest);
    MatchAtColon(key, |pad|, value, s);
  }

  /** How `MatchAt` is assembled from the key, the whitespace before the colon and the group after it. */
  lemma MatchAtColon(key: string, n: nat, value: string, s: string)
    requires key <= s && |key| + n < |s|
    requires SpaceRun(s[|key|..]) == n && s[|key| + n] == ':'
    requires GroupAt(s[|key| + n + 1..]) == Some(Match(value, 1 + |value|))
    ensures MatchAt(key, s) == Some(Match(value, |key| + n + 2 + |value|))
  {
    MatchAtKey(key, s, n);
    ColonAtGroup(s, |key| + n, value);
  }

  /** After the key and its whitespace, `MatchAt` is the match at the colon position. */
  lemma MatchAtKey(key: string, s: string, n: nat)
    requires key <= s && SpaceRun(s[|key|..]) == n
    ensures |key| + n <= |s| && MatchAt(key, s) == ColonAt(s, |key| + n)
  {
  }

  /** A colon at `j` followed by a group makes a match that ends after the group. */
  lemma ColonAtGroup(s: string, j: nat, value: string)
    requires j < |s| && s[j] == ':'
    requires GroupAt(s[j + 1..]) == Some(Match(value, 1 + |value|))
    ensures ColonAt(s, j) == Some(Match(value, j + 2 + |value|))
  {
  }

  /** Text none of whose characters can start the key is skipped by `FindAll`. */
  lemma {:induction false} FindAllSkip(key: string, junk: string, rest: string)
    requires key != [] && key[0] !in junk
    ensures FindAll(key, junk + rest) == FindAll(key, rest)
  {
    if junk != [] {
      var s := junk + rest;
      assert s[0] == junk[0];
      assert MatchAt(key, s).None?;
      assert s[1..] == junk[1..] + rest;
      FindAllSkip(key, junk[1..], rest);
    } else {
      assert junk + rest == rest;
    }
  }

  /** Text none of whose characters can start the key is skipped by `Search`. */
  lemma {:induction false} SearchSkip(key: string, junk: string, rest: string)
    requires key != [] && key[0] !in junk
    ensures Search(key, junk + rest) == Search(key, rest)
  {
    if junk != [] {
      var s := junk + rest;
      assert s[0] == junk[0];
      assert MatchAt(key, s).None?;
      assert s[1..] == junk[1..] + rest;
      SearchSkip(key, junk[1..], rest);
    } else {
      assert junk + rest == rest;
    }
  }

  /** The key occurs in `junk` followed by the key only as that final key. */
  predicate KeyFreeBefore(key: string, junk: string) {
    forall i | 0 <= i < |junk| :: !(key <= (junk + key)[i..])
  }

  /** Text none of whose characters can start the key holds no occurrence of it. */
  lemma KeyFreeOfFirst(key: string, junk: string)
    requires key != [] && key[0] !in junk
    ensures KeyFreeBefore(key, junk)
  {
    forall i | 0 <= i < |junk| ensures !(key <= (junk + key)[i..]) {
      assert (junk + key)[i..][0] == junk[i];
    }
  }

  /** A text where every character that could start the key is followed by one that cannot continue it. */
  lemma KeyFreeOfPairs(key: string, junk: string)
    requires |key| >= 2
    requires forall i | 0 <= i < |junk| :: junk[i] != key[0] || (i + 1 < |junk| && junk[i + 1] != key[1])
    ensures KeyFreeBefore(key, junk)
  {
    forall i | 0 <= i < |junk| ensures !(key <= (junk + key)[i..]) {
      assert (junk + key)[i..][0] == junk[i];
      if i + 1 < |junk| {
        assert (junk + key)[i..][1] == junk[i + 1];
      }
    }
  }

  /** Before text that starts with the key, what follows `junk` matters only through the key. */
  lemma KeyPrefixAgrees(key: string, junk: string, rest: string)
    requires key <= rest
    ensures key <= junk + key <==> key <= junk + rest
  {
    assert (junk + key)[..|key|] == (junk + rest)[..|key|] by {
      forall j | 0 <= j < |key| ensures (junk + key)[j] == (junk + rest)[j] {
        if j >= |junk| {
          assert rest[j - |junk|] == key[j - |junk|];
        }
      }
    }
  }

  /** Text in which the key occurs nowhere is skipped by `Search`, up to the key that follows it. */
  lemma {:induction false} SearchSkipTo(key: string, junk: string, rest: string)
    requires key <= rest && KeyFreeBefore(key, junk)
    ensures Search(key, junk + rest) == Search(key, rest)
  {
    if junk != [] {
      var s := junk + rest;
      assert (junk + key)[0..] == junk + key;
      KeyPrefixAgrees(key, junk, rest);
      assert MatchAt(key, s).None?;
      assert s[1..] == junk[1..] + rest;
      forall i | 0 <= i < |junk[1..]| ensures !(key <= (junk[1..] + key)[i..]) {
        assert (junk[1..] + key)[i..] == (junk + key)[i + 1..];
      }
      SearchSkipTo(key, junk[1..], rest);
    } else {
      assert junk + rest == rest;
    }
  }

  /** An indented listing with one field line per value, as `netsh` prints it. */
  function Listing(indent: string, key: string, pad: string, values: seq<string>): string {
    if values == [] then ""
    else indent + FieldLine(key, pad, values[0]) + "\n" + Listing(indent, key, pad, values[1..])
  }

  /** `FindAll` takes the group of a match at the start and goes on after its end. */
  lemma FindAllFirst(key: string, s: string, m: Match)
    requires MatchAt(key, s) == Some(m)
    ensures FindAll(key, s) == [m.group] + FindAll(key, s[m.end..])
  {
  }

  /** `FindAll` over a field line and the text after its line break. */
  lemma FindAllFieldLine(key: string, pad: string, value: string, rest: string)
    requires key != [] && key[0] != '\n'
    requires AllSpace(pad) && WellFormedValue(value)
    ensures FindAll(key, FieldLine(key, pad, value) + "\n" + rest) == [value] + FindAll(key, rest)
  {
    var line := FieldLine(key, pad, value);
    var s := line + "\n" + rest;
    MatchFieldLine(key, pad, value, rest);
    FindAllFirst(key, s, Match(value, |line|));
    assert s[|line|..] == "\n" + rest;
    FindAllSkip(key, "\n", rest);
  }

  /** `FindAll` over a listing returns exactly the listed values, in order. */
  lemma {:induction false} FindAllListing(indent: string, key: string, pad: string, values: seq<string>)
    requires key != [] && key[0] !in indent && key[0] != '\n'
    requires AllSpace(pad)
    requires forall k :: 0 <= k < |values| ==> WellFormedValue(values[k])
    ensures FindAll(key, Listing(indent, key, pad, values)) == values
  {
    if values != [] {
      var rest := Listing(indent, key, pad, values[1..]);
      var s := FieldLine(key, pad, values[0]) + "\n" + rest;
      assert Listing(indent, key, pad, values) == indent + s;
      FindAllSkip(key, indent, s);
      FindAllFieldLine(key, pad, values[0], rest);
      FindAllListing(indent, key, pad, values[1..]);
      assert values == [values[0]] + values[1..];
    }
  }

  /** `Search` finds the value of the first field line, after text in which the key does not occur. */
  lemma SearchFieldLine(key: string, junk: string, pad: string, value: string, rest: string)
    requires key != [] && KeyFreeBefore(key, junk)
    requires AllSpace(pad) && WellFormedValue(value)
    ensures Search(key, junk + FieldLine(key, pad, value) + "\n" + rest) == Some(value)
  {
    var tail := FieldLine(key, pad, value) + "\n" + rest;
    assert junk + FieldLine(key, pad, value) + "\n" + rest == junk + tail;
    assert tail[..|key|] == key;
    SearchSkipTo(key, junk, tail);
    MatchFieldLine(key, pad, value, rest);
  }
}
