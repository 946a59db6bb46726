/**
  The few Python `str` operations the application relies on, with Python's
  meaning: whitespace as `str.isspace()` (and the `\s` class of a `str` regular
  expression), `strip()`, the `in` substring test, `split(sep)` and
  `sep.join(parts)`.
 */
module Text {

  /** Python's `str.isspace()` for one character: the `\s` class of a `str` pattern. */
  predicate IsSpace(c: char) {
    || ('\t' <= c <= '\r')
    || ('\U{1c}' <= c <= '\U{1f}')
    || c == ' '
    || c == '\U{85}'
    || c == '\U{a0}'
    || c == '\U{1680}'
    || ('\U{2000}' <= c <= '\U{200a}')
    || c == '\U{2028}'
    || c == '\U{2029}'
    || c == '\U{202f}'
    || c == '\U{205f}'
    || c == '\U{3000}'
  }

  /** `s.lstrip()`: drops the leading whitespace. */
  function StripLeft(s: string): (r: string)
    ensures |r| <= |s| && r == s[|s| - |r|..]
    ensures forall k :: 0 <= k < |s| - |r| ==> IsSpace(s[k])
    ensures r != [] ==> !IsSpace(r[0])
  {
    if s != [] && IsSpace(s[0]) then StripLeft(s[1..]) else s
  }

  /** `s.rstrip()`: drops the trailing whitespace. */
  function StripRight(s: string): (r: string)
    ensures |r| <= |s| && r == s[..|r|]
    ensures forall k :: |r| <= k < |s| ==> IsSpace(s[k])
    ensures r != [] ==> !IsSpace(r[|r| - 1])
  {
    if s != [] && IsSpace(s[|s| - 1]) then StripRight(s[..|s| - 1]) else s
  }

  /** `s.strip()`. */
  function Strip(s: string): string {
    StripRight(StripLeft(s))
  }

  /** Stripping adds no character: what `s` lacks, its stripped text lacks too. */
  lemma StripOmits(s: string, c: char)
    requires c !in s
    ensures c !in Strip(s)
  {
    var l := StripLeft(s);
    assert forall k | 0 <= k < |l| :: l[k] == s[|s| - |l| + k];
    var r := StripRight(l);
    assert forall k | 0 <= k < |r| :: r[k] == l[k];
  }

  /** Stripping a text that neither starts nor ends with whitespace leaves it unchanged. */
  lemma StripTrimmed(s: string)
    requires s != [] ==> !IsSpace(s[0]) && !IsSpace(s[|s| - 1])
    ensures Strip(s) == s
  {
  }

  /** Python's `needle in hay` for two strings. */
  predicate Contains(hay: string, needle: string)
    decreases |hay|
  {
    needle <= hay || (hay != [] && Contains(hay[1..], needle))
  }

  /** An occurrence of the needle at position `i` makes `Contains` hold. */
  lemma {:induction false} ContainsAt(hay: string, needle: string, i: nat)
    requires i <= |hay| && needle <= hay[i..]
    ensures Contains(hay, needle)
    decreases i
  {
    if i > 0 {
      assert hay[1..][i - 1..] == hay[i..];
      ContainsAt(hay[1..], needle, i - 1);
    }
  }

  /** When `Contains` holds, the needle occurs at some position. */
  lemma {:induction false} ContainsIndex(hay: string, needle: string) returns (i: nat)
    requires Contains(hay, needle)
    ensures i <= |hay| && needle <= hay[i..]
    decreases |hay|
  {
    if needle <= hay {
      i := 0;
    } else {
      var j := ContainsIndex(hay[1..], needle);
      assert hay[1..][j..] == hay[j + 1..];
      i := j + 1;
    }
  }

  /** The ASCII part of `str.lower()` for one character. */
  function LowerChar(c: char): char {
    if 'A' <= c <= 'Z' then (c as int + 32) as char else c
  }

  /** `s.lower()`, restricted to ASCII letters. */
  function Lower(s: string): (r: string)
    ensures |r| == |s|
    ensures forall k :: 0 <= k < |s| ==> r[k] == LowerChar(s[k])
  {
    seq(|s|, k requires 0 <= k < |s| => LowerChar(s[k]))
  }

  /** `s.split(sep)` for a one-character separator: always at least one piece. */
  function Split(s: string, sep: char): (pieces: seq<string>)
    ensures |pieces| >= 1
    ensures forall k :: 0 <= k < |pieces| ==> sep !in pieces[k]
  {
    if s == [] then [""]
    else
      var rest := Split(s[1..], sep);
      if s[0] == sep then [""] + rest else [[s[0]] + rest[0]] + rest[1..]
  }

  /** `sep.join(parts)`. */
  function Join(parts: seq<string>, sep: string): string {
    if |parts| == 0 then ""
    else if |parts| == 1 then parts[0]
    else parts[0] + sep + Join(parts[1..], sep)
  }

  /** A join whose last part is not empty is not empty. */
  lemma {:induction false} JoinNotEmpty(parts: seq<string>, sep: string)
    requires parts != [] && parts[|parts| - 1] != []
    ensures Join(parts, sep) != []
  {
    if |parts| > 1 {
      JoinNotEmpty(parts[1..], sep);
    }
  }

  /** Joining the pieces of a split restores the text. */
  lemma {:induction false} JoinSplit(s: string, sep: char)
    ensures Join(Split(s, sep), [sep]) == s
  {
    if s != [] {
      var rest := Split(s[1..], sep);
      JoinSplit(s[1..], sep);
      if s[0] == sep {
        assert Split(s, sep) == [""] + rest;
        assert Join([""] + rest, [sep]) == "" + [sep] + Join(rest, [sep]);
        assert s == [s[0]] + s[1..];
      } else {
        var pieces := [[s[0]] + rest[0]] + rest[1..];
        assert Split(s, sep) == pieces;
        if |rest| == 1 {
          assert Join(pieces, [sep]) == [s[0]] + rest[0];
        } else {
          assert pieces[1..] == rest[1..];
          assert Join(rest, [sep]) == rest[0] + [sep] + Join(rest[1..], [sep]);
        }
        assert s == [s[0]] + s[1..];
      }
    }
  }

  /** Splitting `a + rest` where `a` holds no separator glues `a` to the first piece of `rest`. */
  lemma {:induction false} SplitGlue(a: string, rest: string, sep: char)
    requires sep !in a
    ensures Split(a + rest, sep) == [a + Split(rest, sep)[0]] + Split(rest, sep)[1..]
  {
    var tail := Split(rest, sep);
    if a != [] {
      SplitGlue(a[1..], rest, sep);
      assert (a + rest)[1..] == a[1..] + rest;
      assert (a + rest)[0] == a[0];
      var inner := Split(a[1..] + rest, sep);
      assert inner[0] == a[1..] + tail[0] && inner[1..] == tail[1..];
      assert Split(a + rest, sep) == [[a[0]] + inner[0]] + inner[1..];
      assert [a[0]] + (a[1..] + tail[0]) == a + tail[0];
    } else {
      assert a + rest == rest;
      assert a + tail[0] == tail[0];
      assert tail == [tail[0]] + tail[1..];
    }
  }

  /** Splitting the join of separator-free parts gives the parts back. */
  lemma {:induction false} SplitJoin(parts: seq<string>, sep: char)
    requires |parts| >= 1
    requires forall k :: 0 <= k < |parts| ==> sep !in parts[k]
    ensures Split(Join(parts, [sep]), sep) == parts
  {
    if |parts| == 1 {
      SplitGlue(parts[0], "", sep);
      assert Split("", sep) == [""];
      assert parts[0] + "" == parts[0];
    } else {
      var tail := Join(parts[1..], [sep]);
      SplitJoin(parts[1..], sep);
      assert Join(parts, [sep]) == parts[0] + ([sep] + tail);
      SplitGlue(parts[0], [sep] + tail, sep);
      assert ([sep] + tail)[1..] == tail && ([sep] + tail)[0] == sep;
      assert Split([sep] + tail, sep) == [""] + parts[1..];
      assert parts[0] + "" == parts[0];
      assert parts == [parts[0]] + parts[1..];
    }
  }

  /** Every character is whitespace. */
  predicate AllSpace(pad: string) {
    forall k :: 0 <= k < |pad| ==> IsSpace(pad[k])
  }

  /** `lstrip` drops exactly a whitespace prefix in front of a text that does not start with whitespace. */
  lemma {:induction false} StripLeftPadded(a: string, s: string)
    requires AllSpace(a) && (s != [] ==> !IsSpace(s[0]))
    ensures StripLeft(a + s) == s
  {
    if a != [] {
      assert (a + s)[1..] == a[1..] + s;
      StripLeftPadded(a[1..], s);
    } else {
      assert a + s == s;
    }
  }

  /** `rstrip` drops exactly a whitespace suffix behind a text that does not end with whitespace. */
  lemma {:induction false} StripRightPadded(s: string, b: string)
    requires AllSpace(b) && (s != [] ==> !IsSpace(s[|s| - 1]))
    ensures StripRight(s + b) == s
    decreases |b|
  {
    if b != [] {
      var b' := b[..|b| - 1];
      assert (s + b)[..|s + b| - 1] == s + b';
      StripRightPadded(s, b');
    } else {
      assert s + b == s;
    }
  }

  /** `strip` recovers a trimmed text from between two runs of whitespace. */
  lemma StripPadded(a: string, s: string, b: string)
    requires AllSpace(a) && AllSpace(b)
    requires s != [] && !IsSpace(s[0]) && !IsSpace(s[|s| - 1])
    ensures Strip(a + s + b) == s
  {
    assert a + s + b == a + (s + b);
    StripLeftPadded(a, s + b);
    StripRightPadded(s, b);
  }

  /** A prefix that cannot start the needle does not change whether the text contains it. */
  lemma {:induction false} ContainsSkip(junk: string, rest: string, needle: string)
    requires needle != [] && needle[0] !in junk
    ensures Contains(junk + rest, needle) <==> Contains(rest, needle)
  {
    if junk != [] {
      assert (junk + rest)[1..] == junk[1..] + rest;
      assert !(needle <= junk + rest) by {
        assert (junk + rest)[0] == junk[0];
      }
      ContainsSkip(junk[1..], rest, needle);
    } else {
      assert junk + rest == rest;
    }
  }

  /** A text without the separator splits into itself. */
  lemma SplitNoSep(s: string, sep: char)
    requires sep !in s
    ensures Split(s, sep) == [s]
  {
    SplitGlue(s, "", sep);
    assert s + "" == s;
  }

  /** A text contains whatever its first part contains. */
  lemma ContainsLeft(a: string, b: string, needle: string)
    requires Contains(a, needle)
    ensures Contains(a + b, needle)
  {
    var i := ContainsIndex(a, needle);
    assert (a + b)[i..] == a[i..] + b;
    ContainsAt(a + b, needle, i);
  }

  /** A text contains whatever its second part contains. */
  lemma ContainsRight(a: string, b: string, needle: string)
    requires Contains(b, needle)
    ensures Contains(a + b, needle)
  {
    var i := ContainsIndex(b, needle);
    assert (a + b)[|a| + i..] == b[i..];
    ContainsAt(a + b, needle, |a| + i);
  }

  /** A text that contains `a + b` contains `a`. */
  lemma ContainsShorter(hay: string, a: string, b: string)
    requires Contains(hay, a + b)
    ensures Contains(hay, a)
  {
    var i := ContainsIndex(hay, a + b);
    assert a <= hay[i..];
    ContainsAt(hay, a, i);
  }
}
