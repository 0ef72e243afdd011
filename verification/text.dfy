/**
 * The string operations the extraction script relies on, written out over
 * `seq<char>`: lower-casing for suffix tests, `endswith`/`startswith`,
 * `strip()` and `split("\n")` / `"\n".join(...)`.
 */
module Text {

  /** Lower-cases an ASCII capital letter and leaves every other character as it is. */
  function LowerChar(c: char): (r: char)
    ensures 'A' <= c <= 'Z' ==> 'a' <= r <= 'z' && r as int - c as int == 32
    ensures !('A' <= c <= 'Z') ==> r == c
  {
    if 'A' <= c <= 'Z' then (c as int + 32) as char else c
  }

  function Lower(s: string): (r: string)
    ensures |r| == |s|
    ensures forall i :: 0 <= i < |s| ==> r[i] == LowerChar(s[i])
  {
    seq(|s|, i requires 0 <= i < |s| => LowerChar(s[i]))
  }

  predicate StartsWith(s: string, prefix: string) {
    |prefix| <= |s| && s[..|prefix|] == prefix
  }

  predicate EndsWith(s: string, suffix: string) {
    |suffix| <= |s| && s[|s| - |suffix|..] == suffix
  }

  /** Two suffixes whose last characters differ cannot both end the same string. */
  lemma EndsWithLastChar(s: string, a: string, b: string)
    requires |a| > 0 && |b| > 0 && a[|a| - 1] != b[|b| - 1]
    ensures !(EndsWith(s, a) && EndsWith(s, b))
  {
  }

  /**
   * The characters Python's `str.isspace()` accepts, which are the ones
   * `str.strip()` with no argument removes.
   */
  predicate IsSpace(c: char) {
    var n := c as int;
    || 0x09 <= n <= 0x0D
    || 0x1C <= n <= 0x20
    || n == 0x85 || n == 0xA0 || n == 0x1680
    || 0x2000 <= n <= 0x200A
    || n == 0x2028 || n == 0x2029 || n == 0x202F || n == 0x205F || n == 0x3000
  }

  /** `s` with its leading whitespace removed. */
  function TrimStart(s: string): (r: string)
    ensures |r| <= |s| && r == s[|s| - |r|..]
    ensures forall k :: 0 <= k < |s| - |r| ==> IsSpace(s[k])
    ensures |r| == 0 || !IsSpace(r[0])
  {
    if |s| > 0 && IsSpace(s[0]) then TrimStart(s[1..]) else s
  }

  /** `s` with its trailing whitespace removed. */
  function TrimEnd(s: string): (r: string)
    ensures |r| <= |s| && r == s[..|r|]
    ensures forall k :: |r| <= k < |s| ==> IsSpace(s[k])
    ensures |r| == 0 || !IsSpace(r[|r| - 1])
  {
    if |s| > 0 && IsSpace(s[|s| - 1]) then TrimEnd(s[..|s| - 1]) else s
  }

  /** The number of whitespace characters `s` starts with. */
  function LeadingSpaces(s: string): (n: nat)
    ensures n <= |s|
    ensures forall k :: 0 <= k < n ==> IsSpace(s[k])
    ensures n == |s| || !IsSpace(s[n])
  {
    var t := TrimStart(s);
    assert |t| > 0 ==> t[0] == s[|s| - |t|];
    |s| - |t|
  }

  /** Python's `s.strip()`: the longest slice of `s` that neither starts nor ends with whitespace. */
  function Strip(s: string): (r: string)
    ensures |r| <= |s|
    ensures |r| == 0 || (!IsSpace(r[0]) && !IsSpace(r[|r| - 1]))
    ensures r == [] <==> forall k :: 0 <= k < |s| ==> IsSpace(s[k])
    ensures (|s| == 0 || (!IsSpace(s[0]) && !IsSpace(s[|s| - 1]))) ==> r == s
  {
    var t := TrimStart(s);
    var r := TrimEnd(t);
    assert |r| > 0 ==> r[0] == t[0];
    r
  }

  /**
   * The stripped text is `s` with its leading and trailing whitespace cut
   * off: the slice that starts after the leading whitespace and is followed
   * only by whitespace.
   */
  lemma StripSlice(s: string)
    ensures var r := Strip(s); var a := LeadingSpaces(s);
      a + |r| <= |s| && r == s[a..a + |r|]
    ensures var r := Strip(s); var rest := s[LeadingSpaces(s)..];
      forall k :: |r| <= k < |rest| ==> IsSpace(rest[k])
  {
    assert Strip(s) == TrimEnd(TrimStart(s));
    TrimmedSlice(s);
    TrimmedTail(s);
  }

  /** Trimming the start leaves what follows the leading whitespace. */
  lemma {:induction false} TrimStartSlice(s: string)
    ensures TrimStart(s) == s[LeadingSpaces(s)..]
  {
  }

  /** Trimming both ends leaves the slice of `s` that starts after its leading whitespace. */
  lemma {:induction false} TrimmedSlice(s: string)
    ensures var r := TrimEnd(TrimStart(s)); var a := LeadingSpaces(s);
      a + |r| <= |s| && r == s[a..a + |r|]
  {
    var a := LeadingSpaces(s);
    var r := TrimEnd(TrimStart(s));
    TrimStartSlice(s);
    SliceOfSlice(s, a, |r|);
  }

  /** The first `n` elements of the suffix from `a` are the slice from `a` to `a + n`. */
  lemma SliceOfSlice<T>(s: seq<T>, a: nat, n: nat)
    requires a + n <= |s|
    ensures s[a..][..n] == s[a..a + n]
  {
  }

  /** Only whitespace follows, in `s` past its leading whitespace, what trimming both ends leaves. */
  lemma {:induction false} TrimmedTail(s: string)
    ensures var r := TrimEnd(TrimStart(s)); var rest := s[LeadingSpaces(s)..];
      forall k :: |r| <= k < |rest| ==> IsSpace(rest[k])
  {
    TrimStartSlice(s);
  }

  /** The index of the first `c` in `s`, or `|s|` when there is none. */
  function IndexOf(s: string, c: char): (r: nat)
    ensures r <= |s|
    ensures r < |s| ==> s[r] == c
    ensures forall k :: 0 <= k < r ==> s[k] != c
  {
    if |s| == 0 then 0
    else if s[0] == c then 0
    else 1 + IndexOf(s[1..], c)
  }

  /** Python's `s.split(sep)` for a one-character separator: never empty, even for "". */
  function Split(s: string, sep: char): (r: seq<string>)
    ensures |r| >= 1
    ensures forall i :: 0 <= i < |r| ==> sep !in r[i]
    decreases |s|
  {
    var i := IndexOf(s, sep);
    if i == |s| then [s] else [s[..i]] + Split(s[i + 1..], sep)
  }

  /** Python's `sep.join(parts)` for a one-character separator. */
  function Join(sep: char, parts: seq<string>): string
  {
    if |parts| == 0 then ""
    else if |parts| == 1 then parts[0]
    else parts[0] + [sep] + Join(sep, parts[1..])
  }

  /** Splitting and joining back with the same separator gives the original text. */
  lemma {:induction false} JoinSplit(s: string, sep: char)
    ensures Join(sep, Split(s, sep)) == s
    decreases |s|
  {
    var i := IndexOf(s, sep);
    if i < |s| {
      var tail := Split(s[i + 1..], sep);
      assert Split(s, sep) == [s[..i]] + tail;
      JoinSplit(s[i + 1..], sep);
      JoinCons(sep, s[..i], tail);
      SliceAtSeparator(s, i, |s|);
    }
  }

  /** Joining separator-free parts and splitting again gives the parts back. */
  lemma {:induction false} SplitJoin(parts: seq<string>, sep: char)
    requires |parts| >= 1
    requires forall i :: 0 <= i < |parts| ==> sep !in parts[i]
    ensures Split(Join(sep, parts), sep) == parts
    decreases |parts|
  {
    var p := parts[0];
    if |parts| == 1 {
      NoSeparatorIndex(p, sep);
    } else {
      var rest := Join(sep, parts[1..]);
      var s := p + [sep] + rest;
      assert Join(sep, parts) == s;
      SeparatorAfterPart(p, sep, rest);
      SplitJoin(parts[1..], sep);
      assert parts == [p] + parts[1..];
    }
  }

  /** In `p + [sep] + rest` with no `sep` in `p`, the text splits right after `p`. */
  lemma SeparatorAfterPart(p: string, sep: char, rest: string)
    requires sep !in p
    ensures Split(p + [sep] + rest, sep) == [p] + Split(rest, sep)
  {
    var s := p + [sep] + rest;
    assert forall k :: 0 <= k < |p| ==> s[k] == p[k];
    FirstIndexIs(s, sep, |p|);
    assert s[..|p|] == p;
    assert s[|p| + 1..] == rest;
  }

  lemma NoSeparatorIndex(s: string, c: char)
    requires c !in s
    ensures IndexOf(s, c) == |s|
  {
  }

  /** `IndexOf` finds exactly the first occurrence. */
  lemma FirstIndexIs(s: string, c: char, i: nat)
    requires i < |s| && s[i] == c
    requires forall k :: 0 <= k < i ==> s[k] != c
    ensures IndexOf(s, c) == i
  {
  }

  /** `i` is the position of the first newline of `s`. */
  predicate IsFirstNewline(s: string, i: int) {
    0 <= i < |s| && s[i] == '\n' && forall k :: 0 <= k < i ==> s[k] != '\n'
  }

  /** `j` is the position of the last newline of `s`. */
  predicate IsLastNewline(s: string, j: int) {
    0 <= j < |s| && s[j] == '\n' && forall k :: j < k < |s| ==> s[k] != '\n'
  }

  /** A text with a newline splits into at least two lines. */
  lemma SplitAtNewline(s: string, i: int)
    requires IsFirstNewline(s, i)
    ensures Split(s, '\n') == [s[..i]] + Split(s[i + 1..], '\n')
    ensures |Split(s, '\n')| >= 2
  {
    FirstIndexIs(s, '\n', i);
  }

  /** Dropping the last line of a text that has a newline leaves everything before its last newline. */
  lemma {:induction false} JoinAllButLastLine(t: string, j: int)
    requires IsLastNewline(t, j)
    ensures var lines := Split(t, '\n'); |lines| >= 2 && Join('\n', lines[..|lines| - 1]) == t[..j]
    decreases |t|
  {
    var k := IndexOf(t, '\n');
    if k == j {
      LastLineOnlyNewline(t, j);
    } else {
      var u := t[k + 1..];
      var j' := j - k - 1;
      assert u[j'] == t[j];
      JoinAllButLastLine(u, j');
      LastLineStep(t, k, j);
    }
  }

  /** With a single newline, everything before it is the one line kept. */
  lemma LastLineOnlyNewline(t: string, j: int)
    requires IsLastNewline(t, j) && IsFirstNewline(t, j)
    ensures var lines := Split(t, '\n'); |lines| >= 2 && Join('\n', lines[..|lines| - 1]) == t[..j]
  {
    SplitAtNewline(t, j);
    NoSeparatorIndex(t[j + 1..], '\n');
    var lines := Split(t, '\n');
    assert lines == [t[..j], t[j + 1..]];
    assert lines[..1] == [t[..j]];
  }

  /** One step of the induction: the first line plus the rest of the text before its last newline. */
  lemma LastLineStep(t: string, k: int, j: int)
    requires IsFirstNewline(t, k) && IsLastNewline(t, j) && k < j
    requires var ulines := Split(t[k + 1..], '\n');
      |ulines| >= 2 && Join('\n', ulines[..|ulines| - 1]) == t[k + 1..][..j - k - 1]
    ensures var lines := Split(t, '\n'); |lines| >= 2 && Join('\n', lines[..|lines| - 1]) == t[..j]
  {
    SplitAtNewline(t, k);
    var head := t[..k];
    var ulines := Split(t[k + 1..], '\n');
    var kept := ulines[..|ulines| - 1];
    AllButLastOfCons(head, ulines);
    JoinCons('\n', head, kept);
    SliceAtSeparator(t, k, j);
  }

  lemma AllButLastOfCons<T>(x: T, ys: seq<T>)
    requires |ys| >= 1
    ensures ([x] + ys)[..|ys|] == [x] + ys[..|ys| - 1]
  {
  }

  lemma MiddleOfCons<T>(x: T, ys: seq<T>)
    requires |ys| >= 1
    ensures ([x] + ys)[1..|ys|] == ys[..|ys| - 1]
  {
  }

  /** Cutting at position `k < j` splits a prefix around the character at `k`. */
  lemma SliceAtSeparator(t: string, k: int, j: int)
    requires 0 <= k < j <= |t|
    ensures t[..j] == t[..k] + [t[k]] + t[k + 1..][..j - k - 1]
  {
  }

  lemma JoinCons(sep: char, p: string, rest: seq<string>)
    requires |rest| >= 1
    ensures Join(sep, [p] + rest) == p + [sep] + Join(sep, rest)
  {
    assert ([p] + rest)[1..] == rest;
  }
}
