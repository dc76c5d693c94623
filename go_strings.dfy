/**
 * The few functions of Go's `strings` and `unicode` packages that the
 * modelled code calls. Strings are sequences of characters; an index is a
 * character position.
 */
module GoStrings {

  /** `strings.HasPrefix` */
  predicate HasPrefix(s: string, prefix: string)
  {
    |prefix| <= |s| && s[..|prefix|] == prefix
  }

  /** `strings.TrimPrefix`: drops `prefix` when `s` starts with it. */
  function TrimPrefix(s: string, prefix: string): (r: string)
    ensures HasPrefix(s, prefix) ==> s == prefix + r
    ensures !HasPrefix(s, prefix) ==> r == s
  {
    if HasPrefix(s, prefix) then s[|prefix|..] else s
  }

  /** `unicode.IsSpace`: the white-space code points of Unicode's White_Space property as Go lists them. */
  predicate IsSpace(c: char)
  {
    c == ' ' || c == '\t' || c == '\n' || c == '\U{000B}' || c == '\U{000C}' || c == '\r'
    || c == '\U{0085}' || c == '\U{00A0}' || c == '\U{1680}'
    || ('\U{2000}' <= c <= '\U{200A}')
    || c == '\U{2028}' || c == '\U{2029}' || c == '\U{202F}' || c == '\U{205F}' || c == '\U{3000}'
  }

  /** All white space, or empty. */
  predicate Blank(s: string)
  {
    forall i :: 0 <= i < |s| ==> IsSpace(s[i])
  }

  /** Drops leading white space. */
  function TrimLeft(s: string): (r: string)
    ensures |r| <= |s|
  {
    if s != [] && IsSpace(s[0]) then TrimLeft(s[1..]) else s
  }

  /** `TrimLeft` keeps a suffix; what it drops is white space, and what it keeps does not start with any. */
  lemma {:induction false} TrimLeftSpace(s: string)
    ensures var r := TrimLeft(s);
      r == s[|s| - |r|..] && (r == [] || !IsSpace(r[0])) && forall i :: 0 <= i < |s| - |r| ==> IsSpace(s[i])
    decreases |s|
  {
    if s != [] && IsSpace(s[0]) {
      TrimLeftSpace(s[1..]);
    }
  }

  /** Drops trailing white space. */
  function TrimRight(s: string): (r: string)
    ensures |r| <= |s|
  {
    if s != [] && IsSpace(s[|s| - 1]) then TrimRight(s[..|s| - 1]) else s
  }

  /** `TrimRight` keeps a prefix; what it drops is white space, and what it keeps does not end with any. */
  lemma {:induction false} TrimRightSpace(s: string)
    ensures var r := TrimRight(s);
      r == s[..|r|] && (r == [] || !IsSpace(r[|r| - 1])) && forall i :: |r| <= i < |s| ==> IsSpace(s[i])
    decreases |s|
  {
    if s != [] && IsSpace(s[|s| - 1]) {
      TrimRightSpace(s[..|s| - 1]);
    }
  }

  /** `strings.TrimSpace`: drops leading and trailing white space. */
  function TrimSpace(s: string): (r: string)
    ensures |r| <= |s|
  {
    TrimRight(TrimLeft(s))
  }

  /**
   * Trimmed text neither starts nor ends with white space, and it is empty
   * exactly when the input is all white space.
   */
  lemma TrimSpaceSpace(s: string)
    ensures var r := TrimSpace(s);
      && (r == [] || (!IsSpace(r[0]) && !IsSpace(r[|r| - 1])))
      && (r == [] <==> Blank(s))
  {
    var l := TrimLeft(s);
    var r := TrimRight(l);
    TrimLeftSpace(s);
    TrimRightSpace(l);
    assert r == [] ==> l == [];
    if r != [] {
      assert r[0] == l[0] == s[|s| - |l|];
    }
  }

  /** Trimming adds no character: one absent from the input is absent from the result. */
  lemma TrimSpaceAbsent(s: string, c: char)
    requires c !in s
    ensures c !in TrimSpace(s)
  {
    var l := TrimLeft(s);
    TrimLeftSpace(s);
    assert forall i :: 0 <= i < |l| ==> l[i] == s[|s| - |l| + i];
    var r := TrimRight(l);
    TrimRightSpace(l);
    assert forall i :: 0 <= i < |r| ==> r[i] == l[i];
  }

  /** `strings.IndexByte` for a single character: its first position, or -1. */
  function IndexChar(s: string, c: char): (r: int)
    ensures -1 <= r < |s|
    ensures r == -1 ==> c !in s
    ensures r >= 0 ==> s[r] == c && c !in s[..r]
  {
    if s == [] then -1
    else if s[0] == c then 0
    else var k := IndexChar(s[1..], c); assert s[1..][..if k < 0 then 0 else k] == s[1..(if k < 0 then 1 else k + 1)]; if k < 0 then -1 else k + 1
  }

  /** `strings.Split` with a one-character separator; it always yields at least one part. */
  function Split(s: string, sep: char): (parts: seq<string>)
    ensures |parts| >= 1
    ensures forall k :: 0 <= k < |parts| ==> sep !in parts[k]
    decreases |s|
  {
    var k := IndexChar(s, sep);
    if k < 0 then [s] else [s[..k]] + Split(s[k + 1..], sep)
  }

  /** `strings.Split` yields one part more than there are separators. */
  lemma {:induction false} SplitCount(s: string, sep: char)
    ensures |Split(s, sep)| == multiset(s)[sep] + 1
    decreases |s|
  {
    var k := IndexChar(s, sep);
    if k >= 0 {
      SplitCount(s[k + 1..], sep);
      assert s == s[..k] + [sep] + s[k + 1..];
    }
  }

  /** `strings.Join`. */
  function Join(parts: seq<string>, sep: string): string
  {
    if |parts| == 0 then ""
    else if |parts| == 1 then parts[0]
    else parts[0] + sep + Join(parts[1..], sep)
  }

  /** Joining one more part appends the separator and the part. */
  lemma {:induction false} JoinSnoc(parts: seq<string>, x: string, sep: string)
    requires parts != []
    ensures Join(parts + [x], sep) == Join(parts, sep) + sep + x
    decreases |parts|
  {
    if |parts| > 1 {
      JoinSnoc(parts[1..], x, sep);
      assert (parts + [x])[1..] == parts[1..] + [x];
    } else {
      assert (parts + [x])[1..] == [x];
    }
  }

  /** Splitting on a character and joining with it gives the string back. */
  lemma {:induction false} JoinSplit(s: string, sep: char)
    ensures Join(Split(s, sep), [sep]) == s
    decreases |s|
  {
    var k := IndexChar(s, sep);
    if k >= 0 {
      JoinSplit(s[k + 1..], sep);
      assert s == s[..k] + [sep] + s[k + 1..];
    }
  }

  /** A part without the separator, followed by the separator, splits off as the first part. */
  lemma SplitCons(part: string, rest: string, sep: char)
    requires sep !in part
    ensures Split(part + [sep] + rest, sep) == [part] + Split(rest, sep)
  {
    var s := part + [sep] + rest;
    var k := IndexChar(s, sep);
    assert s[..|part|] == part && s[|part|] == sep;
    assert k == |part|;
    assert s[k + 1..] == rest;
  }

  /** A string without the separator is one part. */
  lemma SplitNone(s: string, sep: char)
    requires sep !in s
    ensures Split(s, sep) == [s]
  {
  }

  /** The position of the first white-space character at or after `i`, or `|s|`. */
  function WordEnd(s: string, i: nat): (k: nat)
    requires i <= |s|
    ensures i <= k <= |s|
    ensures k < |s| ==> IsSpace(s[k])
    ensures forall j :: i <= j < k ==> !IsSpace(s[j])
    decreases |s| - i
  {
    if i == |s| || IsSpace(s[i]) then i else WordEnd(s, i + 1)
  }

  /** `strings.Fields`: the maximal runs of non-space characters, in order. */
  function Fields(s: string): (fs: seq<string>)
    ensures forall k :: 0 <= k < |fs| ==> fs[k] != []
    ensures (forall i :: 0 <= i < |s| ==> IsSpace(s[i])) ==> fs == []
    decreases |s|
  {
    if s == [] then []
    else if IsSpace(s[0]) then Fields(s[1..])
    else
      var k := WordEnd(s, 0);
      [s[..k]] + Fields(s[k..])
  }

  /** The first part of `strings.SplitN(s, " ", 2)`: everything before the first space. */
  function FirstSpaceField(s: string): (r: string)
    ensures HasPrefix(s, r) && ' ' !in r
    ensures |r| < |s| ==> s[|r|] == ' '
  {
    var k := IndexChar(s, ' ');
    if k < 0 then s else s[..k]
  }

  /** `strings.Repeat(string(c), n)`. */
  function Repeat(c: char, n: nat): (r: string)
    ensures |r| == n && forall i :: 0 <= i < n ==> r[i] == c
  {
    seq(n, _ => c)
  }
}
