/**
 * Version strings of the Grokker database (ai-agents/api.go, migrate):
 * `major.minor.patch` triples of decimal numerals without leading zeros, as
 * section 2 of Semantic Versioning 2.0.0 writes a version core, ordered by
 * the precedence rule of section 11 of the same standard.
 */
module GrokVersion {
  import opened Wrappers
  import GoStrings

  datatype Version = Version(major: nat, minor: nat, patch: nat)

  predicate IsDigit(c: char)
  {
    '0' <= c <= '9'
  }

  /** A decimal numeral: digits only, at least one, and no leading zero. */
  predicate Numeral(s: string)
  {
    s != [] && (forall i :: 0 <= i < |s| ==> IsDigit(s[i])) && (s[0] == '0' ==> |s| == 1)
  }

  /** The value of a string of digits. */
  function Value(s: string): nat
    requires forall i :: 0 <= i < |s| ==> IsDigit(s[i])
    decreases |s|
  {
    if s == [] then 0 else assert IsDigit(s[|s| - 1]); 10 * Value(s[..|s| - 1]) + (s[|s| - 1] as int - '0' as int)
  }

  function DigitChar(d: nat): (c: char)
    requires d < 10
    ensures IsDigit(c) && c as int - '0' as int == d
  {
    ('0' as int + d) as char
  }

  /** The decimal numeral of n. */
  function Decimal(n: nat): (s: string)
    ensures s != [] && forall i :: 0 <= i < |s| ==> IsDigit(s[i])
    decreases n
  {
    if n < 10 then [DigitChar(n)] else Decimal(n / 10) + [DigitChar(n % 10)]
  }

  /** The decimal numeral of a number is a numeral, and reads back as the number. */
  lemma {:induction false} DecimalValue(n: nat)
    ensures Numeral(Decimal(n)) && Value(Decimal(n)) == n
    decreases n
  {
    if n >= 10 {
      DecimalValue(n / 10);
      var s := Decimal(n);
      assert s[..|s| - 1] == Decimal(n / 10);
      assert s[0] == Decimal(n / 10)[0];
    }
  }

  /** Digits that do not start with a zero have a positive value. */
  lemma {:induction false} LeadingDigitPositive(s: string)
    requires s != [] && (forall i :: 0 <= i < |s| ==> IsDigit(s[i])) && s[0] != '0'
    ensures Value(s) >= 1
    decreases |s|
  {
    if |s| > 1 {
      LeadingDigitPositive(s[..|s| - 1]);
    }
  }

  /** A numeral is the decimal numeral of its value. */
  lemma {:induction false} ValueDecimal(s: string)
    requires Numeral(s)
    ensures Decimal(Value(s)) == s
    decreases |s|
  {
    if |s| > 1 {
      var init := s[..|s| - 1];
      LeadingDigitPositive(init);
      ValueDecimal(init);
      assert s == init + [s[|s| - 1]];
    }
  }

  /** The text of a version. */
  function Format(v: Version): string
  {
    Decimal(v.major) + "." + Decimal(v.minor) + "." + Decimal(v.patch)
  }

  /** Parses a version core; anything else is an error. */
  function Parse(s: string): (r: Result<Version>)
  {
    var parts := GoStrings.Split(s, '.');
    if |parts| == 3 && Numeral(parts[0]) && Numeral(parts[1]) && Numeral(parts[2]) then
      Ok(Version(Value(parts[0]), Value(parts[1]), Value(parts[2])))
    else
      Err("invalid version: " + s)
  }

  /** Every version parses back from its text. */
  lemma ParseFormat(v: Version)
    ensures Parse(Format(v)) == Ok(v)
  {
    DecimalValue(v.major);
    DecimalValue(v.minor);
    DecimalValue(v.patch);
    var a, b, c := Decimal(v.major), Decimal(v.minor), Decimal(v.patch);
    assert '.' !in a && '.' !in b && '.' !in c by {
      assert forall i :: 0 <= i < |a| ==> a[i] != '.';
      assert forall i :: 0 <= i < |b| ==> b[i] != '.';
      assert forall i :: 0 <= i < |c| ==> c[i] != '.';
    }
    assert Format(v) == a + ['.'] + (b + ['.'] + c);
    GoStrings.SplitCons(a, b + ['.'] + c, '.');
    GoStrings.SplitCons(b, c, '.');
    GoStrings.SplitNone(c, '.');
  }

  lemma Join3(a: string, b: string, c: string)
    ensures GoStrings.Join([a, b, c], ".") == a + "." + b + "." + c
  {
    assert [a, b, c][1..] == [b, c];
    assert [b, c][1..] == [c];
    assert GoStrings.Join([c], ".") == c;
    assert GoStrings.Join([b, c], ".") == b + "." + c;
    assert GoStrings.Join([a, b, c], ".") == a + "." + (b + "." + c);
  }

  /** The text of a parsed version is the text it was parsed from. */
  lemma FormatParse(s: string)
    requires Parse(s).Ok?
    ensures Format(Parse(s).value) == s
  {
    var parts := GoStrings.Split(s, '.');
    var v := Parse(s).value;
    assert v == Version(Value(parts[0]), Value(parts[1]), Value(parts[2]));
    GoStrings.JoinSplit(s, '.');
    ValueDecimal(parts[0]);
    ValueDecimal(parts[1]);
    ValueDecimal(parts[2]);
    assert parts == [parts[0], parts[1], parts[2]];
    Join3(parts[0], parts[1], parts[2]);
  }

  /** Precedence by section 11 of Semantic Versioning 2.0.0: major, then minor, then patch, numerically. */
  function Cmp(a: Version, b: Version): (r: int)
    ensures -1 <= r <= 1
  {
    if a.major != b.major then (if a.major < b.major then -1 else 1)
    else if a.minor != b.minor then (if a.minor < b.minor then -1 else 1)
    else if a.patch != b.patch then (if a.patch < b.patch then -1 else 1)
    else 0
  }

  /** Precedence is a total order: equal exactly for equal versions, antisymmetric and transitive. */
  lemma CmpOrder(a: Version, b: Version, c: Version)
    ensures Cmp(a, b) == 0 <==> a == b
    ensures Cmp(a, b) == -Cmp(b, a)
    ensures Cmp(a, b) < 0 && Cmp(b, c) < 0 ==> Cmp(a, c) < 0
  {
  }

  /** Two parsed versions are of equal precedence exactly when their texts are equal. */
  lemma CmpZeroSameText(s: string, t: string)
    requires Parse(s).Ok? && Parse(t).Ok?
    ensures Cmp(Parse(s).value, Parse(t).value) == 0 <==> s == t
  {
    FormatParse(s);
    FormatParse(t);
  }
}
