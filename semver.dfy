/**
 * A simplified stand-in for the `blang/semver` calls the version evaluator in `Bundle` makes:
 * `ParseTolerant` on a version such as "4.9" and the `GE` comparison.
 * Versions are one to three dot-separated decimal naturals; missing minor
 * and patch numbers read as 0; anything else fails to parse.
 */
module Semver {
  import opened Wrappers
  import opened StringUtil

  datatype Version = Version(major: nat, minor: nat, patch: nat)

  predicate IsDigit(c: char) { '0' <= c <= '9' }

  predicate AllDigits(s: string) { forall k :: 0 <= k < |s| ==> IsDigit(s[k]) }

  /** The decimal value of a string of digits. */
  function DigitsValue(s: string): nat
    requires AllDigits(s)
  {
    if |s| == 0 then 0
    else 10 * DigitsValue(s[..|s| - 1]) + (s[|s| - 1] as int - '0' as int)
  }

  /** One numeric component: a non-empty run of digits. */
  function ParseNumber(s: string): Option<nat>
  {
    if |s| > 0 && AllDigits(s) then Some(DigitsValue(s)) else None
  }

  /** `semver.ParseTolerant`, restricted to plain numeric versions. */
  function ParseTolerant(s: string): Option<Version>
  {
    ParseParts(Split(s, '.'))
  }

  /** One to three numeric components, the missing ones read as "0". */
  function ParseParts(parts: seq<string>): Option<Version>
  {
    if |parts| == 0 || |parts| > 3 then None
    else
      var padded := parts + seq(3 - |parts|, _ => "0");
      match (ParseNumber(padded[0]), ParseNumber(padded[1]), ParseNumber(padded[2]))
      case (Some(major), Some(minor), Some(patch)) => Some(Version(major, minor, patch))
      case _ => None
  }

  /** `Version.Compare`: -1, 0 or 1 by major, then minor, then patch. */
  function Compare(a: Version, b: Version): int
  {
    if a.major != b.major then (if a.major > b.major then 1 else -1)
    else if a.minor != b.minor then (if a.minor > b.minor then 1 else -1)
    else if a.patch != b.patch then (if a.patch > b.patch then 1 else -1)
    else 0
  }

  /** `Version.GE`. */
  predicate GE(a: Version, b: Version)
  {
    Compare(a, b) >= 0
  }

  /** GE is a total order: any two versions compare in at least one direction. */
  lemma GeTotal(a: Version, b: Version)
    ensures GE(a, b) || GE(b, a)
  {
  }

  lemma GeAntisymmetric(a: Version, b: Version)
    requires GE(a, b) && GE(b, a)
    ensures a == b
  {
  }

  lemma GeTransitive(a: Version, b: Version, c: Version)
    requires GE(a, b) && GE(b, c)
    ensures GE(a, c)
  {
  }

  /** GE agrees with the lexicographic order on (major, minor, patch). */
  lemma GeIsLexicographic(a: Version, b: Version)
    ensures GE(a, b) <==>
      a.major > b.major
      || (a.major == b.major && a.minor > b.minor)
      || (a.major == b.major && a.minor == b.minor && a.patch >= b.patch)
  {
  }

  /** The decimal digits of a natural, most significant first. */
  function NatToString(n: nat): (s: string)
    ensures |s| > 0 && AllDigits(s)
  {
    if n < 10 then [('0' as int + n) as char]
    else NatToString(n / 10) + [('0' as int + n % 10) as char]
  }

  /** The canonical "major.minor.patch" text of a version. */
  function Format(v: Version): string
  {
    NatToString(v.major) + "." + NatToString(v.minor) + "." + NatToString(v.patch)
  }

  lemma {:induction false} NatToStringValue(n: nat)
    ensures DigitsValue(NatToString(n)) == n
  {
    var s := NatToString(n);
    if n >= 10 {
      NatToStringValue(n / 10);
      assert s[..|s| - 1] == NatToString(n / 10);
    }
  }

  /** Parsing the canonical text of a version gives the version back. */
  lemma ParseFormat(v: Version)
    ensures ParseTolerant(Format(v)) == Some(v)
  {
    var a, b, c := NatToString(v.major), NatToString(v.minor), NatToString(v.patch);
    assert '.' !in a && '.' !in b && '.' !in c;
    assert Format(v) == a + ['.'] + (b + ['.'] + c);
    SplitCons(a, '.', b + ['.'] + c);
    SplitCons(b, '.', c);
    assert Split(c, '.') == [c];
    assert Split(Format(v), '.') == [a, b, c];
    NatToStringValue(v.major);
    NatToStringValue(v.minor);
    NatToStringValue(v.patch);
  }

  /** Digit strings contain no dot. */
  lemma DigitsHaveNoDot(s: string)
    requires AllDigits(s)
    ensures '.' !in s
  {
  }

  /** Text made of digits and dots only. */
  predicate VersionChars(s: string)
  {
    forall k :: 0 <= k < |s| ==> IsDigit(s[k]) || s[k] == '.'
  }

  /** Version text holds none of the characters other than digits and dots. */
  lemma VersionCharsExclude(s: string, c: char)
    requires VersionChars(s) && !IsDigit(c) && c != '.'
    ensures c !in s
  {
  }

  /** The text "X.Y" of a two-component version. */
  function MajorMinorText(major: nat, minor: nat): (s: string)
    ensures VersionChars(s) && |s| >= 3
  {
    NatToString(major) + "." + NatToString(minor)
  }

  /** A two-component version text reads with a zero patch number. */
  lemma ParseMajorMinor(major: nat, minor: nat)
    ensures ParseTolerant(MajorMinorText(major, minor)) == Some(Version(major, minor, 0))
  {
    var a, b := NatToString(major), NatToString(minor);
    DigitsHaveNoDot(a);
    DigitsHaveNoDot(b);
    SplitCons(a, '.', b);
    assert MajorMinorText(major, minor) == a + ['.'] + b;
    assert Split(b, '.') == [b];
    assert DigitsValue("0") == 0;
    NatToStringValue(major);
    NatToStringValue(minor);
  }

  lemma ParseFourNine()
    ensures ParseTolerant("4.9") == Some(Version(4, 9, 0))
  {
    ParseMajorMinor(4, 9);
    assert MajorMinorText(4, 9) == "4.9";
  }
}
