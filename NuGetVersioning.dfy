/**
 * The part of NuGet's `NuGetVersion` that the manifest toggler relies on:
 * parsing the project's `Version` property, building a version from three
 * numbers, and turning a version back into its normalized string.
 *
 * The grammar is a simplified version of NuGet's (see README, "Left out"): one to
 * four dot-separated decimal parts, each fitting a C# `int`, then optional
 * `-release` labels and optional `+metadata`.
 */
module NuGetVersioning {
  import opened Wrappers

  /** `int.MaxValue`: every numeric part of a NuGetVersion is a C# `int`. */
  const MaxInt32: nat := 0x7FFF_FFFF

  /**
   * A version: four numeric parts, the dot-separated release labels
   * ("" for a stable version) and the build metadata ("" when there is none).
   */
  datatype NuGetVersion = NuGetVersion(
    major: nat, minor: nat, patch: nat, revision: nat,
    release: string, metadata: string)

  /** `new NuGetVersion(major, minor, patch)`: no revision, no release labels, no metadata. */
  function FromParts(major: nat, minor: nat, patch: nat): NuGetVersion {
    NuGetVersion(major, minor, patch, 0, "", "")
  }

  predicate IsDigit(c: char) {
    '0' <= c <= '9'
  }

  predicate IsDigits(s: string) {
    forall i | 0 <= i < |s| :: IsDigit(s[i])
  }

  predicate IsIdentifierChar(c: char) {
    IsDigit(c) || 'a' <= c <= 'z' || 'A' <= c <= 'Z' || c == '-'
  }

  /** Non-empty identifiers of ASCII letters, digits and hyphens, separated by single dots. */
  predicate IsLabel(s: string) {
    && |s| > 0
    && s[0] != '.'
    && s[|s| - 1] != '.'
    && (forall i | 0 <= i < |s| :: IsIdentifierChar(s[i]) || s[i] == '.')
    && (forall i | 0 <= i < |s| - 1 :: s[i] == '.' ==> s[i + 1] != '.')
  }

  /** A version that NuGet can represent: every part is an `int`, labels and metadata well formed. */
  predicate IsValid(v: NuGetVersion) {
    && v.major <= MaxInt32 && v.minor <= MaxInt32
    && v.patch <= MaxInt32 && v.revision <= MaxInt32
    && (v.release == "" || IsLabel(v.release))
    && (v.metadata == "" || IsLabel(v.metadata))
  }

  // ---------------------------------------------------------------- decimals

  function DigitValue(c: char): nat
    requires IsDigit(c)
  {
    c as int - '0' as int
  }

  function DigitChar(d: nat): (c: char)
    requires d < 10
    ensures IsDigit(c) && DigitValue(c) == d
  {
    ('0' as int + d) as char
  }

  /** The value of a string of decimal digits, leading zeros allowed. */
  function DigitsValue(s: string): nat
    requires IsDigits(s)
  {
    if |s| == 0 then 0 else DigitsValue(s[..|s| - 1]) * 10 + DigitValue(s[|s| - 1])
  }

  /** The decimal spelling of `n`, without leading zeros. */
  function NatToString(n: nat): (s: string)
    ensures |s| > 0 && IsDigits(s)
    ensures n > 0 ==> s[0] != '0'
    decreases n
  {
    if n < 10 then [DigitChar(n)] else NatToString(n / 10) + [DigitChar(n % 10)]
  }

  lemma {:induction false} DigitsValueOfNatToString(n: nat)
    ensures DigitsValue(NatToString(n)) == n
    decreases n
  {
    if n >= 10 {
      var s := NatToString(n);
      assert s[..|s| - 1] == NatToString(n / 10);
      DigitsValueOfNatToString(n / 10);
    }
  }

  // --------------------------------------------------------------- splitting

  /** `s.Split(sep)`: the pieces between the separators, always at least one. */
  function Split(s: string, sep: char): (parts: seq<string>)
    ensures |parts| > 0
  {
    if |s| == 0 then [""]
    else
      var rest := Split(s[1..], sep);
      if s[0] == sep then [""] + rest else [[s[0]] + rest[0]] + rest[1..]
  }

  /** The text before the first `sep` and, when there is one, the text after it. */
  function SplitAtFirst(s: string, sep: char): (string, Option<string>) {
    if |s| == 0 then ("", None)
    else if s[0] == sep then ("", Some(s[1..]))
    else
      var (head, tail) := SplitAtFirst(s[1..], sep);
      ([s[0]] + head, tail)
  }

  lemma {:induction false} SplitWithoutSeparator(a: string, sep: char)
    requires sep !in a
    ensures Split(a, sep) == [a]
  {
    if |a| > 0 {
      SplitWithoutSeparator(a[1..], sep);
      assert [a[0]] + a[1..] == a;
    }
  }

  lemma {:induction false} SplitAtSeparator(a: string, b: string, sep: char)
    requires sep !in a
    ensures Split(a + [sep] + b, sep) == [a] + Split(b, sep)
  {
    var s := a + [sep] + b;
    if |a| == 0 {
      assert s[1..] == b;
    } else {
      assert s[1..] == a[1..] + [sep] + b;
      SplitAtSeparator(a[1..], b, sep);
      assert [a[0]] + a[1..] == a;
    }
  }

  lemma {:induction false} SplitAtFirstWithoutSeparator(a: string, sep: char)
    requires sep !in a
    ensures SplitAtFirst(a, sep) == (a, None)
  {
    if |a| > 0 {
      SplitAtFirstWithoutSeparator(a[1..], sep);
      assert [a[0]] + a[1..] == a;
    }
  }

  lemma {:induction false} SplitAtFirstSeparator(a: string, b: string, sep: char)
    requires sep !in a
    ensures SplitAtFirst(a + [sep] + b, sep) == (a, Some(b))
  {
    var s := a + [sep] + b;
    if |a| == 0 {
      assert s[1..] == b;
    } else {
      assert s[1..] == a[1..] + [sep] + b;
      SplitAtFirstSeparator(a[1..], b, sep);
      assert [a[0]] + a[1..] == a;
    }
  }

  // ----------------------------------------------------------------- parsing

  /** One numeric part: non-empty decimal digits whose value fits an `int`. */
  predicate IsVersionPart(s: string) {
    |s| > 0 && IsDigits(s) && DigitsValue(s) <= MaxInt32
  }

  /** The value of part `k`, or 0 when the string has fewer parts. */
  function PartValue(parts: seq<string>, k: nat): nat {
    if k < |parts| && IsDigits(parts[k]) then DigitsValue(parts[k]) else 0
  }

  /**
   * `NuGetVersion.Parse`: `None` where NuGet throws. Metadata starts at the
   * first `+`, release labels at the first `-` before it.
   */
  function Parse(s: string): (r: Option<NuGetVersion>)
    ensures r.Some? ==> IsValid(r.value)
  {
    var (core, metadata) := SplitAtFirst(s, '+');
    var (numbers, release) := SplitAtFirst(core, '-');
    var parts := Split(numbers, '.');
    if && 1 <= |parts| <= 4
       && (forall k | 0 <= k < |parts| :: IsVersionPart(parts[k]))
       && (release.None? || IsLabel(release.value))
       && (metadata.None? || IsLabel(metadata.value))
    then
      Some(NuGetVersion(
        PartValue(parts, 0), PartValue(parts, 1), PartValue(parts, 2), PartValue(parts, 3),
        release.GetOr(""), metadata.GetOr("")))
    else
      None
  }

  // -------------------------------------------------------------- formatting

  /**
   * The normalized full string: `major.minor.patch`, `.revision` only when it
   * is not 0, then `-release` and `+metadata` when present.
   */
  function ToFullString(v: NuGetVersion): string {
    NatToString(v.major) + "." + NatToString(v.minor) + "." + NatToString(v.patch)
    + (if v.revision == 0 then "" else "." + NatToString(v.revision))
    + (if v.release == "" then "" else "-" + v.release)
    + (if v.metadata == "" then "" else "+" + v.metadata)
  }

  lemma NatToStringHasNoSeparator(n: nat)
    ensures '.' !in NatToString(n) && '-' !in NatToString(n) && '+' !in NatToString(n)
  {
    var s := NatToString(n);
    forall i | 0 <= i < |s| ensures s[i] != '.' && s[i] != '-' && s[i] != '+' {
      assert IsDigit(s[i]);
    }
  }

  lemma NatToStringIsPart(n: nat)
    requires n <= MaxInt32
    ensures IsVersionPart(NatToString(n)) && DigitsValue(NatToString(n)) == n
  {
    DigitsValueOfNatToString(n);
  }

  /** The section `major.minor.patch[.revision]` of the normalized string. */
  function NumericSection(v: NuGetVersion): string {
    NatToString(v.major) + "." + NatToString(v.minor) + "." + NatToString(v.patch)
    + (if v.revision == 0 then "" else "." + NatToString(v.revision))
  }

  /** The numeric parts the normalized string spells out, in order. */
  function NumericParts(v: NuGetVersion): seq<string> {
    [NatToString(v.major), NatToString(v.minor), NatToString(v.patch)]
    + (if v.revision == 0 then [] else [NatToString(v.revision)])
  }

  lemma {:induction false} SplitNumericSection(v: NuGetVersion)
    ensures Split(NumericSection(v), '.') == NumericParts(v)
  {
    var a, b, c, d := NatToString(v.major), NatToString(v.minor), NatToString(v.patch), NatToString(v.revision);
    NatToStringHasNoSeparator(v.major);
    NatToStringHasNoSeparator(v.minor);
    NatToStringHasNoSeparator(v.patch);
    NatToStringHasNoSeparator(v.revision);
    var tail: string := if v.revision == 0 then "" else "." + d;
    assert Split(c + tail, '.') == NumericParts(v)[2..] by {
      if v.revision == 0 {
        assert c + tail == c;
        SplitWithoutSeparator(c, '.');
      } else {
        assert c + tail == c + ['.'] + d;
        SplitAtSeparator(c, d, '.');
        SplitWithoutSeparator(d, '.');
      }
    }
    assert NumericSection(v) == a + ['.'] + (b + ['.'] + (c + tail));
    SplitAtSeparator(a, b + ['.'] + (c + tail), '.');
    SplitAtSeparator(b, c + tail, '.');
  }

  lemma NumericPartsValues(v: NuGetVersion)
    requires IsValid(v)
    ensures var parts := NumericParts(v);
            && 3 <= |parts| <= 4
            && (forall k | 0 <= k < |parts| :: IsVersionPart(parts[k]))
            && PartValue(parts, 0) == v.major && PartValue(parts, 1) == v.minor
            && PartValue(parts, 2) == v.patch && PartValue(parts, 3) == v.revision
  {
    NatToStringIsPart(v.major);
    NatToStringIsPart(v.minor);
    NatToStringIsPart(v.patch);
    NatToStringIsPart(v.revision);
  }

  lemma NumericSectionHasNoSeparator(v: NuGetVersion)
    ensures '-' !in NumericSection(v) && '+' !in NumericSection(v)
  {
    NatToStringHasNoSeparator(v.major);
    NatToStringHasNoSeparator(v.minor);
    NatToStringHasNoSeparator(v.patch);
    NatToStringHasNoSeparator(v.revision);
  }

  /** `-release`, or nothing for a stable version. */
  function ReleaseSuffix(v: NuGetVersion): string {
    if v.release == "" then "" else "-" + v.release
  }

  /** `+metadata`, or nothing when there is no metadata. */
  function MetadataSuffix(v: NuGetVersion): string {
    if v.metadata == "" then "" else "+" + v.metadata
  }

  function AsOption(s: string): Option<string> {
    if s == "" then None else Some(s)
  }

  lemma SplitOffMetadata(v: NuGetVersion)
    requires IsValid(v)
    ensures SplitAtFirst(ToFullString(v), '+') == (NumericSection(v) + ReleaseSuffix(v), AsOption(v.metadata))
  {
    var core := NumericSection(v) + ReleaseSuffix(v);
    NumericSectionHasNoSeparator(v);
    assert '+' !in core by {
      var rel := ReleaseSuffix(v);
      forall i | 0 <= i < |rel| ensures rel[i] != '+' {
        if i > 0 {
          assert rel[i] == v.release[i - 1];
        }
      }
    }
    assert ToFullString(v) == core + MetadataSuffix(v);
    if v.metadata == "" {
      assert ToFullString(v) == core;
      SplitAtFirstWithoutSeparator(core, '+');
    } else {
      assert ToFullString(v) == core + ['+'] + v.metadata;
      SplitAtFirstSeparator(core, v.metadata, '+');
    }
  }

  lemma SplitOffRelease(v: NuGetVersion)
    ensures SplitAtFirst(NumericSection(v) + ReleaseSuffix(v), '-') == (NumericSection(v), AsOption(v.release))
  {
    var numbers := NumericSection(v);
    NumericSectionHasNoSeparator(v);
    if v.release == "" {
      assert numbers + ReleaseSuffix(v) == numbers;
      SplitAtFirstWithoutSeparator(numbers, '-');
    } else {
      assert numbers + ReleaseSuffix(v) == numbers + ['-'] + v.release;
      SplitAtFirstSeparator(numbers, v.release, '-');
    }
  }

  /** Parsing the normalized full string of a valid version gives that version back. */
  lemma ParseToFullString(v: NuGetVersion)
    requires IsValid(v)
    ensures Parse(ToFullString(v)) == Some(v)
  {
    SplitOffMetadata(v);
    SplitOffRelease(v);
    SplitNumericSection(v);
    NumericPartsValues(v);
  }
}
