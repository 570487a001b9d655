/** `Version` of the shared `as-sdk` crate: three u8 numbers, an optional
    pre-release tag and an optional build tag; its text form, the two
    ways of reading one back (text and bytes) and its order, which
    loosely follows section 11 of Semantic Versioning 2.0.0. */
module Versioning {
  import opened Wrappers
  import opened Uint
  import opened Ordering
  import Decimal

  datatype Version = Version(major: u8, minor: u8, patch: u8, pre: Option<string>, build: Option<string>)

  /** The abort of `crate::unwrap!` on None (as-sdk lib.rs:48-54). */
  const ERR_UNWRAP := "unwrap! called on a None value"
  /** The abort of `Option::unwrap` on None. */
  const ERR_OPTION_UNWRAP := "called `Option::unwrap()` on a `None` value"
  /** The abort of `Vec::remove(0)` on an empty vector. */
  const ERR_REMOVE := "removal index (is 0) should be < len (is 0)"
  /** The abort of unwrapping `String::from_utf8` on invalid text. */
  const ERR_UTF8 := "called `Result::unwrap()` on an `Err` value: FromUtf8Error"

  /** `Version::new` (mod.rs:12-20) */
  function New(major: u8, minor: u8, patch: u8, pre: Option<string>, build: Option<string>): Version
  {
    Version(major, minor, patch, pre, build)
  }

  /** `From<(u8, u8, u8)>` (mod.rs:169-173): a stable release without a
      build tag. */
  function FromTriple(major: u8, minor: u8, patch: u8): (v: Version)
    ensures IsStable(v) && !IsBuild(v)
    ensures v.major == major && v.minor == minor && v.patch == patch
  {
    New(major, minor, patch, None, None)
  }

  /** `to_string` (mod.rs:22-31) and `Display` (mod.rs:175-179):
      `v{major}.{minor}.{patch}`, then `-{pre}` and `+{build}` when present. */
  function ToString(v: Version): (s: string)
    ensures |s| > 0 && s[0] == 'v'
  {
    "v" + NumbersText(v)
      + (match v.pre case Some(p) => "-" + p case None => "")
      + (match v.build case Some(b) => "+" + b case None => "")
  }

  /** `{major}.{minor}.{patch}` */
  function NumbersText(v: Version): string
  {
    Decimal.Show(v.major) + "." + Decimal.Show(v.minor) + "." + Decimal.Show(v.patch)
  }

  /** `is_compatible` (mod.rs:51-53) */
  predicate IsCompatible(a: Version, b: Version)
  {
    a.major == b.major && a.minor == b.minor
  }

  /** Compatibility is an equivalence relation. */
  lemma CompatibleIsEquivalence(a: Version, b: Version, c: Version)
    ensures IsCompatible(a, a)
    ensures IsCompatible(a, b) ==> IsCompatible(b, a)
    ensures IsCompatible(a, b) && IsCompatible(b, c) ==> IsCompatible(a, c)
  {
  }

  /** mod.rs:55-65 */
  predicate IsStable(v: Version) { v.pre.None? }
  predicate IsPrerelease(v: Version) { v.pre.Some? }
  predicate IsBuild(v: Version) { v.build.Some? }

  /** mod.rs:67-89: a pre-release or build tag equal to a fixed word. */
  predicate IsDev(v: Version) { IsPrerelease(v) && v.pre.value == "dev" }
  predicate IsAlpha(v: Version) { IsPrerelease(v) && v.pre.value == "alpha" }
  predicate IsBeta(v: Version) { IsPrerelease(v) && v.pre.value == "beta" }
  predicate IsRc(v: Version) { IsPrerelease(v) && v.pre.value == "rc" }
  predicate IsNightly(v: Version) { IsBuild(v) && v.build.value == "nightly" }
  predicate IsCi(v: Version) { IsBuild(v) && v.build.value == "ci" }

  /** Stable and pre-release are complementary; each tag predicate holds
      exactly for its word; a version carries at most one pre-release
      word and at most one build word. */
  lemma TagPredicates(v: Version)
    ensures IsStable(v) != IsPrerelease(v)
    ensures IsDev(v) <==> v.pre == Some("dev")
    ensures IsAlpha(v) <==> v.pre == Some("alpha")
    ensures IsBeta(v) <==> v.pre == Some("beta")
    ensures IsRc(v) <==> v.pre == Some("rc")
    ensures IsNightly(v) <==> v.build == Some("nightly")
    ensures IsCi(v) <==> v.build == Some("ci")
    ensures (if IsDev(v) then 1 else 0) + (if IsAlpha(v) then 1 else 0)
            + (if IsBeta(v) then 1 else 0) + (if IsRc(v) then 1 else 0) <= 1
    ensures !(IsNightly(v) && IsCi(v))
  {
    if v.pre.Some? {
      var p := v.pre.value;
      assert p == "dev" ==> p != "alpha" && p != "beta" && p != "rc" by {
        if p == "dev" { assert p[0] == 'd'; }
      }
      assert p == "alpha" ==> p != "beta" && p != "rc" by {
        if p == "alpha" { assert p[0] == 'a'; }
      }
      assert p == "beta" ==> p != "rc" by {
        if p == "beta" { assert p[0] == 'b'; }
      }
    }
    if v.build.Some? {
      var b := v.build.value;
      assert b == "nightly" ==> b != "ci" by {
        if b == "nightly" { assert b[0] == 'n'; }
      }
    }
  }

  /** `PartialEq` (mod.rs:181-189): all five fields, the build tag too. */
  predicate Eq(a: Version, b: Version)
  {
    a.major == b.major && a.minor == b.minor && a.patch == b.patch && a.pre == b.pre && a.build == b.build
  }

  /** That is equality of the values. */
  lemma EqIsIdentity(a: Version, b: Version)
    ensures Eq(a, b) <==> a == b
  {
  }

  /** `u8::cmp` */
  function CompareNumbers(x: u8, y: u8): (o: Ordering)
    ensures o == Less <==> x < y
    ensures o == Equal <==> x == y
  {
    if x < y then Less else if x == y then Equal else Greater
  }

  /** `PartialOrd` (mod.rs:193-216): major, minor, patch; then a
      pre-release ranks below the stable version; two pre-releases by
      their tags. The build tag is ignored. It never answers None. */
  function PartialCmp(a: Version, b: Version): (o: Ordering)
    ensures o == Equal <==> a.major == b.major && a.minor == b.minor && a.patch == b.patch && a.pre == b.pre
  {
    if a.major != b.major then CompareNumbers(a.major, b.major)
    else if a.minor != b.minor then CompareNumbers(a.minor, b.minor)
    else if a.patch != b.patch then CompareNumbers(a.patch, b.patch)
    else if a.pre.Some? && b.pre.None? then Less
    else if a.pre.None? && b.pre.Some? then Greater
    else if a.pre.Some? && b.pre.Some? && a.pre != b.pre then
      CompareStringsEqual(a.pre.value, b.pre.value);
      CompareStrings(a.pre.value, b.pre.value)
    else Equal
  }

  /** Swapping the operands reverses the answer. */
  lemma CmpAntisymmetric(a: Version, b: Version)
    ensures PartialCmp(b, a) == PartialCmp(a, b).Reverse()
  {
    if a.pre.Some? && b.pre.Some? {
      CompareStringsAntisymmetric(a.pre.value, b.pre.value);
    }
  }

  /** The order is transitive. */
  lemma CmpTransitive(a: Version, b: Version, c: Version)
    requires PartialCmp(a, b) == Less && PartialCmp(b, c) == Less
    ensures PartialCmp(a, c) == Less
  {
    if a.major == b.major == c.major && a.minor == b.minor == c.minor && a.patch == b.patch == c.patch
       && a.pre.Some? && b.pre.Some? && c.pre.Some? {
      CompareStringsEqual(a.pre.value, b.pre.value);
      CompareStringsEqual(b.pre.value, c.pre.value);
      CompareStringsEqual(a.pre.value, c.pre.value);
      CompareStringsTransitive(a.pre.value, b.pre.value, c.pre.value);
    }
  }

  /** A pre-release ranks below the stable release of the same numbers,
      and the build tag never changes the order. */
  lemma PrereleaseBelowStable(a: Version, b: Version, build: Option<string>)
    ensures (a.major == b.major && a.minor == b.minor && a.patch == b.patch && IsPrerelease(a) && IsStable(b))
            ==> PartialCmp(a, b) == Less
    ensures PartialCmp(a.(build := build), b) == PartialCmp(a, b)
  {
  }

  /** Equality and order disagree: versions that differ only in the
      build tag are unequal, yet compare Equal. */
  lemma EqDisagreesWithCmp()
    ensures var a := Version(1, 0, 0, None, Some("ci"));
            var b := Version(1, 0, 0, None, None);
            !Eq(a, b) && PartialCmp(a, b) == Equal
  {
  }

  /** `str::splitn(2, c)`: the text before the first `c`, and the text
      after it when there is one. */
  function SplitOnce(s: string, c: char): (r: (string, Option<string>))
    ensures r.1.None? ==> r.0 == s && c !in s
    ensures r.1.Some? ==> s == r.0 + [c] + r.1.value && c !in r.0
  {
    if |s| == 0 then ("", None)
    else if s[0] == c then
      assert s == "" + [c] + s[1..];
      ("", Some(s[1..]))
    else
      var (before, after) := SplitOnce(s[1..], c);
      assert s == [s[0]] + s[1..];
      (([s[0]] + before), after)
  }

  /** Splitting skips a prefix without the separator. */
  lemma {:induction false} SplitOnceAppend(x: string, y: string, c: char)
    requires c !in x
    ensures SplitOnce(x + y, c) == (x + SplitOnce(y, c).0, SplitOnce(y, c).1)
    decreases |x|
  {
    if |x| > 0 {
      var t := x + y;
      assert t[0] == x[0] && t[0] != c;
      assert t[1..] == x[1..] + y;
      SplitOnceAppend(x[1..], y, c);
      var before := SplitOnce(y, c).0;
      assert SplitOnce(t, c).0 == [x[0]] + (x[1..] + before);
      assert [x[0]] + (x[1..] + before) == x + before;
    } else {
      assert x + y == y;
      assert x + SplitOnce(y, c).0 == SplitOnce(y, c).0;
    }
  }

  /** The kinds of `ParseIntError`. */
  datatype IntErrorKind = Empty | InvalidDigit | PosOverflow
  {
    function Name(): string
    {
      match this
      case Empty => "Empty"
      case InvalidDigit => "InvalidDigit"
      case PosOverflow => "PosOverflow"
    }
  }

  /** The abort of unwrapping a failed integer parse. */
  function ParseIntAbort(kind: IntErrorKind): string
  {
    "called `Result::unwrap()` on an `Err` value: ParseIntError { kind: " + kind.Name() + " }"
  }

  /** `str::parse::<u8>`: an optional `+`, then decimal digits, read from
      the left; a non-digit is InvalidDigit, a value above 255 is
      PosOverflow, the empty text (or a lone sign) is an error too. */
  function ParseU8(s: string): (r: Result<u8>)
    ensures r.Ok? ==> |s| > 0
  {
    if |s| == 0 then Err(ParseIntAbort(Empty))
    else if (s[0] == '+' || s[0] == '-') && |s| == 1 then Err(ParseIntAbort(InvalidDigit))
    else if s[0] == '+' then ScanU8(s[1..], 0)
    else ScanU8(s, 0)
  }

  function ScanU8(s: string, acc: u8): Result<u8>
  {
    if |s| == 0 then Ok(acc)
    else if !Decimal.IsDigit(s[0]) then Err(ParseIntAbort(InvalidDigit))
    else
      var next := acc * 10 + (s[0] as int - '0' as int);
      if next > 255 then Err(ParseIntAbort(PosOverflow)) else ScanU8(s[1..], next)
  }

  /** Scanning digits that fit gives their value. */
  lemma {:induction false} ScanDigits(s: string, acc: u8)
    requires Decimal.AllDigits(s)
    requires acc * Decimal.Pow10(|s|) + Decimal.Value(s) <= 255
    ensures ScanU8(s, acc) == Ok(acc * Decimal.Pow10(|s|) + Decimal.Value(s))
    decreases |s|
  {
    if |s| > 0 {
      var d := s[0] as int - '0' as int;
      var k := |s| - 1;
      var p := Decimal.Pow10(k);
      Decimal.ValueFront(s);
      var next := acc * 10 + d;
      assert Decimal.Pow10(|s|) == 10 * p;
      ScanStep(acc, d, p, Decimal.Value(s[1..]));
      ScanDigits(s[1..], next);
    }
  }

  /** One digit more: the accumulator moves one place up. */
  lemma ScanStep(acc: nat, d: nat, p: nat, rest: nat)
    requires p >= 1
    ensures acc * (10 * p) + (d * p + rest) == (acc * 10 + d) * p + rest
    ensures acc * 10 + d <= (acc * 10 + d) * p
  {
  }

  /** Parsing the decimal text of a u8 gives it back. */
  lemma ParseU8Show(n: u8)
    ensures ParseU8(Decimal.Show(n)) == Ok(n)
  {
    Decimal.ValueShow(n);
    ParseDigits(Decimal.Show(n));
  }

  /** A non-empty digit string of value at most 255 parses to its value. */
  lemma ParseDigits(s: string)
    requires 0 < |s| && Decimal.AllDigits(s) && Decimal.Value(s) <= 255
    ensures ParseU8(s) == Ok(Decimal.Value(s))
  {
    assert 0 * Decimal.Pow10(|s|) == 0;
    ScanDigits(s, 0);
    assert Decimal.IsDigit(s[0]);
  }

  /** Digits contain none of the separators. */
  lemma ShowHasNoSeparator(n: nat)
    ensures '.' !in Decimal.Show(n) && '-' !in Decimal.Show(n) && '+' !in Decimal.Show(n)
  {
    var s := Decimal.Show(n);
    assert forall i :: 0 <= i < |s| ==> Decimal.IsDigit(s[i]);
  }

  /** `From<&str>` (mod.rs:92-107): aborts without a leading `v`; drops
      everything from the first `-`, then from the first `+`; reads
      major, minor and patch from the first three `.`-separated fields,
      aborting when one is missing or is not a u8; whatever follows a
      fourth `.` becomes the pre-release tag; the build tag is always
      None. */
  function Parse(input: string): (r: Result<Version>)
    ensures (|input| == 0 || input[0] != 'v') ==> r == Err(ERR_UNWRAP)
    ensures r.Ok? ==> r.value.build.None?
    ensures r.Ok? && r.value.pre.Some? ==> '-' !in r.value.pre.value && '+' !in r.value.pre.value
  {
    if |input| == 0 || input[0] != 'v' then Err(ERR_UNWRAP)
    else ParseCore(Core(input[1..]))
  }

  /** The part of the text after `v` that is read: before the first `-`,
      then before the first `+`. */
  function Core(s: string): (core: string)
    ensures '-' !in core && '+' !in core
  {
    SplitOnce(SplitOnce(s, '-').0, '+').0
  }

  /** The three numbers and the optional fourth field of the core text. */
  function ParseCore(core: string): (r: Result<Version>)
    ensures r.Ok? ==> r.value.build.None?
    ensures r.Ok? && r.value.pre.Some? ==>
              ('-' in r.value.pre.value ==> '-' in core) && ('+' in r.value.pre.value ==> '+' in core)
  {
    var (majorText, afterMajor) := SplitOnce(core, '.');
    match ParseU8(majorText)
    case Err(e) => Err(e)
    case Ok(major) =>
      if afterMajor.None? then Err(ERR_OPTION_UNWRAP)
      else
        var (minorText, afterMinor) := SplitOnce(afterMajor.value, '.');
        match ParseU8(minorText)
        case Err(e) => Err(e)
        case Ok(minor) =>
          if afterMinor.None? then Err(ERR_OPTION_UNWRAP)
          else
            var (patchText, pre) := SplitOnce(afterMinor.value, '.');
            match ParseU8(patchText)
            case Err(e) => Err(e)
            case Ok(patch) => Ok(Version(major, minor, patch, pre, None))
  }

  /** Splitting at a first separator. */
  lemma {:induction false} SplitAt(a: string, rest: string, c: char)
    requires c !in a
    ensures SplitOnce(a + [c] + rest, c) == (a, Some(rest))
    decreases |a|
  {
    var s := a + [c] + rest;
    if |a| == 0 {
      assert s == [c] + rest;
      assert s[0] == c && s[1..] == rest;
    } else {
      assert s[0] == a[0] && s[1..] == a[1..] + [c] + rest;
      SplitAt(a[1..], rest, c);
      assert [a[0]] + a[1..] == a;
    }
  }

  /** Text without a separator is not split. */
  lemma SplitNone(a: string, c: char)
    requires c !in a
    ensures SplitOnce(a, c) == (a, None)
  {
    SplitOnceAppend(a, [], c);
    assert a + [] == a;
  }

  /** A `-` or `+` right after the numbers ends the core text. */
  lemma CoreStopsAtTag(text: string, tail: string)
    requires '-' !in text && '+' !in text
    requires tail == [] || tail[0] == '-' || tail[0] == '+'
    ensures Core(text + tail) == text
  {
    SplitOnceAppend(text, tail, '-');
    if tail != [] && tail[0] == '+' {
      CoreStopsAtBuild(text, tail);
    } else {
      assert SplitOnce(tail, '-').0 == [];
      assert SplitOnce(text + tail, '-').0 == text;
      SplitNone(text, '+');
    }
  }

  /** A `+` right after the numbers ends the core text. */
  lemma CoreStopsAtBuild(text: string, tail: string)
    requires '-' !in text && '+' !in text
    requires tail != [] && tail[0] == '+'
    requires SplitOnce(text + tail, '-').0 == text + SplitOnce(tail, '-').0
    ensures Core(text + tail) == text
  {
    var after := tail[1..];
    assert tail == ['+'] + after;
    SplitOnceAppend(['+'], after, '-');
    CoreBeforePlus(text + tail, text, SplitOnce(after, '-').0);
  }

  /** Text whose part before the first `-` is `text + "+" + r` has core `text`. */
  lemma CoreBeforePlus(s: string, text: string, r: string)
    requires '+' !in text
    requires SplitOnce(s, '-').0 == text + (['+'] + r)
    ensures Core(s) == text
  {
    assert text + (['+'] + r) == text + ['+'] + r;
    SplitAt(text, r, '+');
  }

  /** The fourth field as it follows the patch number. */
  function PreField(pre: Option<string>): string
  {
    if pre.Some? then "." + pre.value else ""
  }

  /** Regrouping the fields of a version text. */
  lemma FieldsAssoc(a: string, b: string, c: string, tail: string)
    ensures a + "." + b + "." + c + tail == a + ['.'] + (b + ['.'] + (c + tail))
  {
  }

  /** The core text of three numbers and an optional fourth field. */
  lemma ParseCoreFields(a: string, b: string, c: string, x: u8, y: u8, z: u8, pre: Option<string>)
    requires '.' !in a && '.' !in b && '.' !in c
    requires ParseU8(a) == Ok(x) && ParseU8(b) == Ok(y) && ParseU8(c) == Ok(z)
    ensures ParseCore(a + "." + b + "." + c + PreField(pre)) == Ok(Version(x, y, z, pre, None))
  {
    var rest2 := c + PreField(pre);
    var rest1 := b + ['.'] + rest2;
    FieldsAssoc(a, b, c, PreField(pre));
    SplitAt(a, rest1, '.');
    SplitAt(b, rest2, '.');
    if pre.Some? {
      assert rest2 == c + ['.'] + pre.value;
      SplitAt(c, pre.value, '.');
    } else {
      SplitNone(c, '.');
      assert rest2 == c;
    }
  }

  /** The three numbers followed by nothing, or by a `-` or `+` tag,
      read back as a stable version without build tag. */
  lemma ParseNumbers(v: Version, tail: string)
    requires tail == [] || tail[0] == '-' || tail[0] == '+'
    ensures Parse("v" + NumbersText(v) + tail) == Ok(Version(v.major, v.minor, v.patch, None, None))
  {
    ShowHasNoSeparator(v.major);
    ShowHasNoSeparator(v.minor);
    ShowHasNoSeparator(v.patch);
    ParseU8Show(v.major);
    ParseU8Show(v.minor);
    ParseU8Show(v.patch);
    ParseFieldsTagged(Decimal.Show(v.major), Decimal.Show(v.minor), Decimal.Show(v.patch),
                      v.major, v.minor, v.patch, tail);
  }

  /** `v{a}.{b}.{c}` followed by nothing or by a tag, for any three
      number texts. */
  lemma ParseFieldsTagged(a: string, b: string, c: string, x: u8, y: u8, z: u8, tail: string)
    requires '.' !in a && '.' !in b && '.' !in c
    requires '-' !in a && '-' !in b && '-' !in c && '+' !in a && '+' !in b && '+' !in c
    requires ParseU8(a) == Ok(x) && ParseU8(b) == Ok(y) && ParseU8(c) == Ok(z)
    requires tail == [] || tail[0] == '-' || tail[0] == '+'
    ensures Parse("v" + (a + "." + b + "." + c) + tail) == Ok(Version(x, y, z, None, None))
  {
    var text := a + "." + b + "." + c;
    assert ("v" + text + tail)[1..] == text + tail;
    CoreStopsAtTag(text, tail);
    ParseCoreFields(a, b, c, x, y, z, None);
    assert text + PreField(None) == text;
  }

  /** Reading back the text of a version keeps the numbers but loses the
      pre-release and build tags: `-` and `+` end the parsed part. */
  lemma ParseToString(v: Version)
    ensures Parse(ToString(v)) == Ok(Version(v.major, v.minor, v.patch, None, None))
    ensures Parse(ToString(v)) == Ok(v) <==> IsStable(v) && !IsBuild(v)
  {
    var pre := match v.pre case Some(p) => "-" + p case None => "";
    var build := match v.build case Some(b) => "+" + b case None => "";
    assert ToString(v) == "v" + NumbersText(v) + (pre + build);
    if pre != [] {
      assert (pre + build)[0] == '-';
    } else if build != [] {
      assert (pre + build)[0] == '+';
    } else {
      assert pre + build == [];
    }
    ParseNumbers(v, pre + build);
  }

  /** The pre-release tag is read only from a fourth `.`-separated field. */
  lemma ParseDottedPre(v: Version, p: string)
    requires '-' !in p && '+' !in p
    ensures Parse("v" + NumbersText(v) + "." + p) == Ok(Version(v.major, v.minor, v.patch, Some(p), None))
  {
    ShowHasNoSeparator(v.major);
    ShowHasNoSeparator(v.minor);
    ShowHasNoSeparator(v.patch);
    ParseU8Show(v.major);
    ParseU8Show(v.minor);
    ParseU8Show(v.patch);
    ParseFieldsDotted(Decimal.Show(v.major), Decimal.Show(v.minor), Decimal.Show(v.patch),
                      v.major, v.minor, v.patch, p);
  }

  /** `v{a}.{b}.{c}.{p}` for any three number texts and a tag-free `p`. */
  lemma ParseFieldsDotted(a: string, b: string, c: string, x: u8, y: u8, z: u8, p: string)
    requires '.' !in a && '.' !in b && '.' !in c
    requires '-' !in a && '-' !in b && '-' !in c && '+' !in a && '+' !in b && '+' !in c
    requires ParseU8(a) == Ok(x) && ParseU8(b) == Ok(y) && ParseU8(c) == Ok(z)
    requires '-' !in p && '+' !in p
    ensures Parse("v" + (a + "." + b + "." + c) + "." + p) == Ok(Version(x, y, z, Some(p), None))
  {
    var text := a + "." + b + "." + c + PreField(Some(p));
    assert ("v" + (a + "." + b + "." + c) + "." + p)[1..] == text + [];
    CoreStopsAtTag(text, []);
    assert text + [] == text;
    ParseCoreFields(a, b, c, x, y, z, Some(p));
  }

  /** The first index of `b`, or None. */
  function FirstIndex(bytes: seq<u8>, b: u8): (r: Option<nat>)
    ensures r.None? <==> b !in bytes
    ensures r.Some? ==> r.value < |bytes| && bytes[r.value] == b && b !in bytes[..r.value]
  {
    if |bytes| == 0 then None
    else if bytes[0] == b then Some(0)
    else match FirstIndex(bytes[1..], b)
      case None => None
      case Some(i) =>
        assert bytes[..i + 1] == [bytes[0]] + bytes[1..][..i];
        Some(i + 1)
  }

  /** `iter().position(|&x| x == b)` */
  method Position(bytes: seq<u8>, b: u8) returns (r: Option<nat>)
    ensures r == FirstIndex(bytes, b)
  {
    var i := 0;
    while i < |bytes|
      invariant 0 <= i <= |bytes|
      invariant FirstIndex(bytes, b) == (match FirstIndex(bytes[i..], b) case None => None case Some(j) => Some(i + j))
    {
      if bytes[i] == b {
        return Some(i);
      }
      assert bytes[i..][1..] == bytes[i + 1..];
      i := i + 1;
    }
    assert bytes[i..] == [];
    return None;
  }

  /** `String::from_utf8`, for ASCII bytes. */
  function AsciiText(bytes: seq<u8>): (r: Option<string>)
    ensures r.Some? <==> forall i :: 0 <= i < |bytes| ==> bytes[i] < 128
    ensures r.Some? ==> |r.value| == |bytes| && forall i :: 0 <= i < |bytes| ==> r.value[i] as int == bytes[i]
  {
    if forall i :: 0 <= i < |bytes| ==> bytes[i] < 128 then
      Some(seq(|bytes|, i requires 0 <= i < |bytes| => bytes[i] as char))
    else None
  }

  /** The text of ASCII bytes is the text with those codes. */
  lemma AsciiTextIs(bytes: seq<u8>, text: string)
    requires |text| == |bytes|
    requires forall i :: 0 <= i < |bytes| ==> bytes[i] < 128 && text[i] as int == bytes[i]
    ensures AsciiText(bytes) == Some(text)
  {
    var t := AsciiText(bytes).value;
    forall i | 0 <= i < |t|
      ensures t[i] == text[i]
    {
      assert t[i] as int == text[i] as int;
    }
    assert t == text;
  }

  /** The specification of `From<&[u8]>` (mod.rs:122-138). */
  function VersionFromBytes(input: seq<u8>): (r: Result<Version>)
    ensures r.Ok? <==> |input| >= 3
                       && (FirstIndex(input[3..], 45).Some? ==> AsciiText(input[3..][FirstIndex(input[3..], 45).value..]).Some?)
                       && (var kept := if FirstIndex(input[3..], 45).Some? then input[3..][..FirstIndex(input[3..], 45).value] else input[3..];
                           FirstIndex(kept, 43).Some? ==> AsciiText(kept[FirstIndex(kept, 43).value..]).Some?)
    ensures r.Ok? ==> r.value.major == input[0] && r.value.minor == input[1] && r.value.patch == input[2]
    ensures r.Ok? ==> (r.value.pre.Some? <==> 45 in input[3..])
    ensures r.Ok? && r.value.pre.Some? ==> |r.value.pre.value| > 0 && r.value.pre.value[0] == '-'
    ensures r.Ok? && r.value.build.Some? ==> |r.value.build.value| > 0 && r.value.build.value[0] == '+'
    ensures |input| < 3 ==> r == Err(ERR_REMOVE)
  {
    if |input| < 3 then Err(ERR_REMOVE)
    else
      var rest := input[3..];
      var dash := FirstIndex(rest, 45);
      var kept := if dash.Some? then rest[..dash.value] else rest;
      var preText := if dash.Some? then AsciiText(rest[dash.value..]) else None;
      if dash.Some? && preText.None? then Err(ERR_UTF8)
      else
        var plus := FirstIndex(kept, 43);
        var buildText := if plus.Some? then AsciiText(kept[plus.value..]) else None;
        if plus.Some? && buildText.None? then Err(ERR_UTF8)
        else
          Ok(Version(input[0], input[1], input[2], preText, buildText))
  }

  /** `From<&[u8]>` (mod.rs:122-138): removes the three number bytes from
      the front, then drains the pre-release tag from the first `-`
      (included) and, from what is left, the build tag from the first
      `+` (included). */
  method FromBytes(input: seq<u8>) returns (r: Result<Version>)
    ensures r == VersionFromBytes(input)
  {
    var bytes := input;
    if |bytes| == 0 {
      return Err(ERR_REMOVE);
    }
    var major := bytes[0];
    bytes := bytes[1..];
    if |bytes| == 0 {
      return Err(ERR_REMOVE);
    }
    var minor := bytes[0];
    bytes := bytes[1..];
    if |bytes| == 0 {
      return Err(ERR_REMOVE);
    }
    var patch := bytes[0];
    bytes := bytes[1..];
    assert bytes == input[3..];
    var pre: Option<string> := None;
    var build: Option<string> := None;
    var dash := Position(bytes, 45);
    if dash.Some? {
      var drained := bytes[dash.value..];
      bytes := bytes[..dash.value];
      var text := AsciiText(drained);
      if text.None? {
        return Err(ERR_UTF8);
      }
      pre := text;
    }
    var plus := Position(bytes, 43);
    if plus.Some? {
      var drained := bytes[plus.value..];
      bytes := bytes[..plus.value];
      var text := AsciiText(drained);
      if text.None? {
        return Err(ERR_UTF8);
      }
      build := text;
    }
    r := Ok(New(major, minor, patch, pre, build));
  }

  /** A `-` first: everything from it, the `+` included, is the
      pre-release tag. */
  lemma FromBytesDashFirst(major: u8, minor: u8, patch: u8)
    ensures VersionFromBytes([major, minor, patch, 45, 98, 43, 99])
            == Ok(Version(major, minor, patch, Some("-b+c"), None))
  {
    var a: seq<u8> := [45, 98, 43, 99];
    assert [major, minor, patch, 45, 98, 43, 99][3..] == a;
    assert FirstIndex(a, 45) == Some(0);
    assert a[0..] == a;
    AsciiTextIs(a, "-b+c");
  }

  /** A `+` first: the text from the `-` is the pre-release tag and the
      text before it, from the `+`, the build tag. */
  lemma FromBytesPlusFirst(major: u8, minor: u8, patch: u8)
    ensures VersionFromBytes([major, minor, patch, 43, 99, 45, 98])
            == Ok(Version(major, minor, patch, Some("-b"), Some("+c")))
  {
    var b: seq<u8> := [43, 99, 45, 98];
    assert [major, minor, patch, 43, 99, 45, 98][3..] == b;
    assert FirstIndex(b[1..], 45) == Some(1);
    assert FirstIndex(b, 45) == Some(2);
    assert b[..2] == [43, 99] && b[2..] == [45, 98];
    AsciiTextIs([45, 98], "-b");
    assert FirstIndex([43, 99], 43) == Some(0);
    AsciiTextIs([43, 99], "+c");
  }

  /** Three bytes alone are the triple's version; a `+` after a `-` stays
      in the pre-release tag, while `+c-b` splits into both tags. */
  lemma FromBytesExamples(major: u8, minor: u8, patch: u8)
    ensures VersionFromBytes([major, minor, patch]) == Ok(FromTriple(major, minor, patch))
    ensures VersionFromBytes([major, minor, patch, 45, 98, 43, 99])
            == Ok(Version(major, minor, patch, Some("-b+c"), None))
    ensures VersionFromBytes([major, minor, patch, 43, 99, 45, 98])
            == Ok(Version(major, minor, patch, Some("-b"), Some("+c")))
  {
    assert [major, minor, patch][3..] == [];
    FromBytesDashFirst(major, minor, patch);
    FromBytesPlusFirst(major, minor, patch);
  }
}
