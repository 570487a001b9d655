/** The account-id syntax check shared by the free `is_valid` and
    `Id::validate` of `art-spot` and by `Id::validate` of `as-sdk`: a
    length window, then a left-to-right scan of the characters that keeps
    one flag saying whether the previous character was a separator. Only
    `a-z`, `0-9`, `-` and `_` are accepted, so a `.` is never valid.
    Lengths count characters; the source counts UTF-8 bytes, which is
    the same for every string the scan can accept. */
module IdSyntax {
  import opened Wrappers
  import Decimal

  const MIN_LENGTH: nat := 2
  const MAX_LENGTH: nat := 64

  predicate IsSeparator(c: char)
  {
    c == '-' || c == '_'
  }

  predicate IsIdChar(c: char)
  {
    'a' <= c <= 'z' || '0' <= c <= '9' || IsSeparator(c)
  }

  /** The accepted language, stated directly: a length within bounds,
      only id characters, no separator at either end and no two
      separators in a row. */
  predicate WellFormed(s: string)
  {
    MIN_LENGTH <= |s| <= MAX_LENGTH
    && (forall i :: 0 <= i < |s| ==> IsIdChar(s[i]))
    && !IsSeparator(s[0]) && !IsSeparator(s[|s| - 1])
    && (forall i :: 0 < i < |s| ==> !(IsSeparator(s[i - 1]) && IsSeparator(s[i])))
  }

  const ARTSPOT_ID: string := "art-spot.near"
  const NEAR_ID: string := "near"

  /** `str::ends_with` */
  predicate EndsWith(s: string, suffix: string)
  {
    |suffix| <= |s| && s[|s| - |suffix|..] == suffix
  }

  /** `str::strip_suffix`: the text before `suffix`, when `s` ends with it. */
  function StripSuffix(s: string, suffix: string): (r: Option<string>)
    ensures r.Some? <==> EndsWith(s, suffix)
    ensures r.Some? ==> r.value + suffix == s
  {
    if EndsWith(s, suffix) then Some(s[..|s| - |suffix|]) else None
  }

  /** A valid name has no `.`, so it never ends with the dotted art-spot
      suffix. */
  lemma WellFormedNotArtSpotSuffixed(s: string)
    requires WellFormed(s)
    ensures !EndsWith(s, ARTSPOT_ID)
  {
    if |s| >= |ARTSPOT_ID| {
      assert s[|s| - |ARTSPOT_ID|..][8] == s[|s| - 5];
      assert IsIdChar(s[|s| - 5]);
    }
  }

  datatype IdError = Invalid(c: char) | TooShort(len: nat) | TooLong(len: nat)
  {
    /** The `Display` text the contracts panic with. */
    function Message(): (m: string)
      ensures |m| > 0
    {
      match this
      case Invalid(c) => "Invalid character: '" + [c] + "'"
      case TooShort(n) => "Id is too short: " + Decimal.Show(n)
      case TooLong(n) => "Id is too long: " + Decimal.Show(n)
    }
  }

  /** What the scan reports for the rest `s` of the input after a
      character that was (`lastSep`) or was not a separator: the first
      offending character, or `-` when the input ends on a separator. */
  function Scan(s: string, lastSep: bool): Option<char>
  {
    if |s| == 0 then (if lastSep then Some('-') else None)
    else if !IsIdChar(s[0]) then Some(s[0])
    else if IsSeparator(s[0]) && lastSep then Some(s[0])
    else Scan(s[1..], IsSeparator(s[0]))
  }

  /** The result of `validate` (None is `Ok(())`). */
  function Validation(s: string): (e: Option<IdError>)
    ensures e == Some(TooShort(|s|)) <==> |s| < MIN_LENGTH
    ensures e == Some(TooLong(|s|)) <==> |s| > MAX_LENGTH
  {
    if |s| < MIN_LENGTH then Some(TooShort(|s|))
    else if |s| > MAX_LENGTH then Some(TooLong(|s|))
    else match Scan(s, true)
      case Some(c) => Some(Invalid(c))
      case None => None
  }

  /** The scan from any state accepts exactly the strings with only id
      characters, no doubled separator, no separator right after a
      separator state, and no separator (or, from that state, nothing)
      at the end. */
  lemma {:induction false} ScanAccepts(s: string, lastSep: bool)
    ensures Scan(s, lastSep).None? <==>
              (forall i :: 0 <= i < |s| ==> IsIdChar(s[i]))
              && (forall i :: 0 < i < |s| ==> !(IsSeparator(s[i - 1]) && IsSeparator(s[i])))
              && (|s| == 0 ==> !lastSep)
              && (|s| > 0 ==> !(lastSep && IsSeparator(s[0])) && !IsSeparator(s[|s| - 1]))
    decreases |s|
  {
    if |s| > 0 && IsIdChar(s[0]) && !(IsSeparator(s[0]) && lastSep) {
      var t := s[1..];
      ScanAccepts(t, IsSeparator(s[0]));
      assert forall i :: 0 <= i < |t| ==> t[i] == s[i + 1];
      if |t| > 0 {
        assert s[|s| - 1] == t[|t| - 1];
      }
    }
  }

  /** Every error the scan reports names a character of the input, or
      is the `-` reported for a trailing separator. */
  lemma {:induction false} ScanReportsInputChar(s: string, lastSep: bool)
    ensures Scan(s, lastSep).Some? ==> Scan(s, lastSep).value in s || Scan(s, lastSep).value == '-'
    decreases |s|
  {
    if |s| > 0 && IsIdChar(s[0]) && !(IsSeparator(s[0]) && lastSep) {
      ScanReportsInputChar(s[1..], IsSeparator(s[0]));
    }
  }

  /** `validate` is Ok exactly on the well-formed ids. */
  lemma ValidationOk(s: string)
    ensures Validation(s).None? <==> WellFormed(s)
  {
    ScanAccepts(s, true);
  }

  /** A `.` is never accepted, so no dotted NEAR account name validates. */
  lemma DotNeverValid(s: string)
    requires '.' in s
    ensures !WellFormed(s) && Validation(s).Some?
  {
    ValidationOk(s);
  }

  /** `Id::validate` (art-spot id.rs:96-126, as-sdk id/mod.rs:60-90): the
      length checks, then the character scan with the separator flag. */
  method Validate(s: string) returns (e: Option<IdError>)
    ensures e == Validation(s)
    ensures e.None? <==> WellFormed(s)
  {
    ValidationOk(s);
    if |s| < MIN_LENGTH {
      return Some(TooShort(|s|));
    } else if |s| > MAX_LENGTH {
      return Some(TooLong(|s|));
    }
    var lastSep := true;
    var i := 0;
    while i < |s|
      invariant 0 <= i <= |s|
      invariant Scan(s, true) == Scan(s[i..], lastSep)
    {
      assert s[i..][1..] == s[i + 1..];
      var c := s[i];
      if !IsIdChar(c) {
        return Some(Invalid(c));
      }
      var sep := IsSeparator(c);
      if sep && lastSep {
        return Some(Invalid(c));
      }
      lastSep := sep;
      i := i + 1;
    }
    if lastSep {
      return Some(Invalid('-'));
    }
    e := None;
  }

  /** `Id::is_valid` (art-spot id.rs:128-130, as-sdk id/mod.rs:92-94). */
  method IdIsValid(s: string) returns (b: bool)
    ensures b <==> Validation(s).None?
    ensures b <==> WellFormed(s)
  {
    var e := Validate(s);
    b := e.None?;
  }

  /** The free `is_valid` of art-spot (id.rs:16-53): the same scan with a
      boolean answer. */
  method IsValidAccountName(s: string) returns (b: bool)
    ensures b <==> WellFormed(s)
  {
    ValidationOk(s);
    if |s| < MIN_LENGTH {
      return false;
    } else if |s| > MAX_LENGTH {
      return false;
    }
    var lastSep := true;
    var i := 0;
    while i < |s|
      invariant 0 <= i <= |s|
      invariant Scan(s, true) == Scan(s[i..], lastSep)
    {
      assert s[i..][1..] == s[i + 1..];
      var sep: bool;
      if 'a' <= s[i] <= 'z' || '0' <= s[i] <= '9' {
        sep := false;
      } else if s[i] == '-' || s[i] == '_' {
        sep := true;
      } else {
        return false;
      }
      if sep && lastSep {
        return false;
      }
      lastSep := sep;
      i := i + 1;
    }
    b := !lastSep;
  }
}
