/** The `Id` of the shared `as-sdk` crate: five kinds, including the
    implicit NEAR and Ethereum account forms. */
module IdSdk {
  import opened Wrappers
  import opened IdSyntax

  datatype IdType = ArtSpot | Near | NearImplicit | Ethereum | Other
  {
    /** `IdType::as_str` (id/mod.rs:30-38) */
    function AsStr(): (s: string)
      ensures |s| > 0
    {
      match this
      case Near => "near"
      case NearImplicit => "near-implicit"
      case ArtSpot => "art-spot"
      case Ethereum => "ethereum"
      case Other => "other"
    }
  }

  /** The five kinds have five different names. */
  lemma AsStrInjective(a: IdType, b: IdType)
    ensures a.AsStr() == b.AsStr() ==> a == b
  {
    if a != b {
      assert a.AsStr()[0] != b.AsStr()[0] || |a.AsStr()| != |b.AsStr()|;
    }
  }

  datatype Id = Id(s: string, kind: IdType)

  predicate IsLowerHex(c: char)
  {
    'a' <= c <= 'f' || '0' <= c <= '9'
  }

  /** `is_eth_implicit` (id/mod.rs:180-184): `0x` and 40 lower-case hex digits. */
  predicate IsEthImplicit(s: string)
  {
    |s| == 42 && s[..2] == "0x" && forall i :: 2 <= i < |s| ==> IsLowerHex(s[i])
  }

  /** `is_near_implicit` (id/mod.rs:186-192): 64 lower-case hex digits. */
  predicate IsNearImplicit(s: string)
  {
    |s| == 64 && forall i :: 0 <= i < |s| ==> IsLowerHex(s[i])
  }

  /** Both implicit forms pass the syntax check, and no string has both
      forms. */
  lemma ImplicitFormsWellFormed(s: string)
    ensures IsEthImplicit(s) ==> WellFormed(s)
    ensures IsNearImplicit(s) ==> WellFormed(s)
    ensures !(IsEthImplicit(s) && IsNearImplicit(s))
  {
    if IsEthImplicit(s) {
      assert s[0] == "0x"[0] && s[1] == "0x"[1];
    }
  }

  /** The text and kind `Id::new` chooses, and whether it validates them. */
  function Classify(input: string): (c: (string, IdType, bool))
    ensures c.2 <==> c.1 != Ethereum
    ensures c.1 != NearImplicit
  {
    if EndsWith(input, ARTSPOT_ID) then (StripSuffix(input, ARTSPOT_ID).value, ArtSpot, true)
    else if EndsWith(input, NEAR_ID) || IsNearImplicit(input) then (input, Near, true)
    else if IsEthImplicit(input) then (input, Ethereum, false)
    else if '.' in input then (input, Other, true)
    else (input, ArtSpot, true)
  }

  /** `Id::new` (id/mod.rs:96-115): the art-spot suffix is stripped (kind
      ArtSpot); a name ending in `near` or an implicit NEAR account is
      Near; an implicit Ethereum account is kept unchecked; a dotted name
      would be Other; anything else is ArtSpot. Except for Ethereum the
      stored text must pass `validate`, or the call aborts. */
  function New(input: string): (r: Result<Id>)
    ensures r.Ok? ==> WellFormed(r.value.s)
    ensures r.Ok? ==> r.value.kind != NearImplicit && r.value.kind != Other
    ensures r.Ok? && !EndsWith(input, ARTSPOT_ID) ==> r.value.s == input
    ensures r.Ok? && EndsWith(input, ARTSPOT_ID) ==> r.value.kind == ArtSpot && r.value.s + ARTSPOT_ID == input
    ensures (!EndsWith(input, ARTSPOT_ID) && !EndsWith(input, NEAR_ID) && !IsNearImplicit(input)
             && IsEthImplicit(input)) ==> r == Ok(Id(input, Ethereum))
    ensures !EndsWith(input, ARTSPOT_ID) ==>
              (r.Ok? <==> WellFormed(input))
              && (r.Ok? ==> (r.value.kind == Near <==> EndsWith(input, NEAR_ID) || IsNearImplicit(input)))
    ensures EndsWith(input, ARTSPOT_ID) ==> (r.Ok? <==> WellFormed(StripSuffix(input, ARTSPOT_ID).value))
    ensures (r.Ok? && !EndsWith(input, ARTSPOT_ID) && !EndsWith(input, NEAR_ID) && !IsNearImplicit(input)
             && !IsEthImplicit(input)) ==> r.value.kind == ArtSpot
    ensures r.Ok? <==> Classify(input).1 == Ethereum || WellFormed(Classify(input).0)
    ensures r.Ok? <==> WellFormed(Classify(input).0)
    ensures r.Ok? ==> r.value == Id(Classify(input).0, Classify(input).1)
    ensures r.Err? ==> Validation(Classify(input).0).Some?
                       && r.msg == Validation(Classify(input).0).value.Message()
  {
    var (id, kind, checked) := Classify(input);
    ValidationOk(id);
    ImplicitFormsWellFormed(id);
    if !checked then Ok(Id(id, kind))
    else match Validation(id)
      case Some(e) => Err(e.Message())
      case None => Ok(Id(id, kind))
  }

  /** The text `new` stores reads back as the same text, so an id
      survives the Borsh round trip of the contract's maps (whose decoder
      calls `new` again, id/serializers.rs:34-45). */
  lemma NewReparse(input: string)
    requires New(input).Ok?
    ensures New(New(input).value.s).Ok? && New(New(input).value.s).value.s == New(input).value.s
  {
    var id := New(input).value;
    WellFormedNotArtSpotSuffixed(id.s);
  }

  /** The Other branch is dead: a dotted name that does not end with the
      art-spot suffix always aborts. */
  lemma NewDottedAborts(input: string)
    requires '.' in input && !EndsWith(input, ARTSPOT_ID)
    ensures New(input).Err?
  {
    DotNeverValid(input);
  }

  /** An implicit NEAR account is classified Near, never NearImplicit. */
  lemma NewNearImplicit(input: string)
    requires IsNearImplicit(input)
    ensures New(input) == Ok(Id(input, Near))
  {
    ImplicitFormsWellFormed(input);
    WellFormedNotArtSpotSuffixed(input);
  }

  /** `Id::name` (id/mod.rs:121-139) */
  function Name(id: Id): (r: Option<string>)
    ensures id.kind == ArtSpot ==> r == Some(id.s)
    ensures id.kind == Near ==> (r.Some? <==> EndsWith(id.s, NEAR_ID)) && (r.Some? ==> r.value + NEAR_ID == id.s)
    ensures id.kind == Ethereum || id.kind == NearImplicit ==> r.None?
    ensures id.kind == Other ==> (r.Some? <==> '.' in id.s)
    ensures id.kind == Other && r.Some? ==> exists rest :: r.value + "." + rest == id.s && '.' !in rest
  {
    match id.kind
    case Near => StripSuffix(id.s, NEAR_ID)
    case NearImplicit => None
    case ArtSpot => Some(id.s)
    case Ethereum => None
    case Other => BeforeLastDot(id.s)
  }

  /** `rsplit_once('.')` keeping the part before the last `.`. */
  function BeforeLastDot(s: string): (r: Option<string>)
    ensures r.Some? <==> '.' in s
    ensures r.Some? ==> exists rest :: r.value + "." + rest == s && '.' !in rest
    decreases |s|
  {
    if |s| == 0 then None
    else if s[|s| - 1] == '.' then
      assert s[..|s| - 1] + "." + [] == s;
      Some(s[..|s| - 1])
    else
      var r := BeforeLastDot(s[..|s| - 1]);
      assert '.' in s <==> '.' in s[..|s| - 1] by {
        assert s == s[..|s| - 1] + [s[|s| - 1]];
      }
      if r.None? then None
      else
        var rest :| r.value + "." + rest == s[..|s| - 1] && '.' !in rest;
        assert r.value + "." + (rest + [s[|s| - 1]]) == s;
        Some(r.value)
  }

  /** A Near id whose text ends in `near` is named by the rest. */
  lemma NameOfNearId(x: string)
    requires New(x + NEAR_ID).Ok? && New(x + NEAR_ID).value.kind == Near
    ensures Name(New(x + NEAR_ID).value) == Some(x)
  {
    var input := x + NEAR_ID;
    assert EndsWith(input, NEAR_ID);
    if EndsWith(input, ARTSPOT_ID) {
      assert false;
    }
  }

  /** `Id::to_account_id` (id/mod.rs:141-149): only an art-spot id gains
      the `.art-spot.near` suffix; every other kind is its own text. */
  function ToAccountId(id: Id): (a: string)
    ensures id.kind == ArtSpot <==> a != id.s
    ensures id.kind == ArtSpot ==> |a| > |id.s| && a[..|id.s|] == id.s && a[|id.s|..] == "." + ARTSPOT_ID
  {
    match id.kind
    case ArtSpot => id.s + "." + ARTSPOT_ID
    case _ => id.s
  }
}
