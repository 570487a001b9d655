/** The `Id` of the `art-spot` contract: a validated name and its kind.
    A NEAR id keeps its whole text; an art-spot id is stored without the
    `art-spot.near` suffix that makes it a NEAR account. */
module IdArtSpot {
  import opened Wrappers
  import opened IdSyntax
  import opened Ordering

  datatype IdType = Near | ArtSpot

  datatype Id = Id(s: string, kind: IdType)

  /** `Id::is_art_spot_id` (id.rs:88-90) */
  predicate IsArtSpotId(username: string)
  {
    EndsWith(username, ARTSPOT_ID)
  }

  /** `Id::is_near_id` (id.rs:92-94) */
  predicate IsNearId(username: string)
  {
    !EndsWith(username, ARTSPOT_ID) && EndsWith(username, NEAR_ID)
  }

  /** The art-spot suffix itself ends in `near`. */
  lemma ArtSpotSuffixEndsInNear(u: string)
    requires EndsWith(u, ARTSPOT_ID)
    ensures EndsWith(u, NEAR_ID)
  {
    assert u[|u| - 4..] == u[|u| - |ARTSPOT_ID|..][9..];
  }

  /** The two recognisers never both hold, and together they recognise
      exactly the names ending in `near`. */
  lemma ArtSpotOrNearId(u: string)
    ensures !(IsArtSpotId(u) && IsNearId(u))
    ensures IsArtSpotId(u) || IsNearId(u) <==> EndsWith(u, NEAR_ID)
  {
    if IsArtSpotId(u) {
      ArtSpotSuffixEndsInNear(u);
    }
  }

  /** The text `Id::new` validates and stores, and the kind it chooses. */
  function Classify(input: string): (c: (string, IdType))
    ensures EndsWith(input, ARTSPOT_ID) ==> c == (input[..|input| - |ARTSPOT_ID|], ArtSpot)
    ensures !EndsWith(input, ARTSPOT_ID) ==> c.0 == input
  {
    if EndsWith(input, ARTSPOT_ID) then (StripSuffix(input, ARTSPOT_ID).value, ArtSpot)
    else if EndsWith(input, NEAR_ID) then (input, Near)
    else if |input| == MAX_LENGTH then (input, Near)
    else (input, ArtSpot)
  }

  /** `Id::new` (id.rs:132-150): strips the art-spot suffix (kind
      ArtSpot); otherwise a name ending in `near`, or one of the maximum
      length, is Near and any other is ArtSpot; then aborts with the
      `validate` error unless the stored text validates. */
  function New(input: string): (r: Result<Id>)
    ensures r.Ok? <==> WellFormed(Classify(input).0)
    ensures r.Ok? ==> r.value == Id(Classify(input).0, Classify(input).1)
    ensures r.Ok? && !IsArtSpotId(input) ==>
              r.value.s == input
              && (r.value.kind == Near <==> EndsWith(input, NEAR_ID) || |input| == MAX_LENGTH)
    ensures r.Ok? && IsArtSpotId(input) ==> r.value.kind == ArtSpot && r.value.s + ARTSPOT_ID == input
    ensures r.Err? ==> Validation(Classify(input).0).Some? && r.msg == Validation(Classify(input).0).value.Message()
  {
    var (id, kind) := Classify(input);
    ValidationOk(id);
    match Validation(id)
    case Some(e) => Err(e.Message())
    case None => Ok(Id(id, kind))
  }

  /** Every input naming an account under `art-spot.near` with a dot in
      front of the suffix aborts, since the stripped text ends in `.`. */
  lemma NewDottedArtSpotAborts(x: string)
    ensures New(x + "." + ARTSPOT_ID).Err?
  {
    var input := x + "." + ARTSPOT_ID;
    assert EndsWith(input, ARTSPOT_ID);
    var stored := Classify(input).0;
    assert stored == x + ".";
    assert !IsIdChar(stored[|stored| - 1]);
  }

  /** Any other dotted input, such as `alice.near`, aborts as well. */
  lemma NewDottedAborts(input: string)
    requires '.' in input && !IsArtSpotId(input)
    ensures New(input).Err?
  {
    DotNeverValid(input);
  }

  /** The stored text is itself accepted by `Id::new`, and reading it
      back (which is how a stored id is deserialised) keeps the text. */
  lemma NewReparse(input: string)
    requires New(input).Ok?
    ensures New(New(input).value.s).Ok?
    ensures New(New(input).value.s).value.s == New(input).value.s
  {
    WellFormedNotArtSpotSuffixed(New(input).value.s);
  }

  /** ... but not necessarily the kind: `xnearart-spot.near` is the
      art-spot id `xnear`, which reads back as a Near id. */
  lemma ReparseMayChangeKind()
    ensures New("xnearart-spot.near") == Ok(Id("xnear", ArtSpot))
    ensures New("xnear") == Ok(Id("xnear", Near))
  {
    assert EndsWith("xnearart-spot.near", ARTSPOT_ID);
    assert Classify("xnearart-spot.near").0 == "xnear";
    assert !EndsWith("xnear", ARTSPOT_ID);
    assert EndsWith("xnear", NEAR_ID);
    assert WellFormed("xnear");
  }

  /** `Id::name` (id.rs:156-170): a Near id of the maximum length has no
      name; another Near id's name is its text without `near`; an
      art-spot id's name is its text. */
  function Name(id: Id): (r: Option<string>)
    ensures id.kind == ArtSpot ==> r == Some(id.s)
    ensures id.kind == Near && |id.s| == MAX_LENGTH ==> r.None?
    ensures id.kind == Near && |id.s| != MAX_LENGTH ==>
              (r.Some? <==> EndsWith(id.s, NEAR_ID)) && (r.Some? ==> r.value + NEAR_ID == id.s)
  {
    match id.kind
    case Near => if |id.s| == MAX_LENGTH then None else StripSuffix(id.s, NEAR_ID)
    case ArtSpot => Some(id.s)
  }

  /** For ids that `new` produced, the name is missing exactly for the
      Near ids of the maximum length. */
  lemma NameMissingOnlyForLongNearIds(input: string)
    requires New(input).Ok?
    ensures Name(New(input).value).None? <==>
              New(input).value.kind == Near && |New(input).value.s| == MAX_LENGTH
  {
  }

  /** `Id::to_account_id` (id.rs:172-177): an art-spot id becomes a
      sub-account of `art-spot.near`; a Near id is its own text. The
      host's account-id parser is not modelled (see README). */
  function ToAccountId(id: Id): (a: string)
    ensures id.kind == ArtSpot ==> StripSuffix(a, "." + ARTSPOT_ID) == Some(id.s)
    ensures id.kind == Near ==> a == id.s
  {
    match id.kind
    case Near => id.s
    case ArtSpot =>
      var a := id.s + "." + ARTSPOT_ID;
      assert a[..|id.s|] == id.s && a[|id.s|..] == "." + ARTSPOT_ID;
      a
  }

  /** The account id of a valid id is an art-spot account exactly when the
      id is of kind ArtSpot. */
  lemma AccountIdKind(id: Id)
    requires WellFormed(id.s)
    ensures IsArtSpotId(ToAccountId(id)) <==> id.kind == ArtSpot
  {
    if id.kind == Near {
      WellFormedNotArtSpotSuffixed(id.s);
    } else {
      var a := ToAccountId(id);
      assert a[|a| - |ARTSPOT_ID|..] == ARTSPOT_ID;
    }
  }

  /** `Id::new` does not read back the account id of an art-spot id: the
      stripped text keeps its trailing `.`. */
  lemma ArtSpotAccountIdDoesNotReparse(id: Id)
    requires id.kind == ArtSpot
    ensures New(ToAccountId(id)).Err?
  {
    assert ToAccountId(id) == id.s + "." + ARTSPOT_ID;
    NewDottedArtSpotAborts(id.s);
  }

  /** The account id of a Near id that `new` produced reads back as the
      same id. */
  lemma NearAccountIdReparses(input: string)
    requires New(input).Ok? && New(input).value.kind == Near
    ensures New(ToAccountId(New(input).value)) == New(input)
  {
    var id := New(input).value;
    WellFormedNotArtSpotSuffixed(id.s);
    if IsArtSpotId(input) {
      assert false;
    }
  }

  /** `PartialEq<Id>` (id.rs:272-276): only the text is compared. */
  predicate Eq(a: Id, b: Id)
  {
    a.s == b.s
  }

  /** `Ord` (id.rs:260-270): the order of the texts. */
  function Cmp(a: Id, b: Id): (o: Ordering)
    ensures o == Equal <==> Eq(a, b)
    ensures CompareStrings(b.s, a.s) == o.Reverse()
  {
    CompareStringsEqual(a.s, b.s);
    CompareStringsAntisymmetric(a.s, b.s);
    CompareStrings(a.s, b.s)
  }

  /** Equality and order ignore the kind. */
  lemma EqIgnoresKind(s: string, k1: IdType, k2: IdType)
    ensures Eq(Id(s, k1), Id(s, k2)) && Cmp(Id(s, k1), Id(s, k2)) == Equal
  {
  }

  /** `PartialEq<str>`, `PartialEq<&str>` and `PartialEq<String>`
      (id.rs:278-306): a NEAR name is compared as is, any other name
      without its art-spot suffix; a name that has neither shape aborts
      (None). */
  function EqStr(id: Id, other: string): (r: Option<bool>)
    ensures r.None? <==> !IsNearId(other) && !IsArtSpotId(other)
    ensures IsNearId(other) ==> r == Some(id.s == other)
    ensures IsArtSpotId(other) ==> r == Some(id.s + ARTSPOT_ID == other)
  {
    if IsNearId(other) then Some(id.s == other)
    else match StripSuffix(other, ARTSPOT_ID)
      case Some(stripped) => Some(id.s == stripped)
      case None => None
  }

  /** An art-spot id never equals its own account id as a string: the
      comparison strips `art-spot.near` but leaves the `.` before it. */
  lemma EqStrOwnArtSpotAccount(id: Id)
    requires WellFormed(id.s) && id.kind == ArtSpot
    ensures EqStr(id, ToAccountId(id)) == Some(false)
  {
    AccountIdKind(id);
    var a := ToAccountId(id);
    assert StripSuffix(a, ARTSPOT_ID).value == id.s + ".";
    assert |id.s + "."| != |id.s|;
  }

  /** A Near id whose text ends in `near` equals its own account id. */
  lemma EqStrOwnNearAccount(id: Id)
    requires WellFormed(id.s) && id.kind == Near && EndsWith(id.s, NEAR_ID)
    ensures EqStr(id, ToAccountId(id)) == Some(true)
  {
    WellFormedNotArtSpotSuffixed(id.s);
  }

  /** Comparing a maximum-length Near id without the `near` ending to its
      own account id aborts. */
  lemma EqStrOwnLongNearAccountAborts()
    ensures var id := New(seq(64, _ => 'a')).value;
            New(seq(64, _ => 'a')).Ok? && id.kind == Near && EqStr(id, ToAccountId(id)).None?
  {
    var input := seq(64, _ => 'a');
    assert !EndsWith(input, ARTSPOT_ID) by { assert input[|input| - 1] == 'a'; }
    assert !EndsWith(input, NEAR_ID) by { assert input[|input| - 1] == 'a'; }
    assert WellFormed(input);
  }
}
