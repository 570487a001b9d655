/** Checks the NEAR SDK performs on the host's inputs to a call. */
module NearHost {
  import opened Wrappers

  const ERR_ONE_YOCTO := "Requires attached deposit of exactly 1 yoctoNEAR"
  const ERR_ALREADY_INITIALIZED := "Already initialized"

  /** `near_sdk::assert_one_yocto`: exactly one yoctoNEAR must be
      attached (the usual proof that a full-access key signed the call). */
  function AssertOneYocto(attached: nat): (r: Outcome)
    ensures r.Pass? <==> attached == 1
    ensures r.Fail? ==> r.msg == ERR_ONE_YOCTO
  {
    if attached == 1 then Pass else Fail(ERR_ONE_YOCTO)
  }

  /** The gate of a `#[private]` method: only the contract's own account
      may call it, so callbacks cannot be forged by other accounts. */
  function AssertPrivate(methodName: string, predecessor: string, current: string): (r: Outcome)
    ensures r.Pass? <==> predecessor == current
    ensures r.Fail? ==> r.msg == "Method " + methodName + " is private"
  {
    if predecessor == current then Pass else Fail("Method " + methodName + " is private")
  }

  /** The gates of an `#[init] #[private]` constructor `new` that starts
      with `require!(!env::state_exists(), "Already initialized")`: the
      contract must call it on itself, and only once. */
  function AssertInit(predecessor: string, current: string, stateExists: bool): (r: Outcome)
    ensures r.Pass? <==> predecessor == current && !stateExists
    ensures predecessor != current ==> r == AssertPrivate("new", predecessor, current)
    ensures predecessor == current && stateExists ==> r == Fail(ERR_ALREADY_INITIALIZED)
  {
    var gate := AssertPrivate("new", predecessor, current);
    if gate.Fail? then gate
    else if stateExists then Fail(ERR_ALREADY_INITIALIZED)
    else Pass
  }
}
