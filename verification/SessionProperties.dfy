/**
 * Properties of whole sessions: the verification invariant holds in every
 * reachable record; two invariants one would expect of this flow (an
 * address change invalidates verification; signature and signed message are
 * present together) fail for the handlers as written; and a few concrete
 * connect, sign and destination-input scenarios.
 */
module SessionProperties {
  import opened Wrappers
  import opened JsString
  import opened SolanaAddress
  import opened AddressDisplay
  import opened RefundMessage
  import opened Session

  /** One user action or provider notification, with everything the handler reads from outside. */
  datatype Event =
    | ConnectClicked(mobile: bool, providerPresent: bool, currentUrl: string, accountsReply: Reply<seq<string>>)
    | AccountsReported(accounts: seq<string>)
    | SignClicked(date: string, timestamp: nat, signReply: Reply<string>)
    | SolAddressTyped(value: string)
    | ClaimClicked(requestTime: nat)

  /** The handler an event runs. */
  function Apply(s: State, e: Event): (r: Step)
    ensures Valid(s) ==> Valid(r.state)
  {
    match e
    case ConnectClicked(mobile, present, url, reply) => Connect(s, mobile, present, url, reply)
    case AccountsReported(accounts) => AccountsChanged(s, accounts)
    case SignClicked(date, timestamp, reply) => Sign(s, date, timestamp, reply)
    case SolAddressTyped(value) => SolAddressInput(s, value)
    case ClaimClicked(requestTime) => Claim(s, requestTime)
  }

  /**
   * The record after handling `events` in order; a reload starts the page
   * over from `Initial`. Every handler keeps `Valid`, so every sequence of
   * events does.
   */
  function Run(s: State, events: seq<Event>): (r: State)
    ensures Valid(s) ==> Valid(r)
    decreases |events|
  {
    if events == [] then s
    else
      var step := Apply(s, events[0]);
      Run(if step.effect.Reload? then Initial else step.state, events[1..])
  }

  lemma InitialValid()
    ensures Valid(Initial)
    ensures !CanClaim(Initial)
  {
  }

  /**
   * In every record the page can reach, verification implies a connected
   * account and a stored signature, message and timestamp.
   */
  lemma ReachableIsValid(events: seq<Event>)
    ensures Valid(Run(Initial, events))
  {
    InitialValid();
  }

  /** A logged claim from a valid record carries every field it copies. */
  lemma ClaimPayloadComplete(s: State, requestTime: nat)
    requires Valid(s)
    ensures var r := Claim(s, requestTime);
      r.effect.LogClaim? ==>
        && r.effect.data.evmAddress.Some?
        && r.effect.data.signature.Some?
        && r.effect.data.signedMessage.Some?
        && r.effect.data.timestamp.Some?
        && IsValidSolanaAddress(r.effect.data.solanaAddress)
  {
  }

  /** The claim button state and the claim guard agree: the claim goes through exactly when the button is enabled. */
  lemma ClaimGuardIsButtonState(s: State, value: string, requestTime: nat)
    ensures var typed := SolAddressInput(s, value);
      typed.effect.enabled <==> Claim(typed.state, requestTime).effect.LogClaim?
  {
  }

  /** Re-entering the stored destination leaves the record unchanged. */
  lemma SolAddressInputStable(s: State, value: string)
    ensures var once := SolAddressInput(s, value);
      SolAddressInput(once.state, once.state.solAddress) == once
  {
    TrimIdempotent(value);
  }

  /** Entering the same input twice is the same as entering it once. */
  lemma SolAddressInputIdempotent(s: State, value: string)
    ensures var once := SolAddressInput(s, value);
      SolAddressInput(once.state, value) == once
  {
  }

  /** Surrounding the input with any whitespace makes no difference. */
  lemma SolAddressInputIgnoresPadding(s: State, pre: string, value: string, post: string)
    requires AllWhitespace(pre, 0, |pre|) && AllWhitespace(post, 0, |post|)
    ensures SolAddressInput(s, pre + value + post) == SolAddressInput(s, value)
  {
    TrimIgnoresPadding(pre, value, post);
  }

  // ----------------------------------------- where the handlers fall short

  const OldAccount: string := "0xaaaaaaaaaaaaaaaaaaaaaaaaaaaaaaaaaaaaaaaa"
  const NewAccount: string := "0xbbbbbbbbbbbbbbbbbbbbbbbbbbbbbbbbbbbbbbbb"

  /** Connected to `OldAccount` and signed at timestamp 1. */
  function SignedSession(): (s: State)
    ensures s.signatureVerified && s.evmAddress == Some(OldAccount)
  {
    var connected := Connect(Initial, false, true, "", Resolved([OldAccount])).state;
    Sign(connected, "1970-01-01T00:00:00.001Z", 1, Resolved("0x5161")).state
  }

  /**
   * Connecting again to a different account keeps the verification and the
   * signature made for the old one: a changed address does not always
   * invalidate verification.
   */
  lemma ReconnectKeepsStaleVerification()
    ensures var s := Connect(SignedSession(), false, true, "", Resolved([NewAccount])).state;
      && s.signatureVerified
      && s.evmAddress == Some(NewAccount)
      && s.signedMessage == SignedSession().signedMessage
      && forall date, timestamp :: s.signedMessage != Some(AttestationMessage(NewAccount, date, timestamp))
  {
    var s := Connect(SignedSession(), false, true, "", Resolved([NewAccount])).state;
    assert s.signedMessage == Some(AttestationMessage(OldAccount, "1970-01-01T00:00:00.001Z", 1));
  }

  /**
   * Connecting to an account reported as the empty string keeps the
   * verification, so "verified implies a non-empty address" is not kept,
   * although signing itself refuses an empty address.
   */
  lemma ReconnectCanVerifyEmptyAddress()
    ensures var s := Connect(SignedSession(), false, true, "", Resolved([""])).state;
      && s.signatureVerified
      && s.evmAddress == Some("")
      && PlanSign(s, "", 0).RefuseUnconnected?
  {
  }

  /**
   * An account change clears the signature but not the signed message, so
   * "signature and signed message are present together" is not kept.
   */
  lemma AccountChangeOrphansSignedMessage()
    ensures var s := AccountsChanged(SignedSession(), [NewAccount]).state;
      && s.signature == None
      && s.signedMessage.Some?
      && s.signatureTimestamp == Some(1)
  {
  }

  // ------------------------------------------------------------- scenarios

  /** The provider returns one account: the record is connected to it and the button shows it. */
  lemma ConnectScenario(url: string)
    ensures var r := Connect(Initial, false, true, url, Resolved(["0xAbCd...1234"]));
      && r.state.evmAddress == Some("0xAbCd...1234")
      && r.state.evmConnected
      && r.effect == ShowConnected("0xAbCd...1234")
  {
    ShortAddressOfLong("0xAbCd...1234");
  }

  /** The user declines the signature prompt: nothing is verified or stored, and the rejection alert is shown. */
  lemma SignRejectedScenario(s: State, date: string, timestamp: nat, message: string)
    requires s.evmConnected && s.evmAddress.Some? && s.evmAddress.value != ""
    requires !s.signatureVerified && s.signature == None
    ensures var r := Sign(s, date, timestamp, Rejected(UserRejectedCode, message));
      && !r.state.signatureVerified
      && r.state.signature == None
      && r.effect == Alert(SignRejectedText)
  {
  }

  const SampleDestination: string := "3K7aZ9pL2vQxYtR8mN4wJhD6sFbGc1EoU5iXnP9qTjWk"

  /** Each character of the sample destination is a base58 character; it starts with '3' and ends with 'k'. */
  lemma SampleDestinationChars(d: string)
    requires d == "3K7aZ9pL2vQxYtR8mN4wJhD6sFbGc1EoU5iXnP9qTjWk"
    ensures forall i :: 0 <= i < |d| ==> IsBase58Char(d[i])
    ensures d[0] == '3' && d[|d| - 1] == 'k'
  {
    forall i | 0 <= i < |d| ensures IsBase58Char(d[i]) {
      if i < 11 {} else if i < 22 {} else if i < 33 {} else {}
    }
  }

  /** A 44-character base58 destination on a connected, verified record enables the claim button. */
  lemma ValidDestinationScenario(s: State)
    requires s.evmConnected && s.signatureVerified
    ensures |SampleDestination| == 44
    ensures SolAddressInput(s, SampleDestination).effect == ShowClaimButton(true)
  {
    SampleDestinationChars(SampleDestination);
    TrimFixesUntrimmed(SampleDestination);
  }

  /** A destination beginning with a disallowed character keeps the claim button disabled, whatever the record. */
  lemma DisallowedDestinationScenario(s: State, rest: string)
    ensures SolAddressInput(s, "0OIl" + rest).effect == ShowClaimButton(false)
  {
    var v := "0OIl" + rest;
    assert v[0] == '0';
    TrimKeepsHead(v);
    RejectsExcludedCharacter(Trim(v), 0);
  }
}
