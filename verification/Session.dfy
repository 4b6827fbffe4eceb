/**
 * The refund page's session record and the handlers that change it:
 * connecting the EVM wallet, reacting to account changes, signing the
 * attestation, entering the destination address and claiming.
 *
 * Each handler is a pure function from the old record and what the wallet
 * provider answered to the new record and one abstract effect on the page.
 * The provider is never called here: its answers are inputs.
 */
module Session {
  import opened Wrappers
  import opened JsString
  import opened SolanaAddress
  import opened MobileLink
  import opened AddressDisplay
  import opened RefundMessage

  datatype State = State(
    evmConnected: bool,
    evmAddress: Option<string>,
    signatureVerified: bool,
    signature: Option<string>,
    signedMessage: Option<string>,
    signatureTimestamp: Option<nat>,
    solAddress: string)

  /** The record as the page creates it. */
  const Initial: State := State(false, None, false, None, None, None, "")

  /** How a provider request settled: a value, or an error carrying a code and a message. */
  datatype Reply<T> = Resolved(value: T) | Rejected(code: int, message: string)

  /** The provider's error code for "the user declined the prompt". */
  const UserRejectedCode: int := 4001

  const InstallUrl: string := "https://metamask.io/download/"
  const NotInstalledText: string := "MetaMask is not installed!\n\nPlease install MetaMask browser extension to continue."
  const ConnectRejectedText: string := "Connection request was rejected. Please try again."
  const ConnectErrorPrefix: string := "Error connecting to MetaMask: "
  const NotConnectedText: string := "Please connect your EVM wallet first."
  const SignRejectedText: string := "Signature request was rejected. You must sign to prove ownership."
  const SignErrorPrefix: string := "Error signing message: "
  const IncompleteText: string := "Please complete all steps before claiming your refund."

  /** What the claim handler assembles (and only logs). */
  datatype RefundData = RefundData(
    evmAddress: Option<string>,
    signature: Option<string>,
    signedMessage: Option<string>,
    solanaAddress: string,
    timestamp: Option<nat>,
    requestTime: nat)

  /** The page-visible consequence of a handler. */
  datatype Effect =
    | NoEffect
      /** `location.href` is set */
    | Navigate(url: string)
      /** an alert, then the install page opens in a new tab */
    | AlertAndOpen(text: string, url: string)
    | Alert(text: string)
      /** the connect button shows the short address and the sign button is enabled */
    | ShowConnected(shortAddress: string)
      /** the sign button shows "verified", the address input is enabled, the claim button refreshed */
    | ShowVerified(claimEnabled: bool)
      /** the claim button is enabled or disabled */
    | ShowClaimButton(enabled: bool)
    | Reload
    | LogClaim(data: RefundData)

  datatype Step = Step(state: State, effect: Effect)

  /** Verification only stands on a connected account with a complete signature record. */
  predicate Valid(s: State) {
    s.signatureVerified ==>
      && s.evmConnected
      && s.evmAddress.Some?
      && s.signature.Some?
      && s.signedMessage.Some?
      && s.signatureTimestamp.Some?
  }

  // ---------------------------------------------------------------- connect

  /** What `connectMetaMask` does before any request is made. */
  datatype ConnectPlan = OpenInApp(url: string) | PromptInstall | RequestAccounts

  function PlanConnect(mobile: bool, providerPresent: bool, currentUrl: string): (p: ConnectPlan)
    ensures p.RequestAccounts? <==> providerPresent
    ensures p.OpenInApp? <==> mobile && !providerPresent
    ensures p.OpenInApp? ==> p.url == DeepLink(currentUrl)
  {
    if mobile then
      if !providerPresent then OpenInApp(DeepLink(currentUrl)) else RequestAccounts
    else
      if !providerPresent then PromptInstall else RequestAccounts
  }

  /** The alert for a failed provider request: the user-rejection text for code 4001, else prefix + message. */
  function ErrorText(code: int, message: string, rejectedText: string, prefix: string): (t: string)
    ensures code == UserRejectedCode ==> t == rejectedText
    ensures code != UserRejectedCode ==> StartsWith(t, prefix) && t[|prefix|..] == message
  {
    if code == UserRejectedCode then rejectedText else prefix + message
  }

  /** `connectMetaMask`, given the environment and the answer to `eth_requestAccounts`. */
  function Connect(s: State, mobile: bool, providerPresent: bool, currentUrl: string, reply: Reply<seq<string>>): (r: Step)
    ensures !providerPresent ==> r.state == s
    ensures mobile && !providerPresent ==> r.effect == Navigate(DeepLink(currentUrl))
    ensures !mobile && !providerPresent ==> r.effect == AlertAndOpen(NotInstalledText, InstallUrl)
    ensures providerPresent && reply.Resolved? && |reply.value| > 0 ==>
      var a := reply.value[0];
      && r.state == s.(evmAddress := Some(a), evmConnected := true)
      && r.effect == ShowConnected(ShortAddress(a))
    ensures providerPresent && reply.Resolved? && |reply.value| == 0 ==> r == Step(s, NoEffect)
    ensures providerPresent && reply.Rejected? ==>
      && r.state == s
      && r.effect == Alert(ErrorText(reply.code, reply.message, ConnectRejectedText, ConnectErrorPrefix))
    ensures Valid(s) ==> Valid(r.state)
  {
    match PlanConnect(mobile, providerPresent, currentUrl)
    case OpenInApp(url) => Step(s, Navigate(url))
    case PromptInstall => Step(s, AlertAndOpen(NotInstalledText, InstallUrl))
    case RequestAccounts =>
      match reply
      case Resolved(accounts) =>
        if |accounts| > 0 then
          var s' := s.(evmAddress := Some(accounts[0]), evmConnected := true);
          Step(s', ShowConnected(ShortAddress(accounts[0])))
        else Step(s, NoEffect)
      case Rejected(code, message) =>
        Step(s, Alert(ErrorText(code, message, ConnectRejectedText, ConnectErrorPrefix)))
  }

  // ------------------------------------------------------- accounts changed

  /** `handleAccountsChanged`, given the provider's new account list. */
  function AccountsChanged(s: State, accounts: seq<string>): (r: Step)
    ensures |accounts| == 0 ==>
      && r.state == s.(evmConnected := false, evmAddress := None, signatureVerified := false, signature := None)
      && r.effect == Reload
    ensures |accounts| > 0 && s.evmAddress != Some(accounts[0]) ==>
      && r.state == s.(evmAddress := Some(accounts[0]), signatureVerified := false, signature := None)
      && r.effect == ShowConnected(ShortAddress(accounts[0]))
    ensures |accounts| > 0 && s.evmAddress == Some(accounts[0]) ==> r == Step(s, NoEffect)
    ensures r.state.signedMessage == s.signedMessage
    ensures r.state.signatureTimestamp == s.signatureTimestamp
    ensures r.state.solAddress == s.solAddress
    ensures Valid(s) ==> Valid(r.state)
  {
    if |accounts| == 0 then
      Step(s.(evmConnected := false, evmAddress := None, signatureVerified := false, signature := None), Reload)
    else if Some(accounts[0]) != s.evmAddress then
      Step(s.(evmAddress := Some(accounts[0]), signatureVerified := false, signature := None),
           ShowConnected(ShortAddress(accounts[0])))
    else
      Step(s, NoEffect)
  }

  // ------------------------------------------------------------------- sign

  /** What `signTroveRefundMessage` does before any request: refuse, or ask to sign `message` as `address`. */
  datatype SignPlan = RefuseUnconnected | RequestSignature(message: string, address: string)

  /** The guard: a connected, non-null, non-empty address (an empty string is falsy). */
  function PlanSign(s: State, date: string, timestamp: nat): (p: SignPlan)
    ensures p.RefuseUnconnected? <==> !s.evmConnected || s.evmAddress == None || s.evmAddress == Some("")
    ensures p.RequestSignature? ==>
      && p.address == s.evmAddress.value
      && p.message == AttestationMessage(s.evmAddress.value, date, timestamp)
  {
    if !s.evmConnected || s.evmAddress.None? || s.evmAddress.value == "" then RefuseUnconnected
    else
      var address := s.evmAddress.value;
      RequestSignature(AttestationMessage(address, date, timestamp), address)
  }

  /** Whether the claim button is enabled (`canClaim` in `updateClaimButton`). */
  predicate CanClaim(s: State)
    ensures CanClaim(s) <==>
      && s.evmConnected
      && s.signatureVerified
      && MinLength <= |s.solAddress| <= MaxLength
      && forall i :: 0 <= i < |s.solAddress| ==> IsBase58Char(s.solAddress[i])
  {
    s.evmConnected && s.signatureVerified && IsValidSolanaAddress(s.solAddress)
  }

  /**
   * `signTroveRefundMessage`, given the clock reading, its ISO rendering
   * and the answer to `personal_sign`.
   */
  function Sign(s: State, date: string, timestamp: nat, reply: Reply<string>): (r: Step)
    ensures PlanSign(s, date, timestamp).RefuseUnconnected? ==> r == Step(s, Alert(NotConnectedText))
    ensures PlanSign(s, date, timestamp).RequestSignature? && reply.Resolved? ==>
      && r.state == s.(signature := Some(reply.value), signedMessage := Some(PlanSign(s, date, timestamp).message),
                       signatureVerified := true, signatureTimestamp := Some(timestamp))
      && r.effect == ShowVerified(CanClaim(r.state))
    ensures PlanSign(s, date, timestamp).RequestSignature? && reply.Rejected? ==>
      && r.state == s
      && r.effect == Alert(ErrorText(reply.code, reply.message, SignRejectedText, SignErrorPrefix))
    ensures r.state.evmConnected == s.evmConnected && r.state.evmAddress == s.evmAddress
    ensures r.state.solAddress == s.solAddress
    ensures Valid(s) ==> Valid(r.state)
  {
    match PlanSign(s, date, timestamp)
    case RefuseUnconnected => Step(s, Alert(NotConnectedText))
    case RequestSignature(message, _) =>
      match reply
      case Resolved(signature) =>
        var s' := s.(signature := Some(signature), signedMessage := Some(message),
                     signatureVerified := true, signatureTimestamp := Some(timestamp));
        Step(s', ShowVerified(CanClaim(s')))
      case Rejected(code, text) =>
        Step(s, Alert(ErrorText(code, text, SignRejectedText, SignErrorPrefix)))
  }

  // ------------------------------------------------------------ sol address

  /** `handleSolAddressInput`: store the trimmed input and refresh the claim button. */
  function SolAddressInput(s: State, value: string): (r: Step)
    ensures IsTrimmedFrom(value, r.state.solAddress)
    ensures r.state == s.(solAddress := r.state.solAddress)
    ensures r.effect == ShowClaimButton(CanClaim(r.state))
    ensures Valid(s) ==> Valid(r.state)
  {
    var s' := s.(solAddress := Trim(value));
    Step(s', ShowClaimButton(CanClaim(s')))
  }

  // ------------------------------------------------------------------ claim

  /** `claimRefund`, given the clock reading at the time of the claim. */
  function Claim(s: State, requestTime: nat): (r: Step)
    ensures r.state == s
    ensures r.effect.LogClaim? <==> CanClaim(s)
    ensures !CanClaim(s) ==> r.effect == Alert(IncompleteText)
    ensures r.effect.LogClaim? ==>
      r.effect.data == RefundData(s.evmAddress, s.signature, s.signedMessage, s.solAddress,
                                  s.signatureTimestamp, requestTime)
  {
    if !s.evmConnected || !s.signatureVerified || !IsValidSolanaAddress(s.solAddress) then
      Step(s, Alert(IncompleteText))
    else
      Step(s, LogClaim(RefundData(s.evmAddress, s.signature, s.signedMessage, s.solAddress,
                                  s.signatureTimestamp, requestTime)))
  }
}
