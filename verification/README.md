# TROVE ICO refund page: session model

This project models the logic of `metamask-connect.js`, the script behind the
TROVE ICO refund page. A visitor goes through three steps. They connect an EVM
wallet through the injected MetaMask provider. They sign a fixed attestation
message. They enter a Solana destination address and claim the refund, which
is only logged.

The model lifts the parts that do not need a browser:

- the session record (`Session.State`), with `null` modelled as `Wrappers.Option`;
- each handler as a pure function from the old record and the provider's answer
  (an account list, a signature, or an error code and message) to a new record
  and one abstract page effect (`Session.Effect`);
- the claim gate `canClaim` and the claim guard;
- the string helpers: the base58 destination check, the short address built with
  JavaScript `slice`, the MetaMask deep link, `trim`, and the attestation message
  with its decimal request id.

`SessionProperties` treats a page session as a sequence of events. It proves the
invariant "verified implies a connected address and a stored signature, message
and timestamp" for every reachable record.

The model follows the code, including where it does not keep invariants one would expect of this flow.
Connecting again to a different account keeps the old verification and
signature (`ReconnectKeepsStaleVerification`). It can also leave a verified
record whose address is the empty string (`ReconnectCanVerifyEmptyAddress`).
An account change clears the signature but keeps the signed message and
timestamp (`AccountChangeOrphansSignedMessage`). So "any address change
invalidates verification" and "signature and signed message are present
together" do not hold for the code as written. Those lemmas exhibit the
concrete sessions.

## Model

| member | source | states |
|---|---|---|
| `Session.PlanConnect` | metamask-connect.js:66-79 | A request for accounts is made exactly when a provider is present; a mobile browser without one is sent to the deep link for the current URL |
| `Session.ErrorText` | metamask-connect.js:101-105 | Error code 4001 gives the rejection text; any other code gives the prefix followed by the error's message |
| `Session.Connect` | metamask-connect.js:64-107 | Without a provider the record is unchanged (redirect or install prompt); a non-empty account list sets the address to its first element and `evmConnected`, leaving every other field, verification and signature included, as it was; an empty list or an error changes nothing; validity is kept |
| `Session.AccountsChanged` | metamask-connect.js:110-123 | An empty list disconnects, clears address, verification and signature, and reloads; a different first account replaces the address and clears verification and signature but not `evmConnected`; the same account changes nothing; signed message, timestamp and destination are never touched |
| `Session.PlanSign` | metamask-connect.js:161-188 | Signing is refused exactly when the record is not connected or its address is null or empty; otherwise the attestation for the current address is sent to be signed by that address |
| `Session.Sign` | metamask-connect.js:160-212 | A refusal alerts and changes nothing; a signature stores it with the attestation message and timestamp and sets verified; an error changes nothing and alerts; connection, address and destination are never changed |
| `Session.SolAddressInput` | metamask-connect.js:247-250 | The destination becomes the trimmed input, no other field changes, and the claim button is refreshed from the new record |
| `Session.Claim` | metamask-connect.js:277-290 | The record never changes; the claim is logged exactly when `canClaim` holds, with address, signature, message, destination and timestamp copied from the record; otherwise an alert |
| `Session.CanClaim` | metamask-connect.js:266-268 | The claim button is enabled exactly when the record is connected and verified and the destination is 32 to 44 base58 characters |
| `SolanaAddress.IsValidSolanaAddress` | metamask-connect.js:253-256 | Valid exactly when the length is 32 to 44 and every character is a base58 character |
| `SolanaAddress.AllInBase58Class` | metamask-connect.js:254 | The pattern's character class accepts every character of the string exactly when all of them are base58 characters |
| `SolanaAddress.InBase58Class` | metamask-connect.js:254 | The pattern's character class only accepts ASCII letters and digits, and never 0, O, I or l |
| `SolanaAddress.Base58ClassIsAlphabet` | metamask-connect.js:254 | The ranges `1-9`, `A-H`, `J-N`, `P-Z`, `a-k`, `m-z` are exactly the ASCII digits and letters other than 0, O, I and l |
| `SolanaAddress.RejectsExcludedCharacter` | metamask-connect.js:253-256 | A string containing 0, O, I or l is rejected |
| `SolanaAddress.RejectsBadLength` | metamask-connect.js:253-256 | A string shorter than 32 or longer than 44 characters is rejected |
| `MobileLink.StripScheme` | metamask-connect.js:60 | The result is a suffix of the URL, and what was removed is `https://` or `http://` when the URL starts with it, or nothing when it starts with neither |
| `MobileLink.DeepLink` | metamask-connect.js:58-61 | The link is the MetaMask dapp base followed by the URL with its scheme removed |
| `MobileLink.SchemesExclusive` | metamask-connect.js:60 | No URL starts with both `http://` and `https://` |
| `MobileLink.StripSchemeOfPrefixed` | metamask-connect.js:60 | Whatever follows a leading `https://` or `http://` is kept verbatim in the link |
| `MobileLink.DeepLinkOfUnprefixed` | metamask-connect.js:58-61 | A URL without either lowercase prefix is appended unchanged |
| `MobileLink.SchemeMatchIsCaseSensitive` | metamask-connect.js:60 | For every rest of the URL, an upper-case `HTTPS://` or `HTTP://` is not removed |
| `MobileLink.StripsOnlyOnce` | metamask-connect.js:60 | For every rest of the URL, only the first of two leading schemes is removed |
| `JsString.Slice` | metamask-connect.js:133 | The slice has the length between the two resolved indices (or is empty) and holds the characters from the start index on |
| `JsString.RelativeIndex` | metamask-connect.js:133 | A `slice` argument in `0..len` is kept, one above is clamped to `len`, a negative one in `-len..-1` counts back from the end, and one below `-len` becomes 0 |
| `JsString.SliceFrom` | metamask-connect.js:133 | `s.slice(start)` is the suffix of s from the resolved start |
| `JsString.SlicePrefix` | metamask-connect.js:133 | `slice(0, n)` is the first n characters, or the whole string when shorter |
| `JsString.SliceSuffix` | metamask-connect.js:133 | `slice(-n)` for positive n is the last n characters, or the whole string when shorter |
| `AddressDisplay.ShortAddress` | metamask-connect.js:133 | The short form has min(6, length) + 3 + min(4, length) characters |
| `AddressDisplay.ShortAddressParts` | metamask-connect.js:133 | For every length, the short form is the clamped first six characters, `...`, and the clamped last four |
| `AddressDisplay.ShortAddressOfLong` | metamask-connect.js:133 | For ten or more characters the short form has length 13, starts with the first six, has `...` in the middle and ends with the last four |
| `AddressDisplay.ShortAddressOfTiny` | metamask-connect.js:133 | Below four characters both slices are the whole address |
| `AddressDisplay.ShortAddressEqualIff` | metamask-connect.js:133 | For long addresses two short forms are equal exactly when the first six and the last four characters agree |
| `JsString.LeadingWhitespace` | metamask-connect.js:248 | Counts the whitespace before the first non-whitespace character |
| `JsString.ContentEnd` | metamask-connect.js:248 | Finds the end of the last non-whitespace character, with only whitespace after it |
| `JsString.IsJsWhitespace` | metamask-connect.js:248 | Among ASCII characters `trim` removes exactly space, tab, line feed, carriage return, vertical tab and form feed, and it never removes a letter or digit |
| `JsString.Trim` | metamask-connect.js:248 | The input is whitespace, then the result, then whitespace, and the result has no whitespace at either end |
| `JsString.TrimUnique` | metamask-connect.js:248 | Any string that fits that description is the trim |
| `JsString.TrimFixesUntrimmed` | metamask-connect.js:248 | A string without edge whitespace is its own trim |
| `JsString.TrimIdempotent` | metamask-connect.js:248 | Trimming twice equals trimming once |
| `JsString.TrimKeepsHead` | metamask-connect.js:248 | A first character that is not whitespace stays the first character after trimming |
| `JsString.TrimIgnoresPadding` | metamask-connect.js:248 | Whitespace added before and after a string does not change its trim |
| `JsString.PaddedTrimmed` | metamask-connect.js:248 | The trimmed content of a string is also the trimmed content of the string padded with whitespace |
| `JsString.PaddedContent` | metamask-connect.js:248 | Content framed by whitespace keeps its characters and stays framed by whitespace after padding |
| `Decimal.NatToDecimal` | metamask-connect.js:183 | The timestamp's text is a non-empty run of digits with a leading zero only for 0 |
| `Decimal.DecimalRoundTrip` | metamask-connect.js:183 | Reading the digits back gives the timestamp |
| `Decimal.NatToDecimalInjective` | metamask-connect.js:183 | Different timestamps give different texts |
| `RefundMessage.RequestId` | metamask-connect.js:183 | The request id is `TROVE-REFUND-` followed by exactly the timestamp's decimal digits |
| `RefundMessage.AttestationMessage` | metamask-connect.js:170-183 | The message is, in order and with nothing in between: the fixed header, the address, the fixed pledge ending in "Signature Date: ", the date, the `\nRequest ID: ` label and the request id |
| `RefundMessage.TrailingDigits` | metamask-connect.js:183 | The longest run of digits ending a text, preceded by a non-digit or the text's start |
| `RefundMessage.TrailingDigitsAfter` | metamask-connect.js:183 | Digits written after a non-digit are exactly the text's trailing digits |
| `RefundMessage.RequestTimestampRoundTrip` | metamask-connect.js:170-183 | Reading the request id back out of the message gives the timestamp it was made with |
| `RefundMessage.MessageDeterminesTimestamp` | metamask-connect.js:170-183 | Equal messages were made at the same timestamp |
| `RefundMessage.MessageAddressRoundTrip` | metamask-connect.js:170-173 | Reading the characters after the header back out of a message gives the address it was made for |
| `RefundMessage.MessageDeterminesAddress` | metamask-connect.js:170-183 | Equal messages for addresses of the same length embed the same address |
| `SessionProperties.Apply` | metamask-connect.js:20-50 | Each event runs its handler, and every handler keeps the validity invariant |
| `SessionProperties.InitialValid` | metamask-connect.js:7-15 | The initial record is valid and cannot claim |
| `SessionProperties.Run` | metamask-connect.js:87-194 | Handling events in order, with a reload starting over from the initial record, takes a valid record to a valid record |
| `SessionProperties.ReachableIsValid` | metamask-connect.js:87-194 | Every reachable record that is verified is connected and has an address, a signature, a signed message and a timestamp |
| `SessionProperties.ClaimPayloadComplete` | metamask-connect.js:283-290 | A claim logged from a valid record carries an address, signature, message, timestamp and a valid destination |
| `SessionProperties.ClaimGuardIsButtonState` | metamask-connect.js:266-281 | After an input the claim button is enabled exactly when the claim guard lets the claim through |
| `SessionProperties.SolAddressInputStable` | metamask-connect.js:247-250 | Re-entering the stored destination changes nothing |
| `SessionProperties.SolAddressInputIdempotent` | metamask-connect.js:247-250 | Entering the same input twice equals entering it once |
| `SessionProperties.SolAddressInputIgnoresPadding` | metamask-connect.js:247-250 | Any whitespace before and after the input makes no difference to the stored destination or the button |
| `SessionProperties.ReconnectKeepsStaleVerification` | metamask-connect.js:87-89 | Reconnecting to a new account keeps verification and the old account's message, which is not a message for the new account |
| `SessionProperties.ReconnectCanVerifyEmptyAddress` | metamask-connect.js:87-89 | Reconnecting to an empty account string keeps verification although signing would refuse that address |
| `SessionProperties.AccountChangeOrphansSignedMessage` | metamask-connect.js:117-121 | An account change leaves a signed message and timestamp without a signature |
| `SessionProperties.ConnectScenario` | metamask-connect.js:83-91 | The account `0xAbCd...1234` becomes the connected address and is shown in full |
| `SessionProperties.SignRejectedScenario` | metamask-connect.js:204-211 | Declining the signature (code 4001) leaves the record unverified and unsigned and shows the rejection alert |
| `SessionProperties.ValidDestinationScenario` | metamask-connect.js:247-268 | A 44-character base58 destination on a connected, verified record enables the claim button |
| `SessionProperties.DisallowedDestinationScenario` | metamask-connect.js:247-268 | Any input starting `0OIl` keeps the claim button disabled for every record |

## Left out

- Finding controls by their text, and all re-rendering (`innerHTML`, styles, `disabled` flags): presentation only. The model keeps just the effect tags and the claim button's boolean.
- The provider's `request` calls and the `.on` listener registration, including the duplicate registration on every successful connect: these are foreign calls. Their outcomes are inputs.
- `alert`, `window.open`, setting `location.href` and `location.reload`: side effects, returned as effect tags. `SessionProperties.Run` treats a reload as the page starting over from the initial record.
- `Date.now` and `toISOString`: the clock and a foreign formatter. The timestamp and the date text are parameters, and the claim's request time is a parameter too.
- The `isMobile` user-agent test: environment sniffing. Whether the browser is mobile and whether a provider is present are boolean inputs.
- Overlapping asynchronous handlers, such as an account change while a signature request is pending: concurrency. Each handler is atomic.
- Console logging, `JSON.stringify`, `handleChainChanged` (it only logs), and the shallow copy returned by `getState`.
- When the account-change listener is registered: the page only listens after a successful connect, while `SessionProperties.Run` accepts an account change at any point. The invariant is proved for this larger set of sessions.
- Exceptions thrown by the rendering code after a handler has already updated the record: the model only sees provider errors, as inputs.
- The provider's error object: its `code` is an integer (a missing code is any value other than 4001) and its `message` is a string supplied by the caller.
- JavaScript strings are UTF-16. Here a character is a Unicode scalar value, so `slice`, `trim` and the pattern's length bound count differently for characters outside the Basic Multilingual Plane. Those characters are never base58 characters anyway.
- `Decimal.NatToDecimal`: does not model JavaScript's exponent notation for numbers of 10^21 and above, which millisecond timestamps do not reach.
- `Session.CanClaim` is the claim gate, and a claim never changes the record.
