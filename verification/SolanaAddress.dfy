/**
 * The superficial destination-address check: a string of 32 to 44
 * characters drawn from the base58 alphabet. No checksum, network or
 * existence check is made.
 */
module SolanaAddress {

  /** ASCII digits and letters of either case. */
  predicate IsAsciiAlphanumeric(c: char) {
    ('0' <= c <= '9') || ('A' <= c <= 'Z') || ('a' <= c <= 'z')
  }

  /**
   * A base58 character: an ASCII digit or letter other than the four that
   * are easy to misread, 0, O, I and l. This is the 58-character alphabet.
   */
  predicate IsBase58Char(c: char) {
    IsAsciiAlphanumeric(c) && c != '0' && c != 'O' && c != 'I' && c != 'l'
  }

  const MinLength: nat := 32
  const MaxLength: nat := 44

  /** The bracket expression `[1-9A-HJ-NP-Za-km-z]` of the validating pattern. */
  predicate InBase58Class(c: char)
    ensures InBase58Class(c) ==> IsAsciiAlphanumeric(c)
    ensures c == '0' || c == 'O' || c == 'I' || c == 'l' ==> !InBase58Class(c)
  {
    || ('1' <= c <= '9')
    || ('A' <= c <= 'H')
    || ('J' <= c <= 'N')
    || ('P' <= c <= 'Z')
    || ('a' <= c <= 'k')
    || ('m' <= c <= 'z')
  }

  /** The character ranges of the pattern are exactly the base58 alphabet. */
  lemma Base58ClassIsAlphabet(c: char)
    ensures InBase58Class(c) <==> IsBase58Char(c)
  {
  }

  /** Every character of `s` matches the bracket expression (the `{32,44}` repetition's body). */
  function AllInBase58Class(s: string): (r: bool)
    ensures r <==> forall i :: 0 <= i < |s| ==> IsBase58Char(s[i])
  {
    if s == [] then true
    else
      Base58ClassIsAlphabet(s[0]);
      var rest := AllInBase58Class(s[1..]);
      assert forall i :: 1 <= i < |s| ==> s[i] == s[1..][i - 1];
      InBase58Class(s[0]) && rest
  }

  /**
   * `isValidSolanaAddress`: the anchored pattern `^[1-9A-HJ-NP-Za-km-z]{32,44}$`,
   * i.e. the whole string is 32 to 44 base58 characters.
   */
  function IsValidSolanaAddress(s: string): (r: bool)
    ensures r <==> MinLength <= |s| <= MaxLength && forall i :: 0 <= i < |s| ==> IsBase58Char(s[i])
  {
    MinLength <= |s| <= MaxLength && AllInBase58Class(s)
  }

  /** Any string containing 0, O, I or l is rejected, whatever its length. */
  lemma RejectsExcludedCharacter(s: string, i: nat)
    requires i < |s| && (s[i] == '0' || s[i] == 'O' || s[i] == 'I' || s[i] == 'l')
    ensures !IsValidSolanaAddress(s)
  {
  }

  /** Any string shorter than 32 or longer than 44 characters is rejected. */
  lemma RejectsBadLength(s: string)
    requires |s| < MinLength || MaxLength < |s|
    ensures !IsValidSolanaAddress(s)
  {
  }
}
