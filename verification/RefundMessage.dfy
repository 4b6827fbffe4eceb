/**
 * The attestation text the user signs to request the refund. It embeds the
 * account address, the signing date (already formatted by the caller) and
 * a request id derived from the millisecond timestamp.
 */
module RefundMessage {
  import opened Decimal

  const Header: string := "TROVE ICO REFUND REQUEST\n\nI, the owner of the wallet address:\n"

  const Pledge: string :=
    "\n\nhereby confirm that:\n\n"
    + "1. I am the rightful owner of this wallet\n"
    + "2. I participated in the TROVE ICO using this wallet\n"
    + "3. I am requesting a full refund of my ICO contribution\n"
    + "4. I authorize the transfer of my refund to my designated Solana wallet\n\n"
    + "Signature Date: "

  const RequestIdLabel: string := "\nRequest ID: "

  const RequestIdPrefix: string := "TROVE-REFUND-"

  /** `TROVE-REFUND-<timestamp>`. */
  function RequestId(timestamp: nat): (r: string)
    ensures |r| > |RequestIdPrefix| && r[..|RequestIdPrefix|] == RequestIdPrefix
    ensures r[|RequestIdPrefix|..] == NatToDecimal(timestamp)
    ensures AllDigits(r[|RequestIdPrefix|..])
  {
    var r := RequestIdPrefix + NatToDecimal(timestamp);
    assert r[|RequestIdPrefix|..] == NatToDecimal(timestamp);
    r
  }

  /**
   * The message template, filled in: the header, the address, the pledge
   * ending in "Signature Date: ", the date, the request id label and the
   * request id, with nothing else in between.
   */
  function AttestationMessage(address: string, date: string, timestamp: nat): (m: string)
    ensures var p := |Header| + |address| + |Pledge|;
      && |m| == p + |date| + |RequestIdLabel| + |RequestId(timestamp)|
      && m[..|Header|] == Header
      && m[|Header|..|Header| + |address|] == address
      && m[|Header| + |address|..p] == Pledge
      && m[p..p + |date|] == date
      && m[p + |date|..] == RequestIdLabel + RequestId(timestamp)
    ensures m[|m| - |NatToDecimal(timestamp)|..] == NatToDecimal(timestamp)
    ensures m[|m| - |NatToDecimal(timestamp)| - 1] == '-'
  {
    var m := Header + address + Pledge + date + RequestIdLabel + RequestId(timestamp);
    PiecesOfConcat(Header, address, Pledge, date, RequestIdLabel, RequestIdPrefix, NatToDecimal(timestamp));
    m
  }

  /** Where each piece of a seven-part concatenation sits. */
  lemma PiecesOfConcat(a: string, b: string, c: string, d: string, e: string, f: string, g: string)
    ensures var m := a + b + c + d + e + (f + g);
      var p := |a| + |b| + |c|;
      && m == a + b + c + d + e + f + g
      && |m| == p + |d| + |e| + |f| + |g|
      && m[..|a|] == a
      && m[|a|..|a| + |b|] == b
      && m[|a| + |b|..p] == c
      && m[p..p + |d|] == d
      && m[p + |d|..] == e + (f + g)
      && m[|m| - |g|..] == g
  {
    var m := a + b + c + d + e + (f + g);
    assert m == (a + b + c) + (d + e) + (f + g);
    assert m == a + (b + (c + (d + (e + (f + g)))));
  }

  /** The longest run of digits at the end of `m`. */
  function TrailingDigits(m: string): (r: string)
    ensures AllDigits(r)
    ensures |r| <= |m| && m[|m| - |r|..] == r
    ensures |r| < |m| ==> !IsDigit(m[|m| - |r| - 1])
  {
    if |m| > 0 && IsDigit(m[|m| - 1]) then
      var front := TrailingDigits(m[..|m| - 1]);
      assert m[..|m| - 1][|m| - 1 - |front|..] == m[|m| - 1 - |front|..|m| - 1];
      front + [m[|m| - 1]]
    else []
  }

  /** Digits appended after a non-digit are exactly the trailing digits. */
  lemma {:induction false} TrailingDigitsAfter(x: string, d: string)
    requires |x| > 0 && !IsDigit(x[|x| - 1])
    requires AllDigits(d)
    ensures TrailingDigits(x + d) == d
    decreases |d|
  {
    if d != [] {
      var d' := d[..|d| - 1];
      assert (x + d)[..|x + d| - 1] == x + d';
      TrailingDigitsAfter(x, d');
      assert d == d' + [d[|d| - 1]];
    } else {
      assert x + d == x;
    }
  }

  /** The timestamp a message's request id names. */
  function RequestTimestamp(m: string): nat {
    DecimalValue(TrailingDigits(m))
  }

  /** Reading the request id back out of a message gives the timestamp it was made with. */
  lemma RequestTimestampRoundTrip(address: string, date: string, timestamp: nat)
    ensures RequestTimestamp(AttestationMessage(address, date, timestamp)) == timestamp
  {
    var m := AttestationMessage(address, date, timestamp);
    var n := NatToDecimal(timestamp);
    var k := |m| - |n|;
    var x := m[..k];
    assert m[k..] == n;
    assert m == x + m[k..];
    assert x[k - 1] == m[k - 1] == '-';
    TrailingDigitsAfter(x, n);
    DecimalRoundTrip(timestamp);
  }

  /** The signed text determines the timestamp it was made for. */
  lemma MessageDeterminesTimestamp(a1: string, d1: string, t1: nat, a2: string, d2: string, t2: nat)
    ensures AttestationMessage(a1, d1, t1) == AttestationMessage(a2, d2, t2) ==> t1 == t2
  {
    RequestTimestampRoundTrip(a1, d1, t1);
    RequestTimestampRoundTrip(a2, d2, t2);
  }

  /** The `n` characters after the header: where a message for an `n`-character address holds it. */
  function MessageAddress(m: string, n: nat): string {
    if |Header| + n <= |m| then m[|Header|..|Header| + n] else []
  }

  /** Reading the address back out of a message gives the address it was made for. */
  lemma MessageAddressRoundTrip(address: string, date: string, timestamp: nat)
    ensures MessageAddress(AttestationMessage(address, date, timestamp), |address|) == address
  {
  }

  /** Two addresses of the same length give the same text only if they are equal. */
  lemma MessageDeterminesAddress(a1: string, d1: string, t1: nat, a2: string, d2: string, t2: nat)
    requires |a1| == |a2|
    ensures AttestationMessage(a1, d1, t1) == AttestationMessage(a2, d2, t2) ==> a1 == a2
  {
    MessageAddressRoundTrip(a1, d1, t1);
    MessageAddressRoundTrip(a2, d2, t2);
  }
}
