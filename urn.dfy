/**
 * `format_imf_vtfp_urn`: the fingerprint written as a URN whose last part
 * is the lowercase hexadecimal text of the digest, cut to a width.
 */
module Urn {
  import opened Types
  import opened Hexadecimal

  const URN_PREFIX: string := "urn:smpte:imf-vtfp:"

  /** The width `format_imf_vtfp_urn` uses when none is given. */
  const DEFAULT_WIDTH: int := 10

  /** Digits in the full hexadecimal text of a SHA-1 digest. */
  const FULL_WIDTH: nat := 2 * DIGEST_LENGTH

  /**
   * Python's `s[:n]`: the first n characters, all of them when n exceeds the
   * length, and for a negative n all but the last -n (none when -n is at
   * least the length).
   */
  function Take(s: string, n: int): (t: string)
    ensures t <= s
    ensures 0 <= n ==> |t| == (if n < |s| then n else |s|)
    ensures n < 0 ==> |t| == (if -n < |s| then |s| + n else 0)
  {
    if n >= |s| then s
    else if n >= 0 then s[..n]
    else if |s| + n <= 0 then []
    else s[..|s| + n]
  }

  /** `format_imf_vtfp_urn(raw_digest, n)`. */
  function FormatImfVtfpUrn(rawDigest: Digest, n: int): (urn: string)
    ensures URN_PREFIX <= urn
    ensures urn[|URN_PREFIX|..] <= Hex(rawDigest)
    ensures IsLowerHex(urn[|URN_PREFIX|..])
    ensures 0 <= n ==> |urn| == |URN_PREFIX| + (if n < FULL_WIDTH then n else FULL_WIDTH)
  {
    var digits := Take(Hex(rawDigest), n);
    assert (URN_PREFIX + digits)[|URN_PREFIX|..] == digits;
    URN_PREFIX + digits
  }

  /** A narrower URN is a prefix of a wider one for the same digest. */
  lemma UrnWidthMonotone(d: Digest, n: int, m: int)
    requires 0 <= n <= m
    ensures FormatImfVtfpUrn(d, n) <= FormatImfVtfpUrn(d, m)
  {
    var h := Hex(d);
    var a, b := Take(h, n), Take(h, m);
    assert a == h[..|a|] && b == h[..|b|];
    assert a <= b;
  }

  /**
   * The digits of a URN of even width 2k read back as the first k octets
   * of the digest; at the full width, as the whole digest.
   */
  lemma UrnDigitsDecode(d: Digest, k: nat)
    requires k <= DIGEST_LENGTH
    ensures var digits := FormatImfVtfpUrn(d, 2 * k)[|URN_PREFIX|..];
      |digits| % 2 == 0 && Unhex(digits) == d[..k]
    ensures Unhex(FormatImfVtfpUrn(d, FULL_WIDTH)[|URN_PREFIX|..]) == d
  {
    var h := Hex(d);
    assert FormatImfVtfpUrn(d, 2 * k)[|URN_PREFIX|..] == h[..2 * k];
    HexPrefix(d, k);
    HexRoundTrip(d[..k]);
    assert FormatImfVtfpUrn(d, FULL_WIDTH)[|URN_PREFIX|..] == h;
    HexRoundTrip(d);
  }

  /**
   * A negative width counts from the end, as slicing does: -k keeps all
   * but the last k digits, and from -40 down only the prefix is left.
   */
  lemma NegativeWidthCountsFromEnd(d: Digest, k: int)
    requires 0 < k
    ensures k <= FULL_WIDTH ==> FormatImfVtfpUrn(d, -k) == FormatImfVtfpUrn(d, FULL_WIDTH - k)
    ensures FULL_WIDTH <= k ==> FormatImfVtfpUrn(d, -k) == URN_PREFIX
  {
  }

  /** The width the command line passes on: `max(2, min(n, 40))`. */
  function ClampWidth(n: int): (w: int)
    ensures 2 <= w <= FULL_WIDTH
    ensures 2 <= n <= FULL_WIDTH ==> w == n
    ensures n < 2 ==> w == 2
    ensures FULL_WIDTH < n ==> w == FULL_WIDTH
  {
    var m := if n < 40 then n else 40;
    if 2 < m then m else 2
  }

  /** On the command line the URN always carries exactly the clamped number of digits. */
  lemma ClampedUrnLength(d: Digest, n: int)
    ensures |FormatImfVtfpUrn(d, ClampWidth(n))| == |URN_PREFIX| + ClampWidth(n)
    ensures |FormatImfVtfpUrn(d, DEFAULT_WIDTH)| == |URN_PREFIX| + DEFAULT_WIDTH
  {
  }
}
