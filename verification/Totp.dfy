/** Authenticator and recovery codes (packs/auth/totp.go). The keyed hash is uninterpreted. */
module Totp {
  import opened Wrappers
  import opened Text

  const SECOND := 1_000_000_000
  const PERIOD := 30
  const DIGITS := 6
  const SKEW := 1

  function BigEndian(b0: nat, b1: nat, b2: nat, b3: nat): nat {
    b0 * 0x100_0000 + b1 * 0x1_0000 + b2 * 0x100 + b3
  }

  // Dynamic truncation, section 5.3 of RFC 4226: four bytes of a 20-byte HMAC at the offset its last
  // byte gives, without the sign bit, modulo 10^6.
  function Truncate(sum: seq<nat>): (v: nat)
    requires |sum| == 20
    ensures v < 1_000_000
  {
    var off := sum[19] % 16;
    BigEndian(sum[off], sum[off + 1], sum[off + 2], sum[off + 3]) % 0x8000_0000 % 1_000_000
  }

  predicate IsByte(b: nat) {
    b < 0x100
  }

  /** The sign bit of the first byte does not count, and neither does any byte outside the four: the
      value is the other 31 bits, modulo 10^6. */
  lemma TruncateKeeps31Bits(sum: seq<nat>, other: seq<nat>)
    requires |sum| == |other| == 20 && sum[19] == other[19]
    requires forall i :: 0 <= i < 20 ==> IsByte(sum[i]) && IsByte(other[i])
    requires var off := sum[19] % 16;
             sum[off] % 0x80 == other[off] % 0x80 && sum[off + 1..off + 4] == other[off + 1..off + 4]
    ensures Truncate(sum) == Truncate(other)
    ensures var off := sum[19] % 16;
            Truncate(sum) == BigEndian(sum[off] % 0x80, sum[off + 1], sum[off + 2], sum[off + 3]) % 1_000_000
  {
    var off := sum[19] % 16;
    var tail := sum[off + 1..off + 4];
    assert tail[0] == sum[off + 1] && tail[1] == sum[off + 2] && tail[2] == sum[off + 3];
    assert tail[0] == other[off + 1] && tail[1] == other[off + 2] && tail[2] == other[off + 3];
    assert IsByte(sum[off]) && IsByte(sum[off + 1]) && IsByte(sum[off + 2]) && IsByte(sum[off + 3]);
    assert IsByte(other[off]);
    SignBitDropped(sum[off], sum[off + 1], sum[off + 2], sum[off + 3]);
    SignBitDropped(other[off], sum[off + 1], sum[off + 2], sum[off + 3]);
  }

  lemma SignBitDropped(b0: nat, b1: nat, b2: nat, b3: nat)
    requires IsByte(b0) && IsByte(b1) && IsByte(b2) && IsByte(b3)
    ensures BigEndian(b0, b1, b2, b3) % 0x8000_0000 == BigEndian(b0 % 0x80, b1, b2, b3)
  {
    var low := BigEndian(b0 % 0x80, b1, b2, b3);
    assert b0 == b0 / 0x80 * 0x80 + b0 % 0x80;
    assert BigEndian(b0, b1, b2, b3) == b0 / 0x80 * 0x8000_0000 + low && low < 0x8000_0000;
  }

  /** The worked example of section 5.4 of RFC 4226. */
  lemma TruncatesAsTheStandard()
    ensures Truncate([0x1f, 0x86, 0x98, 0x69, 0x0e, 0x02, 0xca, 0x16, 0x61, 0x85,
                      0x50, 0xef, 0x7f, 0x19, 0xda, 0x8e, 0x94, 0x5b, 0x55, 0x5a]) == 872921
  {
  }

  // "%06d"
  function Pad(v: nat, width: nat): (s: string)
    ensures |s| == width && forall c :: c in s ==> IsDigit(c)
  {
    if width == 0 then "" else Pad(v / 10, width - 1) + ['0' + (v % 10) as char]
  }

  /** A six-digit code determines the truncated value: no two values share one. */
  lemma {:induction false} PadIsExact(v: nat, width: nat)
    requires v < Power10(width)
    ensures Magnitude(Pad(v, width)) == v
  {
    var s := Pad(v, width);
    if width > 0 {
      PadIsExact(v / 10, width - 1);
      assert s[..|s| - 1] == Pad(v / 10, width - 1);
    }
  }

  function Power10(n: nat): nat {
    if n == 0 then 1 else 10 * Power10(n - 1)
  }

  function StepAt(now: nat): nat {
    now / SECOND / PERIOD
  }

  function Spaceless(s: string): (r: string)
    ensures ' ' !in r
  {
    if s == "" then "" else if s[0] == ' ' then Spaceless(s[1..]) else [s[0]] + Spaceless(s[1..])
  }

  function Clean(code: string): string {
    Spaceless(TrimSpace(code))
  }

  // The code of the step, one step either way of now and later than after. gen is None for a
  // secret that does not decode.
  ghost predicate Matches(gen: int -> Option<string>, code: string, now: nat, after: int, step: int) {
    StepAt(now) - SKEW <= step <= StepAt(now) + SKEW && after < step && |Clean(code)| == DIGITS
        && gen(step) == Some(Clean(code))
  }

  /** The earliest step in the window, later than the last one used, whose code is given. */
  method VerifyTOTP(gen: int -> Option<string>, code: string, now: nat, after: int) returns (r: Option<int>)
    ensures r.Some? ==> Matches(gen, code, now, after, r.value) &&
                        forall s :: Matches(gen, code, now, after, s) ==> r.value <= s
    ensures r.None? <==> forall s :: !Matches(gen, code, now, after, s)
  {
    var clean := Clean(code);
    if |clean| != DIGITS {
      return None;
    }
    var cur := StepAt(now);
    var step := cur - SKEW;
    while step <= cur + SKEW
      invariant cur - SKEW <= step <= cur + SKEW + 1
      invariant forall s :: Matches(gen, code, now, after, s) ==> step <= s
    {
      if after < step && gen(step) == Some(clean) {
        return Some(step);
      }
      step := step + 1;
    }
    return None;
  }

  // The list without its first occurrence of a code.
  function Without(codes: seq<string>, code: string): seq<string> {
    if codes == [] then [] else if codes[0] == code then codes[1..] else [codes[0]] + Without(codes[1..], code)
  }

  /** useBackupCode on hashes: one occurrence is taken out, the others stay in order. */
  method UseBackupCode(codes: seq<string>, want: string) returns (left: seq<string>, ok: bool)
    ensures ok <==> want in codes
    ensures left == Without(codes, want)
  {
    for i := 0 to |codes|
      invariant want !in codes[..i]
      invariant Without(codes, want) == codes[..i] + Without(codes[i..], want)
    {
      assert codes[i..][1..] == codes[i + 1..];
      if codes[i] == want {
        return codes[..i] + codes[i + 1..], true;
      }
      assert codes[..i + 1] == codes[..i] + [codes[i]];
    }
    assert codes[..|codes|] == codes;
    return codes, false;
  }

  lemma {:induction false} WithoutOne(codes: seq<string>, want: string)
    ensures multiset(Without(codes, want)) == multiset(codes) - multiset{want}
    ensures want in codes ==> |Without(codes, want)| == |codes| - 1
  {
    if codes != [] {
      assert codes == [codes[0]] + codes[1..];
      WithoutOne(codes[1..], want);
    }
  }
}
