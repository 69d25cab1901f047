/**
 Time-based one-time passwords: truncation (section 5.3 of RFC 4226) and the interval
 check (section 4.2 of RFC 6238).
 */
module Totp {
  import opened Common

  const INTERVAL := 30
  const MODULUS := 1_000_000

  type Byte = x: int | 0 <= x < 256
  type Digest = h: seq<Byte> | |h| == 20 witness seq(20, _ => 0)

  /** Base32 decoding of a secret, and HMAC-SHA-1. */
  datatype Mac = Mac(decode: string -> Option<seq<Byte>>, hmac: (seq<Byte>, seq<Byte>) -> Digest)

  /** Go's integer division, which truncates toward zero. */
  function TruncDiv(a: int, b: int): int
    requires b > 0
  {
    if a >= 0 then a / b else -((-a) / b)
  }

  /** The last `k` bytes of a number, most significant first. */
  function BytesOf(u: nat, k: nat): (bs: seq<Byte>)
    ensures |bs| == k
  {
    if k == 0 then [] else BytesOf(u / 256, k - 1) + [u % 256]
  }

  function ValueOf(bs: seq<Byte>): nat {
    if bs == [] then 0 else ValueOf(bs[..|bs| - 1]) * 256 + bs[|bs| - 1]
  }

  function Pow256(k: nat): nat {
    if k == 0 then 1 else 256 * Pow256(k - 1)
  }

  lemma {:induction false} BytesRoundTrip(u: nat, k: nat)
    requires u < Pow256(k)
    ensures ValueOf(BytesOf(u, k)) == u
  {
    if k > 0 {
      BytesRoundTrip(u / 256, k - 1);
      assert BytesOf(u, k)[..k - 1] == BytesOf(u / 256, k - 1);
    }
  }

  /** The counter as the MAC sees it: a 64-bit integer in two's complement, most significant byte first. */
  function CounterBytes(interval: int): seq<Byte> {
    BytesOf(interval % 0x1_0000_0000_0000_0000, 8)
  }

  /** Read as one number, most significant byte first, they are the counter, or its two's complement. */
  lemma CounterReadsBack(interval: int)
    requires -0x8000_0000_0000_0000 <= interval < 0x8000_0000_0000_0000
    ensures |CounterBytes(interval)| == 8
    ensures ValueOf(CounterBytes(interval)) == if interval >= 0 then interval else interval + 0x1_0000_0000_0000_0000
  {
    EightBytes();
    BytesRoundTrip(interval % 0x1_0000_0000_0000_0000, 8);
    assert interval < 0 ==> interval % 0x1_0000_0000_0000_0000 == interval + 0x1_0000_0000_0000_0000;
  }

  /** Distinct 64-bit counters are distinct to the MAC. */
  lemma CountersAreDistinct(a: int, b: int)
    requires -0x8000_0000_0000_0000 <= a < 0x8000_0000_0000_0000
    requires -0x8000_0000_0000_0000 <= b < 0x8000_0000_0000_0000
    requires CounterBytes(a) == CounterBytes(b)
    ensures a == b
  {
    CounterReadsBack(a);
    CounterReadsBack(b);
  }

  lemma EightBytes()
    ensures Pow256(8) == 0x1_0000_0000_0000_0000
  {
    assert Pow256(4) == 0x1_0000_0000;
    assert Pow256(6) == 0x1_0000_0000_0000;
  }

  /** Masking with 15, and masking off the sign bit, are remainders. */
  lemma MasksAreRemainders(b: bv8, w: bv32)
    ensures b & 15 == b % 16
    ensures w & 0x7fff_ffff == w % 0x8000_0000
  {
  }

  /** The four bytes that the last byte of the digest points at, as one number. */
  function PointedAt(h: Digest): (bs: seq<Byte>)
    ensures |bs| == 4
  {
    var offset := h[19] % 16;
    h[offset..offset + 4]
  }

  /** The truncated value, without the sign bit. */
  function Truncated(h: Digest): nat {
    ValueOf(PointedAt(h)) % 0x8000_0000
  }

  /** Decimal digits, padded with zeros to a width. */
  function Digits(n: nat, width: nat): (s: string)
    ensures |s| == width
  {
    if width == 0 then [] else Digits(n / 10, width - 1) + ['0' + (n % 10) as char]
  }

  predicate IsDigit(c: char) { '0' <= c <= '9' }

  function Parse(s: string): nat
    requires forall i :: 0 <= i < |s| ==> IsDigit(s[i])
  {
    if s == [] then 0
    else
      var last := s[|s| - 1];
      assert IsDigit(last);
      Parse(s[..|s| - 1]) * 10 + (last as int - '0' as int)
  }

  function Pow10(k: nat): nat {
    if k == 0 then 1 else 10 * Pow10(k - 1)
  }

  lemma {:induction false} DigitsRoundTrip(n: nat, width: nat)
    requires n < Pow10(width)
    ensures forall i :: 0 <= i < width ==> IsDigit(Digits(n, width)[i])
    ensures Parse(Digits(n, width)) == n
  {
    if width > 0 {
      DigitsRoundTrip(n / 10, width - 1);
      assert Digits(n, width)[..width - 1] == Digits(n / 10, width - 1);
    }
  }

  /** The code of a digest: six digits of the truncated value. */
  function Code(h: Digest): string {
    Digits(Truncated(h) % MODULUS, 6)
  }

  function DigitAt(s: string, i: nat): int
    requires i < |s|
  {
    s[i] as int - '0' as int
  }

  /**
   Every digest gives exactly six digits, most significant first, which read back as the
   truncated value modulo a million.
   */
  lemma CodeReadsBack(h: Digest)
    ensures |Code(h)| == 6
    ensures forall i :: 0 <= i < 6 ==> IsDigit(Code(h)[i])
    ensures Parse(Code(h)) == Truncated(h) % 1_000_000
    ensures var s := Code(h);
      DigitAt(s, 0) * 100_000 + DigitAt(s, 1) * 10_000 + DigitAt(s, 2) * 1000 + DigitAt(s, 3) * 100
      + DigitAt(s, 4) * 10 + DigitAt(s, 5) == Truncated(h) % 1_000_000
  {
    assert Pow10(6) == MODULUS by {
      assert Pow10(3) == 1000;
    }
    DigitsRoundTrip(Truncated(h) % MODULUS, 6);
    var s := Code(h);
    assert s[..5][..4] == s[..4] && s[..4][..3] == s[..3] && s[..3][..2] == s[..2] && s[..2][..1] == s[..1];
    assert Parse(s[..1]) == DigitAt(s, 0);
    assert Parse(s[..2]) == Parse(s[..1]) * 10 + DigitAt(s, 1);
    assert Parse(s[..3]) == Parse(s[..2]) * 10 + DigitAt(s, 2);
    assert Parse(s[..4]) == Parse(s[..3]) * 10 + DigitAt(s, 3);
    assert Parse(s[..5]) == Parse(s[..4]) * 10 + DigitAt(s, 4);
  }

  /** The code for a time step. */
  function CodeAt(mac: Mac, key: seq<Byte>, step: int): string {
    Code(mac.hmac(key, CounterBytes(step)))
  }

  /**
   Section 5.3 of RFC 4226: the low four bits of the last byte are an offset, and the four
   bytes there, most significant first and without the first bit, are the number.
   */
  lemma TruncatedIs(h: Digest)
    ensures var o := h[19] % 16;
      Truncated(h) == (h[o] % 128) as int * 0x100_0000 + h[o + 1] as int * 0x1_0000 + h[o + 2] as int * 0x100 + h[o + 3]
  {
    var o := h[19] % 16;
    var bs := h[o..o + 4];
    assert bs[..3][..2][..1][..0] == [] && bs[..3][..2][..1] == bs[..1] && bs[..3][..2] == bs[..2];
    assert ValueOf(bs[..1]) == bs[0];
    assert ValueOf(bs[..2]) == ValueOf(bs[..1]) * 256 + bs[1];
    assert ValueOf(bs[..3]) == ValueOf(bs[..2]) * 256 + bs[2];
    assert ValueOf(bs) == ValueOf(bs[..3]) * 256 + bs[3];
    FirstBitOff(bs[0], ValueOf(bs) - bs[0] as int * 0x100_0000);
  }

  lemma FirstBitOff(first: nat, rest: nat)
    requires first < 256 && rest < 0x100_0000
    ensures (first * 0x100_0000 + rest) % 0x8000_0000 == first % 128 * 0x100_0000 + rest
  {
    if first >= 128 {
      assert first * 0x100_0000 + rest == (first - 128) * 0x100_0000 + rest + 0x8000_0000;
    }
  }

  datatype TotpError = BadSecret

  method GetToken(mac: Mac, secret: string, interval: int) returns (r: Result<string, TotpError>)
    ensures r == match mac.decode(secret) case None => Err(BadSecret) case Some(key) => Ok(CodeAt(mac, key, interval))
  {
    var key := mac.decode(secret);
    if key.None? {
      return Err(BadSecret);
    }
    var buf := CounterBytes(interval);
    var h := mac.hmac(key.value, buf);
    var offset := h[19] % 16;
    ghost var bs := PointedAt(h);
    var header := 0;
    for i := 0 to 4
      invariant header == ValueOf(bs[..i])
    {
      assert bs[..i + 1][..i] == bs[..i];
      assert ValueOf(bs[..i + 1]) == ValueOf(bs[..i]) * 256 + bs[i];
      header := header * 256 + h[offset + i];
    }
    assert bs[..4] == bs;
    return Ok(Digits(header % 0x8000_0000 % MODULUS, 6));
  }

  method Verify(mac: Mac, secret: string, code: string, now: int) returns (r: Result<bool, TotpError>)
    ensures r == match mac.decode(secret)
                 case None => Err(BadSecret)
                 case Some(key) => Ok(CodeAt(mac, key, TruncDiv(now, INTERVAL)) == code)
    ensures now >= 0 && r.Ok? ==>
      mac.decode(secret).Some? && (r.value <==> CodeAt(mac, mac.decode(secret).value, now / 30) == code)
  {
    var token := GetToken(mac, secret, TruncDiv(now, INTERVAL));
    if token.Err? {
      return Err(BadSecret);
    }
    return Ok(token.value == code);
  }

  /** The step that the i-th iteration of the check tries, at a time in seconds. */
  function StepTried(now: int, i: nat): int { TruncDiv(now + i * -INTERVAL, INTERVAL) }

  ghost predicate Tries(now: int, count: int, step: int) {
    exists i: nat :: i < count && StepTried(now, i) == step
  }

  method VerifyMultipleIntervals(mac: Mac, secret: string, code: string, count: int, now: int)
    returns (r: Result<bool, TotpError>)
    ensures count <= 0 ==> r == Ok(false)
    ensures count > 0 ==> (r.Err? <==> mac.decode(secret).None?)
    ensures r.Ok? ==>
      (r.value <==>
         mac.decode(secret).Some?
         && exists step :: Tries(now, count, step) && CodeAt(mac, mac.decode(secret).value, step) == code)
  {
    var i := 0;
    while i < count
      invariant 0 <= i
      invariant i > 0 ==> mac.decode(secret).Some?
      invariant forall j: nat :: j < i ==> CodeAt(mac, mac.decode(secret).value, StepTried(now, j)) != code
    {
      var token := GetToken(mac, secret, StepTried(now, i));
      if token.Err? {
        return Err(BadSecret);
      }
      if token.value == code {
        assert Tries(now, count, StepTried(now, i));
        return Ok(true);
      }
      i := i + 1;
    }
    return Ok(false);
  }

  lemma StepTriedIs(now: int, i: nat)
    requires now >= 0
    ensures i <= now / INTERVAL || now % INTERVAL == 0 ==> StepTried(now, i) == now / INTERVAL - i
    ensures i > now / INTERVAL && now % INTERVAL != 0 ==> StepTried(now, i) == now / INTERVAL - i + 1
  {
    var t, r := now / INTERVAL, now % INTERVAL;
    assert now + i * -INTERVAL == (t - i) * INTERVAL + r;
    if i > t {
      assert -(now + i * -INTERVAL) == (i - t) * INTERVAL - r;
      if r != 0 {
        assert (i - t) * INTERVAL - r == (i - t - 1) * INTERVAL + (INTERVAL - r);
      }
    }
  }

  /**
   The steps tried are exactly the last `count` ones, up to the current step T,
   if and only if the check does not reach back before time zero, or starts on
   the boundary of a step. Otherwise truncation tries step zero twice and the
   oldest step not at all.
   */
  lemma TriesExactlyTheLastSteps(now: int, count: int)
    requires now >= 0 && count > 0
    ensures (forall step :: Tries(now, count, step) <==> now / INTERVAL - count < step <= now / INTERVAL)
      <==> (count - 1 <= now / INTERVAL || now % INTERVAL == 0)
  {
    var t := now / INTERVAL;
    forall i: nat ensures StepTried(now, i) == if i <= t || now % INTERVAL == 0 then t - i else t - i + 1 {
      StepTriedIs(now, i);
    }
    if count - 1 <= t || now % INTERVAL == 0 {
      forall step | t - count < step <= t ensures Tries(now, count, step) {
        assert StepTried(now, t - step) == step;
      }
    } else {
      assert !Tries(now, count, t - count + 1);
    }
  }

  /** A code is accepted for 570 seconds after it was made; from 600 seconds on its step is not tried any more. */
  lemma CodeLifetime(made: int, now: int)
    requires 0 <= made <= now
    ensures now - made <= 570 ==> Tries(now, 20, made / INTERVAL)
    ensures now - made >= 600 ==> !Tries(now, 20, made / INTERVAL)
  {
    var t, s := now / INTERVAL, made / INTERVAL;
    if now - made <= 570 {
      StepTriedIs(now, t - s);
      assert t - s < 20;
    }
    if now - made >= 600 {
      forall i: nat | i < 20 ensures StepTried(now, i) != s {
        StepTriedIs(now, i);
      }
    }
  }
}
