/** Rejection sampling below a modulus: hardware entropy as wide as the modulus,
    its top byte masked to the modulus' bit length, retried a bounded number of
    times. */
module SaeRandom {
  import opened Common
  import opened NumberTheory
  import opened SaeField

  const MAX_RANDOM_REJECTIONS: nat := 128

  /** Bitwise and. */
  function And(x: nat, y: nat): (r: nat)
    ensures r <= x
  {
    if x == 0 || y == 0 then 0 else (x % 2) * (y % 2) + 2 * And(x / 2, y / 2)
  }

  function LeadingZeros(b: byte): (n: nat)
    requires b > 0
    ensures n < 8
    ensures b * Pow(2, n) < 256 <= 2 * (b * Pow(2, n))
  {
    if b >= 16 then HighZeros(b)
    else
      PowAdd(2, 4, HighZeros(16 * b));
      4 + HighZeros(16 * b)
  }

  function HighZeros(b: byte): (n: nat)
    requires b >= 16
    ensures n < 4
    ensures b * Pow(2, n) < 256 <= 2 * (b * Pow(2, n))
  {
    if b >= 128 then 0 else if b >= 64 then 1 else if b >= 32 then 2 else 3
  }

  /** `0xff >> leading_zeros`, absent for a zero byte. */
  function EntropyTopMask(first: byte): Option<byte> {
    if first == 0 then None else Some(255 / Pow(2, LeadingZeros(first)))
  }

  /** The shortest big-endian form, empty for zero. */
  function MinimalBE(value: nat): Bytes {
    if value == 0 then [] else MinimalBE(value / 256) + [value % 256]
  }

  function Masked(raw: Bytes, mask: byte): Bytes
    requires raw != []
  {
    [And(raw[0], mask)] + raw[1..]
  }

  // ----- what the mask does -----

  lemma {:induction false} AndIsRemainder(x: nat, k: nat)
    ensures Pow(2, k) >= 1
    ensures And(x, Pow(2, k) - 1) == x % Pow(2, k)
  {
    if k == 0 {
    } else {
      AndIsRemainder(x / 2, k - 1);
      var m := Pow(2, k - 1);
      assert Pow(2, k) == 2 * m;
      DoubledRemainder(x, m);
      AndOfOnes(x, m);
    }
  }

  lemma AndOfOnes(x: nat, m: nat)
    requires m >= 1
    ensures And(x, 2 * m - 1) == x % 2 + 2 * And(x / 2, m - 1)
  {
    assert (2 * m - 1) / 2 == m - 1 && (2 * m - 1) % 2 == 1;
    if x > 0 {
      assert And(x, 2 * m - 1) == (x % 2) * 1 + 2 * And(x / 2, m - 1);
    }
  }

  lemma DoubledRemainder(x: nat, m: nat)
    requires m >= 1
    ensures x % (2 * m) == x % 2 + 2 * (x / 2 % m)
  {
    var q, r := x / 2 / m, x / 2 % m;
    assert x / 2 == q * m + r;
    assert x == q * (2 * m) + (2 * r + x % 2) by {
      assert q * (2 * m) == 2 * (q * m);
    }
    Remainder(x, 2 * m, q, 2 * r + x % 2);
  }

  /** The mask is one below a power of two, covers the first byte of the modulus
      and is less than twice it. */
  lemma MaskShape(first: byte) returns (k: nat)
    requires first > 0
    ensures 1 <= k <= 8 && k == 8 - LeadingZeros(first)
    ensures EntropyTopMask(first) == Some(Pow(2, k) - 1)
    ensures first < Pow(2, k) <= 2 * first
    ensures Pow(2, k) * Pow(2, 8 - k) == 256
  {
    var n := LeadingZeros(first);
    k := 8 - n;
    PowAdd(2, k, n);
    assert Pow(2, 8) == 256 by { PowAdd(2, 4, 4); }
    var a, b := Pow(2, k), Pow(2, n);
    assert a * b == 256 && b >= 1;
    MaskArithmetic(first, a, b);
  }

  lemma MaskArithmetic(first: nat, a: nat, b: nat)
    requires a * b == 256 && b >= 1 && first * b < 256 <= 2 * (first * b)
    ensures first < a <= 2 * first
    ensures 255 / b == a - 1
  {
    if first >= a {
      MulGrows(a, first + 1, b);
    }
    if 2 * first < a {
      MulGrows(2 * first, a, b);
    }
    assert 255 == (a - 1) * b + (b - 1);
    Quotient(255, b, a - 1, b - 1);
  }

  lemma MulGrows(x: nat, y: nat, w: nat)
    requires x < y
    ensures x * w + w <= y * w
  {
    MulAtLeast(y - x, w);
    assert (y - x) * w == y * w - x * w;
  }

  lemma Quotient(n: nat, m: nat, q: nat, r: nat)
    requires r < m && n == q * m + r
    ensures n / m == q
  {
    QuotientIsUnique(m, q, r, n / m, n % m);
  }

  lemma {:induction false} MinimalForm(value: nat)
    ensures FromBE(MinimalBE(value)) == value
    ensures value > 0 ==> MinimalBE(value) != [] && MinimalBE(value)[0] > 0
  {
    if value == 0 {
    } else {
      MinimalForm(value / 256);
      var high := MinimalBE(value / 256);
      assert (high + [value % 256])[..|high|] == high;
    }
  }

  lemma {:induction false} LeadingByte(x: byte, tail: Bytes)
    ensures FromBE([x] + tail) == x * Pow(256, |tail|) + FromBE(tail)
  {
    if tail == [] {
      assert ([x] + tail)[..0] == [];
    } else {
      var n := |tail| - 1;
      assert ([x] + tail)[..n + 1] == [x] + tail[..n];
      LeadingByte(x, tail[..n]);
      MulAssociates(x, Pow(256, n), 256);
    }
  }

  // ----- the candidates -----

  /** Every masked candidate lies below twice the modulus, so each draw is
      accepted with probability above one half. */
  lemma CandidateBelowTwice(modulus: nat, raw: Bytes)
    requires modulus > 0 && |raw| == |MinimalBE(modulus)|
    ensures raw != [] && MinimalBE(modulus)[0] > 0
    ensures FromBE(Masked(raw, EntropyTopMask(MinimalBE(modulus)[0]).value)) < 2 * modulus
  {
    MinimalForm(modulus);
    var m := MinimalBE(modulus);
    var k := MaskShape(m[0]);
    AndIsRemainder(raw[0], k);
    var top, tail, w := And(raw[0], Pow(2, k) - 1), raw[1..], Pow(256, |raw| - 1);
    LeadingByte(top, tail);
    ValueOf(m);
    BytesBelowPower(tail);
    BelowTwice(top, FromBE(tail), w, m[0], FromBE(m[1..]));
  }

  lemma ValueOf(m: Bytes)
    requires m != []
    ensures FromBE(m) == m[0] * Pow(256, |m| - 1) + FromBE(m[1..])
  {
    assert m == [m[0]] + m[1..];
    LeadingByte(m[0], m[1..]);
  }

  lemma BelowTwice(top: nat, low: nat, w: nat, first: nat, rest: nat)
    requires low < w && top < 2 * first
    ensures top * w + low < 2 * (first * w + rest)
  {
    assert (2 * first - top) * w >= w by {
      MulAtLeast(2 * first - top, w);
    }
    assert (2 * first - top) * w == 2 * (first * w) - top * w;
  }

  /** The numbers that leave remainder `top` by `step`, for `n` quotients from `q` on. */
  function Sources(top: nat, step: nat, q: nat, n: nat): set<nat>
    decreases n
  {
    if n == 0 then {} else Sources(top, step, q + 1, n - 1) + {q * step + top}
  }

  lemma {:induction false} SourcesAre(m: nat, r: nat, top: nat, step: nat, q: nat, n: nat)
    requires top < step && r < step
    ensures m * step + r in Sources(top, step, q, n) <==> q <= m < q + n && r == top
    decreases n
  {
    if n == 0 {
    } else {
      SourcesAre(m, r, top, step, q + 1, n - 1);
      if m * step + r == q * step + top {
        QuotientIsUnique(step, m, r, q, top);
      }
    }
  }

  lemma {:induction false} SourcesAreCounted(top: nat, step: nat, q: nat, n: nat)
    requires top < step
    ensures |Sources(top, step, q, n)| == n
    decreases n
  {
    if n == 0 {
    } else {
      SourcesAreCounted(top, step, q + 1, n - 1);
      SourcesAre(q, top, top, step, q + 1, n - 1);
    }
  }

  lemma QuotientBelow(x: nat, step: nat, n: nat)
    requires step > 0
    ensures x < n * step <==> x / step < n
    ensures x == x / step * step + x % step
  {
    var q := x / step;
    assert x == q * step + x % step;
    if q < n {
      MulGrows(q, n, step);
    } else if n < q {
      MulGrows(n, q, step);
    }
  }

  /** The strings of one tail and any of several first bytes. */
  function WithTail(tops: set<nat>, tail: Bytes): set<Bytes>
    requires forall x :: x in tops ==> x < 256
  {
    set x | x in tops :: [x] + tail
  }

  lemma {:induction false} WithTailIsCounted(tops: set<nat>, tail: Bytes)
    requires forall x :: x in tops ==> x < 256
    ensures |WithTail(tops, tail)| == |tops|
  {
    if tops == {} {
      assert WithTail(tops, tail) == {};
    } else {
      var x :| x in tops;
      WithTailIsCounted(tops - {x}, tail);
      assert WithTail(tops, tail) == WithTail(tops - {x}, tail) + {[x] + tail};
      assert forall y :: y in tops - {x} ==> ([y] + tail)[0] != ([x] + tail)[0];
    }
  }

  lemma WithTailIs(tops: set<nat>, tail: Bytes, raw: Bytes)
    requires forall x :: x in tops ==> x < 256
    ensures raw in WithTail(tops, tail) <==> raw != [] && raw[0] in tops && raw[1..] == tail
  {
    if raw != [] {
      assert raw == [raw[0]] + raw[1..];
    }
  }

  /** The raw strings of a width that mask to a value. */
  ghost predicate MaskExactly(strings: set<Bytes>, width: nat, mask: byte, value: nat) {
    forall raw: Bytes :: raw in strings <==> raw != [] && |raw| == width && FromBE(Masked(raw, mask)) == value
  }

  /** Sampling is unbiased: every value below the modulus is the masked value of the
      same number of raw entropy strings, 2 to the number of bits the mask clears. */
  lemma EveryValueEquallyLikely(modulus: nat, value: nat) returns (strings: set<Bytes>)
    requires value < modulus
    ensures MinimalBE(modulus) != [] && MinimalBE(modulus)[0] > 0
    ensures |strings| == Pow(2, LeadingZeros(MinimalBE(modulus)[0]))
    ensures MaskExactly(strings, |MinimalBE(modulus)|, EntropyTopMask(MinimalBE(modulus)[0]).value, value)
  {
    MinimalForm(modulus);
    var first := MinimalBE(modulus)[0];
    MaskCovers(first);
    var n := LeadingZeros(first);
    SmallPowers(8 - n);
    var masked := WideForm(MinimalBE(modulus), value);
    strings := StringsOf(masked, EntropyTopMask(first).value, 8 - n, Pow(2, n));
  }

  lemma MaskCovers(first: byte)
    requires first > 0
    ensures first <= EntropyTopMask(first).value
    ensures EntropyTopMask(first).value + 1 == Pow(2, 8 - LeadingZeros(first))
  {
    var k := MaskShape(first);
  }

  lemma WideForm(m: Bytes, value: nat) returns (masked: Bytes)
    requires m != [] && value < FromBE(m)
    ensures |masked| == |m| && FromBE(masked) == value && masked[0] <= m[0]
  {
    BytesBelowPower(m);
    masked := ToBE(value, |m|);
    EncodesAndDecodes(value, |m|);
    TopByteIsSmall(value, masked, m);
  }

  lemma StringsOf(masked: Bytes, mask: byte, k: nat, n: nat) returns (strings: set<Bytes>)
    requires masked != [] && masked[0] <= mask && k <= 8 && mask + 1 == Pow(2, k) && (mask + 1) * n == 256
    ensures |strings| == n && MaskExactly(strings, |masked|, mask, FromBE(masked))
  {
    var tops := Tops(masked[0], mask + 1, n);
    WithTailIsCounted(tops, masked[1..]);
    strings := WithTail(tops, masked[1..]);
    forall raw: Bytes
      ensures raw in strings <==> raw != [] && |raw| == |masked| && FromBE(Masked(raw, mask)) == FromBE(masked)
    {
      OneString(raw, masked, mask, k, tops);
    }
  }

  lemma OneString(raw: Bytes, masked: Bytes, mask: byte, k: nat, tops: set<nat>)
    requires masked != [] && k <= 8 && mask + 1 == Pow(2, k)
    requires forall x: nat :: x in tops <==> x < 256 && x % (mask + 1) == masked[0]
    ensures raw in WithTail(tops, masked[1..]) <==>
            raw != [] && |raw| == |masked| && FromBE(Masked(raw, mask)) == FromBE(masked)
  {
    WithTailIs(tops, masked[1..], raw);
    if |raw| == |masked| {
      assert raw[0] in tops <==> raw[0] % (mask + 1) == masked[0];
      MaskedToValue(raw, masked, k);
    } else if raw != [] {
      assert raw[1..] != masked[1..];
    }
  }

  lemma Tops(top: nat, step: nat, n: nat) returns (tops: set<nat>)
    requires top < step && step * n == 256
    ensures |tops| == n
    ensures forall x: nat :: x in tops <==> x < 256 && x % step == top
  {
    tops := Sources(top, step, 0, n);
    SourcesAreCounted(top, step, 0, n);
    assert n * step == 256;
    forall x: nat
      ensures x in tops <==> x < 256 && x % step == top
    {
      QuotientBelow(x, step, n);
      SourcesAre(x / step, x % step, top, step, 0, n);
    }
  }

  lemma MaskedToValue(raw: Bytes, masked: Bytes, k: nat)
    requires masked != [] && |raw| == |masked| && k <= 8
    ensures 1 <= Pow(2, k) <= 256
    ensures FromBE(Masked(raw, Pow(2, k) - 1)) == FromBE(masked) <==>
              raw[0] % Pow(2, k) == masked[0] && raw[1..] == masked[1..]
  {
    assert Pow(2, k) <= 256 by { SmallPowers(k); }
    AndIsRemainder(raw[0], k);
    var cut := Masked(raw, Pow(2, k) - 1);
    if FromBE(cut) == FromBE(masked) {
      ValueDeterminesBytes(cut, masked);
    }
    assert cut[1..] == raw[1..] && cut[0] == raw[0] % Pow(2, k);
    assert cut == [cut[0]] + cut[1..] && masked == [masked[0]] + masked[1..];
  }

  lemma {:induction false} SmallPowers(k: nat)
    requires k <= 8
    ensures Pow(2, k) <= 256 && Pow(2, k) * Pow(2, 8 - k) == 256
  {
    PowAdd(2, k, 8 - k);
    PowAdd(2, 4, 4);
    var a, b := Pow(2, k), Pow(2, 8 - k);
    assert Pow(2, 4) == 16;
    AndIsRemainder(0, k);
    AndIsRemainder(0, 8 - k);
    MulAtLeast(b, a);
    assert a * b == b * a;
  }

  /** A smaller number of the same width has no larger top byte. */
  lemma TopByteIsSmall(value: nat, a: Bytes, b: Bytes)
    requires a != [] && |a| == |b| && FromBE(a) == value && value < FromBE(b)
    ensures a[0] <= b[0]
  {
    ValueOf(a);
    ValueOf(b);
    BytesBelowPower(b[1..]);
    TopDigit(a[0], FromBE(a[1..]), b[0], FromBE(b[1..]), Pow(256, |a| - 1));
  }

  lemma TopDigit(a: nat, x: nat, b: nat, y: nat, w: nat)
    requires a * w + x < b * w + y && y < w
    ensures a <= b
  {
    if a > b {
      MulGrows(b, a, w);
    }
  }

  // ----- the retry loop -----

  predicate Rejects(modulus: nat, mask: byte, draw: Option<Bytes>) {
    draw.Some? && draw.value != [] && FromBE(Masked(draw.value, mask)) >= modulus
  }

  /** Answers of the entropy source: by draw and width, that many bytes or a failure. */
  type Entropy = (nat, nat) -> Option<Bytes>

  ghost predicate FillsWidth(entropy: Entropy) {
    forall i: nat, width: nat :: entropy(i, width).Some? ==> |entropy(i, width).value| == width
  }

  /** After rejecting all earlier draws, the last of `draws` draws was accepted and gave
      the result, or failed, or was the last one allowed and rejected too. */
  ghost predicate Sampled(modulus: nat, entropy: Entropy, r: Option<nat>, draws: nat) {
    var bytes := MinimalBE(modulus);
    && draws <= MAX_RANDOM_REJECTIONS
    && (modulus == 0 ==> r.None? && draws == 0)
    && (modulus > 0 ==>
          && bytes != [] && EntropyTopMask(bytes[0]).Some? && draws > 0
          && var mask := EntropyTopMask(bytes[0]).value;
             var last := entropy(draws - 1, |bytes|);
             && (forall i :: 0 <= i < draws - 1 ==> Rejects(modulus, mask, entropy(i, |bytes|)))
             && (r.Some? ==> last.Some? && last.value != []
                             && r.value == FromBE(Masked(last.value, mask)) && r.value < modulus)
             && (r.None? ==> last.None? || (draws == MAX_RANDOM_REJECTIONS && Rejects(modulus, mask, last))))
  }

  /** The retry loop of `crypto_bignum_rand`. */
  method RandomBelow(modulus: nat, entropy: Entropy) returns (r: Option<nat>, ghost draws: nat)
    requires FillsWidth(entropy)
    ensures Sampled(modulus, entropy, r, draws)
  {
    r, draws := None, 0;
    var bytes := MinimalBE(modulus);
    MinimalForm(modulus);
    if bytes == [] {
      return;
    }
    var mask := EntropyTopMask(bytes[0]).value;
    for i := 0 to MAX_RANDOM_REJECTIONS
      invariant draws == i && r.None?
      invariant forall j :: 0 <= j < i ==> Rejects(modulus, mask, entropy(j, |bytes|))
    {
      var draw := entropy(i, |bytes|);
      draws := i + 1;
      if draw.None? {
        return;
      }
      var candidate := FromBE(Masked(draw.value, mask));
      if candidate < modulus {
        r := Some(candidate);
        return;
      }
    }
  }
}
