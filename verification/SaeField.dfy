/** Inversion and the Legendre symbol modulo the P-256 field prime, computed
    through one field-power primitive.  Curve P-256 is section D.1.2.3 of
    FIPS 186-4; SAE group 19 uses it through section 3.1 of RFC 5903. */
module SaeField {
  import opened Common
  import opened NumberTheory

  const P256_ELEMENT_BYTES: nat := 32
  const P256_FIELD_PRIME: nat := 0xffffffff_00000001_00000000_00000000_00000000_ffffffff_ffffffff_ffffffff

  const P256_INVERSE_EXPONENT: Bytes :=
    [0xff, 0xff, 0xff, 0xff, 0x00, 0x00, 0x00, 0x01] + [0x00, 0x00, 0x00, 0x00, 0x00, 0x00, 0x00, 0x00]
    + [0x00, 0x00, 0x00, 0x00, 0xff, 0xff, 0xff, 0xff] + [0xff, 0xff, 0xff, 0xff, 0xff, 0xff, 0xff, 0xfd]
  const P256_LEGENDRE_EXPONENT: Bytes :=
    [0x7f, 0xff, 0xff, 0xff, 0x80, 0x00, 0x00, 0x00] + [0x80, 0x00, 0x00, 0x00, 0x00, 0x00, 0x00, 0x00]
    + [0x00, 0x00, 0x00, 0x00, 0x7f, 0xff, 0xff, 0xff] + [0xff, 0xff, 0xff, 0xff, 0xff, 0xff, 0xff, 0xff]
  const P256_FIELD_ONE: Bytes :=
    [0x00, 0x00, 0x00, 0x00, 0x00, 0x00, 0x00, 0x00] + [0x00, 0x00, 0x00, 0x00, 0x00, 0x00, 0x00, 0x00]
    + [0x00, 0x00, 0x00, 0x00, 0x00, 0x00, 0x00, 0x00] + [0x00, 0x00, 0x00, 0x00, 0x00, 0x00, 0x00, 0x01]
  const P256_FIELD_MINUS_ONE: Bytes :=
    [0xff, 0xff, 0xff, 0xff, 0x00, 0x00, 0x00, 0x01] + [0x00, 0x00, 0x00, 0x00, 0x00, 0x00, 0x00, 0x00]
    + [0x00, 0x00, 0x00, 0x00, 0xff, 0xff, 0xff, 0xff] + [0xff, 0xff, 0xff, 0xff, 0xff, 0xff, 0xff, 0xfe]

  // ----- big-endian byte strings -----

  function FromBE(bytes: Bytes): nat {
    if bytes == [] then 0 else FromBE(bytes[..|bytes| - 1]) * 256 + bytes[|bytes| - 1]
  }

  function ToBE(value: nat, width: nat): (r: Bytes)
    ensures |r| == width
  {
    if width == 0 then [] else ToBE(value / 256, width - 1) + [value % 256]
  }

  lemma {:induction false} BytesBelowPower(bytes: Bytes)
    ensures FromBE(bytes) < Pow(256, |bytes|)
  {
    if bytes == [] {
    } else {
      BytesBelowPower(bytes[..|bytes| - 1]);
    }
  }

  lemma QuotientFits(value: nat, w: nat)
    requires value < w * 256
    ensures value / 256 < w
  {
  }

  lemma {:induction false} EncodesAndDecodes(value: nat, width: nat)
    requires value < Pow(256, width)
    ensures FromBE(ToBE(value, width)) == value
  {
    if width == 0 {
    } else {
      var high := ToBE(value / 256, width - 1);
      assert (high + [value % 256])[..width - 1] == high;
      QuotientFits(value, Pow(256, width - 1));
      EncodesAndDecodes(value / 256, width - 1);
    }
  }

  /** Byte strings of one width are equal when their values are. */
  lemma {:induction false} ValueDeterminesBytes(a: Bytes, b: Bytes)
    requires |a| == |b| && FromBE(a) == FromBE(b)
    ensures a == b
  {
    if a == [] {
    } else {
      var n := |a| - 1;
      assert FromBE(a[..n]) == FromBE(b[..n]) && a[n] == b[n];
      ValueDeterminesBytes(a[..n], b[..n]);
      assert a == a[..n] + [a[n]] && b == b[..n] + [b[n]];
    }
  }

  function Word(s: Bytes, k: nat): nat
    requires k + 4 <= |s|
  {
    0x100_0000 * (s[k] as nat) + 0x1_0000 * (s[k + 1] as nat) + 0x100 * (s[k + 2] as nat) + s[k + 3]
  }

  lemma AppendByte(s: Bytes, k: nat)
    requires k < |s|
    ensures FromBE(s[..k + 1]) == FromBE(s[..k]) * 256 + s[k]
  {
    assert s[..k + 1][..k] == s[..k];
  }

  lemma AppendWord(s: Bytes, k: nat)
    requires k + 4 <= |s|
    ensures FromBE(s[..k + 4]) == 0x1_0000_0000 * FromBE(s[..k]) + Word(s, k)
  {
    AppendByte(s, k);
    AppendByte(s, k + 1);
    AppendByte(s, k + 2);
    AppendByte(s, k + 3);
  }

  /** The first `k` words of a byte string as one number. */
  function Horner(s: Bytes, k: nat): nat
    requires 4 * k <= |s|
  {
    if k == 0 then 0 else 0x1_0000_0000 * Horner(s, k - 1) + Word(s, 4 * (k - 1))
  }

  lemma {:induction false} HornerIsValue(s: Bytes, k: nat)
    requires 4 * k <= |s|
    ensures FromBE(s[..4 * k]) == Horner(s, k)
  {
    if k == 0 {
    } else {
      HornerIsValue(s, k - 1);
      AppendWord(s, 4 * (k - 1));
      assert 4 * (k - 1) + 4 == 4 * k;
    }
  }

  /** A 32-byte string whose eight words are known. */
  lemma EightWords(s: Bytes, w0: nat, w1: nat, w2: nat, w3: nat, w4: nat, w5: nat, w6: nat, w7: nat)
    requires |s| == 32
    requires Word(s, 0) == w0 && Word(s, 4) == w1 && Word(s, 8) == w2 && Word(s, 12) == w3
    requires Word(s, 16) == w4 && Word(s, 20) == w5 && Word(s, 24) == w6 && Word(s, 28) == w7
    ensures FromBE(s) == w7 + 0x1_0000_0000 * (w6 + 0x1_0000_0000 * (w5 + 0x1_0000_0000 * (w4
                         + 0x1_0000_0000 * (w3 + 0x1_0000_0000 * (w2 + 0x1_0000_0000 * (w1 + 0x1_0000_0000 * w0))))))
  {
    HornerIsValue(s, 8);
    assert s[..32] == s;
    assert Horner(s, 1) == 0x1_0000_0000 * Horner(s, 0) + w0;
    assert Horner(s, 2) == 0x1_0000_0000 * Horner(s, 1) + w1;
    assert Horner(s, 3) == 0x1_0000_0000 * Horner(s, 2) + w2;
    assert Horner(s, 4) == 0x1_0000_0000 * Horner(s, 3) + w3;
    assert Horner(s, 5) == 0x1_0000_0000 * Horner(s, 4) + w4;
    assert Horner(s, 6) == 0x1_0000_0000 * Horner(s, 5) + w5;
    assert Horner(s, 7) == 0x1_0000_0000 * Horner(s, 6) + w6;
    assert Horner(s, 8) == 0x1_0000_0000 * Horner(s, 7) + w7;
  }

  lemma InverseExponentDecodes(s: Bytes)
    requires s == P256_INVERSE_EXPONENT
    ensures FromBE(s) == P256_FIELD_PRIME - 2
  {
    EightWords(s, 0xffffffff, 1, 0, 0, 0, 0xffffffff, 0xffffffff, 0xfffffffd);
  }

  lemma LegendreExponentDecodes(s: Bytes)
    requires s == P256_LEGENDRE_EXPONENT
    ensures FromBE(s) == (P256_FIELD_PRIME - 1) / 2
  {
    EightWords(s, 0x7fffffff, 0x80000000, 0x80000000, 0, 0, 0x7fffffff, 0xffffffff, 0xffffffff);
  }

  lemma OneDecodes(s: Bytes)
    requires s == P256_FIELD_ONE
    ensures FromBE(s) == 1
  {
    EightWords(s, 0, 0, 0, 0, 0, 0, 0, 1);
  }

  lemma MinusOneDecodes(s: Bytes)
    requires s == P256_FIELD_MINUS_ONE
    ensures FromBE(s) == P256_FIELD_PRIME - 1
  {
    EightWords(s, 0xffffffff, 1, 0, 0, 0, 0xffffffff, 0xffffffff, 0xfffffffe);
  }

  /** The exponent and comparison constants are what the formulas need. */
  lemma ConstantsDecode()
    ensures FromBE(P256_INVERSE_EXPONENT) == P256_FIELD_PRIME - 2
    ensures FromBE(P256_LEGENDRE_EXPONENT) == (P256_FIELD_PRIME - 1) / 2
    ensures FromBE(P256_FIELD_ONE) == 1
    ensures FromBE(P256_FIELD_MINUS_ONE) == P256_FIELD_PRIME - 1
  {
    InverseExponentDecodes(P256_INVERSE_EXPONENT);
    LegendreExponentDecodes(P256_LEGENDRE_EXPONENT);
    OneDecodes(P256_FIELD_ONE);
    MinusOneDecodes(P256_FIELD_MINUS_ONE);
  }

  // ----- the adapter -----

  datatype LegendreSymbol = Zero | Residue | NonResidue

  /** The primitives the adapter calls: hardware field power, and the software
      paths for other moduli and for operands that are not canonical. */
  datatype Providers = Providers(
    fieldPow: (Bytes, Bytes) -> Option<Bytes>,
    softInverse: (nat, nat) -> Option<nat>,
    softExpMod: (nat, nat, nat) -> Option<nat>,
    softLegendre: (nat, nat) -> Option<LegendreSymbol>)

  predicate Canonical(element: Bytes) {
    |element| == P256_ELEMENT_BYTES && FromBE(element) < P256_FIELD_PRIME
  }

  /** Whenever the hardware answers, it answers the modular power. */
  ghost predicate ComputesPower(fieldPow: (Bytes, Bytes) -> Option<Bytes>) {
    forall base, exponent ::
      Canonical(base) && |exponent| == P256_ELEMENT_BYTES && fieldPow(base, exponent).Some? ==>
        var out := fieldPow(base, exponent).value;
        Canonical(out) && FromBE(out) == Pow(FromBE(base), FromBE(exponent)) % P256_FIELD_PRIME
  }

  function AllZero(bytes: Bytes): bool {
    forall i :: 0 <= i < |bytes| ==> bytes[i] == 0
  }

  function LegendreResult(element: Bytes): Option<LegendreSymbol> {
    if AllZero(element) then Some(Zero)
    else if element == P256_FIELD_ONE then Some(Residue)
    else if element == P256_FIELD_MINUS_ONE then Some(NonResidue)
    else None
  }

  /** `crypto_bignum_inverse` on values: a canonical operand of the P-256 prime
      goes through the hardware power, zero fails, the rest goes to software. */
  function Inverse(value: nat, modulus: nat, providers: Providers): Option<nat> {
    if modulus == P256_FIELD_PRIME && value < P256_FIELD_PRIME then
      if value == 0 then None
      else match providers.fieldPow(ToBE(value, P256_ELEMENT_BYTES), P256_INVERSE_EXPONENT)
        case None => None
        case Some(out) => Some(FromBE(out))
    else providers.softInverse(value, modulus)
  }

  /** `crypto_bignum_legendre` on values, with its C return codes. */
  function Legendre(value: nat, prime: nat, providers: Providers): int {
    var result :=
      if prime == P256_FIELD_PRIME && value < P256_FIELD_PRIME then
        match providers.fieldPow(ToBE(value, P256_ELEMENT_BYTES), P256_LEGENDRE_EXPONENT)
        case None => None
        case Some(out) => LegendreResult(out)
      else providers.softLegendre(value, prime);
    if result.None? then -2
    else match result.value
      case NonResidue => -1
      case Zero => 0
      case Residue => 1
  }

  /** `crypto_bignum_exptmod` on values: hardware for the P-256 prime when base
      and exponent fit, software otherwise. */
  function ExpMod(base: nat, exponent: nat, modulus: nat, providers: Providers): Option<nat> {
    if modulus == P256_FIELD_PRIME && base < P256_FIELD_PRIME && exponent < Pow(256, P256_ELEMENT_BYTES) then
      match providers.fieldPow(ToBE(base, P256_ELEMENT_BYTES), ToBE(exponent, P256_ELEMENT_BYTES))
      case None => None
      case Some(out) => Some(FromBE(out))
    else providers.softExpMod(base, exponent, modulus)
  }

  lemma ElementsFit()
    ensures P256_FIELD_PRIME < Pow(256, P256_ELEMENT_BYTES)
  {
    BytesBelowPower(P256_FIELD_MINUS_ONE);
    ConstantsDecode();
    PowAdd(256, 16, 16);
    assert Pow(256, 4) == 0x1_0000_0000;
    PowAdd(256, 4, 4);
    PowAdd(256, 8, 8);
  }

  lemma {:induction false} AllZeroIsZero(bytes: Bytes)
    ensures AllZero(bytes) <==> FromBE(bytes) == 0
  {
    if bytes == [] {
    } else {
      var n := |bytes| - 1;
      AllZeroIsZero(bytes[..n]);
      assert bytes == bytes[..n] + [bytes[n]];
    }
  }

  /** For every canonical non-zero operand a hardware answer is the one inverse
      below the prime; zero and a hardware failure give no result. */
  lemma InverseIsCorrect(value: nat, providers: Providers)
    requires Prime(P256_FIELD_PRIME) && ComputesPower(providers.fieldPow)
    requires value < P256_FIELD_PRIME
    ensures var r := Inverse(value, P256_FIELD_PRIME, providers);
            && (r.None? <==> value == 0
                             || providers.fieldPow(ToBE(value, P256_ELEMENT_BYTES), P256_INVERSE_EXPONENT).None?)
            && (r.Some? ==> r.value < P256_FIELD_PRIME && (r.value * value) % P256_FIELD_PRIME == 1)
            && (r.Some? ==> forall other: nat ::
                  other < P256_FIELD_PRIME && (other * value) % P256_FIELD_PRIME == 1 ==> other == r.value)
  {
    ElementsFit();
    EncodesAndDecodes(value, P256_ELEMENT_BYTES);
    ConstantsDecode();
    var r := Inverse(value, P256_FIELD_PRIME, providers);
    if r.Some? {
      FermatInverse(P256_FIELD_PRIME, value, r.value);
      forall other: nat | other < P256_FIELD_PRIME && (other * value) % P256_FIELD_PRIME == 1
        ensures other == r.value
      {
        FermatInverse(P256_FIELD_PRIME, value, other);
      }
    }
  }

  /** A power of the half exponent is always classified, and as Euler's
      criterion says. */
  lemma HalfPowerIsClassified(value: nat, out: Bytes)
    requires Prime(P256_FIELD_PRIME) && value < P256_FIELD_PRIME && Canonical(out)
    requires FromBE(out) == Pow(value, (P256_FIELD_PRIME - 1) / 2) % P256_FIELD_PRIME
    ensures LegendreResult(out) == Some(if value == 0 then Zero
                                        else if QuadraticResidue(P256_FIELD_PRIME, value) then Residue else NonResidue)
  {
    EulersCriterion(P256_FIELD_PRIME, value);
    HalfPower(P256_FIELD_PRIME, value);
    ConstantsDecode();
    AllZeroIsZero(out);
    SmallRemainder(value, P256_FIELD_PRIME);
    if FromBE(out) == 1 {
      ValueDeterminesBytes(out, P256_FIELD_ONE);
    } else if FromBE(out) == P256_FIELD_PRIME - 1 {
      ValueDeterminesBytes(out, P256_FIELD_MINUS_ONE);
    }
  }

  /** On every canonical operand the call returns 0, 1 or -1 as the operand is
      zero, a square or a non-square, or -2 when the hardware failed; the
      classification of the hardware's answer never fails. */
  lemma LegendreIsCorrect(value: nat, providers: Providers)
    requires Prime(P256_FIELD_PRIME) && ComputesPower(providers.fieldPow)
    requires value < P256_FIELD_PRIME
    ensures var failed := providers.fieldPow(ToBE(value, P256_ELEMENT_BYTES), P256_LEGENDRE_EXPONENT).None?;
            Legendre(value, P256_FIELD_PRIME, providers)
            == if failed then -2
               else if value == 0 then 0
               else if QuadraticResidue(P256_FIELD_PRIME, value) then 1 else -1
  {
    ElementsFit();
    EncodesAndDecodes(value, P256_ELEMENT_BYTES);
    ConstantsDecode();
    var answer := providers.fieldPow(ToBE(value, P256_ELEMENT_BYTES), P256_LEGENDRE_EXPONENT);
    if answer.Some? {
      HalfPowerIsClassified(value, answer.value);
    }
  }

  ghost predicate SoftwareIsRight(providers: Providers) {
    && (forall b, e, m :: m > 0 && providers.softExpMod(b, e, m).Some? ==>
          providers.softExpMod(b, e, m).value == Pow(b, e) % m)
    && (forall v, m :: m > 0 && providers.softInverse(v, m).Some? ==>
          providers.softInverse(v, m).value < m && (providers.softInverse(v, m).value * v) % m == 1)
  }

  /** Which path a call takes does not show: any answer of `exptmod`, for every
      base, exponent and modulus, is the modular power, and on canonical P-256
      operands the hardware inverse is the one the software path would give. */
  lemma DispatchDoesNotShow(base: nat, exponent: nat, modulus: nat, providers: Providers)
    requires Prime(P256_FIELD_PRIME) && ComputesPower(providers.fieldPow) && SoftwareIsRight(providers)
    requires modulus > 0
    ensures var r := ExpMod(base, exponent, modulus, providers);
            && (r.Some? ==> r.value == Pow(base, exponent) % modulus)
            && (r.None? ==> providers.softExpMod(base, exponent, modulus).None?
                            || providers.fieldPow(ToBE(base, P256_ELEMENT_BYTES), ToBE(exponent, P256_ELEMENT_BYTES)).None?)
    ensures var r := Inverse(base, modulus, providers);
            var soft := providers.softInverse(base, modulus);
            && (r.Some? && soft.Some? ==> r == soft)
            && (r.Some? ==> r.value < modulus && (r.value * base) % modulus == 1)
            && (r.None? ==> soft.None? || (modulus == P256_FIELD_PRIME && base < P256_FIELD_PRIME
                                           && (base == 0 || providers.fieldPow(ToBE(base, P256_ELEMENT_BYTES),
                                                                               P256_INVERSE_EXPONENT).None?)))
  {
    ElementsFit();
    if base < P256_FIELD_PRIME && exponent < Pow(256, P256_ELEMENT_BYTES) {
      EncodesAndDecodes(base, P256_ELEMENT_BYTES);
      EncodesAndDecodes(exponent, P256_ELEMENT_BYTES);
    }
    if modulus == P256_FIELD_PRIME && base < P256_FIELD_PRIME {
      InverseIsCorrect(base, providers);
    }
  }

  /** The symbol of a value modulo an odd prime. */
  ghost function SymbolOf(value: nat, p: nat): LegendreSymbol
    requires p > 0
  {
    if value % p == 0 then Zero else if QuadraticResidue(p, value) then Residue else NonResidue
  }

  ghost predicate SoftLegendreIsRight(providers: Providers) {
    forall v, p :: Prime(p) && p > 2 && providers.softLegendre(v, p).Some? ==> providers.softLegendre(v, p).value == SymbolOf(v, p)
  }

  /** For every value and every odd prime, canonical or not, the call returns the code of
      the value's symbol, or -2 when the path it takes gave no answer. */
  lemma LegendreDispatchDoesNotShow(value: nat, prime: nat, providers: Providers)
    requires Prime(P256_FIELD_PRIME) && ComputesPower(providers.fieldPow) && SoftLegendreIsRight(providers)
    requires Prime(prime) && prime > 2
    ensures var code := Legendre(value, prime, providers);
            && (code == -2 <==>
                  if prime == P256_FIELD_PRIME && value < P256_FIELD_PRIME
                  then providers.fieldPow(ToBE(value, P256_ELEMENT_BYTES), P256_LEGENDRE_EXPONENT).None?
                  else providers.softLegendre(value, prime).None?)
            && (code != -2 ==>
                  code == match SymbolOf(value, prime)
                          case Zero => 0
                          case Residue => 1
                          case NonResidue => -1)
  {
    if prime == P256_FIELD_PRIME && value < P256_FIELD_PRIME {
      LegendreIsCorrect(value, providers);
      SmallRemainder(value, P256_FIELD_PRIME);
    }
  }
}
