/**
 The binary NUMERIC codec of `rust_decimal` values: a header of four 16-bit words
 followed by base-10000 digit groups, most significant first.
 */
module Numeric {
  import opened Wrappers
  import opened Bytes
  import opened Sequences

  const MAX_MANTISSA := 0xFFFF_FFFF_FFFF_FFFF_FFFF_FFFF
  const MAX_SCALE := 28
  const I128_MAX := 0x7FFF_FFFF_FFFF_FFFF_FFFF_FFFF_FFFF_FFFF
  const U128_MODULUS := 0x1_0000_0000_0000_0000_0000_0000_0000_0000
  const NUMERIC_NEG: u16 := 0x4000
  const NUMERIC_NAN: u16 := 0xC000
  const NUMERIC_PINF: u16 := 0xD000
  const NUMERIC_NINF: u16 := 0xF000

  /** The number `(-1)^negative * mantissa / 10^scale`. */
  datatype Decimal = Decimal(negative: bool, mantissa: nat, scale: nat)

  /** What the library's 96-bit decimal can hold. */
  predicate Representable(d: Decimal) {
    d.mantissa <= MAX_MANTISSA && d.scale <= MAX_SCALE
  }

  datatype Error =
    | TooShort | NotANumber | PositiveInfinity | NegativeInfinity | UnknownSpecial
    | Truncated | TooLarge | LibraryRange

  // ---------------------------------------------------------------------------
  // Arithmetic
  // ---------------------------------------------------------------------------

  function Pow10(n: nat): (p: nat)
    ensures p > 0
  {
    if n == 0 then 1 else 10 * Pow10(n - 1)
  }

  lemma {:induction false} Pow10Add(a: nat, b: nat)
    ensures Pow10(a + b) == Pow10(a) * Pow10(b)
  {
    if a == 0 {
    } else {
      Pow10Add(a - 1, b);
      assert 10 * (Pow10(a - 1) * Pow10(b)) == (10 * Pow10(a - 1)) * Pow10(b);
    }
  }

  lemma Pow10Group(n: nat)
    ensures Pow10(n + 4) == 10000 * Pow10(n)
  {
    assert Pow10(n + 3) == 10 * Pow10(n + 2) && Pow10(n + 2) == 10 * Pow10(n + 1);
  }

  function Shift(m: nat, n: nat): nat {
    m * Pow10(n)
  }

  /** Equal as numbers, whatever the scales. */
  ghost predicate SameNumber(d: Decimal, e: Decimal) {
    d.negative == e.negative && Shift(d.mantissa, e.scale) == Shift(e.mantissa, d.scale)
  }

  /** What is assumed of the library's `rescale`: it is exact whenever an exact result exists. */
  ghost predicate ExactRescale(rescale: (Decimal, nat) -> Decimal) {
    forall d, e :: Representable(d) && Representable(e) && SameNumber(d, e) ==> rescale(d, e.scale) == e
  }

  /** The library's checked constructor. */
  function TryFromI128WithScale(m: nat, scale: nat): Result<Decimal, Error> {
    if scale > MAX_SCALE || m > MAX_MANTISSA then Err(LibraryRange) else Ok(Decimal(false, m, scale))
  }

  // ---------------------------------------------------------------------------
  // Base-10000 groups
  // ---------------------------------------------------------------------------

  /** The number written by the groups, most significant first. */
  function FromGroups(ds: seq<u16>): nat {
    if ds == [] then 0 else FromGroups(ds[..|ds| - 1]) * 10000 + ds[|ds| - 1] as int
  }

  /** The same accumulation in 128-bit arithmetic that wraps. */
  function WrappingFromGroups(ds: seq<u16>): nat {
    if ds == [] then 0
    else (WrappingFromGroups(ds[..|ds| - 1]) * 10000 + ds[|ds| - 1] as int) % U128_MODULUS
  }

  /** The canonical groups of `m`: none for zero, and no leading zero group. */
  function ToGroups(m: nat): (ds: seq<u16>)
    ensures FromGroups(ds) == m
    ensures forall i :: 0 <= i < |ds| ==> ds[i] < 10000
    ensures m > 0 ==> |ds| > 0 && ds[0] > 0
  {
    if m == 0 then [] else
      var hi := ToGroups(m / 10000);
      var ds := hi + [m % 10000];
      assert ds[..|ds| - 1] == hi;
      ds
  }

  lemma {:induction false} WrappingIsResidue(ds: seq<u16>)
    ensures WrappingFromGroups(ds) == FromGroups(ds) % U128_MODULUS
  {
    if ds == [] {
    } else {
      var hi := ds[..|ds| - 1];
      WrappingIsResidue(hi);
      var x, d := FromGroups(hi), ds[|ds| - 1] as int;
      var q := x / U128_MODULUS;
      assert x * 10000 + d == (x % U128_MODULUS * 10000 + d) + U128_MODULUS * (q * 10000);
      ResiduePlusMultiple(x % U128_MODULUS * 10000 + d, q * 10000);
    }
  }

  lemma ResiduePlusMultiple(a: nat, k: nat)
    ensures (a + U128_MODULUS * k) % U128_MODULUS == a % U128_MODULUS
  {}

  /** `m` has at most `n` groups when it is below 10^(4n). */
  lemma {:induction false} GroupCount(m: nat, n: nat)
    requires m < Pow10(4 * n)
    ensures |ToGroups(m)| <= n
  {
    if m == 0 {
    } else {
      Pow10Group(4 * n - 4);
      GroupCount(m / 10000, n - 1);
    }
  }

  /** Drops zero groups from the end, but keeps at least `keep` groups. */
  function TrimZeros(ds: seq<u16>, keep: nat): (r: seq<u16>)
    ensures |r| <= |ds| && r == ds[..|r|]
  {
    if |ds| > keep && ds[|ds| - 1] == 0 then TrimZeros(ds[..|ds| - 1], keep) else ds
  }

  /** `m` without its trailing zero groups, at most `limit` of them. */
  function TrimmedMantissa(m: nat, limit: nat): nat
    decreases limit
  {
    if limit > 0 && m % 10000 == 0 then TrimmedMantissa(m / 10000, limit - 1) else m
  }

  lemma MulAssoc(x: nat, p: nat)
    ensures x * p * 10000 == x * (10000 * p)
  {}

  /** `r` is `ds` without some zero groups at its end, at most `limit` of them and as many as possible. */
  ghost predicate IsTrimmed(ds: seq<u16>, limit: nat, r: seq<u16>) {
    && 0 < |r| <= |ds| && |ds| - |r| <= limit
    && FromGroups(r) == TrimmedMantissa(FromGroups(ds), limit)
    && FromGroups(ds) == Shift(FromGroups(r), 4 * (|ds| - |r|))
  }

  lemma NothingTrimmed(ds: seq<u16>, limit: nat)
    requires ds != [] && ds[|ds| - 1] < 10000
    requires limit > 0 ==> ds[|ds| - 1] != 0
    ensures IsTrimmed(ds, limit, ds)
  {
    assert FromGroups(ds) == FromGroups(ds[..|ds| - 1]) * 10000 + ds[|ds| - 1] as int;
  }

  lemma TrimStep(x: nat, limit: nat)
    requires limit > 0
    ensures TrimmedMantissa(x * 10000, limit) == TrimmedMantissa(x, limit - 1)
  {}

  lemma ShiftStep(x: nat, y: nat, k: nat)
    requires x == Shift(y, 4 * k)
    ensures x * 10000 == Shift(y, 4 * (k + 1))
  {
    Pow10Group(4 * k);
    MulAssoc(y, Pow10(4 * k));
  }

  lemma OneTrimmed(ds: seq<u16>, hi: seq<u16>, limit: nat, r: seq<u16>)
    requires ds == hi + [0] && limit > 0 && IsTrimmed(hi, limit - 1, r)
    ensures IsTrimmed(ds, limit, r)
  {
    assert ds[..|ds| - 1] == hi;
    var x := FromGroups(hi);
    assert FromGroups(ds) == x * 10000;
    TrimStep(x, limit);
    ShiftStep(x, FromGroups(r), |hi| - |r|);
  }

  lemma {:induction false} TrimmedGroups(ds: seq<u16>, keep: nat, limit: nat)
    requires forall i :: 0 <= i < |ds| ==> ds[i] < 10000
    requires FromGroups(ds) > 0
    requires keep == if |ds| >= limit then |ds| - limit else 0
    ensures var r := TrimZeros(ds, keep);
            && |r| > 0 && keep <= |r| && |ds| - |r| <= limit
            && FromGroups(r) == TrimmedMantissa(FromGroups(ds), limit)
            && FromGroups(ds) == Shift(FromGroups(r), 4 * (|ds| - |r|))
  {
    if |ds| > keep && ds[|ds| - 1] == 0 {
      var hi := ds[..|ds| - 1];
      TrimmedGroups(hi, keep, limit - 1);
      OneTrimmed(ds, hi, limit, TrimZeros(hi, keep));
    } else {
      NothingTrimmed(ds, limit);
    }
  }

  // ---------------------------------------------------------------------------
  // Encoding
  // ---------------------------------------------------------------------------

  function CeilDiv4(n: nat): nat {
    (n + 3) / 4
  }

  /** The mantissa at the next scale that is a multiple of four. */
  function AlignedMantissa(d: Decimal): nat {
    Shift(d.mantissa, 4 * CeilDiv4(d.scale) - d.scale)
  }

  function FlattenGroups(ds: seq<u16>): (s: seq<byte>)
    ensures |s| == 2 * |ds|
  {
    if ds == [] then [] else FlattenGroups(ds[..|ds| - 1]) + BE16(ds[|ds| - 1])
  }

  function Payload(ds: seq<u16>, weight: int, sign: u16, dscale: u16): seq<byte>
    requires |ds| < 0x1_0000
  {
    BE16(|ds|) + BE16(Residue16(weight)) + BE16(sign) + BE16(dscale) + FlattenGroups(ds)
  }

  function Weight(d: Decimal): int {
    |ToGroups(AlignedMantissa(d))| - CeilDiv4(d.scale) - 1
  }

  function KeptGroups(d: Decimal): (ds: seq<u16>) {
    var keep := if Weight(d) >= -1 then Weight(d) + 1 else 0;
    TrimZeros(ToGroups(AlignedMantissa(d)), keep)
  }

  lemma AlignedFits(d: Decimal)
    requires Representable(d)
    ensures AlignedMantissa(d) <= d.mantissa * 1000 < U128_MODULUS
    ensures |ToGroups(AlignedMantissa(d))| <= 8
    ensures |KeptGroups(d)| <= 8
  {
    assert Pow10(1) == 10 && Pow10(2) == 100 && Pow10(3) == 1000;
    var p := 4 * CeilDiv4(d.scale) - d.scale;
    assert 0 <= p <= 3;
    Pow10Of32();
    GroupCount(AlignedMantissa(d), 8);
  }

  /** The bytes of a decimal. */
  function Encoding(d: Decimal): seq<byte>
    requires Representable(d)
  {
    AlignedFits(d);
    if d.mantissa == 0 then [0, 0, 0, 0, 0, 0, 0, 0]
    else Payload(KeptGroups(d), Weight(d), if d.negative then NUMERIC_NEG else 0, d.scale)
  }

  // ---------------------------------------------------------------------------
  // Decoding
  // ---------------------------------------------------------------------------

  /** The first `n` digit groups after the eight header bytes. */
  function Digits(raw: seq<byte>, n: nat): (ds: seq<u16>)
    requires |raw| >= 8 + 2 * n
    ensures |ds| == n
  {
    seq(n, i requires 0 <= i < n => FromBE16([raw[8 + 2 * i], raw[9 + 2 * i]]))
  }

  /** The value before it is brought to the display scale. */
  function BeforeRescale(ds: seq<u16>, weight: int, sign: u16): Result<Decimal, Error> {
    var whole := WrappingFromGroups(ds);
    var adjust := weight - |ds| + 1;
    var negative := sign == NUMERIC_NEG;
    if whole == 0 then Ok(Decimal(negative, 0, 0))
    else if adjust > 0 && (Pow10(4 * adjust) >= U128_MODULUS || Shift(whole, 4 * adjust) > I128_MAX) then Err(TooLarge)
    else if adjust <= 0 && whole > I128_MAX then Err(TooLarge)
    else
      match TryFromI128WithScale(
        if adjust > 0 then Shift(whole, 4 * adjust) else whole,
        if adjust > 0 then 0 else 4 * -adjust)
      case Ok(d) => Ok(d.(negative := negative))
      case Err(e) => Err(e)
  }

  function Decoding(raw: seq<byte>, rescale: (Decimal, nat) -> Decimal): Result<Decimal, Error> {
    if |raw| < 8 then Err(TooShort) else
      var n := FromBE16(raw[0..2]);
      var sign := FromBE16(raw[4..6]);
      if sign >= 0xC000 then
        Err(if sign == NUMERIC_NAN then NotANumber
            else if sign == NUMERIC_PINF then PositiveInfinity
            else if sign == NUMERIC_NINF then NegativeInfinity
            else UnknownSpecial)
      else if |raw| < 8 + 2 * n then Err(Truncated)
      else
        match BeforeRescale(Digits(raw, n), Signed16(FromBE16(raw[2..4])), sign)
        case Ok(d) => Ok(rescale(d, FromBE16(raw[6..8])))
        case Err(e) => Err(e)
  }

  // ---------------------------------------------------------------------------
  // Round trip
  // ---------------------------------------------------------------------------

  lemma {:induction false} FlattenedGroupAt(ds: seq<u16>, i: nat)
    requires i < |ds|
    ensures [FlattenGroups(ds)[2 * i], FlattenGroups(ds)[2 * i + 1]] == BE16(ds[i])
  {
    if i < |ds| - 1 {
      FlattenedGroupAt(ds[..|ds| - 1], i);
    }
  }

  lemma DigitsOfFlattened(head: seq<byte>, ds: seq<u16>)
    requires |head| == 8
    ensures Digits(head + FlattenGroups(ds), |ds|) == ds
  {
    var flat := FlattenGroups(ds);
    forall i | 0 <= i < |ds| ensures Digits(head + flat, |ds|)[i] == ds[i] {
      FlattenedGroupAt(ds, i);
      DigitAt(head, flat, |ds|, i);
      RoundTrip16(ds[i]);
    }
  }

  lemma DigitAt(head: seq<byte>, flat: seq<byte>, n: nat, i: nat)
    requires |head| == 8 && |flat| == 2 * n && i < n
    ensures Digits(head + flat, n)[i] == FromBE16([flat[2 * i], flat[2 * i + 1]])
  {}

  lemma DecodingOfPayload(ds: seq<u16>, weight: int, negative: bool, dscale: u16, rescale: (Decimal, nat) -> Decimal)
    requires |ds| < 0x1_0000 && -0x8000 <= weight < 0x8000
    ensures var sign := if negative then NUMERIC_NEG else 0;
            Decoding(Payload(ds, weight, sign, dscale), rescale) ==
            match BeforeRescale(ds, weight, sign) {
              case Ok(d) => Ok(rescale(d, dscale))
              case Err(e) => Err(e)
            }
  {
    var sign: u16 := if negative then NUMERIC_NEG else 0;
    var head := BE16(|ds|) + BE16(Residue16(weight)) + BE16(sign) + BE16(dscale);
    var raw := Payload(ds, weight, sign, dscale);
    assert raw == head + FlattenGroups(ds);
    DigitsOfFlattened(head, ds);
    HeaderWords(BE16(|ds|), BE16(Residue16(weight)), BE16(sign), BE16(dscale), FlattenGroups(ds));
    RoundTrip16(|ds|);
    RoundTrip16(Residue16(weight));
    RoundTrip16(sign);
    RoundTrip16(dscale);
    RoundTripSigned16(weight);
  }

  lemma HeaderWords(a: seq<byte>, b: seq<byte>, c: seq<byte>, d: seq<byte>, rest: seq<byte>)
    requires |a| == |b| == |c| == |d| == 2
    ensures var raw := a + b + c + d + rest;
            raw[0..2] == a && raw[2..4] == b && raw[4..6] == c && raw[6..8] == d
  {}

  /** What the encoder writes for a nonzero number: `k` trailing zero groups dropped. */
  lemma KeptGroupsValue(d: Decimal) returns (k: nat)
    requires Representable(d) && d.mantissa > 0
    ensures k <= CeilDiv4(d.scale) && |KeptGroups(d)| == |ToGroups(AlignedMantissa(d))| - k > 0
    ensures FromGroups(KeptGroups(d)) == TrimmedMantissa(AlignedMantissa(d), CeilDiv4(d.scale))
    ensures AlignedMantissa(d) == Shift(FromGroups(KeptGroups(d)), 4 * k)
  {
    var m, c := AlignedMantissa(d), CeilDiv4(d.scale);
    assert m >= d.mantissa by { MulAtLeast(d.mantissa, Pow10(4 * c - d.scale)); }
    TrimmedGroups(ToGroups(m), if Weight(d) >= -1 then Weight(d) + 1 else 0, c);
    k := |ToGroups(m)| - |KeptGroups(d)|;
  }

  lemma MulAtLeast(x: nat, p: nat)
    requires p > 0
    ensures x * p >= x
  {}

  lemma TrimmedIsSameNumber(d: Decimal, t: nat, k: nat)
    requires k <= CeilDiv4(d.scale) && AlignedMantissa(d) == Shift(t, 4 * k)
    ensures SameNumber(Decimal(d.negative, t, 4 * (CeilDiv4(d.scale) - k)), d)
  {
    var c := CeilDiv4(d.scale);
    var a, b, s, q := Pow10(4 * k), Pow10(4 * (c - k)), Pow10(d.scale), Pow10(4 * c - d.scale);
    Pow10Add(4 * k, 4 * (c - k));
    Pow10Add(4 * c - d.scale, d.scale);
    assert t * a == d.mantissa * q && q * s == a * b;
    CancelFactor(t, d.mantissa, a, b, q, s);
  }

  lemma CancelFactor(t: nat, m: nat, a: nat, b: nat, q: nat, s: nat)
    requires a > 0 && t * a == m * q && q * s == a * b
    ensures t * s == m * b
  {
    calc {
      (t * s) * a;
      (t * a) * s;
      (m * q) * s;
      m * (q * s);
      m * (a * b);
      (m * b) * a;
    }
  }

  /**
   Decoding what was encoded gives the very same decimal exactly when the mantissa,
   aligned to four decimals and without its trailing zero fraction groups, is a 96-bit
   number; otherwise decoding fails, so it never gives another value.
   */
  lemma RoundTrip(d: Decimal, rescale: (Decimal, nat) -> Decimal)
    requires Representable(d) && d.mantissa > 0 && ExactRescale(rescale)
    ensures Decoding(Encoding(d), rescale) ==
            if TrimmedMantissa(AlignedMantissa(d), CeilDiv4(d.scale)) <= MAX_MANTISSA then Ok(d) else Err(LibraryRange)
  {
    EncodingParses(d, rescale);
    var t := KeptIsSameNumber(d);
    if t.mantissa <= MAX_MANTISSA {
      ApplyRescale(rescale, t, d);
    }
  }

  /** The kept groups decode, if at all, to another form `t` of the same number. */
  lemma KeptIsSameNumber(d: Decimal) returns (t: Decimal)
    requires Representable(d) && d.mantissa > 0
    ensures t.mantissa == TrimmedMantissa(AlignedMantissa(d), CeilDiv4(d.scale)) && t.scale <= MAX_SCALE
    ensures BeforeRescale(KeptGroups(d), Weight(d), if d.negative then NUMERIC_NEG else 0) ==
            if t.mantissa <= MAX_MANTISSA then Ok(t) else Err(LibraryRange)
    ensures SameNumber(t, d)
  {
    var k := KeptGroupsValue(d);
    t := Decimal(d.negative, FromGroups(KeptGroups(d)), 4 * (CeilDiv4(d.scale) - k));
    KeptForm(d, k, t);
    SameAsKept(d, t.mantissa, k, t);
  }

  lemma SameAsKept(d: Decimal, n: nat, k: nat, t: Decimal)
    requires k <= CeilDiv4(d.scale) && AlignedMantissa(d) == Shift(n, 4 * k)
    requires t == Decimal(d.negative, n, 4 * (CeilDiv4(d.scale) - k))
    ensures SameNumber(t, d)
  {
    TrimmedIsSameNumber(d, n, k);
  }

  lemma KeptForm(d: Decimal, k: nat, t: Decimal)
    requires Representable(d) && k <= CeilDiv4(d.scale) && |KeptGroups(d)| == |ToGroups(AlignedMantissa(d))| - k
    requires FromGroups(KeptGroups(d)) > 0 && AlignedMantissa(d) == Shift(FromGroups(KeptGroups(d)), 4 * k)
    requires t == Decimal(d.negative, FromGroups(KeptGroups(d)), 4 * (CeilDiv4(d.scale) - k))
    ensures BeforeRescale(KeptGroups(d), Weight(d), if d.negative then NUMERIC_NEG else 0) ==
            if t.mantissa <= MAX_MANTISSA then Ok(t) else Err(LibraryRange)
    ensures t.scale <= MAX_SCALE
  {
    KeptBeforeRescale(d, k);
  }

  lemma ApplyRescale(rescale: (Decimal, nat) -> Decimal, e: Decimal, d: Decimal)
    requires ExactRescale(rescale) && Representable(e) && Representable(d) && SameNumber(e, d)
    ensures rescale(e, d.scale) == d
  {}

  lemma EncodingParses(d: Decimal, rescale: (Decimal, nat) -> Decimal)
    requires Representable(d) && d.mantissa > 0
    ensures Decoding(Encoding(d), rescale) ==
            match BeforeRescale(KeptGroups(d), Weight(d), if d.negative then NUMERIC_NEG else 0) {
              case Ok(e) => Ok(rescale(e, d.scale))
              case Err(e) => Err(e)
            }
  {
    AlignedFits(d);
    DecodingOfPayload(KeptGroups(d), Weight(d), d.negative, d.scale, rescale);
  }

  lemma KeptFits(d: Decimal, k: nat)
    requires Representable(d) && AlignedMantissa(d) == Shift(FromGroups(KeptGroups(d)), 4 * k)
    ensures FromGroups(KeptGroups(d)) <= I128_MAX
  {
    AlignedFits(d);
    MulAtLeast(FromGroups(KeptGroups(d)), Pow10(4 * k));
  }

  lemma KeptBeforeRescale(d: Decimal, k: nat)
    requires Representable(d) && k <= CeilDiv4(d.scale) && |KeptGroups(d)| == |ToGroups(AlignedMantissa(d))| - k
    requires FromGroups(KeptGroups(d)) > 0 && AlignedMantissa(d) == Shift(FromGroups(KeptGroups(d)), 4 * k)
    ensures var t := FromGroups(KeptGroups(d));
            BeforeRescale(KeptGroups(d), Weight(d), if d.negative then NUMERIC_NEG else 0) ==
            if t <= MAX_MANTISSA then Ok(Decimal(d.negative, t, 4 * (CeilDiv4(d.scale) - k))) else Err(LibraryRange)
  {
    KeptFits(d, k);
    NoIntegerZeros(KeptGroups(d), Weight(d), d.negative, k - CeilDiv4(d.scale));
  }

  /** Without integer zero groups to restore, decoding only has to check the ranges. */
  lemma NoIntegerZeros(ds: seq<u16>, weight: int, negative: bool, adjust: int)
    requires weight - |ds| + 1 == adjust && -7 <= adjust <= 0
    requires 0 < FromGroups(ds) <= I128_MAX
    ensures BeforeRescale(ds, weight, if negative then NUMERIC_NEG else 0) ==
            if FromGroups(ds) <= MAX_MANTISSA then Ok(Decimal(negative, FromGroups(ds), 4 * -adjust)) else Err(LibraryRange)
  {
    WrappingIsResidue(ds);
  }

  /** Zero is written without its scale or sign, and comes back as plain zero. */
  lemma ZeroRoundTrip(d: Decimal, rescale: (Decimal, nat) -> Decimal)
    requires Representable(d) && d.mantissa == 0 && ExactRescale(rescale)
    ensures Decoding(Encoding(d), rescale) == Ok(Decimal(false, 0, 0))
    ensures Decoding(Encoding(d), rescale) == Ok(d) <==> !d.negative && d.scale == 0
  {
    var zero := Decimal(false, 0, 0);
    assert SameNumber(zero, zero);
  }

  // ---------------------------------------------------------------------------
  // Which payloads are accepted
  // ---------------------------------------------------------------------------

  /** The mantissa and the scale of the groups' sum: whole groups are multiplied in, fraction groups are not. */
  function WholeMantissa(n: nat, adjust: int): nat { Shift(n, 4 * if adjust > 0 then adjust else 0) }

  function FractionScale(adjust: int): nat { 4 * if adjust < 0 then -adjust else 0 }

  /** What a number of that mantissa and scale becomes: too large for 128 bits, not a decimal, or a decimal. */
  function Accepted(negative: bool, m: nat, scale: nat): Result<Decimal, Error> {
    if m == 0 then Ok(Decimal(negative, 0, 0))
    else if m > I128_MAX then Err(TooLarge)
    else if m > MAX_MANTISSA || scale > MAX_SCALE then Err(LibraryRange)
    else Ok(Decimal(negative, m, scale))
  }

  lemma PowerIsTooLarge(n: nat, p: nat)
    requires n > 0 && p >= U128_MODULUS
    ensures n * p > I128_MAX
  {
    MulAtLeast(p, n);
    assert n * p == p * n;
  }

  lemma ShiftByNothing(n: nat)
    ensures Shift(n, 0) == n
  {}

  lemma BeforeRescaleExactly(ds: seq<u16>, weight: int, sign: u16)
    ensures BeforeRescale(ds, weight, sign) ==
            Accepted(sign == NUMERIC_NEG, WholeMantissa(FromGroups(ds) % U128_MODULUS, weight - |ds| + 1),
                     FractionScale(weight - |ds| + 1))
  {
    var n, adjust := WrappingFromGroups(ds), weight - |ds| + 1;
    WrappingIsResidue(ds);
    if adjust > 0 {
      if n > 0 {
        MulAtLeast(n, Pow10(4 * adjust));
        if Pow10(4 * adjust) >= U128_MODULUS {
          PowerIsTooLarge(n, Pow10(4 * adjust));
        }
      }
    } else {
      ShiftByNothing(n);
    }
  }

  /** The words of a payload, whatever its length. */
  predicate HasGroups(raw: seq<byte>, n: nat, weight: int, sign: u16, dscale: u16, ds: seq<u16>) {
    && |raw| >= 8 + 2 * n && |ds| == n
    && FromBE16(raw[0..2]) == n && Signed16(FromBE16(raw[2..4])) == weight
    && FromBE16(raw[4..6]) == sign && FromBE16(raw[6..8]) == dscale
    && forall i :: 0 <= i < n ==> ds[i] == FromBE16([raw[8 + 2 * i], raw[9 + 2 * i]])
  }

  /**
   For every payload with all its groups and a plain sign: decoding gives the groups' sum, read
   modulo 2^128, with whole groups multiplied in and at the display scale, or the error that
   says why it is no decimal.
   */
  lemma DecodesExactly(raw: seq<byte>, n: nat, weight: int, sign: u16, dscale: u16, ds: seq<u16>,
                       rescale: (Decimal, nat) -> Decimal)
    requires HasGroups(raw, n, weight, sign, dscale, ds) && sign < 0xC000
    ensures Decoding(raw, rescale) ==
            match Accepted(sign == NUMERIC_NEG, WholeMantissa(FromGroups(ds) % U128_MODULUS, weight - n + 1), FractionScale(weight - n + 1)) {
              case Ok(d) => Ok(rescale(d, dscale))
              case Err(e) => Err(e)
            }
  {
    assert Digits(raw, n) == ds;
    BeforeRescaleExactly(ds, weight, sign);
  }

  lemma ScaledIsZeroExactly(n: nat, adjust: int)
    ensures WholeMantissa(n, adjust) == 0 <==> n == 0
  {
    if n > 0 {
      MulAtLeast(n, Pow10(4 * if adjust > 0 then adjust else 0));
    }
  }

  lemma AcceptedWhen(negative: bool, m: nat, scale: nat)
    ensures Accepted(negative, m, scale).Ok? <==> m == 0 || (m <= MAX_MANTISSA && scale <= MAX_SCALE)
  {}

  /** It is accepted if and only if the sum is zero, or a decimal holds its mantissa and scale. */
  lemma AcceptedExactly(raw: seq<byte>, n: nat, weight: int, sign: u16, dscale: u16, ds: seq<u16>,
                        rescale: (Decimal, nat) -> Decimal)
    requires HasGroups(raw, n, weight, sign, dscale, ds) && sign < 0xC000 && FromGroups(ds) < U128_MODULUS
    ensures var adjust := weight - n + 1;
            Decoding(raw, rescale).Ok? <==>
            FromGroups(ds) == 0 ||
            (WholeMantissa(FromGroups(ds), adjust) <= MAX_MANTISSA && FractionScale(adjust) <= MAX_SCALE)
  {
    var adjust := weight - n + 1;
    DecodesExactly(raw, n, weight, sign, dscale, ds, rescale);
    SmallResidue(FromGroups(ds));
    ScaledIsZeroExactly(FromGroups(ds), adjust);
    AcceptedWhen(sign == NUMERIC_NEG, WholeMantissa(FromGroups(ds), adjust), FractionScale(adjust));
  }

  /** A special value, a cut payload and a short header are errors, each its own. */
  lemma OtherPayloadsFail(raw: seq<byte>, rescale: (Decimal, nat) -> Decimal)
    ensures Decoding(raw, rescale) == Err(TooShort) <==> |raw| < 8
    ensures |raw| >= 8 ==> var sign := FromBE16(raw[4..6]);
              && (Decoding(raw, rescale) == Err(NotANumber) <==> sign == 0xC000)
              && (Decoding(raw, rescale) == Err(PositiveInfinity) <==> sign == 0xD000)
              && (Decoding(raw, rescale) == Err(NegativeInfinity) <==> sign == 0xF000)
              && (Decoding(raw, rescale) == Err(UnknownSpecial) <==> sign > 0xC000 && sign != 0xD000 && sign != 0xF000)
              && (Decoding(raw, rescale) == Err(Truncated) <==> sign < 0xC000 && |raw| < 8 + 2 * FromBE16(raw[0..2]))
  {}

  // the server's form

  /** The groups a server sends: no zero groups at the end, not even whole ones. */
  function ServerGroups(d: Decimal): seq<u16> { TrimZeros(KeptGroups(d), 0) }

  lemma {:induction false} TrimAllZeros(ds: seq<u16>)
    ensures FromGroups(ds) == Shift(FromGroups(TrimZeros(ds, 0)), 4 * (|ds| - |TrimZeros(ds, 0)|))
  {
    if ds != [] && ds[|ds| - 1] == 0 {
      var hi := ds[..|ds| - 1];
      TrimAllZeros(hi);
      ShiftStep(FromGroups(hi), FromGroups(TrimZeros(hi, 0)), |hi| - |TrimZeros(hi, 0)|);
    } else {
      ShiftByNothing(FromGroups(ds));
    }
  }

  /** Whole zero groups that are not sent are multiplied back in. */
  lemma RestoredGroups(kept: nat, sent: nat, j: nat, adjust: int)
    requires kept == Shift(sent, 4 * j) && adjust <= 0 && (j > 0 ==> adjust == 0)
    ensures WholeMantissa(sent, adjust + j) == WholeMantissa(kept, adjust)
    ensures FractionScale(adjust + j) == FractionScale(adjust)
  {
    ShiftByNothing(sent);
    ShiftByNothing(kept);
  }

  lemma {:induction false} TrimStopsAtNonzero(ds: seq<u16>, keep: nat)
    requires |TrimZeros(ds, keep)| > keep
    ensures TrimZeros(TrimZeros(ds, keep), 0) == TrimZeros(ds, keep)
  {
    if |ds| > keep && ds[|ds| - 1] == 0 {
      TrimStopsAtNonzero(ds[..|ds| - 1], keep);
    }
  }

  lemma {:induction false} TrimKeeps(ds: seq<u16>, keep: nat)
    requires |ds| >= keep
    ensures |TrimZeros(ds, keep)| >= keep
  {
    if |ds| > keep && ds[|ds| - 1] == 0 {
      TrimKeeps(ds[..|ds| - 1], keep);
    }
  }

  /** Groups are left out only when all whole groups are there but for zeros at the end. */
  lemma OnlyWholeGroupsAreLeftOut(d: Decimal)
    requires Representable(d) && d.mantissa > 0
    ensures |ServerGroups(d)| < |KeptGroups(d)| ==> |KeptGroups(d)| == Weight(d) + 1
  {
    var all := ToGroups(AlignedMantissa(d));
    var keep: nat := if Weight(d) >= -1 then Weight(d) + 1 else 0;
    TrimKeeps(all, keep);
    if |KeptGroups(d)| > keep {
      TrimStopsAtNonzero(all, keep);
    }
  }

  lemma SmallBeforeRescale(ds: seq<u16>, weight: int, sign: u16, x: nat, adjust: int)
    requires x == FromGroups(ds) < U128_MODULUS && adjust == weight - |ds| + 1
    ensures BeforeRescale(ds, weight, sign) == Accepted(sign == NUMERIC_NEG, WholeMantissa(x, adjust), FractionScale(adjust))
  {
    BeforeRescaleExactly(ds, weight, sign);
    SmallResidue(x);
  }

  lemma SmallResidue(x: nat)
    requires x < U128_MODULUS
    ensures x % U128_MODULUS == x
  {}

  lemma RestoredBeforeRescale(all: seq<u16>, sent: seq<u16>, j: nat, weight: int, sign: u16)
    requires |all| == |sent| + j && FromGroups(all) == Shift(FromGroups(sent), 4 * j) && FromGroups(all) <= I128_MAX
    requires weight - |all| + 1 <= 0 && (j > 0 ==> weight - |all| + 1 == 0)
    ensures BeforeRescale(sent, weight, sign) == BeforeRescale(all, weight, sign)
  {
    var x, y, adjust := FromGroups(all), FromGroups(sent), weight - |all| + 1;
    MulAtLeast(y, Pow10(4 * j));
    SmallBeforeRescale(all, weight, sign, x, adjust);
    SmallBeforeRescale(sent, weight, sign, y, adjust + j);
    RestoredGroups(x, y, j, adjust);
  }

  lemma ServerBeforeRescale(d: Decimal, sign: u16)
    requires Representable(d) && d.mantissa > 0
    ensures BeforeRescale(ServerGroups(d), Weight(d), sign) == BeforeRescale(KeptGroups(d), Weight(d), sign)
  {
    var k := KeptGroupsValue(d);
    KeptFits(d, k);
    TrimAllZeros(KeptGroups(d));
    OnlyWholeGroupsAreLeftOut(d);
    RestoredBeforeRescale(KeptGroups(d), ServerGroups(d), |KeptGroups(d)| - |ServerGroups(d)|, Weight(d), sign);
  }

  /** A decimal in the form a server sends it is read back under the same condition as in the encoder's form. */
  lemma ServerFormReadBack(d: Decimal, rescale: (Decimal, nat) -> Decimal)
    requires Representable(d) && d.mantissa > 0 && ExactRescale(rescale)
    ensures |ServerGroups(d)| <= 8
    ensures Decoding(Payload(ServerGroups(d), Weight(d), if d.negative then NUMERIC_NEG else 0, d.scale), rescale) ==
            if TrimmedMantissa(AlignedMantissa(d), CeilDiv4(d.scale)) <= MAX_MANTISSA then Ok(d) else Err(LibraryRange)
  {
    AlignedFits(d);
    ServerBeforeRescale(d, if d.negative then NUMERIC_NEG else 0);
    DecodingOfPayload(ServerGroups(d), Weight(d), d.negative, d.scale, rescale);
    EncodingParses(d, rescale);
    RoundTrip(d, rescale);
  }

  lemma {:induction false} TrimmedIsLess(m: nat, limit: nat)
    ensures TrimmedMantissa(m, limit) <= m
    decreases limit
  {
    if limit > 0 && m % 10000 == 0 {
      TrimmedIsLess(m / 10000, limit - 1);
    }
  }

  lemma AlignedIsSmall(d: Decimal)
    requires Representable(d) && d.scale % 4 == 0
    ensures TrimmedMantissa(AlignedMantissa(d), CeilDiv4(d.scale)) <= MAX_MANTISSA
  {
    assert 4 * CeilDiv4(d.scale) - d.scale == 0;
    ShiftByNothing(d.mantissa);
    TrimmedIsLess(AlignedMantissa(d), CeilDiv4(d.scale));
  }

  /** In particular every decimal whose scale is a multiple of four, whole numbers among them. */
  lemma AlignedIsReadBack(d: Decimal, rescale: (Decimal, nat) -> Decimal)
    requires Representable(d) && d.mantissa > 0 && d.scale % 4 == 0 && ExactRescale(rescale)
    ensures |ServerGroups(d)| <= 8 && Decoding(Encoding(d), rescale) == Ok(d)
    ensures Decoding(Payload(ServerGroups(d), Weight(d), if d.negative then NUMERIC_NEG else 0, d.scale), rescale) == Ok(d)
  {
    RoundTrip(d, rescale);
    ServerFormReadBack(d, rescale);
    AlignedIsSmall(d);
  }

  // ---------------------------------------------------------------------------
  // What a decoded value denotes
  // ---------------------------------------------------------------------------

  /** 10000 to an integer power. */
  ghost function Pow10000(e: int): (r: real)
    ensures r > 0.0
    decreases if e < 0 then -e else e
  {
    if e == 0 then 1.0
    else if e > 0 then 10000.0 * Pow10000(e - 1)
    else Pow10000(e + 1) / 10000.0
  }

  /** The sum of `ds[i] * 10000^(weight - i)`. */
  ghost function GroupSum(ds: seq<u16>, weight: int): real {
    if ds == [] then 0.0
    else GroupSum(ds[..|ds| - 1], weight) + ds[|ds| - 1] as real * Pow10000(weight - (|ds| - 1))
  }

  ghost function Magnitude(d: Decimal): real {
    d.mantissa as real / Pow10(d.scale) as real
  }

  ghost function Signed(negative: bool, x: real): real {
    if negative then -x else x
  }

  ghost function Value(d: Decimal): real {
    Signed(d.negative, Magnitude(d))
  }

  ghost function Scaled(n: nat, e: int): real {
    n as real * Pow10000(e)
  }

  lemma Pow10000Step(e: int)
    ensures Pow10000(e + 1) == 10000.0 * Pow10000(e)
  {}

  lemma AppendScaled(hi: nat, last: nat, p: real)
    ensures hi as real * (10000.0 * p) + last as real * p == (hi * 10000 + last) as real * p
  {
    assert (hi * 10000 + last) as real == hi as real * 10000.0 + last as real;
  }

  lemma {:induction false} GroupSumIsScaled(ds: seq<u16>, weight: int)
    ensures GroupSum(ds, weight) == Scaled(FromGroups(ds), weight - |ds| + 1)
  {
    if ds == [] {
    } else {
      var hi, last := ds[..|ds| - 1], ds[|ds| - 1];
      var p := Pow10000(weight - |ds| + 1);
      GroupSumIsScaled(hi, weight);
      Pow10000Step(weight - |ds| + 1);
      AppendScaled(FromGroups(hi), last, p);
    }
  }

  lemma InverseStep(p: nat)
    requires p > 0
    ensures 1.0 / p as real / 10000.0 == 1.0 / (10000 * p) as real
  {
    var x := 1.0 / p as real / 10000.0;
    assert x * (10000 * p) as real == 1.0;
  }

  lemma {:induction false} Pow10000OfNat(n: nat)
    ensures Pow10(4 * n) as real == Pow10000(n)
    ensures Pow10000(0 - n) == 1.0 / Pow10(4 * n) as real
  {
    if n == 0 {
    } else {
      Pow10000OfNat(n - 1);
      Pow10Group(4 * (n - 1));
      assert 0 - n + 1 == 0 - (n - 1);
      InverseStep(Pow10(4 * (n - 1)));
    }
  }

  /**
   For every payload whatsoever, with any number of groups of any size: an accepted value
   is the signed sum of its groups exactly when the accumulation did not leave 128 bits.
   */
  lemma DecodedValue(ds: seq<u16>, weight: int, sign: u16)
    requires BeforeRescale(ds, weight, sign).Ok?
    ensures Value(BeforeRescale(ds, weight, sign).value) == Signed(sign == NUMERIC_NEG, GroupSum(ds, weight))
            <==> FromGroups(ds) < U128_MODULUS
  {
    WrappingIsResidue(ds);
    GroupSumIsScaled(ds, weight);
    MagnitudeBeforeRescale(ds, weight, sign);
    ResidueIsExact(BeforeRescale(ds, weight, sign).value, WrappingFromGroups(ds), FromGroups(ds), weight - |ds| + 1);
  }

  lemma ResidueIsExact(d: Decimal, whole: nat, exact: nat, e: int)
    requires whole == exact % U128_MODULUS && Magnitude(d) == Scaled(whole, e)
    ensures Value(d) == Signed(d.negative, Scaled(exact, e)) <==> exact < U128_MODULUS
  {
    ScalingIsInjective(whole, exact, e);
  }

  /** All three cases of the exponent scale the accumulated integer by the same power. */
  lemma MagnitudeBeforeRescale(ds: seq<u16>, weight: int, sign: u16)
    requires BeforeRescale(ds, weight, sign).Ok?
    ensures var d := BeforeRescale(ds, weight, sign).value;
            && (d.negative <==> sign == NUMERIC_NEG)
            && Magnitude(d) == Scaled(WrappingFromGroups(ds), weight - |ds| + 1)
  {
    var adjust, whole := weight - |ds| + 1, WrappingFromGroups(ds);
    if adjust > 0 {
      ScaledUp(whole, adjust);
    } else {
      ScaledDown(whole, -adjust);
    }
  }

  lemma ScaledUp(x: nat, n: nat)
    ensures Magnitude(Decimal(false, Shift(x, 4 * n), 0)) == Scaled(x, n)
  {
    Pow10000OfNat(n);
    var p := Pow10(4 * n);
    assert (x * p) as real == x as real * p as real;
  }

  lemma ScaledDown(x: nat, n: nat)
    ensures Magnitude(Decimal(false, x, 4 * n)) == Scaled(x, 0 - n)
  {
    Pow10000OfNat(n);
    DivAsMul(x, Pow10(4 * n));
  }

  lemma DivAsMul(x: nat, p: nat)
    requires p > 0
    ensures x as real / p as real == x as real * (1.0 / p as real)
  {}

  lemma ScalingIsInjective(x: nat, y: nat, e: int)
    ensures Scaled(x, e) == Scaled(y, e) <==> x == y
  {
    var p := Pow10000(e);
    if x < y {
      assert (y - x) as real * p > 0.0;
    } else if y < x {
      assert (x - y) as real * p > 0.0;
    }
  }

  /** Nine well-formed groups always stay inside 128 bits. */
  lemma NineGroupsFit(ds: seq<u16>)
    requires |ds| <= 9 && forall i :: 0 <= i < |ds| ==> ds[i] <= 9999
    ensures FromGroups(ds) < U128_MODULUS
  {
    GroupsBelowPower(ds);
    Pow10Monotone(4 * |ds|, 36);
    Pow10Of36();
  }

  lemma Pow10Of8()
    ensures Pow10(8) == 1_0000_0000
  {
    Pow10Group(4);
    Pow10Group(0);
  }

  lemma Pow10Of16()
    ensures Pow10(16) == 1_0000_0000_0000_0000
  {
    Pow10Of8();
    Pow10Add(8, 8);
  }

  lemma Pow10Of32()
    ensures Pow10(32) == 1_0000_0000_0000_0000_0000_0000_0000_0000
  {
    Pow10Of16();
    Pow10Add(16, 16);
  }

  lemma Pow10Of36()
    ensures Pow10(36) == 1_0000_0000_0000_0000_0000_0000_0000_0000_0000
  {
    Pow10Of32();
    Pow10Group(32);
  }

  /** So a payload of at most nine well-formed groups that is accepted denotes its groups' sum. */
  lemma DecodedValueOfNineGroups(ds: seq<u16>, weight: int, sign: u16)
    requires |ds| <= 9 && forall i :: 0 <= i < |ds| ==> ds[i] <= 9999
    requires BeforeRescale(ds, weight, sign).Ok?
    ensures Value(BeforeRescale(ds, weight, sign).value) == Signed(sign == NUMERIC_NEG, GroupSum(ds, weight))
    ensures forall n :: 0 <= n <= |ds| ==> FromGroups(ds[..n]) < U128_MODULUS
  {
    NineGroupsFit(ds);
    DecodedValue(ds, weight, sign);
    forall n | 0 <= n <= |ds| ensures FromGroups(ds[..n]) < U128_MODULUS {
      NineGroupsFit(ds[..n]);
    }
  }

  /** Independently of any decoder: the groups written for `d` sum up to its magnitude. */
  lemma EncodedValue(d: Decimal)
    requires Representable(d) && d.mantissa > 0
    ensures GroupSum(KeptGroups(d), Weight(d)) == Magnitude(d)
    ensures forall i :: 0 <= i < |KeptGroups(d)| ==> KeptGroups(d)[i] <= 9999
  {
    var k := KeptGroupsValue(d);
    var t := Decimal(d.negative, FromGroups(KeptGroups(d)), 4 * (CeilDiv4(d.scale) - k));
    KeptGroupSum(d, k, t);
    TrimmedIsSameNumber(d, t.mantissa, k);
    SameMagnitude(t, d);
  }

  lemma KeptGroupSum(d: Decimal, k: nat, t: Decimal)
    requires k <= CeilDiv4(d.scale) && |KeptGroups(d)| == |ToGroups(AlignedMantissa(d))| - k
    requires t == Decimal(d.negative, FromGroups(KeptGroups(d)), 4 * (CeilDiv4(d.scale) - k))
    ensures GroupSum(KeptGroups(d), Weight(d)) == Magnitude(t)
    ensures forall i :: 0 <= i < |KeptGroups(d)| ==> KeptGroups(d)[i] <= 9999
  {
    GroupSumIsScaled(KeptGroups(d), Weight(d));
    ScaledDown(t.mantissa, CeilDiv4(d.scale) - k);
  }

  lemma SameMagnitude(d: Decimal, e: Decimal)
    requires SameNumber(d, e)
    ensures Magnitude(d) == Magnitude(e)
  {
    CrossMultiply(d.mantissa, Pow10(d.scale), e.mantissa, Pow10(e.scale));
  }

  lemma CrossMultiply(x: nat, p: nat, y: nat, q: nat)
    requires p > 0 && q > 0 && x * q == y * p
    ensures x as real / p as real == y as real / q as real
  {
    var u, v := x as real / p as real, y as real / q as real;
    assert u * p as real == x as real && v * q as real == y as real;
    assert (x * q) as real == x as real * q as real && (y * p) as real == y as real * p as real;
    CancelReal(u, v, p as real, q as real);
  }

  lemma CancelReal(u: real, v: real, p: real, q: real)
    requires p > 0.0 && q > 0.0 && u * p * q == v * q * p
    ensures u == v
  {
    var c := p * q;
    assert (u - v) * c == 0.0;
  }

  lemma {:induction false} GroupsBelowPower(ds: seq<u16>)
    requires forall i :: 0 <= i < |ds| ==> ds[i] <= 9999
    ensures FromGroups(ds) < Pow10(4 * |ds|)
  {
    if ds == [] {
    } else {
      GroupsBelowPower(ds[..|ds| - 1]);
      Pow10Group(4 * |ds| - 4);
    }
  }

  lemma {:induction false} Pow10Monotone(a: nat, b: nat)
    requires a <= b
    ensures Pow10(a) <= Pow10(b)
  {
    if a < b {
      Pow10Monotone(a, b - 1);
    }
  }

  /** The limit is sharp: ten well-formed groups can wrap, and this payload for 2^128 + 5 decodes to 5. */
  lemma TenGroupsCanWrap(rescale: (Decimal, nat) -> Decimal) returns (ds: seq<u16>, raw: seq<byte>)
    requires ExactRescale(rescale)
    ensures |ds| == 10 && forall i :: 0 <= i < |ds| ==> ds[i] <= 9999
    ensures FromGroups(ds) == U128_MODULUS + 5
    ensures |raw| == 28 && raw == Payload(ds, 9, 0, 0)
    ensures Decoding(raw, rescale) == Ok(Decimal(false, 5, 0))
  {
    ds := TenGroups();
    raw := Payload(ds, 9, 0, 0);
    DecodingOfPayload(ds, 9, false, 0, rescale);
    ApplyRescale(rescale, Decimal(false, 5, 0), Decimal(false, 5, 0));
  }

  /** The groups of 2^128 + 5. */
  lemma TenGroups() returns (ds: seq<u16>)
    ensures |ds| == 10 && forall i :: 0 <= i < |ds| ==> ds[i] <= 9999
    ensures FromGroups(ds) == U128_MODULUS + 5
    ensures BeforeRescale(ds, 9, 0) == Ok(Decimal(false, 5, 0))
  {
    ds := ToGroups(U128_MODULUS + 5);
    TenGroupsHold(U128_MODULUS + 5);
    if |ds| <= 9 {
      NineGroupsFit(ds);
      assert false;
    }
    WrappingIsResidue(ds);
  }

  lemma TenGroupsHold(m: nat)
    requires m <= 2 * U128_MODULUS
    ensures |ToGroups(m)| <= 10
  {
    Pow10Of36();
    Pow10Group(36);
    GroupCount(m, 10);
  }

  // ---------------------------------------------------------------------------
  // The loops of the codec
  // ---------------------------------------------------------------------------

  function Reversed(s: seq<u16>): (r: seq<u16>)
    ensures |r| == |s|
  {
    if s == [] then [] else [s[|s| - 1]] + Reversed(s[..|s| - 1])
  }

  lemma ReversedPush(s: seq<u16>, x: u16)
    ensures Reversed(s + [x]) == [x] + Reversed(s)
  {
    assert (s + [x])[..|s|] == s;
  }

  lemma ToGroupsStep(m: nat)
    requires m > 0
    ensures ToGroups(m) == ToGroups(m / 10000) + [m % 10000]
  {}

  lemma DigitMoves(aligned: nat, m: nat, q: nat, digit: u16, digits: seq<u16>)
    requires m > 0 && q == m / 10000 && digit == m % 10000
    requires ToGroups(aligned) == ToGroups(m) + Reversed(digits)
    ensures ToGroups(aligned) == ToGroups(q) + Reversed(digits + [digit]) && q < m
  {
    ToGroupsStep(m);
    ReversedPush(digits, digit);
    AppendAssoc(ToGroups(q), [digit], Reversed(digits));
  }

  /** Appends the encoding of `d`; the checked multiplication cannot overflow. */
  method ToSql(d: Decimal, w: BytesMut) returns (r: Result<IsNull, Error>)
    requires Representable(d)
    modifies w
    ensures r == Ok(No)
    ensures w.bytes == old(w.bytes) + Encoding(d)
  {
    AlignedFits(d);
    if d.mantissa == 0 {
      w.Extend([0, 0, 0, 0, 0, 0, 0, 0]);
      return Ok(No);
    }
    var digits, weight := KeptDigits(d);
    WriteGroups(digits, weight, if d.negative then NUMERIC_NEG else 0, d.scale, w);
    return Ok(No);
  }

  /** The groups to write: no trailing zero groups after the decimal point. */
  method KeptDigits(d: Decimal) returns (digits: seq<u16>, weight: int)
    requires Representable(d)
    ensures digits == KeptGroups(d) && weight == Weight(d)
  {
    var aligned := AlignMantissa(d);
    digits := GroupsMsbFirst(aligned);
    weight := |digits| - CeilDiv4(d.scale) - 1;
    var integerGroups := if weight >= -1 then weight + 1 else 0;
    digits := PopTrailingZeros(digits, integerGroups);
  }

  lemma AlignExponent(scale: nat)
    ensures 4 * CeilDiv4(scale) - scale == if scale % 4 == 0 then 0 else 4 - scale % 4
  {}

  method AlignMantissa(d: Decimal) returns (aligned: nat)
    requires Representable(d)
    ensures aligned == AlignedMantissa(d)
  {
    AlignedFits(d);
    AlignExponent(d.scale);
    var align := d.scale % 4;
    aligned := if align == 0 then d.mantissa else Shift(d.mantissa, 4 - align);
    if aligned >= U128_MODULUS {
      assert false;
    }
  }

  method GroupsMsbFirst(aligned: nat) returns (digits: seq<u16>)
    ensures digits == ToGroups(aligned)
  {
    digits := [];
    var m := aligned;
    while m > 0
      invariant ToGroups(aligned) == ToGroups(m) + Reversed(digits)
    {
      var q, digit: u16 := m / 10000, m % 10000;
      DigitMoves(aligned, m, q, digit, digits);
      digits := digits + [digit];
      m := q;
    }
    digits := Reversed(digits);
  }

  method PopTrailingZeros(ds: seq<u16>, keep: nat) returns (digits: seq<u16>)
    ensures digits == TrimZeros(ds, keep)
  {
    digits := ds;
    while |digits| > keep && digits[|digits| - 1] == 0
      invariant TrimZeros(digits, keep) == TrimZeros(ds, keep)
    {
      digits := digits[..|digits| - 1];
    }
  }

  method WriteGroups(digits: seq<u16>, weight: int, sign: u16, dscale: u16, w: BytesMut)
    requires |digits| < 0x1_0000
    modifies w
    ensures w.bytes == old(w.bytes) + Payload(digits, weight, sign, dscale)
  {
    w.Extend(BE16(|digits|));
    w.Extend(BE16(Residue16(weight)));
    w.Extend(BE16(sign));
    w.Extend(BE16(dscale));
    ghost var head := BE16(|digits|) + BE16(Residue16(weight)) + BE16(sign) + BE16(dscale);
    for i := 0 to |digits|
      invariant w.bytes == old(w.bytes) + head + FlattenGroups(digits[..i])
    {
      assert digits[..i + 1][..i] == digits[..i];
      w.Extend(BE16(digits[i]));
    }
    assert digits[..|digits|] == digits;
  }

  method FromSql(raw: seq<byte>, rescale: (Decimal, nat) -> Decimal) returns (r: Result<Decimal, Error>)
    ensures r == Decoding(raw, rescale)
  {
    if |raw| < 8 {
      return Err(TooShort);
    }
    var numGroups: nat := FromBE16(raw[0..2]);
    var weight := Signed16(FromBE16(raw[2..4]));
    var sign := FromBE16(raw[4..6]);
    var dscale := FromBE16(raw[6..8]);
    if sign >= 0xC000 {
      if sign == NUMERIC_NAN {
        return Err(NotANumber);
      } else if sign == NUMERIC_PINF {
        return Err(PositiveInfinity);
      } else if sign == NUMERIC_NINF {
        return Err(NegativeInfinity);
      }
      return Err(UnknownSpecial);
    }
    if |raw| < 8 + numGroups * 2 {
      return Err(Truncated);
    }
    var digits := ReadGroups(raw, numGroups);
    var whole := Accumulate(digits);
    if whole == 0 {
      return Ok(rescale(Decimal(sign == NUMERIC_NEG, 0, 0), dscale));
    }
    var adjust := weight - numGroups + 1;
    var mantissa, scale := whole, 0;
    if adjust > 0 {
      if Pow10(4 * adjust) >= U128_MODULUS {
        return Err(TooLarge);
      }
      mantissa := Shift(whole, 4 * adjust);
    } else if adjust < 0 {
      scale := 4 * -adjust;
    }
    if mantissa > I128_MAX {
      return Err(TooLarge);
    }
    match TryFromI128WithScale(mantissa, scale)
    case Err(e) => return Err(e);
    case Ok(d) =>
      var value := d;
      if sign == NUMERIC_NEG {
        value := value.(negative := true);
      }
      return Ok(rescale(value, dscale));
  }

  method ReadGroups(raw: seq<byte>, n: nat) returns (digits: seq<u16>)
    requires |raw| >= 8 + 2 * n
    ensures digits == Digits(raw, n)
  {
    digits := [];
    for i := 0 to n
      invariant digits == Digits(raw, i)
    {
      digits := digits + [FromBE16([raw[8 + 2 * i], raw[9 + 2 * i]])];
    }
  }

  method Accumulate(digits: seq<u16>) returns (whole: nat)
    ensures whole == WrappingFromGroups(digits)
  {
    whole := 0;
    for i := 0 to |digits|
      invariant whole == WrappingFromGroups(digits[..i])
    {
      assert digits[..i + 1][..i] == digits[..i];
      whole := (whole * 10000 + digits[i] as int) % U128_MODULUS;
    }
    assert digits[..|digits|] == digits;
  }
}
