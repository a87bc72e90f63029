/**
 How a requested sample rate becomes a programmed one: clamped to the platform's limits, rounded up
 to a rate the chip has, and turned into register contents.

 Rates are real numbers; the casts of the code are written out as `Floor`.
 */
module SensorRate {

  /** The rates of the chip, SENSOR_HZ(25/32) to SENSOR_HZ(3200). The macro truncates. */
  const TABLE: seq<nat> := [0, 1, 3, 6, 12, 25, 50, 100, 200, 400, 800, 1600, 3200]

  /** The limits read from the registry. */
  datatype Limits = Limits(minOdr: int, maxOdr: int) {
    // a negative upper limit would make the cast to uint32_t undefined
    predicate Valid() { 0 <= maxOdr < 0x8000_0000 && minOdr < 0x8000_0000 }
  }

  function Max(a: real, b: real): (m: real)
    ensures m >= a && m >= b && (m == a || m == b)
  {
    if a > b then a else b
  }

  function Min(a: real, b: real): (m: real)
    ensures m <= a && m <= b && (m == a || m == b)
  {
    if a < b then a else b
  }

  function Clamp(rate: real, l: Limits): real {
    if rate > 0.0 then Min(Max(rate, l.minOdr as real), l.maxOdr as real) else 0.0
  }

  /** The least rate of the chip that is not below `rate`, or the greatest there is. */
  ghost predicate IsRounded(rate: nat, r: nat) {
    && r in TABLE
    && (rate <= 3200 ==> rate <= r && forall t :: t in TABLE && rate <= t ==> r <= t)
    && (rate > 3200 ==> r == 3200)
  }

  function RoundUp(rate: nat): (r: nat)
    ensures IsRounded(rate, r)
  {
    FirstAtLeast(rate, 0)
  }

  /** The first table entry from index `i` on that is not below `rate`. */
  function FirstAtLeast(rate: nat, i: nat): (r: nat)
    requires i < |TABLE|
    requires forall k :: 0 <= k < i ==> TABLE[k] < rate
    ensures IsRounded(rate, r)
    decreases |TABLE| - i
  {
    if rate <= TABLE[i] || i == |TABLE| - 1 then TABLE[i] else FirstAtLeast(rate, i + 1)
  }

  function Settle(rate: real, l: Limits): (r: nat)
    requires l.Valid()
  {
    RoundUp(Clamp(rate, l).Floor)
  }

  /** The ODR code of a table rate: its position, counted from 1. */
  function OdrCode(rate: nat): (odr: bv8)
    ensures odr <= 0x0f
  {
    match rate
    case 0 => 1 case 1 => 2 case 3 => 3 case 6 => 4 case 12 => 5 case 25 => 6 case 50 => 7
    case 100 => 8 case 200 => 9 case 400 => 10 case 800 => 11 case 1600 => 12 case 3200 => 13
    case _ => 0
  }

  lemma CodeIsPosition(rate: nat)
    requires rate in TABLE
    ensures 0 < OdrCode(rate) as nat <= |TABLE| && TABLE[OdrCode(rate) as nat - 1] == rate
  {
  }

  // demo_compute_odr
  method ComputeOdr(sampleRate: real) returns (newRate: real, odr: bv8)
    requires 0.0 <= sampleRate
    ensures newRate == RoundUp(sampleRate.Floor) as real
    ensures odr == OdrCode(RoundUp(sampleRate.Floor))
  {
    var rate := sampleRate.Floor;
    if rate > 1600 { rate := 3200; }
    else if rate > 800 { rate := 1600; }
    else if rate > 400 { rate := 800; }
    else if rate > 200 { rate := 400; }
    else if rate > 100 { rate := 200; }
    else if rate > 50 { rate := 100; }
    else if rate > 25 { rate := 50; }
    else if rate > 12 { rate := 25; }
    else if rate > 6 { rate := 12; }
    else if rate > 3 { rate := 6; }
    else if rate > 1 { rate := 3; }
    else if rate > 0 { rate := 1; }
    else { rate := 0; }
    newRate := rate as real;
    // the switch falls through, so that each case adds one
    odr := 0;
    var from := rate;
    if from == 3200 { odr := odr + 1; from := 1600; }
    if from == 1600 { odr := odr + 1; from := 800; }
    if from == 800 { odr := odr + 1; from := 400; }
    if from == 400 { odr := odr + 1; from := 200; }
    if from == 200 { odr := odr + 1; from := 100; }
    if from == 100 { odr := odr + 1; from := 50; }
    if from == 50 { odr := odr + 1; from := 25; }
    if from == 25 { odr := odr + 1; from := 12; }
    if from == 12 { odr := odr + 1; from := 6; }
    if from == 6 { odr := odr + 1; from := 3; }
    if from == 3 { odr := odr + 1; from := 1; }
    if from == 1 { odr := odr + 1; from := 0; }
    if from == 0 { odr := odr + 1; }
  }

  /** Where a clamped rate lies, for every pair of limits. */
  lemma ClampBounds(rate: real, l: Limits)
    requires l.Valid()
    ensures rate <= 0.0 ==> Clamp(rate, l) == 0.0
    ensures rate > 0.0 && l.minOdr <= l.maxOdr ==>
              && l.minOdr as real <= Clamp(rate, l) <= l.maxOdr as real
              && (l.minOdr as real <= rate <= l.maxOdr as real ==> Clamp(rate, l) == rate)
              && (rate < l.minOdr as real ==> Clamp(rate, l) == l.minOdr as real)
              && (rate > l.maxOdr as real ==> Clamp(rate, l) == l.maxOdr as real)
    ensures rate > 0.0 && l.minOdr > l.maxOdr ==> Clamp(rate, l) == l.maxOdr as real
  {
  }

  /** The least rate of the chip that is not below the upper limit is never exceeded, the lower limit is kept. */
  lemma SettleBounds(rate: real, l: Limits)
    requires l.Valid()
    ensures Settle(rate, l) <= RoundUp(l.maxOdr)
    ensures rate > 0.0 && l.minOdr <= l.maxOdr && l.minOdr <= 3200 ==> l.minOdr <= Settle(rate, l)
  {
    ClampBounds(rate, l);
    RoundUpIsMonotone(Clamp(rate, l).Floor, l.maxOdr);
  }

  lemma RoundUpIsMonotone(a: nat, b: nat)
    requires a <= b
    ensures RoundUp(a) <= RoundUp(b)
  {
    assert IsRounded(a, RoundUp(a)) && IsRounded(b, RoundUp(b));
  }

  /** Reconfiguring an already programmed rate does not move it, for all limits. */
  lemma SettleIsIdempotent(rate: real, l: Limits)
    requires l.Valid()
    ensures Settle(Settle(rate, l) as real, l) == Settle(rate, l)
  {
  }

  lemma SettleIsMonotone(x: real, y: real, l: Limits)
    requires l.Valid() && x <= y
    ensures Settle(x, l) <= Settle(y, l)
  {
  }
}
