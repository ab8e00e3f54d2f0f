/**
 Unit conversion and decimal rounding, on exact reals in place of f64, and the memory figures
 built from them.
 */
module Units {

  const U64_MAX: nat := 0xFFFF_FFFF_FFFF_FFFF
  const GIB: nat := 0x4000_0000
  const HALF: nat := 0x2000_0000
  const BYTES_CEILING: nat := 0x200_0000_0000

  function Min(a: nat, b: nat): nat {
    if a <= b then a else b
  }

  function SaturatingAdd(a: nat, b: nat): nat {
    Min(a + b, U64_MAX)
  }

  function SaturatingSub(a: nat, b: nat): nat {
    if a >= b then a - b else 0
  }

  /** `f64::round`: to the nearest integer, halves away from zero. */
  function Round(x: real): int {
    if x >= 0.0 then (x + 0.5).Floor else -(0.5 - x).Floor
  }

  function Round1(x: real): real {
    Round(x * 10.0) as real / 10.0
  }

  function Round2(x: real): real {
    Round(x * 100.0) as real / 100.0
  }

  /** `x as u64`: truncating, and saturating at both ends. */
  function ToU64(x: real): nat {
    if x <= 0.0 then 0 else Min(x.Floor, U64_MAX)
  }

  function BytesToGib(x: nat): real {
    Round2(x as real / 1073741824.0)
  }

  function GibToBytes(value: real): nat {
    Min(ToU64(value * 1073741824.0), BYTES_CEILING)
  }

  lemma RoundNearest(x: real, y: real)
    ensures -0.5 <= Round(x) as real - x <= 0.5
    ensures x <= y ==> Round(x) <= Round(y)
    ensures x >= 0.0 ==> Round(x) >= 0
  {
  }

  lemma Round2Nearest(x: real, y: real)
    ensures -0.005 <= Round2(x) - x <= 0.005
    ensures x <= y ==> Round2(x) <= Round2(y)
    ensures x >= 0.0 ==> Round2(x) >= 0.0
  {
    RoundNearest(x * 100.0, y * 100.0);
  }

  /** The rounded figure is a whole number of units, and a half goes away from zero. */
  lemma RoundHalfAway(n: int)
    requires n >= 0
    ensures Round(n as real) == n && Round(0.0 - n as real) == -n
    ensures Round(n as real + 0.5) == n + 1 && Round(0.0 - n as real - 0.5) == -n - 1
  {
  }

  lemma Round1Nearest(x: real)
    ensures -0.05 <= Round1(x) - x <= 0.05
    ensures Round1(x) * 10.0 == (Round1(x) * 10.0).Floor as real
  {
    RoundNearest(x * 10.0, x * 10.0);
  }

  lemma Round2Hundredths(x: real)
    ensures Round2(x) * 100.0 == (Round2(x) * 100.0).Floor as real
  {
  }

  /** Whole bytes, never more than the figure, never past 2^41, never below zero. */
  lemma GibToBytesFloors(value: real)
    ensures var raw, b := value * 1073741824.0, GibToBytes(value);
            if raw <= 0.0 then b == 0
            else if raw >= 2199023255552.0 then b == 2199023255552
            else b as real <= raw < b as real + 1.0
  {
  }

  /** Through GiB and back: off by at most half a hundredth of a GiB, and cut at the ceiling. */
  lemma BytesThroughGib(x: nat)
    ensures -5368710 <= GibToBytes(BytesToGib(x)) - Min(x, BYTES_CEILING) <= 5368710
  {
    var v := x as real / 1073741824.0;
    Round2Nearest(v, v);
    var back := BytesToGib(x) * 1073741824.0;
    assert x as real - 5368709.12 <= back <= x as real + 5368709.12;
    assert back >= 0.0;
  }

  /** A two-decimal figure up to the ceiling survives being sent as bytes. */
  lemma GibThroughBytes(hundredths: nat)
    requires hundredths <= 204800
    ensures BytesToGib(GibToBytes(hundredths as real / 100.0)) == hundredths as real / 100.0
  {
    var raw := hundredths as real / 100.0 * 1073741824.0;
    var b := GibToBytes(hundredths as real / 100.0);
    assert raw - 1.0 < b as real <= raw;
    var scaled := b as real / 1073741824.0 * 100.0;
    assert hundredths as real - 0.5 < scaled <= hundredths as real;
    assert Round(scaled) == hundredths;
  }

  datatype Mem = Mem(total: real, used: real, free: real, percent: real)

  function CollectMem(total: nat, available: nat): Mem {
    var used := SaturatingSub(total, available);
    Mem(BytesToGib(total), BytesToGib(used), BytesToGib(available),
        if total > 0 then Round1(used as real / total as real * 100.0) else 0.0)
  }

  /** The part of `x` below a hundredth of a GiB, in units of 2^30 to the hundredth. */
  function Part(x: nat): (p: nat)
    ensures p < GIB
  {
    100 * x % GIB
  }

  function UpBy(part: nat): nat {
    if part >= HALF then 1 else 0
  }

  lemma RoundedGib(x: nat)
    ensures BytesToGib(x) == (100 * x / GIB + UpBy(Part(x))) as real / 100.0
  {
    var q, p := 100 * x / GIB, Part(x);
    assert 100 * x == q * GIB + p;
    assert x as real / 1073741824.0 * 100.0 == q as real + p as real / 1073741824.0;
    assert Round(x as real / 1073741824.0 * 100.0) == q + UpBy(p);
  }

  /** Neither both parts round down and their sum up, nor both up and their sum down. */
  predicate PartsAgree(p: nat, q: nat) {
    && !(p < HALF && q < HALF && p + q >= HALF)
    && !(p >= HALF && q >= HALF && p + q < 3 * HALF)
  }

  lemma Carry(p: nat, q: nat)
    requires p < GIB && q < GIB
    ensures var whole := (p + q) / GIB + UpBy((p + q) % GIB);
            && -1 <= UpBy(p) + UpBy(q) - whole <= 1
            && (UpBy(p) + UpBy(q) == whole <==> PartsAgree(p, q))
  {
  }

  lemma PartsAdd(u: nat, f: nat)
    ensures 100 * (u + f) / GIB == 100 * u / GIB + 100 * f / GIB + (Part(u) + Part(f)) / GIB
    ensures Part(u + f) == (Part(u) + Part(f)) % GIB
  {
  }

  /**
   For readings with available <= total, `used + free == total` holds in bytes; after rounding it is
   off by at most 0.01, and holds exactly when the two roundings agree with the rounding of the sum.
   */
  lemma UsedPlusFreeWithin(total: nat, available: nat)
    requires available <= total
    ensures var m, used := CollectMem(total, available), total - available;
            && -0.01 <= m.used + m.free - m.total <= 0.01
            && (m.used + m.free == m.total <==> PartsAgree(Part(used), Part(available)))
  {
    hide Part, PartsAgree, UpBy, BytesToGib;
    var used := total - available;
    RoundedGib(total);
    RoundedGib(used);
    RoundedGib(available);
    PartsAdd(used, available);
    Carry(Part(used), Part(available));
  }

  /**
   Exactly when the printed figures add up, for any two readings: an available figure above the
   total (which saturates used to zero) must print as the total does.
   */
  lemma UsedPlusFree(total: nat, available: nat)
    ensures var m := CollectMem(total, available);
            && (available <= total ==> -0.01 <= m.used + m.free - m.total <= 0.01)
            && (m.used + m.free == m.total <==>
                if available <= total then PartsAgree(Part(total - available), Part(available))
                else BytesToGib(available) == BytesToGib(total))
  {
    if available <= total { UsedPlusFreeWithin(total, available); } else { RoundedGib(0); }
  }

  /** 5 MiB used of 10 MiB prints 0 + 0 of 0.01 GiB; 2 GiB available of 1 GiB prints 0 + 2 of 1. */
  lemma UsedPlusFreeCanMiss()
    ensures var m := CollectMem(10485760, 5242880); m.used + m.free != m.total
    ensures var m := CollectMem(GIB, 2 * GIB); m.used + m.free != m.total
  {
    UsedPlusFree(10485760, 5242880);
    UsedPlusFree(GIB, 2 * GIB);
    RoundedGib(GIB);
    RoundedGib(2 * GIB);
  }

  lemma Ratio(a: nat, b: nat)
    requires a <= b && b > 0
    ensures 0.0 <= a as real / b as real <= 1.0
  {
  }

  /**
   The figures told: total, used and free are those of these bytes to within half a hundredth of a
   GiB, and the percentage that of the used part to within half a tenth.
   */
  lemma MemTells(total: nat, available: nat)
    ensures var m, used := CollectMem(total, available), if available <= total then total - available else 0;
            && -0.005 <= m.total - total as real / 1073741824.0 <= 0.005
            && -0.005 <= m.used - used as real / 1073741824.0 <= 0.005
            && -0.005 <= m.free - available as real / 1073741824.0 <= 0.005
            && (total == 0 ==> m.percent == 0.0)
            && (total > 0 ==> -0.05 <= m.percent - used as real / total as real * 100.0 <= 0.05)
  {
    var used := SaturatingSub(total, available);
    hide Round1, Round2;
    Round2Nearest(total as real / 1073741824.0, 0.0);
    Round2Nearest(used as real / 1073741824.0, 0.0);
    Round2Nearest(available as real / 1073741824.0, 0.0);
    if total > 0 { Round1Nearest(used as real / total as real * 100.0); }
  }

  /** The percentage never leaves 0 to 100, whatever the two readings are. */
  lemma MemPercentInRange(total: nat, available: nat)
    ensures 0.0 <= CollectMem(total, available).percent <= 100.0
  {
    if total > 0 {
      var used := SaturatingSub(total, available);
      Ratio(used, total);
      RoundNearest(0.0, used as real / total as real * 100.0 * 10.0);
      RoundNearest(used as real / total as real * 100.0 * 10.0, 1000.0);
      assert Round(1000.0) == 1000;
    }
  }
}
