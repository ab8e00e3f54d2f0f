/** The disk list of a snapshot: which mounts are shown, and how full each is. */
module Disks {
  import opened Options
  import opened Units

  /** An entry of the mount table; `total` and `available` are as of the last rescan. */
  datatype Mount = Mount(device: string, fstype: string, point: string, total: nat, available: nat)

  /** What statvfs answers, in blocks of `frsize` bytes. */
  datatype Stat = Stat(blocks: nat, free: nat, available: nat, frsize: nat)

  datatype Usage = Usage(total: real, used: real, free: real, percent: real)

  datatype Disk = Disk(mount: string, usage: Usage)

  function SaturatingMul(a: nat, b: nat): nat {
    Min(a * b, U64_MAX)
  }

  function Percent(part: nat, whole: nat): real {
    if whole > 0 then Round1(part as real / whole as real * 100.0) else 0.0
  }

  /** The sum wraps in a u64. */
  function WrappingAdd(a: nat, b: nat): nat {
    (a + b) % (U64_MAX + 1)
  }

  function UsedBytes(st: Stat): nat {
    SaturatingMul(SaturatingSub(st.blocks, st.free), st.frsize)
  }

  function FreeBytes(st: Stat): nat {
    SaturatingMul(st.available, st.frsize)
  }

  function UsageOf(m: Mount, stat: Option<Stat>): Usage {
    match stat
    case Some(st) =>
      Usage(BytesToGib(SaturatingMul(st.blocks, st.frsize)), BytesToGib(UsedBytes(st)), BytesToGib(FreeBytes(st)),
            Percent(UsedBytes(st), WrappingAdd(UsedBytes(st), FreeBytes(st))))
    case None =>
      var used := SaturatingSub(m.total, m.available);
      Usage(BytesToGib(m.total), BytesToGib(used), BytesToGib(m.available), Percent(used, m.total))
  }

  function StatOf(stats: map<string, Stat>, point: string): Option<Stat> {
    if point in stats then Some(stats[point]) else None
  }

  /** Mounts of a device whose filesystem type is not one of those without. */
  predicate Physical(m: Mount, nodev: set<string>) {
    "/" <= m.device && m.fstype !in nodev
  }

  function CollectAll(mounts: seq<Mount>, nodev: set<string>, stats: map<string, Stat>): seq<Disk> {
    if mounts == [] then []
    else
      var m := mounts[0];
      var rest := CollectAll(mounts[1..], nodev, stats);
      if Physical(m, nodev) then [Disk(m.point, UsageOf(m, StatOf(stats, m.point)))] + rest else rest
  }

  function RootOf(mounts: seq<Mount>): Option<Mount> {
    if mounts == [] then None
    else if mounts[0].point == "/" then Some(mounts[0])
    else if RootOf(mounts[1..]).Some? && RootOf(mounts[1..]).value.point == "/" then RootOf(mounts[1..])
    else Some(mounts[0])
  }

  function CollectRoot(mounts: seq<Mount>, stats: map<string, Stat>): Usage {
    match RootOf(mounts)
    case Some(m) => UsageOf(m, StatOf(stats, m.point))
    case None => Usage(0.0, 0.0, 0.0, 0.0)
  }

  /** Rounding to a tenth hides an excess of less than a twentieth of a percent. */
  lemma PercentAtMost(part: nat, whole: nat)
    ensures Percent(part, whole) >= 0.0
    ensures Percent(part, whole) <= 100.0 <==> whole == 0 || 2000 * part < 2001 * whole
  {
    if whole > 0 {
      var ratio := part as real / whole as real;
      Share(part as real, whole as real);
      RoundedTo(ratio * 100.0 * 10.0);
      Compare(ratio, part as real, whole as real);
    }
  }

  lemma Share(a: real, w: real)
    requires w > 0.0 && a >= 0.0
    ensures a / w * w == a && a / w >= 0.0
  {
  }

  lemma RoundedTo(x: real)
    requires x >= 0.0
    ensures Round(x) >= 0 && (Round(x) <= 1000 <==> x < 1000.5)
  {
  }

  lemma Compare(ratio: real, a: real, w: real)
    requires w > 0.0 && ratio * w == a
    ensures ratio < 1.0005 <==> 2000.0 * a < 2001.0 * w
  {
    var d := 1.0005 - ratio;
    Sign(d, w);
    assert d * w == 1.0005 * w - a;
  }

  lemma Sign(d: real, w: real)
    requires w > 0.0
    ensures d > 0.0 <==> d * w > 0.0
  {
  }

  /** Whatever is answered, a disk is 0 to 100 percent full unless used + free wraps, and just when it then is. */
  lemma PercentInRange(m: Mount, stat: Option<Stat>)
    ensures UsageOf(m, stat).percent >= 0.0
    ensures UsageOf(m, stat).percent <= 100.0 <==>
      || stat.None?
      || UsedBytes(stat.value) + FreeBytes(stat.value) <= U64_MAX
      || (var shown := WrappingAdd(UsedBytes(stat.value), FreeBytes(stat.value));
          shown == 0 || 2000 * UsedBytes(stat.value) < 2001 * shown)
  {
    match stat
    case Some(st) =>
      hide SaturatingMul;
      PercentAtMost(UsedBytes(st), WrappingAdd(UsedBytes(st), FreeBytes(st)));
    case None =>
      PercentAtMost(SaturatingSub(m.total, m.available), m.total);
  }

  /** Half of 2^64 bytes used and one more free: the sum wraps to 1. */
  lemma PercentCanOverflow(m: Mount)
    ensures UsageOf(m, Some(Stat(0x8000_0000_0000_0000, 0, 0x8000_0000_0000_0001, 1))).percent > 100.0
  {
    PercentInRange(m, Some(Stat(0x8000_0000_0000_0000, 0, 0x8000_0000_0000_0001, 1)));
  }

  /** Half a hundredth of a GiB. */
  ghost predicate Gib(shown: real, bytes: nat) {
    -0.005 <= shown - bytes as real / 1073741824.0 <= 0.005
  }

  ghost predicate Share100(shown: real, part: nat, whole: nat) {
    if whole == 0 then shown == 0.0 else -0.05 <= shown - part as real / whole as real * 100.0 <= 0.05
  }

  lemma PercentTells(part: nat, whole: nat)
    ensures Share100(Percent(part, whole), part, whole)
  {
    if whole > 0 { Round1Nearest(part as real / whole as real * 100.0); }
  }

  lemma GibTells(bytes: nat)
    ensures Gib(BytesToGib(bytes), bytes)
  {
    Round2Nearest(bytes as real / 1073741824.0, 0.0);
  }

  /** What a u64 keeps of a product. */
  ghost function Capped(bytes: nat): nat {
    if bytes <= 0xFFFF_FFFF_FFFF_FFFF then bytes else 0xFFFF_FFFF_FFFF_FFFF
  }

  /**
   Answered by statvfs: used counts the blocks reserved for root, free only those available, and the
   percentage is of those two together, as far as they fit.
   */
  lemma StatTells(m: Mount, st: Stat)
    ensures var u := UsageOf(m, Some(st));
            var used := Capped((if st.free <= st.blocks then st.blocks - st.free else 0) * st.frsize);
            var free := Capped(st.available * st.frsize);
            && Gib(u.total, Capped(st.blocks * st.frsize)) && Gib(u.used, used) && Gib(u.free, free)
            && Share100(u.percent, used, (used + free) % 0x1_0000_0000_0000_0000)
  {
    hide Gib, Share100, Percent, BytesToGib;
    GibTells(SaturatingMul(st.blocks, st.frsize));
    GibTells(UsedBytes(st));
    GibTells(FreeBytes(st));
    PercentTells(UsedBytes(st), WrappingAdd(UsedBytes(st), FreeBytes(st)));
  }

  /** Without an answer: the mount table's own figures, nothing used if it offers more than it has. */
  lemma FallbackTells(m: Mount)
    ensures var u, used := UsageOf(m, None), if m.available <= m.total then m.total - m.available else 0;
            && Gib(u.total, m.total) && Gib(u.used, used) && Gib(u.free, m.available)
            && Share100(u.percent, used, m.total)
  {
    hide Gib, Share100, Percent, BytesToGib;
    var used := SaturatingSub(m.total, m.available);
    GibTells(m.total);
    GibTells(used);
    GibTells(m.available);
    PercentTells(used, m.total);
  }

  ghost predicate FirstRoot(mounts: seq<Mount>, i: int) {
    0 <= i < |mounts| && mounts[i].point == "/" && forall k :: 0 <= k < i ==> mounts[k].point != "/"
  }

  /** The root's figures are those of the first mount at "/", or of the first mount if none is there. */
  lemma {:induction false} RootIsFound(mounts: seq<Mount>)
    ensures RootOf(mounts).None? <==> mounts == []
    ensures RootOf(mounts).Some? ==> RootOf(mounts).value in mounts
    ensures (exists m :: m in mounts && m.point == "/") ==> RootOf(mounts).Some? && RootOf(mounts).value.point == "/"
    ensures mounts != [] && (forall m :: m in mounts ==> m.point != "/") ==> RootOf(mounts) == Some(mounts[0])
    ensures forall i :: FirstRoot(mounts, i) ==> RootOf(mounts) == Some(mounts[i])
  {
    if mounts != [] {
      var rest := mounts[1..];
      RootIsFound(rest);
      assert mounts == [mounts[0]] + rest;
      forall i | FirstRoot(mounts, i) ensures RootOf(mounts) == Some(mounts[i]) {
        if i > 0 {
          forall k | 0 <= k < i - 1 ensures rest[k].point != "/" { assert rest[k] == mounts[k + 1]; }
          assert FirstRoot(rest, i - 1);
        }
      }
    }
  }

  /** And they are measured where that mount is: by statvfs if it answers there, else by the table. */
  lemma RootTells(mounts: seq<Mount>, stats: map<string, Stat>)
    ensures mounts == [] ==> CollectRoot(mounts, stats) == Usage(0.0, 0.0, 0.0, 0.0)
    ensures RootOf(mounts).Some? ==>
      var m := RootOf(mounts).value;
      CollectRoot(mounts, stats) == UsageOf(m, if m.point in stats then Some(stats[m.point]) else None)
  {
  }

  /** The disk list is made mount by mount, in order: nothing for one without a device or of a nodev type. */
  lemma {:induction false} DisksInOrder(
      a: seq<Mount>, m: Mount, b: seq<Mount>, nodev: set<string>, stats: map<string, Stat>)
    ensures CollectAll([], nodev, stats) == []
    ensures CollectAll(a + [m] + b, nodev, stats)
         == CollectAll(a, nodev, stats)
            + (if m.device != "" && m.device[0] == '/' && m.fstype !in nodev
               then [Disk(m.point, UsageOf(m, if m.point in stats then Some(stats[m.point]) else None))] else [])
            + CollectAll(b, nodev, stats)
  {
    hide UsageOf;
    if a == [] {
      assert ([] + [m] + b)[1..] == b;
    } else {
      assert (a + [m] + b)[1..] == a[1..] + [m] + b;
      DisksInOrder(a[1..], m, b, nodev, stats);
    }
  }

  /** Every disk shown is a physical mount, and every physical mount is shown. */
  lemma {:induction false} ShowsPhysical(mounts: seq<Mount>, nodev: set<string>, stats: map<string, Stat>, d: Disk)
    ensures d in CollectAll(mounts, nodev, stats) <==>
            exists m :: m in mounts && Physical(m, nodev) && d == Disk(m.point, UsageOf(m, StatOf(stats, m.point)))
  {
    hide UsageOf;
    if mounts != [] {
      ShowsPhysical(mounts[1..], nodev, stats, d);
      assert mounts == [mounts[0]] + mounts[1..];
    }
  }
}
