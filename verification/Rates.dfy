/** Rates from cumulative counters: per-second figures, and what they add up to over a run. */
module Rates {
  import opened Options
  import opened Units

  /** A counter read at a time in seconds. */
  datatype Sample = Sample(at: real, total: nat)

  function PerSecond(now: nat, last: nat, elapsed: real): nat
    requires elapsed > 0.0
  {
    ToU64(Round(SaturatingSub(now, last) as real / elapsed) as real)
  }

  function Rate(last: Sample, now: Sample): nat {
    var elapsed := now.at - last.at;
    if elapsed <= 0.0 then 0 else PerSecond(now.total, last.total, elapsed)
  }

  // ----- one counter over a run of readings, `None` where the reading failed

  function Latest(rs: seq<Option<Sample>>): Option<Sample> {
    if rs == [] then None
    else if rs[|rs| - 1].Some? then rs[|rs| - 1]
    else Latest(rs[..|rs| - 1])
  }

  function First(rs: seq<Option<Sample>>): Option<Sample> {
    if rs == [] then None
    else if First(rs[..|rs| - 1]).Some? then First(rs[..|rs| - 1])
    else rs[|rs| - 1]
  }

  /** The last reading together with the successful one before it, if both exist. */
  function LastPair(rs: seq<Option<Sample>>): Option<(Sample, Sample)>
    requires rs != []
  {
    var last, now := Latest(rs[..|rs| - 1]), rs[|rs| - 1];
    if last.Some? && now.Some? then Some((last.value, now.value)) else None
  }

  /** What one more reading adds. */
  lemma Append(rs: seq<Option<Sample>>, r: Option<Sample>)
    ensures Latest(rs + [r]) == if r.Some? then r else Latest(rs)
    ensures LastPair(rs + [r]) ==
            if r.Some? && Latest(rs).Some? then Some((Latest(rs).value, r.value)) else None
    ensures LastRate(rs + [r]) ==
            if r.Some? && Latest(rs).Some? then Rate(Latest(rs).value, r.value) else 0
  {
    assert (rs + [r])[..|rs|] == rs;
  }

  function LastRate(rs: seq<Option<Sample>>): nat
    requires rs != []
  {
    match LastPair(rs)
    case None => 0
    case Some((last, now)) => Rate(last, now)
  }

  /** The rate told for a growth of `grown` in `elapsed`: the nearest whole number a u64 can hold. */
  ghost predicate IsRate(rate: nat, grown: nat, elapsed: real)
    requires elapsed > 0.0
  {
    var exact := grown as real / elapsed;
    && (rate as real <= exact + 0.5)
    && (rate as real >= exact - 0.5 || rate == 0xFFFF_FFFF_FFFF_FFFF)
    && rate <= 0xFFFF_FFFF_FFFF_FFFF
  }

  /**
   One reading: the first, a failed one and one at no later time report zero; any other the growth
   since the last that succeeded, a drop counting as none, over the time between.
   */
  lemma LastRateTells(rs: seq<Option<Sample>>, now: Option<Sample>)
    ensures var rate, last := LastRate(rs + [now]), Latest(rs);
            if now.None? || last.None? || now.value.at <= last.value.at then rate == 0
            else IsRate(rate, Growth(last.value.total, now.value.total), now.value.at - last.value.at)
  {
    hide Latest, LastPair, LastRate;
    Append(rs, now);
    if now.Some? && Latest(rs).Some? && now.value.at > Latest(rs).value.at {
      RateTells(Latest(rs).value, now.value);
    }
  }

  /** How much a counter grew; a drop counts as nothing. */
  ghost function Growth(last: nat, now: nat): nat {
    if now >= last then now - last else 0
  }

  lemma RateTells(last: Sample, now: Sample)
    requires now.at > last.at
    ensures IsRate(Rate(last, now), Growth(last.total, now.total), now.at - last.at)
  {
    var d, e := SaturatingSub(now.total, last.total) as real, now.at - last.at;
    Quotient(d, e);
    RoundNearest(d / e, d / e);
    CastSplits(Round(d / e));
  }

  function LastElapsed(rs: seq<Option<Sample>>): real
    requires rs != []
  {
    match LastPair(rs)
    case None => 0.0
    case Some((last, now)) => if now.at > last.at then now.at - last.at else 0.0
  }

  function LastGrowth(rs: seq<Option<Sample>>): nat
    requires rs != []
  {
    match LastPair(rs)
    case None => 0
    case Some((last, now)) => SaturatingSub(now.total, last.total)
  }

  function Moved(rate: nat, elapsed: real): real {
    rate as real * elapsed
  }

  /** What the reported rates say was counted: each rate times the time it stands for. */
  function Reported(rs: seq<Option<Sample>>): real {
    if rs == [] then 0.0 else Reported(rs[..|rs| - 1]) + Moved(LastRate(rs), LastElapsed(rs))
  }

  function Elapsed(rs: seq<Option<Sample>>): real {
    if rs == [] then 0.0 else Elapsed(rs[..|rs| - 1]) + LastElapsed(rs)
  }

  /** Increases seen between readings a positive time apart; a drop counts nothing. */
  function Grew(rs: seq<Option<Sample>>): nat {
    if rs == [] then 0
    else Grew(rs[..|rs| - 1]) + if LastElapsed(rs) > 0.0 then LastGrowth(rs) else 0
  }

  /** Increases seen between readings at the same instant, which no rate reports. */
  function Missed(rs: seq<Option<Sample>>): nat {
    if rs == [] then 0
    else Missed(rs[..|rs| - 1]) + if LastElapsed(rs) > 0.0 then 0 else LastGrowth(rs)
  }

  /** By how much the last rate exceeds what a u64 holds. */
  function LastExcess(rs: seq<Option<Sample>>): nat
    requires rs != []
  {
    if LastElapsed(rs) <= 0.0 then 0
    else
      var rate := Round(LastGrowth(rs) as real / LastElapsed(rs));
      if rate > U64_MAX then rate - U64_MAX else 0
  }

  /** What the cast of each rate to u64 cuts off, times the time it stands for. */
  function Clipped(rs: seq<Option<Sample>>): real {
    if rs == [] then 0.0 else Clipped(rs[..|rs| - 1]) + Moved(LastExcess(rs), LastElapsed(rs))
  }

  /** No rate exceeds what a u64 holds. */
  ghost predicate Fits(rs: seq<Option<Sample>>) {
    rs == [] || (Fits(rs[..|rs| - 1]) && LastExcess(rs) == 0)
  }

  lemma MovedIsPositive(rate: nat, e: real)
    requires e >= 0.0
    ensures Moved(rate, e) >= 0.0
    ensures Moved(rate, e) == 0.0 <==> rate == 0 || e == 0.0
  {
    if rate > 0 && e > 0.0 { MulAtMost(1.0, rate as real, e); }
  }

  /** Nothing is cut off exactly when every rate fits. */
  lemma {:induction false} ClippedIffNotFits(rs: seq<Option<Sample>>)
    ensures Clipped(rs) >= 0.0
    ensures Clipped(rs) == 0.0 <==> Fits(rs)
  {
    if rs != [] {
      ClippedIffNotFits(rs[..|rs| - 1]);
      MovedIsPositive(LastExcess(rs), LastElapsed(rs));
    }
  }

  lemma MulAtMost(x: real, y: real, e: real)
    requires x <= y && e > 0.0
    ensures x * e <= y * e
  {
    assert (y - x) * e >= 0.0;
  }

  lemma Scale(d: real, e: real, q: real, r: real)
    requires e > 0.0 && q * e == d && -0.5 <= r - q <= 0.5
    ensures -0.5 * e <= r * e - d <= 0.5 * e
  {
    MulAtMost(r, q + 0.5, e);
    MulAtMost(q - 0.5, r, e);
    assert (q + 0.5) * e == q * e + 0.5 * e;
    assert (q - 0.5) * e == q * e - 0.5 * e;
  }

  lemma Quotient(d: real, e: real)
    requires e > 0.0
    ensures d / e * e == d
    ensures d >= 0.0 ==> d / e >= 0.0
  {
  }

  lemma MovedAdds(a: nat, b: nat, e: real)
    ensures Moved(a, e) + Moved(b, e) == (a + b) as real * e
  {
  }

  lemma CastSplits(n: nat)
    ensures ToU64(n as real) + (if n > U64_MAX then n - U64_MAX else 0) == n
  {
  }

  /** One rate and what its cast cut off, over their time, are the growth to half a unit a second. */
  lemma LastRateTracks(rs: seq<Option<Sample>>)
    requires rs != []
    ensures var e, grown := LastElapsed(rs), if LastElapsed(rs) > 0.0 then LastGrowth(rs) else 0;
            -0.5 * e <= Moved(LastRate(rs), e) + Moved(LastExcess(rs), e) - grown as real <= 0.5 * e
  {
    hide Round, ToU64;
    var e := LastElapsed(rs);
    if e > 0.0 {
      var d := LastGrowth(rs) as real;
      var q := d / e;
      Quotient(d, e);
      RoundNearest(q, q);
      CastSplits(Round(q));
      assert LastRate(rs) + LastExcess(rs) == Round(q);
      MovedAdds(LastRate(rs), LastExcess(rs), e);
      Scale(d, e, q, Round(q) as real);
    } else {
      MovedInNoTime(LastRate(rs));
      MovedInNoTime(LastExcess(rs));
    }
  }

  lemma MovedInNoTime(rate: nat)
    ensures Moved(rate, 0.0) == 0.0
  {
  }

  /**
   Over any run at all, failed readings, counter drops and saturated rates included, the reported
   rates and what their casts cut off account for the growth of the counter to within half a unit
   for each second; so they never overstate it by more, and match it if every rate fits.
   */
  lemma {:induction false} RatesTrackGrowth(rs: seq<Option<Sample>>)
    ensures -0.5 * Elapsed(rs) <= Reported(rs) + Clipped(rs) - Grew(rs) as real <= 0.5 * Elapsed(rs)
    ensures Reported(rs) - Grew(rs) as real <= 0.5 * Elapsed(rs)
    ensures Fits(rs) ==> -0.5 * Elapsed(rs) <= Reported(rs) - Grew(rs) as real
  {
    ClippedIffNotFits(rs);
    if rs != [] {
      RatesTrackGrowth(rs[..|rs| - 1]);
      LastRateTracks(rs);
    }
  }

  ghost predicate NeverDrops(rs: seq<Option<Sample>>) {
    rs == [] || (NeverDrops(rs[..|rs| - 1]) &&
      (LastPair(rs).Some? ==> LastPair(rs).value.0.total <= LastPair(rs).value.1.total))
  }

  ghost predicate Advances(rs: seq<Option<Sample>>) {
    rs == [] || (Advances(rs[..|rs| - 1]) &&
      (LastPair(rs).Some? ==> LastPair(rs).value.0.at < LastPair(rs).value.1.at))
  }

  /** For a counter that never drops, nothing between the first and last reading is lost but `Missed`. */
  lemma {:induction false} GrowthConserved(rs: seq<Option<Sample>>)
    requires NeverDrops(rs)
    ensures First(rs).Some? <==> Latest(rs).Some?
    ensures First(rs).Some? ==> Grew(rs) + Missed(rs) == Latest(rs).value.total - First(rs).value.total
    ensures First(rs).None? ==> Grew(rs) + Missed(rs) == 0
    ensures Advances(rs) ==> Missed(rs) == 0
    ensures Advances(rs) && First(rs).Some? ==> Elapsed(rs) == Latest(rs).value.at - First(rs).value.at
    ensures First(rs).None? ==> Elapsed(rs) == 0.0
  {
    if rs != [] { GrowthConserved(rs[..|rs| - 1]); }
  }

  /** The figure a dashboard integrates: last total minus first, to within half the elapsed time. */
  lemma RatesTrackCounter(rs: seq<Option<Sample>>)
    requires NeverDrops(rs) && Advances(rs) && First(rs).Some?
    ensures Latest(rs).Some?
    ensures var first, last := First(rs).value, Latest(rs).value;
            var error := Reported(rs) + Clipped(rs) - (last.total - first.total) as real;
            -0.5 * (last.at - first.at) <= error <= 0.5 * (last.at - first.at)
    ensures Fits(rs) <==> Clipped(rs) == 0.0
  {
    GrowthConserved(rs);
    RatesTrackGrowth(rs);
    ClippedIffNotFits(rs);
  }

  /** A burst between two readings at one instant is never reported. */
  lemma SameInstantIsMissed()
    ensures var rs := [Some(Sample(1.0, 0)), Some(Sample(1.0, 512))];
            Fits(rs) && Reported(rs) == 0.0 && Grew(rs) == 0 && Missed(rs) == 512
  {
    var a: Option<Sample> := Some(Sample(1.0, 0));
    var b := Some(Sample(1.0, 512));
    assert [a][..0] == [] && [a, b][..1] == [a];
    assert LastPair([a]) == None;
    assert LastGrowth([a]) == 0 && LastRate([a]) == 0;
    assert LastElapsed([a]) == 0.0 && Fits([a]) && Missed([a]) == 0 && Grew([a]) == 0;
    assert LastPair([a, b]) == Some((a.value, b.value));
    assert LastElapsed([a, b]) == 0.0;
  }

  // ----- network throughput

  datatype Iface = Iface(name: string, received: nat, sent: nat)

  datatype NetIo = NetIo(at: real, recv: nat, sent: nat)

  datatype Throughput = Throughput(rx: nat, tx: nat)

  function Received(ifaces: seq<Iface>): nat {
    if ifaces == [] then 0
    else Received(ifaces[..|ifaces| - 1])
         + if ifaces[|ifaces| - 1].name == "lo" then 0 else ifaces[|ifaces| - 1].received
  }

  function Sent(ifaces: seq<Iface>): nat {
    if ifaces == [] then 0
    else Sent(ifaces[..|ifaces| - 1])
         + if ifaces[|ifaces| - 1].name == "lo" then 0 else ifaces[|ifaces| - 1].sent
  }

  /** Both totals, as far as a u64 holds them. */
  function TotalsOf(ifaces: seq<Iface>): (nat, nat) {
    (Min(Received(ifaces), U64_MAX), Min(Sent(ifaces), U64_MAX))
  }

  lemma SumsAppend(front: seq<Iface>, last: Iface)
    ensures Received(front + [last]) == Received(front) + if last.name == "lo" then 0 else last.received
    ensures Sent(front + [last]) == Sent(front) + if last.name == "lo" then 0 else last.sent
  {
    assert (front + [last])[..|front|] == front;
  }

  lemma {:induction false} SumsSplit(a: seq<Iface>, i: Iface, b: seq<Iface>)
    ensures Received(a + [i] + b) == Received(a + b) + if i.name == "lo" then 0 else i.received
    ensures Sent(a + [i] + b) == Sent(a + b) + if i.name == "lo" then 0 else i.sent
  {
    hide Received, Sent;
    if b == [] {
      assert a + [i] + b == a + [i] && a + b == a;
      SumsAppend(a, i);
    } else {
      var c, z := b[..|b| - 1], b[|b| - 1];
      SumsSplit(a, i, c);
      assert a + [i] + b == (a + [i] + c) + [z] && a + b == (a + c) + [z];
      SumsAppend(a + [i] + c, z);
      SumsAppend(a + c, z);
    }
  }

  /**
   Wherever it stands in the list, "lo" adds to neither total, and any other interface adds what it
   received to the first and what it sent to the second, until a u64 is full.
   */
  lemma OneMoreInterface(a: seq<Iface>, i: Iface, b: seq<Iface>)
    ensures TotalsOf([]) == (0, 0)
    ensures i.name == "lo" ==> TotalsOf(a + [i] + b) == TotalsOf(a + b)
    ensures i.name != "lo" ==>
      TotalsOf(a + [i] + b) == (SaturatingAdd(TotalsOf(a + b).0, i.received), SaturatingAdd(TotalsOf(a + b).1, i.sent))
  {
    SumsSplit(a, i, b);
  }

  function WithoutLoopback(ifaces: seq<Iface>): seq<Iface> {
    if ifaces == [] then []
    else
      var last := ifaces[|ifaces| - 1];
      WithoutLoopback(ifaces[..|ifaces| - 1]) + if last.name == "lo" then [] else [last]
  }

  /** Dropping every "lo" changes neither total. */
  lemma {:induction false} LoopbackIsIgnored(ifaces: seq<Iface>)
    ensures Received(WithoutLoopback(ifaces)) == Received(ifaces) && Sent(WithoutLoopback(ifaces)) == Sent(ifaces)
    ensures TotalsOf(WithoutLoopback(ifaces)) == TotalsOf(ifaces)
  {
    if ifaces != [] {
      var front, last := ifaces[..|ifaces| - 1], ifaces[|ifaces| - 1];
      LoopbackIsIgnored(front);
      if last.name != "lo" { SumsSplit(WithoutLoopback(front), last, []); }
      assert WithoutLoopback(front) + [] == WithoutLoopback(front);
      assert WithoutLoopback(front) + [last] + [] == WithoutLoopback(front) + [last];
    }
  }

  /** Both totals across all interfaces but loopback, saturating. */
  method Totals(ifaces: seq<Iface>) returns (recv: nat, sent: nat)
    ensures recv == Min(Received(ifaces), U64_MAX) && sent == Min(Sent(ifaces), U64_MAX)
    ensures (recv, sent) == TotalsOf(ifaces)
  {
    recv, sent := 0, 0;
    for i := 0 to |ifaces|
      invariant recv == Min(Received(ifaces[..i]), U64_MAX) && sent == Min(Sent(ifaces[..i]), U64_MAX)
    {
      assert ifaces[..i + 1][..i] == ifaces[..i];
      if ifaces[i].name == "lo" {
        continue;
      }
      recv := SaturatingAdd(recv, ifaces[i].received);
      sent := SaturatingAdd(sent, ifaces[i].sent);
    }
    assert ifaces[..|ifaces|] == ifaces;
  }

  class NetMeter {
    var prev: Option<NetIo>
    /** The two counters as they were seen, reading by reading. */
    ghost var recvSeen: seq<Option<Sample>>
    ghost var sentSeen: seq<Option<Sample>>

    ghost predicate Valid()
      reads this
    {
      && Latest(recvSeen) == (if prev.None? then None else Some(Sample(prev.value.at, prev.value.recv)))
      && Latest(sentSeen) == (if prev.None? then None else Some(Sample(prev.value.at, prev.value.sent)))
    }

    constructor ()
      ensures Valid() && recvSeen == [] && sentSeen == []
    {
      prev, recvSeen, sentSeen := None, [], [];
    }

    method CollectThroughput(ifaces: seq<Iface>, now: real) returns (t: Throughput)
      requires Valid()
      modifies this
      ensures Valid()
      ensures recvSeen == old(recvSeen) + [Some(Sample(now, Min(Received(ifaces), U64_MAX)))]
      ensures sentSeen == old(sentSeen) + [Some(Sample(now, Min(Sent(ifaces), U64_MAX)))]
      ensures t == Throughput(LastRate(recvSeen), LastRate(sentSeen))
      ensures prev == Some(NetIo(now, TotalsOf(ifaces).0, TotalsOf(ifaces).1))
      ensures var last := old(prev);
              if last.None? || now <= last.value.at then t == Throughput(0, 0)
              else
                && IsRate(t.rx, Growth(last.value.recv, TotalsOf(ifaces).0), now - last.value.at)
                && IsRate(t.tx, Growth(last.value.sent, TotalsOf(ifaces).1), now - last.value.at)
    {
      hide IsRate, Received, Sent, PerSecond;
      var recv, sent := Totals(ifaces);
      var last := prev;
      if last.Some? && now > last.value.at {
        RateTells(Sample(last.value.at, last.value.recv), Sample(now, recv));
        RateTells(Sample(last.value.at, last.value.sent), Sample(now, sent));
      }
      prev := Some(NetIo(now, recv, sent));
      Append(recvSeen, Some(Sample(now, recv)));
      Append(sentSeen, Some(Sample(now, sent)));
      recvSeen := recvSeen + [Some(Sample(now, recv))];
      sentSeen := sentSeen + [Some(Sample(now, sent))];
      if last.None? {
        return Throughput(0, 0);
      }
      var elapsed := now - last.value.at;
      if elapsed <= 0.0 {
        return Throughput(0, 0);
      }
      t := Throughput(
        PerSecond(recv, last.value.recv, elapsed),
        PerSecond(sent, last.value.sent, elapsed));
    }
  }

  // ----- disk I/O

  datatype DiskStats = DiskStats(readBytes: nat, writeBytes: nat, readOps: nat, writeOps: nat)

  datatype DiskIoPrev = DiskIoPrev(at: real, stats: DiskStats)

  datatype DiskIo = DiskIo(readBytesPerSec: nat, writeBytesPerSec: nat, readIops: nat, writeIops: nat)

  datatype Field = ReadBytes | WriteBytes | ReadOps | WriteOps

  function Total(stats: DiskStats, f: Field): nat {
    match f
    case ReadBytes => stats.readBytes
    case WriteBytes => stats.writeBytes
    case ReadOps => stats.readOps
    case WriteOps => stats.writeOps
  }

  function OneField(prev: Option<DiskIoPrev>, f: Field): Option<Sample> {
    if prev.None? then None else Some(Sample(prev.value.at, Total(prev.value.stats, f)))
  }

  function Counter(seen: seq<Option<DiskIoPrev>>, f: Field): (rs: seq<Option<Sample>>)
    ensures |rs| == |seen|
  {
    seq(|seen|, i requires 0 <= i < |seen| => OneField(seen[i], f))
  }

  lemma CounterStep(seen: seq<Option<DiskIoPrev>>, r: Option<DiskIoPrev>, f: Field)
    ensures Counter(seen + [r], f) == Counter(seen, f) + [OneField(r, f)]
  {
  }

  /** The four figures between two successful reads. */
  function Rated(last: DiskIoPrev, now: DiskIoPrev): DiskIo {
    var rate := (f: Field) => Rate(Sample(last.at, Total(last.stats, f)), Sample(now.at, Total(now.stats, f)));
    DiskIo(rate(ReadBytes), rate(WriteBytes), rate(ReadOps), rate(WriteOps))
  }

  function LastIo(seen: seq<Option<DiskIoPrev>>): DiskIo
    requires seen != []
  {
    DiskIo(LastRate(Counter(seen, ReadBytes)), LastRate(Counter(seen, WriteBytes)),
           LastRate(Counter(seen, ReadOps)), LastRate(Counter(seen, WriteOps)))
  }

  ghost predicate IsLatest(prev: Option<DiskIoPrev>, seen: seq<Option<DiskIoPrev>>) {
    forall f :: Latest(Counter(seen, f)) == OneField(prev, f)
  }

  lemma IoStep(seen: seq<Option<DiskIoPrev>>, prev: Option<DiskIoPrev>, r: Option<DiskIoPrev>)
    requires IsLatest(prev, seen)
    ensures IsLatest(if r.Some? then r else prev, seen + [r])
    ensures LastIo(seen + [r]) ==
            if r.Some? && prev.Some? then Rated(prev.value, r.value) else DiskIo(0, 0, 0, 0)
  {
    hide Counter, Latest, LastRate, Rate;
    forall f
      ensures Latest(Counter(seen + [r], f)) == OneField(if r.Some? then r else prev, f)
      ensures LastRate(Counter(seen + [r], f)) ==
              if r.Some? && prev.Some? then Rate(OneField(prev, f).value, OneField(r, f).value) else 0
    {
      CounterStep(seen, r, f);
      Append(Counter(seen, f), OneField(r, f));
    }
  }

  /** Bytes read and written, operations read and written: each figure of its own counter. */
  ghost predicate AreRates(io: DiskIo, last: DiskStats, now: DiskStats, elapsed: real)
    requires elapsed > 0.0
  {
    && IsRate(io.readBytesPerSec, Growth(last.readBytes, now.readBytes), elapsed)
    && IsRate(io.writeBytesPerSec, Growth(last.writeBytes, now.writeBytes), elapsed)
    && IsRate(io.readIops, Growth(last.readOps, now.readOps), elapsed)
    && IsRate(io.writeIops, Growth(last.writeOps, now.writeOps), elapsed)
  }

  lemma RatedTells(last: DiskIoPrev, now: DiskIoPrev)
    requires now.at > last.at
    ensures AreRates(Rated(last, now), last.stats, now.stats, now.at - last.at)
  {
    hide IsRate, Rate;
    forall f
      ensures IsRate(Rate(Sample(last.at, Total(last.stats, f)), Sample(now.at, Total(now.stats, f))),
                    Growth(Total(last.stats, f), Total(now.stats, f)), now.at - last.at)
    {
      RateTells(Sample(last.at, Total(last.stats, f)), Sample(now.at, Total(now.stats, f)));
    }
    var a, b := last.stats, now.stats;
    assert Total(a, ReadBytes) == a.readBytes && Total(b, ReadBytes) == b.readBytes;
    assert Total(a, WriteBytes) == a.writeBytes && Total(b, WriteBytes) == b.writeBytes;
    assert Total(a, ReadOps) == a.readOps && Total(b, ReadOps) == b.readOps;
    assert Total(a, WriteOps) == a.writeOps && Total(b, WriteOps) == b.writeOps;
  }

  class DiskMeter {
    var prev: Option<DiskIoPrev>
    ghost var seen: seq<Option<DiskIoPrev>>

    /** The stored reading is the last that succeeded. */
    ghost predicate Valid()
      reads this
    {
      IsLatest(prev, seen)
    }

    constructor ()
      ensures Valid() && seen == []
    {
      prev, seen := None, [];
    }

    /** A failed read reports zeros and leaves the previous reading for the next one. */
    method CollectIo(stats: Option<DiskStats>, now: real) returns (io: DiskIo)
      requires Valid()
      modifies this
      ensures Valid()
      ensures seen == old(seen) + [if stats.None? then None else Some(DiskIoPrev(now, stats.value))]
      ensures io == LastIo(seen)
      ensures stats.None? ==> prev == old(prev) && io == DiskIo(0, 0, 0, 0)
      ensures stats.Some? ==> prev == Some(DiskIoPrev(now, stats.value))
      ensures stats.Some? && (old(prev).None? || now <= old(prev).value.at) ==> io == DiskIo(0, 0, 0, 0)
      ensures stats.Some? && old(prev).Some? && now > old(prev).value.at ==>
        AreRates(io, old(prev).value.stats, stats.value, now - old(prev).value.at)
    {
      hide AreRates, PerSecond;
      hide LastIo, IsLatest;
      ghost var reading := if stats.None? then None else Some(DiskIoPrev(now, stats.value));
      IoStep(seen, prev, reading);
      seen := seen + [reading];
      if stats.Some? && prev.Some? && now > prev.value.at { RatedTells(prev.value, reading.value); }
      if stats.None? {
        return DiskIo(0, 0, 0, 0);
      }
      var last := prev;
      prev := Some(DiskIoPrev(now, stats.value));
      if last.None? {
        return DiskIo(0, 0, 0, 0);
      }
      var elapsed := now - last.value.at;
      if elapsed <= 0.0 {
        return DiskIo(0, 0, 0, 0);
      }
      var a, b := last.value.stats, stats.value;
      io := DiskIo(
        PerSecond(b.readBytes, a.readBytes, elapsed),
        PerSecond(b.writeBytes, a.writeBytes, elapsed),
        PerSecond(b.readOps, a.readOps, elapsed),
        PerSecond(b.writeOps, a.writeOps, elapsed));
    }
  }
}
