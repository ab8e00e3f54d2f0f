/** From the host's process list, through the sampler's slots, to what a hub is told. */
module Pipeline {
  import opened Disks
  import opened HubSession
  import opened Options
  import opened Ranking
  import opened SamplerLoop
  import opened Snapshots
  import opened StreamingTopN
  import opened Units
  import C = CpuTable
  import F = Flatten
  import P = Processes
  import R = Rates

  /** The snapshot slot at the end of this run. */
  ghost predicate LoadedAt(boot: Loop, run: seq<Event>, snap: Snapshot) {
    var s := Exec(boot, run);
    LoopInv(s) && s.snapshot > 0 && snap == Published(s, s.snapshot)
  }

  /** Round `i` loads the slot after `at[i]` steps of the sampler's run. */
  ghost predicate Loads(boot: Loop, run: seq<Event>, rounds: seq<Round>, at: seq<nat>) {
    && |at| == |rounds|
    && (forall i, j :: 0 <= i < j < |at| ==> at[i] <= at[j])
    && forall i :: 0 <= i < |at| ==> at[i] <= |run| && LoadedAt(boot, run[..at[i]], rounds[i].snap)
  }

  /** The generation round `i` tells of. */
  ghost function Generation(boot: Loop, run: seq<Event>, at: seq<nat>, i: nat): nat
    requires i < |at| && at[i] <= |run|
  {
    Exec(boot, run[..at[i]]).snapshot
  }

  /** No round tells an older snapshot than a round before it. */
  lemma RoundsNeverGoBack(
      mounts: seq<Mount>, r: Reading, run: seq<Event>, rounds: seq<Round>, at: seq<nat>, i: nat, j: nat)
    requires Loads(Boot(mounts, r), run, rounds, at) && i < j < |at|
    ensures Generation(Boot(mounts, r), run, at, i) <= Generation(Boot(mounts, r), run, at, j)
  {
    hide Exec, Boot;
    SlotsNeverGoBack(mounts, r, run[..at[i]], run[at[i]..at[j]]);
    assert run[..at[i]] + run[at[i]..at[j]] == run[..at[j]];
  }

  // ----- the metrics, from the host's readings to the keys of the hub

  /** These bytes, cut at 2^41, to within half a hundredth of a GiB. */
  ghost predicate IsBytes(out: map<string, real>, key: string, bytes: nat) {
    key in out &&
    -5368710.0 <= out[key] - (if bytes <= 0x200_0000_0000 then bytes else 0x200_0000_0000) as real <= 5368710.0
  }

  ghost predicate Is(out: map<string, real>, key: string, value: real) {
    key in out && out[key] == value
  }

  /** Memory: what is used is what is not available. */
  ghost predicate MemoryTold(out: map<string, real>, now: Host) {
    var used := if now.available <= now.total then now.total - now.available else 0;
    && IsBytes(out, "mem.total_bytes", now.total) && IsBytes(out, "mem.used_bytes", used)
    && IsBytes(out, "mem.free_bytes", now.available)
    && "mem.percent" in out && Share100(out["mem.percent"], used, now.total)
  }

  ghost predicate CpuIsTold(out: map<string, real>, now: Host, freq: real) {
    && Is(out, "cpu.usage", now.cpu)
    && (if freq == 0.0 then "cpu.freq_mhz" !in out else Is(out, "cpu.freq_mhz", freq))
    && (match now.load
        case None => "cpu.load_1m" !in out && "cpu.load_5m" !in out && "cpu.load_15m" !in out
        case Some(l) =>
          Is(out, "cpu.load_1m", l.one) && Is(out, "cpu.load_5m", l.five) && Is(out, "cpu.load_15m", l.fifteen))
    && (if now.temp.None? || now.temp.value == 0.0 then "cpu.temp_c" !in out
        else Is(out, "cpu.temp_c", now.temp.value))
  }

  /** Each rate is the last of its own counter's readings. */
  ghost predicate RatesTold(out: map<string, real>, rs: seq<Reading>)
    requires rs != []
  {
    && Is(out, "net.rx_bytes_per_s", R.LastRate(RecvSeen(rs)) as real)
    && Is(out, "net.tx_bytes_per_s", R.LastRate(SentSeen(rs)) as real)
    && Is(out, "disk.io.read_bytes_per_s", R.LastRate(R.Counter(StatsSeen(rs), R.ReadBytes)) as real)
    && Is(out, "disk.io.write_bytes_per_s", R.LastRate(R.Counter(StatsSeen(rs), R.WriteBytes)) as real)
    && Is(out, "disk.io.read_iops", R.LastRate(R.Counter(StatsSeen(rs), R.ReadOps)) as real)
    && Is(out, "disk.io.write_iops", R.LastRate(R.Counter(StatsSeen(rs), R.WriteOps)) as real)
  }

  /** Total and used bytes of a mount, as statvfs answers or else as the mount table has them. */
  ghost predicate MountIsTold(out: map<string, real>, m: Mount, stats: map<string, Stat>) {
    if m.point in stats then
      var st := stats[m.point];
      var used := Capped((if st.free <= st.blocks then st.blocks - st.free else 0) * st.frsize);
      var free := Capped(st.available * st.frsize);
      && IsBytes(out, "disk.total_bytes|" + m.point, Capped(st.blocks * st.frsize))
      && IsBytes(out, "disk.used_bytes|" + m.point, used)
      && "disk.percent|" + m.point in out
      && Share100(out["disk.percent|" + m.point], used, (used + free) % 0x1_0000_0000_0000_0000)
    else
      var used := if m.available <= m.total then m.total - m.available else 0;
      && IsBytes(out, "disk.total_bytes|" + m.point, m.total)
      && IsBytes(out, "disk.used_bytes|" + m.point, used)
      && "disk.percent|" + m.point in out && Share100(out["disk.percent|" + m.point], used, m.total)
  }

  /** A mount the hub hears of: of a device, of a type that has one, and not left out. */
  ghost predicate Heard(m: Mount, nodev: set<string>) {
    m.device != "" && m.device[0] == '/' && m.fstype !in nodev && !F.LeftOut(m.point)
  }

  /** Each mount heard of is told by the last entry of the table with its mount point. */
  ghost predicate MountsTold(out: map<string, real>, mounts: seq<Mount>, now: Host) {
    forall i :: 0 <= i < |mounts| && Heard(mounts[i], now.nodev)
      && (forall k :: i < k < |mounts| && mounts[k].point == mounts[i].point ==> !Heard(mounts[k], now.nodev))
      ==> MountIsTold(out, mounts[i], now.usage)
  }

  /** All of it: the frequencies from the last scan, the mounts from the last rescan, the rest from now. */
  ghost predicate MetricsTell(out: map<string, real>, rs: seq<Reading>)
    requires rs != []
  {
    var now := rs[|rs| - 1].host;
    && MemoryTold(out, now) && RatesTold(out, rs)
    && (exists j :: LastScan(rs, j) && CpuIsTold(out, now, rs[j].scan.freq))
    && (exists j :: LastRescan(rs, j) && MountsTold(out, rs[j].host.mounts, now))
  }

  lemma BytesAre(out: map<string, real>, key: string, bytes: nat)
    requires F.Told(out, key, Some(GibToBytes(BytesToGib(bytes)) as real))
    ensures IsBytes(out, key, bytes)
  {
    hide GibToBytes, BytesToGib;
    BytesThroughGib(bytes);
  }

  lemma MemoryIsTold(snap: Snapshot, now: Host)
    requires snap.mem == CollectMem(now.total, now.available)
    ensures MemoryTold(F.Flat(snap), now)
  {
    hide F.Flat, GibToBytes, BytesToGib, IsBytes;
    var out, used := F.Flat(snap), SaturatingSub(now.total, now.available);
    F.MemIsTold(snap);
    BytesAre(out, "mem.total_bytes", now.total);
    BytesAre(out, "mem.used_bytes", used);
    BytesAre(out, "mem.free_bytes", now.available);
    MemTells(now.total, now.available);
  }

  lemma CpuAndRatesTold(snap: Snapshot, rs: seq<Reading>, freq: real)
    requires rs != [] && FromNow(snap, rs[|rs| - 1].host) && FromCounters(snap, rs) && snap.cpu.freq == freq
    ensures CpuIsTold(F.Flat(snap), rs[|rs| - 1].host, freq) && RatesTold(F.Flat(snap), rs)
  {
    hide F.Flat, R.LastRate, R.Counter, RecvSeen, SentSeen, StatsSeen, CollectMem;
    F.CpuIsTold(snap);
    F.IoIsTold(snap);
    F.NetIsTold(snap);
  }

  lemma MountTells(out: map<string, real>, m: Mount, stats: map<string, Stat>)
    requires F.MountTold(out, Disk(m.point, UsageOf(m, StatOf(stats, m.point)))) && !F.LeftOut(m.point)
    ensures MountIsTold(out, m, stats)
  {
    hide IsBytes, Share100, F.LeftOut, BytesToGib, GibToBytes, Percent;
    if m.point in stats {
      var st := stats[m.point];
      StatTells(m, st);
      BytesAre(out, "disk.total_bytes|" + m.point, SaturatingMul(st.blocks, st.frsize));
      BytesAre(out, "disk.used_bytes|" + m.point, UsedBytes(st));
    } else {
      FallbackTells(m);
      BytesAre(out, "disk.total_bytes|" + m.point, m.total);
      BytesAre(out, "disk.used_bytes|" + m.point, SaturatingSub(m.total, m.available));
    }
  }

  /** The entry of the disk list a mount makes, and that none after it has its mount point. */
  lemma MountIsLastDisk(mounts: seq<Mount>, i: nat, nodev: set<string>, stats: map<string, Stat>) returns (k: nat)
    requires i < |mounts| && Heard(mounts[i], nodev)
    requires forall j :: i < j < |mounts| && mounts[j].point == mounts[i].point ==> !Heard(mounts[j], nodev)
    ensures var disks := CollectAll(mounts, nodev, stats);
            && F.LastDisk(disks, k)
            && disks[k] == Disk(mounts[i].point, UsageOf(mounts[i], StatOf(stats, mounts[i].point)))
  {
    hide UsageOf;
    var a, m, b := mounts[..i], mounts[i], mounts[i + 1..];
    assert mounts == a + [m] + b;
    DisksInOrder(a, m, b, nodev, stats);
    var before, after := CollectAll(a, nodev, stats), CollectAll(b, nodev, stats);
    var disks := CollectAll(mounts, nodev, stats);
    k := |before|;
    assert disks == before + [disks[k]] + after;
    forall j | k < j < |disks| ensures disks[j].mount != m.point {
      assert disks[j] == after[j - k - 1];
      ShowsPhysical(b, nodev, stats, disks[j]);
    }
  }

  lemma MountsAreTold(snap: Snapshot, mounts: seq<Mount>, now: Host)
    requires snap.disks == CollectAll(mounts, now.nodev, now.usage)
    ensures MountsTold(F.Flat(snap), mounts, now)
  {
    hide F.Flat, UsageOf, StatOf, MountIsTold, CollectAll;
    forall i | 0 <= i < |mounts| && Heard(mounts[i], now.nodev)
               && (forall k :: i < k < |mounts| && mounts[k].point == mounts[i].point ==> !Heard(mounts[k], now.nodev))
      ensures MountIsTold(F.Flat(snap), mounts[i], now.usage)
    {
      var k := MountIsLastDisk(mounts, i, now.nodev, now.usage);
      F.MountIsTold(snap, k);
      MountTells(F.Flat(snap), mounts[i], now.usage);
    }
  }

  /** Whatever snapshot is fresh, its metrics tell the host's own readings, key by key. */
  lemma FreshMetrics(snap: Snapshot, rs: seq<Reading>)
    requires rs != [] && IsFresh(snap, rs)
    ensures MetricsTell(F.Flat(snap), rs)
  {
    hide F.Flat, MemoryTold, RatesTold, CpuIsTold, MountsTold, FromCounters, ScanDue, RescanDue;
    hide CollectMem, CollectRoot, CollectAll;
    var now := rs[|rs| - 1].host;
    var j :| LastScan(rs, j) && FromScan(snap, rs[j].scan);
    var k :| LastRescan(rs, k) && FromMounts(snap, rs[k].host.mounts, now);
    MemoryIsTold(snap, now);
    CpuAndRatesTold(snap, rs, rs[j].scan.freq);
    MountsAreTold(snap, rs[k].host.mounts, now);
  }

  // ----- the process tables, from the process list to the frames

  /** The frame shows the memory table collected from this host, a true top ten if PSS stays within RSS. */
  ghost predicate TellsTop(f: Frame, h: Host) {
    && f.Processes? && f.metric == (if h.meter.Pss? then "pss" else "rss")
    && exists order, read, rows ::
         && P.Collected(h.procs, h.meter, order, read, rows)
         && |f.items| == |rows| && (forall i :: 0 <= i < |rows| ==> Shows(f.items[i], rows[i]))
         && (P.IsProcessTable(h.procs) && (h.meter.Pss? ==> P.PssWithinRss(h.procs, h.meter.kb)) ==>
               P.IsTopTen(h.procs, h.meter, rows) && P.TableTells(h.procs, h.meter, rows))
  }

  /** The frame shows the CPU table collected from this host, a true top ten if no pid is zero. */
  ghost predicate TellsTopCpu(f: Frame, h: Host) {
    && f.ProcessesCpu?
    && exists order, rows ::
         && C.Collected(h.procs, order, rows)
         && |f.cpuItems| == |rows| && (forall i :: 0 <= i < |rows| ==> ShowsCpu(f.cpuItems[i], rows[i]))
         && ((forall p :: p in h.procs ==> p.pid != 0) ==>
               C.IsTopTen(h.procs, rows) && C.TableTells(h.procs, rows))
  }

  lemma FrameTellsTop(f: Frame, snap: Snapshot, ts: int, h: Host, scan: Scan)
    requires Tells(f, snap, ts) && FromScan(snap, scan) && IsScan(h, scan) && f.Processes?
    ensures TellsTop(f, h)
  {
    hide P.Collected, P.IsTopTen, P.TableTells, P.IsProcessTable, P.PssWithinRss, Shows;
    var order, read :| P.Collected(h.procs, h.meter, order, read, scan.processes);
    P.CollectedSize(h.procs, h.meter, order, read, scan.processes);
    if P.IsProcessTable(h.procs) { P.CollectedRanks(h.procs, h.meter, order, read, scan.processes); }
    if P.IsTopTen(h.procs, h.meter, scan.processes) { P.TopTenTells(h.procs, h.meter, scan.processes); }
  }

  lemma FrameTellsTopCpu(f: Frame, snap: Snapshot, ts: int, h: Host, scan: Scan)
    requires Tells(f, snap, ts) && FromScan(snap, scan) && IsScan(h, scan) && f.ProcessesCpu?
    ensures TellsTopCpu(f, h)
  {
    hide P.Collected, C.IsTopTen, C.TableTells, ShowsCpu;
    var order :| C.Collected(h.procs, order, scan.byCpu);
    if forall p :: p in h.procs ==> p.pid != 0 {
      C.TopTenMeaning(h.procs, order);
      C.TopTenTells(h.procs, scan.byCpu);
    }
  }

  /**
   What a frame tells is fresh: metrics are the host's readings, and a process table is that of the
   host last scanned, at most 4 refreshes before.
   */
  ghost predicate Truthful(f: Frame, snap: Snapshot, rs: seq<Reading>) {
    && rs != [] && IsFresh(snap, rs)
    && (f.Samples? ==> MetricsTell(f.metrics, rs))
    && (f.Processes? || f.ProcessesCpu? ==>
          exists j :: LastScan(rs, j) && (TellsTop(f, rs[j].host) || TellsTopCpu(f, rs[j].host)))
  }

  lemma FreshFrame(f: Frame, snap: Snapshot, ts: int, rs: seq<Reading>)
    requires Tells(f, snap, ts) && rs != [] && IsFresh(snap, rs) && Genuine(rs)
    ensures Truthful(f, snap, rs)
  {
    hide Tells, MetricsTell, TellsTop, TellsTopCpu, IsFresh, Genuine, LastScan;
    if f.Samples? {
      SamplesAre(f, snap, ts);
      FreshMetrics(snap, rs);
    }
    if f.Processes? || f.ProcessesCpu? { FreshTable(f, snap, ts, rs); }
  }

  lemma FreshTable(f: Frame, snap: Snapshot, ts: int, rs: seq<Reading>)
    requires Tells(f, snap, ts) && rs != [] && IsFresh(snap, rs) && Genuine(rs) && (f.Processes? || f.ProcessesCpu?)
    ensures exists j :: LastScan(rs, j) && (TellsTop(f, rs[j].host) || TellsTopCpu(f, rs[j].host))
  {
    hide Tells, FromScan, FromMounts, FromNow, FromCounters, ScanDue, RescanDue, IsScan, TellsTop, TellsTopCpu;
    var j :| LastScan(rs, j) && FromScan(snap, rs[j].scan);
    if f.Processes? {
      FrameTellsTop(f, snap, ts, rs[j].host, rs[j].scan);
    } else {
      FrameTellsTopCpu(f, snap, ts, rs[j].host, rs[j].scan);
    }
  }

  lemma SamplesAre(f: Frame, snap: Snapshot, ts: int)
    requires Tells(f, snap, ts)
    ensures f.Samples? ==> f.metrics == F.Flat(snap)
  {
  }

  /**
   End to end: while a sampler runs, through failed ticks and rebuilt states, every frame a hub gets
   after the hello tells the generation its round loaded: the readings of its last refresh, key by
   key, disks of the last mount table, at most 59 refreshes old, and the process tables of the last
   scan, at most 4 old.
   */
  lemma HubIsToldTheTruth(
      mounts: seq<Mount>, r: Reading, run: seq<Event>, hello: Frame, rounds: seq<Round>, at: seq<nat>,
      sent: seq<Frame>, k: nat) returns (i: nat, g: nat)
    requires AllGenuine(Exec(Boot(mounts, r), run)) && Loads(Boot(mounts, r), run, rounds, at)
    requires sent <= [hello] + Blocks(rounds) && 0 < k < |sent|
    ensures i < |rounds| && g == Generation(Boot(mounts, r), run, at, i)
    ensures Tells(sent[k], rounds[i].snap, rounds[i].ts)
    ensures 0 < g <= |Exec(Boot(mounts, r), run).made|
    ensures Truthful(sent[k], rounds[i].snap, Exec(Boot(mounts, r), run).made[g - 1].rs)
  {
    hide Exec, Boot, Tells, Truthful, IsFresh, Genuine, Blocks;
    i := SentTellsSnapshots(hello, rounds, sent, k);
    var before, later := run[..at[i]], run[at[i]..];
    g := Generation(Boot(mounts, r), run, at, i);
    assert before + later == run;
    LoopRuns(mounts, r, before);
    SlotsNeverGoBack(mounts, r, before, later);
    PublishedIsFresh(mounts, r, before, g);
    FreshFrame(sent[k], rounds[i].snap, rounds[i].ts, Exec(Boot(mounts, r), run).made[g - 1].rs);
  }
}
