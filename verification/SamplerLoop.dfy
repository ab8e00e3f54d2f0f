/** The sampler: slow cadences over a wrapping tick, and the four slots published after each refresh. */
module SamplerLoop {
  import opened Disks
  import opened Options
  import opened Ranking
  import opened Rates
  import opened Snapshots
  import opened Units
  import C = CpuTable
  import P = Processes

  const PROCESS_SCAN_EVERY: nat := 5
  const DISK_LIST_REFRESH_EVERY: nat := 60
  const TICKS: nat := 0x1_0000_0000_0000_0000

  /** What the host would answer at one refresh, with the moments the counters were read at. */
  datatype Host = Host(
    procs: seq<P.Proc>, meter: P.Meter, freq: real,
    mounts: seq<Mount>, nodev: set<string>, usage: map<string, Stat>,
    cpu: real, temp: Option<real>, load: Option<Load>, total: nat, available: nat,
    ifaces: seq<Iface>, netAt: real, diskStats: Option<DiskStats>, statsAt: real, other: int)

  /** What one scan refreshes together: the process fields and the core frequencies. */
  datatype Scan = Scan(processes: seq<Row>, metric: string, byCpu: seq<Row>, freq: real)

  /** A host with the tables a scan of it yields; hash order makes them more than one. */
  datatype Reading = Reading(host: Host, scan: Scan)

  function Label(meter: P.Meter): string {
    if meter.Pss? then "pss" else "rss"
  }

  ghost predicate IsScan(h: Host, s: Scan) {
    && (exists order, read :: P.Collected(h.procs, h.meter, order, read, s.processes))
    && (exists order :: C.Collected(h.procs, order, s.byCpu))
    && s.metric == (if h.meter.Pss? then "pss" else "rss") && s.freq == h.freq
  }

  /** The k-th refresh of a state, from zero, scans the processes: every fifth, as the 64-bit tick counts. */
  predicate ScanDue(k: nat) {
    k % 0x1_0000_0000_0000_0000 % 5 == 0
  }

  /** And rescans the mount table every sixtieth. */
  predicate RescanDue(k: nat) {
    k % 0x1_0000_0000_0000_0000 % 60 == 0
  }

  /** Whenever a scan was due, the reading holds the tables of that scan. */
  ghost predicate Genuine(rs: seq<Reading>) {
    forall k :: 0 <= k < |rs| && ScanDue(k) ==> IsScan(rs[k].host, rs[k].scan)
  }

  datatype Core = Core(tick: nat, scan: Scan, mounts: seq<Mount>)

  const NoScan := Scan([], "rss", [], 0.0)

  /** State after refreshing on each reading in turn, from a fresh state. */
  function After(mounts: seq<Mount>, rs: seq<Reading>): Core {
    if rs == [] then Core(0, NoScan, mounts)
    else Refreshed(After(mounts, rs[..|rs| - 1]), rs[|rs| - 1])
  }

  function Refreshed(s: Core, r: Reading): Core {
    Core((s.tick + 1) % TICKS,
         if s.tick == 0 || s.tick % PROCESS_SCAN_EVERY == 0 then r.scan else s.scan,
         if s.tick == 0 || s.tick % DISK_LIST_REFRESH_EVERY == 0 then r.host.mounts else s.mounts)
  }

  /** One more refresh, with the wrap of the tick spelt out. */
  lemma AfterStep(mounts: seq<Mount>, rs: seq<Reading>, r: Reading)
    ensures var s, t := After(mounts, rs), After(mounts, rs + [r]);
            && t.tick == (if s.tick == TICKS - 1 then 0 else s.tick + 1)
            && t.scan == (if s.tick == 0 || s.tick % PROCESS_SCAN_EVERY == 0 then r.scan else s.scan)
            && t.mounts == if s.tick == 0 || s.tick % DISK_LIST_REFRESH_EVERY == 0 then r.host.mounts else s.mounts
  {
    assert (rs + [r])[..|rs|] == rs;
    TickCounts(mounts, rs);
    WrapOnce(|rs| % TICKS);
  }

  lemma WrapOnce(tick: nat)
    requires tick < TICKS
    ensures (tick + 1) % TICKS == if tick == TICKS - 1 then 0 else tick + 1
  {
  }

  /** The interface and disk counters as this state has seen them. */
  function RecvSeen(rs: seq<Reading>): (seen: seq<Option<Sample>>)
    ensures |seen| == |rs|
  {
    seq(|rs|, i requires 0 <= i < |rs| => Some(Sample(rs[i].host.netAt, Min(Received(rs[i].host.ifaces), U64_MAX))))
  }

  function SentSeen(rs: seq<Reading>): (seen: seq<Option<Sample>>)
    ensures |seen| == |rs|
  {
    seq(|rs|, i requires 0 <= i < |rs| => Some(Sample(rs[i].host.netAt, Min(Sent(rs[i].host.ifaces), U64_MAX))))
  }

  function StatsOf(r: Reading): Option<DiskIoPrev> {
    if r.host.diskStats.None? then None else Some(DiskIoPrev(r.host.statsAt, r.host.diskStats.value))
  }

  function StatsSeen(rs: seq<Reading>): (seen: seq<Option<DiskIoPrev>>)
    ensures |seen| == |rs|
  {
    seq(|rs|, i requires 0 <= i < |rs| => StatsOf(rs[i]))
  }

  /** The snapshot built by the last of these refreshes. */
  function Built(mounts: seq<Mount>, rs: seq<Reading>): Snapshot
    requires rs != []
  {
    var s, h := After(mounts, rs), rs[|rs| - 1].host;
    Snapshot(
      Cpu(h.cpu, h.temp, s.scan.freq, h.load), CollectMem(h.total, h.available),
      CollectRoot(s.mounts, h.usage), CollectAll(s.mounts, h.nodev, h.usage),
      LastIo(StatsSeen(rs)), Throughput(LastRate(RecvSeen(rs)), LastRate(SentSeen(rs))),
      s.scan.processes, s.scan.metric, s.scan.byCpu, h.ifaces, h.other)
  }

  lemma SeenStep(rs: seq<Reading>, r: Reading)
    ensures RecvSeen(rs + [r]) == RecvSeen(rs) + [Some(Sample(r.host.netAt, Min(Received(r.host.ifaces), U64_MAX)))]
    ensures SentSeen(rs + [r]) == SentSeen(rs) + [Some(Sample(r.host.netAt, Min(Sent(r.host.ifaces), U64_MAX)))]
    ensures StatsSeen(rs + [r]) == StatsSeen(rs) + [StatsOf(r)]
  {
    hide Received, Sent;
  }

  /** How many refreshes ago a cadence last fell due. */
  function Age(refreshes: nat, every: nat): (age: nat)
    requires refreshes > 0 && every > 0
    ensures age < every
  {
    (refreshes - 1) % TICKS % every
  }

  lemma NextTick(n: nat)
    requires n > 0
    ensures n % TICKS == if (n - 1) % TICKS == TICKS - 1 then 0 else (n - 1) % TICKS + 1
  {
  }

  lemma NextResidue(p: nat, every: nat)
    requires every == PROCESS_SCAN_EVERY || every == DISK_LIST_REFRESH_EVERY
    ensures p % every <= p
    ensures (p + 1) % every == 0 || (p + 1) % every == p % every + 1
  {
  }

  lemma TickAtMost(n: nat)
    ensures n % TICKS <= n
  {
  }

  lemma AgeStep(n: nat, every: nat)
    requires n > 0 && (every == PROCESS_SCAN_EVERY || every == DISK_LIST_REFRESH_EVERY)
    ensures Age(n + 1, every) == if n % TICKS % every == 0 then 0 else Age(n, every) + 1
    ensures Age(n, every) < n
  {
    var p := (n - 1) % TICKS;
    NextTick(n);
    TickAtMost(n - 1);
    NextResidue(p, every);
  }

  lemma TickAdd(n: nat)
    ensures (n % TICKS + 1) % TICKS == (n + 1) % TICKS
  {
    NextTick(n + 1);
  }

  lemma {:induction false} TickCounts(mounts: seq<Mount>, rs: seq<Reading>)
    ensures After(mounts, rs).tick == |rs| % TICKS
  {
    if rs != [] {
      TickCounts(mounts, rs[..|rs| - 1]);
      TickAdd(|rs| - 1);
    }
  }

  lemma {:induction false} ScanAge(mounts: seq<Mount>, rs: seq<Reading>)
    requires rs != []
    ensures var j := |rs| - 1 - Age(|rs|, PROCESS_SCAN_EVERY);
            && 0 <= j && ScanDue(j) && After(mounts, rs).scan == rs[j].scan
            && forall k :: j < k < |rs| ==> !ScanDue(k)
  {
    var front := rs[..|rs| - 1];
    TickCounts(mounts, front);
    if front != [] {
      ScanAge(mounts, front);
      AgeStep(|front|, PROCESS_SCAN_EVERY);
    }
  }

  lemma {:induction false} MountsAge(mounts: seq<Mount>, rs: seq<Reading>)
    requires rs != []
    ensures var j := |rs| - 1 - Age(|rs|, DISK_LIST_REFRESH_EVERY);
            && 0 <= j && RescanDue(j) && After(mounts, rs).mounts == rs[j].host.mounts
            && forall k :: j < k < |rs| ==> !RescanDue(k)
  {
    var front := rs[..|rs| - 1];
    TickCounts(mounts, front);
    if front != [] {
      MountsAge(mounts, front);
      AgeStep(|front|, DISK_LIST_REFRESH_EVERY);
    }
  }

  /** The snapshot's process fields and frequencies are those of this scan. */
  predicate FromScan(snap: Snapshot, scan: Scan) {
    && snap.processes == scan.processes && snap.processesMetric == scan.metric && snap.byCpu == scan.byCpu
    && snap.cpu.freq == scan.freq
  }

  /** Its disks are those of this mount table, as full as they are now. */
  predicate FromMounts(snap: Snapshot, mounts: seq<Mount>, now: Host) {
    snap.root == CollectRoot(mounts, now.usage) && snap.disks == CollectAll(mounts, now.nodev, now.usage)
  }

  /** What is read at every refresh. */
  predicate FromNow(snap: Snapshot, now: Host) {
    && snap.cpu.usage == now.cpu && snap.cpu.temp == now.temp && snap.cpu.load == now.load
    && snap.mem == CollectMem(now.total, now.available) && snap.ifaces == now.ifaces && snap.other == now.other
  }

  /** Every rate is that of its own counter, over the readings this state has made. */
  ghost predicate FromCounters(snap: Snapshot, rs: seq<Reading>)
    requires rs != []
  {
    && snap.network.rx == LastRate(RecvSeen(rs)) && snap.network.tx == LastRate(SentSeen(rs))
    && snap.diskIo.readBytesPerSec == LastRate(Counter(StatsSeen(rs), ReadBytes))
    && snap.diskIo.writeBytesPerSec == LastRate(Counter(StatsSeen(rs), WriteBytes))
    && snap.diskIo.readIops == LastRate(Counter(StatsSeen(rs), ReadOps))
    && snap.diskIo.writeIops == LastRate(Counter(StatsSeen(rs), WriteOps))
  }

  /** Refresh `j` scanned, and none has since; it is at most 4 refreshes old. */
  ghost predicate LastScan(rs: seq<Reading>, j: int) {
    0 <= j && |rs| - 5 <= j < |rs| && ScanDue(j) && forall k :: j < k < |rs| ==> !ScanDue(k)
  }

  /** Refresh `j` reread the mount table, and none has since; it is at most 59 refreshes old. */
  ghost predicate LastRescan(rs: seq<Reading>, j: int) {
    0 <= j && |rs| - 60 <= j < |rs| && RescanDue(j) && forall k :: j < k < |rs| ==> !RescanDue(k)
  }

  /** The process fields from the last scan, the disks from the last mount table, the rest from the last refresh. */
  ghost predicate IsFresh(snap: Snapshot, rs: seq<Reading>)
    requires rs != []
  {
    var now := rs[|rs| - 1].host;
    && (exists j :: LastScan(rs, j) && FromScan(snap, rs[j].scan))
    && (exists j :: LastRescan(rs, j) && FromMounts(snap, rs[j].host.mounts, now))
    && FromNow(snap, now) && FromCounters(snap, rs)
  }

  lemma BuiltFromCounters(mounts: seq<Mount>, rs: seq<Reading>)
    requires rs != []
    ensures FromCounters(Built(mounts, rs), rs)
  {
    hide After, LastRate, Counter, RecvSeen, SentSeen, StatsSeen, CollectMem, CollectRoot, CollectAll;
  }

  /** However long the state has run, wrap of the tick included. */
  lemma SnapshotIsFresh(mounts: seq<Mount>, rs: seq<Reading>)
    requires rs != []
    ensures IsFresh(Built(mounts, rs), rs)
  {
    hide Built, FromScan, FromMounts, FromNow, FromCounters;
    BuiltFromCounters(mounts, rs);
    BuiltFromCore(mounts, rs);
    ScanAge(mounts, rs);
    MountsAge(mounts, rs);
    hide ScanDue, RescanDue, After;
    assert LastScan(rs, |rs| - 1 - Age(|rs|, PROCESS_SCAN_EVERY));
    assert LastRescan(rs, |rs| - 1 - Age(|rs|, DISK_LIST_REFRESH_EVERY));
  }

  lemma BuiltFromCore(mounts: seq<Mount>, rs: seq<Reading>)
    requires rs != []
    ensures FromScan(Built(mounts, rs), After(mounts, rs).scan)
    ensures FromMounts(Built(mounts, rs), After(mounts, rs).mounts, rs[|rs| - 1].host)
    ensures FromNow(Built(mounts, rs), rs[|rs| - 1].host)
  {
    hide After, LastRate, LastIo, RecvSeen, SentSeen, StatsSeen, CollectMem, CollectRoot, CollectAll;
  }

  // ----- the rates a state publishes

  datatype Direction = Incoming | Outgoing

  function NetSeen(rs: seq<Reading>, d: Direction): seq<Option<Sample>> {
    if d.Incoming? then RecvSeen(rs) else SentSeen(rs)
  }

  function NetFigure(net: Throughput, d: Direction): nat {
    if d.Incoming? then net.rx else net.tx
  }

  /** What the published network rates say went through: each times the time it stands for. */
  function NetAsShown(mounts: seq<Mount>, rs: seq<Reading>, d: Direction): real {
    if rs == [] then 0.0
    else NetAsShown(mounts, rs[..|rs| - 1], d)
         + Moved(NetFigure(Built(mounts, rs).network, d), LastElapsed(NetSeen(rs, d)))
  }

  function DiskFigure(io: DiskIo, f: Field): nat {
    match f
    case ReadBytes => io.readBytesPerSec
    case WriteBytes => io.writeBytesPerSec
    case ReadOps => io.readIops
    case WriteOps => io.writeIops
  }

  function DiskAsShown(mounts: seq<Mount>, rs: seq<Reading>, f: Field): real {
    if rs == [] then 0.0
    else DiskAsShown(mounts, rs[..|rs| - 1], f)
         + Moved(DiskFigure(Built(mounts, rs).diskIo, f), LastElapsed(Counter(StatsSeen(rs), f)))
  }

  /** Each published figure is the last rate of its counter's history. */
  lemma FiguresAreRates(mounts: seq<Mount>, rs: seq<Reading>, d: Direction, f: Field)
    requires rs != []
    ensures NetFigure(Built(mounts, rs).network, d) == LastRate(NetSeen(rs, d))
    ensures DiskFigure(Built(mounts, rs).diskIo, f) == LastRate(Counter(StatsSeen(rs), f))
  {
    hide Counter, RecvSeen, SentSeen, StatsSeen, LastRate, After, CollectMem, CollectRoot, CollectAll;
  }

  lemma {:induction false} NetShownIsReported(mounts: seq<Mount>, rs: seq<Reading>, d: Direction)
    ensures NetAsShown(mounts, rs, d) == Reported(NetSeen(rs, d))
  {
    hide Built, NetFigure, LastRate, LastElapsed;
    if rs != [] {
      NetShownIsReported(mounts, rs[..|rs| - 1], d);
      assert NetSeen(rs, d)[..|rs| - 1] == NetSeen(rs[..|rs| - 1], d);
      FiguresAreRates(mounts, rs, d, ReadBytes);
    }
  }

  lemma {:induction false} DiskShownIsReported(mounts: seq<Mount>, rs: seq<Reading>, f: Field)
    ensures DiskAsShown(mounts, rs, f) == Reported(Counter(StatsSeen(rs), f))
  {
    hide Built, DiskFigure, LastRate, LastElapsed;
    if rs != [] {
      DiskShownIsReported(mounts, rs[..|rs| - 1], f);
      assert Counter(StatsSeen(rs), f)[..|rs| - 1] == Counter(StatsSeen(rs[..|rs| - 1]), f);
      FiguresAreRates(mounts, rs, Incoming, f);
    }
  }

  /**
   Through the whole sampler: what a state publishes, refresh by refresh, adds up to the growth of
   the counters it read, to within half a unit a second and what a u64 rate cannot hold.
   */
  lemma PublishedRatesTrack(mounts: seq<Mount>, rs: seq<Reading>, d: Direction, f: Field)
    ensures var seen := NetSeen(rs, d);
            var error := NetAsShown(mounts, rs, d) + Clipped(seen) - Grew(seen) as real;
            -0.5 * Elapsed(seen) <= error <= 0.5 * Elapsed(seen)
    ensures var seen := Counter(StatsSeen(rs), f);
            var error := DiskAsShown(mounts, rs, f) + Clipped(seen) - Grew(seen) as real;
            -0.5 * Elapsed(seen) <= error <= 0.5 * Elapsed(seen)
  {
    hide Clipped, Grew, Elapsed, Reported;
    NetShownIsReported(mounts, rs, d);
    DiskShownIsReported(mounts, rs, f);
    RatesTrackGrowth(NetSeen(rs, d));
    RatesTrackGrowth(Counter(StatsSeen(rs), f));
  }

  // ----- the loop and its slots

  datatype Pc = Sleeping | Refreshing | ToHttp | ToWs | ToNetwork | ToSnapshot | Stopped

  /** A state of the collector with the readings it was refreshed on since it was built. */
  datatype Life = Life(mounts: seq<Mount>, rs: seq<Reading>)

  /**
   `held` is the loop's `state`, `lent` the state moved into the blocking closure. `made[g - 1]`
   is the life whose last refresh built generation `g`; each slot holds a generation, 0 being the
   placeholder it was created with.
   */
  datatype Loop = Loop(
    pc: Pc, held: Option<Life>, lent: Option<Life>, made: seq<Life>,
    http: nat, ws: nat, network: nat, snapshot: nat)

  datatype Event =
    | Wake
    | Joined(r: Reading)
    | JoinFailed(mounts: seq<Mount>)
    | Store(encoded: bool)
    | Halt

  /** `start` up to the first store: a fresh state, refreshed once. */
  function Boot(mounts: seq<Mount>, r: Reading): Loop {
    var life := Life(mounts, [r]);
    Loop(ToHttp, Some(life), None, [life], 0, 0, 0, 0)
  }

  /** One atomic step; an event that does not apply changes nothing. */
  function Step(s: Loop, e: Event): Loop {
    match e
    case Wake =>
      if s.pc != Sleeping then s else s.(pc := Refreshing, lent := s.held, held := None)
    case Joined(r) =>
      if s.pc != Refreshing || s.lent.None? then s
      else
        var life := Life(s.lent.value.mounts, s.lent.value.rs + [r]);
        s.(pc := ToHttp, held := Some(life), lent := None, made := s.made + [life])
    case JoinFailed(mounts) =>
      if s.pc != Refreshing then s else s.(pc := Sleeping, held := Some(Life(mounts, [])), lent := None)
    case Store(encoded) =>
      var g := |s.made|;
      (match s.pc
       case ToHttp => s.(pc := ToWs, http := if encoded then g else s.http)
       case ToWs => s.(pc := ToNetwork, ws := if encoded then g else s.ws)
       case ToNetwork => s.(pc := ToSnapshot, network := if encoded then g else s.network)
       case ToSnapshot => s.(pc := Sleeping, snapshot := g)
       case _ => s)
    case Halt =>
      if s.pc == Sleeping || s.pc == Refreshing then s.(pc := Stopped) else s
  }

  function Exec(boot: Loop, run: seq<Event>): Loop {
    if run == [] then boot else Step(Exec(boot, run[..|run| - 1]), run[|run| - 1])
  }

  lemma ExecStep(boot: Loop, run: seq<Event>, e: Event)
    ensures Exec(boot, run + [e]) == Step(Exec(boot, run), e)
  {
    assert (run + [e])[..|run|] == run;
  }

  predicate Suspended(s: Loop) {
    s.pc == Sleeping || s.pc == Refreshing || s.pc == Stopped
  }

  ghost predicate LoopInv(s: Loop) {
    && (s.held.Some? <==> s.lent.None?)
    && (s.pc == Sleeping ==> s.held.Some?)
    && (s.pc == Refreshing ==> s.lent.Some?)
    && (!Suspended(s) ==> s.held.Some?)
    && |s.made| > 0
    && (forall g :: 0 <= g < |s.made| ==> s.made[g].rs != [])
    && (!Suspended(s) ==> s.held.value == s.made[|s.made| - 1])
    && s.http <= |s.made| && s.ws <= |s.made| && s.network <= |s.made| && s.snapshot <= |s.made|
    && s.snapshot == |s.made| - if Suspended(s) then 0 else 1
  }

  lemma StepKeepsInv(s: Loop, e: Event)
    requires LoopInv(s)
    ensures LoopInv(Step(s, e))
  {
  }

  lemma {:induction false} LoopRuns(mounts: seq<Mount>, r: Reading, run: seq<Event>)
    ensures LoopInv(Exec(Boot(mounts, r), run))
  {
    if run != [] {
      hide LoopInv, Step;
      LoopRuns(mounts, r, run[..|run| - 1]);
      StepKeepsInv(Exec(Boot(mounts, r), run[..|run| - 1]), run[|run| - 1]);
    }
  }

  /** `expect("sampler state always restored")` never fires. */
  lemma StatePresentWhenTaken(mounts: seq<Mount>, r: Reading, run: seq<Event>)
    requires Exec(Boot(mounts, r), run).pc == Sleeping
    ensures Exec(Boot(mounts, r), run).held.Some?
  {
    LoopRuns(mounts, r, run);
  }

  /** Where each slot is stored, in the order of the stores. */
  function Turn(pc: Pc): nat {
    match pc
    case ToHttp => 0
    case ToWs => 1
    case ToNetwork => 2
    case ToSnapshot => 3
    case _ => 4
  }

  predicate IsBuffer(place: Pc) {
    place == ToHttp || place == ToWs || place == ToNetwork
  }

  function Slot(s: Loop, place: Pc): nat {
    match place
    case ToHttp => s.http
    case ToWs => s.ws
    case ToNetwork => s.network
    case _ => s.snapshot
  }

  /** The generation a slot holds if its stores go through: the newest, or the one before its turn. */
  function Due(s: Loop, place: Pc): int {
    |s.made| - if Turn(s.pc) <= Turn(place) then 1 else 0
  }

  /** The last store to `place` in the run, or -1. */
  function LastStore(boot: Loop, run: seq<Event>, place: Pc): (i: int)
    ensures -1 <= i < |run| && (i >= 0 ==> run[i].Store?)
  {
    if run == [] then -1
    else if run[|run| - 1].Store? && Exec(boot, run[..|run| - 1]).pc == place then |run| - 1
    else LastStore(boot, run[..|run| - 1], place)
  }

  /** The newest view for this slot, if there was any, was encoded. */
  predicate Encoded(boot: Loop, run: seq<Event>, place: Pc) {
    var i := LastStore(boot, run, place);
    i == -1 || run[i].encoded
  }

  ghost predicate Lags(boot: Loop, run: seq<Event>, place: Pc) {
    var s := Exec(boot, run);
    Slot(s, place) <= Due(s, place) && (Slot(s, place) == Due(s, place) <==> Encoded(boot, run, place))
  }

  lemma SlotStep(s: Loop, e: Event, place: Pc)
    requires LoopInv(s) && IsBuffer(place) && Slot(s, place) <= Due(s, place)
    ensures var t := Step(s, e);
            if e.Store? && s.pc == place
            then Slot(s, place) < Due(t, place)
                 && Slot(t, place) == if e.encoded then Due(t, place) else Slot(s, place)
            else Slot(t, place) == Slot(s, place) && Due(t, place) == Due(s, place)
  {
  }

  lemma LagStep(boot: Loop, run: seq<Event>, place: Pc)
    requires run != [] && IsBuffer(place) && LoopInv(Exec(boot, run[..|run| - 1]))
    requires Lags(boot, run[..|run| - 1], place)
    ensures Lags(boot, run, place)
  {
    hide Exec, Step, LoopInv, Slot, Due;
    var front, e := run[..|run| - 1], run[|run| - 1];
    assert run == front + [e];
    ExecStep(boot, front, e);
    SlotStep(Exec(boot, front), e, place);
  }

  /** A buffer never runs ahead, and is behind exactly while its newest view failed to encode. */
  lemma {:induction false} BufferLags(mounts: seq<Mount>, r: Reading, run: seq<Event>, place: Pc)
    requires IsBuffer(place)
    ensures Lags(Boot(mounts, r), run, place)
  {
    if run != [] {
      LoopRuns(mounts, r, run[..|run| - 1]);
      BufferLags(mounts, r, run[..|run| - 1], place);
      LagStep(Boot(mounts, r), run, place);
    }
  }

  ghost predicate AllEncoded(boot: Loop, run: seq<Event>) {
    forall place :: IsBuffer(place) ==> Encoded(boot, run, place)
  }

  /**
   The snapshot slot is never behind its turn. If the newest view of each buffer was encoded then
   http >= ws >= network >= snapshot >= http - 1; and while the task is suspended (where it can be
   stopped or aborted) all four slots hold the same generation exactly in that case.
   */
  lemma SlotsAgree(mounts: seq<Mount>, r: Reading, run: seq<Event>)
    ensures var boot := Boot(mounts, r);
            var s := Exec(boot, run);
            && s.snapshot == Due(s, ToSnapshot)
            && (AllEncoded(boot, run) ==> s.http >= s.ws >= s.network >= s.snapshot >= s.http - 1)
            && (Suspended(s) ==> s.snapshot == |s.made|)
            && (Suspended(s) ==> (AllEncoded(boot, run) <==> s.http == s.ws == s.network == s.snapshot))
  {
    hide Exec, Encoded, Boot;
    LoopRuns(mounts, r, run);
    BufferLags(mounts, r, run, ToHttp);
    BufferLags(mounts, r, run, ToWs);
    BufferLags(mounts, r, run, ToNetwork);
  }

  lemma StepNeverGoesBack(s: Loop, e: Event)
    requires LoopInv(s)
    ensures var t := Step(s, e);
            s.http <= t.http && s.ws <= t.ws && s.network <= t.network && s.snapshot <= t.snapshot && s.made <= t.made
  {
  }

  /** No slot ever goes back, whatever fails: ticks, or the encoding of a view. */
  lemma {:induction false} SlotsNeverGoBack(mounts: seq<Mount>, r: Reading, run: seq<Event>, more: seq<Event>)
    ensures var s, t := Exec(Boot(mounts, r), run), Exec(Boot(mounts, r), run + more);
            && s.http <= t.http && s.ws <= t.ws && s.network <= t.network && s.snapshot <= t.snapshot
            && s.made <= t.made
    decreases |more|
  {
    if more == [] {
      assert run + more == run;
    } else {
      var front, e := more[..|more| - 1], more[|more| - 1];
      SlotsNeverGoBack(mounts, r, run, front);
      assert run + more == run + front + [e];
      ExecStep(Boot(mounts, r), run + front, e);
      LoopRuns(mounts, r, run + front);
      StepNeverGoesBack(Exec(Boot(mounts, r), run + front), e);
    }
  }

  /** Whatever is loaded later, no buffer is older than the snapshot loaded at `run`. */
  ghost predicate NeverOlder(boot: Loop, run: seq<Event>) {
    forall more, place :: IsBuffer(place) ==>
      Exec(boot, run).snapshot <= Slot(Exec(boot, run + more), place)
  }

  /**
   A reader that loads the snapshot at one moment and a buffer at a later one never gets an older
   buffer, if the newest view of each buffer was encoded; and only then, while the task is suspended.
   */
  lemma LaterBufferIsNoOlder(mounts: seq<Mount>, r: Reading, run: seq<Event>)
    ensures AllEncoded(Boot(mounts, r), run) ==> NeverOlder(Boot(mounts, r), run)
    ensures Suspended(Exec(Boot(mounts, r), run)) ==>
      (AllEncoded(Boot(mounts, r), run) <==> NeverOlder(Boot(mounts, r), run))
  {
    hide Exec, Encoded, Boot, AllEncoded;
    var boot := Boot(mounts, r);
    var s := Exec(boot, run);
    SlotsAgree(mounts, r, run);
    if AllEncoded(boot, run) {
      forall more: seq<Event>, place | IsBuffer(place) ensures s.snapshot <= Slot(Exec(boot, run + more), place) {
        SlotsNeverGoBack(mounts, r, run, more);
      }
    } else if Suspended(s) && NeverOlder(boot, run) {
      NoneOlderNow(boot, run);
      SlotsAtMost(mounts, r, run);
    }
  }

  lemma NoneOlderNow(boot: Loop, run: seq<Event>)
    requires NeverOlder(boot, run)
    ensures var s := Exec(boot, run); s.snapshot <= s.http && s.snapshot <= s.ws && s.snapshot <= s.network
  {
    var none: seq<Event> := [];
    assert run + none == run;
    assert IsBuffer(ToHttp) && IsBuffer(ToWs) && IsBuffer(ToNetwork);
    assert Slot(Exec(boot, run + none), ToHttp) == Exec(boot, run).http;
    assert Slot(Exec(boot, run + none), ToWs) == Exec(boot, run).ws;
    assert Slot(Exec(boot, run + none), ToNetwork) == Exec(boot, run).network;
  }

  lemma SlotsAtMost(mounts: seq<Mount>, r: Reading, run: seq<Event>)
    ensures var s := Exec(Boot(mounts, r), run);
            s.http <= |s.made| && s.ws <= |s.made| && s.network <= |s.made|
  {
    LoopRuns(mounts, r, run);
  }

  /** Generation `g` of a run. */
  function Published(s: Loop, g: nat): Snapshot
    requires LoopInv(s) && 0 < g <= |s.made|
  {
    Built(s.made[g - 1].mounts, s.made[g - 1].rs)
  }

  /** Whatever generation a slot holds, through failed ticks and rebuilt states, on the one state that built it. */
  lemma PublishedIsFresh(mounts: seq<Mount>, r: Reading, run: seq<Event>, g: nat)
    requires 0 < g <= |Exec(Boot(mounts, r), run).made|
    ensures LoopInv(Exec(Boot(mounts, r), run))
    ensures IsFresh(Published(Exec(Boot(mounts, r), run), g), Exec(Boot(mounts, r), run).made[g - 1].rs)
  {
    hide IsFresh, Built;
    LoopRuns(mounts, r, run);
    var life := Exec(Boot(mounts, r), run).made[g - 1];
    SnapshotIsFresh(life.mounts, life.rs);
  }

  /** Every generation made so far was built from genuine scans. */
  ghost predicate AllGenuine(s: Loop) {
    forall g :: 0 <= g < |s.made| ==> Genuine(s.made[g].rs)
  }
}
