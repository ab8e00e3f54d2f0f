/** The sampler's objects, updated in place, tied to the loop machine by the events they perform. */
module Sampler {
  import opened Disks
  import opened Options
  import opened Ranking
  import opened Rates
  import opened SamplerLoop
  import opened Snapshots
  import opened Units
  import C = CpuTable
  import P = Processes

  class SamplerState {
    var tick: nat
    var cachedProcesses: seq<Row>
    var cachedProcessesMetric: string
    var cachedProcessesByCpu: seq<Row>
    /** The core frequencies, kept between scans in the system handle. */
    var freq: real
    var mounts: seq<Mount>
    const netIo: NetMeter
    const diskIo: DiskMeter
    ghost var life: Life

    /** The fields the cadences keep, as a value. */
    ghost function Kept(): Core
      reads this
    {
      Core(tick, Scan(cachedProcesses, cachedProcessesMetric, cachedProcessesByCpu, freq), mounts)
    }

    ghost predicate Valid()
      reads this, netIo, diskIo
    {
      && Kept() == After(life.mounts, life.rs)
      && netIo.Valid() && netIo.recvSeen == RecvSeen(life.rs) && netIo.sentSeen == SentSeen(life.rs)
      && diskIo.Valid() && diskIo.seen == StatsSeen(life.rs)
      && Genuine(life.rs)
    }

    constructor (mounts: seq<Mount>)
      ensures Valid() && life == Life(mounts, []) && fresh(netIo) && fresh(diskIo)
    {
      tick := 0;
      cachedProcesses, cachedProcessesMetric, cachedProcessesByCpu, freq := [], "rss", [], 0.0;
      this.mounts := mounts;
      netIo := new NetMeter();
      diskIo := new DiskMeter();
      life := Life(mounts, []);
    }

    /** The slow cadences and the tick; `scan` is what this refresh scanned, if one was due. */
    method RunCadences(h: Host) returns (ghost scan: Scan)
      requires Kept() == After(life.mounts, life.rs)
      modifies this
      ensures Kept() == After(life.mounts, life.rs + [Reading(h, scan)]) && life == old(life)
      ensures ScanDue(|life.rs|) ==> IsScan(h, scan)
    {
      hide After, IsScan;
      TickCounts(life.mounts, life.rs);
      scan := NoScan;
      if tick == 0 || tick % PROCESS_SCAN_EVERY == 0 {
        scan := RunScan(h);
      }
      AfterStep(life.mounts, life.rs, Reading(h, scan));
      if tick == 0 || tick % DISK_LIST_REFRESH_EVERY == 0 {
        mounts := h.mounts;
      }
      tick := if tick == TICKS - 1 then 0 else tick + 1;
    }

    /** One scan: the frequencies and both process tables. */
    method RunScan(h: Host) returns (ghost scan: Scan)
      modifies this
      ensures IsScan(h, scan) && Kept() == old(Kept()).(scan := scan)
      ensures life == old(life) && tick == old(tick) && mounts == old(mounts)
    {
      hide P.Collected, C.Collected, P.IsTopTen, P.NoneMissed, C.IsTopTen;
      freq := h.freq;
      var processes, byMem, read := P.CollectTop(h.procs, h.meter);
      var byCpu, order := C.CollectTopCpu(h.procs);
      cachedProcesses, cachedProcessesMetric, cachedProcessesByCpu := processes, Label(h.meter), byCpu;
      scan := Scan(processes, Label(h.meter), byCpu, freq);
    }

    method Refresh(h: Host) returns (snap: Snapshot, ghost r: Reading)
      requires Valid()
      modifies this, netIo, diskIo
      ensures Valid() && life == Life(old(life.mounts), old(life.rs) + [r]) && r.host == h && Genuine(life.rs)
      ensures snap == Built(life.mounts, life.rs)
    {
      hide After, LastRate, LastIo, Received, Sent, RecvSeen, SentSeen, StatsSeen, CollectMem, CollectRoot, CollectAll;
      hide NetMeter.Valid, DiskMeter.Valid, IsScan, ScanDue;
      ghost var scan := RunCadences(h);
      r := Reading(h, scan);
      var io := diskIo.CollectIo(h.diskStats, h.statsAt);
      var net := netIo.CollectThroughput(h.ifaces, h.netAt);
      SeenStep(life.rs, r);
      life := Life(life.mounts, life.rs + [r]);
      snap := Snapshot(
        Cpu(h.cpu, h.temp, freq, h.load), CollectMem(h.total, h.available),
        CollectRoot(mounts, h.usage), CollectAll(mounts, h.nodev, h.usage),
        io, net, cachedProcesses, cachedProcessesMetric, cachedProcessesByCpu, h.ifaces, h.other);
    }
  }

  /** Published buffers: the fields each wire format projects out of a snapshot. */
  datatype View =
    | Placeholder
    | Http(cpu: Cpu, mem: Mem, root: Usage, disks: seq<Disk>, diskIo: DiskIo, net: Throughput,
           processes: seq<Row>, processesMetric: string, byCpu: seq<Row>, other: int)
    | Ws(cpu: Cpu, mem: Mem, root: Usage, diskIo: DiskIo, net: Throughput,
         processes: seq<Row>, processesMetric: string, byCpu: seq<Row>, other: int)
    | Network(ifaces: seq<Iface>)

  function HttpView(s: Snapshot): View {
    Http(s.cpu, s.mem, s.root, s.disks, s.diskIo, s.network, s.processes, s.processesMetric, s.byCpu, s.other)
  }

  function WsView(s: Snapshot): View {
    Ws(s.cpu, s.mem, s.root, s.diskIo, s.network, s.processes, s.processesMetric, s.byCpu, s.other)
  }

  function NetworkView(s: Snapshot): View { Network(s.ifaces) }

  function ViewAt(place: Pc, s: Snapshot): View {
    match place
    case ToHttp => HttpView(s)
    case ToWs => WsView(s)
    case _ => NetworkView(s)
  }

  // ----- what the buffers tell, field by field

  /** Of one snapshot: memory table as memory table, CPU table as CPU table, and so on. */
  ghost predicate IsHttpOf(v: View, s: Snapshot) {
    && v.Http?
    && v.cpu == s.cpu && v.mem == s.mem && v.root == s.root && v.disks == s.disks
    && v.diskIo == s.diskIo && v.net == s.network && v.other == s.other
    && v.processes == s.processes && v.processesMetric == s.processesMetric && v.byCpu == s.byCpu
  }

  ghost predicate IsWsOf(v: View, s: Snapshot) {
    && v.Ws?
    && v.cpu == s.cpu && v.mem == s.mem && v.root == s.root
    && v.diskIo == s.diskIo && v.net == s.network && v.other == s.other
    && v.processes == s.processes && v.processesMetric == s.processesMetric && v.byCpu == s.byCpu
  }

  ghost predicate IsNetworkOf(v: View, s: Snapshot) {
    v.Network? && v.ifaces == s.ifaces
  }

  /** Both tables, the metric and the frequencies of the last scan, at most 4 refreshes before. */
  ghost predicate TellsScan(v: View, rs: seq<Reading>)
    requires v.Http? || v.Ws?
  {
    exists j :: LastScan(rs, j)
      && v.processes == rs[j].scan.processes && v.processesMetric == rs[j].scan.metric
      && v.byCpu == rs[j].scan.byCpu && v.cpu.freq == rs[j].scan.freq
  }

  /** CPU, memory and rates as of the last refresh. */
  ghost predicate TellsNow(v: View, rs: seq<Reading>)
    requires (v.Http? || v.Ws?) && rs != []
  {
    var now := rs[|rs| - 1].host;
    && v.cpu.usage == now.cpu && v.cpu.temp == now.temp && v.cpu.load == now.load
    && v.mem == CollectMem(now.total, now.available) && v.other == now.other
    && v.net.rx == LastRate(RecvSeen(rs)) && v.net.tx == LastRate(SentSeen(rs))
    && v.diskIo.readBytesPerSec == LastRate(Counter(StatsSeen(rs), ReadBytes))
    && v.diskIo.writeBytesPerSec == LastRate(Counter(StatsSeen(rs), WriteBytes))
    && v.diskIo.readIops == LastRate(Counter(StatsSeen(rs), ReadOps))
    && v.diskIo.writeIops == LastRate(Counter(StatsSeen(rs), WriteOps))
  }

  /** What a buffer tells of the readings behind its generation. */
  ghost predicate BufferTells(v: View, rs: seq<Reading>)
    requires rs != []
  {
    var now := rs[|rs| - 1].host;
    match v
    case Placeholder => false
    case Http(_, _, root, disks, _, _, _, _, _, _) =>
      && TellsScan(v, rs) && TellsNow(v, rs)
      && exists k :: LastRescan(rs, k) && root == CollectRoot(rs[k].host.mounts, now.usage)
                     && disks == CollectAll(rs[k].host.mounts, now.nodev, now.usage)
    case Ws(_, _, root, _, _, _, _, _, _) =>
      && TellsScan(v, rs) && TellsNow(v, rs)
      && exists k :: LastRescan(rs, k) && root == CollectRoot(rs[k].host.mounts, now.usage)
    case Network(ifaces) => ifaces == now.ifaces
  }

  lemma FreshBuffer(v: View, snap: Snapshot, rs: seq<Reading>)
    requires rs != [] && IsFresh(snap, rs)
    requires IsHttpOf(v, snap) || IsWsOf(v, snap) || IsNetworkOf(v, snap)
    ensures BufferTells(v, rs)
  {
    hide CollectMem, CollectRoot, CollectAll, LastRate, Counter, RecvSeen, SentSeen, StatsSeen, ScanDue, RescanDue;
    var j :| LastScan(rs, j) && FromScan(snap, rs[j].scan);
    var k :| LastRescan(rs, k) && FromMounts(snap, rs[k].host.mounts, rs[|rs| - 1].host);
  }

  lemma ViewsAre(s: Snapshot)
    ensures IsHttpOf(HttpView(s), s) && IsWsOf(WsView(s), s) && IsNetworkOf(NetworkView(s), s)
  {
  }

  /** Whatever generation a buffer holds, it tells of that generation's readings. */
  lemma BufferIsFresh(mounts: seq<Mount>, r: Reading, run: seq<Event>, place: Pc)
    requires IsBuffer(place) && Slot(Exec(Boot(mounts, r), run), place) > 0
    ensures LoopInv(Exec(Boot(mounts, r), run))
    ensures var s := Exec(Boot(mounts, r), run);
            var v := Holds(s, place);
            && (place == ToHttp ==> v.Http?) && (place == ToWs ==> v.Ws?) && (place == ToNetwork ==> v.Network?)
            && BufferTells(v, s.made[Slot(s, place) - 1].rs)
  {
    hide Exec, Boot, Built, BufferTells, IsFresh, HttpView, WsView, NetworkView, IsHttpOf, IsWsOf, IsNetworkOf;
    LoopRuns(mounts, r, run);
    var s := Exec(Boot(mounts, r), run);
    var g := Slot(s, place);
    PublishedIsFresh(mounts, r, run, g);
    ViewsAre(Published(s, g));
    ViewKinds(Published(s, g));
    FreshBuffer(Holds(s, place), Published(s, g), s.made[g - 1].rs);
  }

  lemma ViewsTell(mounts: seq<Mount>, rs: seq<Reading>)
    requires rs != []
    ensures var snap := Built(mounts, rs);
            && HttpView(snap).Http? && BufferTells(HttpView(snap), rs)
            && WsView(snap).Ws? && BufferTells(WsView(snap), rs)
            && NetworkView(snap).Network? && BufferTells(NetworkView(snap), rs)
  {
    hide Built, BufferTells, IsFresh, HttpView, WsView, NetworkView, IsHttpOf, IsWsOf, IsNetworkOf;
    var snap := Built(mounts, rs);
    SnapshotIsFresh(mounts, rs);
    ViewsAre(snap);
    ViewKinds(snap);
    FreshBuffer(HttpView(snap), snap, rs);
    FreshBuffer(WsView(snap), snap, rs);
    FreshBuffer(NetworkView(snap), snap, rs);
  }

  lemma ViewKinds(s: Snapshot)
    ensures HttpView(s).Http? && WsView(s).Ws? && NetworkView(s).Network?
  {
  }

  /** Which of the three views encode to JSON. */
  datatype Encodes = Encodes(http: bool, ws: bool, network: bool)

  /** Outcome of awaiting the blocking refresh. */
  datatype Join = Done(h: Host, encodes: Encodes) | Failed(mounts: seq<Mount>)

  class Sampler {
    var state: SamplerState?
    var http: View
    var ws: View
    var network: View
    var snapshot: Snapshot
    ghost var boot: Loop
    ghost var run: seq<Event>

    ghost function Now(): Loop
      reads this
    {
      Exec(boot, run)
    }

    /** The state with the counters it keeps. */
    ghost function Parts(): set<object>
      reads this
    {
      if state == null then {} else {state, state.netIo, state.diskIo}
    }

    /** The loop is asleep: it holds its state, and each slot the view of its generation. */
    ghost predicate Valid()
      reads this, Parts()
    {
      && state != null && state.Valid()
      && LoopInv(Now()) && AllGenuine(Now()) && Now().pc == Sleeping && Now().held == Some(state.life)
      && snapshot == Published(Now(), |Now().made|)
      && http == Holds(Now(), ToHttp) && ws == Holds(Now(), ToWs) && network == Holds(Now(), ToNetwork)
    }

    /** `new` followed by `start` up to the spawn: one synchronous refresh, published. */
    constructor (mounts: seq<Mount>, h: Host, encodes: Encodes)
      ensures Valid() && run == Stores(encodes) && fresh(Parts())
      ensures exists r: Reading :: r.host == h && boot == Boot(mounts, r) && snapshot == Built(mounts, [r])
    {
      hide Exec, Boot, After, Built, Holds, HttpView, WsView, NetworkView, SamplerState.Valid, Genuine, AllGenuine;
      hide LoopInv, Published, Stores, IsHttpOf, IsWsOf, IsNetworkOf;
      var first := new SamplerState(mounts);
      ghost var r;
      var initial;
      initial, r := first.Refresh(h);
      state := first;
      http, ws, network := Placeholder, Placeholder, Placeholder;
      snapshot := initial;
      boot, run := Boot(mounts, r), Stores(encodes);
      new;
      assert [] + [r] == [r];
      BootPublishes(mounts, r, encodes);
      Publish(initial, encodes);
    }

    /** `CachedJson::publish`: a view that fails to encode leaves its buffer as it was. */
    method Publish(snap: Snapshot, encodes: Encodes)
      modifies this`http, this`ws, this`network
      ensures http == if encodes.http then HttpView(snap) else old(http)
      ensures ws == if encodes.ws then WsView(snap) else old(ws)
      ensures network == if encodes.network then NetworkView(snap) else old(network)
      ensures encodes.http ==> IsHttpOf(http, snap)
      ensures encodes.ws ==> IsWsOf(ws, snap)
      ensures encodes.network ==> IsNetworkOf(network, snap)
    {
      hide IsHttpOf, IsWsOf, IsNetworkOf;
      ViewsAre(snap);
      if encodes.http {
        http := HttpView(snap);
      }
      if encodes.ws {
        ws := WsView(snap);
      }
      if encodes.network {
        network := NetworkView(snap);
      }
    }

    /** One turn of the loop, from the wake-up to the next sleep. */
    method Tick(join: Join)
      requires Valid()
      modifies this, Parts()
      ensures Valid() && boot == old(boot)
      ensures join.Done? ==> exists r: Reading ::
        && r.host == join.h && run == old(run) + [Wake] + [Joined(r)] + Stores(join.encodes)
        && snapshot == Built(old(state.life.mounts), old(state.life.rs) + [r])
        && (join.encodes.http ==> http.Http? && BufferTells(http, old(state.life.rs) + [r]))
        && (join.encodes.ws ==> ws.Ws? && BufferTells(ws, old(state.life.rs) + [r]))
        && (join.encodes.network ==> network.Network? && BufferTells(network, old(state.life.rs) + [r]))
      ensures join.Done? ==>
        && state == old(state)
        && http == (if join.encodes.http then HttpView(snapshot) else old(http))
        && ws == (if join.encodes.ws then WsView(snapshot) else old(ws))
        && network == (if join.encodes.network then NetworkView(snapshot) else old(network))
      ensures join.Failed? ==>
        && run == old(run) + [Wake] + [JoinFailed(join.mounts)]
        && state.life == Life(join.mounts, []) && fresh(Parts())
        && snapshot == old(snapshot) && http == old(http) && ws == old(ws) && network == old(network)
    {
      hide Exec, Step, After, Built, Holds, LoopInv, Published, HttpView, WsView, NetworkView, Stores;
      hide Genuine, AllGenuine, SamplerState.Valid, BufferTells, IsHttpOf, IsWsOf, IsNetworkOf;
      var before := run;
      var owned := state;
      state := null;
      match join
      case Done(h, encodes) =>
        ghost var s := Now();
        var snap;
        ghost var r;
        snap, r := owned.Refresh(h);
        TickDone(boot, before, r, encodes, s);
        state := owned;
        Publish(snap, encodes);
        ViewsTell(owned.life.mounts, owned.life.rs);
        snapshot := snap;
        run := before + [Wake] + [Joined(r)] + Stores(encodes);
      case Failed(mounts) =>
        TickFailed(boot, before, mounts, Now());
        state := new SamplerState(mounts);
        run := before + [Wake] + [JoinFailed(mounts)];
    }
  }

  /** The view in a buffer, by the generation it holds. */
  function Holds(s: Loop, place: Pc): View
    requires LoopInv(s) && IsBuffer(place)
  {
    if Slot(s, place) == 0 then Placeholder else ViewAt(place, Published(s, Slot(s, place)))
  }

  /** The four stores of one publication. */
  function Stores(encodes: Encodes): seq<Event> {
    [Store(encodes.http)] + [Store(encodes.ws)] + [Store(encodes.network)] + [Store(true)]
  }

  function Stored(s: Loop, encodes: Encodes): Loop {
    var g := |s.made|;
    s.(pc := Sleeping, snapshot := g,
       http := if encodes.http then g else s.http,
       ws := if encodes.ws then g else s.ws,
       network := if encodes.network then g else s.network)
  }

  lemma StoresPublish(boot: Loop, run: seq<Event>, encodes: Encodes)
    requires LoopInv(Exec(boot, run)) && Exec(boot, run).pc == ToHttp
    ensures Exec(boot, run + Stores(encodes)) == Stored(Exec(boot, run), encodes)
    ensures LoopInv(Exec(boot, run + Stores(encodes)))
  {
    hide Exec, Step, LoopInv, Stored;
    var r1 := run + [Store(encodes.http)];
    var r2 := r1 + [Store(encodes.ws)];
    var r3 := r2 + [Store(encodes.network)];
    ExecStep(boot, run, Store(encodes.http));
    ExecStep(boot, r1, Store(encodes.ws));
    ExecStep(boot, r2, Store(encodes.network));
    ExecStep(boot, r3, Store(true));
    assert run + Stores(encodes) == r3 + [Store(true)];
    FourStores(Exec(boot, run), encodes);
  }

  lemma FourStores(s: Loop, encodes: Encodes)
    requires LoopInv(s) && s.pc == ToHttp
    ensures LoopInv(Stored(s, encodes))
    ensures Stored(s, encodes) ==
      Step(Step(Step(Step(s, Store(encodes.http)), Store(encodes.ws)), Store(encodes.network)), Store(true))
  {
    hide LoopInv;
    var s1 := Step(s, Store(encodes.http));
    var s2 := Step(s1, Store(encodes.ws));
    var s3 := Step(s2, Store(encodes.network));
    assert s1 == s.(pc := ToWs, http := if encodes.http then |s.made| else s.http);
    assert s2 == s1.(pc := ToNetwork, ws := if encodes.ws then |s.made| else s.ws);
    assert s3 == s2.(pc := ToSnapshot, network := if encodes.network then |s.made| else s.network);
    StepKeepsInv(s, Store(encodes.http));
    StepKeepsInv(s1, Store(encodes.ws));
    StepKeepsInv(s2, Store(encodes.network));
    StepKeepsInv(s3, Store(true));
  }

  lemma Refreshes(s: Loop, r: Reading)
    requires LoopInv(s) && s.pc == Sleeping
    ensures var life := Life(s.held.value.mounts, s.held.value.rs + [r]);
            && LoopInv(Step(Step(s, Wake), Joined(r)))
            && Step(Step(s, Wake), Joined(r)) ==
               s.(pc := ToHttp, held := Some(life), lent := None, made := s.made + [life])
  {
  }

  /** A buffer after a publication: the new view, or what it held. */
  lemma HoldsNext(s: Loop, t: Loop, life: Life, place: Pc, encoded: bool)
    requires LoopInv(s) && LoopInv(t) && IsBuffer(place) && t.made == s.made + [life] && life.rs != []
    requires Slot(t, place) == if encoded then |t.made| else Slot(s, place)
    ensures Holds(t, place) == if encoded then ViewAt(place, Built(life.mounts, life.rs)) else Holds(s, place)
  {
    hide Built;
  }

  lemma BootPublishes(mounts: seq<Mount>, r: Reading, encodes: Encodes)
    ensures var t := Exec(Boot(mounts, r), Stores(encodes));
            var snap := Built(mounts, [r]);
            && LoopInv(t) && t.pc == Sleeping && t.held == Some(Life(mounts, [r])) && Published(t, |t.made|) == snap
            && (Genuine([r]) ==> AllGenuine(t))
            && Holds(t, ToHttp) == (if encodes.http then HttpView(snap) else Placeholder)
            && Holds(t, ToWs) == (if encodes.ws then WsView(snap) else Placeholder)
            && Holds(t, ToNetwork) == (if encodes.network then NetworkView(snap) else Placeholder)
  {
    hide Exec, Stores, Built, Holds, LoopInv, Genuine, HttpView, WsView, NetworkView;
    BootRuns(mounts, r, encodes);
    BootHolds(Boot(mounts, r), encodes);
  }

  lemma BootRuns(mounts: seq<Mount>, r: Reading, encodes: Encodes)
    ensures LoopInv(Boot(mounts, r)) && LoopInv(Stored(Boot(mounts, r), encodes))
    ensures Exec(Boot(mounts, r), Stores(encodes)) == Stored(Boot(mounts, r), encodes)
  {
    var boot := Boot(mounts, r);
    LoopRuns(mounts, r, []);
    assert Exec(boot, []) == boot;
    hide Exec, Stores, Stored, LoopInv, Boot;
    StoresPublish(boot, [], encodes);
    assert [] + Stores(encodes) == Stores(encodes);
  }

  lemma BootHolds(boot: Loop, encodes: Encodes)
    requires LoopInv(boot) && LoopInv(Stored(boot, encodes))
    requires |boot.made| == 1 && boot.http == boot.ws == boot.network == 0
    ensures var t, snap := Stored(boot, encodes), Built(boot.made[0].mounts, boot.made[0].rs);
            && Published(t, 1) == snap
            && Holds(t, ToHttp) == (if encodes.http then HttpView(snap) else Placeholder)
            && Holds(t, ToWs) == (if encodes.ws then WsView(snap) else Placeholder)
            && Holds(t, ToNetwork) == (if encodes.network then NetworkView(snap) else Placeholder)
  {
    hide Built, LoopInv, HttpView, WsView, NetworkView;
  }

  lemma TickDone(boot: Loop, run: seq<Event>, r: Reading, encodes: Encodes, s: Loop)
    requires s == Exec(boot, run) && LoopInv(s) && s.pc == Sleeping
    ensures var t := Exec(boot, run + [Wake] + [Joined(r)] + Stores(encodes));
            var life := Life(s.held.value.mounts, s.held.value.rs + [r]);
            var snap := Built(life.mounts, life.rs);
            && LoopInv(t) && t.pc == Sleeping && t.held == Some(life) && Published(t, |t.made|) == snap
            && (AllGenuine(s) && Genuine(life.rs) ==> AllGenuine(t))
            && Holds(t, ToHttp) == (if encodes.http then HttpView(snap) else Holds(s, ToHttp))
            && Holds(t, ToWs) == (if encodes.ws then WsView(snap) else Holds(s, ToWs))
            && Holds(t, ToNetwork) == (if encodes.network then NetworkView(snap) else Holds(s, ToNetwork))
  {
    hide Exec, Built, Holds, HttpView, WsView, NetworkView;
    var r1 := run + [Wake];
    var r2 := r1 + [Joined(r)];
    ExecStep(boot, run, Wake);
    ExecStep(boot, r1, Joined(r));
    Refreshes(s, r);
    StoresPublish(boot, r2, encodes);
    var t := Exec(boot, r2 + Stores(encodes));
    var life := Life(s.held.value.mounts, s.held.value.rs + [r]);
    HoldsNext(s, t, life, ToHttp, encodes.http);
    HoldsNext(s, t, life, ToWs, encodes.ws);
    HoldsNext(s, t, life, ToNetwork, encodes.network);
  }

  lemma Rebuilds(s: Loop, mounts: seq<Mount>)
    requires LoopInv(s) && s.pc == Sleeping
    ensures var t := Step(Step(s, Wake), JoinFailed(mounts));
            LoopInv(t) && t == s.(held := Some(Life(mounts, [])), lent := None)
  {
  }

  lemma TickFailed(boot: Loop, run: seq<Event>, mounts: seq<Mount>, s: Loop)
    requires s == Exec(boot, run) && LoopInv(s) && s.pc == Sleeping
    ensures var t := Exec(boot, run + [Wake] + [JoinFailed(mounts)]);
            && LoopInv(t) && t.pc == Sleeping && t.held == Some(Life(mounts, []))
            && Published(t, |t.made|) == Published(s, |s.made|) && (AllGenuine(s) ==> AllGenuine(t))
            && Holds(t, ToHttp) == Holds(s, ToHttp) && Holds(t, ToWs) == Holds(s, ToWs)
            && Holds(t, ToNetwork) == Holds(s, ToNetwork)
  {
    hide Exec, Step, Built, HttpView, WsView, NetworkView;
    ExecStep(boot, run, Wake);
    ExecStep(boot, run + [Wake], JoinFailed(mounts));
    Rebuilds(s, mounts);
  }
}
