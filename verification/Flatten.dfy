/** The snapshot as the hub's flat metric map; per-mount metrics carry the mount after a pipe. */
module Flatten {
  import opened Disks
  import opened Options
  import opened Snapshots
  import R = Rates
  import opened Units

  /** What a key of the map stands for. */
  datatype Metric =
    | CpuUsage | CpuFreq | Load1 | Load5 | Load15 | CpuTemp
    | MemTotal | MemUsed | MemFree | MemPercent
    | ReadBytes | WriteBytes | ReadOps | WriteOps
    | NetRx | NetTx
    | DiskTotal(mount: string) | DiskUsed(mount: string) | DiskPercent(mount: string)

  predicate PerMount(k: Metric) {
    k.DiskTotal? || k.DiskUsed? || k.DiskPercent?
  }

  function Key(k: Metric): string {
    match k
    case CpuUsage => "cpu.usage"
    case CpuFreq => "cpu.freq_mhz"
    case Load1 => "cpu.load_1m"
    case Load5 => "cpu.load_5m"
    case Load15 => "cpu.load_15m"
    case CpuTemp => "cpu.temp_c"
    case MemTotal => "mem.total_bytes"
    case MemUsed => "mem.used_bytes"
    case MemFree => "mem.free_bytes"
    case MemPercent => "mem.percent"
    case ReadBytes => "disk.io.read_bytes_per_s"
    case WriteBytes => "disk.io.write_bytes_per_s"
    case ReadOps => "disk.io.read_iops"
    case WriteOps => "disk.io.write_iops"
    case NetRx => "net.rx_bytes_per_s"
    case NetTx => "net.tx_bytes_per_s"
    case DiskTotal(mount) => "disk.total_bytes|" + mount
    case DiskUsed(mount) => "disk.used_bytes|" + mount
    case DiskPercent(mount) => "disk.percent|" + mount
  }

  predicate Admitted(mount: string) {
    && mount != ""
    && !("/snap/" <= mount)
    && !("/var/lib/docker/" <= mount)
    && !("/run/docker/" <= mount)
  }

  /** Index of the last disk at this mount point, or -1. */
  function LastAt(disks: seq<Disk>, mount: string): (i: int)
    ensures -1 <= i < |disks| && (i >= 0 ==> disks[i].mount == mount)
    ensures forall j :: i < j < |disks| ==> disks[j].mount != mount
  {
    if disks == [] || disks[|disks| - 1].mount == mount then |disks| - 1
    else LastAt(disks[..|disks| - 1], mount)
  }

  /** The disk a mount's metrics are about: the last one there, if the mount is admitted. */
  function DiskAt(disks: seq<Disk>, mount: string): Option<Disk> {
    if Admitted(mount) && LastAt(disks, mount) >= 0 then Some(disks[LastAt(disks, mount)]) else None
  }

  function If(present: bool, value: real): Option<real> {
    if present then Some(value) else None
  }

  /** What the hub should be told, metric by metric, without mention of any map. */
  function Value(m: Snapshot, k: Metric): Option<real> {
    match k
    case CpuUsage => Some(m.cpu.usage)
    case CpuFreq => If(m.cpu.freq != 0.0, m.cpu.freq)
    case Load1 => if m.cpu.load.Some? then Some(m.cpu.load.value.one) else None
    case Load5 => if m.cpu.load.Some? then Some(m.cpu.load.value.five) else None
    case Load15 => if m.cpu.load.Some? then Some(m.cpu.load.value.fifteen) else None
    case CpuTemp => if m.cpu.temp.Some? then If(m.cpu.temp.value != 0.0, m.cpu.temp.value) else None
    case MemTotal => Some(GibToBytes(m.mem.total) as real)
    case MemUsed => Some(GibToBytes(m.mem.used) as real)
    case MemFree => Some(GibToBytes(m.mem.free) as real)
    case MemPercent => Some(m.mem.percent)
    case ReadBytes => Some(m.diskIo.readBytesPerSec as real)
    case WriteBytes => Some(m.diskIo.writeBytesPerSec as real)
    case ReadOps => Some(m.diskIo.readIops as real)
    case WriteOps => Some(m.diskIo.writeIops as real)
    case NetRx => Some(m.network.rx as real)
    case NetTx => Some(m.network.tx as real)
    case DiskTotal(mount) =>
      if DiskAt(m.disks, mount).Some? then Some(GibToBytes(DiskAt(m.disks, mount).value.usage.total) as real) else None
    case DiskUsed(mount) =>
      if DiskAt(m.disks, mount).Some? then Some(GibToBytes(DiskAt(m.disks, mount).value.usage.used) as real) else None
    case DiskPercent(mount) =>
      if DiskAt(m.disks, mount).Some? then Some(DiskAt(m.disks, mount).value.usage.percent) else None
  }

  // ----- no two metrics share a key

  /** Length, fifth and last but one character of an undimensioned key. */
  function Mark(k: Metric): (nat, char, char)
    requires !PerMount(k)
  {
    match k
    case CpuUsage => (9, 'u', 'g')
    case CpuFreq => (12, 'f', 'h')
    case Load1 => (11, 'l', '1')
    case Load5 => (11, 'l', '5')
    case Load15 => (12, 'l', '5')
    case CpuTemp => (10, 't', '_')
    case MemTotal => (15, 't', 'e')
    case MemUsed => (14, 'u', 'e')
    case MemFree => (14, 'f', 'e')
    case MemPercent => (11, 'p', 'n')
    case ReadBytes => (24, '.', '_')
    case WriteBytes => (25, '.', '_')
    case ReadOps => (17, '.', 'p')
    case WriteOps => (18, '.', 'p')
    case NetRx => (18, 'r', '_')
    case NetTx => (18, 't', '_')
  }

  lemma PlainKey(k: Metric)
    requires !PerMount(k)
    ensures var s := Key(k); |s| > 5 && (|s|, s[4], s[|s| - 2]) == Mark(k) && (s[0] != 'd' || s[5] == 'i')
  {
  }

  lemma MountKey(k: Metric)
    requires PerMount(k)
    ensures var s := Key(k);
            && |s| > 5 && s[0] == 'd'
            && s[5] == (if k.DiskTotal? then 't' else if k.DiskUsed? then 'u' else 'p')
            && |s| == |k.mount| + (if k.DiskTotal? then 17 else if k.DiskUsed? then 16 else 13)
            && s[|s| - |k.mount|..] == k.mount
  {
    var prefix :=
      if k.DiskTotal? then "disk.total_bytes|" else if k.DiskUsed? then "disk.used_bytes|" else "disk.percent|";
    assert Key(k) == prefix + k.mount && |prefix| > 5;
    assert (prefix + k.mount)[|prefix|..] == k.mount;
  }

  /** A key names one metric, and one mount if it is about a mount. */
  lemma KeysInjective(a: Metric, b: Metric)
    ensures Key(a) == Key(b) <==> a == b
  {
    hide Key;
    if PerMount(a) { MountKey(a); } else { PlainKey(a); }
    if PerMount(b) { MountKey(b); } else { PlainKey(b); }
  }

  lemma AllKeysInjective()
    ensures forall a, b :: Key(a) == Key(b) ==> a == b
  {
    forall a, b | Key(a) == Key(b) ensures a == b { KeysInjective(a, b); }
  }

  // ----- the map

  function Encode(vs: map<Metric, real>): map<string, real> {
    AllKeysInjective();
    map k | k in vs :: Key(k) := vs[k]
  }

  /** The metrics a snapshot can have. */
  function Candidates(m: Snapshot): set<Metric> {
    {CpuUsage, CpuFreq, Load1, Load5, Load15, CpuTemp, MemTotal, MemUsed, MemFree, MemPercent,
     ReadBytes, WriteBytes, ReadOps, WriteOps, NetRx, NetTx}
    + (set d | d in m.disks :: DiskTotal(d.mount))
    + (set d | d in m.disks :: DiskUsed(d.mount))
    + (set d | d in m.disks :: DiskPercent(d.mount))
  }

  function Values(m: Snapshot): map<Metric, real> {
    map k | k in Candidates(m) && Value(m, k).Some? :: Value(m, k).value
  }

  function Flat(m: Snapshot): map<string, real> {
    Encode(Values(m))
  }

  lemma AllAreCandidates(m: Snapshot, k: Metric)
    ensures k in Values(m) <==> Value(m, k).Some?
    ensures k in Values(m) ==> Values(m)[k] == Value(m, k).value
  {
    if PerMount(k) && Value(m, k).Some? { assert m.disks[LastAt(m.disks, k.mount)] in m.disks; }
  }

  /**
   The map says of each metric exactly what it should, and nothing else: no key is overwritten by
   another metric, a mount's entries are there exactly if it is admitted and some disk has it, with
   the values of the last such disk, and there are no other keys.
   */
  lemma FlatMeaning(m: Snapshot)
    ensures forall k :: Key(k) in Flat(m) <==> Value(m, k).Some?
    ensures forall k :: Value(m, k).Some? ==> Flat(m)[Key(k)] == Value(m, k).value
    ensures forall key :: key in Flat(m) ==> exists k :: key == Key(k)
  {
    hide Key, Value, Values, Encode;
    EncodeMeaning(Values(m));
    forall k { AllAreCandidates(m, k); }
  }

  // ----- the same, key by key as the hub reads them

  /** The key is in the map with this value, or not in it. */
  ghost predicate Told(out: map<string, real>, key: string, value: Option<real>) {
    if value.None? then key !in out else key in out && out[key] == value.value
  }

  ghost predicate CpuTold(out: map<string, real>, cpu: Cpu) {
    && Told(out, "cpu.usage", Some(cpu.usage))
    && Told(out, "cpu.freq_mhz", if cpu.freq == 0.0 then None else Some(cpu.freq))
    && Told(out, "cpu.load_1m", if cpu.load.None? then None else Some(cpu.load.value.one))
    && Told(out, "cpu.load_5m", if cpu.load.None? then None else Some(cpu.load.value.five))
    && Told(out, "cpu.load_15m", if cpu.load.None? then None else Some(cpu.load.value.fifteen))
    && Told(out, "cpu.temp_c", if cpu.temp == Some(0.0) then None else cpu.temp)
  }

  ghost predicate MemTold(out: map<string, real>, mem: Mem) {
    && Told(out, "mem.total_bytes", Some(GibToBytes(mem.total) as real))
    && Told(out, "mem.used_bytes", Some(GibToBytes(mem.used) as real))
    && Told(out, "mem.free_bytes", Some(GibToBytes(mem.free) as real))
    && Told(out, "mem.percent", Some(mem.percent))
  }

  ghost predicate IoTold(out: map<string, real>, io: R.DiskIo) {
    && Told(out, "disk.io.read_bytes_per_s", Some(io.readBytesPerSec as real))
    && Told(out, "disk.io.write_bytes_per_s", Some(io.writeBytesPerSec as real))
    && Told(out, "disk.io.read_iops", Some(io.readIops as real))
    && Told(out, "disk.io.write_iops", Some(io.writeIops as real))
  }

  ghost predicate NetTold(out: map<string, real>, net: R.Throughput) {
    && Told(out, "net.rx_bytes_per_s", Some(net.rx as real))
    && Told(out, "net.tx_bytes_per_s", Some(net.tx as real))
  }

  lemma KeyTold(m: Snapshot, k: Metric)
    ensures Told(Flat(m), Key(k), Value(m, k))
  {
    hide Flat, Key, Value;
    FlatMeaning(m);
  }

  lemma CpuIsTold(m: Snapshot)
    ensures CpuTold(Flat(m), m.cpu)
  {
    hide Flat, Told;
    KeyTold(m, CpuUsage);
    KeyTold(m, CpuFreq);
    KeyTold(m, Load1);
    KeyTold(m, Load5);
    KeyTold(m, Load15);
    KeyTold(m, CpuTemp);
  }

  lemma MemIsTold(m: Snapshot)
    ensures MemTold(Flat(m), m.mem)
  {
    hide Flat, Told, GibToBytes;
    KeyTold(m, MemTotal);
    KeyTold(m, MemUsed);
    KeyTold(m, MemFree);
    KeyTold(m, MemPercent);
  }

  lemma IoIsTold(m: Snapshot)
    ensures IoTold(Flat(m), m.diskIo)
  {
    hide Flat, Told;
    KeyTold(m, ReadBytes);
    KeyTold(m, WriteBytes);
    KeyTold(m, ReadOps);
    KeyTold(m, WriteOps);
  }

  lemma NetIsTold(m: Snapshot)
    ensures NetTold(Flat(m), m.network)
  {
    hide Flat, Told;
    KeyTold(m, NetRx);
    KeyTold(m, NetTx);
  }

  /** The i-th disk is the last at its mount point. */
  ghost predicate LastDisk(disks: seq<Disk>, i: int) {
    0 <= i < |disks| && forall k :: i < k < |disks| ==> disks[k].mount != disks[i].mount
  }

  /** Mount points that are left out: none at all, snap loops and container mounts. */
  ghost predicate LeftOut(mount: string) {
    mount == "" || "/snap/" <= mount || "/var/lib/docker/" <= mount || "/run/docker/" <= mount
  }

  /** A mount's three keys carry the figures of this disk, unless the mount is left out. */
  ghost predicate MountTold(out: map<string, real>, d: Disk) {
    && Told(out, "disk.total_bytes|" + d.mount,
            if LeftOut(d.mount) then None else Some(GibToBytes(d.usage.total) as real))
    && Told(out, "disk.used_bytes|" + d.mount,
            if LeftOut(d.mount) then None else Some(GibToBytes(d.usage.used) as real))
    && Told(out, "disk.percent|" + d.mount, if LeftOut(d.mount) then None else Some(d.usage.percent))
  }

  lemma MountIsTold(m: Snapshot, i: int)
    requires LastDisk(m.disks, i)
    ensures MountTold(Flat(m), m.disks[i])
  {
    hide Flat, Told, GibToBytes;
    var mount := m.disks[i].mount;
    assert LastAt(m.disks, mount) == i;
    KeyTold(m, DiskTotal(mount));
    KeyTold(m, DiskUsed(mount));
    KeyTold(m, DiskPercent(mount));
  }

  /** And there is no other key. */
  lemma NothingElseIsTold(m: Snapshot, key: string)
    requires key in Flat(m)
    ensures || key in {"cpu.usage", "cpu.freq_mhz", "cpu.load_1m", "cpu.load_5m", "cpu.load_15m", "cpu.temp_c"}
            || key in {"mem.total_bytes", "mem.used_bytes", "mem.free_bytes", "mem.percent"}
            || key in {"disk.io.read_bytes_per_s", "disk.io.write_bytes_per_s"}
            || key in {"disk.io.read_iops", "disk.io.write_iops", "net.rx_bytes_per_s", "net.tx_bytes_per_s"}
            || exists d :: d in m.disks && !LeftOut(d.mount) && key in
                 {"disk.total_bytes|" + d.mount, "disk.used_bytes|" + d.mount, "disk.percent|" + d.mount}
  {
    hide Flat;
    FlatMeaning(m);
    var k :| key == Key(k);
    if PerMount(k) {
      var d := m.disks[LastAt(m.disks, k.mount)];
      assert d in m.disks && !LeftOut(d.mount);
    }
  }

  // ----- the code

  lemma EncodeMeaning(vs: map<Metric, real>)
    ensures forall k :: Key(k) in Encode(vs) <==> k in vs
    ensures forall k :: k in vs ==> Encode(vs)[Key(k)] == vs[k]
    ensures forall key :: key in Encode(vs) ==> exists k :: k in vs && Key(k) == key
  {
    hide Key;
    AllKeysInjective();
  }

  lemma EncodePut(vs: map<Metric, real>, k: Metric, value: real)
    ensures Encode(vs)[Key(k) := value] == Encode(vs[k := value])
  {
    hide Key, Encode;
    var a, b := Encode(vs)[Key(k) := value], Encode(vs[k := value]);
    EncodeMeaning(vs);
    EncodeMeaning(vs[k := value]);
    forall j | j in vs && j != k ensures Key(j) != Key(k) { KeysInjective(j, k); }
    forall key ensures key in a <==> key in b {}
  }

  /** Where an undimensioned metric comes in the order they are written. */
  function Rank(k: Metric): nat {
    match k
    case CpuUsage => 0
    case CpuFreq => 1
    case Load1 => 2
    case Load5 => 3
    case Load15 => 4
    case CpuTemp => 5
    case MemTotal => 6
    case MemUsed => 7
    case MemFree => 8
    case MemPercent => 9
    case ReadBytes => 10
    case WriteBytes => 11
    case ReadOps => 12
    case WriteOps => 13
    case NetRx => 14
    case NetTx => 15
    case _ => 16
  }

  /** `vs` has the values of the first `n` metrics, and nothing else. */
  ghost predicate Written(vs: map<Metric, real>, m: Snapshot, n: nat) {
    forall k :: (k in vs <==> Rank(k) < n && Value(m, k).Some?) && (k in vs ==> vs[k] == Value(m, k).value)
  }

  lemma RankedApart(a: Metric, b: Metric)
    requires !PerMount(a) && Rank(a) == Rank(b)
    ensures a == b
  {
  }

  /** The next metric in order has been written if it has a value, or else been left out. */
  lemma WrittenNext(vs: map<Metric, real>, m: Snapshot, k: Metric)
    requires !PerMount(k) && Written(vs, m, Rank(k))
    ensures Written(if Value(m, k).Some? then vs[k := Value(m, k).value] else vs, m, Rank(k) + 1)
  {
    hide Rank, Value;
    forall b | Rank(b) == Rank(k) ensures b == k { RankedApart(k, b); }
  }

  method Put(m: Snapshot, out: map<string, real>, ghost vs: map<Metric, real>, k: Metric, value: real)
      returns (next: map<string, real>, ghost nexts: map<Metric, real>)
    requires out == Encode(vs) && Written(vs, m, Rank(k)) && !PerMount(k) && Value(m, k) == Some(value)
    ensures next == Encode(nexts) && Written(nexts, m, Rank(k) + 1)
  {
    hide Encode, Key, Written, Value, Rank;
    EncodePut(vs, k, value);
    WrittenNext(vs, m, k);
    next, nexts := out[Key(k) := value], vs[k := value];
  }

  method PutLoad(m: Snapshot, before: map<string, real>, ghost was: map<Metric, real>)
      returns (out: map<string, real>, ghost vs: map<Metric, real>)
    requires before == Encode(was) && Written(was, m, 2)
    ensures out == Encode(vs) && Written(vs, m, 5)
  {
    hide Encode, Key, Written;
    out, vs := before, was;
    if m.cpu.load.Some? {
      out, vs := Put(m, out, vs, Load1, m.cpu.load.value.one);
      out, vs := Put(m, out, vs, Load5, m.cpu.load.value.five);
      out, vs := Put(m, out, vs, Load15, m.cpu.load.value.fifteen);
    } else {
      WrittenNext(vs, m, Load1);
      WrittenNext(vs, m, Load5);
      WrittenNext(vs, m, Load15);
    }
  }

  method PutCpu(m: Snapshot) returns (out: map<string, real>, ghost vs: map<Metric, real>)
    ensures out == Encode(vs) && Written(vs, m, 6)
  {
    hide Encode, Key, Written;
    vs := map[];
    NoneWritten(m);
    out := map[];
    out, vs := Put(m, out, vs, CpuUsage, m.cpu.usage);
    if m.cpu.freq != 0.0 {
      out, vs := Put(m, out, vs, CpuFreq, m.cpu.freq);
    } else {
      WrittenNext(vs, m, CpuFreq);
    }
    out, vs := PutLoad(m, out, vs);
    if m.cpu.temp.Some? && m.cpu.temp.value != 0.0 {
      out, vs := Put(m, out, vs, CpuTemp, m.cpu.temp.value);
    } else {
      WrittenNext(vs, m, CpuTemp);
    }
  }

  method PutIo(m: Snapshot, before: map<string, real>, ghost was: map<Metric, real>)
      returns (out: map<string, real>, ghost vs: map<Metric, real>)
    requires before == Encode(was) && Written(was, m, 10)
    ensures out == Encode(vs) && Written(vs, m, 16)
  {
    hide Encode, Key, Written;
    out, vs := Put(m, before, was, ReadBytes, m.diskIo.readBytesPerSec as real);
    out, vs := Put(m, out, vs, WriteBytes, m.diskIo.writeBytesPerSec as real);
    out, vs := Put(m, out, vs, ReadOps, m.diskIo.readIops as real);
    out, vs := Put(m, out, vs, WriteOps, m.diskIo.writeIops as real);
    out, vs := Put(m, out, vs, NetRx, m.network.rx as real);
    out, vs := Put(m, out, vs, NetTx, m.network.tx as real);
  }

  /** The undimensioned metrics. */
  method PutPlain(m: Snapshot) returns (out: map<string, real>)
    ensures out == Flat(m.(disks := []))
  {
    hide Encode, Key, Written, Values, GibToBytes;
    ghost var vs;
    out, vs := PutCpu(m);
    out, vs := Put(m, out, vs, MemTotal, GibToBytes(m.mem.total) as real);
    out, vs := Put(m, out, vs, MemUsed, GibToBytes(m.mem.used) as real);
    out, vs := Put(m, out, vs, MemFree, GibToBytes(m.mem.free) as real);
    out, vs := Put(m, out, vs, MemPercent, m.mem.percent);
    out, vs := PutIo(m, out, vs);
    PlainValues(m, vs);
  }

  lemma PlainValues(m: Snapshot, vs: map<Metric, real>)
    requires Written(vs, m, 16)
    ensures vs == Values(m.(disks := []))
  {
    hide Values;
    forall k ensures k in vs <==> Value(m.(disks := []), k).Some?
             ensures k in vs ==> vs[k] == Value(m.(disks := []), k).value
    {
    }
    forall k { AllAreCandidates(m.(disks := []), k); }
  }

  lemma NoneWritten(m: Snapshot)
    ensures Encode(map[]) == map[] && Written(map[], m, 0)
  {
    hide Value;
  }

  lemma DiskAtStep(disks: seq<Disk>, d: Disk, mount: string)
    ensures DiskAt(disks + [d], mount) == if mount == d.mount && Admitted(mount) then Some(d) else DiskAt(disks, mount)
  {
    hide Admitted;
    assert (disks + [d])[..|disks|] == disks;
  }

  function ValueOf(d: Disk, k: Metric): real {
    match k
    case DiskTotal(_) => GibToBytes(d.usage.total) as real
    case DiskUsed(_) => GibToBytes(d.usage.used) as real
    case _ => d.usage.percent
  }

  lemma ValueStep(m: Snapshot, d: Disk, k: Metric)
    ensures Value(m.(disks := m.disks + [d]), k) ==
            if PerMount(k) && k.mount == d.mount && Admitted(d.mount) then Some(ValueOf(d, k)) else Value(m, k)
  {
    hide Admitted, GibToBytes, DiskAt;
    if PerMount(k) { DiskAtStep(m.disks, d, k.mount); }
  }

  /** One disk more: its three values replace those its mount had, if the mount is admitted. */
  lemma ValuesStep(m: Snapshot, d: Disk)
    ensures Values(m.(disks := m.disks + [d])) ==
            if !Admitted(d.mount) then Values(m)
            else Values(m)[DiskTotal(d.mount) := GibToBytes(d.usage.total) as real]
                          [DiskUsed(d.mount) := GibToBytes(d.usage.used) as real]
                          [DiskPercent(d.mount) := d.usage.percent]
  {
    hide Admitted, GibToBytes, Values, Value;
    forall k { ValueStep(m, d, k); }
    forall k { AllAreCandidates(m, k); }
    forall k { AllAreCandidates(m.(disks := m.disks + [d]), k); }
  }

  /** One turn of the loop over the disks. */
  method PutMount(m: Snapshot, d: Disk, before: map<string, real>) returns (out: map<string, real>)
    requires before == Flat(m)
    ensures out == Flat(m.(disks := m.disks + [d]))
  {
    hide Encode, Key, Values, GibToBytes;
    ValuesStep(m, d);
    if d.mount == "" {
      return before;
    }
    if "/snap/" <= d.mount || "/var/lib/docker/" <= d.mount || "/run/docker/" <= d.mount {
      return before;
    }
    ghost var vs := Values(m);
    ghost var v1 := vs[DiskTotal(d.mount) := GibToBytes(d.usage.total) as real];
    ghost var v2 := v1[DiskUsed(d.mount) := GibToBytes(d.usage.used) as real];
    EncodePut(vs, DiskTotal(d.mount), GibToBytes(d.usage.total) as real);
    EncodePut(v1, DiskUsed(d.mount), GibToBytes(d.usage.used) as real);
    EncodePut(v2, DiskPercent(d.mount), d.usage.percent);
    out := before[Key(DiskTotal(d.mount)) := GibToBytes(d.usage.total) as real];
    out := out[Key(DiskUsed(d.mount)) := GibToBytes(d.usage.used) as real];
    out := out[Key(DiskPercent(d.mount)) := d.usage.percent];
  }

  method Flatten(m: Snapshot) returns (out: map<string, real>)
    ensures out == Flat(m)
    ensures CpuTold(out, m.cpu) && MemTold(out, m.mem) && IoTold(out, m.diskIo) && NetTold(out, m.network)
    ensures forall i :: LastDisk(m.disks, i) ==> MountTold(out, m.disks[i])
  {
    hide Flat, CpuTold, MemTold, IoTold, NetTold, MountTold;
    CpuIsTold(m);
    MemIsTold(m);
    IoIsTold(m);
    NetIsTold(m);
    forall i | LastDisk(m.disks, i) { MountIsTold(m, i); }
    out := PutPlain(m);
    for i := 0 to |m.disks|
      invariant out == Flat(m.(disks := m.disks[..i]))
    {
      out := PutMount(m.(disks := m.disks[..i]), m.disks[i], out);
      assert m.disks[..i] + [m.disks[i]] == m.disks[..i + 1];
    }
    assert m.disks[..|m.disks|] == m.disks;
  }

  /** Snapshot that are memory or disk sizes. */
  predicate IsSize(k: Metric) {
    k.MemTotal? || k.MemUsed? || k.MemFree? || k.DiskTotal? || k.DiskUsed?
  }

  /** The map is never empty, and every size in it respects the hub's ceiling of 2^41 bytes. */
  lemma FlatSizes(m: Snapshot)
    ensures "cpu.usage" in Flat(m)
    ensures forall k :: IsSize(k) && Key(k) in Flat(m) ==> 0.0 <= Flat(m)[Key(k)] <= BYTES_CEILING as real
  {
    hide Flat;
    FlatMeaning(m);
    assert Key(CpuUsage) == "cpu.usage" && Value(m, CpuUsage).Some?;
  }
}
