/** One reading of the host, as every part of the collector passes it on. */
module Snapshots {
  import opened Disks
  import opened Options
  import opened Ranking
  import opened Rates
  import opened Units

  datatype Load = Load(one: real, five: real, fifteen: real)

  /** `temp` is absent where the sensor value is not finite. */
  datatype Cpu = Cpu(usage: real, temp: Option<real>, freq: real, load: Option<Load>)

  /** `other` stands for the user, the platform and its uptime text, and the number of cores. */
  datatype Snapshot = Snapshot(
    cpu: Cpu, mem: Mem, root: Usage, disks: seq<Disk>, diskIo: DiskIo, network: Throughput,
    processes: seq<Row>, processesMetric: string, byCpu: seq<Row>, ifaces: seq<Iface>, other: int)
}
