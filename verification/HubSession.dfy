/** One connection to the hub: handshake, then rounds of frames, as a trace of what was sent. */
module HubSession {
  import opened Options
  import opened Ranking
  import opened Snapshots
  import opened Units
  import opened Utf8Clip
  import F = Flatten

  const PROTOCOL_VERSION: nat := 1
  const AGENT_VERSION: string := "0.1.1"
  const PROCESSES_MAX: nat := 25
  const CLIP: nat := 256

  datatype Item = Item(pid: nat, name: seq<Byte>, username: seq<Byte>, memBytes: nat)

  datatype CpuItem = CpuItem(pid: nat, name: seq<Byte>, username: seq<Byte>, cpuPct: real)

  /** What the collector was started with, and what it finds out about its machine. */
  datatype Config = Config(key: string, hostName: string, tags: seq<string>, interval: real)

  datatype Machine = Machine(hostname: Option<string>, os: string, arch: string, cores: Option<nat>)

  datatype Frame =
    | Hello(v: nat, key: string, hostName: string, hostname: string, os: string, arch: string,
            agentVersion: string, cores: Option<nat>, tags: seq<string>)
    | Samples(ts: int, metrics: map<string, real>)
    | Processes(ts: int, metric: string, items: seq<Item>)
    | ProcessesCpu(ts: int, cpuItems: seq<CpuItem>)

  // ----- the environment of a connection

  /** The hub's answer to the hello. */
  datatype First = Welcome(interval: Option<real>) | HubError | OtherFrame | Malformed | NonText | Failed | Closed

  /** What ends or interrupts the wait between rounds, in the order it happens. */
  datatype Wake = StopFired | SleepDone | HubClosed | OtherMessage | ReceiveFailed

  /** One turn of the push loop: what it loads, whether each send succeeds, and the wait after it. */
  datatype Round = Round(snap: Snapshot, ts: int, sends: (bool, bool, bool), wakes: seq<Wake>)

  datatype End = Ok | Err | Running

  /** The frames sent, the lengths of the sleeps asked for, and how it ended. */
  datatype Trace = Trace(sent: seq<Frame>, slept: seq<real>, end: End)

  function HelloOf(c: Config, m: Machine): Frame {
    Hello(PROTOCOL_VERSION, c.key, c.hostName, if m.hostname.Some? then m.hostname.value else "unknown",
          m.os, m.arch, AGENT_VERSION, m.cores, c.tags)
  }

  /** The hub's interval, or else the sampler's, but no less than a tenth of a second. */
  function Interval(c: Config, suggested: Option<real>): real {
    var interval := if suggested.Some? then suggested.value else c.interval;
    if interval >= 0.1 then interval else 0.1
  }

  /** A hello of protocol 1 and agent 0.1.1 that gives each of these facts in its own place. */
  ghost predicate Introduces(f: Frame, c: Config, m: Machine) {
    && f.Hello? && f.v == 1 && f.agentVersion == "0.1.1"
    && f.key == c.key && f.hostName == c.hostName && f.tags == c.tags
    && f.os == m.os && f.arch == m.arch && f.cores == m.cores
    && (m.hostname.Some? ==> f.hostname == m.hostname.value)
    && (m.hostname.None? ==> f.hostname == "unknown")
  }

  /** The hub's interval decides if it names one, else the sampler's; a tenth of a second is the least. */
  ghost predicate Paces(sleep: real, hub: Option<real>, own: real) {
    && (hub.Some? && hub.value >= 0.1 ==> sleep == hub.value)
    && (hub.Some? && hub.value < 0.1 ==> sleep == 0.1)
    && (hub.None? && own >= 0.1 ==> sleep == own)
    && (hub.None? && own < 0.1 ==> sleep == 0.1)
  }

  // ----- the frames a round is meant to send

  function MemBytes(mem: real): nat {
    Min(ToU64(mem * 1024.0 * 1024.0), BYTES_CEILING)
  }

  function Items(ps: seq<Row>): (items: seq<Item>)
    ensures |items| == Min(|ps|, PROCESSES_MAX)
  {
    seq(Min(|ps|, PROCESSES_MAX), i requires 0 <= i < Min(|ps|, PROCESSES_MAX) =>
        Item(ps[i].pid, Clipped(Utf8(ps[i].name), CLIP), Clipped(Utf8(ps[i].username), CLIP), MemBytes(ps[i].figure)))
  }

  function CpuItems(ps: seq<Row>): (items: seq<CpuItem>)
    ensures |items| == Min(|ps|, PROCESSES_MAX)
  {
    seq(Min(|ps|, PROCESSES_MAX), i requires 0 <= i < Min(|ps|, PROCESSES_MAX) =>
        CpuItem(ps[i].pid, Clipped(Utf8(ps[i].name), CLIP), Clipped(Utf8(ps[i].username), CLIP), ps[i].figure))
  }

  /** samples, processes if there are any, processes_cpu if there are any: one snapshot, one time. */
  function Block(snap: Snapshot, ts: int): (frames: seq<Frame>)
    ensures 1 <= |frames| <= 3
  {
    [Samples(ts, F.Flat(snap))]
    + (if snap.processes == [] then [] else [Processes(ts, snap.processesMetric, Items(snap.processes))])
    + (if snap.byCpu == [] then [] else [ProcessesCpu(ts, CpuItems(snap.byCpu))])
  }

  function RoundBlocks(rounds: seq<Round>): (blocks: seq<seq<Frame>>)
    ensures |blocks| == |rounds|
    ensures forall i :: 0 <= i < |rounds| ==> blocks[i] == Block(rounds[i].snap, rounds[i].ts)
  {
    seq(|rounds|, i requires 0 <= i < |rounds| => Block(rounds[i].snap, rounds[i].ts))
  }

  function Concat(blocks: seq<seq<Frame>>): seq<Frame> {
    if blocks == [] then [] else Concat(blocks[..|blocks| - 1]) + blocks[|blocks| - 1]
  }

  /** All frames of all rounds. */
  function Blocks(rounds: seq<Round>): seq<Frame> {
    Concat(RoundBlocks(rounds))
  }

  lemma ConcatNone()
    ensures Concat([]) == []
  {
  }

  lemma ConcatStep(blocks: seq<seq<Frame>>, i: nat)
    requires i < |blocks|
    ensures Concat(blocks[..i + 1]) == Concat(blocks[..i]) + blocks[i]
  {
    assert blocks[..i + 1][..i] == blocks[..i];
  }

  // ----- the code

  /** The wake that decides: the first that is not a drained message. */
  ghost predicate Decides(wakes: seq<Wake>, k: int) {
    0 <= k < |wakes| && wakes[k] != OtherMessage && forall i :: 0 <= i < k ==> wakes[i] == OtherMessage
  }

  ghost predicate SleepsThrough(wakes: seq<Wake>) {
    exists k :: Decides(wakes, k) && wakes[k] == SleepDone
  }

  /** How a wait that is still going or was broken off leaves the connection. */
  ghost predicate EndsAs(wakes: seq<Wake>, end: End) {
    match end
    case Running => SleepsThrough(wakes) || forall i :: 0 <= i < |wakes| ==> wakes[i] == OtherMessage
    case Ok => exists k :: Decides(wakes, k) && (wakes[k] == StopFired || wakes[k] == HubClosed)
    case Err => exists k :: Decides(wakes, k) && wakes[k] == ReceiveFailed
  }

  /** At most one wake decides, so a wait ends in one way. */
  lemma OneEnd(wakes: seq<Wake>, end: End, end': End)
    requires EndsAs(wakes, end) && EndsAs(wakes, end')
    ensures end == end'
    ensures SleepsThrough(wakes) ==> end == Running
  {
    forall j, k | Decides(wakes, j) && Decides(wakes, k) ensures j == k {}
  }

  /** The wait between rounds. */
  method Wait(wakes: seq<Wake>) returns (woken: bool, end: End)
    ensures woken <==> SleepsThrough(wakes)
    ensures EndsAs(wakes, end)
  {
    for i := 0 to |wakes|
      invariant forall k :: 0 <= k < i ==> wakes[k] == OtherMessage
    {
      if wakes[i] != OtherMessage {
        assert Decides(wakes, i);
        assert forall k :: Decides(wakes, k) ==> k == i;
      }
      match wakes[i]
      case StopFired => return false, Ok;
      case SleepDone => return true, Running;
      case HubClosed => return false, Ok;
      case OtherMessage => continue;
      case ReceiveFailed => return false, Err;
    }
    return false, Running;
  }

  /** Whether the send of `f` in this round succeeds. */
  predicate SendOk(r: Round, f: Frame) {
    match f
    case Hello(_, _, _, _, _, _, _, _, _) => false
    case Samples(_, _) => r.sends.0
    case Processes(_, _, _) => r.sends.1
    case ProcessesCpu(_, _) => r.sends.2
  }

  ghost predicate Delivered(r: Round) {
    forall f :: f in Block(r.snap, r.ts) ==> SendOk(r, f)
  }

  /** `part` is what got out of a round before its first failed send. */
  ghost predicate CutShort(r: Round, part: seq<Frame>) {
    var block := Block(r.snap, r.ts);
    part < block && (forall f :: f in part ==> SendOk(r, f)) && !SendOk(r, block[|part|])
  }

  /** One round's sends, stopping at the first that fails. */
  method SendRound(r: Round) returns (sent: seq<Frame>, ok: bool)
    ensures ok <==> Delivered(r)
    ensures if ok then sent == Block(r.snap, r.ts) else CutShort(r, sent)
  {
    hide F.Flat;
    sent, ok := [], false;
    var metrics := F.Flatten(r.snap);
    F.FlatSizes(r.snap);
    ghost var block := Block(r.snap, r.ts);
    if metrics != map[] {
      assert block[0] == Samples(r.ts, metrics);
      if !r.sends.0 {
        assert !SendOk(r, block[0]);
        return;
      }
      sent := sent + [Samples(r.ts, metrics)];
    }
    if r.snap.processes != [] {
      assert block[1] == Processes(r.ts, r.snap.processesMetric, Items(r.snap.processes));
      if !r.sends.1 {
        assert !SendOk(r, block[1]);
        return;
      }
      sent := sent + [Processes(r.ts, r.snap.processesMetric, Items(r.snap.processes))];
    }
    if r.snap.byCpu != [] {
      assert block[|sent|] == ProcessesCpu(r.ts, CpuItems(r.snap.byCpu));
      if !r.sends.2 {
        assert !SendOk(r, block[|sent|]);
        return;
      }
      sent := sent + [ProcessesCpu(r.ts, CpuItems(r.snap.byCpu))];
    }
    ok := true;
  }

  /** Every send succeeds and every wait runs its length. */
  ghost predicate Undisturbed(rounds: seq<Round>) {
    forall i :: 0 <= i < |rounds| ==> Delivered(rounds[i]) && SleepsThrough(rounds[i].wakes)
  }

  /** Round `full` is begun: it exists and the sleep before it, if any, ran its length. */
  ghost predicate Begun(rounds: seq<Round>, full: nat) {
    full < |rounds| && (full == 0 || SleepsThrough(rounds[full - 1].wakes))
  }

  /**
   What a push loop sent, the sleeps it asked for and how it ended: `full` rounds whole, a sleep of
   `interval` after each, and each but the last sleep at full length; then either the next round was
   begun and a failed send cut it short to `part`, or it was not begun and the last wait decides.
   */
  ghost predicate Outcome(rounds: seq<Round>, interval: real, full: nat, part: seq<Frame>, t: Trace) {
    && full <= |rounds|
    && |t.slept| == full && (forall i :: 0 <= i < full ==> t.slept[i] == interval)
    && t.sent == Concat(RoundBlocks(rounds)[..full]) + part
    && (forall i :: 0 <= i < full ==> Delivered(rounds[i]))
    && (forall i :: 0 <= i < full - 1 ==> SleepsThrough(rounds[i].wakes))
    && (if Begun(rounds, full) then CutShort(rounds[full], part) && t.end == Err
        else part == [] && if full == 0 then t.end == Running else EndsAs(rounds[full - 1].wakes, t.end))
  }

  /** `push_loop` over the rounds the environment offers. */
  method PushLoop(rounds: seq<Round>, interval: real) returns (t: Trace)
    ensures exists full, part :: Outcome(rounds, interval, full, part, t)
  {
    hide Block, Delivered, CutShort, SendOk, EndsAs, SleepsThrough, Concat;
    ConcatNone();
    ghost var blocks := RoundBlocks(rounds);
    var sent, slept, end := [], [], Running;
    for i := 0 to |rounds|
      invariant sent == Concat(blocks[..i])
      invariant |slept| == i && forall k :: 0 <= k < i ==> slept[k] == interval
      invariant if i == 0 then end == Running else EndsAs(rounds[i - 1].wakes, end)
      invariant forall k :: 0 <= k < i ==> Delivered(rounds[k]) && SleepsThrough(rounds[k].wakes)
    {
      var frames, ok := SendRound(rounds[i]);
      ConcatStep(blocks, i);
      sent := sent + frames;
      if !ok {
        t := Trace(sent, slept, Err);
        assert Outcome(rounds, interval, i, frames, t);
        return;
      }
      slept := slept + [interval];
      var woken;
      woken, end := Wait(rounds[i].wakes);
      if !woken {
        t := Trace(sent, slept, end);
        assert Outcome(rounds, interval, i + 1, [], t);
        return;
      }
    }
    t := Trace(sent, slept, end);
    assert Outcome(rounds, interval, |rounds|, [], t);
  }

  lemma CutIsNotDelivered(r: Round, part: seq<Frame>)
    requires CutShort(r, part)
    ensures !Delivered(r) && forall i :: 0 <= i < |part| ==> SendOk(r, Block(r.snap, r.ts)[i])
  {
    hide Block, SendOk;
    forall i | 0 <= i < |part| ensures SendOk(r, Block(r.snap, r.ts)[i]) {
      assert part[i] == Block(r.snap, r.ts)[i];
    }
  }

  lemma CutsAgree(r: Round, part: seq<Frame>, part': seq<Frame>)
    requires CutShort(r, part) && CutShort(r, part')
    ensures part == part'
  {
    hide Block, SendOk;
    CutIsNotDelivered(r, part);
    CutIsNotDelivered(r, part');
  }

  /** The environment leaves no choice: an outcome determines what was sent and how it ended. */
  lemma OutcomeIsUnique(rounds: seq<Round>, interval: real, full: nat, part: seq<Frame>, t: Trace,
                        full': nat, part': seq<Frame>, t': Trace)
    requires Outcome(rounds, interval, full, part, t) && Outcome(rounds, interval, full', part', t')
    ensures full == full' && part == part' && t == t'
  {
    hide Block, SendOk, EndsAs, SleepsThrough, Concat, CutShort;
    forall i, p | 0 <= i < |rounds| && CutShort(rounds[i], p) ensures !Delivered(rounds[i]) {
      CutIsNotDelivered(rounds[i], p);
    }
    assert full == full';
    if Begun(rounds, full) {
      CutsAgree(rounds[full], part, part');
    } else if full > 0 {
      OneEnd(rounds[full - 1].wakes, t.end, t'.end);
    }
  }

  /** An outcome is a prefix of all frames, and all of them when nothing goes wrong. */
  lemma OutcomeIsPrefix(rounds: seq<Round>, interval: real, full: nat, part: seq<Frame>, t: Trace)
    requires Outcome(rounds, interval, full, part, t)
    ensures t.sent <= Blocks(rounds)
    ensures Undisturbed(rounds) ==> t.sent == Blocks(rounds) && t.end == Running && |t.slept| == |rounds|
  {
    hide Block, SendOk, Concat, SleepsThrough, EndsAs;
    WholeBlocksArePrefix(RoundBlocks(rounds), full, part);
    if Undisturbed(rounds) {
      if Begun(rounds, full) {
        CutIsNotDelivered(rounds[full], part);
        assert false;
      }
      assert RoundBlocks(rounds)[..|rounds|] == RoundBlocks(rounds);
      if rounds != [] { OneEnd(rounds[|rounds| - 1].wakes, t.end, t.end); }
    }
  }

  /**
   `connect_and_push`: nothing but the hello is sent until the hub says welcome, and then rounds are
   paced by the hub's interval, or the sampler's, and never less than a tenth of a second apart.
   */
  method ConnectAndPush(config: Config, connects: bool, machine: Machine, helloSent: bool, first: First,
                        rounds: seq<Round>) returns (t: Trace)
    ensures t.sent <= [HelloOf(config, machine)] + Blocks(rounds)
    ensures !(connects && helloSent) ==> t == Trace([], [], Err)
    ensures connects && helloSent && !first.Welcome? ==> t == Trace([HelloOf(config, machine)], [], Err)
    ensures connects && helloSent && first.Welcome? ==>
      && [HelloOf(config, machine)] <= t.sent
      && exists full, part :: Outcome(rounds, Interval(config, first.interval), full, part, t.(sent := t.sent[1..]))
    ensures connects && helloSent && first.Welcome? && Undisturbed(rounds) ==>
      t.sent == [HelloOf(config, machine)] + Blocks(rounds) && t.end == Running && |t.slept| == |rounds|
    ensures forall i :: 0 <= i < |t.slept| ==> t.slept[i] >= 0.1
    ensures t.sent != [] ==> Introduces(t.sent[0], config, machine)
    ensures forall i :: 0 <= i < |t.slept| ==> first.Welcome? && Paces(t.slept[i], first.interval, config.interval)
  {
    hide F.Flat, Undisturbed, Blocks, Concat, CutShort, Delivered, Begun, EndsAs;
    if !connects || !helloSent {
      return Trace([], [], Err);
    }
    var hello := HelloOf(config, machine);
    if !first.Welcome? {
      return Trace([hello], [], Err);
    }
    var interval := Interval(config, first.interval);
    var pushed := PushLoop(rounds, interval);
    ghost var full, part :| Outcome(rounds, interval, full, part, pushed);
    OutcomeIsPrefix(rounds, interval, full, part, pushed);
    t := pushed.(sent := [hello] + pushed.sent);
    assert t.(sent := t.sent[1..]) == pushed;
  }

  lemma {:induction false} ConcatPrefix(blocks: seq<seq<Frame>>, n: nat)
    requires n <= |blocks|
    ensures Concat(blocks[..n]) <= Concat(blocks)
  {
    if n < |blocks| {
      var front := blocks[..|blocks| - 1];
      ConcatPrefix(front, n);
      assert front[..n] == blocks[..n];
    } else {
      assert blocks[..n] == blocks;
    }
  }

  lemma AppendPrefix(a: seq<Frame>, part: seq<Frame>, whole: seq<Frame>, all: seq<Frame>)
    requires part <= whole && a + whole <= all
    ensures a + part <= all
  {
    assert (a + part) == (a + whole)[..|a + part|];
  }

  lemma WholeBlocksArePrefix(blocks: seq<seq<Frame>>, full: nat, part: seq<Frame>)
    requires full <= |blocks|
    requires part != [] ==> full < |blocks| && part <= blocks[full]
    ensures Concat(blocks[..full]) + part <= Concat(blocks)
  {
    hide Concat;
    if part == [] {
      ConcatPrefix(blocks, full);
      assert Concat(blocks[..full]) + part == Concat(blocks[..full]);
    } else {
      ConcatStep(blocks, full);
      ConcatPrefix(blocks, full + 1);
      AppendPrefix(Concat(blocks[..full]), part, blocks[full], Concat(blocks));
    }
  }

  // ----- what a hub can rely on, frame by frame

  /** The frame order of hello (samples processes? processes_cpu?)*, with one time a round. */
  predicate Follows(a: Frame, b: Frame) {
    match b
    case Hello(_, _, _, _, _, _, _, _, _) => false
    case Samples(_, _) => true
    case Processes(ts, _, _) => a.Samples? && a.ts == ts
    case ProcessesCpu(ts, _) => (a.Samples? || a.Processes?) && a.ts == ts
  }

  ghost predicate WellOrdered(trace: seq<Frame>) {
    && (trace != [] ==> trace[0].Hello?)
    && (|trace| > 1 ==> trace[1].Samples?)
    && (forall i :: 0 <= i < |trace| - 1 ==> Follows(trace[i], trace[i + 1]))
  }

  ghost predicate BlockOrdered(block: seq<Frame>) {
    && block != [] && block[0].Samples?
    && forall i :: 0 <= i < |block| - 1 ==> Follows(block[i], block[i + 1])
  }

  lemma {:induction false} ConcatIsWellOrdered(hello: Frame, blocks: seq<seq<Frame>>)
    requires hello.Hello? && forall i :: 0 <= i < |blocks| ==> BlockOrdered(blocks[i])
    ensures WellOrdered([hello] + Concat(blocks))
  {
    if blocks != [] {
      var front, last := blocks[..|blocks| - 1], blocks[|blocks| - 1];
      ConcatIsWellOrdered(hello, front);
      assert [hello] + Concat(blocks) == [hello] + Concat(front) + last;
    }
  }

  lemma BlockIsOrdered(snap: Snapshot, ts: int)
    ensures BlockOrdered(Block(snap, ts))
  {
  }

  /** Whatever a connection has sent so far, cut anywhere, is in order. */
  lemma SentIsWellOrdered(hello: Frame, rounds: seq<Round>, sent: seq<Frame>)
    requires hello.Hello? && sent <= [hello] + Blocks(rounds)
    ensures WellOrdered(sent)
  {
    forall i | 0 <= i < |rounds| ensures BlockOrdered(RoundBlocks(rounds)[i]) {
      BlockIsOrdered(rounds[i].snap, rounds[i].ts);
    }
    ConcatIsWellOrdered(hello, RoundBlocks(rounds));
  }

  /** `item` shows the row: same pid, texts cut to whole characters, memory in bytes up to the ceiling. */
  ghost predicate Shows(item: Item, p: Row) {
    && item.pid == p.pid
    && LongestValidPrefix(item.name, Utf8(p.name), 256)
    && LongestValidPrefix(item.username, Utf8(p.username), 256)
    && item.memBytes <= 0x200_0000_0000
    && (p.figure >= 0.0 && p.figure * 1024.0 * 1024.0 <= 2199023255552.0 ==>
          item.memBytes as real <= p.figure * 1024.0 * 1024.0 < item.memBytes as real + 1.0)
    && (p.figure * 1024.0 * 1024.0 > 2199023255552.0 ==> item.memBytes == 0x200_0000_0000)
    && (p.figure < 0.0 ==> item.memBytes == 0)
  }

  ghost predicate ShowsCpu(item: CpuItem, p: Row) {
    && item.pid == p.pid && item.cpuPct == p.figure
    && LongestValidPrefix(item.name, Utf8(p.name), 256)
    && LongestValidPrefix(item.username, Utf8(p.username), 256)
  }

  lemma TextsShown(p: Row)
    ensures LongestValidPrefix(Clipped(Utf8(p.name), CLIP), Utf8(p.name), CLIP)
    ensures LongestValidPrefix(Clipped(Utf8(p.username), CLIP), Utf8(p.username), CLIP)
  {
    Utf8Valid(p.name);
    Utf8Valid(p.username);
    ClippedIsLongest(Utf8(p.name), CLIP);
    ClippedIsLongest(Utf8(p.username), CLIP);
  }

  /** What each frame of a round says about the one snapshot and the one time of that round. */
  ghost predicate Tells(f: Frame, snap: Snapshot, at: int) {
    match f
    case Hello(_, _, _, _, _, _, _, _, _) => false
    case Samples(ts, metrics) => ts == at && metrics == F.Flat(snap) && "cpu.usage" in metrics
    case Processes(ts, metric, items) =>
      && ts == at && metric == snap.processesMetric
      && 0 < |items| == Min(|snap.processes|, 25)
      && forall i :: 0 <= i < |items| ==> Shows(items[i], snap.processes[i])
    case ProcessesCpu(ts, items) =>
      && ts == at
      && 0 < |items| == Min(|snap.byCpu|, 25)
      && forall i :: 0 <= i < |items| ==> ShowsCpu(items[i], snap.byCpu[i])
  }

  lemma ItemsTell(snap: Snapshot, ts: int)
    requires snap.processes != []
    ensures Tells(Processes(ts, snap.processesMetric, Items(snap.processes)), snap, ts)
  {
    var ps := snap.processes;
    forall i | 0 <= i < |Items(ps)| ensures Shows(Items(ps)[i], ps[i]) {
      hide Utf8, Clipped, LongestValidPrefix;
      TextsShown(ps[i]);
    }
  }

  lemma CpuItemsTell(snap: Snapshot, ts: int)
    requires snap.byCpu != []
    ensures Tells(ProcessesCpu(ts, CpuItems(snap.byCpu)), snap, ts)
  {
    var ps := snap.byCpu;
    forall i | 0 <= i < |CpuItems(ps)| ensures ShowsCpu(CpuItems(ps)[i], ps[i]) {
      hide Utf8, Clipped, LongestValidPrefix;
      TextsShown(ps[i]);
    }
  }

  lemma BlockTells(snap: Snapshot, ts: int)
    ensures forall f :: f in Block(snap, ts) ==> Tells(f, snap, ts)
  {
    hide F.Flat, Items, CpuItems, Shows, ShowsCpu;
    F.FlatSizes(snap);
    if snap.processes != [] { ItemsTell(snap, ts); }
    if snap.byCpu != [] { CpuItemsTell(snap, ts); }
  }

  lemma {:induction false} ConcatTells(rounds: seq<Round>, blocks: seq<seq<Frame>>, f: Frame) returns (i: nat)
    requires |blocks| == |rounds| && f in Concat(blocks)
    ensures i < |rounds| && f in blocks[i]
  {
    if f in blocks[|blocks| - 1] {
      i := |blocks| - 1;
    } else {
      i := ConcatTells(rounds[..|rounds| - 1], blocks[..|blocks| - 1], f);
    }
  }

  /** Every frame after the hello tells one round's snapshot, truly and within the hub's limits. */
  lemma SentTellsSnapshots(hello: Frame, rounds: seq<Round>, sent: seq<Frame>, k: nat) returns (i: nat)
    requires sent <= [hello] + Blocks(rounds) && 0 < k < |sent|
    ensures i < |rounds| && Tells(sent[k], rounds[i].snap, rounds[i].ts)
  {
    hide Tells, Block;
    assert sent[k] == ([hello] + Blocks(rounds))[k] == Blocks(rounds)[k - 1];
    i := ConcatTells(rounds, RoundBlocks(rounds), sent[k]);
    BlockTells(rounds[i].snap, rounds[i].ts);
  }
}
