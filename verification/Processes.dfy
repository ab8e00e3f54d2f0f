/** The process table by memory: aggregation by display name, then the top ten by RSS or PSS. */
module Processes {
  import opened Ranking
  import opened StableSort
  import opened StreamingTopN
  import opened Text
  import opened Units

  /** One row of the scanned process list. `user` is empty when it cannot be resolved. */
  datatype Proc = Proc(pid: nat, name: string, isThread: bool, rss: nat, cpu: real, user: string)

  /** The accumulated group; `users` is an ordered set, listed in order. */
  datatype Group = Group(mem: real, pids: seq<nat>, users: seq<string>)

  /** What a process is charged: its RSS, or its PSS in KiB where that was readable. */
  datatype Meter = Rss | Pss(kb: map<nat, nat>)

  function Bytes(meter: Meter, p: Proc): nat {
    match meter
    case Rss => p.rss
    case Pss(kb) => if p.pid in kb then Min(kb[p.pid] * 1024, U64_MAX) else p.rss
  }

  function Sum(meter: Meter, ps: seq<Proc>): nat {
    if ps == [] then 0 else Sum(meter, ps[..|ps| - 1]) + Bytes(meter, ps[|ps| - 1])
  }

  function MiB(bytes: nat): real {
    bytes as real / 1048576.0
  }

  function DisplayName(p: Proc): string {
    if p.name == "" then "unknown" else p.name
  }

  predicate Belongs(p: Proc, name: string) {
    !p.isThread && DisplayName(p) == name
  }

  function Members(procs: seq<Proc>, name: string): seq<Proc> {
    if procs == [] then []
    else
      var front := Members(procs[..|procs| - 1], name);
      if Belongs(procs[|procs| - 1], name) then front + [procs[|procs| - 1]] else front
  }

  function Processes(procs: seq<Proc>): seq<Proc> {
    if procs == [] then []
    else
      var front := Processes(procs[..|procs| - 1]);
      if procs[|procs| - 1].isThread then front else front + [procs[|procs| - 1]]
  }

  function Names(procs: seq<Proc>): set<string> {
    set i | 0 <= i < |procs| && !procs[i].isThread :: DisplayName(procs[i])
  }

  function Pids(ps: seq<Proc>): (pids: seq<nat>)
    ensures |pids| == |ps| && forall i :: 0 <= i < |ps| ==> pids[i] == ps[i].pid
  {
    seq(|ps|, i requires 0 <= i < |ps| => ps[i].pid)
  }

  function WithUser(users: seq<string>, user: string): seq<string> {
    if user == "" then users else Inserted(users, user)
  }

  /** The users of a group that could be resolved, as an ordered set. */
  function Users(ps: seq<Proc>): seq<string> {
    if ps == [] then [] else WithUser(Users(ps[..|ps| - 1]), ps[|ps| - 1].user)
  }

  function GroupOf(ps: seq<Proc>): Group {
    Group(MiB(Sum(Rss, ps)), Pids(ps), Users(ps))
  }

  /** The groups, stated name by name from the members rather than by accumulation. */
  function Grouped(procs: seq<Proc>): map<string, Group> {
    map name | name in Names(procs) :: GroupOf(Members(procs, name))
  }

  // ----- aggregation

  lemma {:induction false} MembersBelong(procs: seq<Proc>, name: string)
    ensures forall m :: m in Members(procs, name) <==> m in procs && Belongs(m, name)
    ensures Members(procs, name) == [] <==> name !in Names(procs)
  {
    if procs != [] {
      var front, last := procs[..|procs| - 1], procs[|procs| - 1];
      assert procs == front + [last];
      MembersBelong(front, name);
      NamesStep(front, last);
    }
  }

  lemma NamesStep(front: seq<Proc>, p: Proc)
    ensures Names(front + [p]) == Names(front) + if p.isThread then {} else {DisplayName(p)}
  {
    var procs := front + [p];
    assert procs[|front|] == p;
    forall i | 0 <= i < |front| ensures procs[i] == front[i] {}
  }

  lemma MembersStep(front: seq<Proc>, p: Proc, name: string)
    ensures Members(front + [p], name) ==
            if Belongs(p, name) then Members(front, name) + [p] else Members(front, name)
  {
    assert (front + [p])[..|front|] == front;
  }

  lemma SumStep(meter: Meter, front: seq<Proc>, p: Proc)
    ensures Sum(meter, front + [p]) == Sum(meter, front) + Bytes(meter, p)
  {
    assert (front + [p])[..|front|] == front;
  }

  lemma GroupStep(front: seq<Proc>, p: Proc, name: string)
    requires Belongs(p, name)
    ensures GroupOf(Members(front + [p], name))
         == var g := GroupOf(Members(front, name));
            Group(g.mem + MiB(p.rss), g.pids + [p.pid], WithUser(g.users, p.user))
  {
    var ms := Members(front, name);
    MembersStep(front, p, name);
    SumStep(Rss, ms, p);
    assert Pids(ms + [p]) == Pids(ms) + [p.pid];
    assert (ms + [p])[..|ms|] == ms;
  }

  /** The map so far: one group per name, made of the members visited. */
  ghost predicate Accumulated<G>(byName: map<string, G>, procs: seq<Proc>, groupOf: seq<Proc> -> G) {
    && byName.Keys == Names(procs)
    && forall name :: name in byName ==> byName[name] == groupOf(Members(procs, name))
  }

  lemma AccumulatedStep<G>(
      byName: map<string, G>, front: seq<Proc>, p: Proc, entry: G, groupOf: seq<Proc> -> G)
    requires Accumulated(byName, front, groupOf) && !p.isThread
    requires entry == groupOf(Members(front + [p], DisplayName(p)))
    ensures Accumulated(byName[DisplayName(p) := entry], front + [p], groupOf)
  {
    NamesStep(front, p);
    forall name | !Belongs(p, name) ensures Members(front + [p], name) == Members(front, name) {
      MembersStep(front, p, name);
    }
  }

  lemma AccumulatedSkip<G>(byName: map<string, G>, front: seq<Proc>, p: Proc, groupOf: seq<Proc> -> G)
    requires Accumulated(byName, front, groupOf) && p.isThread
    ensures Accumulated(byName, front + [p], groupOf)
  {
    NamesStep(front, p);
    forall name ensures Members(front + [p], name) == Members(front, name) {
      MembersStep(front, p, name);
    }
  }

  method AddTo(byName: map<string, Group>, p: Proc, ghost front: seq<Proc>) returns (entry: Group)
    requires Accumulated(byName, front, GroupOf) && !p.isThread
    ensures entry == GroupOf(Members(front + [p], DisplayName(p)))
  {
    var name := DisplayName(p);
    MembersBelong(front, name);
    GroupStep(front, p, name);
    entry := if name in byName then byName[name] else Group(0.0, [], []);
    entry := entry.(mem := entry.mem + MiB(p.rss), pids := entry.pids + [p.pid]);
    if p.user != "" {
      entry := entry.(users := Inserted(entry.users, p.user));
    }
  }

  method AggregateByName(procs: seq<Proc>) returns (byName: map<string, Group>)
    ensures byName == Grouped(procs)
    ensures forall name :: name in byName <==> exists p :: p in procs && Named(p, name)
    ensures forall name :: name in byName ==>
      && byName[name].pids == Pids(Called(procs, name)) && byName[name].mem == MiBCalled(procs, Rss, name)
      && ListsUsersOf(procs, name, byName[name].users)
  {
    forall name { GroupsByName(procs, name); }
    byName := map[];
    for i := 0 to |procs|
      invariant Accumulated(byName, procs[..i], GroupOf)
    {
      var p := procs[i];
      assert procs[..i + 1] == procs[..i] + [p];
      if p.isThread {
        AccumulatedSkip(byName, procs[..i], p, GroupOf);
        continue;
      }
      var entry := AddTo(byName, p, procs[..i]);
      AccumulatedStep(byName, procs[..i], p, entry, GroupOf);
      byName := byName[DisplayName(p) := entry];
    }
    assert procs[..|procs|] == procs;
  }

  // ----- conservation

  ghost predicate IsProcessTable(procs: seq<Proc>) {
    forall i, j :: 0 <= i < j < |procs| ==> procs[i].pid != procs[j].pid
  }

  /** Each non-thread pid lies in the group of its display name and in no other. */
  lemma EachPidInOneGroup(procs: seq<Proc>, i: nat, name: string)
    requires IsProcessTable(procs) && i < |procs|
    ensures name in Grouped(procs) && procs[i].pid in Grouped(procs)[name].pids <==> Belongs(procs[i], name)
  {
    MembersBelong(procs, name);
    var ms := Members(procs, name);
    if procs[i].pid in Pids(ms) {
      var k :| 0 <= k < |ms| && ms[k].pid == procs[i].pid;
      assert ms[k] in procs && ms[k] == procs[i];
    }
    if Belongs(procs[i], name) {
      assert procs[i] in ms;
      var k :| 0 <= k < |ms| && ms[k] == procs[i];
      assert Pids(ms)[k] == procs[i].pid;
    }
  }

  function GroupTotal(procs: seq<Proc>, names: seq<string>): nat {
    if names == [] then 0
    else GroupTotal(procs, names[..|names| - 1]) + Sum(Rss, Members(procs, names[|names| - 1]))
  }

  lemma GroupSumStep(front: seq<Proc>, p: Proc, name: string)
    ensures Sum(Rss, Members(front + [p], name))
         == Sum(Rss, Members(front, name)) + if Belongs(p, name) then p.rss else 0
  {
    MembersStep(front, p, name);
    SumStep(Rss, Members(front, name), p);
  }

  lemma {:induction false} GroupTotalStep(front: seq<Proc>, p: Proc, names: seq<string>)
    requires forall i, j :: 0 <= i < j < |names| ==> names[i] != names[j]
    ensures GroupTotal(front + [p], names)
         == GroupTotal(front, names) + if !p.isThread && DisplayName(p) in names then p.rss else 0
  {
    if names != [] {
      var others, name := names[..|names| - 1], names[|names| - 1];
      GroupTotalStep(front, p, others);
      assert DisplayName(p) in names <==> DisplayName(p) in others || DisplayName(p) == name by {
        assert names == others + [name];
      }
      assert name !in others;
      GroupSumStep(front, p, name);
    }
  }

  /** No byte is lost or counted twice: the groups add up to the processes. */
  lemma {:induction false} GroupsConserveMemory(procs: seq<Proc>, names: seq<string>)
    requires forall i, j :: 0 <= i < j < |names| ==> names[i] != names[j]
    requires forall name :: name in Names(procs) ==> name in names
    ensures GroupTotal(procs, names) == Sum(Rss, Processes(procs))
    decreases |procs|
  {
    if procs == [] {
      NoMembersNoMemory(names);
    } else {
      var front, p := procs[..|procs| - 1], procs[|procs| - 1];
      assert procs == front + [p];
      NamesStep(front, p);
      GroupTotalStep(front, p, names);
      GroupsConserveMemory(front, names);
      SumStep(Rss, Processes(front), p);
      if !p.isThread { assert DisplayName(p) in Names(procs); }
      assert Names(front) <= Names(procs);
    }
  }

  lemma {:induction false} NoMembersNoMemory(names: seq<string>)
    ensures GroupTotal([], names) == 0
  {
    if names != [] { NoMembersNoMemory(names[..|names| - 1]); }
  }

  // ----- ranking, and measuring PSS

  function MemOf(g: Group): real { g.mem }

  function RssOf(procs: seq<Proc>, pid: nat): nat {
    if procs == [] then 0
    else if procs[|procs| - 1].pid == pid then procs[|procs| - 1].rss
    else RssOf(procs[..|procs| - 1], pid)
  }

  function PidBytes(procs: seq<Proc>, kb: map<nat, nat>, pid: nat): nat {
    if pid in kb then Min(kb[pid] * 1024, U64_MAX) else RssOf(procs, pid)
  }

  function PidSum(procs: seq<Proc>, kb: map<nat, nat>, pids: seq<nat>): nat {
    if pids == [] then 0
    else PidSum(procs, kb, pids[..|pids| - 1]) + PidBytes(procs, kb, pids[|pids| - 1])
  }

  function GroupPssMiB(procs: seq<Proc>, kb: map<nat, nat>, pids: seq<nat>): real {
    MiB(Min(PidSum(procs, kb, pids), U64_MAX))
  }

  /** Saturating as it goes gives the saturated total. */
  method GroupPss(procs: seq<Proc>, kb: map<nat, nat>, pids: seq<nat>) returns (mib: real)
    ensures mib == GroupPssMiB(procs, kb, pids)
  {
    var sum := 0;
    for i := 0 to |pids|
      invariant sum == Min(PidSum(procs, kb, pids[..i]), U64_MAX)
    {
      var bytes := if pids[i] in kb then Min(kb[pids[i]] * 1024, U64_MAX) else RssOf(procs, pids[i]);
      sum := SaturatingAdd(sum, bytes);
      assert pids[..i + 1][..i] == pids[..i];
    }
    assert pids[..|pids|] == pids;
    mib := MiB(sum);
  }

  function Measure(procs: seq<Proc>, kb: map<nat, nat>, es: seq<Ranked<Entry<Group>>>): (ms: seq<Ranked<Entry<Group>>>)
    ensures |ms| == |es|
    ensures forall i :: 0 <= i < |es| ==>
      ms[i] == Ranked(GroupPssMiB(procs, kb, es[i].item.group.pids), es[i].item)
  {
    seq(|es|, i requires 0 <= i < |es| =>
        Ranked(GroupPssMiB(procs, kb, es[i].item.group.pids), es[i].item))
  }

  /** The streaming loop: it measures the first `read` entries and returns their table. */
  method StreamTop(procs: seq<Proc>, kb: map<nat, nat>, entries: seq<Ranked<Entry<Group>>>)
      returns (top: seq<Ranked<Entry<Group>>>, read: nat)
    ensures StoppedAt(entries, Measure(procs, kb, entries), read)
    ensures top == Table(Measure(procs, kb, entries)[..read])
  {
    hide Table, Sort, GroupPssMiB;
    ghost var ms := Measure(procs, kb, entries);
    TableOfNone(ms);
    top := [];
    var i := 0;
    while i < |entries|
      invariant i <= |entries| && top == Table(ms[..i])
      invariant forall k :: 0 <= k < i ==> !Stops(entries, ms, k)
    {
      if |top| == TOP_N && entries[i].key <= top[TOP_N - 1].key {
        break;
      }
      var mib := GroupPss(procs, kb, entries[i].item.group.pids);
      PushSortPop(ms, i);
      top := top + [Ranked(mib, entries[i].item)];
      top := Sort(top);
      if |top| > TOP_N {
        top := top[..|top| - 1];
      }
      i := i + 1;
    }
    read := i;
  }

  function RowOf(e: Ranked<Entry<Group>>): Row {
    var g := e.item.group;
    Row(if g.pids == [] then 0 else g.pids[0], e.item.name, Join(g.users), Round2(e.key))
  }

  function RssRanked(procs: seq<Proc>, order: seq<string>): seq<Ranked<Entry<Group>>>
    requires IsOrder(order, Names(procs))
  {
    Sort(Entries(order, Grouped(procs), MemOf))
  }

  /** The reference answer: measure every group, sort, keep ten. */
  function FullTable(procs: seq<Proc>, order: seq<string>, meter: Meter): seq<Ranked<Entry<Group>>>
    requires IsOrder(order, Names(procs))
  {
    match meter
    case Rss => Take(RssRanked(procs, order), TOP_N)
    case Pss(kb) => Table(Measure(procs, kb, RssRanked(procs, order)))
  }

  ghost predicate PssWithinRss(procs: seq<Proc>, kb: map<nat, nat>) {
    forall p :: p in procs && p.pid in kb ==> kb[p.pid] * 1024 <= p.rss
  }

  /** No group left unread is charged more than the tenth of those read. */
  ghost predicate NoneMissed(procs: seq<Proc>, order: seq<string>, kb: map<nat, nat>, read: nat)
    requires IsOrder(order, Names(procs))
  {
    var es := RssRanked(procs, order);
    var ms := Measure(procs, kb, es);
    read < |es| ==>
      (&& Full(Table(ms[..read]))
       && forall j :: read <= j < |es| ==>
            Charge(procs, Pss(kb), es[j].item.name) <= Threshold(Table(ms[..read])))
  }

  /**
   The rows of one collection. `order` is the order in which the hash map was drained and `read` the
   number of groups whose PSS was read: those before the early stop.
   */
  ghost predicate Collected(procs: seq<Proc>, meter: Meter, order: seq<string>, read: nat, rows: seq<Row>) {
    && IsOrder(order, Names(procs))
    && match meter
       case Rss => rows == Rows(FullTable(procs, order, meter), RowOf)
       case Pss(kb) =>
         var es := RssRanked(procs, order);
         var ms := Measure(procs, kb, es);
         StoppedAt(es, ms, read) && rows == Rows(Table(ms[..read]), RowOf)
  }

  /**
   `collect_top`. The rows are a true top ten if and only if no group left unread would have entered,
   as is so whenever no PSS reading exceeds that pid's RSS; and then they are those of the whole list.
   */
  method CollectTop(procs: seq<Proc>, meter: Meter) returns (rows: seq<Row>, order: seq<string>, read: nat)
    ensures Collected(procs, meter, order, read, rows)
    ensures IsProcessTable(procs) ==>
      (IsTopTen(procs, meter, rows) <==> (meter.Pss? ==> NoneMissed(procs, order, meter.kb, read)))
    ensures IsProcessTable(procs) && (meter.Pss? ==> PssWithinRss(procs, meter.kb)) ==>
      IsTopTen(procs, meter, rows) && rows == Rows(FullTable(procs, order, meter), RowOf)
    ensures IsTopTen(procs, meter, rows) ==> TableTells(procs, meter, rows)
  {
    hide Sort, Rows, IsTopTen, NoneMissed, TableTells;
    var byName := AggregateByName(procs);
    order := HashOrder(byName.Keys);
    var entries := Sort(Entries(order, byName, MemOf));
    if meter.Pss? {
      var top;
      top, read := StreamTop(procs, meter.kb, entries);
      rows := Rows(top, RowOf);
    } else {
      read := 0;
      rows := Rows(Take(entries, TOP_N), RowOf);
    }
    if IsProcessTable(procs) { CollectedRanks(procs, meter, order, read, rows); }
    if IsTopTen(procs, meter, rows) { TopTenTells(procs, meter, rows); }
  }

  /** What any rows so collected mean. */
  lemma CollectedRanks(procs: seq<Proc>, meter: Meter, order: seq<string>, read: nat, rows: seq<Row>)
    requires Collected(procs, meter, order, read, rows) && IsProcessTable(procs)
    ensures IsTopTen(procs, meter, rows) <==> (meter.Pss? ==> NoneMissed(procs, order, meter.kb, read))
    ensures (meter.Pss? ==> PssWithinRss(procs, meter.kb)) ==>
      IsTopTen(procs, meter, rows) && rows == Rows(FullTable(procs, order, meter), RowOf)
  {
    hide Rows, IsTopTen, NoneMissed, FullTable, Table, RssRanked;
    if meter.Pss? {
      StreamedTableIff(procs, order, meter.kb, read);
      if PssWithinRss(procs, meter.kb) { StreamingIsExact(procs, order, meter.kb, read); }
    } else {
      TopTenMeaning(procs, order, meter);
    }
  }

  lemma CollectedSize(procs: seq<Proc>, meter: Meter, order: seq<string>, read: nat, rows: seq<Row>)
    requires Collected(procs, meter, order, read, rows)
    ensures |rows| <= TOP_N
  {
  }

  // ----- the bound PSS <= RSS, per pid and then per group

  lemma {:induction false} RssOfListed(procs: seq<Proc>, p: Proc)
    requires IsProcessTable(procs) && p in procs
    ensures RssOf(procs, p.pid) == p.rss
  {
    if procs[|procs| - 1] != p {
      assert procs == procs[..|procs| - 1] + [procs[|procs| - 1]];
      RssOfListed(procs[..|procs| - 1], p);
    }
  }

  lemma {:induction false} PidSumIsSum(procs: seq<Proc>, kb: map<nat, nat>, ms: seq<Proc>)
    requires IsProcessTable(procs) && forall m :: m in ms ==> m in procs
    ensures PidSum(procs, kb, Pids(ms)) == Sum(Pss(kb), ms)
  {
    if ms != [] {
      var front, m := ms[..|ms| - 1], ms[|ms| - 1];
      PidSumIsSum(procs, kb, front);
      assert Pids(ms)[..|front|] == Pids(front);
      RssOfListed(procs, m);
    }
  }

  lemma {:induction false} PssSumWithinRss(procs: seq<Proc>, kb: map<nat, nat>, ms: seq<Proc>)
    requires PssWithinRss(procs, kb) && forall m :: m in ms ==> m in procs
    ensures Sum(Pss(kb), ms) <= Sum(Rss, ms)
  {
    if ms != [] {
      assert ms[|ms| - 1] in procs;
      PssSumWithinRss(procs, kb, ms[..|ms| - 1]);
    }
  }

  /** Falling back to RSS pid by pid, and saturating, keeps every group's PSS within its RSS. */
  lemma GroupPssWithinRss(procs: seq<Proc>, kb: map<nat, nat>, name: string)
    requires IsProcessTable(procs) && PssWithinRss(procs, kb) && name in Grouped(procs)
    ensures GroupPssMiB(procs, kb, Grouped(procs)[name].pids) <= Grouped(procs)[name].mem
  {
    var ms := Members(procs, name);
    MembersBelong(procs, name);
    PidSumIsSum(procs, kb, ms);
    PssSumWithinRss(procs, kb, ms);
  }

  ghost predicate EntryOf(procs: seq<Proc>, e: Ranked<Entry<Group>>) {
    var name := e.item.name;
    name in Grouped(procs) && e == Ranked(Grouped(procs)[name].mem, Entry(name, Grouped(procs)[name]))
  }

  /** Sorting the drained map lists each group once, whatever the hash order. */
  lemma RankedEntries(procs: seq<Proc>, order: seq<string>)
    requires IsOrder(order, Names(procs))
    ensures var es := RssRanked(procs, order);
            && Descending(es)
            && ListsEachOnce(es, Names(procs))
            && (forall i :: 0 <= i < |es| ==> EntryOf(procs, es[i]))
  {
    hide Sort, GroupOf, Members, Names;
    var raw := Entries(order, Grouped(procs), MemOf);
    var es := Sort(raw);
    SortIsStable(raw);
    DrainedOnce(order, Grouped(procs), MemOf);
    ShuffledOnce(raw, es, Names(procs));
    forall i | 0 <= i < |es| ensures EntryOf(procs, es[i]) {
      assert es[i] in multiset(es);
      var k := IndexIn(raw, es[i]);
      assert order[k] in order;
    }
  }

  lemma RankedRemeasured(procs: seq<Proc>, order: seq<string>, kb: map<nat, nat>)
    requires IsOrder(order, Names(procs))
    ensures var es := RssRanked(procs, order); Descending(es) && Remeasures(Measure(procs, kb, es), es)
  {
    RankedEntries(procs, order);
  }

  lemma RankedWithinBound(procs: seq<Proc>, order: seq<string>, kb: map<nat, nat>)
    requires IsOrder(order, Names(procs)) && IsProcessTable(procs) && PssWithinRss(procs, kb)
    ensures var es := RssRanked(procs, order); Bounded(Measure(procs, kb, es), es)
  {
    var es := RssRanked(procs, order);
    var ms := Measure(procs, kb, es);
    RankedEntries(procs, order);
    forall i | 0 <= i < |es| ensures ms[i].key <= es[i].key {
      assert EntryOf(procs, es[i]);
      GroupPssWithinRss(procs, kb, es[i].item.name);
    }
  }

  /** What the streamed charges are, and that a walk that stops early has a full table. */
  lemma StreamedFacts(procs: seq<Proc>, order: seq<string>, kb: map<nat, nat>, read: nat)
    requires IsOrder(order, Names(procs)) && IsProcessTable(procs)
    requires var es := RssRanked(procs, order); StoppedAt(es, Measure(procs, kb, es), read)
    ensures var es := RssRanked(procs, order);
            var ms := Measure(procs, kb, es);
            && Remeasures(ms, es) && Charged(Charges(procs, Pss(kb)), ms)
            && (read < |es| ==> Full(Table(ms[..read])))
            && forall j :: 0 <= j < |es| ==> ms[j].key == Charge(procs, Pss(kb), es[j].item.name)
  {
    hide Table;
    RankedRemeasured(procs, order, kb);
    PssCharged(procs, order, kb);
    var es := RssRanked(procs, order);
    var ms := Measure(procs, kb, es);
    forall j | 0 <= j < |es| ensures ms[j].key == Charge(procs, Pss(kb), es[j].item.name) {
      assert ms[j].item.name == es[j].item.name;
    }
  }

  /**
   Whatever the readings: stopping early gives the table of all groups if and only if no group left
   unread is charged more than the tenth of those read.
   */
  lemma StreamingExactIff(procs: seq<Proc>, order: seq<string>, kb: map<nat, nat>, read: nat)
    requires IsOrder(order, Names(procs)) && IsProcessTable(procs)
    requires var es := RssRanked(procs, order); StoppedAt(es, Measure(procs, kb, es), read)
    ensures Table(Measure(procs, kb, RssRanked(procs, order))[..read]) == FullTable(procs, order, Pss(kb))
       <==> NoneMissed(procs, order, kb, read)
  {
    hide Table, Charge, Charged, RssRanked;
    StreamedFacts(procs, order, kb, read);
    var es := RssRanked(procs, order);
    var ms := Measure(procs, kb, es);
    if read < |es| { StreamExactIff(es, ms, read); } else { assert ms[..read] == ms; }
  }

  /** Under PSS <= RSS pid by pid, stopping early never changes the table. */
  lemma StreamingIsExact(procs: seq<Proc>, order: seq<string>, kb: map<nat, nat>, read: nat)
    requires IsOrder(order, Names(procs)) && IsProcessTable(procs) && PssWithinRss(procs, kb)
    requires var es := RssRanked(procs, order); StoppedAt(es, Measure(procs, kb, es), read)
    ensures Table(Measure(procs, kb, RssRanked(procs, order))[..read]) == FullTable(procs, order, Pss(kb))
    ensures NoneMissed(procs, order, kb, read)
  {
    RankedRemeasured(procs, order, kb);
    RankedWithinBound(procs, order, kb);
    var es := RssRanked(procs, order);
    StreamExact(es, Measure(procs, kb, es), read);
    StreamingExactIff(procs, order, kb, read);
  }

  /**
   With ten groups to show, the groups read are all those whose RSS exceeds the tenth PSS, and,
   past the first ten, only groups whose RSS reaches it.
   */
  lemma PssReadsAreFew(procs: seq<Proc>, order: seq<string>, kb: map<nat, nat>, read: nat)
    requires IsOrder(order, Names(procs)) && IsProcessTable(procs) && PssWithinRss(procs, kb)
    requires var es := RssRanked(procs, order); StoppedAt(es, Measure(procs, kb, es), read)
    requires Full(FullTable(procs, order, Pss(kb)))
    ensures var es, tenth := RssRanked(procs, order), Threshold(FullTable(procs, order, Pss(kb)));
            && (forall i :: 0 <= i < |es| && es[i].key > tenth ==> i < read)
            && (forall i :: TOP_N <= i < read ==> es[i].key >= tenth)
  {
    RankedRemeasured(procs, order, kb);
    RankedWithinBound(procs, order, kb);
    var es := RssRanked(procs, order);
    ReadsAreFew(es, Measure(procs, kb, es), read);
  }

  // ----- the ranked values do not depend on any hash order

  lemma {:induction false} MembersCount(procs: seq<Proc>, name: string, p: Proc)
    ensures multiset(Members(procs, name))[p] == if Belongs(p, name) then multiset(procs)[p] else 0
  {
    if procs != [] {
      assert procs == procs[..|procs| - 1] + [procs[|procs| - 1]];
      MembersCount(procs[..|procs| - 1], name, p);
    }
  }

  lemma {:induction false} SumSplit(meter: Meter, a: seq<Proc>, p: Proc, b: seq<Proc>)
    ensures Sum(meter, a + [p] + b) == Sum(meter, a + b) + Bytes(meter, p)
  {
    if b == [] {
      assert a + [p] + b == a + [p] && a + b == a;
      SumStep(meter, a, p);
    } else {
      var c := b[..|b| - 1];
      SumSplit(meter, a, p, c);
      assert b == c + [b[|b| - 1]];
      assert a + [p] + b == (a + [p] + c) + [b[|b| - 1]] && a + b == (a + c) + [b[|b| - 1]];
      SumStep(meter, a + [p] + c, b[|b| - 1]);
      SumStep(meter, a + c, b[|b| - 1]);
    }
  }

  lemma {:induction false} SumOfPermutation(meter: Meter, a: seq<Proc>, b: seq<Proc>)
    requires multiset(a) == multiset(b)
    ensures Sum(meter, a) == Sum(meter, b)
    decreases |a|
  {
    assert |multiset(a)| == |multiset(b)|;
    if a != [] {
      var x := a[0];
      assert x in multiset(a);
      var l, r := PullOut(a, x);
      var l', r' := PullOut(b, x);
      SumOfPermutation(meter, l + r, l' + r');
      SumSplit(meter, l, x, r);
      SumSplit(meter, l', x, r');
    }
  }

  /** The value a group is ranked by, as a function of the set of processes alone. */
  function Charge(procs: seq<Proc>, meter: Meter, name: string): real {
    var sum := Sum(meter, Members(procs, name));
    MiB(if meter.Rss? then sum else Min(sum, U64_MAX))
  }

  lemma ChargeOfPermutation(p1: seq<Proc>, p2: seq<Proc>, meter: Meter, name: string)
    requires multiset(p1) == multiset(p2)
    ensures Charge(p1, meter, name) == Charge(p2, meter, name)
  {
    forall p ensures multiset(Members(p1, name))[p] == multiset(Members(p2, name))[p] {
      MembersCount(p1, name, p);
      MembersCount(p2, name, p);
    }
    assert multiset(Members(p1, name)) == multiset(Members(p2, name));
    SumOfPermutation(meter, Members(p1, name), Members(p2, name));
  }

  lemma NamesOfPermutation(p1: seq<Proc>, p2: seq<Proc>)
    requires multiset(p1) == multiset(p2)
    ensures Names(p1) == Names(p2)
  {
    forall name ensures name in Names(p1) <==> name in Names(p2) {
      MembersBelong(p1, name);
      MembersBelong(p2, name);
      forall p ensures multiset(Members(p1, name))[p] == multiset(Members(p2, name))[p] {
        MembersCount(p1, name, p);
        MembersCount(p2, name, p);
      }
      assert multiset(Members(p1, name)) == multiset(Members(p2, name));
      assert |multiset(Members(p1, name))| == |multiset(Members(p2, name))|;
    }
  }

  /** Every group's charge. */
  function Charges(procs: seq<Proc>, meter: Meter): map<string, real> {
    map name | name in Names(procs) :: Charge(procs, meter, name)
  }

  lemma ChargesOfPermutation(p1: seq<Proc>, p2: seq<Proc>, meter: Meter)
    requires multiset(p1) == multiset(p2)
    ensures Charges(p1, meter) == Charges(p2, meter)
  {
    NamesOfPermutation(p1, p2);
    forall name { ChargeOfPermutation(p1, p2, meter, name); }
  }

  lemma EntryCharge(procs: seq<Proc>, e: Ranked<Entry<Group>>, kb: map<nat, nat>)
    requires IsProcessTable(procs) && EntryOf(procs, e)
    ensures e.item.name in Names(procs)
    ensures e.key == Charge(procs, Rss, e.item.name)
    ensures GroupPssMiB(procs, kb, e.item.group.pids) == Charge(procs, Pss(kb), e.item.name)
  {
    MembersBelong(procs, e.item.name);
    PidSumIsSum(procs, kb, Members(procs, e.item.name));
  }

  lemma RssCharged(procs: seq<Proc>, order: seq<string>)
    requires IsOrder(order, Names(procs)) && IsProcessTable(procs)
    ensures Charged(Charges(procs, Rss), RssRanked(procs, order))
  {
    RankedEntries(procs, order);
    var es := RssRanked(procs, order);
    forall i | 0 <= i < |es| ensures es[i].key == Charge(procs, Rss, es[i].item.name) {
      EntryCharge(procs, es[i], map[]);
    }
  }

  lemma PssCharged(procs: seq<Proc>, order: seq<string>, kb: map<nat, nat>)
    requires IsOrder(order, Names(procs)) && IsProcessTable(procs)
    ensures Charged(Charges(procs, Pss(kb)), Measure(procs, kb, RssRanked(procs, order)))
  {
    RankedEntries(procs, order);
    var es := RssRanked(procs, order);
    var ms := Measure(procs, kb, es);
    forall i | 0 <= i < |ms| ensures ms[i].key == Charge(procs, Pss(kb), ms[i].item.name) {
      EntryCharge(procs, es[i], kb);
    }
    SameNamesOnce(es, ms, Names(procs));
  }

  /** The list whose first ten are shown: each group once, ranked by its charge. */
  function Candidates(procs: seq<Proc>, order: seq<string>, meter: Meter): seq<Ranked<Entry<Group>>>
    requires IsOrder(order, Names(procs))
  {
    var es := RssRanked(procs, order);
    if meter.Pss? then Measure(procs, meter.kb, es) else es
  }

  lemma CandidatesFacts(procs: seq<Proc>, order: seq<string>, meter: Meter)
    requires IsOrder(order, Names(procs)) && IsProcessTable(procs)
    ensures Charged(Charges(procs, meter), Candidates(procs, order, meter))
    ensures FullTable(procs, order, meter) == Table(Candidates(procs, order, meter))
  {
    hide Charged, Charges;
    if meter.Pss? {
      PssCharged(procs, order, meter.kb);
    } else {
      RssCharged(procs, order);
      RankedEntries(procs, order);
      SortOfSorted(RssRanked(procs, order));
    }
  }

  /**
   Two scans of the same processes, listed and drained in any two orders, rank the same memory
   values in the same places.
   */
  lemma RankedValuesIgnoreHashOrder(
      p1: seq<Proc>, order1: seq<string>, p2: seq<Proc>, order2: seq<string>, meter: Meter)
    requires multiset(p1) == multiset(p2) && IsProcessTable(p1) && IsProcessTable(p2)
    requires IsOrder(order1, Names(p1)) && IsOrder(order2, Names(p2))
    ensures Keys(FullTable(p1, order1, meter)) == Keys(FullTable(p2, order2, meter))
  {
    hide Charged, Charges, Candidates, FullTable, Table;
    CandidatesFacts(p1, order1, meter);
    CandidatesFacts(p2, order2, meter);
    ChargesOfPermutation(p1, p2, meter);
    SameCharges(Charges(p1, meter), Candidates(p1, order1, meter), Candidates(p2, order2, meter));
  }

  // ----- what the rows say

  /** The first process visited that belongs to the group. */
  ghost predicate IsFirst(procs: seq<Proc>, name: string, i: int) {
    0 <= i < |procs| && Belongs(procs[i], name) && forall k :: 0 <= k < i ==> !Belongs(procs[k], name)
  }

  /** The resolved users of the group's processes, in ascending order and without repetition. */
  ghost predicate ListsUsers(procs: seq<Proc>, name: string, users: seq<string>) {
    && Ascending(users)
    && forall user :: user in users <==>
         user != "" && exists p :: p in procs && Belongs(p, name) && p.user == user
  }

  /** The first member's pid, and the users joined by commas. */
  ghost predicate Describes(procs: seq<Proc>, r: Row) {
    && (exists i :: IsFirst(procs, r.name, i) && r.pid == procs[i].pid)
    && (exists users :: ListsUsers(procs, r.name, users) && r.username == Join(users))
  }

  /** A true top ten of the charges, each row true of its group. */
  ghost predicate IsTopTen(procs: seq<Proc>, meter: Meter, rows: seq<Row>) {
    RanksTop(Charges(procs, meter), rows) && forall i :: 0 <= i < |rows| ==> Describes(procs, rows[i])
  }

  // ----- the same from the process list alone, name by name

  /** The program a process counts as: its own name, or "unknown" if it has none; threads count as none. */
  predicate Named(p: Proc, name: string) {
    !p.isThread && name != "" && (p.name == name || (p.name == "" && name == "unknown"))
  }

  lemma BelongsIffNamed(p: Proc, name: string)
    ensures Belongs(p, name) <==> Named(p, name)
  {
  }

  /** The processes that count as this program, in the order they are visited. */
  function Called(procs: seq<Proc>, name: string): seq<Proc> {
    if procs == [] then []
    else Called(procs[..|procs| - 1], name) + if Named(procs[|procs| - 1], name) then [procs[|procs| - 1]] else []
  }

  /** What they are charged together. */
  function BytesCalled(procs: seq<Proc>, meter: Meter, name: string): nat {
    if procs == [] then 0
    else
      var p := procs[|procs| - 1];
      BytesCalled(procs[..|procs| - 1], meter, name)
      + (if !Named(p, name) then 0
         else if meter.Rss? || p.pid !in meter.kb then p.rss
         else if meter.kb[p.pid] * 1024 <= 0xFFFF_FFFF_FFFF_FFFF then meter.kb[p.pid] * 1024
         else 0xFFFF_FFFF_FFFF_FFFF)
  }

  /** In MiB; PSS is added up in a u64. */
  function MiBCalled(procs: seq<Proc>, meter: Meter, name: string): real {
    var bytes := BytesCalled(procs, meter, name);
    (if meter.Pss? && bytes > 0xFFFF_FFFF_FFFF_FFFF then 0xFFFF_FFFF_FFFF_FFFF else bytes) as real / 1048576.0
  }

  lemma {:induction false} MembersAreCalled(procs: seq<Proc>, name: string)
    ensures Members(procs, name) == Called(procs, name)
    ensures forall p :: p in Called(procs, name) <==> p in procs && Named(p, name)
  {
    forall p { BelongsIffNamed(p, name); }
    MembersBelong(procs, name);
    if procs != [] { MembersAreCalled(procs[..|procs| - 1], name); }
  }

  lemma BytesStep(front: seq<Proc>, p: Proc, meter: Meter, name: string)
    ensures BytesCalled(front + [p], meter, name) ==
            BytesCalled(front, meter, name) + if Named(p, name) then Bytes(meter, p) else 0
  {
    assert (front + [p])[..|front|] == front;
  }

  lemma {:induction false} SumIsCalled(procs: seq<Proc>, meter: Meter, name: string)
    ensures Sum(meter, Members(procs, name)) == BytesCalled(procs, meter, name)
  {
    if procs != [] {
      hide BytesCalled, Members, Sum, Bytes, Belongs, Named;
      var front, p := procs[..|procs| - 1], procs[|procs| - 1];
      assert procs == front + [p];
      SumIsCalled(front, meter, name);
      BelongsIffNamed(p, name);
      BytesStep(front, p, meter, name);
      MembersStep(front, p, name);
      SumStep(meter, Members(front, name), p);
    }
  }

  lemma ChargeIsCalled(procs: seq<Proc>, meter: Meter, name: string)
    ensures Charge(procs, meter, name) == MiBCalled(procs, meter, name)
  {
    hide Sum, BytesCalled, Members;
    SumIsCalled(procs, meter, name);
  }

  /**
   The groups, from the process list alone: one for each program a non-thread process counts as, made
   of exactly those processes, in the order visited, with their RSS and their users.
   */
  lemma GroupsByName(procs: seq<Proc>, name: string)
    ensures name in Grouped(procs) <==> exists p :: p in procs && Named(p, name)
    ensures name in Grouped(procs) ==>
      var g, ps := Grouped(procs)[name], Called(procs, name);
      && g.mem == MiBCalled(procs, Rss, name)
      && |g.pids| == |ps| && (forall i :: 0 <= i < |ps| ==> g.pids[i] == ps[i].pid)
      && ListsUsersOf(procs, name, g.users)
  {
    MembersAreCalled(procs, name);
    MembersBelong(procs, name);
    SumIsCalled(procs, Rss, name);
    UsersOf(procs, name);
    UsersAreOf(procs, name, Users(Members(procs, name)));
    if p :| p in procs && Named(p, name) { assert p in Called(procs, name); }
    if name in Names(procs) { assert Called(procs, name)[0] in procs; }
  }

  ghost predicate ListsUsersOf(procs: seq<Proc>, name: string, users: seq<string>) {
    && Ascending(users)
    && forall user :: user in users <==> user != "" && exists p :: p in procs && Named(p, name) && p.user == user
  }

  lemma UsersAreOf(procs: seq<Proc>, name: string, users: seq<string>)
    ensures ListsUsers(procs, name, users) <==> ListsUsersOf(procs, name, users)
  {
    forall p { BelongsIffNamed(p, name); }
  }

  ghost predicate IsFirstOf(procs: seq<Proc>, name: string, i: int) {
    0 <= i < |procs| && Named(procs[i], name) && forall k :: 0 <= k < i ==> !Named(procs[k], name)
  }

  /** A row tells of its program the first pid, the users, and its memory to half a hundredth of a MiB. */
  ghost predicate RowTells(procs: seq<Proc>, meter: Meter, r: Row) {
    && (exists i :: IsFirstOf(procs, r.name, i) && r.pid == procs[i].pid)
    && (exists users :: ListsUsersOf(procs, r.name, users) && r.username == Join(users))
    && -0.005 <= r.figure - MiBCalled(procs, meter, r.name) <= 0.005
  }

  /**
   The memory table, from the process list alone: at most ten programs, each truly told, biggest
   first, and a program is left out only of ten none of which uses less.
   */
  ghost predicate TableTells(procs: seq<Proc>, meter: Meter, rows: seq<Row>) {
    && |rows| <= 10
    && (forall i :: 0 <= i < |rows| ==> RowTells(procs, meter, rows[i]))
    && (forall i, j :: 0 <= i < j < |rows| ==> rows[i].name != rows[j].name && rows[i].figure >= rows[j].figure)
    && forall p, name :: p in procs && Named(p, name) && Absent(rows, name) ==>
         |rows| == 10 && forall i :: 0 <= i < 10 ==>
           MiBCalled(procs, meter, name) <= MiBCalled(procs, meter, rows[i].name)
  }

  lemma DescribedTells(procs: seq<Proc>, meter: Meter, r: Row)
    requires Describes(procs, r) && -0.005 <= r.figure - Charge(procs, meter, r.name) <= 0.005
    ensures RowTells(procs, meter, r)
  {
    hide Charge, MiBCalled, ListsUsers, ListsUsersOf, Belongs, Named;
    ChargeIsCalled(procs, meter, r.name);
    forall p { BelongsIffNamed(p, r.name); }
    var users :| ListsUsers(procs, r.name, users) && r.username == Join(users);
    UsersAreOf(procs, r.name, users);
    var i :| IsFirst(procs, r.name, i) && r.pid == procs[i].pid;
    assert IsFirstOf(procs, r.name, i);
  }

  /** Every true top ten tells the process list so. */
  lemma TopTenTells(procs: seq<Proc>, meter: Meter, rows: seq<Row>)
    requires IsTopTen(procs, meter, rows)
    ensures TableTells(procs, meter, rows)
  {
    hide Describes, RowTells, Charge, MiBCalled, Named;
    forall name { ChargeIsCalled(procs, meter, name); }
    forall i | 0 <= i < |rows| { DescribedTells(procs, meter, rows[i]); }
    forall p, name | p in procs && Named(p, name) && Absent(rows, name)
      ensures |rows| == 10 && forall i :: 0 <= i < 10 ==>
                MiBCalled(procs, meter, name) <= MiBCalled(procs, meter, rows[i].name)
    {
      GroupsByName(procs, name);
      assert name in Charges(procs, meter);
      LeftOutOfFull(Charges(procs, meter), rows, name);
    }
  }

  lemma {:induction false} FirstMember(procs: seq<Proc>, name: string) returns (i: nat)
    requires name in Names(procs)
    ensures IsFirst(procs, name, i) && Members(procs, name) != [] && Members(procs, name)[0] == procs[i]
  {
    var front, p := procs[..|procs| - 1], procs[|procs| - 1];
    assert procs == front + [p];
    NamesStep(front, p);
    MembersBelong(front, name);
    if name in Names(front) {
      i := FirstMember(front, name);
    } else {
      i := |front|;
      forall k | 0 <= k < i ensures !Belongs(procs[k], name) { assert front[k] in front; }
    }
  }

  ghost predicate HasUser(ps: seq<Proc>, user: string) {
    exists p :: p in ps && p.user == user
  }

  lemma HasUserStep(front: seq<Proc>, last: Proc, user: string)
    ensures HasUser(front + [last], user) <==> HasUser(front, user) || last.user == user
  {
    if HasUser(front, user) {
      var p :| p in front && p.user == user;
      assert p in front + [last];
    }
    assert last in front + [last];
  }

  lemma {:induction false} UsersListed(ps: seq<Proc>)
    ensures Ascending(Users(ps))
    ensures forall user :: user in Users(ps) <==> user != "" && HasUser(ps, user)
  {
    if ps != [] {
      hide HasUser, Ascending, Inserted;
      var front, last := ps[..|ps| - 1], ps[|ps| - 1];
      assert ps == front + [last];
      UsersListed(front);
      InsertedAscends(Users(front), last.user);
      forall user { HasUserStep(front, last, user); }
    }
  }

  lemma UsersOf(procs: seq<Proc>, name: string)
    ensures ListsUsers(procs, name, Users(Members(procs, name)))
  {
    var ms := Members(procs, name);
    MembersBelong(procs, name);
    UsersListed(ms);
    forall user ensures HasUser(ms, user) <==> exists p :: p in procs && Belongs(p, name) && p.user == user {
      if p :| p in procs && Belongs(p, name) && p.user == user { assert p in ms; }
    }
  }

  lemma EntryDescribes(procs: seq<Proc>, e: Ranked<Entry<Group>>, x: Ranked<Entry<Group>>)
    requires EntryOf(procs, e) && x.item == e.item
    ensures Describes(procs, RowOf(x))
  {
    hide Users, ListsUsers, Join;
    var i := FirstMember(procs, e.item.name);
    UsersOf(procs, e.item.name);
  }

  lemma RowPrints()
    ensures Prints(RowOf)
  {
  }

  /** Each row of a table of measured groups is true of its group. */
  lemma RowsDescribe(procs: seq<Proc>, order: seq<string>, ms: seq<Ranked<Entry<Group>>>)
    requires IsOrder(order, Names(procs))
    requires var es := RssRanked(procs, order);
             |ms| <= |es| && forall k :: 0 <= k < |ms| ==> ms[k].item == es[k].item
    ensures forall i :: 0 <= i < |Table(ms)| ==> Describes(procs, Rows(Table(ms), RowOf)[i])
  {
    hide Table, Describes, RssRanked;
    RankedEntries(procs, order);
    forall i | 0 <= i < |Table(ms)| ensures Describes(procs, Rows(Table(ms), RowOf)[i]) {
      var k := ComesFrom(ms, Table(ms)[i]);
      EntryDescribes(procs, RssRanked(procs, order)[k], ms[k]);
    }
  }

  /** The reference answer is a true top ten. */
  lemma TopTenMeaning(procs: seq<Proc>, order: seq<string>, meter: Meter)
    requires IsOrder(order, Names(procs)) && IsProcessTable(procs)
    ensures IsTopTen(procs, meter, Rows(FullTable(procs, order, meter), RowOf))
  {
    hide Table, Describes, Charges, Charged, RanksTop, Prints, FullTable;
    var ms := Candidates(procs, order, meter);
    CandidatesFacts(procs, order, meter);
    RowPrints();
    TableRanks(Charges(procs, meter), ms, RowOf);
    RankedSize(procs, order);
    RowsDescribe(procs, order, ms);
  }

  lemma RankedSize(procs: seq<Proc>, order: seq<string>)
    requires IsOrder(order, Names(procs))
    ensures |RssRanked(procs, order)| == |order|
  {
    SortIsStable(Entries(order, Grouped(procs), MemOf));
  }

  /** What the early stop shows is a true top ten if and only if it missed no group. */
  lemma StreamedTableIff(procs: seq<Proc>, order: seq<string>, kb: map<nat, nat>, read: nat)
    requires IsOrder(order, Names(procs)) && IsProcessTable(procs)
    requires var es := RssRanked(procs, order); StoppedAt(es, Measure(procs, kb, es), read)
    ensures IsTopTen(procs, Pss(kb), Rows(Table(Measure(procs, kb, RssRanked(procs, order))[..read]), RowOf))
       <==> NoneMissed(procs, order, kb, read)
  {
    hide Table, Describes, Charges, Charge, Charged, RanksTop, Prints, RssRanked;
    var ms := Measure(procs, kb, RssRanked(procs, order));
    StreamedFacts(procs, order, kb, read);
    RankedSize(procs, order);
    RowsDescribe(procs, order, ms[..read]);
    RowPrints();
    if read < |ms| {
      CutRanksIff(Charges(procs, Pss(kb)), ms, RowOf, read);
    } else {
      assert ms[..read] == ms;
      TableRanks(Charges(procs, Pss(kb)), ms, RowOf);
    }
  }

  // ----- an input on which the early stop is wrong

  function Label(i: nat): (name: string)
    ensures |name| == i + 1
  {
    seq(i + 1, _ => 'x')
  }

  /** Ten processes of 2 MiB RSS and 1 MiB PSS, and one of 1 MiB RSS and 5 MiB PSS. */
  function Eleven(): (procs: seq<Proc>)
    ensures |procs| == 11
    ensures forall i :: 0 <= i < 11 ==>
      procs[i] == Proc(i + 1, Label(i), false, if i < 10 then 0x20_0000 else 0x10_0000, 0.0, "")
  {
    seq(11, i requires 0 <= i < 11 => Proc(i + 1, Label(i), false, if i < 10 then 0x20_0000 else 0x10_0000, 0.0, ""))
  }

  function ElevenPss(): (kb: map<nat, nat>)
    ensures forall pid :: pid in kb <==> 1 <= pid <= 11
    ensures forall pid :: pid in kb ==> kb[pid] == if pid <= 10 then 1024 else 5120
  {
    map[1 := 1024, 2 := 1024, 3 := 1024, 4 := 1024, 5 := 1024, 6 := 1024, 7 := 1024, 8 := 1024, 9 := 1024,
        10 := 1024, 11 := 5120]
  }

  lemma {:induction false} SoloMembers(procs: seq<Proc>, i: nat)
    requires forall j, k :: 0 <= j < k < |procs| ==> DisplayName(procs[j]) != DisplayName(procs[k])
    requires i < |procs| && !procs[i].isThread
    ensures Members(procs, DisplayName(procs[i])) == [procs[i]]
  {
    var front := procs[..|procs| - 1];
    var name := DisplayName(procs[i]);
    if i < |front| {
      SoloMembers(front, i);
    } else {
      MembersBelong(front, name);
      assert Members(front, name) == [];
    }
  }

  lemma ElevenDiffer()
    ensures IsProcessTable(Eleven())
    ensures forall i, j :: 0 <= i < j < 11 ==> DisplayName(Eleven()[i]) != DisplayName(Eleven()[j])
  {
    forall i, j | 0 <= i < j < 11 ensures DisplayName(Eleven()[i]) != DisplayName(Eleven()[j]) {
      assert DisplayName(Eleven()[i]) == Label(i) && DisplayName(Eleven()[j]) == Label(j);
      assert |Label(i)| != |Label(j)|;
    }
  }

  lemma ElevenSolo(i: nat)
    requires i < 11
    ensures Members(Eleven(), Label(i)) == [Eleven()[i]] && Label(i) in Names(Eleven())
  {
    ElevenDiffer();
    assert DisplayName(Eleven()[i]) == Label(i);
    SoloMembers(Eleven(), i);
    MembersBelong(Eleven(), Label(i));
  }

  lemma SumOfOne(meter: Meter, p: Proc)
    ensures Sum(meter, [p]) == Bytes(meter, p)
  {
    assert [p][..0] == [];
  }

  lemma ElevenCharges(i: nat)
    requires i < 11
    ensures Label(i) in Names(Eleven())
    ensures Charge(Eleven(), Rss, Label(i)) == if i < 10 then 2.0 else 1.0
    ensures Charge(Eleven(), Pss(ElevenPss()), Label(i)) == if i < 10 then 1.0 else 5.0
  {
    hide Members, Names, Sum;
    ElevenSolo(i);
    SumOfOne(Rss, Eleven()[i]);
    SumOfOne(Pss(ElevenPss()), Eleven()[i]);
  }

  lemma ElevenNames(order: seq<string>)
    requires IsOrder(order, Names(Eleven()))
    ensures |order| == 11
    ensures forall name :: name in Names(Eleven()) ==> exists i: nat :: i < 11 && name == Label(i)
  {
    var labels := seq(11, i requires 0 <= i < 11 => Label(i));
    forall i, j | 0 <= i < j < 11 ensures labels[i] != labels[j] { assert |labels[i]| != |labels[j]|; }
    forall name ensures name in labels <==> name in Names(Eleven()) {
      if name in Names(Eleven()) {
        var i :| 0 <= i < 11 && DisplayName(Eleven()[i]) == name;
        assert labels[i] == name;
      }
      if name in labels {
        var i :| 0 <= i < 11 && labels[i] == name;
        ElevenSolo(i);
      }
    }
    OrderSize(labels, Names(Eleven()));
    OrderSize(order, Names(Eleven()));
  }

  /** In every hash order the process of 1 MiB RSS is ranked last. */
  lemma ElevenRanked(order: seq<string>)
    requires IsOrder(order, Names(Eleven()))
    ensures var es := RssRanked(Eleven(), order);
            var ms := Measure(Eleven(), ElevenPss(), es);
            && |es| == 11
            && (forall i :: 0 <= i < 11 ==> es[i].key == (if i < 10 then 2.0 else 1.0))
            && (forall i :: 0 <= i < 11 ==> ms[i].key == (if i < 10 then 1.0 else 5.0))
  {
    var es := RssRanked(Eleven(), order);
    ElevenNames(order);
    ElevenSolo(10);
    RankedSize(Eleven(), order);
    RankedEntries(Eleven(), order);
    var last :| 0 <= last < 11 && es[last].item.name == Label(10);
    forall i | 0 <= i < 11 { ElevenEntry(order, i); }
    forall i | 0 <= i < 11 && i != last ensures es[i].item.name != Label(10) {}
    assert es[last].key >= es[10].key;
  }

  lemma ElevenEntry(order: seq<string>, i: nat)
    requires IsOrder(order, Names(Eleven())) && i < |RssRanked(Eleven(), order)|
    ensures var es := RssRanked(Eleven(), order);
            var ms := Measure(Eleven(), ElevenPss(), es);
            && es[i].key == (if es[i].item.name == Label(10) then 1.0 else 2.0)
            && ms[i].key == (if es[i].item.name == Label(10) then 5.0 else 1.0)
  {
    hide RssRanked, Charge, Names, GroupPssMiB;
    var es := RssRanked(Eleven(), order);
    var ms := Measure(Eleven(), ElevenPss(), es);
    ElevenDiffer();
    ElevenNames(order);
    RankedEntries(Eleven(), order);
    RssCharged(Eleven(), order);
    PssCharged(Eleven(), order, ElevenPss());
    var k: nat :| k < 11 && es[i].item.name == Label(k);
    assert |Label(k)| == |Label(10)| <==> k == 10;
    assert ms[i].item.name == Label(k);
    ElevenCharges(k);
  }

  /** Were one PSS reading above its RSS, the largest process of all could be missed, in any hash order. */
  lemma BoundIsNeeded(order: seq<string>)
    requires IsOrder(order, Names(Eleven()))
    ensures var procs, kb := Eleven(), ElevenPss();
            var es := RssRanked(procs, order);
            && IsProcessTable(procs) && (forall p :: p in procs && p.pid != 11 ==> kb[p.pid] * 1024 <= p.rss)
            && StoppedAt(es, Measure(procs, kb, es), 10) && !NoneMissed(procs, order, kb, 10)
            && Table(Measure(procs, kb, es)[..10]) != FullTable(procs, order, Pss(kb))
  {
    var es := RssRanked(Eleven(), order);
    ElevenDiffer();
    ElevenRanked(order);
    RankedRemeasured(Eleven(), order, ElevenPss());
    LooseMisses(es, Measure(Eleven(), ElevenPss(), es));
    StreamingExactIff(Eleven(), order, ElevenPss(), 10);
  }
}
