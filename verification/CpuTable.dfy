/** The process table by CPU: group sums, one representative pid a group, the ten largest. */
module CpuTable {
  import opened Ranking
  import opened StableSort
  import opened StreamingTopN
  import opened Text
  import opened Units
  import P = Processes

  /** The accumulated group; `users` is an ordered set, listed in order. */
  datatype Group = Group(cpu: real, pid: nat, users: seq<string>)

  function SumCpu(ms: seq<P.Proc>): real {
    if ms == [] then 0.0 else SumCpu(ms[..|ms| - 1]) + ms[|ms| - 1].cpu
  }

  /** The pid kept while visiting: zero counts as unset, and any positive CPU replaces it. */
  function Kept(ms: seq<P.Proc>): nat {
    if ms == [] then 0
    else
      var kept, m := Kept(ms[..|ms| - 1]), ms[|ms| - 1];
      if kept == 0 || m.cpu > 0.0 then m.pid else kept
  }

  function GroupOf(ms: seq<P.Proc>): Group {
    Group(SumCpu(ms), Kept(ms), P.Users(ms))
  }

  function Grouped(procs: seq<P.Proc>): map<string, Group> {
    map name | name in P.Names(procs) :: GroupOf(P.Members(procs, name))
  }

  lemma GroupStep(ms: seq<P.Proc>, p: P.Proc)
    ensures GroupOf(ms + [p]) ==
            Group(SumCpu(ms) + p.cpu, if Kept(ms) == 0 || p.cpu > 0.0 then p.pid else Kept(ms),
                  P.WithUser(P.Users(ms), p.user))
  {
    assert (ms + [p])[..|ms|] == ms;
  }

  method AddTo(byName: map<string, Group>, p: P.Proc, ghost front: seq<P.Proc>) returns (entry: Group)
    requires P.Accumulated(byName, front, GroupOf) && !p.isThread
    ensures entry == GroupOf(P.Members(front + [p], P.DisplayName(p)))
  {
    var name := P.DisplayName(p);
    P.MembersBelong(front, name);
    P.MembersStep(front, p, name);
    GroupStep(P.Members(front, name), p);
    entry := if name in byName then byName[name] else Group(0.0, 0, []);
    entry := entry.(cpu := entry.cpu + p.cpu);
    if entry.pid == 0 || p.cpu > 0.0 {
      entry := entry.(pid := p.pid);
    }
    if p.user != "" {
      entry := entry.(users := Inserted(entry.users, p.user));
    }
  }

  method AggregateByName(procs: seq<P.Proc>) returns (byName: map<string, Group>)
    ensures byName == Grouped(procs)
    ensures GroupsTell(procs, byName)
  {
    hide GroupsTell;
    byName := map[];
    for i := 0 to |procs|
      invariant P.Accumulated(byName, procs[..i], GroupOf)
    {
      var p := procs[i];
      assert procs[..i + 1] == procs[..i] + [p];
      if p.isThread {
        P.AccumulatedSkip(byName, procs[..i], p, GroupOf);
        continue;
      }
      var entry := AddTo(byName, p, procs[..i]);
      P.AccumulatedStep(byName, procs[..i], p, entry, GroupOf);
      byName := byName[P.DisplayName(p) := entry];
    }
    assert procs[..|procs|] == procs;
    GroupsByName(procs);
  }

  function CpuOf(g: Group): real { g.cpu }

  function RowOf(e: Ranked<Entry<Group>>): Row {
    Row(e.item.group.pid, e.item.name, Join(e.item.group.users), Round2(e.key))
  }

  /** The rows of one collection, the hash map drained in this order. */
  ghost predicate Collected(procs: seq<P.Proc>, order: seq<string>, rows: seq<Row>) {
    IsOrder(order, P.Names(procs)) && rows == Rows(Table(Entries(order, Grouped(procs), CpuOf)), RowOf)
  }

  /** `collect_top_cpu`: the first ten of the stable descending sort of the group sums. */
  method CollectTopCpu(procs: seq<P.Proc>) returns (rows: seq<Row>, order: seq<string>)
    ensures Collected(procs, order, rows)
    ensures (forall p :: p in procs ==> p.pid != 0) ==> IsTopTen(procs, rows) && TableTells(procs, rows)
  {
    hide IsTopTen, TableTells, GroupsTell;
    var byName := AggregateByName(procs);
    var names := HashOrder(byName.Keys);
    order := names;
    var entries := Sort(Entries(names, byName, CpuOf));
    entries := Take(entries, TOP_N);
    rows := Rows(entries, RowOf);
    if forall p :: p in procs ==> p.pid != 0 {
      TopTenMeaning(procs, order);
      TopTenTells(procs, rows);
    }
  }

  /** The printed column never increases: rounding respects the ranking. */
  lemma ColumnDescends(es: seq<Ranked<Entry<Group>>>, i: nat, j: nat)
    requires i < j < |Table(es)|
    ensures Rows(Table(es), RowOf)[i].figure >= Rows(Table(es), RowOf)[j].figure
  {
    TableShape(es);
    Round2Nearest(Table(es)[j].key, Table(es)[i].key);
  }

  // ----- the representative of a group

  /** What decides which member is kept. */
  ghost predicate IsKept(ms: seq<P.Proc>, i: nat) {
    && i < |ms|
    && (forall k :: i < k < |ms| ==> ms[k].cpu <= 0.0)
    && (ms[i].cpu > 0.0 || i == 0)
  }

  /** With non-zero pids the kept member is the last with positive CPU, or else the first. */
  lemma {:induction false} KeptMember(ms: seq<P.Proc>) returns (i: nat)
    requires ms != [] && forall m :: m in ms ==> m.pid != 0
    ensures IsKept(ms, i) && Kept(ms) == ms[i].pid
  {
    var front, m := ms[..|ms| - 1], ms[|ms| - 1];
    if front == [] || m.cpu > 0.0 {
      i := |ms| - 1;
    } else {
      i := KeptMember(front);
    }
  }

  /** The same among all processes: the last busy one of the group, or else its first. */
  ghost predicate Represents(procs: seq<P.Proc>, name: string, i: int) {
    && 0 <= i < |procs| && P.Belongs(procs[i], name)
    && (forall k :: i < k < |procs| && P.Belongs(procs[k], name) ==> procs[k].cpu <= 0.0)
    && (procs[i].cpu > 0.0 || forall k :: 0 <= k < i ==> !P.Belongs(procs[k], name))
  }

  lemma RepresentsStill(front: seq<P.Proc>, p: P.Proc, name: string, i: nat)
    requires Represents(front, name, i) && !(P.Belongs(p, name) && p.cpu > 0.0)
    ensures Represents(front + [p], name, i)
  {
    var procs := front + [p];
    forall k | 0 <= k < |front| ensures procs[k] == front[k] {}
  }

  lemma RepresentsNow(front: seq<P.Proc>, p: P.Proc, name: string)
    requires P.Belongs(p, name) && (p.cpu > 0.0 || name !in P.Names(front))
    ensures Represents(front + [p], name, |front|)
  {
    P.MembersBelong(front, name);
    if p.cpu <= 0.0 {
      forall k | 0 <= k < |front| ensures !P.Belongs((front + [p])[k], name) { assert front[k] in front; }
    }
  }

  lemma {:induction false} KeptRepresents(procs: seq<P.Proc>, name: string) returns (i: nat)
    requires name in P.Names(procs) && forall p :: p in procs ==> p.pid != 0
    ensures Represents(procs, name, i) && Kept(P.Members(procs, name)) == procs[i].pid
  {
    var front, p := procs[..|procs| - 1], procs[|procs| - 1];
    assert procs == front + [p];
    KeptNext(front, p, name);
    if name in P.Names(front) && !(P.Belongs(p, name) && p.cpu > 0.0) {
      hide P.Names, P.Members, P.Belongs, Represents;
      i := KeptRepresents(front, name);
      RepresentsStill(front, p, name, i);
      RepresentsIndex(front, name, i);
      assert procs[i] == front[i];
    } else {
      i := |front|;
      RepresentsNow(front, p, name);
    }
  }

  /** Whose pid the group keeps after one more visit. */
  lemma KeptNext(front: seq<P.Proc>, p: P.Proc, name: string)
    requires name in P.Names(front + [p]) && forall q :: q in front ==> q.pid != 0
    ensures var ms, ns := P.Members(front, name), P.Members(front + [p], name);
            if name in P.Names(front) && !(P.Belongs(p, name) && p.cpu > 0.0)
            then Kept(ns) == Kept(ms)
            else P.Belongs(p, name) && Kept(ns) == p.pid
  {
    P.NamesStep(front, p);
    P.MembersStep(front, p, name);
    P.MembersBelong(front, name);
    hide P.Names, P.Members;
    var ms := P.Members(front, name);
    GroupStep(ms, p);
    if ms != [] { var i := KeptMember(ms); }
  }

  lemma RepresentsIndex(procs: seq<P.Proc>, name: string, i: int)
    requires Represents(procs, name, i)
    ensures 0 <= i < |procs|
  {
  }

  /** Every representative pid is a member of its group, and a busy one if there is any. */
  lemma RepresentativeIsMember(procs: seq<P.Proc>, name: string)
    requires name in P.Names(procs) && forall p :: p in procs ==> p.pid != 0
    ensures exists p :: p in procs && P.Belongs(p, name) && p.pid == Grouped(procs)[name].pid
                     && ((exists q :: q in procs && P.Belongs(q, name) && q.cpu > 0.0) ==> p.cpu > 0.0)
  {
    P.MembersBelong(procs, name);
    var ms := P.Members(procs, name);
    var i := KeptMember(ms);
    assert ms[i] in procs;
    if q :| q in procs && P.Belongs(q, name) && q.cpu > 0.0 {
      assert q in ms;
    }
  }

  /** No member is busier than the i-th. */
  ghost predicate IsBusiest(ms: seq<P.Proc>, i: nat)
    requires i < |ms|
  {
    forall j :: 0 <= j < |ms| ==> ms[j].cpu <= ms[i].cpu
  }

  /** Whenever a busy member comes after a busier one, a busy one comes later still. */
  ghost predicate QuieterIsOvertaken(ms: seq<P.Proc>) {
    forall j, k :: 0 <= j < k < |ms| && 0.0 < ms[k].cpu < ms[j].cpu ==>
      exists l :: k < l < |ms| && ms[l].cpu > 0.0
  }

  lemma KeptIsBusiestIff(ms: seq<P.Proc>, i: nat)
    requires IsKept(ms, i) && forall j :: 0 <= j < |ms| ==> ms[j].cpu >= 0.0
    ensures IsBusiest(ms, i) <==> QuieterIsOvertaken(ms)
  {
    forall j | 0 <= j < |ms| && ms[j].cpu > ms[i].cpu ensures !QuieterIsOvertaken(ms) {
      assert j < i && 0.0 < ms[i].cpu < ms[j].cpu;
    }
    if forall j :: 0 <= j < |ms| ==> ms[j].cpu <= ms[i].cpu {
      forall j, k | 0 <= j < k < |ms| && 0.0 < ms[k].cpu < ms[j].cpu
        ensures exists l :: k < l < |ms| && ms[l].cpu > 0.0
      {
        assert k < i;
      }
    }
  }

  /** Members as a scan yields them: own pids, none of them zero, and no negative CPU. */
  ghost predicate AreMembers(ms: seq<P.Proc>) {
    P.IsProcessTable(ms) && forall m :: m in ms ==> m.pid != 0 && m.cpu >= 0.0
  }

  /** The representative is a busiest member exactly when the last busy one visited is. */
  lemma RepresentativeIsBusiestIff(ms: seq<P.Proc>, i: nat)
    requires AreMembers(ms) && i < |ms| && ms[i].pid == Kept(ms)
    ensures IsBusiest(ms, i) <==> QuieterIsOvertaken(ms)
  {
    var kept := KeptMember(ms);
    assert kept == i;
    KeptIsBusiestIff(ms, i);
  }

  /** However the hash map visits these members, the one kept is a busiest. */
  ghost predicate AlwaysBusiest(ms: seq<P.Proc>) {
    forall ns: seq<P.Proc>, i: nat ::
      multiset(ns) == multiset(ms) && i < |ns| && ns[i].pid == Kept(ns) ==> IsBusiest(ns, i)
  }

  ghost predicate BusyAlike(ms: seq<P.Proc>) {
    forall a, b :: a in ms && b in ms && a.cpu > 0.0 && b.cpu > 0.0 ==> a.cpu == b.cpu
  }

  /** A busiest member is kept under every visiting order exactly when all busy members are alike. */
  lemma AlwaysBusiestIff(ms: seq<P.Proc>)
    requires AreMembers(ms)
    ensures AlwaysBusiest(ms) <==> BusyAlike(ms)
  {
    if BusyAlike(ms) {
      forall ns: seq<P.Proc>, i: nat | multiset(ns) == multiset(ms) && i < |ns| && ns[i].pid == Kept(ns)
        ensures IsBusiest(ns, i)
      {
        Reordered(ms, ns);
        RepresentativeIsBusiestIff(ns, i);
      }
    } else {
      var a, b :| a in ms && b in ms && 0.0 < a.cpu < b.cpu;
      var ns := QuieterLast(ms, a, b);
      Reordered(ms, ns);
      var i := |ns| - 1;
      assert ns[i].pid == Kept(ns) && !IsBusiest(ns, i);
    }
  }

  lemma Reordered(ms: seq<P.Proc>, ns: seq<P.Proc>)
    requires AreMembers(ms) && multiset(ns) == multiset(ms)
    ensures AreMembers(ns) && (BusyAlike(ms) ==> BusyAlike(ns))
  {
    forall m ensures m in ns <==> m in ms { assert m in multiset(ns) <==> m in multiset(ms); }
    NoDupCount(ms);
    forall i, j | 0 <= i < j < |ns| ensures ns[i].pid != ns[j].pid {
      if ns[i] == ns[j] { TwiceCounts(ns, i, j); }
      var k := IndexIn(ms, ns[i]);
      var l := IndexIn(ms, ns[j]);
    }
  }

  lemma QuieterLast(ms: seq<P.Proc>, a: P.Proc, b: P.Proc) returns (ns: seq<P.Proc>)
    requires a in ms && b in ms && 0.0 < a.cpu < b.cpu
    ensures multiset(ns) == multiset(ms) && ns != [] && Kept(ns) == ns[|ns| - 1].pid && !IsBusiest(ns, |ns| - 1)
  {
    hide Kept, IsBusiest;
    var rest := MovedLast(ms, a);
    ns := rest + [a];
    KeptLast(rest, a);
    var j :| 0 <= j < |rest| && rest[j] == b;
    QuieterThan(rest, a, j);
  }

  lemma MovedLast(ms: seq<P.Proc>, a: P.Proc) returns (rest: seq<P.Proc>)
    requires a in ms
    ensures multiset(rest + [a]) == multiset(ms)
    ensures forall b :: b in ms && b != a ==> b in rest
  {
    var i :| 0 <= i < |ms| && ms[i] == a;
    rest := ms[..i] + ms[i + 1..];
    BackTogether(ms, i);
    forall b | b in ms && b != a ensures b in rest {
      var j :| 0 <= j < |ms| && ms[j] == b;
      assert rest[if j < i then j else j - 1] == b;
    }
  }

  lemma QuieterThan(rest: seq<P.Proc>, a: P.Proc, j: nat)
    requires j < |rest| && a.cpu < rest[j].cpu
    ensures !IsBusiest(rest + [a], |rest|)
  {
    assert (rest + [a])[j] == rest[j];
  }

  lemma BackTogether(ms: seq<P.Proc>, i: nat)
    requires i < |ms|
    ensures multiset(ms[..i] + ms[i + 1..] + [ms[i]]) == multiset(ms)
  {
    assert ms == ms[..i] + [ms[i]] + ms[i + 1..];
  }

  lemma KeptLast(front: seq<P.Proc>, m: P.Proc)
    requires m.cpu > 0.0
    ensures Kept(front + [m]) == m.pid
  {
    assert (front + [m])[..|front|] == front;
  }

  /** The busiest of two is passed over when a quieter one is visited after it. */
  lemma RepresentativeNeedNotBeBusiest()
    ensures Kept([P.Proc(7, "x", false, 0, 90.0, ""), P.Proc(8, "x", false, 0, 1.0, "")]) == 8
  {
    var a := P.Proc(7, "x", false, 0, 90.0, "");
    var b := P.Proc(8, "x", false, 0, 1.0, "");
    assert [a, b][..1] == [a];
  }

  // ----- what the rows say

  function Loads(procs: seq<P.Proc>): map<string, real> {
    map name | name in P.Names(procs) :: SumCpu(P.Members(procs, name))
  }

  /** The pid the visiting rule keeps, and the users joined by commas. */
  ghost predicate Describes(procs: seq<P.Proc>, r: Row) {
    && (exists i :: Represents(procs, r.name, i) && r.pid == procs[i].pid)
    && (exists users :: P.ListsUsers(procs, r.name, users) && r.username == Join(users))
  }

  /** A true top ten of the group sums, each row true of its group. */
  ghost predicate IsTopTen(procs: seq<P.Proc>, rows: seq<Row>) {
    RanksTop(Loads(procs), rows) && forall i :: 0 <= i < |rows| ==> Describes(procs, rows[i])
  }

  // ----- the same from the process list alone

  function CpuCalled(procs: seq<P.Proc>, name: string): real {
    if procs == [] then 0.0
    else CpuCalled(procs[..|procs| - 1], name)
         + if P.Named(procs[|procs| - 1], name) then procs[|procs| - 1].cpu else 0.0
  }

  lemma {:induction false} LoadIsCalled(procs: seq<P.Proc>, name: string)
    ensures SumCpu(P.Members(procs, name)) == CpuCalled(procs, name)
  {
    if procs != [] {
      var front, p := procs[..|procs| - 1], procs[|procs| - 1];
      LoadIsCalled(front, name);
      P.BelongsIffNamed(p, name);
      GroupStep(P.Members(front, name), p);
    }
  }

  /** The last of the program's processes with any CPU, or the first of them if none has. */
  ghost predicate Stands(procs: seq<P.Proc>, name: string, i: int) {
    && 0 <= i < |procs| && P.Named(procs[i], name)
    && (forall k :: i < k < |procs| && P.Named(procs[k], name) ==> procs[k].cpu <= 0.0)
    && (procs[i].cpu > 0.0 || forall k :: 0 <= k < i ==> !P.Named(procs[k], name))
  }

  ghost predicate RowTells(procs: seq<P.Proc>, r: Row) {
    && (exists i :: Stands(procs, r.name, i) && r.pid == procs[i].pid)
    && (exists users :: P.ListsUsersOf(procs, r.name, users) && r.username == Join(users))
    && -0.005 <= r.figure - CpuCalled(procs, r.name) <= 0.005
  }

  /** As for memory: at most ten programs, truly told, biggest first, none wrongly left out. */
  ghost predicate TableTells(procs: seq<P.Proc>, rows: seq<Row>) {
    && |rows| <= 10
    && (forall i :: 0 <= i < |rows| ==> RowTells(procs, rows[i]))
    && (forall i, j :: 0 <= i < j < |rows| ==> rows[i].name != rows[j].name && rows[i].figure >= rows[j].figure)
    && forall p, name :: p in procs && P.Named(p, name) && Absent(rows, name) ==>
         |rows| == 10 && forall i :: 0 <= i < 10 ==> CpuCalled(procs, name) <= CpuCalled(procs, rows[i].name)
  }

  /** One group for each program a non-thread process counts as, with its CPU, its users and its pid. */
  ghost predicate GroupsTell(procs: seq<P.Proc>, byName: map<string, Group>) {
    && (forall name :: name in byName <==> exists p :: p in procs && P.Named(p, name))
    && forall name :: name in byName ==>
         && byName[name].cpu == CpuCalled(procs, name) && P.ListsUsersOf(procs, name, byName[name].users)
         && ((forall p :: p in procs ==> p.pid != 0) ==>
               exists i :: Stands(procs, name, i) && byName[name].pid == procs[i].pid)
  }

  lemma GroupTells(procs: seq<P.Proc>, name: string)
    requires name in Grouped(procs)
    ensures var g := Grouped(procs)[name];
            && g.cpu == CpuCalled(procs, name) && P.ListsUsersOf(procs, name, g.users)
            && ((forall p :: p in procs ==> p.pid != 0) ==>
                  exists i :: Stands(procs, name, i) && g.pid == procs[i].pid)
  {
    hide SumCpu, CpuCalled, Kept, P.Users, P.ListsUsers, P.ListsUsersOf, P.Named, P.Belongs, P.Members;
    LoadIsCalled(procs, name);
    P.UsersOf(procs, name);
    P.UsersAreOf(procs, name, P.Users(P.Members(procs, name)));
    if forall p :: p in procs ==> p.pid != 0 {
      var i := KeptRepresents(procs, name);
      forall p { P.BelongsIffNamed(p, name); }
      assert Stands(procs, name, i);
    }
  }

  lemma KeyTells(procs: seq<P.Proc>, name: string)
    ensures name in Grouped(procs) <==> exists p :: p in procs && P.Named(p, name)
  {
    hide P.Named, P.ListsUsersOf, P.MiBCalled, P.Called;
    P.GroupsByName(procs, name);
  }

  lemma GroupsByName(procs: seq<P.Proc>)
    ensures GroupsTell(procs, Grouped(procs))
  {
    hide Grouped, P.Named, CpuCalled, P.ListsUsersOf, Stands;
    forall name { KeyTells(procs, name); }
    forall name | name in Grouped(procs) { GroupTells(procs, name); }
  }

  lemma DescribedTells(procs: seq<P.Proc>, r: Row)
    requires Describes(procs, r) && -0.005 <= r.figure - SumCpu(P.Members(procs, r.name)) <= 0.005
    ensures RowTells(procs, r)
  {
    hide SumCpu, CpuCalled, P.Members, P.ListsUsers, P.ListsUsersOf, P.Belongs, P.Named;
    LoadIsCalled(procs, r.name);
    forall p { P.BelongsIffNamed(p, r.name); }
    var users :| P.ListsUsers(procs, r.name, users) && r.username == Join(users);
    P.UsersAreOf(procs, r.name, users);
    var i :| Represents(procs, r.name, i) && r.pid == procs[i].pid;
    assert Stands(procs, r.name, i);
  }

  /** Every true top ten tells the process list so. */
  lemma TopTenTells(procs: seq<P.Proc>, rows: seq<Row>)
    requires IsTopTen(procs, rows)
    ensures TableTells(procs, rows)
  {
    hide Describes, RowTells, SumCpu, CpuCalled, P.Named, P.Members;
    forall name { LoadIsCalled(procs, name); }
    forall i | 0 <= i < |rows| { DescribedTells(procs, rows[i]); }
    forall p, name | p in procs && P.Named(p, name) && Absent(rows, name)
      ensures |rows| == 10 && forall i :: 0 <= i < 10 ==> CpuCalled(procs, name) <= CpuCalled(procs, rows[i].name)
    {
      P.GroupsByName(procs, name);
      assert name in Loads(procs);
      LeftOutOfFull(Loads(procs), rows, name);
    }
  }

  lemma RowPrints()
    ensures Prints(RowOf)
  {
  }

  lemma RowDescribes(procs: seq<P.Proc>, order: seq<string>, i: nat)
    requires IsOrder(order, P.Names(procs)) && forall p :: p in procs ==> p.pid != 0
    requires var es := Entries(order, Grouped(procs), CpuOf); i < |Table(es)|
    ensures Describes(procs, Rows(Table(Entries(order, Grouped(procs), CpuOf)), RowOf)[i])
  {
    hide Table, Represents, P.ListsUsers, P.Users, SumCpu, Kept, Join;
    var es := Entries(order, Grouped(procs), CpuOf);
    var k := ComesFrom(es, Table(es)[i]);
    assert order[k] in order;
    var j := KeptRepresents(procs, order[k]);
    P.UsersOf(procs, order[k]);
  }

  lemma TopTenMeaning(procs: seq<P.Proc>, order: seq<string>)
    requires IsOrder(order, P.Names(procs)) && forall p :: p in procs ==> p.pid != 0
    ensures IsTopTen(procs, Rows(Table(Entries(order, Grouped(procs), CpuOf)), RowOf))
  {
    hide Table, Describes, RanksTop, Prints, SumCpu, Kept, P.Users;
    var es := Entries(order, Grouped(procs), CpuOf);
    DrainedOnce(order, Grouped(procs), CpuOf);
    RowPrints();
    TableRanks(Loads(procs), es, RowOf);
    forall i | 0 <= i < |Table(es)| { RowDescribes(procs, order, i); }
  }
}
