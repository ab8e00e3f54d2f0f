/**
 The two process tables have one shape: groups drained from a hash map in any order, ranked by a
 figure, the first ten shown as rows. What such a table means is stated and proved here once.
 */
module Ranking {
  import opened StableSort
  import opened StreamingTopN
  import opened Units

  /** A row of either table; `figure` is MiB or percent of a core. */
  datatype Row = Row(pid: nat, name: string, username: string, figure: real)

  datatype Entry<G> = Entry(name: string, group: G)

  // ----- draining the hash map

  ghost predicate IsOrder(order: seq<string>, names: set<string>) {
    && (forall i, j :: 0 <= i < j < |order| ==> order[i] != order[j])
    && (forall name :: name in order <==> name in names)
  }

  /** Iteration order of a hash map: any order at all. */
  method HashOrder(names: set<string>) returns (order: seq<string>)
    ensures IsOrder(order, names)
  {
    order := [];
    var rest := names;
    while rest != {}
      invariant rest <= names && IsOrder(order, names - rest)
      decreases rest
    {
      var name :| name in rest;
      order := order + [name];
      rest := rest - {name};
    }
  }

  lemma {:induction false} OrderSize(order: seq<string>, names: set<string>)
    requires IsOrder(order, names)
    ensures |order| == |names|
  {
    if order == [] {
      assert names == {};
    } else {
      var front, last := order[..|order| - 1], order[|order| - 1];
      assert order == front + [last];
      OrderSize(front, names - {last});
    }
  }

  function Entries<G>(order: seq<string>, groups: map<string, G>, key: G -> real): (es: seq<Ranked<Entry<G>>>)
    requires forall name :: name in order ==> name in groups
    ensures |es| == |order|
    ensures forall i :: 0 <= i < |order| ==> es[i] == Ranked(key(groups[order[i]]), Entry(order[i], groups[order[i]]))
  {
    seq(|order|, i requires 0 <= i < |order| => Ranked(key(groups[order[i]]), Entry(order[i], groups[order[i]])))
  }

  // ----- lists of groups

  ghost predicate ListsEachOnce<G>(es: seq<Ranked<Entry<G>>>, names: set<string>) {
    && (forall i, j :: 0 <= i < j < |es| ==> es[i].item.name != es[j].item.name)
    && (forall i :: 0 <= i < |es| ==> es[i].item.name in names)
    && (forall name :: name in names ==> exists i :: 0 <= i < |es| && es[i].item.name == name)
  }

  lemma DrainedOnce<G>(order: seq<string>, groups: map<string, G>, key: G -> real)
    requires IsOrder(order, groups.Keys)
    ensures ListsEachOnce(Entries(order, groups, key), groups.Keys)
  {
    var es := Entries(order, groups, key);
    assert forall i :: 0 <= i < |es| ==> order[i] in order;
    forall name | name in groups ensures exists i :: 0 <= i < |es| && es[i].item.name == name {
      var k :| 0 <= k < |order| && order[k] == name;
      assert es[k].item.name == name;
    }
  }

  lemma IndexIn<T>(s: seq<T>, e: T) returns (i: nat)
    requires e in multiset(s)
    ensures i < |s| && s[i] == e
  {
    i :| 0 <= i < |s| && s[i] == e;
  }

  lemma ShuffledOnce<G>(raw: seq<Ranked<Entry<G>>>, es: seq<Ranked<Entry<G>>>, names: set<string>)
    requires multiset(es) == multiset(raw) && ListsEachOnce(raw, names)
    ensures ListsEachOnce(es, names)
  {
    NoDupCount(raw);
    forall i | 0 <= i < |es| ensures es[i].item.name in names { var k := IndexIn(raw, es[i]); }
    forall i, j | 0 <= i < j < |es| ensures es[i].item.name != es[j].item.name {
      if es[i] == es[j] { TwiceCounts(es, i, j); }
      var k := IndexIn(raw, es[i]);
      var l := IndexIn(raw, es[j]);
    }
    forall name | name in names ensures exists i :: 0 <= i < |es| && es[i].item.name == name {
      var k :| 0 <= k < |raw| && raw[k].item.name == name;
      var i := IndexIn(es, raw[k]);
      assert es[i].item.name == name;
    }
  }

  lemma SameNamesOnce<G>(es: seq<Ranked<Entry<G>>>, ms: seq<Ranked<Entry<G>>>, names: set<string>)
    requires ListsEachOnce(es, names) && |ms| == |es|
    requires forall i :: 0 <= i < |es| ==> ms[i].item.name == es[i].item.name
    ensures ListsEachOnce(ms, names)
  {
    forall name | name in names ensures exists i :: 0 <= i < |ms| && ms[i].item.name == name {
      var i :| 0 <= i < |es| && es[i].item.name == name;
      assert ms[i].item.name == name;
    }
  }

  lemma OnceSize<G>(es: seq<Ranked<Entry<G>>>, names: set<string>)
    requires ListsEachOnce(es, names)
    ensures |es| == |names|
  {
    var order := seq(|es|, i requires 0 <= i < |es| => es[i].item.name);
    forall name ensures name in order <==> name in names {
      if name in names {
        var i :| 0 <= i < |es| && es[i].item.name == name;
        assert order[i] == name;
      }
    }
    OrderSize(order, names);
  }

  /** `es` lists every name once, each with its charge. */
  ghost predicate Charged<G>(charges: map<string, real>, es: seq<Ranked<Entry<G>>>) {
    && ListsEachOnce(es, charges.Keys)
    && forall i :: 0 <= i < |es| ==> es[i].key == charges[es[i].item.name]
  }

  function NameKeys<G>(es: seq<Ranked<Entry<G>>>): (ns: seq<Ranked<string>>)
    ensures |ns| == |es| && forall i :: 0 <= i < |es| ==> ns[i] == Ranked(es[i].key, es[i].item.name)
  {
    seq(|es|, i requires 0 <= i < |es| => Ranked(es[i].key, es[i].item.name))
  }

  lemma NameKeysCount<G>(charges: map<string, real>, es: seq<Ranked<Entry<G>>>, x: Ranked<string>)
    requires Charged(charges, es)
    ensures multiset(NameKeys(es))[x] == if x.item in charges && x.key == charges[x.item] then 1 else 0
  {
    NoDupCount(NameKeys(es));
    if x.item in charges && x.key == charges[x.item] {
      var i :| 0 <= i < |es| && es[i].item.name == x.item;
      assert NameKeys(es)[i] == x;
    }
    if x in multiset(NameKeys(es)) {
      var i :| 0 <= i < |es| && NameKeys(es)[i] == x;
    }
  }

  /** The ranked charges depend on the charges alone, not on any order the groups came in. */
  lemma SameCharges<G>(charges: map<string, real>, e1: seq<Ranked<Entry<G>>>, e2: seq<Ranked<Entry<G>>>)
    requires Charged(charges, e1) && Charged(charges, e2)
    ensures Keys(Table(e1)) == Keys(Table(e2))
  {
    forall x ensures multiset(NameKeys(e1))[x] == multiset(NameKeys(e2))[x] {
      NameKeysCount(charges, e1, x);
      NameKeysCount(charges, e2, x);
    }
    assert multiset(NameKeys(e1)) == multiset(NameKeys(e2));
    KeysOfPermutation(NameKeys(e1), NameKeys(e2));
    assert Keys(NameKeys(e1)) == Keys(e1) && Keys(NameKeys(e2)) == Keys(e2);
    SortedKeysUnique(e1, e2);
    TableKeys(e1);
    TableKeys(e2);
  }

  // ----- rows

  function Rows<G>(t: seq<Ranked<Entry<G>>>, row: Ranked<Entry<G>> -> Row): (rows: seq<Row>)
    ensures |rows| == |t| && forall i :: 0 <= i < |t| ==> rows[i] == row(t[i])
  {
    seq(|t|, i requires 0 <= i < |t| => row(t[i]))
  }

  /** A row carries its entry's name, and its key to two decimals. */
  ghost predicate Prints<G(!new)>(row: Ranked<Entry<G>> -> Row) {
    forall e :: row(e).name == e.item.name && row(e).figure == Round2(e.key)
  }

  ghost predicate Absent(rows: seq<Row>, name: string) {
    forall i :: 0 <= i < |rows| ==> rows[i].name != name
  }

  /**
   A top ten without mention of sorting: distinct groups, each with its charge to within half a
   hundredth, never increasing down the column, ten of them or all there are, and none left out that
   is charged more than one shown.
   */
  ghost predicate RanksTop(charges: map<string, real>, rows: seq<Row>) {
    && |rows| == Min(|charges|, TOP_N)
    && (forall i :: 0 <= i < |rows| ==>
          rows[i].name in charges && -0.005 <= rows[i].figure - charges[rows[i].name] <= 0.005)
    && (forall i, j :: 0 <= i < j < |rows| ==> rows[i].name != rows[j].name && rows[i].figure >= rows[j].figure)
    && (forall name, i :: name in charges && Absent(rows, name) && 0 <= i < |rows| ==>
          charges[name] <= charges[rows[i].name])
  }

  lemma {:induction false} NamesShown(rows: seq<Row>) returns (names: set<string>)
    requires forall i, j :: 0 <= i < j < |rows| ==> rows[i].name != rows[j].name
    ensures |names| == |rows| && forall name :: name in names <==> !Absent(rows, name)
  {
    if rows == [] {
      names := {};
    } else {
      var front, last := rows[..|rows| - 1], rows[|rows| - 1];
      assert rows == front + [last];
      names := NamesShown(front);
      assert Absent(front, last.name);
      forall name ensures name in names + {last.name} <==> !Absent(rows, name) {
        if !Absent(front, name) {
          var i :| 0 <= i < |front| && front[i].name == name;
          assert rows[i].name == name;
        }
      }
      names := names + {last.name};
    }
  }

  /** A group is left out only of a full table. */
  lemma LeftOutOfFull(charges: map<string, real>, rows: seq<Row>, name: string)
    requires RanksTop(charges, rows) && name in charges && Absent(rows, name)
    ensures |rows| == TOP_N
  {
    var names := NamesShown(rows);
    forall n | n in names ensures n in charges {
      var i :| 0 <= i < |rows| && rows[i].name == n;
    }
    assert |charges.Keys| == |charges|;
    assert names + {name} <= charges.Keys;
    Cardinal(names + {name}, charges.Keys);
  }

  lemma Cardinal(a: set<string>, b: set<string>)
    requires a <= b
    ensures |a| <= |b|
  {
    assert b == a + (b - a);
  }

  lemma RowShown<G(!new)>(
      charges: map<string, real>, ms: seq<Ranked<Entry<G>>>, row: Ranked<Entry<G>> -> Row, i: nat)
      returns (k: nat)
    requires Charged(charges, ms) && Prints(row) && i < |Table(ms)|
    ensures k < |ms| && Rows(Table(ms), row)[i] == row(ms[k]) && Table(ms)[i] == ms[k]
    ensures var r := Rows(Table(ms), row)[i];
            && r.name in charges && Table(ms)[i].key == charges[r.name]
            && -0.005 <= r.figure - charges[r.name] <= 0.005
  {
    hide Table, Round2;
    k := ComesFrom(ms, Table(ms)[i]);
    Round2Nearest(ms[k].key, ms[k].key);
  }

  lemma RowsOrdered<G(!new)>(
      charges: map<string, real>, ms: seq<Ranked<Entry<G>>>, row: Ranked<Entry<G>> -> Row, i: nat, j: nat)
    requires Charged(charges, ms) && Prints(row) && i < j < |Table(ms)|
    ensures var rows := Rows(Table(ms), row);
            rows[i].name != rows[j].name && rows[i].figure >= rows[j].figure
  {
    hide Table, Round2;
    var k, l := TableSources(ms, i, j);
    Round2Nearest(Table(ms)[j].key, Table(ms)[i].key);
  }

  lemma NotShown<G(!new)>(t: seq<Ranked<Entry<G>>>, row: Ranked<Entry<G>> -> Row, e: Ranked<Entry<G>>)
    requires Prints(row)
    ensures Absent(Rows(t, row), e.item.name) <==> forall x :: x in t ==> x.item.name != e.item.name
  {
    var rows := Rows(t, row);
    forall i | 0 <= i < |t| ensures rows[i].name == t[i].item.name {}
    if x :| x in t && x.item.name == e.item.name {
      var i :| 0 <= i < |t| && t[i] == x;
      assert rows[i].name == e.item.name;
    }
  }

  lemma NoneBetter<G(!new)>(
      charges: map<string, real>, ms: seq<Ranked<Entry<G>>>, row: Ranked<Entry<G>> -> Row, name: string, i: nat)
    requires Charged(charges, ms) && Prints(row) && i < |Table(ms)|
    requires name in charges && Absent(Rows(Table(ms), row), name)
    ensures charges[name] <= Table(ms)[i].key
  {
    hide Table;
    var k :| 0 <= k < |ms| && ms[k].item.name == name;
    NotShown(Table(ms), row, ms[k]);
    TableIsTop(ms, k);
    assert Table(ms)[i] in Table(ms);
  }

  /** The first ten of a stable sort of all groups by their charge are a top ten. */
  lemma TableRanks<G(!new)>(
      charges: map<string, real>, ms: seq<Ranked<Entry<G>>>, row: Ranked<Entry<G>> -> Row)
    requires Charged(charges, ms) && Prints(row)
    ensures RanksTop(charges, Rows(Table(ms), row))
  {
    hide Table, Charged, Prints;
    var rows := Rows(Table(ms), row);
    ChargedSize(charges, ms);
    TableSize(ms);
    forall i | 0 <= i < |rows|
      ensures rows[i].name in charges && -0.005 <= rows[i].figure - charges[rows[i].name] <= 0.005
           && Table(ms)[i].key == charges[rows[i].name]
    {
      var k := RowShown(charges, ms, row, i);
    }
    forall i, j | 0 <= i < j < |rows|
      ensures rows[i].name != rows[j].name && rows[i].figure >= rows[j].figure
    {
      RowsOrdered(charges, ms, row, i, j);
    }
    forall name, i | name in charges && Absent(rows, name) && 0 <= i < |rows|
      ensures charges[name] <= charges[rows[i].name]
    {
      NoneBetter(charges, ms, row, name, i);
    }
  }

  lemma ChargedSize<G>(charges: map<string, real>, ms: seq<Ranked<Entry<G>>>)
    requires Charged(charges, ms)
    ensures |ms| == |charges|
  {
    OnceSize(ms, charges.Keys);
    assert |charges.Keys| == |charges|;
  }

  /** Looking only at the first `n` groups gives a top ten exactly if no other would have entered. */
  lemma CutRanksIff<G(!new)>(
      charges: map<string, real>, ms: seq<Ranked<Entry<G>>>, row: Ranked<Entry<G>> -> Row, n: nat)
    requires Charged(charges, ms) && Prints(row) && n < |ms| && Full(Table(ms[..n]))
    ensures RanksTop(charges, Rows(Table(ms[..n]), row))
       <==> forall j :: n <= j < |ms| ==> ms[j].key <= Threshold(Table(ms[..n]))
  {
    hide Table;
    if forall j :: n <= j < |ms| ==> ms[j].key <= Threshold(Table(ms[..n])) {
      LosersChangeNothing(ms, n);
      TableRanks(charges, ms, row);
    } else if RanksTop(charges, Rows(Table(ms[..n]), row)) {
      var j :| n <= j < |ms| && ms[j].key > Threshold(Table(ms[..n]));
      UnseenIsAbsent(charges, ms, row, n, j);
      assert false;
    }
  }

  lemma UnseenIsAbsent<G(!new)>(
      charges: map<string, real>, ms: seq<Ranked<Entry<G>>>, row: Ranked<Entry<G>> -> Row, n: nat, j: nat)
    requires Charged(charges, ms) && Prints(row) && n <= j < |ms| && Full(Table(ms[..n]))
    ensures var rows := Rows(Table(ms[..n]), row);
            && Absent(rows, ms[j].item.name) && rows[TOP_N - 1].name in charges
            && charges[rows[TOP_N - 1].name] == Threshold(Table(ms[..n]))
  {
    hide Table;
    var t := Table(ms[..n]);
    forall x | x in t ensures x.item.name != ms[j].item.name { var k := ComesFrom(ms[..n], x); }
    NotShown(t, row, ms[j]);
    assert t[TOP_N - 1] in t;
    var k := ComesFrom(ms[..n], t[TOP_N - 1]);
  }
}
