/**
 The running top ten with an early stop: candidates arrive in descending order of a cheap bound,
 each is measured when reached, and the walk ends when the next bound cannot beat the table.
 `es` carries the bounds, `ms` the same items with the measured values.
 */
module StreamingTopN {
  import opened StableSort

  const TOP_N: nat := 10

  ghost predicate Remeasures<T(!new)>(ms: seq<Ranked<T>>, es: seq<Ranked<T>>) {
    && |ms| == |es|
    && (forall i :: 0 <= i < |es| ==> ms[i].item == es[i].item)
    && (forall i, j :: 0 <= i < j < |es| ==> es[i].item != es[j].item)
  }

  ghost predicate Bounded<T(!new)>(ms: seq<Ranked<T>>, es: seq<Ranked<T>>) {
    |ms| == |es| && forall i :: 0 <= i < |es| ==> ms[i].key <= es[i].key
  }

  /** The reference answer: sort everything, keep ten. */
  function Table<T>(ms: seq<Ranked<T>>): seq<Ranked<T>> {
    Take(Sort(ms), TOP_N)
  }

  predicate Full<T>(t: seq<Ranked<T>>) {
    |t| == TOP_N
  }

  function Threshold<T>(t: seq<Ranked<T>>): real
    requires Full(t)
  {
    t[TOP_N - 1].key
  }

  ghost predicate Stops<T>(es: seq<Ranked<T>>, ms: seq<Ranked<T>>, i: nat)
    requires i < |es| == |ms|
  {
    Full(Table(ms[..i])) && es[i].key <= Threshold(Table(ms[..i]))
  }

  /** The walk measures exactly the first `n` candidates. */
  ghost predicate StoppedAt<T>(es: seq<Ranked<T>>, ms: seq<Ranked<T>>, n: nat)
    requires |es| == |ms|
  {
    && n <= |es|
    && (forall i :: 0 <= i < n ==> !Stops(es, ms, i))
    && (n < |es| ==> Stops(es, ms, n))
  }

  lemma TableStep<T>(s: seq<Ranked<T>>, e: Ranked<T>)
    ensures Table(s + [e]) == Take(Insert(Table(s), e), TOP_N)
    ensures Table(s + [e]) == Take(Sort(Table(s) + [e]), TOP_N)
    ensures Descending(Table(s))
  {
    assert (s + [e])[..|s|] == s && (Table(s) + [e])[..|Table(s)|] == Table(s);
    SortIsStable(s);
    TakeInsert(Sort(s), e, TOP_N);
    SortOfSorted(Table(s));
  }

  /** Pushing the next item, sorting, and popping an eleventh, is one step of the table. */
  lemma PushSortPop<T>(ms: seq<Ranked<T>>, i: nat)
    requires i < |ms|
    ensures var t := Sort(Table(ms[..i]) + [ms[i]]);
            Table(ms[..i + 1]) == if |t| > TOP_N then t[..|t| - 1] else t
  {
    assert ms[..i + 1] == ms[..i] + [ms[i]];
    TableStep(ms[..i], ms[i]);
    SortIsStable(Table(ms[..i]) + [ms[i]]);
  }

  lemma TableOfNone<T>(ms: seq<Ranked<T>>)
    ensures Table(ms[..0]) == []
  {
  }

  lemma TableShape<T>(ms: seq<Ranked<T>>)
    ensures Descending(Table(ms)) && (Full(Table(ms)) <==> |ms| >= TOP_N)
  {
    SortIsStable(ms);
  }

  lemma TableKeys<T>(ms: seq<Ranked<T>>)
    ensures Keys(Table(ms)) == Take(Keys(Sort(ms)), TOP_N)
  {
  }

  lemma ComesFrom<T>(ms: seq<Ranked<T>>, x: Ranked<T>) returns (i: nat)
    requires x in Table(ms)
    ensures i < |ms| && ms[i] == x
  {
    SortIsStable(ms);
    assert x in multiset(Sort(ms));
    i :| 0 <= i < |ms| && ms[i] == x;
  }

  lemma Enters<T>(ms: seq<Ranked<T>>, i: nat)
    requires i < |ms| && Full(Table(ms)) && ms[i].key > Threshold(Table(ms))
    ensures ms[i] in Table(ms)
  {
    SortIsStable(ms);
    assert ms[i] in multiset(ms);
    var q :| 0 <= q < |Sort(ms)| && Sort(ms)[q] == ms[i];
    assert q < TOP_N;
  }

  lemma {:induction false} LosersChangeNothing<T>(ms: seq<Ranked<T>>, n: nat)
    requires n <= |ms| && Full(Table(ms[..n]))
    requires forall j :: n <= j < |ms| ==> ms[j].key <= Threshold(Table(ms[..n]))
    ensures Table(ms) == Table(ms[..n])
  {
    if n < |ms| {
      var front := ms[..|ms| - 1];
      assert front[..n] == ms[..n] && ms == front + [ms[|ms| - 1]];
      LosersChangeNothing(front, n);
      TableStep(front, ms[|ms| - 1]);
      TakeInsertLoser(Table(front), ms[|ms| - 1], TOP_N);
    } else {
      assert ms[..n] == ms;
    }
  }

  /** The shortcut answers correctly exactly when no unmeasured item would have entered the table. */
  lemma StreamExactIff<T(!new)>(es: seq<Ranked<T>>, ms: seq<Ranked<T>>, n: nat)
    requires Remeasures(ms, es) && StoppedAt(es, ms, n)
    ensures Table(ms[..n]) == Table(ms)
       <==> forall j :: n <= j < |ms| ==> ms[j].key <= Threshold(Table(ms[..n]))
  {
    if n == |ms| {
      assert ms[..n] == ms;
    } else if forall j :: n <= j < |ms| ==> ms[j].key <= Threshold(Table(ms[..n])) {
      LosersChangeNothing(ms, n);
    } else if Table(ms[..n]) == Table(ms) {
      var j :| n <= j < |ms| && ms[j].key > Threshold(Table(ms[..n]));
      Enters(ms, j);
      var i := ComesFrom(ms[..n], ms[j]);
      assert false;
    }
  }

  /** With every measured value within its bound, the shortcut is exact, ties included. */
  lemma StreamExact<T(!new)>(es: seq<Ranked<T>>, ms: seq<Ranked<T>>, n: nat)
    requires Remeasures(ms, es) && Bounded(ms, es) && Descending(es) && StoppedAt(es, ms, n)
    ensures Table(ms[..n]) == Table(ms)
  {
    if n < |ms| {
      forall j | n <= j < |ms| ensures ms[j].key <= Threshold(Table(ms[..n])) {
        assert ms[j].key <= es[j].key <= es[n].key;
      }
    }
    StreamExactIff(es, ms, n);
  }

  lemma ThresholdCapped<T>(t: seq<Ranked<T>>, e: Ranked<T>, cap: real)
    requires Descending(t) && Full(t) && Threshold(t) <= cap && e.key <= cap
    ensures var u := Take(Insert(t, e), TOP_N); Full(u) && Threshold(u) <= cap
  {
    InsertAt(t, e);
  }

  lemma {:induction false} ThresholdStaysBelow<T(!new)>(
      es: seq<Ranked<T>>, ms: seq<Ranked<T>>, j: nat, i: nat)
    requires Bounded(ms, es) && Descending(es)
    requires TOP_N <= j <= i <= |es| && j < |es| && !Stops(es, ms, j)
    ensures Full(Table(ms[..i])) && Threshold(Table(ms[..i])) <= es[j].key
    decreases i
  {
    hide Sort, Insert, Take;
    TableShape(ms[..i]);
    if j < i {
      ThresholdStaysBelow(es, ms, j, i - 1);
      assert ms[..i] == ms[..i - 1] + [ms[i - 1]];
      TableStep(ms[..i - 1], ms[i - 1]);
      ThresholdCapped(Table(ms[..i - 1]), ms[i - 1], es[j].key);
    }
  }

  /** What the early stop saves: only items whose bound reaches the final threshold are measured. */
  lemma ReadsAreFew<T(!new)>(es: seq<Ranked<T>>, ms: seq<Ranked<T>>, n: nat)
    requires Remeasures(ms, es) && Bounded(ms, es) && Descending(es) && StoppedAt(es, ms, n)
    requires Full(Table(ms))
    ensures forall j :: 0 <= j < |es| && es[j].key > Threshold(Table(ms)) ==> j < n
    ensures forall j :: TOP_N <= j < n ==> es[j].key >= Threshold(Table(ms))
  {
    StreamExact(es, ms, n);
    forall j | TOP_N <= j < n ensures es[j].key >= Threshold(Table(ms)) {
      ThresholdStaysBelow(es, ms, j, n);
    }
  }

  /**
   Which items are measured: the first ten, then each whose bound exceeds the tenth value so far, up
   to the first whose bound does not.
   */
  lemma ReadsExactly<T>(es: seq<Ranked<T>>, ms: seq<Ranked<T>>, n: nat)
    requires |es| == |ms| && StoppedAt(es, ms, n)
    ensures forall j :: 10 <= j < n ==> Full(Table(ms[..j])) && es[j].key > Table(ms[..j])[9].key
    ensures n < |es| ==> n >= 10 && Full(Table(ms[..n])) && es[n].key <= Table(ms[..n])[9].key
  {
    forall j | 10 <= j < n ensures Full(Table(ms[..j])) && es[j].key > Table(ms[..j])[9].key {
      TableShape(ms[..j]);
      assert !Stops(es, ms, j);
    }
    if n < |es| {
      TableShape(ms[..n]);
      assert Stops(es, ms, n);
    }
  }

  /** Two measurements that differ in one item's value differ in their table if the value ranks. */
  lemma ItemMatters<T(!new)>(
      es: seq<Ranked<T>>, ms: seq<Ranked<T>>, ns: seq<Ranked<T>>, j: nat)
    requires Remeasures(ms, es) && Remeasures(ns, es) && Full(Table(ms))
    requires j < |es| && ms[j].key > Threshold(Table(ms)) && ns[j].key != ms[j].key
    ensures Table(ns) != Table(ms)
  {
    Enters(ms, j);
    if Table(ns) == Table(ms) {
      var i := ComesFrom(ns, ms[j]);
      assert false;
    }
  }

  /**
   And those reads cannot be saved by any method: for each item whose bound exceeds the final
   threshold there is another admissible measurement of that one item with another table.
   */
  lemma ReadsAreNeeded<T(!new)>(es: seq<Ranked<T>>, ms: seq<Ranked<T>>, j: nat)
    requires Remeasures(ms, es) && Bounded(ms, es) && Full(Table(ms))
    requires j < |es| && es[j].key > Threshold(Table(ms))
    ensures exists key :: key <= es[j].key && Table(ms[j := Ranked(key, es[j].item)]) != Table(ms)
  {
    var t := Threshold(Table(ms));
    var key := if ms[j].key <= t then es[j].key else t;
    var ns := ms[j := Ranked(key, es[j].item)];
    if ms[j].key > t {
      ItemMatters(es, ms, ns, j);
    } else if Table(ns) == Table(ms) {
      ItemMatters(es, ns, ms, j);
    }
    assert key <= es[j].key && Table(ms[j := Ranked(key, es[j].item)]) != Table(ms);
  }

  lemma TableSize<T>(ms: seq<Ranked<T>>)
    ensures |Table(ms)| == if |ms| <= TOP_N then |ms| else TOP_N
  {
    SortIsStable(ms);
  }

  /** A table holds min(10, n) of the items, and none outside it beats any inside. */
  lemma TableIsTop<T>(ms: seq<Ranked<T>>, i: nat)
    requires i < |ms|
    ensures |Table(ms)| == if |ms| <= TOP_N then |ms| else TOP_N
    ensures ms[i] !in Table(ms) ==> forall x :: x in Table(ms) ==> x.key >= ms[i].key
  {
    SortIsStable(ms);
    TableShape(ms);
    if |ms| < TOP_N {
      assert ms[i] in multiset(ms);
      assert ms[i] in Sort(ms);
    } else if ms[i].key > Threshold(Table(ms)) {
      Enters(ms, i);
    }
  }

  /** Two places of a table hold two different items, the earlier no smaller. */
  lemma TableSources<T>(ms: seq<Ranked<T>>, i: nat, j: nat) returns (k: nat, l: nat)
    requires i < j < |Table(ms)|
    requires forall a, b :: 0 <= a < b < |ms| ==> ms[a] != ms[b]
    ensures Table(ms)[i].key >= Table(ms)[j].key
    ensures k < |ms| && l < |ms| && k != l && ms[k] == Table(ms)[i] && ms[l] == Table(ms)[j]
  {
    TableShape(ms);
    SortIsStable(ms);
    NoDupCount(ms);
    if Sort(ms)[i] == Sort(ms)[j] { TwiceCounts(Sort(ms), i, j); }
    k := ComesFrom(ms, Table(ms)[i]);
    l := ComesFrom(ms, Table(ms)[j]);
  }

  /** Bounds 2 ten times, then 1; measured 1 ten times, then 5, past its bound of 1. */
  function Loose(): (r: (seq<Ranked<nat>>, seq<Ranked<nat>>))
    ensures |r.0| == |r.1| == 11
    ensures forall i :: 0 <= i < 11 ==> r.0[i] == Ranked(if i < 10 then 2.0 else 1.0, i)
    ensures forall i :: 0 <= i < 11 ==> r.1[i] == Ranked(if i < 10 then 1.0 else 5.0, i)
  {
    (seq(11, i => Ranked(if i < 10 then 2.0 else 1.0, i)), seq(11, i => Ranked(if i < 10 then 1.0 else 5.0, i)))
  }

  /** Without the bound the shortcut can miss the largest item of all. */
  lemma LooseMisses<T(!new)>(es: seq<Ranked<T>>, ms: seq<Ranked<T>>)
    requires Remeasures(ms, es) && |es| == 11
    requires forall i :: 0 <= i < 11 ==> es[i].key == (if i < 10 then 2.0 else 1.0)
    requires forall i :: 0 <= i < 11 ==> ms[i].key == (if i < 10 then 1.0 else 5.0)
    ensures Descending(es) && !Bounded(ms, es) && StoppedAt(es, ms, 10) && Full(Table(ms[..10]))
    ensures Table(ms[..10]) != Table(ms) && ms[10].key > Threshold(Table(ms[..10]))
  {
    forall i | 0 <= i <= 10 ensures Full(Table(ms[..i])) <==> i == 10 { TableShape(ms[..i]); }
    var t := Table(ms[..10]);
    assert t[TOP_N - 1] in t;
    var k := ComesFrom(ms[..10], t[TOP_N - 1]);
    assert Threshold(t) == 1.0;
    assert Stops(es, ms, 10);
    assert !Bounded(ms, es) by { assert ms[10].key > es[10].key; }
    StreamExactIff(es, ms, 10);
    assert ms[10].key > Threshold(t);
  }

  lemma BoundIsNeeded()
    ensures var (es, ms) := Loose();
            && Remeasures(ms, es) && Descending(es) && !Bounded(ms, es)
            && StoppedAt(es, ms, 10) && Table(ms[..10]) != Table(ms)
  {
    var (es, ms) := Loose();
    LooseMisses(es, ms);
  }
}
