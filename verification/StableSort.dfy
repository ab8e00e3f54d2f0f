/**
 Stable descending sort, the meaning of `sort_by(|a, b| b.partial_cmp(a))` on finite keys,
 and truncation of a sorted list.
 */
module StableSort {

  datatype Ranked<T> = Ranked(key: real, item: T)

  ghost predicate Descending<T>(s: seq<Ranked<T>>) {
    forall i, j :: 0 <= i < j < |s| ==> s[i].key >= s[j].key
  }

  /** The elements of `s` whose key is `key`, in their order in `s`. */
  ghost function WithKey<T>(s: seq<Ranked<T>>, key: real): seq<Ranked<T>> {
    if s == [] then []
    else WithKey(s[..|s| - 1], key) + if s[|s| - 1].key == key then [s[|s| - 1]] else []
  }

  /** What the documentation of a stable sort promises: ordered, and ties keep their order. */
  ghost predicate IsStableSort<T>(out: seq<Ranked<T>>, s: seq<Ranked<T>>) {
    Descending(out) && forall key :: WithKey(out, key) == WithKey(s, key)
  }

  /** Where a new element of this key goes: behind the last element of at least this key. */
  function Slot<T>(s: seq<Ranked<T>>, key: real): (p: nat)
    ensures p <= |s|
    ensures p > 0 ==> s[p - 1].key >= key
    ensures forall i :: p <= i < |s| ==> s[i].key < key
  {
    if s == [] || s[|s| - 1].key >= key then |s| else Slot(s[..|s| - 1], key)
  }

  function Insert<T>(s: seq<Ranked<T>>, e: Ranked<T>): seq<Ranked<T>> {
    var p := Slot(s, e.key);
    s[..p] + [e] + s[p..]
  }

  function Sort<T>(s: seq<Ranked<T>>): seq<Ranked<T>> {
    if s == [] then [] else Insert(Sort(s[..|s| - 1]), s[|s| - 1])
  }

  function Take<T>(s: seq<T>, n: nat): (t: seq<T>)
    ensures |t| <= n && t <= s && (|t| < n ==> t == s)
  {
    if |s| <= n then s else s[..n]
  }

  function Keys<T>(s: seq<Ranked<T>>): (ks: seq<real>)
    ensures |ks| == |s| && forall i :: 0 <= i < |s| ==> ks[i] == s[i].key
  {
    seq(|s|, i requires 0 <= i < |s| => s[i].key)
  }

  lemma {:induction false} WithKeyAppend<T>(a: seq<Ranked<T>>, b: seq<Ranked<T>>, key: real)
    ensures WithKey(a + b, key) == WithKey(a, key) + WithKey(b, key)
  {
    if b == [] {
      assert a + b == a;
    } else {
      assert (a + b)[..|a + b| - 1] == a + b[..|b| - 1];
      WithKeyAppend(a, b[..|b| - 1], key);
    }
  }

  lemma {:induction false} WithKeyNone<T>(s: seq<Ranked<T>>, key: real)
    requires forall i :: 0 <= i < |s| ==> s[i].key != key
    ensures WithKey(s, key) == []
  {
    if s != [] { WithKeyNone(s[..|s| - 1], key); }
  }

  lemma InsertAt<T>(s: seq<Ranked<T>>, e: Ranked<T>)
    ensures var r, p := Insert(s, e), Slot(s, e.key);
            && |r| == |s| + 1 && r[p] == e
            && (forall i :: 0 <= i < p ==> r[i] == s[i])
            && (forall i :: p < i < |r| ==> r[i] == s[i - 1])
  {
  }

  lemma InsertDescending<T>(s: seq<Ranked<T>>, e: Ranked<T>)
    requires Descending(s)
    ensures Descending(Insert(s, e))
  {
    InsertAt(s, e);
  }

  lemma InsertMultiset<T>(s: seq<Ranked<T>>, e: Ranked<T>)
    ensures multiset(Insert(s, e)) == multiset(s) + multiset{e}
  {
    var p := Slot(s, e.key);
    assert s == s[..p] + s[p..];
    assert multiset(s) == multiset(s[..p]) + multiset(s[p..]);
  }

  lemma WithKeySplit<T>(a: seq<Ranked<T>>, e: Ranked<T>, b: seq<Ranked<T>>, key: real)
    ensures WithKey(a + [e] + b, key) == WithKey(a, key) + WithKey([e], key) + WithKey(b, key)
  {
    WithKeyAppend(a + [e], b, key);
    WithKeyAppend(a, [e], key);
  }

  /** Nothing behind the slot ties with the element that is inserted there. */
  lemma NoTieBehind<T>(s: seq<Ranked<T>>, e: Ranked<T>, key: real)
    ensures WithKey([e], key) == [] || WithKey(s[Slot(s, e.key)..], key) == []
  {
    if key == e.key { WithKeyNone(s[Slot(s, e.key)..], key); } else { WithKeyNone([e], key); }
  }

  lemma Commute<T>(a: seq<T>, b: seq<T>, c: seq<T>)
    requires b == [] || c == []
    ensures a + b + c == a + c + b
  {
  }

  lemma InsertKeepsTies<T>(s: seq<Ranked<T>>, e: Ranked<T>, key: real)
    ensures WithKey(Insert(s, e), key) == WithKey(s, key) + WithKey([e], key)
  {
    var p := Slot(s, e.key);
    WithKeySplit(s[..p], e, s[p..], key);
    NoTieBehind(s, e, key);
    Commute(WithKey(s[..p], key), WithKey([e], key), WithKey(s[p..], key));
    assert s == s[..p] + s[p..];
    WithKeyAppend(s[..p], s[p..], key);
  }

  /** `Sort` meets the documented contract, and loses and invents nothing. */
  lemma {:induction false} SortIsStable<T>(s: seq<Ranked<T>>)
    ensures IsStableSort(Sort(s), s)
    ensures multiset(Sort(s)) == multiset(s) && |Sort(s)| == |s|
  {
    if s != [] {
      var front, last := s[..|s| - 1], s[|s| - 1];
      assert s == front + [last];
      SortIsStable(front);
      InsertDescending(Sort(front), last);
      InsertMultiset(Sort(front), last);
      forall key ensures WithKey(Sort(s), key) == WithKey(s, key) {
        InsertKeepsTies(Sort(front), last, key);
        WithKeyAppend(front, [last], key);
      }
    }
  }

  /** The documented contract has only one answer, so any stable sort computes `Sort`. */
  lemma {:induction false} StableSortUnique<T>(a: seq<Ranked<T>>, b: seq<Ranked<T>>)
    requires Descending(a) && Descending(b)
    requires forall key :: WithKey(a, key) == WithKey(b, key)
    ensures a == b
  {
    if a == [] || b == [] {
      var key := if a != [] then a[|a| - 1].key else if b != [] then b[|b| - 1].key else 0.0;
      assert WithKey(a, key) == WithKey(b, key);
    } else {
      var x, y := a[|a| - 1], b[|b| - 1];
      if x.key < y.key { WithKeyNone(b, x.key); }
      if y.key < x.key { WithKeyNone(a, y.key); }
      var fa, fb := a[..|a| - 1], b[..|b| - 1];
      assert WithKey(a, x.key) == WithKey(fa, x.key) + [x];
      assert WithKey(b, x.key) == WithKey(fb, x.key) + [y];
      assert x == y by {
        assert WithKey(a, x.key)[|WithKey(a, x.key)| - 1] == x;
        assert WithKey(b, x.key)[|WithKey(b, x.key)| - 1] == y;
      }
      forall key ensures WithKey(fa, key) == WithKey(fb, key) {
        assert WithKey(a, key) == WithKey(b, key);
        var wa, wb := WithKey(fa, key), WithKey(fb, key);
        var tail := if key == x.key then [x] else [];
        assert wa + tail == wb + tail;
        assert (wa + tail)[..|wa|] == wa && (wb + tail)[..|wb|] == wb;
      }
      StableSortUnique(fa, fb);
      assert a == fa + [x] && b == fb + [y];
    }
  }

  lemma SortCorrect<T>(out: seq<Ranked<T>>, s: seq<Ranked<T>>)
    ensures IsStableSort(out, s) <==> out == Sort(s)
  {
    SortIsStable(s);
    if IsStableSort(out, s) { StableSortUnique(out, Sort(s)); }
  }

  lemma SortOfSorted<T>(s: seq<Ranked<T>>)
    requires Descending(s)
    ensures Sort(s) == s
  {
    SortCorrect(s, s);
  }

  lemma SlotIs<T>(s: seq<Ranked<T>>, key: real, p: nat)
    requires Descending(s) && p <= |s|
    requires p > 0 ==> s[p - 1].key >= key
    requires p < |s| ==> s[p].key < key
    ensures Slot(s, key) == p
  {
  }

  lemma InsertAgrees<T>(s: seq<Ranked<T>>, e: Ranked<T>, n: nat, i: nat)
    requires Descending(s) && i < n < |s|
    ensures |Insert(s[..n], e)| == n + 1 && |Insert(s, e)| > n
    ensures Insert(s[..n], e)[i] == Insert(s, e)[i]
  {
    hide Insert, Slot;
    var p := Slot(s, e.key);
    SlotIs(s[..n], e.key, if p < n then p else n);
    InsertAt(s[..n], e);
    InsertAt(s, e);
  }

  /** Truncating before an insertion loses nothing that truncating after it would keep. */
  lemma TakeInsert<T>(s: seq<Ranked<T>>, e: Ranked<T>, n: nat)
    requires Descending(s)
    ensures Take(Insert(Take(s, n), e), n) == Take(Insert(s, e), n)
  {
    hide Insert, Slot;
    if 0 < n < |s| {
      InsertAgrees(s, e, n, 0);
      forall i | 0 <= i < n ensures Insert(s[..n], e)[i] == Insert(s, e)[i] { InsertAgrees(s, e, n, i); }
      assert Insert(s[..n], e)[..n] == Insert(s, e)[..n];
    }
  }

  /** An element that cannot beat the last of a full table leaves the table as it was. */
  lemma TakeInsertLoser<T>(s: seq<Ranked<T>>, e: Ranked<T>, n: nat)
    requires Descending(s) && 0 < n <= |s| && e.key <= s[n - 1].key
    ensures Take(Insert(s, e), n) == Take(s, n)
  {
    var p := Slot(s, e.key);
    assert Insert(s, e)[..n] == s[..n];
  }

  ghost predicate DescendingReals(s: seq<real>) {
    forall i, j :: 0 <= i < j < |s| ==> s[i] >= s[j]
  }

  lemma LastIsLeast(s: seq<real>, x: real)
    requires DescendingReals(s) && x in multiset(s)
    ensures s != [] && x >= s[|s| - 1]
  {
    var l, r := PullOut(s, x);
    assert s[|l|] == x;
  }

  lemma FrontMultiset<T>(s: seq<T>)
    requires s != []
    ensures multiset(s[..|s| - 1]) == multiset(s) - multiset{s[|s| - 1]}
  {
    assert s == s[..|s| - 1] + [s[|s| - 1]];
  }

  lemma SameLast(a: seq<real>, b: seq<real>)
    requires DescendingReals(a) && DescendingReals(b) && multiset(a) == multiset(b) && a != []
    ensures |a| == |b| && a[|a| - 1] == b[|b| - 1]
  {
    assert |a| == |multiset(a)| == |multiset(b)| == |b|;
    var x, y := a[|a| - 1], b[|b| - 1];
    assert x in multiset(a) && y in multiset(b);
    LastIsLeast(b, x);
    LastIsLeast(a, y);
  }

  lemma Rejoin<T>(a: seq<T>, b: seq<T>)
    requires a != [] && |a| == |b| && a[|a| - 1] == b[|b| - 1] && a[..|a| - 1] == b[..|b| - 1]
    ensures a == b
  {
    assert forall i :: 0 <= i < |a| - 1 ==> a[i] == a[..|a| - 1][i] == b[i];
  }

  lemma {:induction false} DescendingKeysUnique(a: seq<real>, b: seq<real>)
    requires DescendingReals(a) && DescendingReals(b) && multiset(a) == multiset(b)
    ensures a == b
  {
    if a == [] {
      assert |multiset(a)| == |multiset(b)|;
    } else {
      SameLast(a, b);
      FrontMultiset(a);
      FrontMultiset(b);
      DescendingKeysUnique(a[..|a| - 1], b[..|b| - 1]);
      Rejoin(a, b);
    }
  }

  lemma KeysSplit<T>(a: seq<Ranked<T>>, x: Ranked<T>, b: seq<Ranked<T>>)
    ensures multiset(Keys(a + [x] + b)) == multiset(Keys(a + b)) + multiset{x.key}
  {
    assert Keys(a + [x] + b) == Keys(a) + [x.key] + Keys(b);
    assert Keys(a + b) == Keys(a) + Keys(b);
    assert multiset(Keys(a) + [x.key] + Keys(b)) == multiset(Keys(a)) + multiset{x.key} + multiset(Keys(b));
  }

  lemma {:induction false} NoDupCount<T>(s: seq<T>)
    requires forall i, j :: 0 <= i < j < |s| ==> s[i] != s[j]
    ensures forall x :: multiset(s)[x] <= 1
  {
    if s != [] {
      var front, x := s[..|s| - 1], s[|s| - 1];
      NoDupCount(front);
      assert s == front + [x] && x !in front;
      assert x !in multiset(front);
    }
  }

  lemma TwiceCounts<T>(s: seq<T>, i: nat, j: nat)
    requires i < j < |s| && s[i] == s[j]
    ensures multiset(s)[s[i]] >= 2
  {
    assert s == s[..j] + s[j..];
    assert s[..j] == s[..i] + [s[i]] + s[i + 1..j] && s[j..] == [s[j]] + s[j + 1..];
  }

  lemma PullOut<T>(s: seq<T>, x: T) returns (l: seq<T>, r: seq<T>)
    requires x in multiset(s)
    ensures s == l + [x] + r && multiset(l + r) == multiset(s) - multiset{x} && |l + r| == |s| - 1
  {
    var j :| 0 <= j < |s| && s[j] == x;
    l, r := s[..j], s[j + 1..];
    assert s == l + [x] + r;
  }

  lemma {:induction false} KeysOfPermutation<T>(a: seq<Ranked<T>>, b: seq<Ranked<T>>)
    requires multiset(a) == multiset(b)
    ensures multiset(Keys(a)) == multiset(Keys(b))
    decreases |a|
  {
    assert |multiset(a)| == |multiset(b)|;
    if a != [] {
      var x := a[0];
      assert x in multiset(a);
      var l, r := PullOut(a, x);
      var l', r' := PullOut(b, x);
      KeysOfPermutation(l + r, l' + r');
      KeysSplit(l, x, r);
      KeysSplit(l', x, r');
    }
  }

  /** The ranked values depend only on which values there are, not on the order they came in. */
  lemma SortedKeysUnique<T, U>(a: seq<Ranked<T>>, b: seq<Ranked<U>>)
    requires multiset(Keys(a)) == multiset(Keys(b))
    ensures Keys(Sort(a)) == Keys(Sort(b))
  {
    SortIsStable(a);
    SortIsStable(b);
    KeysOfPermutation(a, Sort(a));
    KeysOfPermutation(b, Sort(b));
    DescendingKeysUnique(Keys(Sort(a)), Keys(Sort(b)));
  }
}
