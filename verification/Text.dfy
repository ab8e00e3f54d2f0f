/** Joined texts, and the ascending order in which an ordered set of strings is listed. */
module Text {

  function Join(texts: seq<string>): string {
    if texts == [] then ""
    else if |texts| == 1 then texts[0]
    else texts[0] + ", " + Join(texts[1..])
  }

  /** Pieces are put one after the other, a comma and a space between any two. */
  lemma {:induction false} JoinTells(a: seq<string>, b: seq<string>)
    ensures Join([]) == "" && (|a| == 1 ==> Join(a) == a[0])
    ensures a != [] && b != [] ==> Join(a + b) == Join(a) + ", " + Join(b)
  {
    if |a| > 1 {
      JoinTells(a[1..], b);
      assert (a + b)[1..] == a[1..] + b;
    } else if |a| == 1 {
      assert (a + b)[1..] == b;
    }
  }

  /** Strictly before, character by character. */
  predicate Before(a: string, b: string) {
    b != [] && (a == [] || a[0] < b[0] || (a[0] == b[0] && Before(a[1..], b[1..])))
  }

  /** The order of a dictionary: a proper prefix comes first, else the first difference decides. */
  ghost predicate DiffersAt(a: string, b: string, k: int) {
    && 0 <= k <= |a| && k < |b| && a[..k] == b[..k]
    && (k == |a| || a[k] < b[k])
  }

  lemma {:induction false} BeforeTells(a: string, b: string)
    ensures Before(a, b) <==> exists k :: DiffersAt(a, b, k)
  {
    if b != [] && (a == [] || a[0] < b[0]) {
      assert DiffersAt(a, b, 0);
    } else if b != [] && a[0] == b[0] {
      BeforeTells(a[1..], b[1..]);
      assert a == [a[0]] + a[1..] && b == [b[0]] + b[1..];
      if k :| DiffersAt(a[1..], b[1..], k) {
        assert a[..k + 1] == [a[0]] + a[1..][..k] && b[..k + 1] == [b[0]] + b[1..][..k];
        assert DiffersAt(a, b, k + 1);
      }
      if k :| DiffersAt(a, b, k) {
        assert k > 0;
        assert a[1..][..k - 1] == a[..k][1..] && b[1..][..k - 1] == b[..k][1..];
        assert DiffersAt(a[1..], b[1..], k - 1);
      }
    }
  }

  predicate Ascending(names: seq<string>) {
    forall i, j :: 0 <= i < j < |names| ==> Before(names[i], names[j])
  }

  /** Insertion into an ordered set, listed in order. */
  function Inserted(names: seq<string>, x: string): seq<string> {
    if names == [] then [x]
    else if x == names[0] then names
    else if Before(x, names[0]) then [x] + names
    else [names[0]] + Inserted(names[1..], x)
  }

  lemma {:induction false} BeforeTotal(a: string, b: string)
    ensures a == b || Before(a, b) || Before(b, a)
    ensures !(Before(a, b) && Before(b, a)) && (a == b ==> !Before(a, b))
  {
    if a != [] && b != [] {
      BeforeTotal(a[1..], b[1..]);
      if a[0] == b[0] && a[1..] == b[1..] { assert a == [a[0]] + a[1..] && b == [b[0]] + b[1..]; }
    }
  }

  lemma {:induction false} BeforeTransitive(a: string, b: string, c: string)
    requires Before(a, b) && Before(b, c)
    ensures Before(a, c)
  {
    if a != [] && a[0] == b[0] == c[0] { BeforeTransitive(a[1..], b[1..], c[1..]); }
  }

  lemma PrependAscends(x: string, names: seq<string>)
    requires Ascending(names) && (names != [] ==> Before(x, names[0]))
    ensures Ascending([x] + names)
  {
    forall j | 0 < j < |names| ensures Before(x, names[j]) { BeforeTransitive(x, names[0], names[j]); }
  }

  lemma {:induction false} InsertedAscends(names: seq<string>, x: string)
    requires Ascending(names)
    ensures Ascending(Inserted(names, x))
    ensures forall y :: y in Inserted(names, x) <==> y == x || y in names
    ensures names != [] ==> Inserted(names, x)[0] == x || Inserted(names, x)[0] == names[0]
  {
    if names != [] {
      BeforeTotal(x, names[0]);
      InsertedAscends(names[1..], x);
      assert names == [names[0]] + names[1..];
      if x != names[0] {
        if Before(x, names[0]) {
          PrependAscends(x, names);
        } else {
          PrependAscends(names[0], Inserted(names[1..], x));
        }
      }
    }
  }

  lemma LeastFirst(a: seq<string>, b: seq<string>)
    requires Ascending(a) && Ascending(b) && a != [] && b != [] && a[0] in b && b[0] in a
    ensures a[0] == b[0]
  {
    BeforeTotal(a[0], b[0]);
  }

  lemma RestMembers(a: seq<string>, x: string)
    requires Ascending(a) && a != []
    ensures x in a[1..] <==> x in a && x != a[0]
  {
    if x == a[0] && x in a[1..] {
      var j :| 0 <= j < |a[1..]| && a[1..][j] == x;
      BeforeTotal(a[0], a[j + 1]);
    }
    assert a == [a[0]] + a[1..];
  }

  /** An ascending listing is determined by its members. */
  lemma {:induction false} AscendingUnique(a: seq<string>, b: seq<string>)
    requires Ascending(a) && Ascending(b) && forall x :: x in a <==> x in b
    ensures a == b
  {
    assert a != [] ==> a[0] in a;
    assert b != [] ==> b[0] in b;
    if a != [] && b != [] {
      LeastFirst(a, b);
      forall x ensures x in a[1..] <==> x in b[1..] {
        RestMembers(a, x);
        RestMembers(b, x);
      }
      AscendingUnique(a[1..], b[1..]);
      assert a == [a[0]] + a[1..] && b == [b[0]] + b[1..];
    }
  }
}
