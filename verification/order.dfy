/** Ordered listings: a set whose members have different ranks has exactly one ascending listing. */
module Order {
  /** Compared lexicographically, as tuples are. */
  type Rank = (nat, nat, nat)

  predicate Lt(a: Rank, b: Rank) {
    a.0 < b.0 || (a.0 == b.0 && (a.1 < b.1 || (a.1 == b.1 && a.2 < b.2)))
  }

  lemma LtTotal(a: Rank, b: Rank)
    ensures Lt(a, b) || Lt(b, a) || a == b
  {
  }

  ghost predicate Ascending<T(!new)>(s: seq<T>, rank: T -> Rank) {
    forall i, j :: 0 <= i < j < |s| ==> Lt(rank(s[i]), rank(s[j]))
  }

  ghost predicate Ranked<T(!new)>(s: set<T>, rank: T -> Rank) {
    forall x, y :: x in s && y in s && rank(x) == rank(y) ==> x == y
  }

  ghost predicate IsLeast<T(!new)>(s: set<T>, rank: T -> Rank, x: T) {
    x in s && forall y :: y in s ==> !Lt(rank(y), rank(x))
  }

  lemma {:induction false} LeastExists<T(!new)>(s: set<T>, rank: T -> Rank)
    requires s != {}
    ensures exists x :: IsLeast(s, rank, x)
    decreases |s|
  {
    var x :| x in s;
    var rest := s - {x};
    assert s == rest + {x};
    if rest == {} {
      assert IsLeast(s, rank, x);
    } else {
      LeastExists(rest, rank);
      var y :| IsLeast(rest, rank, y);
      assert IsLeast(s, rank, if Lt(rank(x), rank(y)) then x else y);
    }
  }

  /** The ascending listing. */
  ghost function InOrder<T(!new)>(s: set<T>, rank: T -> Rank): (r: seq<T>)
    requires Ranked(s, rank)
    ensures |r| == |s|
    ensures forall x :: x in r <==> x in s
    decreases |s|
  {
    if s == {} then []
    else
      LeastExists(s, rank);
      var x :| IsLeast(s, rank, x);
      [x] + InOrder(s - {x}, rank)
  }

  lemma AscendingCons<T(!new)>(x: T, r: seq<T>, rank: T -> Rank)
    requires Ascending(r, rank) && forall y :: y in r ==> Lt(rank(x), rank(y))
    ensures Ascending([x] + r, rank)
  {
    var s := [x] + r;
    forall i, j | 0 <= i < j < |s|
      ensures Lt(rank(s[i]), rank(s[j]))
    {
      assert s[j] == r[j - 1] && s[j] in r;
    }
  }

  lemma {:induction false} InOrderAscends<T(!new)>(s: set<T>, rank: T -> Rank)
    requires Ranked(s, rank)
    ensures Ascending(InOrder(s, rank), rank)
    decreases |s|
  {
    if s != {} {
      LeastExists(s, rank);
      var x :| IsLeast(s, rank, x) && InOrder(s, rank) == [x] + InOrder(s - {x}, rank);
      InOrderAscends(s - {x}, rank);
      hide Ascending, InOrder;
      forall y | y in InOrder(s - {x}, rank)
        ensures Lt(rank(x), rank(y))
      {
        LtTotal(rank(x), rank(y));
      }
      AscendingCons(x, InOrder(s - {x}, rank), rank);
    }
  }

  /** A listing starts with its least member. */
  lemma InOrderHead<T(!new)>(s: set<T>, rank: T -> Rank, x: T)
    requires Ranked(s, rank) && IsLeast(s, rank, x)
    ensures InOrder(s, rank) == [x] + InOrder(s - {x}, rank)
  {
    var y :| IsLeast(s, rank, y) && InOrder(s, rank) == [y] + InOrder(s - {y}, rank);
    LtTotal(rank(x), rank(y));
  }

  method LeastOf<T(==, !new)>(s: set<T>, rank: T -> Rank) returns (x: T)
    requires s != {}
    ensures IsLeast(s, rank, x)
  {
    LeastExists(s, rank);
    x :| x in s && forall y :: y in s ==> !Lt(rank(y), rank(x));
  }

  /** Sorting members with different ranks. */
  method Sorted<T(==, !new)>(s: set<T>, rank: T -> Rank) returns (r: seq<T>)
    requires Ranked(s, rank)
    ensures r == InOrder(s, rank)
  {
    hide InOrder, IsLeast;
    r := [];
    var todo := s;
    assert [] + InOrder(s, rank) == InOrder(s, rank);
    while todo != {}
      invariant todo <= s && r + InOrder(todo, rank) == InOrder(s, rank)
      decreases |todo|
    {
      var x := LeastOf(todo, rank);
      LeastIn(todo, rank, x);
      ListingStep(todo, r, x, rank);
      r := r + [x];
      todo := todo - {x};
    }
    ListingEnd(r, rank);
  }

  lemma LeastIn<T(!new)>(s: set<T>, rank: T -> Rank, x: T)
    requires IsLeast(s, rank, x)
    ensures x in s
  {
  }

  /** Reading a set in order: the least member moves from what is left to what has been read. */
  lemma ListingStep<T(!new)>(todo: set<T>, done: seq<T>, x: T, rank: T -> Rank)
    requires Ranked(todo, rank) && IsLeast(todo, rank, x)
    ensures done + InOrder(todo, rank) == (done + [x]) + InOrder(todo - {x}, rank)
  {
    InOrderHead(todo, rank, x);
    hide InOrder;
    assert done + ([x] + InOrder(todo - {x}, rank)) == (done + [x]) + InOrder(todo - {x}, rank);
  }

  lemma ListingEnd<T(!new)>(done: seq<T>, rank: T -> Rank)
    ensures done + InOrder({}, rank) == done
  {
    assert InOrder({}, rank) == [];
  }

  /** There is only one. */
  lemma {:induction false} AscendingUnique<T(!new)>(r: seq<T>, t: seq<T>, rank: T -> Rank)
    requires Ascending(r, rank) && Ascending(t, rank)
    requires forall x :: x in r <==> x in t
    ensures r == t
    decreases |r|
  {
    if r == [] {
      assert forall i :: 0 <= i < |t| ==> t[i] in t;
    } else {
      assert r[0] in r;
      assert t != [];
      assert t[0] in t;
      SameHead(r, t, rank);
      forall x
        ensures x in r[1..] <==> x in t[1..]
      {
        InTail(r, x, rank);
        InTail(t, x, rank);
      }
      AscendingUnique(r[1..], t[1..], rank);
      assert r == [r[0]] + r[1..] && t == [t[0]] + t[1..];
    }
  }

  lemma SameHead<T(!new)>(r: seq<T>, t: seq<T>, rank: T -> Rank)
    requires Ascending(r, rank) && Ascending(t, rank) && r != [] && t != []
    requires r[0] in t && t[0] in r
    ensures r[0] == t[0]
  {
    var i :| 0 <= i < |t| && t[i] == r[0];
    var j :| 0 <= j < |r| && r[j] == t[0];
  }

  lemma InTail<T(!new)>(r: seq<T>, x: T, rank: T -> Rank)
    requires Ascending(r, rank) && r != []
    ensures x in r[1..] <==> x in r && x != r[0]
  {
    if x in r && x != r[0] {
      var i :| 0 <= i < |r| && r[i] == x;
      assert r[1..][i - 1] == x;
    }
    if x in r[1..] {
      var i :| 0 <= i < |r[1..]| && r[1..][i] == x;
      assert r[i + 1] == x;
    }
  }

  /** Two ascending listings, one entirely before the other. */
  lemma AscendingConcat<T(!new)>(r: seq<T>, t: seq<T>, rank: T -> Rank)
    requires Ascending(r, rank) && Ascending(t, rank)
    requires forall x, y :: x in r && y in t ==> Lt(rank(x), rank(y))
    ensures Ascending(r + t, rank)
  {
    var s := r + t;
    forall i, j | 0 <= i < j < |s|
      ensures Lt(rank(s[i]), rank(s[j]))
    {
      if i < |r| <= j {
        assert s[i] in r && s[j] in t;
      }
    }
  }

  ghost function Image<T(!new), U(!new)>(s: seq<T>, f: T -> U): set<U> { set x | x in s :: f(x) }

  /** Members with different images are counted by their images. */
  lemma {:induction false} CountImage<T(!new), U(!new)>(s: seq<T>, f: T -> U)
    requires forall i, j :: 0 <= i < j < |s| ==> f(s[i]) != f(s[j])
    ensures |Image(s, f)| == |s|
  {
    if s == [] {
      assert Image(s, f) == {};
    } else {
      var n := |s| - 1;
      CountImage(s[..n], f);
      assert s == s[..n] + [s[n]];
      assert Image(s, f) == Image(s[..n], f) + {f(s[n])};
      assert f(s[n]) !in Image(s[..n], f);
    }
  }
}
