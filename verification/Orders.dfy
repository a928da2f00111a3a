/** Strict orders, sorting, and the one sorted listing a finite set has. */
module Orders {
  predicate IdLess(a: nat, b: nat) {
    a < b
  }

  /** Byte-wise lexicographic order, as `sort.Strings` uses. */
  predicate StringLess(a: string, b: string) {
    if b == "" then false
    else if a == "" then true
    else a[0] < b[0] || (a[0] == b[0] && StringLess(a[1..], b[1..]))
  }

  ghost predicate StrictTotalOn<T>(s: set<T>, less: (T, T) -> bool) {
    && (forall a :: a in s ==> !less(a, a))
    && (forall a, b :: a in s && b in s && a != b ==> less(a, b) || less(b, a))
    && (forall a, b, c :: a in s && b in s && c in s && less(a, b) && less(b, c) ==> less(a, c))
  }

  ghost predicate Distinct<T>(xs: seq<T>) {
    forall i, j :: 0 <= i < j < |xs| ==> xs[i] != xs[j]
  }

  ghost function Elements<T>(xs: seq<T>): set<T> {
    set x | x in xs
  }

  ghost predicate Increasing<T>(xs: seq<T>, less: (T, T) -> bool) {
    forall i, j :: 0 <= i < j < |xs| ==> less(xs[i], xs[j])
  }

  /** `xs` lists the members of `s` in increasing order. */
  ghost predicate IsListing<T>(xs: seq<T>, s: set<T>, less: (T, T) -> bool) {
    Elements(xs) == s && Increasing(xs, less)
  }

  /** Insertion keeps equal elements in their order of arrival. */
  function Insert<T>(x: T, xs: seq<T>, less: (T, T) -> bool): seq<T> {
    if xs == [] then [x]
    else if less(x, xs[|xs| - 1]) then Insert(x, xs[..|xs| - 1], less) + [xs[|xs| - 1]]
    else xs + [x]
  }

  /** A stable sort: what `sort.SliceStable` returns, and `sort.Slice` on elements that never tie. */
  function SortBy<T>(xs: seq<T>, less: (T, T) -> bool): seq<T> {
    if xs == [] then [] else Insert(xs[|xs| - 1], SortBy(xs[..|xs| - 1], less), less)
  }

  // ----- the orders used -----

  lemma IdLessTotal(s: set<nat>)
    ensures StrictTotalOn(s, IdLess)
  {
  }

  lemma {:induction false} StringLessTransitive(a: string, b: string, c: string)
    requires StringLess(a, b) && StringLess(b, c)
    ensures StringLess(a, c)
  {
    if a != "" && a[0] == b[0] == c[0] {
      StringLessTransitive(a[1..], b[1..], c[1..]);
    }
  }

  lemma {:induction false} StringLessTotal(a: string, b: string)
    ensures !(StringLess(a, b) && StringLess(b, a))
    ensures a != b ==> StringLess(a, b) || StringLess(b, a)
    ensures a == b ==> !StringLess(a, b)
  {
    if a != "" && b != "" {
      StringLessTotal(a[1..], b[1..]);
      if a[0] == b[0] && a[1..] == b[1..] {
        assert a == [a[0]] + a[1..] == b;
      }
    }
  }

  /** The strings agree up to `i` and differ there, the first being smaller. */
  predicate DiffersAt(a: string, b: string, i: nat) {
    i < |a| && i < |b| && a[..i] == b[..i] && a[i] < b[i]
  }

  lemma AgreeBefore(a: string, b: string, i: nat)
    requires DiffersAt(a, b, i)
    ensures i > 0 ==> a[0] == b[0]
  {
    if i > 0 {
      assert a[..i][0] == b[..i][0];
    }
  }

  /** The order of a dictionary: a proper prefix first, otherwise the first difference decides. */
  lemma {:induction false} StringLessIff(a: string, b: string)
    ensures StringLess(a, b) <==> a < b || exists i: nat :: DiffersAt(a, b, i)
  {
    if a == "" || b == "" {
    } else if a[0] == b[0] {
      StringLessIff(a[1..], b[1..]);
      SameStart(a, b);
    } else if a[0] < b[0] {
      assert DiffersAt(a, b, 0);
    } else {
      forall i: nat | DiffersAt(a, b, i) ensures i > 0 ==> a[0] == b[0] {
        AgreeBefore(a, b, i);
      }
    }
  }

  lemma SameStart(a: string, b: string)
    requires a != "" && b != "" && a[0] == b[0]
    ensures a < b <==> a[1..] < b[1..]
    ensures (exists i: nat :: DiffersAt(a, b, i)) <==> exists i: nat :: DiffersAt(a[1..], b[1..], i)
  {
    var x, y := a[1..], b[1..];
    assert a == [a[0]] + x && b == [b[0]] + y;
    if i: nat :| DiffersAt(x, y, i) {
      assert a[..i + 1] == [a[0]] + x[..i] && b[..i + 1] == [b[0]] + y[..i];
      assert DiffersAt(a, b, i + 1);
    }
    if i: nat :| DiffersAt(a, b, i) {
      assert i > 0 && x[..i - 1] == a[..i][1..] && y[..i - 1] == b[..i][1..];
      assert DiffersAt(x, y, i - 1);
    }
  }

  lemma StringOrderTotal(s: set<string>)
    ensures StrictTotalOn(s, StringLess)
  {
    forall a, b ensures !(StringLess(a, b) && StringLess(b, a)) && (a == b || StringLess(a, b) || StringLess(b, a)) {
      StringLessTotal(a, b);
    }
    forall a, b, c | StringLess(a, b) && StringLess(b, c) ensures StringLess(a, c) {
      StringLessTransitive(a, b, c);
    }
  }

  // ----- sorting gives the listing -----

  lemma {:induction false} InsertElements<T>(x: T, xs: seq<T>, less: (T, T) -> bool)
    ensures Elements(Insert(x, xs, less)) == Elements(xs) + {x}
  {
    if xs != [] && less(x, xs[|xs| - 1]) {
      var init, last := xs[..|xs| - 1], xs[|xs| - 1];
      InsertElements(x, init, less);
      assert xs == init + [last];
      ElementsSnoc(init, last);
      ElementsSnoc(Insert(x, init, less), last);
    }
  }

  lemma ElementsSnoc<T>(xs: seq<T>, x: T)
    ensures Elements(xs + [x]) == Elements(xs) + {x}
  {
  }

  lemma ElementsEmpty<T>(xs: seq<T>)
    ensures Elements(xs) == {} ==> xs == []
  {
    if xs != [] {
      assert xs[0] in Elements(xs);
    }
  }

  lemma {:induction false} InsertIncreasing<T>(x: T, xs: seq<T>, s: set<T>, less: (T, T) -> bool)
    requires StrictTotalOn(s, less) && x in s && x !in xs && (forall y :: y in xs ==> y in s)
    requires Increasing(xs, less)
    ensures Increasing(Insert(x, xs, less), less)
  {
    if xs != [] {
      var init, last := xs[..|xs| - 1], xs[|xs| - 1];
      assert last in xs;
      if less(x, last) {
        InsertIncreasing(x, init, s, less);
        InsertElements(x, init, less);
        var front := Insert(x, init, less);
        forall i | 0 <= i < |front| ensures less(front[i], last) {
          assert front[i] in Elements(front);
        }
      } else {
        forall i | 0 <= i < |xs| ensures less(xs[i], x) {
          assert xs[i] in s && less(last, x);
        }
      }
    }
  }

  lemma InsertIsListing<T>(x: T, xs: seq<T>, s: set<T>, less: (T, T) -> bool)
    requires x !in s && StrictTotalOn(s + {x}, less) && IsListing(xs, s, less)
    ensures IsListing(Insert(x, xs, less), s + {x}, less)
  {
    assert forall y :: y in xs ==> y in Elements(xs);
    InsertIncreasing(x, xs, s + {x}, less);
    InsertElements(x, xs, less);
  }

  lemma {:induction false} SortIsListing<T>(xs: seq<T>, less: (T, T) -> bool)
    requires Distinct(xs) && StrictTotalOn(Elements(xs), less)
    ensures IsListing(SortBy(xs, less), Elements(xs), less)
  {
    if xs != [] {
      var init, x := xs[..|xs| - 1], xs[|xs| - 1];
      assert xs == init + [x];
      ElementsSnoc(init, x);
      SortIsListing(init, less);
      InsertIsListing(x, SortBy(init, less), Elements(init), less);
    }
  }

  lemma {:induction false} ListingUnique<T>(xs: seq<T>, ys: seq<T>, s: set<T>, less: (T, T) -> bool)
    requires StrictTotalOn(s, less) && IsListing(xs, s, less) && IsListing(ys, s, less)
    ensures xs == ys
  {
    ElementsEmpty(ys);
    if xs != [] {
      assert xs[0] in s;
      var i :| 0 <= i < |ys| && ys[i] == xs[0];
      assert ys[0] in s;
      var j :| 0 <= j < |xs| && xs[j] == ys[0];
      assert xs[0] == ys[0];
      forall y ensures y in xs[1..] <==> y in s && y != xs[0] {
        if y in s && y != xs[0] { assert y in xs; }
      }
      forall y ensures y in ys[1..] <==> y in s && y != ys[0] {
        if y in s && y != ys[0] { assert y in ys; }
      }
      assert Elements(xs[1..]) == s - {xs[0]} == Elements(ys[1..]);
      ListingUnique(xs[1..], ys[1..], s - {xs[0]}, less);
      assert xs == [xs[0]] + xs[1..] && ys == [ys[0]] + ys[1..];
    }
  }

  lemma {:induction false} ListingLength<T>(xs: seq<T>, s: set<T>, less: (T, T) -> bool)
    requires StrictTotalOn(s, less) && IsListing(xs, s, less)
    ensures |xs| == |s| && Distinct(xs)
  {
    forall i, j | 0 <= i < j < |xs| ensures xs[i] != xs[j] {
      assert xs[i] in Elements(xs);
    }
    DistinctLength(xs);
  }

  lemma {:induction false} DistinctLength<T>(xs: seq<T>)
    requires Distinct(xs)
    ensures |Elements(xs)| == |xs|
  {
    if xs != [] {
      var init, x := xs[..|xs| - 1], xs[|xs| - 1];
      assert xs == init + [x];
      ElementsSnoc(init, x);
      DistinctLength(init);
    }
  }

  /** The sorted listing of a finite set. */
  ghost function Listing<T>(s: set<T>, less: (T, T) -> bool): (xs: seq<T>)
    requires StrictTotalOn(s, less)
    ensures IsListing(xs, s, less)
  {
    if s == {} then []
    else
      var x :| x in s;
      var rest := Listing(s - {x}, less);
      InsertIsListing(x, rest, s - {x}, less);
      assert s - {x} + {x} == s;
      Insert(x, rest, less)
  }

  ghost function SortedStrings(s: set<string>): (xs: seq<string>)
    ensures IsListing(xs, s, StringLess)
  {
    StringOrderTotal(s);
    Listing(s, StringLess)
  }

  /** The members of a set in sorted order, whatever order they are met in. */
  method SortedMembers(deps: set<string>) returns (sorted: seq<string>)
    ensures sorted == SortedStrings(deps)
  {
    var listed: seq<string> := [];
    var remaining := deps;
    while remaining != {}
      invariant remaining <= deps && Distinct(listed)
      invariant forall d :: d in listed <==> d in deps && d !in remaining
    {
      var dep :| dep in remaining;
      remaining := remaining - {dep};
      listed := listed + [dep];
    }
    assert Elements(listed) == deps;
    StringOrderTotal(deps);
    SortIsListing(listed, StringLess);
    sorted := SortBy(listed, StringLess);
    ListingUnique(sorted, SortedStrings(deps), deps, StringLess);
  }
}
