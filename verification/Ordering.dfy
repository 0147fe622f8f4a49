/** Sorting by a given order, as `sorted` does it, and why the outcome ignores input order. */
module Ordering {

  /** `le` compares any two values, consistently. */
  ghost predicate Preorder<T(!new)>(le: (T, T) -> bool) {
    && (forall x, y :: le(x, y) || le(y, x))
    && (forall x, y, z :: le(x, y) && le(y, z) ==> le(x, z))
  }

  /** No two different elements of `m` tie. */
  ghost predicate NoTies<T(!new)>(le: (T, T) -> bool, m: multiset<T>) {
    forall x, y :: x in m && y in m && le(x, y) && le(y, x) ==> x == y
  }

  ghost predicate Sorted<T>(le: (T, T) -> bool, s: seq<T>) {
    forall i, j :: 0 <= i < j < |s| ==> le(s[i], s[j])
  }

  function Insert<T>(le: (T, T) -> bool, x: T, s: seq<T>): (r: seq<T>)
    ensures multiset(r) == multiset(s) + multiset{x}
  {
    if s == [] || le(x, s[0]) then [x] + s
    else
      assert s == [s[0]] + s[1..];
      [s[0]] + Insert(le, x, s[1..])
  }

  function Sort<T>(le: (T, T) -> bool, s: seq<T>): (r: seq<T>)
    ensures multiset(r) == multiset(s)
  {
    if s == [] then []
    else
      assert s == [s[0]] + s[1..];
      Insert(le, s[0], Sort(le, s[1..]))
  }

  /** The order of whole numbers. */
  predicate IntLe(a: int, b: int) { a <= b }

  lemma SortHolds<T>(le: (T, T) -> bool, s: seq<T>)
    ensures forall x :: x in Sort(le, s) <==> x in s
    ensures |Sort(le, s)| == |s|
  {
    forall x ensures x in Sort(le, s) <==> x in s {
      assert x in Sort(le, s) <==> x in multiset(Sort(le, s));
      assert x in s <==> x in multiset(s);
    }
    assert |multiset(Sort(le, s))| == |multiset(s)|;
  }

  lemma {:induction false} InsertSorted<T(!new)>(le: (T, T) -> bool, x: T, s: seq<T>)
    requires Preorder(le) && Sorted(le, s)
    ensures Sorted(le, Insert(le, x, s))
  {
    if s != [] && !le(x, s[0]) {
      InsertSorted(le, x, s[1..]);
      var rest := Insert(le, x, s[1..]);
      forall j | 0 <= j < |rest| ensures le(s[0], rest[j]) {
        assert rest[j] in multiset(rest);
        assert rest[j] == x || rest[j] in s[1..];
      }
    } else if s != [] {
      forall j | 0 <= j < |s| ensures le(x, s[j]) {
        assert le(s[0], s[j]);
      }
    }
  }

  lemma {:induction false} SortSorts<T(!new)>(le: (T, T) -> bool, s: seq<T>)
    requires Preorder(le)
    ensures Sorted(le, Sort(le, s))
  {
    if s != [] {
      SortSorts(le, s[1..]);
      InsertSorted(le, s[0], Sort(le, s[1..]));
    }
  }

  /** The first of a sorted sequence compares with everything it holds. */
  lemma SortedHead<T(!new)>(le: (T, T) -> bool, s: seq<T>, x: T)
    requires Preorder(le) && Sorted(le, s) && x in multiset(s)
    ensures le(s[0], x)
  {
    var i :| 0 <= i < |s| && s[i] == x;
    assert le(x, x) || le(x, x);
  }

  /** A sorted sequence without ties is determined by what it holds. */
  lemma {:induction false} SortedUnique<T(!new)>(le: (T, T) -> bool, a: seq<T>, b: seq<T>)
    requires Preorder(le) && Sorted(le, a) && Sorted(le, b)
    requires multiset(a) == multiset(b) && NoTies(le, multiset(a))
    ensures a == b
  {
    assert |a| == |multiset(a)| == |multiset(b)| == |b|;
    if a != [] {
      assert a[0] in multiset(a) && b[0] in multiset(b);
      SortedHead(le, a, b[0]);
      SortedHead(le, b, a[0]);
      assert a[0] == b[0];
      TailMultiset(a);
      TailMultiset(b);
      SortedUnique(le, a[1..], b[1..]);
    }
  }

  lemma TailMultiset<T>(s: seq<T>)
    requires s != []
    ensures multiset(s[1..]) == multiset(s) - multiset{s[0]} && s == [s[0]] + s[1..]
    ensures forall x :: x in multiset(s[1..]) ==> x in multiset(s)
  {
    assert s == [s[0]] + s[1..];
  }

  /** Sorting gives the same answer for any arrangement of the same elements. */
  lemma SortIgnoresOrder<T(!new)>(le: (T, T) -> bool, a: seq<T>, b: seq<T>)
    requires Preorder(le) && multiset(a) == multiset(b) && NoTies(le, multiset(a))
    ensures Sort(le, a) == Sort(le, b)
  {
    SortSorts(le, a);
    SortSorts(le, b);
    SortedUnique(le, Sort(le, a), Sort(le, b));
  }

  // ----- sorting what is made of the elements --------------------------------------------------

  function Mapped<A, B>(f: A -> B, s: seq<A>): seq<B> {
    seq(|s|, i requires 0 <= i < |s| => f(s[i]))
  }

  /** What `f` makes of two elements compares as they do. */
  ghost predicate KeepsOrder<A(!new), B>(f: A -> B, le: (A, A) -> bool, leB: (B, B) -> bool) {
    forall x, y :: leB(f(x), f(y)) == le(x, y)
  }

  lemma MappedTail<A, B>(f: A -> B, s: seq<A>)
    requires s != []
    ensures Mapped(f, s) != [] && Mapped(f, s)[0] == f(s[0]) && Mapped(f, s)[1..] == Mapped(f, s[1..])
  {
  }

  lemma MappedCons<A, B>(f: A -> B, x: A, s: seq<A>)
    ensures Mapped(f, [x] + s) == [f(x)] + Mapped(f, s)
  {
  }

  lemma {:induction false} InsertMapped<A(!new), B>(f: A -> B, le: (A, A) -> bool, leB: (B, B) -> bool, x: A, s: seq<A>)
    requires KeepsOrder(f, le, leB)
    ensures Insert(leB, f(x), Mapped(f, s)) == Mapped(f, Insert(le, x, s))
  {
    if s == [] || le(x, s[0]) {
      MappedCons(f, x, s);
    } else {
      MappedTail(f, s);
      InsertMapped(f, le, leB, x, s[1..]);
      MappedCons(f, s[0], Insert(le, x, s[1..]));
    }
  }

  /** Sorting what is made of a sequence is making it of the sorted sequence. */
  lemma {:induction false} SortMapped<A(!new), B>(f: A -> B, le: (A, A) -> bool, leB: (B, B) -> bool, s: seq<A>)
    requires KeepsOrder(f, le, leB)
    ensures Sort(leB, Mapped(f, s)) == Mapped(f, Sort(le, s))
  {
    if s != [] {
      MappedTail(f, s);
      SortMapped(f, le, leB, s[1..]);
      InsertMapped(f, le, leB, s[0], Sort(le, s[1..]));
    }
  }

  // ----- a set in order ------------------------------------------------------------------------

  ghost predicate Smallest(a: int, s: set<int>) { a in s && forall b :: b in s ==> a <= b }

  function SmallestOf(s: set<int>): (a: int)
    requires s != {}
    ensures Smallest(a, s)
  {
    SmallestExists(s);
    var a :| a in s && forall b :: b in s ==> a <= b;
    a
  }

  lemma {:induction false} SmallestExists(s: set<int>)
    requires s != {}
    ensures exists a :: Smallest(a, s)
    decreases |s|
  {
    var x :| x in s;
    if y :| y in s && y < x {
      var above := set b | b in s && x <= b;
      var below := s - above;
      assert x in above && y in below;
      SmallestExists(below);
      var z :| Smallest(z, below);
      forall b | b in s ensures z <= b {
        assert b in above || b in below;
        assert z < x;
      }
      assert Smallest(z, s);
    } else {
      assert Smallest(x, s);
    }
  }

  /** A set of numbers from the smallest on. */
  function InOrder(s: set<int>): (r: seq<int>)
    ensures forall a :: a in r <==> a in s
    ensures forall i, j :: 0 <= i < j < |r| ==> r[i] < r[j]
  {
    if s == {} then []
    else
      var a := SmallestOf(s);
      [a] + InOrder(s - {a})
  }
}
