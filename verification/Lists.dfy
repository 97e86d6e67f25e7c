/** Lists without duplicates, and taking one element out of them. */
module Lists {

  ghost predicate NoDup<T>(q: seq<T>) {
    forall i, j :: 0 <= i < j < |q| ==> q[i] != q[j]
  }

  /** The list without its first x. */
  function RemoveFirst<T(==)>(q: seq<T>, x: T): seq<T> {
    if q == [] then []
    else if q[0] == x then q[1..]
    else [q[0]] + RemoveFirst(q[1..], x)
  }

  /** Removing the first occurrence from a duplicate-free list removes exactly that element. */
  lemma {:induction false} RemoveFirstFacts<T>(q: seq<T>, x: T)
    requires NoDup(q)
    ensures NoDup(RemoveFirst(q, x))
    ensures forall y :: y in RemoveFirst(q, x) ==> y in q && y != x
    ensures forall y :: y in q && y != x ==> y in RemoveFirst(q, x)
    ensures |RemoveFirst(q, x)| == if x in q then |q| - 1 else |q|
  {
    if x in q {
      var i :| 0 <= i < |q| && q[i] == x;
      RemoveAt(q, i);
      DropAt(q, i);
    } else {
      RemoveAbsent(q, x);
    }
    hide RemoveFirst, NoDup;
  }

  /** Where the removed element stood: everything before and after it keeps its order. */
  lemma {:induction false} RemoveFirstSplit<T>(a: seq<T>, x: T, b: seq<T>)
    requires x !in a
    ensures RemoveFirst(a + [x] + b, x) == a + b
  {
    var q := a + [x] + b;
    if a == [] {
      assert q[1..] == b;
      assert a + b == b;
    } else {
      assert q[1..] == a[1..] + [x] + b;
      RemoveFirstSplit(a[1..], x, b);
      assert [q[0]] + (a[1..] + b) == a + b;
    }
  }

  lemma {:induction false} RemoveAbsent<T>(q: seq<T>, x: T)
    requires x !in q
    ensures RemoveFirst(q, x) == q
  {
    if q != [] {
      RemoveAbsent(q[1..], x);
    }
  }

  lemma RemoveAt<T>(q: seq<T>, i: nat)
    requires i < |q| && q[i] !in q[..i]
    ensures RemoveFirst(q, q[i]) == q[..i] + q[i + 1..]
  {
    assert q == q[..i] + [q[i]] + q[i + 1..];
    hide RemoveFirst;
    RemoveFirstSplit(q[..i], q[i], q[i + 1..]);
  }

  lemma DropAt<T>(q: seq<T>, i: nat)
    requires NoDup(q) && i < |q|
    ensures var r := q[..i] + q[i + 1..];
      && NoDup(r) && |r| == |q| - 1
      && (forall k :: 0 <= k < |r| ==> r[k] == if k < i then q[k] else q[k + 1])
      && (forall t :: t in r ==> t in q && t != q[i])
      && (forall t :: t in q && t != q[i] ==> t in r)
  {
    var r := q[..i] + q[i + 1..];
    forall t | t in q && t != q[i]
      ensures t in r
    {
      var k :| 0 <= k < |q| && q[k] == t;
      assert r[if k < i then k else k - 1] == t;
    }
  }

  /** A duplicate-free list drawn from another is no longer than it. */
  lemma {:induction false} NoDupFits<T>(a: seq<T>, b: seq<T>)
    requires NoDup(a)
    requires forall x :: x in a ==> x in b
    ensures |a| <= |b|
    decreases |a|
  {
    if a != [] {
      var h := a[0];
      assert h in b;
      var i :| 0 <= i < |b| && b[i] == h;
      var b' := b[..i] + b[i + 1..];
      forall x | x in a[1..]
        ensures x in b'
      {
        assert x in a && x != h;
        var k :| 0 <= k < |b| && b[k] == x;
        assert x == if k < i then b'[k] else b'[k - 1];
      }
      NoDupFits(a[1..], b');
    }
  }

  lemma {:induction false} NoDupSize<T>(q: seq<T>)
    requires NoDup(q)
    ensures |set x | x in q| == |q|
  {
    if q != [] {
      NoDupSize(q[1..]);
      assert q[0] !in q[1..];
      assert (set x | x in q) == {q[0]} + set x | x in q[1..];
    }
  }
}
