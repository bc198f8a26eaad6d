/** The leaderboard sort: `[...players.entries()].sort(comparator)`, modelled
    as an insertion sort that takes the elements in Map order and inserts each
    one after every element the comparator does not put after it. The
    comparator sees an element only through its standing (`key`), and a call
    that throws aborts the sort. ECMA-262 has required `sort` to be stable
    since ES2019; SortIsTheStableSort shows that every stable sort returns
    what this one returns, so the choice of algorithm is immaterial. */
module Sorting {
  import opened JsValues
  import opened Ranking

  /** Every element may be listed before each later one. */
  predicate Sorted<T(==,!new)>(o: Order, key: T -> Standing, s: seq<T>)
  {
    forall i, j :: 0 <= i < j < |s| ==> Precedes(o, key(s[i]), key(s[j]))
  }

  /** Every element of `s` may be listed before `y`. */
  predicate AllPrecede<T(==,!new)>(o: Order, key: T -> Standing, s: seq<T>, y: T)
  {
    forall k :: 0 <= k < |s| ==> Precedes(o, key(s[k]), key(y))
  }

  /** The elements of `s` tied with `z`, in their order in `s`. */
  function Class<T(==,!new)>(o: Order, key: T -> Standing, s: seq<T>, z: T): seq<T>
  {
    if s == [] then []
    else Class(o, key, s[..|s| - 1], z) + (if Tied(o, key(s[|s| - 1]), key(z)) then [s[|s| - 1]] else [])
  }

  /** A stable reordering: for every element, the elements tied with it
      appear in the same relative order as in the input. */
  ghost predicate Stable<T(!new)>(o: Order, key: T -> Standing, input: seq<T>, output: seq<T>)
  {
    forall z :: Class(o, key, output, z) == Class(o, key, input, z)
  }

  /** Two distinct positions whose elements make the comparator throw. */
  predicate HasThrowingPair<T(==,!new)>(o: Order, key: T -> Standing, s: seq<T>)
  {
    exists i, j :: 0 <= i < j < |s| && Throws(o, key(s[i]), key(s[j]))
  }

  /** `[e]` when `e` is tied with `z`, else nothing. */
  function IfTied<T(==,!new)>(o: Order, key: T -> Standing, e: T, z: T): seq<T>
  {
    if Tied(o, key(e), key(z)) then [e] else []
  }

  lemma ClassAppend<T(!new)>(o: Order, key: T -> Standing, s: seq<T>, e: T, z: T)
    ensures Class(o, key, s + [e], z) == Class(o, key, s, z) + IfTied(o, key, e, z)
  {
    assert (s + [e])[..|s|] == s;
  }

  lemma AllPreceded<T(!new)>(o: Order, key: T -> Standing, a: seq<T>, b: seq<T>, y: T)
    requires AllPrecede(o, key, a, y) && multiset(b) <= multiset(a)
    ensures AllPrecede(o, key, b, y)
  {
    forall k | 0 <= k < |b|
      ensures Precedes(o, key(b[k]), key(y))
    {
      assert b[k] in multiset(b);
      assert b[k] in a;
    }
  }

  lemma SortedAppend<T(!new)>(o: Order, key: T -> Standing, s: seq<T>, y: T)
    requires Sorted(o, key, s) && AllPrecede(o, key, s, y)
    ensures Sorted(o, key, s + [y])
  {
  }

  lemma SortedPrefix<T(!new)>(o: Order, key: T -> Standing, s: seq<T>)
    requires Sorted(o, key, s) && s != []
    ensures Sorted(o, key, s[..|s| - 1]) && AllPrecede(o, key, s[..|s| - 1], s[|s| - 1])
  {
  }

  /** Inserting `x` into a sorted `s`: while the last element compares
      greater than `x`, step left; `x` goes after the first element that
      does not. */
  function Insert<T(==,!new)>(o: Order, key: T -> Standing, x: T, s: seq<T>): (r: Result<seq<T>>)
    requires Sorted(o, key, s)
    ensures r.Ok? ==> Sorted(o, key, r.value)
    ensures r.Ok? ==> multiset(r.value) == multiset(s) + multiset{x}
    ensures r.Ok? ==> forall z :: Class(o, key, r.value, z) == Class(o, key, s, z) + IfTied(o, key, x, z)
    ensures r.Throw? ==> exists k :: 0 <= k < |s| && Throws(o, key(s[k]), key(x))
    decreases |s|
  {
    if s == [] then
      assert forall z :: Class(o, key, [x], z) == Class(o, key, [] + [x], z);
      Ok([x])
    else
      var init, last := s[..|s| - 1], s[|s| - 1];
      assert s == init + [last];
      SortedPrefix(o, key, s);
      match Compare(o, key(last), key(x))
      case Throw(e) => Throw(e)
      case Ok(c) =>
        if c <= 0 then
          AllPreceded(o, key, s, s, last);
          SortedAppend(o, key, s, x);
          assert forall z :: Class(o, key, s + [x], z) == Class(o, key, s, z) + IfTied(o, key, x, z) by {
            forall z { ClassAppend(o, key, s, x, z); }
          }
          Ok(s + [x])
        else
          match Insert(o, key, x, init)
          case Throw(e) => Throw(e)
          case Ok(t) =>
            InsertPast(o, key, x, init, last, t);
            Ok(t + [last])
  }

  /** The step of Insert that passes over `last`, which compares greater than
      `x`. */
  lemma InsertPast<T(!new)>(o: Order, key: T -> Standing, x: T, init: seq<T>, last: T, t: seq<T>)
    requires Sorted(o, key, init + [last]) && !Precedes(o, key(last), key(x))
    requires Sorted(o, key, t) && multiset(t) == multiset(init) + multiset{x}
    requires forall z :: Class(o, key, t, z) == Class(o, key, init, z) + IfTied(o, key, x, z)
    ensures Sorted(o, key, t + [last])
    ensures multiset(t + [last]) == multiset(init + [last]) + multiset{x}
    ensures forall z :: Class(o, key, t + [last], z) == Class(o, key, init + [last], z) + IfTied(o, key, x, z)
  {
    PassSorted(o, key, x, init, last, t);
    PassMultiset(x, init, last, t);
    forall z
      ensures Class(o, key, t + [last], z) == Class(o, key, init + [last], z) + IfTied(o, key, x, z)
    {
      PassClass(o, key, x, init, last, t, z);
    }
  }

  lemma PassSorted<T(!new)>(o: Order, key: T -> Standing, x: T, init: seq<T>, last: T, t: seq<T>)
    requires Sorted(o, key, init + [last]) && !Precedes(o, key(last), key(x))
    requires Sorted(o, key, t) && multiset(t) == multiset(init) + multiset{x}
    ensures Sorted(o, key, t + [last])
  {
    var s := init + [last];
    SortedPrefix(o, key, s);
    assert s[..|s| - 1] == init && s[|s| - 1] == last;
    PrecedesTotal(o, key(last), key(x));
    forall k | 0 <= k < |init + [x]|
      ensures Precedes(o, key((init + [x])[k]), key(last))
    {
      if k < |init| {
        assert (init + [x])[k] == init[k];
      }
    }
    assert multiset(init + [x]) == multiset(init) + multiset{x};
    AllPreceded(o, key, init + [x], t, last);
    SortedAppend(o, key, t, last);
  }

  lemma PassMultiset<T>(x: T, init: seq<T>, last: T, t: seq<T>)
    requires multiset(t) == multiset(init) + multiset{x}
    ensures multiset(t + [last]) == multiset(init + [last]) + multiset{x}
  {
  }

  lemma PassClass<T(!new)>(o: Order, key: T -> Standing, x: T, init: seq<T>, last: T, t: seq<T>, z: T)
    requires !Precedes(o, key(last), key(x))
    requires Class(o, key, t, z) == Class(o, key, init, z) + IfTied(o, key, x, z)
    ensures Class(o, key, t + [last], z) == Class(o, key, init + [last], z) + IfTied(o, key, x, z)
  {
    ClassAppend(o, key, t, last, z);
    ClassAppend(o, key, init, last, z);
    NotBothTied(o, key(x), key(last), key(z));
  }

  /** Two standings that are not tied with each other are not both tied with
      a third. */
  lemma NotBothTied(o: Order, x: Standing, y: Standing, z: Standing)
    requires !Precedes(o, y, x)
    ensures !(Tied(o, x, z) && Tied(o, y, z))
  {
    if Tied(o, x, z) && Tied(o, y, z) {
      PrecedesTransitive(o, y, z, x);
    }
  }

  /** `sort`: the elements are inserted one by one, in order. It throws
      exactly when the input holds a pair the comparator throws on. */
  function Sort<T(==,!new)>(o: Order, key: T -> Standing, s: seq<T>): (r: Result<seq<T>>)
    ensures r.Ok? ==> Sorted(o, key, r.value)
    ensures r.Ok? ==> multiset(r.value) == multiset(s)
    ensures r.Ok? ==> Stable(o, key, s, r.value)
    ensures r.Throw? <==> HasThrowingPair(o, key, s)
    decreases |s|
  {
    if s == [] then Ok([])
    else
      var init, x := s[..|s| - 1], s[|s| - 1];
      assert s == init + [x];
      match Sort(o, key, init)
      case Throw(e) =>
        ThrowingPairExtends(o, key, init, x);
        Throw(e)
      case Ok(t) =>
        var r := Insert(o, key, x, t);
        SortStep(o, key, init, x, t, r);
        r
  }

  lemma ThrowingPairExtends<T(!new)>(o: Order, key: T -> Standing, init: seq<T>, x: T)
    requires HasThrowingPair(o, key, init)
    ensures HasThrowingPair(o, key, init + [x])
  {
    var i, j :| 0 <= i < j < |init| && Throws(o, key(init[i]), key(init[j]));
    assert (init + [x])[i] == init[i] && (init + [x])[j] == init[j];
  }

  /** The step of Sort that inserts the last element into the sorted rest. */
  lemma SortStep<T(!new)>(o: Order, key: T -> Standing, init: seq<T>, x: T, t: seq<T>, r: Result<seq<T>>)
    requires Sorted(o, key, t) && multiset(t) == multiset(init) && Stable(o, key, init, t)
    requires !HasThrowingPair(o, key, init)
    requires r == Insert(o, key, x, t)
    ensures r.Ok? ==> multiset(r.value) == multiset(init + [x])
    ensures r.Ok? ==> Stable(o, key, init + [x], r.value)
    ensures r.Ok? ==> !HasThrowingPair(o, key, init + [x])
    ensures r.Throw? ==> HasThrowingPair(o, key, init + [x])
  {
    var s := init + [x];
    assert multiset(s) == multiset(init) + multiset{x};
    if r.Ok? {
      forall z
        ensures Class(o, key, r.value, z) == Class(o, key, s, z)
      {
        ClassAppend(o, key, init, x, z);
      }
      NoNewThrowingPair(o, key, init, x, t);
    } else {
      var k :| 0 <= k < |t| && Throws(o, key(t[k]), key(x));
      assert t[k] in multiset(init);
      var i :| 0 <= i < |init| && init[i] == t[k];
      assert s[i] == t[k] && s[|init|] == x;
    }
  }

  /** When Sort has inserted the last element without throwing, the input
      holds no throwing pair. */
  lemma NoNewThrowingPair<T(!new)>(o: Order, key: T -> Standing, init: seq<T>, x: T, t: seq<T>)
    requires Sorted(o, key, t) && multiset(t) == multiset(init)
    requires !HasThrowingPair(o, key, init)
    requires Insert(o, key, x, t).Ok?
    ensures !HasThrowingPair(o, key, init + [x])
  {
    var s := init + [x];
    forall i, j | 0 <= i < j < |s|
      ensures !Throws(o, key(s[i]), key(s[j]))
    {
      assert s[i] == init[i];
      if j < |init| {
        assert s[j] == init[j];
      } else if Throws(o, key(init[i]), key(x)) {
        assert init[i] in multiset(t);
        var k :| 0 <= k < |t| && t[k] == init[i];
        InsertOkWitness(o, key, x, t, k);
        PairTransfer(o, key, t, init);
      }
    }
  }

  /** Insert compares `x` with every element of `s` whose position equals
      `x`'s, unless `s` already holds a throwing pair: so an element that
      throws with `x` makes Insert throw. */
  lemma {:induction false} InsertOkWitness<T(!new)>(o: Order, key: T -> Standing, x: T, s: seq<T>, k: int)
    requires Sorted(o, key, s) && Insert(o, key, x, s).Ok?
    requires 0 <= k < |s| && Throws(o, key(s[k]), key(x))
    ensures HasThrowingPair(o, key, s)
    decreases |s|
  {
    var init, last := s[..|s| - 1], s[|s| - 1];
    assert s == init + [last];
    SortedPrefix(o, key, s);
    assert Compare(o, key(last), key(x)).Ok?;
    assert k < |init|;
    if Compare(o, key(last), key(x)).value <= 0 {
      assert Precedes(o, key(s[k]), key(last));
      assert Throws(o, key(s[k]), key(s[|s| - 1]));
    } else {
      assert init[k] == s[k];
      InsertOkWitness(o, key, x, init, k);
      ThrowingPairExtends(o, key, init, last);
    }
  }

  /** A throwing pair survives any reordering. */
  lemma PairTransfer<T(!new)>(o: Order, key: T -> Standing, t: seq<T>, u: seq<T>)
    requires multiset(t) == multiset(u)
    requires HasThrowingPair(o, key, t)
    ensures HasThrowingPair(o, key, u)
  {
    var i, j :| 0 <= i < j < |t| && Throws(o, key(t[i]), key(t[j]));
    var a, b := t[i], t[j];
    assert a in multiset(u) && b in multiset(u);
    if a == b {
      TwiceIn(t, i, j);
      var p, q := TwoPositions(u, a);
      assert Throws(o, key(u[p]), key(u[q]));
    } else {
      var p :| 0 <= p < |u| && u[p] == a;
      var q :| 0 <= q < |u| && u[q] == b;
      if p < q {
        assert Throws(o, key(u[p]), key(u[q]));
      } else {
        assert Throws(o, key(u[q]), key(u[p]));
      }
    }
  }

  lemma TwiceIn<T>(t: seq<T>, i: int, j: int)
    requires 0 <= i < j < |t| && t[i] == t[j]
    ensures multiset(t)[t[i]] >= 2
  {
    assert t == t[..i] + [t[i]] + t[i + 1..j] + [t[j]] + t[j + 1..];
  }

  /** An element occurring at least twice has two positions. */
  lemma TwoPositions<T>(u: seq<T>, a: T) returns (p: int, q: int)
    requires multiset(u)[a] >= 2
    ensures 0 <= p < q < |u| && u[p] == a && u[q] == a
  {
    p := IndexOf(u, a);
    assert u == u[..p] + [a] + u[p + 1..];
    assert multiset(u[..p])[a] == 0;
    assert multiset(u[p + 1..])[a] >= 1;
    assert a in u[p + 1..];
    var m :| 0 <= m < |u[p + 1..]| && u[p + 1..][m] == a;
    q := p + 1 + m;
  }

  /** Elements of a class belong to the sequence and are tied with `z`. */
  lemma {:induction false} ClassMember<T(!new)>(o: Order, key: T -> Standing, s: seq<T>, z: T, w: T)
    requires w in Class(o, key, s, z)
    ensures w in s && Tied(o, key(w), key(z))
    decreases |s|
  {
    var init := s[..|s| - 1];
    assert s == init + [s[|s| - 1]];
    if w in Class(o, key, init, z) {
      ClassMember(o, key, init, z, w);
    }
  }

  /** A sorted sequence is fixed by its tie classes. */
  lemma {:induction false} SortedClassesDetermine<T(!new)>(o: Order, key: T -> Standing, a: seq<T>, b: seq<T>)
    requires Sorted(o, key, a) && Sorted(o, key, b)
    requires forall z :: Class(o, key, a, z) == Class(o, key, b, z)
    ensures a == b
    decreases |a|
  {
    if a == [] && b != [] {
      OwnClassNonEmpty(o, key, b);
    } else if a != [] && b == [] {
      OwnClassNonEmpty(o, key, a);
    } else if a != [] {
      var ai, x := a[..|a| - 1], a[|a| - 1];
      var bi, y := b[..|b| - 1], b[|b| - 1];
      SortedPrefix(o, key, a);
      SortedPrefix(o, key, b);
      LastPrecededBy(o, key, a, b);
      LastPrecededBy(o, key, b, a);
      assert Class(o, key, a, x) == Class(o, key, ai, x) + [x];
      assert Tied(o, key(y), key(x));
      assert Class(o, key, b, x) == Class(o, key, bi, x) + [y];
      assert x == Class(o, key, a, x)[|Class(o, key, a, x)| - 1] == y;
      forall z
        ensures Class(o, key, ai, z) == Class(o, key, bi, z)
      {
        assert Class(o, key, a, z) == Class(o, key, ai, z) + IfTied(o, key, x, z);
        assert Class(o, key, b, z) == Class(o, key, bi, z) + IfTied(o, key, y, z);
        CancelSuffix(Class(o, key, ai, z), Class(o, key, bi, z), IfTied(o, key, x, z));
      }
      SortedClassesDetermine(o, key, ai, bi);
      assert a == ai + [x] && b == bi + [y];
    }
  }

  lemma OwnClassNonEmpty<T(!new)>(o: Order, key: T -> Standing, s: seq<T>)
    requires s != []
    ensures Class(o, key, s, s[|s| - 1]) != []
  {
  }

  lemma CancelSuffix<T>(a: seq<T>, b: seq<T>, c: seq<T>)
    requires a + c == b + c
    ensures a == b
  {
    assert a == (a + c)[..|a|];
    assert b == (b + c)[..|b|];
  }

  /** The last element of `a` may precede the last of a sorted `b` with the
      same tie classes. */
  lemma LastPrecededBy<T(!new)>(o: Order, key: T -> Standing, a: seq<T>, b: seq<T>)
    requires Sorted(o, key, b) && a != [] && b != []
    requires forall z :: Class(o, key, a, z) == Class(o, key, b, z)
    ensures Precedes(o, key(a[|a| - 1]), key(b[|b| - 1]))
  {
    var x := a[|a| - 1];
    assert a == a[..|a| - 1] + [x];
    ClassAppend(o, key, a[..|a| - 1], x, x);
    assert x in Class(o, key, b, x);
    ClassMember(o, key, b, x, x);
    var k :| 0 <= k < |b| && b[k] == x;
    if k < |b| - 1 {
      assert Precedes(o, key(b[k]), key(b[|b| - 1]));
    }
  }

  /** Every stable sort returns what this one returns: a sorted sequence
      keeping the input's tie classes is Sort's result. */
  lemma SortIsTheStableSort<T(!new)>(o: Order, key: T -> Standing, s: seq<T>, r: seq<T>)
    requires Sort(o, key, s).Ok?
    requires Sorted(o, key, r) && Stable(o, key, s, r)
    ensures Sort(o, key, s).value == r
  {
    SortedClassesDetermine(o, key, Sort(o, key, s).value, r);
  }

  /** The add.js comparator never throws, so its sort always succeeds. */
  lemma SortByIndexSucceeds<T(!new)>(key: T -> Standing, s: seq<T>)
    ensures Sort(ByIndex, key, s).Ok?
  {
  }
}
