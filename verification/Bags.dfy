/** Sums over multisets: what a bag of things contributes, element by element. */
module Bags {
  ghost function Total<T, X>(f: T -> multiset<X>, bag: multiset<T>): multiset<X>
    decreases |bag|
  {
    if bag == multiset{} then multiset{}
    else
      var t :| t in bag;
      f(t) + Total(f, bag - multiset{t})
  }

  lemma {:induction false} TotalAdd<T, X>(f: T -> multiset<X>, bag: multiset<T>, t: T)
    ensures Total(f, bag + multiset{t}) == f(t) + Total(f, bag)
    decreases |bag|
  {
    var more := bag + multiset{t};
    assert t in more;
    var u :| u in more && Total(f, more) == f(u) + Total(f, more - multiset{u});
    if u == t {
      assert more - multiset{u} == bag;
    } else {
      var less := bag - multiset{u};
      assert more - multiset{u} == less + multiset{t} && bag == less + multiset{u};
      TotalAdd(f, less, t);
      TotalAdd(f, less, u);
    }
  }

  lemma TotalRemove<T, X>(f: T -> multiset<X>, bag: multiset<T>, t: T)
    requires t in bag
    ensures Total(f, bag) == f(t) + Total(f, bag - multiset{t})
  {
    TotalAdd(f, bag - multiset{t}, t);
    assert bag - multiset{t} + multiset{t} == bag;
  }

  lemma {:induction false} TotalMonotone<T, X>(f: T -> multiset<X>, part: multiset<T>, bag: multiset<T>)
    requires part <= bag
    ensures Total(f, part) <= Total(f, bag)
    decreases |part|
  {
    if part != multiset{} {
      var t :| t in part;
      TotalRemove(f, part, t);
      TotalRemove(f, bag, t);
      TotalMonotone(f, part - multiset{t}, bag - multiset{t});
    }
  }

  /** Whatever is in the total comes from something in the bag. */
  lemma {:induction false} TotalMember<T, X>(f: T -> multiset<X>, bag: multiset<T>, x: X)
    ensures x in Total(f, bag) <==> exists t :: t in bag && x in f(t)
    decreases |bag|
  {
    if bag != multiset{} {
      var t :| t in bag;
      TotalRemove(f, bag, t);
      TotalMember(f, bag - multiset{t}, x);
      forall u | u in bag
        ensures u == t || u in bag - multiset{t}
      {
      }
    }
  }

  lemma {:induction false} TotalSum<T, X>(f: T -> multiset<X>, a: multiset<T>, b: multiset<T>)
    ensures Total(f, a + b) == Total(f, a) + Total(f, b)
    decreases |b|
  {
    if b == multiset{} {
      assert a + b == a;
    } else {
      var t :| t in b;
      TotalSum(f, a, b - multiset{t});
      TotalRemove(f, b, t);
      TotalAdd(f, a + (b - multiset{t}), t);
      assert a + (b - multiset{t}) + multiset{t} == a + b;
    }
  }
}
