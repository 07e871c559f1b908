/** Cardinality facts about finite sets of numbers and of grid coordinates. */
module Counting {

  lemma {:induction false} ShiftCard(s: set<(int, int)>, dx: int, dy: int)
    ensures |set o | o in s :: (o.0 + dx, o.1 + dy)| == |s|
    decreases |s|
  {
    var t := set o | o in s :: (o.0 + dx, o.1 + dy);
    if s != {} {
      var o :| o in s;
      var s' := s - {o};
      var t' := set o' | o' in s' :: (o'.0 + dx, o'.1 + dy);
      ShiftCard(s', dx, dy);
      assert t == t' + {(o.0 + dx, o.1 + dy)};
      assert (o.0 + dx, o.1 + dy) !in t';
    } else {
      assert t == {};
    }
  }

  /** Some element of a non-empty set. */
  lemma Pick<T>(s: set<T>) returns (x: T)
    requires s != {}
    ensures x in s
  {
    x :| x in s;
  }

  function Range(n: nat): (r: set<int>)
    ensures forall i :: i in r <==> 0 <= i < n
  {
    if n == 0 then {} else Range(n - 1) + {n - 1}
  }

  lemma {:induction false} RangeSize(n: nat)
    ensures |Range(n)| == n
  {
    if n > 0 {
      RangeSize(n - 1);
    }
  }

  function Product(xs: set<int>, ys: set<int>): set<(int, int)>
  {
    set x, y | x in xs && y in ys :: (x, y)
  }

  /** A pair is in the product exactly when each coordinate is in its factor. */
  lemma InProduct(xs: set<int>, ys: set<int>, c: (int, int))
    ensures c in Product(xs, ys) <==> c.0 in xs && c.1 in ys
  {
    if c.0 in xs && c.1 in ys {
      var x, y := c.0, c.1;
      assert c == (x, y);
    }
  }

  /** The product distributes over a union of first factors. */
  lemma ProductUnionLeft(a: set<int>, b: set<int>, ys: set<int>)
    ensures Product(a + b, ys) == Product(a, ys) + Product(b, ys)
  {
    forall c | c in Product(a + b, ys)
      ensures c in Product(a, ys) + Product(b, ys)
    {
      InProduct(a + b, ys, c);
      InProduct(a, ys, c);
      InProduct(b, ys, c);
    }
  }

  /** The product distributes over a union of second factors. */
  lemma ProductUnionRight(xs: set<int>, a: set<int>, b: set<int>)
    ensures Product(xs, a + b) == Product(xs, a) + Product(xs, b)
  {
    forall c | c in Product(xs, a + b)
      ensures c in Product(xs, a) + Product(xs, b)
    {
      InProduct(xs, a + b, c);
      InProduct(xs, a, c);
      InProduct(xs, b, c);
    }
  }

  lemma ProductSingleton(x: int, y: int)
    ensures Product({x}, {y}) == {(x, y)}
  {
    assert (x, y) in Product({x}, {y});
  }

  lemma {:induction false} LineSize(x: int, ys: set<int>)
    ensures |Product({x}, ys)| == |ys|
    decreases |ys|
  {
    if ys != {} {
      var y := Pick(ys);
      LineSize(x, ys - {y});
      var a, b := Product({x}, ys), Product({x}, ys - {y}) + {(x, y)};
      forall c | c in a ensures c in b { InProduct({x}, ys, c); InProduct({x}, ys - {y}, c); }
      assert a == b;
    } else {
      assert Product({x}, ys) == {};
    }
  }

  lemma MulStep(a: nat, b: nat)
    requires a > 0
    ensures a * b == (a - 1) * b + b
  {
  }

  lemma {:induction false} MulMonotone(a: nat, b: nat, c: nat)
    requires a <= b
    ensures a * c <= b * c
    decreases b - a
  {
    if a < b {
      MulMonotone(a, b - 1, c);
      MulStep(b, c);
    }
  }

  lemma ProductSplit(xs: set<int>, ys: set<int>, x: int)
    requires x in xs
    ensures Product(xs, ys) == Product(xs - {x}, ys) + Product({x}, ys)
    ensures Product(xs - {x}, ys) !! Product({x}, ys)
  {
    var a, b, c := Product(xs, ys), Product(xs - {x}, ys), Product({x}, ys);
    forall d | d in a ensures d in b + c { InProduct(xs, ys, d); InProduct(xs - {x}, ys, d); InProduct({x}, ys, d); }
  }

  lemma ProductSizeStep(xs: set<int>, ys: set<int>, x: int)
    requires x in xs
    requires |Product(xs - {x}, ys)| == |xs - {x}| * |ys|
    ensures |Product(xs, ys)| == |xs| * |ys|
  {
    LineSize(x, ys);
    ProductSplit(xs, ys, x);
    MulStep(|xs|, |ys|);
  }

  lemma {:induction false} ProductSize(xs: set<int>, ys: set<int>)
    ensures |Product(xs, ys)| == |xs| * |ys|
    decreases |xs|
  {
    if xs != {} {
      var x := Pick(xs);
      ProductSize(xs - {x}, ys);
      ProductSizeStep(xs, ys, x);
    } else {
      assert Product(xs, ys) == {};
    }
  }

  lemma {:induction false} UnionSize<T>(a: set<T>, b: set<T>)
    ensures |a + b| == |a| + |b| - |a * b|
    decreases |a|
  {
    if a != {} {
      var x :| x in a;
      UnionSize(a - {x}, b);
      if x in b {
        assert (a - {x}) + b == a + b;
        assert (a - {x}) * b == (a * b) - {x};
      } else {
        assert (a - {x}) + b == (a + b) - {x};
        assert (a - {x}) * b == a * b;
      }
    } else {
      assert a + b == b;
      assert a * b == {};
    }
  }

  lemma {:induction false} SubsetSize<T>(a: set<T>, b: set<T>)
    requires a <= b
    ensures |a| <= |b|
    decreases |b|
  {
    if b != {} {
      var x :| x in b;
      SubsetSize(a - {x}, b - {x});
    }
  }
}
