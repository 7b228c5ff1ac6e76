/** Facts about finite sets of integers used by several models: a
    non-empty set has an element and a least element, and `min()` over one. */
module Sets {
  /** A non-empty set has an element. */
  lemma HasElement(s: set<int>)
    requires s != {}
    ensures exists x :: x in s
  {
    if forall x :: x !in s {
      assert false;
    }
  }

  lemma {:induction false} MinExists(s: set<int>)
    requires s != {}
    ensures exists m :: m in s && forall y :: y in s ==> m <= y
    decreases |s|
  {
    HasElement(s);
    var x :| x in s;
    if s != {x} {
      MinExists(s - {x});
      var m :| m in s - {x} && forall y :: y in s - {x} ==> m <= y;
      var w := if x < m then x else m;
      forall y | y in s
        ensures w <= y
      {
        if y != x {
          assert y in s - {x};
        }
      }
    } else {
      assert forall y :: y in s ==> x <= y;
    }
  }

  ghost function MinOf(s: set<int>): (m: int)
    requires s != {}
    ensures m in s && forall y :: y in s ==> m <= y
  {
    MinExists(s);
    var m :| m in s && forall y :: y in s ==> m <= y; m
  }

  /** Python's `min()` over a non-empty set of keys. */
  method Least(s: set<int>) returns (m: int)
    requires s != {}
    ensures m in s && forall y :: y in s ==> m <= y
  {
    HasElement(s);
    m :| m in s;
    var rest := s - {m};
    while rest != {}
      invariant rest <= s && m in s
      invariant forall y :: y in s && y !in rest ==> m <= y
      decreases |rest|
    {
      HasElement(rest);
      var y :| y in rest;
      if y < m {
        m := y;
      }
      rest := rest - {y};
    }
  }

  /** Taking one more element out of a finite set leaves fewer outside. */
  lemma Fewer(keys: set<int>, visited: set<int>, n: int)
    requires n in keys && n !in visited
    ensures |keys - (visited + {n})| < |keys - visited|
  {
    assert keys - (visited + {n}) == (keys - visited) - {n};
  }
}
