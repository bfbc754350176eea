/** The generic set helpers on the keys of two maps, and the size of subsets. */
module Sets {
  method SetDifference<K(==)>(a: set<K>, b: set<K>) returns (diff: set<K>)
    ensures diff == a - b
  {
    diff := {};
    var todo := a;
    while todo != {}
      invariant todo <= a && diff == (a - todo) - b
    {
      var k :| k in todo;
      todo := todo - {k};
      if k !in b {
        diff := diff + {k};
      }
    }
  }

  method SetIntersection<K(==)>(a: set<K>, b: set<K>) returns (both: set<K>)
    ensures both == a * b
  {
    both := {};
    var todo := a;
    while todo != {}
      invariant todo <= a && both == (a - todo) * b
    {
      var k :| k in todo;
      todo := todo - {k};
      if k in b {
        both := both + {k};
      }
    }
  }

  lemma {:induction false} SubsetSize<T>(a: set<T>, b: set<T>)
    requires a <= b
    ensures |a| <= |b| && (|a| == |b| <==> a == b)
  {
    if a != {} {
      var x :| x in a;
      SubsetSize(a - {x}, b - {x});
      assert a == a - {x} + {x} && b == b - {x} + {x};
    }
  }
}
