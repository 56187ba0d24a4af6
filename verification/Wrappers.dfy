/** The optional value every nullable column and absent field is modelled with. */
module Wrappers {
  datatype Option<+T> = None | Some(value: T)
}

/** Facts about the size of finite sets. */
module SetSizes {
  lemma {:induction false} SubsetSize<T>(a: set<T>, b: set<T>)
    requires a <= b
    ensures |a| <= |b| && (|a| == |b| ==> a == b)
  {
    if a != {} {
      var x :| x in a;
      SubsetSize(a - {x}, b - {x});
    }
  }

  lemma SizeOfOneMore<T>(small: set<T>, x: T, large: set<T>)
    requires x !in small && large == small + {x}
    ensures |large| == |small| + 1
  {
  }

  lemma DisjointSize<T>(a: set<T>, b: set<T>)
    requires a !! b
    ensures |a + b| == |a| + |b|
  {
  }
}

/** What a step relation reaches. */
module Reachability {
  ghost predicate Path<S(!new)>(step: (S, S) -> bool, path: seq<S>) {
    |path| > 0 && forall i | 0 <= i < |path| - 1 :: step(path[i], path[i + 1])
  }

  ghost predicate Reaches<S(!new)>(step: (S, S) -> bool, start: S, end: S) {
    exists path :: Path(step, path) && path[0] == start && path[|path| - 1] == end
  }

  lemma Stays<S(!new)>(step: (S, S) -> bool, s: S)
    ensures Reaches(step, s, s)
  {
    assert Path(step, [s]);
  }

  lemma Onward<S(!new)>(step: (S, S) -> bool, start: S, mid: S, end: S)
    requires Reaches(step, start, mid) && step(mid, end)
    ensures Reaches(step, start, end)
  {
    var path :| Path(step, path) && path[0] == start && path[|path| - 1] == mid;
    var path' := path + [end];
    forall i | 0 <= i < |path'| - 1 ensures step(path'[i], path'[i + 1]) {
      if i < |path| - 1 { assert path'[i] == path[i] && path'[i + 1] == path[i + 1]; }
    }
    assert Path(step, path');
  }
}
