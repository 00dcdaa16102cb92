module Options {
  datatype Option<+T> = None | Some(value: T) {
    function GetOr(default: T): T {
      if Some? then value else default
    }
  }

  datatype Result<+T, +E> = Ok(value: T) | Err(error: E)

  function Max(a: int, b: int): int {
    if a < b then b else a
  }

  lemma AnElement<T>(s: set<T>) returns (x: T)
    requires s != {}
    ensures x in s && |s - {x}| < |s|
  {
    x :| x in s;
  }

  /** One element of a set, for loops whose order does not matter. */
  method TakeOne<T(==)>(s: set<T>) returns (x: T, rest: set<T>)
    requires s != {}
    ensures x in s && rest == s - {x} && |rest| < |s|
  {
    x :| x in s;
    rest := s - {x};
  }

  lemma SubsetCard<T>(a: set<T>, b: set<T>)
    requires a <= b
    ensures |a| <= |b|
    ensures |a| == |b| ==> a == b
  {
    assert |b| == |a| + |b - a| by {
      assert b == a + (b - a);
    }
    if |a| == |b| && a != b {
      var x := AnElement(b - a);
    }
  }

  lemma Outside<T>(s: set<T>, t: set<T>) returns (x: T)
    requires !(s <= t)
    ensures x in s && x !in t
  {
    x :| x in s && x !in t;
  }

  lemma Common<T>(s: set<T>, t: set<T>) returns (x: T)
    requires !(s !! t)
    ensures x in s && x in t
  {
    x :| x in s && x in t;
  }

  lemma SubsetOfSize<T>(s: set<T>, size: nat) returns (t: set<T>)
    requires size <= |s|
    ensures t <= s && |t| == size
  {
    if size == 0 {
      t := {};
    } else {
      var x := AnElement(s);
      t := SubsetOfSize(s - {x}, size - 1);
      t := t + {x};
    }
  }
}
