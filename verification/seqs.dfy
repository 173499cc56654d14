/** Sequence helpers standing in for the JavaScript array methods the routes
    use (`filter`, `find`, `map(...).filter(Boolean)`) and for an SQL
    `UPDATE ... WHERE` on a table. */
module Seqs {
  import opened Wrappers

  /** `s.filter(p)`: the elements of `s` satisfying `p`, in their original order. */
  function Filter<T(!new)>(s: seq<T>, p: T -> bool): (r: seq<T>)
    ensures |r| <= |s|
    ensures forall x :: x in r <==> x in s && p(x)
  {
    if |s| == 0 then []
    else (if p(s[0]) then [s[0]] else []) + Filter(s[1..], p)
  }

  /** Filtering distributes over concatenation; together with the one-element
      case this pins down that `Filter` keeps the original order. */
  lemma {:induction false} FilterConcat<T(!new)>(a: seq<T>, b: seq<T>, p: T -> bool)
    ensures Filter(a + b, p) == Filter(a, p) + Filter(b, p)
    decreases |a|
  {
    if |a| == 0 {
      assert a + b == b;
    } else {
      assert (a + b)[1..] == a[1..] + b;
      FilterConcat(a[1..], b, p);
    }
  }

  /** Filtering keeps an element exactly when the predicate holds of it. */
  lemma FilterSingleton<T(!new)>(x: T, p: T -> bool)
    ensures Filter([x], p) == if p(x) then [x] else []
  {
    assert [x][1..] == [];
  }

  /** When every element satisfies `p`, filtering keeps the sequence whole. */
  lemma {:induction false} FilterAll<T(!new)>(s: seq<T>, p: T -> bool)
    requires forall i :: 0 <= i < |s| ==> p(s[i])
    ensures Filter(s, p) == s
    decreases |s|
  {
    if |s| > 0 {
      FilterAll(s[1..], p);
      assert [s[0]] + s[1..] == s;
    }
  }

  /** `s.find(p)`: the first element satisfying `p`, if any. */
  function Find<T(!new)>(s: seq<T>, p: T -> bool): (r: Option<T>)
    ensures r.None? <==> forall x :: x in s ==> !p(x)
    ensures r.Some? ==> exists i :: 0 <= i < |s| && s[i] == r.value && p(s[i])
                          && forall j :: 0 <= j < i ==> !p(s[j])
  {
    if |s| == 0 then None
    else if p(s[0]) then Some(s[0])
    else
      var r := Find(s[1..], p);
      assert forall x :: x in s[1..] ==> x in s;
      assert r.Some? ==> exists i :: 1 <= i < |s| && s[i] == r.value && p(s[i])
                            && forall j :: 1 <= j < i ==> !p(s[j]);
      r
  }

  /** `s.map(f).filter(Boolean)` where `f` answers `None` for a dropped element. */
  function FilterMap<A(!new), B(!new)>(s: seq<A>, f: A -> Option<B>): (r: seq<B>)
    ensures |r| <= |s|
    ensures forall b :: b in r <==> exists a :: a in s && f(a) == Some(b)
  {
    if |s| == 0 then []
    else
      var rest := FilterMap(s[1..], f);
      assert forall a :: a in s <==> a == s[0] || a in s[1..];
      match f(s[0])
      case Some(b) => [b] + rest
      case None => rest
  }

  /** Mapping-and-dropping distributes over concatenation, so it keeps the
      original order. */
  lemma {:induction false} FilterMapConcat<A(!new), B(!new)>(a: seq<A>, b: seq<A>, f: A -> Option<B>)
    ensures FilterMap(a + b, f) == FilterMap(a, f) + FilterMap(b, f)
    decreases |a|
  {
    if |a| == 0 {
      assert a + b == b;
    } else {
      assert (a + b)[1..] == a[1..] + b;
      FilterMapConcat(a[1..], b, f);
    }
  }

  /** `UPDATE ... SET ... WHERE p`: every element satisfying `p` becomes `x`
      (itself satisfying `p`), and every other element stays where it is. */
  function Replace<T(!new)>(s: seq<T>, p: T -> bool, x: T): (r: seq<T>)
    requires p(x)
    ensures |r| == |s|
    ensures forall y :: y in r && p(y) ==> y == x
    ensures forall y :: y in r && !p(y) <==> y in s && !p(y)
    ensures (exists y :: y in s && p(y)) ==> x in r
  {
    var r := seq(|s|, i requires 0 <= i < |s| => if p(s[i]) then x else s[i]);
    forall y | y in s && !p(y)
      ensures y in r
    {
      var i :| 0 <= i < |s| && s[i] == y;
      assert r[i] == y;
    }
    forall y | y in s && p(y)
      ensures x in r
    {
      var i :| 0 <= i < |s| && s[i] == y;
      assert r[i] == x;
    }
    r
  }
}
