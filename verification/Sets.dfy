/** Facts about finite sets, and the iteration order of Go maps: any element next. */
module Sets {

  ghost function Pick<T>(s: set<T>): (x: T)
    requires s != {}
    ensures x in s
  {
    var x :| x in s;
    x
  }

  /** The next key of a Go map iteration: nothing is known of the order. */
  method PickAny<T>(s: set<T>) returns (x: T)
    requires s != {}
    ensures x in s
  {
    x :| x in s;
  }

  /** The set {0, ..., n-1}. */
  function Below(n: nat): (r: set<int>)
    ensures forall i :: i in r <==> 0 <= i < n
  {
    if n == 0 then {} else Below(n - 1) + {n - 1}
  }

  lemma {:induction false} BelowSize(n: nat)
    ensures |Below(n)| == n
  {
    if n == 0 {
    } else {
      BelowSize(n - 1);
    }
  }

  lemma {:induction false} SubsetFills<T>(a: set<T>, b: set<T>)
    requires a <= b && |a| == |b|
    ensures a == b
  {
    if a == {} {
    } else {
      var x := Pick(a);
      SubsetFills(a - {x}, b - {x});
    }
  }

  ghost function Least(keys: set<int>): (m: int)
    requires keys != {}
    ensures m in keys && forall k <- keys :: m <= k
  {
    var x := Pick(keys);
    if keys - {x} == {} then
      assert forall k <- keys :: k == x || k in keys - {x};
      x
    else
      var m := Least(keys - {x});
      assert forall k <- keys :: k == x || k in keys - {x};
      if x <= m then x else m
  }
}
