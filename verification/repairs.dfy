/** The shape shared by the data-repair scripts: walk every record in order, replace it by
    its repaired form, and count how many records the repair actually changed. */
module Repairs {
  /** How many positions of two equally long lists differ. */
  function Differences<T(==)>(a: seq<T>, b: seq<T>): (n: nat)
    requires |a| == |b|
    ensures n <= |a|
    ensures n == 0 <==> a == b
  {
    if |a| == 0 then 0
    else
      assert a == [a[0]] + a[1..] && b == [b[0]] + b[1..];
      (if a[0] != b[0] then 1 else 0) + Differences(a[1..], b[1..])
  }

  /** One pass: every record repaired in order, and the change counter. */
  function Pass<T(==)>(fix: T -> T, xs: seq<T>): (r: (seq<T>, nat))
    ensures |r.0| == |xs|
    ensures forall i :: 0 <= i < |xs| ==> r.0[i] == fix(xs[i])
    ensures r.1 == Differences(xs, r.0)
  {
    if |xs| == 0 then ([], 0)
    else
      var (rest, n) := Pass(fix, xs[1..]);
      var out := [fix(xs[0])] + rest;
      assert out[1..] == rest;
      (out, (if fix(xs[0]) != xs[0] then 1 else 0) + n)
  }

  /** When the repair of a repaired record changes nothing, a second pass changes nothing. */
  lemma SecondPassIdle<T>(fix: T -> T, xs: seq<T>)
    requires forall i :: 0 <= i < |xs| ==> fix(fix(xs[i])) == fix(xs[i])
    ensures Pass(fix, Pass(fix, xs).0) == (Pass(fix, xs).0, 0)
  {
    var once := Pass(fix, xs).0;
    var twice := Pass(fix, once).0;
    assert twice == once;
  }
}
