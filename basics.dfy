/** Small building blocks shared by the whole model: an optional value, the
    three-component vector the game uses for every position, squared distances,
    and the sequence operations the source gets from JavaScript arrays
    (`filter`, `indexOf`). */
module Basics {

  datatype Option<+T> = None | Some(value: T)

  /** A point in the game world; `y` is the height above the ground plane. */
  datatype Vec3 = Vec3(x: real, y: real, z: real)

  /** Square of the Euclidean distance in three dimensions (`Vector3.distanceTo`).
      Comparing squares is exact for the source's comparisons: for non-negative
      d and c, d < c iff d*d < c*c, and d <= c iff d*d <= c*c. */
  function SqDist3(a: Vec3, b: Vec3): (d: real)
    ensures d >= 0.0
  {
    var dx, dy, dz := a.x - b.x, a.y - b.y, a.z - b.z;
    assert dx * dx >= 0.0 && dy * dy >= 0.0 && dz * dz >= 0.0;
    dx * dx + dy * dy + dz * dz
  }

  /** Square of the distance on the ground plane, ignoring the height `y`. */
  function PlanarSqDist(a: Vec3, b: Vec3): (d: real)
    ensures d >= 0.0
    ensures d == SqDist3(a.(y := 0.0), b.(y := 0.0))
  {
    var dx, dz := a.x - b.x, a.z - b.z;
    assert dx * dx >= 0.0 && dz * dz >= 0.0;
    dx * dx + dz * dz
  }

  function Max(a: real, b: real): (m: real)
    ensures m >= a && m >= b && (m == a || m == b)
  {
    if a >= b then a else b
  }

  function Min(a: real, b: real): (m: real)
    ensures m <= a && m <= b && (m == a || m == b)
  {
    if a <= b then a else b
  }

  /** Number of `true` entries. */
  function CountTrue(s: seq<bool>): (n: nat)
    ensures n <= |s|
  {
    if s == [] then 0 else CountTrue(s[..|s| - 1]) + (if s[|s| - 1] then 1 else 0)
  }

  lemma CountTrueSnoc(s: seq<bool>, b: bool)
    ensures CountTrue(s + [b]) == CountTrue(s) + (if b then 1 else 0)
  {
    assert (s + [b])[..|s|] == s;
  }

  /** Setting one `false` entry to `true` raises the count by exactly one. */
  lemma {:induction false} CountTrueSet(s: seq<bool>, i: nat)
    requires i < |s| && !s[i]
    ensures CountTrue(s[i := true]) == CountTrue(s) + 1
  {
    var n := |s| - 1;
    if i < n {
      CountTrueSet(s[..n], i);
      assert s[i := true][..n] == s[..n][i := true];
    } else {
      assert s[i := true][..n] == s[..n];
    }
  }

  /** A sequence of `n` false flags counts zero. */
  lemma {:induction false} CountTrueAllFalse(n: nat)
    ensures CountTrue(seq(n, _ => false)) == 0
  {
    if n > 0 {
      CountTrueAllFalse(n - 1);
      assert seq(n, _ => false)[..n - 1] == seq(n - 1, _ => false);
    }
  }

  /** Three flag sequences where every position is flagged by exactly one of
      them count, together, every position once. */
  lemma {:induction false} CountTruePartition(a: seq<bool>, b: seq<bool>, c: seq<bool>)
    requires |a| == |b| == |c|
    requires forall i :: 0 <= i < |a| ==> !(a[i] && b[i])
    requires forall i :: 0 <= i < |a| ==> (c[i] <==> !a[i] && !b[i])
    ensures CountTrue(a) + CountTrue(b) + CountTrue(c) == |a|
  {
    if a != [] {
      var n := |a| - 1;
      CountTruePartition(a[..n], b[..n], c[..n]);
    }
  }

  /** `Array.prototype.filter` with the decisions given as flags: the elements of
      `s` whose flag is set, in their original order. */
  function Select<T>(s: seq<T>, keep: seq<bool>): (r: seq<T>)
    requires |s| == |keep|
    ensures |r| == CountTrue(keep)
    ensures forall x :: x in r ==> x in s
  {
    if s == [] then []
    else
      var n := |s| - 1;
      Select(s[..n], keep[..n]) + (if keep[n] then [s[n]] else [])
  }

  lemma SelectSnoc<T>(s: seq<T>, keep: seq<bool>, x: T, b: bool)
    requires |s| == |keep|
    ensures Select(s + [x], keep + [b]) == Select(s, keep) + (if b then [x] else [])
  {
    assert (s + [x])[..|s|] == s;
    assert (keep + [b])[..|keep|] == keep;
  }

  /** Filtering a sequence without repetitions gives one without repetitions. */
  lemma {:induction false} SelectDistinct<T>(s: seq<T>, keep: seq<bool>)
    requires |s| == |keep| && Distinct(s)
    ensures Distinct(Select(s, keep))
  {
    if s != [] {
      var n := |s| - 1;
      SelectDistinct(s[..n], keep[..n]);
      assert s[n] !in s[..n];
    }
  }

  /** Every element of a filtered sequence is an element whose flag is set. */
  lemma {:induction false} SelectKeptOnly<T>(s: seq<T>, keep: seq<bool>)
    requires |s| == |keep|
    ensures forall x :: x in Select(s, keep) ==> exists j :: 0 <= j < |s| && keep[j] && s[j] == x
  {
    if s != [] {
      var n := |s| - 1;
      SelectKeptOnly(s[..n], keep[..n]);
      forall x | x in Select(s, keep)
        ensures exists j :: 0 <= j < |s| && keep[j] && s[j] == x
      {
        if x in Select(s[..n], keep[..n]) {
          var j :| 0 <= j < n && keep[..n][j] && s[..n][j] == x;
          assert keep[j] && s[j] == x;
        } else {
          assert keep[n] && s[n] == x;
        }
      }
    }
  }

  /** No element occurs twice: none occurs before its own position. */
  ghost predicate Distinct<T>(s: seq<T>)
  {
    forall i :: 0 <= i < |s| ==> s[i] !in s[..i]
  }

  /** In a sequence without repetitions an element occurs neither before nor
      after its own position. */
  lemma DistinctAt<T>(s: seq<T>, i: nat)
    requires Distinct(s) && i < |s|
    ensures s[i] !in s[..i] && s[i] !in s[i + 1..]
  {
  }

  /** Moving the split point of a sequence one place to the right. */
  lemma SliceStep<T>(s: seq<T>, i: nat)
    requires i < |s|
    ensures s[..i + 1] == s[..i] + [s[i]] && s[i..][1..] == s[i + 1..]
  {
  }

  /** `Array.prototype.indexOf`: the first position of `x` in `s`, or -1. */
  function IndexOf<T(==)>(s: seq<T>, x: T): (r: int)
    ensures -1 <= r < |s|
    ensures r == -1 <==> x !in s
    ensures r >= 0 ==> s[r] == x && x !in s[..r]
  {
    if s == [] then -1
    else if s[0] == x then 0
    else
      var k := IndexOf(s[1..], x);
      if k < 0 then -1 else k + 1
  }

  /** `splice(i, 1)`: the sequence without its element at position `i`. */
  function RemoveAt<T>(s: seq<T>, i: nat): (r: seq<T>)
    requires i < |s|
    ensures |r| == |s| - 1
    ensures forall k :: 0 <= k < i ==> r[k] == s[k]
    ensures forall k :: i <= k < |r| ==> r[k] == s[k + 1]
  {
    s[..i] + s[i + 1..]
  }

  /** Taking out position `i` removes one occurrence of `s[i]` and keeps every
      other element; nothing new appears. */
  lemma RemoveAtMultiset<T>(s: seq<T>, i: nat)
    requires i < |s|
    ensures multiset(RemoveAt(s, i)) == multiset(s) - multiset{s[i]}
    ensures forall x :: x in RemoveAt(s, i) ==> x in s
  {
    assert s == s[..i] + [s[i]] + s[i + 1..];
    forall x | x in RemoveAt(s, i)
      ensures x in s
    {
      assert multiset(RemoveAt(s, i))[x] > 0;
    }
  }

  /** Taking an element out of a sequence without repetitions leaves one
      without repetitions. */
  lemma DistinctRemoveAt<T>(s: seq<T>, i: nat)
    requires Distinct(s) && i < |s|
    ensures Distinct(RemoveAt(s, i))
  {
    var r := RemoveAt(s, i);
    forall j | 0 <= j < |r|
      ensures r[j] !in r[..j]
    {
      if j >= i {
        forall m | 0 <= m < j
          ensures r[m] in s[..j + 1]
        {
          var n := if m < i then m else m + 1;
          assert r[m] == s[..j + 1][n];
        }
        assert s[j + 1] !in s[..j + 1];
      } else {
        assert r[..j] == s[..j];
      }
    }
  }
}
