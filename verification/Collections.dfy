/** Facts about sequences and finite sets that several modules use. */
module Collections {
  lemma Regroup<T>(x: seq<T>, y: seq<T>, z: seq<T>)
    ensures x + y + z == x + (y + z)
  {
  }

  lemma Resliced<T>(s: seq<T>, a: nat, b: nat)
    requires a <= b <= |s|
    ensures s[a..][..b - a] == s[a..b] && s[a..][b - a..] == s[b..]
  {
  }

  /** The numbers from `low` up to, and without, `high`. */
  function Interval(low: nat, high: nat): (s: set<nat>)
    requires low <= high
    ensures |s| == high - low && forall x: nat :: x in s <==> low <= x < high
    decreases high
  {
    if low == high then {} else Interval(low, high - 1) + {high - 1}
  }

  lemma IsInterval(s: set<nat>, low: nat, high: nat)
    requires low <= high && forall x: nat :: x in s <==> low <= x < high
    ensures s == Interval(low, high)
  {
    assert forall x: nat :: x in s <==> x in Interval(low, high);
  }

  lemma SameTail<T>(front: seq<T>, x: seq<T>, y: seq<T>)
    requires front + x == front + y
    ensures x == y
  {
    assert x == (front + x)[|front|..] && y == (front + y)[|front|..];
  }
}
