/** Small shared vocabulary: an option type, the bit test of the access flags, 32-bit decrement. */
module Common {

  datatype Option<+T> = None | Some(value: T)

  /** `--x` on an `unsigned int`. */
  function Dec32(x: nat): (r: nat)
    ensures x > 0 ==> r == x - 1
  {
    if x == 0 then 0xFFFF_FFFF else x - 1
  }

  /** `s` without the element at `k`: what unlinking one entry does to a queue. */
  function Without<T>(s: seq<T>, k: nat): (r: seq<T>)
    requires k < |s|
    ensures |r| == |s| - 1
    ensures forall i :: 0 <= i < k ==> r[i] == s[i]
    ensures forall i :: k <= i < |r| ==> r[i] == s[i + 1]
  {
    s[..k] + s[k + 1..]
  }

  ghost predicate NoDup<T>(s: seq<T>) {
    forall i, j :: 0 <= i < j < |s| ==> s[i] != s[j]
  }

  lemma {:induction false} Pigeonhole(a: seq<nat>, n: nat)
    requires forall i :: 0 <= i < |a| ==> a[i] < n
    requires NoDup(a)
    ensures |a| <= n
  {
    if a != [] {
      assert a[0] < n;
      if k :| 0 <= k < |a| && a[k] == n - 1 {
        Pigeonhole(Without(a, k), n - 1);
      } else {
        Pigeonhole(a, n - 1);
      }
    }
  }

  ghost predicate Before<T>(s: seq<T>, x: T, y: T) {
    exists a, b :: 0 <= a < b < |s| && s[a] == x && s[b] == y
  }

  lemma WithoutMultiset<T>(s: seq<T>, k: nat)
    requires k < |s|
    ensures multiset(Without(s, k)) == multiset(s) - multiset{s[k]}
  {
    assert s == s[..k] + [s[k]] + s[k + 1..];
  }

  function Sum(a: seq<nat>): nat {
    if a == [] then 0 else Sum(a[..|a| - 1]) + a[|a| - 1]
  }
}
