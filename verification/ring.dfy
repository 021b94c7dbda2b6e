/**
 * The sequence ring: `sequenceArray`, the order in which slide indices
 * come to the front. It starts as 0..n-1 and is only ever rotated.
 */
module SequenceRing {

  /** `Array.from({length: n}, (_, i) => i)`: the ring as first built. */
  function Iota(n: nat): (r: seq<nat>)
    ensures |r| == n
    ensures forall i :: 0 <= i < n ==> r[i] == i
  {
    seq(n, i requires 0 <= i < n => i as nat)
  }

  /** No index occurs twice. */
  predicate Distinct(s: seq<nat>)
  {
    forall i, j :: 0 <= i < j < |s| ==> s[i] != s[j]
  }

  /** `s` holds n distinct slide indices, each below n. */
  predicate IsPermutation(s: seq<nat>, n: nat)
  {
    |s| == n && (forall i :: 0 <= i < |s| ==> s[i] < n) && Distinct(s)
  }

  /** `push(shift())`: the first index moves to the end (nextSlide). */
  function RotateLeft(s: seq<nat>): seq<nat>
    requires |s| > 0
  {
    s[1..] + [s[0]]
  }

  /** `unshift(pop())`: the last index moves to the front (previousSlide). */
  function RotateRight(s: seq<nat>): seq<nat>
    requires |s| > 0
  {
    [s[|s| - 1]] + s[..|s| - 1]
  }

  /** k successive left rotations. */
  function RotateBy(s: seq<nat>, k: nat): seq<nat>
    requires k <= |s|
  {
    s[k..] + s[..k]
  }

  /** The first position of `t` in `s` (`indexOf`). */
  function IndexOf(s: seq<nat>, t: nat): (i: nat)
    requires t in s
    ensures i < |s| && s[i] == t
    ensures forall j :: 0 <= j < i ==> s[j] != t
  {
    if s[0] == t then 0 else 1 + IndexOf(s[1..], t)
  }

  /** o + i, wrapped into 0..n-1 (for o, i < n). */
  function Wrap(n: nat, x: nat): nat
  {
    if x < n then x else x - n
  }

  /** 0..n-1 rotated so that `o` comes first: position i holds o + i mod n. */
  function Rotation(n: nat, o: nat): (r: seq<nat>)
    requires o < n
    ensures |r| == n && r[0] == o
    ensures forall i :: 0 <= i < n ==> r[i] == Wrap(n, o + i)
  {
    seq(n, i requires 0 <= i < n => if o + i < n then o + i else o + i - n)
  }

  /** The index after `o` on the ring. */
  function Succ(n: nat, o: nat): nat
  {
    if o + 1 < n then o + 1 else 0
  }

  /** The index before `o` on the ring. */
  function Pred(n: nat, o: nat): nat
    requires 0 < n
  {
    if o == 0 then n - 1 else o - 1
  }

  /** Where slide `t` sits in Rotation(n, o). */
  function PositionIn(n: nat, o: nat, t: nat): (p: nat)
    requires o < n && t < n
    ensures p < n && Rotation(n, o)[p] == t
  {
    if o <= t then t - o else t + n - o
  }

  /** The ring as first built is the rotation that starts at 0. */
  lemma IotaIsRotation(n: nat)
    requires 0 < n
    ensures Iota(n) == Rotation(n, 0)
  {
  }

  /** Every rotation of 0..n-1 is a permutation, and holds every slide index. */
  lemma RotationIsPermutation(n: nat, o: nat)
    requires o < n
    ensures IsPermutation(Rotation(n, o), n)
    ensures forall t: nat :: t < n ==> t in Rotation(n, o)
  {
    var r := Rotation(n, o);
    forall t: nat | t < n ensures t in r {
      assert r[PositionIn(n, o, t)] == t;
    }
  }

  /** The first position of t in a rotation is the position computed arithmetically. */
  lemma IndexOfRotation(n: nat, o: nat, t: nat)
    requires o < n && t < n
    ensures t in Rotation(n, o)
    ensures IndexOf(Rotation(n, o), t) == PositionIn(n, o, t)
  {
    RotationIsPermutation(n, o);
    IndexOfDistinct(Rotation(n, o), PositionIn(n, o, t));
  }

  /** nextSlide on a rotation gives the rotation that starts one further on. */
  lemma {:induction false} RotateLeftRotation(n: nat, o: nat)
    requires o < n
    ensures RotateLeft(Rotation(n, o)) == Rotation(n, Succ(n, o))
  {
    var s, t := Rotation(n, o), Rotation(n, Succ(n, o));
    var r := RotateLeft(s);
    assert |r| == n;
    forall i | 0 <= i < n ensures r[i] == t[i] {
      if i < n - 1 {
        assert r[i] == s[i + 1];
      } else {
        assert r[i] == s[0];
      }
    }
  }

  /** previousSlide on a rotation gives the rotation that starts one earlier. */
  lemma {:induction false} RotateRightRotation(n: nat, o: nat)
    requires o < n
    ensures RotateRight(Rotation(n, o)) == Rotation(n, Pred(n, o))
  {
    var s, t := Rotation(n, o), Rotation(n, Pred(n, o));
    var r := RotateRight(s);
    assert |r| == n;
    forall i | 0 <= i < n ensures r[i] == t[i] {
      if i == 0 {
        assert r[i] == s[n - 1];
      } else {
        assert r[i] == s[i - 1];
      }
    }
  }

  /** Rotating a rotation k places to the left starts it at its k-th entry. */
  lemma {:induction false} RotateByRotation(n: nat, o: nat, k: nat)
    requires o < n && k < n
    ensures RotateBy(Rotation(n, o), k) == Rotation(n, Rotation(n, o)[k])
  {
    var s := Rotation(n, o);
    var t := Rotation(n, s[k]);
    var r := RotateBy(s, k);
    assert |r| == n;
    forall i | 0 <= i < n ensures r[i] == t[i] {
      if k + i < n {
        assert r[i] == s[k + i];
      } else {
        assert r[i] == s[k + i - n];
      }
    }
  }

  /** One more left rotation of a k-fold rotation is a (k+1)-fold rotation. */
  lemma {:induction false} RotateLeftStep(s: seq<nat>, k: nat)
    requires k < |s|
    ensures RotateBy(s, k)[0] == s[k]
    ensures RotateLeft(RotateBy(s, k)) == RotateBy(s, k + 1)
  {
    var r := RotateBy(s, k);
    assert r[0] == s[k];
    calc {
      RotateLeft(r);
      r[1..] + [r[0]];
      { assert r[1..] == s[k + 1..] + s[..k]; }
      s[k + 1..] + s[..k] + [s[k]];
      { assert s[..k + 1] == s[..k] + [s[k]]; }
      s[k + 1..] + s[..k + 1];
    }
  }

  /** Inverse law: nextSlide's rotation undoes previousSlide's and vice versa. */
  lemma {:induction false} RotateInverse(s: seq<nat>)
    requires |s| > 0
    ensures |RotateLeft(s)| == |s| && |RotateRight(s)| == |s|
    ensures RotateRight(RotateLeft(s)) == s
    ensures RotateLeft(RotateRight(s)) == s
  {
    var l := RotateLeft(s);
    assert l[|l| - 1] == s[0] && l[..|l| - 1] == s[1..];
    var r := RotateRight(s);
    assert r[0] == s[|s| - 1] && r[1..] == s[..|s| - 1];
  }

  /** Both rotations keep a permutation a permutation. */
  lemma {:induction false} RotationsKeepPermutation(s: seq<nat>, n: nat)
    requires IsPermutation(s, n) && 0 < n
    ensures IsPermutation(RotateLeft(s), n)
    ensures IsPermutation(RotateRight(s), n)
  {
    var l := RotateLeft(s);
    forall i, j | 0 <= i < j < n ensures l[i] != l[j] {
      var i', j' := if i < n - 1 then i + 1 else 0, if j < n - 1 then j + 1 else 0;
      assert l[i] == s[i'] && l[j] == s[j'] && i' != j';
    }
    var r := RotateRight(s);
    forall i, j | 0 <= i < j < n ensures r[i] != r[j] {
      var i', j' := if i == 0 then n - 1 else i - 1, j - 1;
      assert r[i] == s[i'] && r[j] == s[j'] && i' != j';
    }
  }

  /** In a list without repeats, indexOf finds the entry where it stands. */
  lemma IndexOfDistinct(s: seq<nat>, p: nat)
    requires Distinct(s) && p < |s|
    ensures s[p] in s && IndexOf(s, s[p]) == p
  {
    var i := IndexOf(s, s[p]);
    if i < p {
      assert s[i] == s[p];
    }
  }
}
