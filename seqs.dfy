/** Sequence helpers shared by the token, argument and PTX stages. */
module Seqs {

  /** The first index at or after `from` whose element satisfies `p`, or `|s|` when none does. */
  function Find<T>(s: seq<T>, p: T -> bool, from: nat): (k: nat)
    requires from <= |s|
    ensures from <= k <= |s|
    ensures k < |s| ==> p(s[k])
    ensures forall j :: from <= j < k ==> !p(s[j])
    decreases |s| - from
  {
    if from == |s| then |s| else if p(s[from]) then from else Find(s, p, from + 1)
  }

  /** `s` without the elements satisfying `drop`; the others keep their order. */
  function Keep<T>(s: seq<T>, drop: T -> bool): (r: seq<T>)
    ensures |r| <= |s|
    ensures forall i :: 0 <= i < |r| ==> !drop(r[i])
    decreases |s|
  {
    if s == [] then [] else Keep(s[..|s| - 1], drop) + (if drop(s[|s| - 1]) then [] else [s[|s| - 1]])
  }

  /** How many elements of `s` satisfy `p`. */
  function Count<T>(s: seq<T>, p: T -> bool): (n: nat)
    ensures n <= |s|
    decreases |s|
  {
    if s == [] then 0 else Count(s[..|s| - 1], p) + (if p(s[|s| - 1]) then 1 else 0)
  }

  /** Filtering distributes over concatenation: nothing is reordered across the seam. */
  lemma {:induction false} KeepAppend<T>(a: seq<T>, b: seq<T>, drop: T -> bool)
    ensures Keep(a + b, drop) == Keep(a, drop) + Keep(b, drop)
    decreases |b|
  {
    if b == [] {
      assert a + b == a;
    } else {
      var b' := b[..|b| - 1];
      assert (a + b)[..|a + b| - 1] == a + b';
      KeepAppend(a, b', drop);
    }
  }

  lemma {:induction false} CountAppend<T>(a: seq<T>, b: seq<T>, p: T -> bool)
    ensures Count(a + b, p) == Count(a, p) + Count(b, p)
    decreases |b|
  {
    if b == [] {
      assert a + b == a;
    } else {
      var b' := b[..|b| - 1];
      assert (a + b)[..|a + b| - 1] == a + b';
      CountAppend(a, b', p);
    }
  }

  /** A sequence with nothing to drop is kept whole. */
  lemma {:induction false} KeepAll<T>(s: seq<T>, drop: T -> bool)
    requires forall i :: 0 <= i < |s| ==> !drop(s[i])
    ensures Keep(s, drop) == s
    decreases |s|
  {
    if s != [] {
      KeepAll(s[..|s| - 1], drop);
    }
  }

  lemma {:induction false} CountNone<T>(s: seq<T>, p: T -> bool)
    requires forall i :: 0 <= i < |s| ==> !p(s[i])
    ensures Count(s, p) == 0
    decreases |s|
  {
    if s != [] {
      CountNone(s[..|s| - 1], p);
    }
  }

  /** Filtering twice is filtering once. */
  lemma KeepIdempotent<T>(s: seq<T>, drop: T -> bool)
    ensures Keep(Keep(s, drop), drop) == Keep(s, drop)
  {
    KeepAll(Keep(s, drop), drop);
  }

  /** Exactly the elements satisfying `drop` go missing. */
  lemma {:induction false} KeepCount<T>(s: seq<T>, drop: T -> bool)
    ensures |Keep(s, drop)| + Count(s, drop) == |s|
    decreases |s|
  {
    if s != [] {
      KeepCount(s[..|s| - 1], drop);
    }
  }

  /** An element survives filtering exactly when it occurs and is not to be dropped. */
  lemma {:induction false} KeepMembers<T>(s: seq<T>, drop: T -> bool, x: T)
    ensures x in Keep(s, drop) <==> x in s && !drop(x)
    decreases |s|
  {
    if s != [] {
      var s' := s[..|s| - 1];
      KeepMembers(s', drop, x);
      assert s == s' + [s[|s| - 1]];
    }
  }
}
