/** Sequence identities used by the list and string manipulations of the
    model, stated once and for any element type. */
module Seqs {

  lemma {:induction false} Assoc<T>(a: seq<T>, b: seq<T>, c: seq<T>)
    ensures a + (b + c) == (a + b) + c
  {
  }

  lemma {:induction false} EmptyUnit<T>(a: seq<T>)
    ensures [] + a == a && a + [] == a
    ensures a[0..] == a && a[..|a|] == a
  {
  }

  /** A non-empty sequence is its head followed by its tail. */
  lemma {:induction false} HeadTail<T>(s: seq<T>)
    requires |s| > 0
    ensures [s[0]] + s[1..] == s
  {
  }

  /** The head and tail of a concatenation whose left part is not empty. */
  lemma {:induction false} ConsTail<T>(a: seq<T>, b: seq<T>)
    requires |a| > 0
    ensures (a + b)[0] == a[0] && (a + b)[1..] == a[1..] + b
  {
  }

  /** The parts of a sequence extended at the end. */
  lemma {:induction false} SnocParts<T>(s: seq<T>, x: T)
    ensures (s + [x])[..|s|] == s && (s + [x])[|s|] == x
  {
  }

  lemma {:induction false} DropDrop<T>(s: seq<T>, i: nat, j: nat)
    requires i + j <= |s|
    ensures s[i..][j..] == s[i + j..]
  {
  }

  lemma {:induction false} DropConcat<T>(a: seq<T>, b: seq<T>, n: nat)
    requires n <= |a|
    ensures (a + b)[n..] == a[n..] + b
  {
  }

  /** Extending the first piece of a concatenation of piece lists. */
  lemma {:induction false} MergeHead<T>(x: seq<T>, p: seq<seq<T>>, q: seq<seq<T>>)
    requires |p| > 0
    ensures [x + (p + q)[0]] + (p + q)[1..] == ([x + p[0]] + p[1..]) + q
  {
    assert (p + q)[1..] == p[1..] + q;
  }

  /** Two pieces of which one is empty can be put in front in either order. */
  lemma {:induction false} SwapEmpty<T>(a: seq<T>, b: seq<T>, c: seq<T>)
    requires a == [] || b == []
    ensures a + (b + c) == b + (a + c)
  {
  }

  /** Taking one more element is taking the head and then from the tail. */
  lemma {:induction false} HeadTake<T>(s: seq<T>, n: nat)
    requires n + 1 <= |s|
    ensures s[..n + 1] == [s[0]] + s[1..][..n]
  {
  }

  lemma {:induction false} TakeDrop<T>(s: seq<T>, n: nat)
    requires n <= |s|
    ensures s[..n] + s[n..] == s
  {
  }

  /** Cutting after the head and again at `n` and putting the pieces back
      together gives the sequence back. */
  lemma {:induction false} HeadCutJoin<T>(s: seq<T>, n: nat)
    requires 0 < |s| && n <= |s| - 1
    ensures [s[0]] + s[1..][..n] + s[1..][n..] == s
  {
    assert s == [s[0]] + s[1..];
    assert s[1..] == s[1..][..n] + s[1..][n..];
  }

  /** Regrouping five pieces around the middle three. */
  lemma {:induction false} Regroup<T>(a: seq<T>, b: seq<T>, c: seq<T>, d: seq<T>, e: seq<T>)
    ensures a + b + c + d + e == a + (b + c + d) + e
  {
  }

  // ---------------------------------------------------------------------------
  // Array.prototype.map and splice
  // ---------------------------------------------------------------------------

  /** `u.map(f)`. */
  function Map<T, U>(f: T -> U, u: seq<T>): (r: seq<U>)
    ensures |r| == |u|
    ensures forall k | 0 <= k < |u| :: r[k] == f(u[k])
  {
    seq(|u|, k requires 0 <= k < |u| => f(u[k]))
  }

  /** `u.splice(i, 1)` on a copy: the sequence without its element at `i`. */
  function Remove<T>(u: seq<T>, i: nat): (r: seq<T>)
    requires i < |u|
    ensures |r| == |u| - 1
    ensures forall k | 0 <= k < i :: r[k] == u[k]
    ensures forall k | i <= k < |r| :: r[k] == u[k + 1]
  {
    u[..i] + u[i + 1..]
  }

  /** `u.splice(j, 0, x)` on a copy: `x` inserted so that it sits at index `j`. */
  function InsertAt<T>(u: seq<T>, j: nat, x: T): (r: seq<T>)
    requires j <= |u|
    ensures |r| == |u| + 1
    ensures r[j] == x
    ensures forall k | 0 <= k < j :: r[k] == u[k]
    ensures forall k | j < k < |r| :: r[k] == u[k - 1]
  {
    u[..j] + [x] + u[j..]
  }

  /** The element at `i` taken out and put back in at `j`. */
  function Move<T>(u: seq<T>, i: nat, j: nat): (r: seq<T>)
    requires i < |u| && j < |u|
    ensures |r| == |u|
  {
    InsertAt(Remove(u, i), j, u[i])
  }

  /** Where the element at index `k` of `Move(u, i, j)` came from. */
  function MoveSource(i: nat, j: nat, k: nat): nat {
    if k == j then i
    else
      var t := if k < j then k else k - 1;
      if t < i then t else t + 1
  }

  lemma {:induction false} MoveAt<T>(u: seq<T>, i: nat, j: nat, k: nat)
    requires i < |u| && j < |u| && k < |u|
    ensures MoveSource(i, j, k) < |u|
    ensures Move(u, i, j)[k] == u[MoveSource(i, j, k)]
  {
  }

  /** Taking the inserted element out again gives back what it was inserted into. */
  lemma {:induction false} RemoveInserted<T>(u: seq<T>, j: nat, x: T)
    requires j <= |u|
    ensures Remove(InsertAt(u, j, x), j) == u
  {
  }

  /** Moving back undoes a move. */
  lemma {:induction false} MoveBack<T>(u: seq<T>, i: nat, j: nat)
    requires i < |u| && j < |u|
    ensures Move(Move(u, i, j), j, i) == u
  {
    var v := Move(u, i, j);
    forall k | 0 <= k < |u| ensures Move(v, j, i)[k] == u[k] {
      MoveAt(v, j, i, k);
      MoveAt(u, i, j, MoveSource(j, i, k));
      assert MoveSource(i, j, MoveSource(j, i, k)) == k;
    }
  }

  /** A move rearranges: it neither adds nor loses elements. */
  lemma {:induction false} MovePermutes<T>(u: seq<T>, i: nat, j: nat)
    requires i < |u| && j < |u|
    ensures multiset(Move(u, i, j)) == multiset(u)
  {
    var t := Remove(u, i);
    assert u == u[..i] + [u[i]] + u[i + 1..];
    assert multiset(u) == multiset(t) + multiset{u[i]};
    assert t == t[..j] + t[j..];
  }

  /** Mapping commutes with moving. */
  lemma {:induction false} MapMove<T, U>(f: T -> U, u: seq<T>, i: nat, j: nat)
    requires i < |u| && j < |u|
    ensures Map(f, Move(u, i, j)) == Move(Map(f, u), i, j)
  {
    forall k | 0 <= k < |u| ensures Map(f, Move(u, i, j))[k] == Move(Map(f, u), i, j)[k] {
      MoveAt(u, i, j, k);
      MoveAt(Map(f, u), i, j, k);
    }
  }
}
