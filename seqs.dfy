/** Generic sequence helpers: distinctness, order-keeping dedup, prefixes, flattening, counts. */
module Seqs {

  predicate Distinct<T(==)>(s: seq<T>) {
    forall i, j :: 0 <= i < j < |s| ==> s[i] != s[j]
  }

  /** `s[:n]` in Python for a count `n` that may be negative (then nothing is kept). */
  function Take<T>(s: seq<T>, n: int): (r: seq<T>)
    ensures |r| == if n <= 0 then 0 else if n < |s| then n else |s|
    ensures r == s[..|r|]
  {
    if n <= 0 then [] else if n < |s| then s[..n] else s
  }

  /** The distinct elements of `s`, each at its first occurrence, in order of occurrence. */
  function Dedupe<T(==)>(s: seq<T>): (r: seq<T>)
    ensures Distinct(r)
    ensures forall i :: 0 <= i < |s| ==> s[i] in r
    ensures forall i :: 0 <= i < |r| ==> r[i] in s
    ensures |r| <= |s|
    decreases |s|
  {
    if s == [] then []
    else
      var d := Dedupe(s[..|s| - 1]);
      assert forall i :: 0 <= i < |s| - 1 ==> s[i] == s[..|s| - 1][i];
      if s[|s| - 1] in d then d else d + [s[|s| - 1]]
  }

  function Flatten<T>(ss: seq<seq<T>>): seq<T>
    decreases |ss|
  {
    if ss == [] then [] else ss[0] + Flatten(ss[1..])
  }

  /** `results.count(True)`. */
  function CountTrue(bs: seq<bool>): (n: nat)
    ensures n <= |bs|
    ensures n == |bs| <==> forall i :: 0 <= i < |bs| ==> bs[i]
    decreases |bs|
  {
    if bs == [] then 0
    else
      var rest := CountTrue(bs[1..]);
      assert forall i :: 1 <= i < |bs| ==> bs[i] == bs[1..][i - 1];
      (if bs[0] then 1 else 0) + rest
  }

  /** The images of the kept elements of all but the last, together with that of the last
      when it is kept, hold the image of every kept element. */
  lemma ImagesSnoc<T, U>(s: seq<T>, front: seq<T>, keep: T -> bool, f: T -> U, names0: set<U>, extra: set<U>)
    requires s != [] && front == s[..|s| - 1]
    requires forall k :: 0 <= k < |front| && keep(front[k]) ==> f(front[k]) in names0
    requires extra == if keep(s[|s| - 1]) then {f(s[|s| - 1])} else {}
    ensures forall k :: 0 <= k < |s| && keep(s[k]) ==> f(s[k]) in names0 + extra
  {
    forall k | 0 <= k < |s| && keep(s[k]) ensures f(s[k]) in names0 + extra {
      if k < |front| {
        assert front[k] == s[k];
      }
    }
  }

  lemma SliceJoin<T>(s: seq<T>, i: nat, j: nat)
    requires i <= j <= |s|
    ensures s[..i] + s[i..j] == s[..j]
  {
  }

  lemma SliceOfSuffix<T>(s: seq<T>, i: nat, k: nat)
    requires i + k <= |s|
    ensures s[i..][..k] == s[i..i + k] && s[i..][k..] == s[i + k..]
  {
  }

  lemma AppendAssoc<T>(a: seq<T>, b: seq<T>, c: seq<T>)
    ensures a + (b + c) == (a + b) + c
  {
  }

  lemma {:induction false} FlattenAppend<T>(ss: seq<seq<T>>, last: seq<T>)
    ensures Flatten(ss + [last]) == Flatten(ss) + last
    decreases |ss|
  {
    if ss == [] {
      assert [last][1..] == [];
    } else {
      assert (ss + [last])[1..] == ss[1..] + [last];
      FlattenAppend(ss[1..], last);
    }
  }
}
