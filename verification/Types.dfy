/** Bytes, hashes, transactions and the result types shared by every part of the model. */
module Types {

  datatype Option<+T> = None | Some(value: T)

  datatype Result<+T, +E> = Ok(value: T) | Err(error: E)

  type Byte = b: nat | b < 256

  type Bytes = seq<Byte>

  /** common.Hash: exactly 32 bytes. */
  type Hash = h: Bytes | |h| == 32 witness seq(32, _ => 0)

  const ZERO_HASH: Hash := [0, 0, 0, 0, 0, 0, 0, 0, 0, 0, 0, 0, 0, 0, 0, 0,
                            0, 0, 0, 0, 0, 0, 0, 0, 0, 0, 0, 0, 0, 0, 0, 0]

  /** common.Address: exactly 20 bytes. */
  type Address = a: Bytes | |a| == 20 witness seq(20, _ => 0)

  const ZERO_ADDRESS: Address := [0, 0, 0, 0, 0, 0, 0, 0, 0, 0, 0, 0, 0, 0, 0, 0, 0, 0, 0, 0]

  /** A uint64 and the reduction of an arbitrary big.Int to its low 64 bits. */
  const TWO_64: int := 0x1_0000_0000_0000_0000

  type Uint64 = n: nat | n < TWO_64

  function Low64(n: nat): Uint64 {
    n % TWO_64
  }

  /** Reduction keeps what fits and forgets every multiple of 2^64. */
  lemma Low64Means(n: nat, q: nat)
    ensures n < 0x1_0000_0000_0000_0000 ==> Low64(n + q * 0x1_0000_0000_0000_0000) == n
  {
  }

  lemma ZerosOnly(i: nat)
    ensures (i < 32 ==> ZERO_HASH[i] == 0) && (i < 20 ==> ZERO_ADDRESS[i] == 0)
  {
  }

  /** The number a byte string denotes when its first byte is the most significant one. */
  function BigEndian(bs: Bytes): nat {
    if bs == [] then 0 else BigEndian(bs[..|bs| - 1]) * 256 + bs[|bs| - 1]
  }

  /** A transaction. Its hash is a field: hashing is not modelled, and two different
      transactions are allowed to carry the same hash. `to == None` is contract creation. */
  datatype Transaction = Transaction(hash: Hash, to: Option<Address>, payload: Bytes)
}

/** Facts about sequences used by several modules. */
module Sequences {

  /** The last n elements of s, or all of s when it is shorter. */
  function Last<T>(s: seq<T>, n: nat): seq<T> {
    if |s| <= n then s else s[|s| - n..]
  }

  lemma LastOfLast<T>(s: seq<T>, e: T, n: nat)
    ensures Last(Last(s, n) + [e], n) == Last(s + [e], n)
  {
    if |s| > n {
      assert Last(s, n) + [e] == (s + [e])[|s| - n..];
    } else {
      assert Last(s, n) == s;
    }
  }

  ghost predicate Distinct<T>(s: seq<T>) {
    forall i, j :: 0 <= i < j < |s| ==> s[i] != s[j]
  }

  function Elements<T>(s: seq<T>): set<T> {
    set x | x in s
  }

  /** A sequence without repetitions has as many elements as its length. */
  lemma {:induction false} DistinctCardinality<T>(s: seq<T>)
    requires Distinct(s)
    ensures |Elements(s)| == |s|
  {
    if s == [] {
      assert Elements(s) == {};
    } else {
      var p := s[..|s| - 1];
      DistinctCardinality(p);
      var x := s[|s| - 1];
      assert s == p + [x];
      assert Elements(s) == Elements(p) + {x};
      assert x !in Elements(p);
    }
  }

  lemma SubsetCardinality<T>(a: set<T>, b: set<T>)
    requires a <= b
    ensures |a| <= |b|
  {
    if a != {} {
      var x :| x in a;
      SubsetCardinality(a - {x}, b - {x});
    }
  }

  function Flatten<T>(ss: seq<seq<T>>): seq<T> {
    if ss == [] then [] else Flatten(ss[..|ss| - 1]) + ss[|ss| - 1]
  }

  lemma FlattenSnoc<T>(ss: seq<seq<T>>, s: seq<T>)
    ensures Flatten(ss + [s]) == Flatten(ss) + s
  {
    assert (ss + [s])[..|ss|] == ss;
  }

  function Sum<T>(xs: seq<T>, f: T -> nat): nat {
    if xs == [] then 0 else Sum(xs[..|xs| - 1], f) + f(xs[|xs| - 1])
  }

  lemma {:induction false} SumUpdate<T>(xs: seq<T>, i: nat, x: T, f: T -> nat)
    requires i < |xs|
    ensures Sum(xs[i := x], f) + f(xs[i]) == Sum(xs, f) + f(x)
  {
    var n := |xs| - 1;
    if i < n {
      assert xs[i := x][..n] == xs[..n][i := x];
      SumUpdate(xs[..n], i, x, f);
    } else {
      assert xs[i := x][..n] == xs[..n];
    }
  }

  lemma {:induction false} SumAppend<T>(xs: seq<T>, ys: seq<T>, f: T -> nat)
    ensures Sum(xs + ys, f) == Sum(xs, f) + Sum(ys, f)
  {
    if ys == [] {
      assert xs + ys == xs;
    } else {
      assert (xs + ys)[..|xs + ys| - 1] == xs + ys[..|ys| - 1];
      SumAppend(xs, ys[..|ys| - 1], f);
    }
  }
}
