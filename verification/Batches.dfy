/** Views of a transaction batch used by the pool, the packet handlers and the relay. */
module Batches {
  import opened Types
  import opened Sequences

  function Hashes(txs: seq<Transaction>): seq<Hash> {
    seq(|txs|, i requires 0 <= i < |txs| => txs[i].hash)
  }

  /** The hashes of a batch a known-set lacks, in batch order. */
  function Unknown(known: set<Hash>, hashes: seq<Hash>): seq<Hash> {
    if hashes == [] then []
    else
      var n := |hashes| - 1;
      Unknown(known, hashes[..n]) + if hashes[n] in known then [] else [hashes[n]]
  }

  lemma UnknownPrefix(known: set<Hash>, hashes: seq<Hash>, i: nat)
    requires i < |hashes|
    ensures Unknown(known, hashes[..i + 1])
            == Unknown(known, hashes[..i]) + if hashes[i] in known then [] else [hashes[i]]
  {
    assert hashes[..i + 1][..i] == hashes[..i];
  }

  /** The transactions in front of the first nil one. */
  function BeforeNil(txs: seq<Option<Transaction>>): seq<Transaction> {
    if txs == [] then []
    else
      var n := |txs| - 1;
      var before := BeforeNil(txs[..n]);
      if |before| == n && txs[n].Some? then before + [txs[n].value] else before
  }

  lemma {:induction false} BeforeNilMeaning(txs: seq<Option<Transaction>>)
    ensures |BeforeNil(txs)| <= |txs|
    ensures forall i :: 0 <= i < |BeforeNil(txs)| ==> txs[i] == Some(BeforeNil(txs)[i])
    ensures |BeforeNil(txs)| < |txs| ==> txs[|BeforeNil(txs)|].None?
  {
    if txs != [] {
      BeforeNilMeaning(txs[..|txs| - 1]);
    }
  }

  lemma {:induction false} StopsAtNil(txs: seq<Option<Transaction>>, i: nat)
    requires i < |txs| && txs[i].None? && |BeforeNil(txs[..i])| == i
    ensures BeforeNil(txs) == BeforeNil(txs[..i])
  {
    var n := |txs| - 1;
    if i < n {
      assert txs[..n][..i] == txs[..i];
      StopsAtNil(txs[..n], i);
    }
  }

  /** Only known hashes occur more than once. */
  ghost predicate RepeatsOnlyKnown(known: set<Hash>, hashes: seq<Hash>) {
    forall i, j :: 0 <= i < j < |hashes| && hashes[i] == hashes[j] ==> hashes[i] in known
  }

  lemma RepeatsSnoc(known: set<Hash>, hashes: seq<Hash>, x: Hash)
    ensures RepeatsOnlyKnown(known, hashes + [x]) <==> RepeatsOnlyKnown(known, hashes) && (x in known || x !in hashes)
  {
    var all := hashes + [x];
    if RepeatsOnlyKnown(known, all) {
      forall i, j | 0 <= i < j < |hashes| && hashes[i] == hashes[j] ensures hashes[i] in known {
        assert all[i] == all[j];
      }
      if x in hashes {
        var i :| 0 <= i < |hashes| && hashes[i] == x;
        assert all[i] == all[|hashes|];
      }
    }
  }

  /** The unknown hashes are free of repetitions exactly when the batch repeats known ones only. */
  lemma {:induction false} UnknownRepeats(known: set<Hash>, hashes: seq<Hash>)
    ensures forall h :: h in Unknown(known, hashes) <==> h in hashes && h !in known
    ensures Distinct(Unknown(known, hashes)) <==> RepeatsOnlyKnown(known, hashes)
  {
    if hashes != [] {
      var n := |hashes| - 1;
      UnknownRepeats(known, hashes[..n]);
      assert hashes == hashes[..n] + [hashes[n]];
      RepeatsSnoc(known, hashes[..n], hashes[n]);
      DistinctSnoc(Unknown(known, hashes[..n]), hashes[n]);
      assert Unknown(known, hashes[..n]) + [] == Unknown(known, hashes[..n]);
    }
  }

  lemma DistinctSnoc<T>(s: seq<T>, x: T)
    ensures Distinct(s + [x]) <==> Distinct(s) && x !in s
  {
    if Distinct(s + [x]) {
      forall i, j | 0 <= i < j < |s| ensures s[i] != s[j] {
        assert (s + [x])[i] != (s + [x])[j];
      }
      forall i | 0 <= i < |s| ensures s[i] != x {
        assert (s + [x])[i] != (s + [x])[|s|];
      }
    }
  }
}
