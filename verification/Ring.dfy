/** The bounded ring cache behind each bucket of the transaction pool: an array written
    at a moving head, with a map beside it for lookups. */
module Ring {
  import opened Types
  import opened Sequences

  datatype Entry<K, V> = Entry(key: K, value: V)

  predicate HasKey<K(==), V>(s: seq<Entry<K, V>>, k: K) {
    exists i :: 0 <= i < |s| && s[i].key == k
  }

  ghost predicate DistinctKeys<K, V>(s: seq<Entry<K, V>>) {
    forall i, j :: 0 <= i < j < |s| ==> s[i].key != s[j].key
  }

  /** What Set does to the contents, oldest entry first: a present key changes nothing,
      an absent one is appended and only the newest `cap` entries survive. */
  function Put<K(==), V>(s: seq<Entry<K, V>>, cap: nat, k: K, v: V): seq<Entry<K, V>> {
    if HasKey(s, k) then s else Last(s + [Entry(k, v)], cap)
  }

  lemma PutKeepsBounds<K(!new), V>(s: seq<Entry<K, V>>, cap: nat, k: K, v: V)
    requires DistinctKeys(s) && |s| <= cap
    ensures DistinctKeys(Put(s, cap, k, v)) && |Put(s, cap, k, v)| <= cap
  {
  }

  /** The lookup map holds exactly the entries of s. */
  ghost predicate Indexes<K(!new), V>(m: map<K, V>, s: seq<Entry<K, V>>) {
    && (forall i :: 0 <= i < |s| ==> s[i].key in m && m[s[i].key] == s[i].value)
    && (forall k :: k in m ==> HasKey(s, k))
  }

  lemma IndexFollowsPut<K(!new), V>(m: map<K, V>, s: seq<Entry<K, V>>, cap: nat, k: K, v: V)
    requires 1 <= cap && |s| <= cap && DistinctKeys(s) && Indexes(m, s) && !HasKey(s, k)
    ensures Indexes((if |s| == cap then m - {s[0].key} else m)[k := v], Put(s, cap, k, v))
  {
    if |s| == cap {
      IndexWithoutOldest(m, s);
      assert Put(s, cap, k, v) == s[1..] + [Entry(k, v)];
      assert !HasKey(s[1..], k) by {
        assert forall i :: 0 <= i < |s[1..]| ==> s[1..][i] == s[i + 1];
      }
      IndexOfNewest(m - {s[0].key}, s[1..], k, v);
    } else {
      IndexOfNewest(m, s, k, v);
    }
  }

  lemma IndexWithoutOldest<K(!new), V>(m: map<K, V>, s: seq<Entry<K, V>>)
    requires s != [] && DistinctKeys(s) && Indexes(m, s)
    ensures Indexes(m - {s[0].key}, s[1..])
  {
    forall x | x in m - {s[0].key} ensures HasKey(s[1..], x) {
      var i :| 0 <= i < |s| && s[i].key == x;
      assert s[1..][i - 1].key == x;
    }
  }

  lemma IndexOfNewest<K(!new), V>(m: map<K, V>, s: seq<Entry<K, V>>, k: K, v: V)
    requires Indexes(m, s) && !HasKey(s, k)
    ensures Indexes(m[k := v], s + [Entry(k, v)])
  {
    var s' := s + [Entry(k, v)];
    forall x | x in m[k := v] ensures HasKey(s', x) {
      if x == k {
        assert s'[|s|].key == x;
      } else {
        var i :| 0 <= i < |s| && s[i].key == x;
        assert s'[i].key == x;
      }
    }
  }

  /** Reading `count` cells of a circular buffer whose next write goes to `head`. */
  function Window<T>(cells: seq<T>, head: nat, count: nat): seq<T>
    requires head <= |cells| && count <= |cells|
  {
    if count < |cells| then cells[..count] else cells[head..] + cells[..head]
  }

  function Advance(head: nat, length: nat): nat {
    if head + 1 == length then 0 else head + 1
  }

  lemma WriteAppends<T>(cells: seq<T>, head: nat, count: nat, e: T)
    requires head < |cells| && count <= |cells| && (count < |cells| ==> head == count)
    ensures var count' := if count == |cells| then count else count + 1;
            Window(cells[head := e], Advance(head, |cells|), count')
            == Last(Window(cells, head, count) + [e], |cells|)
  {
    var w := Window(cells, head, count);
    if count == |cells| {
      assert Last(w + [e], |cells|) == w[1..] + [e];
      assert w[1..] == cells[head + 1..] + cells[..head];
    } else {
      assert Last(w + [e], |cells|) == w + [e];
    }
  }

  class RoundRobin<K(==, !new, 0), V(0)> {
    const slots: array<Entry<K, V>>
    var head: nat
    var count: nat
    var values: map<K, V>

    /** The entries, oldest first. */
    function Contents(): seq<Entry<K, V>>
      requires head <= slots.Length && count <= slots.Length
      reads this, slots
    {
      Window(slots[..], head, count)
    }

    ghost predicate Valid()
      reads this, slots
    {
      && 1 <= slots.Length
      && head < slots.Length
      && count <= slots.Length
      && (count < slots.Length ==> head == count)
      && DistinctKeys(Contents())
      && Indexes(values, Contents())
    }

    constructor (cap: nat)
      requires 1 <= cap
      ensures Valid() && fresh(slots)
      ensures slots.Length == cap && Contents() == []
    {
      slots := new Entry<K, V>[cap];
      head := 0;
      count := 0;
      values := map[];
    }

    function Get(k: K): (r: Option<V>)
      requires Valid()
      reads this, slots
      ensures r.Some? <==> HasKey(Contents(), k)
      ensures r.Some? ==> Entry(k, r.value) in Contents()
    {
      if k in values then Some(values[k]) else None
    }

    method Set(k: K, v: V) returns (isNew: bool)
      requires Valid()
      modifies this, slots
      ensures Valid()
      ensures isNew == !HasKey(old(Contents()), k)
      ensures Contents() == Put(old(Contents()), slots.Length, k, v)
    {
      ghost var c := Contents();
      isNew := Get(k).None?;
      if !isNew {
        return;
      }
      IndexFollowsPut(values, c, slots.Length, k, v);
      PutKeepsBounds(c, slots.Length, k, v);
      WriteAppends(slots[..], head, count, Entry(k, v));
      ghost var cells := slots[..];
      if count == slots.Length {
        assert c[0] == cells[head];
        values := values - {slots[head].key};
      } else {
        count := count + 1;
      }
      slots[head] := Entry(k, v);
      assert slots[..] == cells[head := Entry(k, v)];
      values := values[k := v];
      head := Advance(head, slots.Length);
    }
  }
}
