/** Range responses of the snap protocol: the order check before a packet is forwarded,
    and the flattening of an accepted packet. */
module SnapRange {
  import opened Types
  import opened Words

  datatype AccountData = AccountData(hash: Hash, body: Bytes)
  datatype StorageData = StorageData(hash: Hash, body: Bytes)

  datatype Packet =
    | AccountRange(id: Uint64, accounts: seq<AccountData>, proof: seq<Bytes>)
    | StorageRanges(id: Uint64, slots: seq<seq<StorageData>>, proof: seq<Bytes>)
    | ByteCodes(id: Uint64, codes: seq<Bytes>)
    | TrieNodes(id: Uint64, nodes: seq<Bytes>)

  function AccountHashes(accounts: seq<AccountData>): seq<Hash> {
    seq(|accounts|, i requires 0 <= i < |accounts| => accounts[i].hash)
  }

  function SlotHashes(slots: seq<StorageData>): seq<Hash> {
    seq(|slots|, i requires 0 <= i < |slots| => slots[i].hash)
  }

  /** Every hash is larger, as a 256-bit number, than every hash before it. */
  ghost predicate Increasing(hs: seq<Hash>) {
    forall i, j :: 0 <= i < j < |hs| ==> BigEndian(hs[i]) < BigEndian(hs[j])
  }

  lemma IncreasingHasNoDuplicates(hs: seq<Hash>)
    requires Increasing(hs)
    ensures forall i, j :: 0 <= i < j < |hs| ==> hs[i] != hs[j]
  {
    forall i, j | 0 <= i < j < |hs| ensures hs[i] != hs[j] {
      assert BigEndian(hs[i]) < BigEndian(hs[j]);
    }
  }

  /** The adjacent-pair loop. It accepts exactly the globally increasing lists; otherwise it
      stops at the first position whose hash does not exceed its predecessor. */
  method FirstDisorder(hs: seq<Hash>) returns (bad: Option<nat>)
    ensures bad.None? <==> Increasing(hs)
    ensures bad.Some? ==>
              && 1 <= bad.value < |hs| && Increasing(hs[..bad.value])
              && BigEndian(hs[bad.value - 1]) >= BigEndian(hs[bad.value])
  {
    var i := 1;
    while i < |hs|
      invariant 1 <= i && (i <= |hs| || |hs| == 0)
      invariant Increasing(if i <= |hs| then hs[..i] else hs)
    {
      CompareIsNumeric(hs[i - 1], hs[i]);
      if Compare(hs[i - 1], hs[i]) >= 0 {
        return Some(i);
      }
      OneMore(hs, i);
      i := i + 1;
    }
    assert i == |hs| ==> hs[..i] == hs;
    bad := None;
  }

  lemma OneMore(hs: seq<Hash>, i: nat)
    requires 1 <= i < |hs| && Increasing(hs[..i]) && BigEndian(hs[i - 1]) < BigEndian(hs[i])
    ensures Increasing(hs[..i + 1])
  {
    var more, fewer := hs[..i + 1], hs[..i];
    forall a, b | 0 <= a < b < |more| ensures BigEndian(more[a]) < BigEndian(more[b]) {
      assert more[a] == fewer[a];
      if b < i {
        assert more[b] == fewer[b];
      } else if a < i - 1 {
        assert BigEndian(fewer[a]) < BigEndian(fewer[i - 1]);
      }
    }
  }

  /** The first account list, storage list or none that is out of order. */
  method FirstDisorderIn(lists: seq<seq<StorageData>>) returns (bad: Option<(nat, nat)>)
    ensures bad.None? <==> forall i :: 0 <= i < |lists| ==> Increasing(SlotHashes(lists[i]))
    ensures bad.Some? ==>
              && bad.value.0 < |lists| && !Increasing(SlotHashes(lists[bad.value.0]))
              && forall i :: 0 <= i < bad.value.0 ==> Increasing(SlotHashes(lists[i]))
  {
    for i := 0 to |lists|
      invariant forall k :: 0 <= k < i ==> Increasing(SlotHashes(lists[k]))
    {
      var at := FirstDisorder(SlotHashes(lists[i]));
      if at.Some? {
        return Some((i, at.value));
      }
    }
    bad := None;
  }

  // ----- HandleMessage -----

  const MAX_MESSAGE_SIZE := 10 * 1024 * 1024

  const ACCOUNT_RANGE_MSG := 0x01
  const STORAGE_RANGES_MSG := 0x03
  const BYTE_CODES_MSG := 0x05
  const TRIE_NODES_MSG := 0x07

  datatype Outcome =
    | Ignored
    | Forwarded(packet: Packet)
    | TooLarge
    | DecodeFailed
    | NotIncreasing
    | InvalidCode

  /** The ranges of a packet, if it carries any, are all in order. */
  ghost predicate InOrder(p: Packet) {
    match p
    case AccountRange(_, accounts, _) => Increasing(AccountHashes(accounts))
    case StorageRanges(_, slots, _) => forall i :: 0 <= i < |slots| ==> Increasing(SlotHashes(slots[i]))
    case _ => true
  }

  /** The packet type each response code decodes to. */
  predicate RightType(code: nat, p: Packet) {
    match p
    case AccountRange(_, _, _) => code == ACCOUNT_RANGE_MSG
    case StorageRanges(_, _, _) => code == STORAGE_RANGES_MSG
    case ByteCodes(_, _) => code == BYTE_CODES_MSG
    case TrieNodes(_, _) => code == TRIE_NODES_MSG
  }

  /** One message: requests are ignored, responses are decoded, checked and forwarded. The
      packet reaches the backend unchanged, and only if all its ranges are in order. */
  method HandleMessage(code: nat, size: nat, decoded: Option<Packet>) returns (r: Outcome)
    requires decoded.Some? ==> RightType(code, decoded.value)
    ensures r == (if size > 10 * 1024 * 1024 then TooLarge
                  else if code > 7 then InvalidCode
                  else if code % 2 == 0 then Ignored
                  else if decoded.None? then DecodeFailed
                  else if InOrder(decoded.value) then Forwarded(decoded.value)
                  else NotIncreasing)
  {
    if size > MAX_MESSAGE_SIZE {
      return TooLarge;
    }
    if code == 0 || code == 2 || code == 4 || code == 6 {
      return Ignored;
    } else if code == ACCOUNT_RANGE_MSG {
      if decoded.None? {
        return DecodeFailed;
      }
      var bad := FirstDisorder(AccountHashes(decoded.value.accounts));
      return if bad.Some? then NotIncreasing else Forwarded(decoded.value);
    } else if code == STORAGE_RANGES_MSG {
      if decoded.None? {
        return DecodeFailed;
      }
      var bad := FirstDisorderIn(decoded.value.slots);
      return if bad.Some? then NotIncreasing else Forwarded(decoded.value);
    } else if code == BYTE_CODES_MSG || code == TRIE_NODES_MSG {
      return if decoded.None? then DecodeFailed else Forwarded(decoded.value);
    }
    r := InvalidCode;
  }

  // ----- Unpack -----

  /** Accounts in consensus format, unless some body cannot be converted. Shape and order
      are kept, so an accepted packet unpacks to strictly increasing hashes. */
  method UnpackAccounts(accounts: seq<AccountData>, full: Bytes -> Option<Bytes>)
    returns (r: Option<(seq<Hash>, seq<Bytes>)>)
    ensures r.None? <==> exists i :: 0 <= i < |accounts| && full(accounts[i].body).None?
    ensures r.Some? ==>
              var (hashes, bodies) := r.value;
              && |hashes| == |bodies| == |accounts|
              && forall i :: 0 <= i < |accounts| ==>
                   hashes[i] == accounts[i].hash && Some(bodies[i]) == full(accounts[i].body)
    ensures r.Some? && Increasing(AccountHashes(accounts)) ==> Increasing(r.value.0)
  {
    var hashes := new Hash[|accounts|];
    var bodies := new Bytes[|accounts|];
    ghost var converted := seq(|accounts|, i requires 0 <= i < |accounts| => full(accounts[i].body));
    for i := 0 to |accounts|
      invariant forall k :: 0 <= k < i ==> hashes[k] == accounts[k].hash && Some(bodies[k]) == converted[k]
    {
      var val := full(accounts[i].body);
      assert converted[i] == val;
      if val.None? {
        return None;
      }
      hashes[i], bodies[i] := accounts[i].hash, val.value;
    }
    assert hashes[..] == AccountHashes(accounts);
    assert forall i :: 0 <= i < |accounts| ==> converted[i] == full(accounts[i].body);
    r := Some((hashes[..], bodies[..]));
  }

  /** Storage slots split into hashes and contents, list by list. */
  method UnpackStorage(slots: seq<seq<StorageData>>) returns (hashset: seq<seq<Hash>>, slotset: seq<seq<Bytes>>)
    ensures |hashset| == |slotset| == |slots|
    ensures forall i :: 0 <= i < |slots| ==>
              && hashset[i] == SlotHashes(slots[i]) && |slotset[i]| == |slots[i]|
              && forall j :: 0 <= j < |slots[i]| ==> slotset[i][j] == slots[i][j].body
    ensures (forall i :: 0 <= i < |slots| ==> Increasing(SlotHashes(slots[i])))
            ==> forall i :: 0 <= i < |hashset| ==> Increasing(hashset[i])
  {
    var outerHashes := new seq<Hash>[|slots|];
    var outerBodies := new seq<Bytes>[|slots|];
    for i := 0 to |slots|
      invariant forall k :: 0 <= k < i ==>
                  && outerHashes[k] == SlotHashes(slots[k]) && |outerBodies[k]| == |slots[k]|
                  && forall j :: 0 <= j < |slots[k]| ==> outerBodies[k][j] == slots[k][j].body
    {
      var hashes := new Hash[|slots[i]|];
      var bodies := new Bytes[|slots[i]|];
      for j := 0 to |slots[i]|
        modifies hashes, bodies
        invariant forall k :: 0 <= k < j ==> hashes[k] == slots[i][k].hash && bodies[k] == slots[i][k].body
      {
        hashes[j] := slots[i][j].hash;
        bodies[j] := slots[i][j].body;
      }
      assert hashes[..] == SlotHashes(slots[i]);
      outerHashes[i], outerBodies[i] := hashes[..], bodies[..];
    }
    hashset, slotset := outerHashes[..], outerBodies[..];
  }
}
