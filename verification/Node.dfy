/** Node assembly and message dispatch: which protocol versions run, which handler each
    message reaches, and when the challenge pool exists. */
module Node {
  import opened Types

  const ETH65 := 65
  const ETH66 := 66
  const ETH67 := 67

  const MAX_MESSAGE_SIZE := 10 * 1024 * 1024

  datatype PoolConfig = PoolConfig(cap: int, expire: int)

  datatype Versions = Versions(name: string, versions: seq<nat>, lengths: map<nat, Uint64>)

  // ----- The handler tables -----

  datatype Handler =
    | NoOp
    | NewBlockHashes | NewBlock | Transactions | NewPooledTransactionHashes
    | GetBlockHeaders | GetBlockHeaders66 | BlockHeaders | BlockHeaders66
    | GetBlockBodies66 | BlockBodies | BlockBodies66
    | GetNodeData66 | NodeData | NodeData66
    | GetReceipts66 | Receipts | Receipts66
    | GetPooledTransactions66 | PooledTransactions | PooledTransactions66

  const HANDLERS_63: map<nat, Handler> := map[
    0x01 := NoOp, 0x02 := Transactions, 0x03 := GetBlockHeaders, 0x04 := BlockHeaders,
    0x05 := NoOp, 0x06 := NoOp, 0x07 := NewBlock, 0x0d := NoOp, 0x0e := NoOp, 0x0f := NoOp, 0x10 := NoOp]

  const HANDLERS_65: map<nat, Handler> := map[
    0x03 := GetBlockHeaders66, 0x04 := BlockHeaders, 0x05 := GetBlockBodies66, 0x06 := BlockBodies,
    0x0d := GetNodeData66, 0x0e := NodeData, 0x0f := GetReceipts66, 0x10 := Receipts,
    0x01 := NewBlockHashes, 0x07 := NewBlock, 0x02 := Transactions, 0x08 := NewPooledTransactionHashes,
    0x09 := GetPooledTransactions66, 0x0a := PooledTransactions]

  const HANDLERS_66: map<nat, Handler> := map[
    0x01 := NewBlockHashes, 0x07 := NewBlock, 0x02 := Transactions, 0x08 := NewPooledTransactionHashes,
    0x03 := GetBlockHeaders66, 0x04 := BlockHeaders66, 0x05 := GetBlockBodies66, 0x06 := BlockBodies66,
    0x0d := GetNodeData66, 0x0e := NodeData66, 0x0f := GetReceipts66, 0x10 := Receipts66,
    0x09 := GetPooledTransactions66, 0x0a := PooledTransactions66]

  const HANDLERS_67: map<nat, Handler> := map[
    0x01 := NewBlockHashes, 0x07 := NewBlock, 0x02 := Transactions, 0x08 := NewPooledTransactionHashes,
    0x03 := GetBlockHeaders66, 0x04 := BlockHeaders66, 0x05 := GetBlockBodies66, 0x06 := BlockBodies66,
    0x0f := GetReceipts66, 0x10 := Receipts66,
    0x09 := GetPooledTransactions66, 0x0a := PooledTransactions66]

  /** The message codes of a version: 0x08 to 0x0a came with 65, node data left with 67. */
  predicate Understood(version: nat, code: nat) {
    || 0x01 <= code <= 0x07
    || (0x08 <= code <= 0x0a && version >= 65)
    || (0x0d <= code <= 0x0e && version < 67)
    || 0x0f <= code <= 0x10
  }

  datatype Dispatch = TooLarge | InvalidCode | To(handler: Handler)

  function TableOf(version: nat): map<nat, Handler> {
    if version >= ETH67 then HANDLERS_67
    else if version >= ETH66 then HANDLERS_66
    else if version >= ETH65 then HANDLERS_65
    else HANDLERS_63
  }

  lemma TablesHold(version: nat, code: nat)
    ensures code in TableOf(version) <==> Understood(version, code)
  {
    assert code in HANDLERS_63 <==> 0x01 <= code <= 0x07 || 0x0d <= code <= 0x10;
    assert code in HANDLERS_65 <==> 0x01 <= code <= 0x0a || 0x0d <= code <= 0x10;
    assert code in HANDLERS_66 <==> 0x01 <= code <= 0x0a || 0x0d <= code <= 0x10;
    assert code in HANDLERS_67 <==> 0x01 <= code <= 0x0a || 0x0f <= code <= 0x10;
  }

  /** Oversized messages are turned away first. Then, for each handler, exactly the versions
      and codes that reach it. A header query reaches the handler without a pool check only
      before version 65, and a header response can answer the node's own request, or clear
      remembered challenges, depending on the version. */
  method HandleMessage(version: nat, code: nat, size: nat) returns (r: Dispatch)
    ensures r == DispatchOf(version, code, size)
    ensures r == TooLarge <==> size > 10 * 1024 * 1024
    ensures r == To(GetBlockHeaders) <==> version < 65 && code == 0x03 && size <= 10 * 1024 * 1024
    ensures r == To(GetBlockHeaders66) <==> version >= 65 && code == 0x03 && size <= 10 * 1024 * 1024
    ensures r == To(BlockHeaders) <==> version < 66 && code == 0x04 && size <= 10 * 1024 * 1024
    ensures r == To(BlockHeaders66) <==> version >= 66 && code == 0x04 && size <= 10 * 1024 * 1024
    ensures r == To(Transactions) <==> code == 0x02 && size <= 10 * 1024 * 1024
    ensures r == To(NewPooledTransactionHashes) <==> version >= 65 && code == 0x08 && size <= 10 * 1024 * 1024
    ensures r == To(NoOp)
            <==> version < 65 && size <= 10 * 1024 * 1024
                 && (code == 0x01 || code == 0x05 || code == 0x06 || 0x0d <= code <= 0x10)
    ensures r == To(NewBlockHashes) <==> version >= 65 && code == 0x01 && size <= 10 * 1024 * 1024
    ensures r == To(NewBlock) <==> code == 0x07 && size <= 10 * 1024 * 1024
    ensures r == To(GetBlockBodies66) <==> version >= 65 && code == 0x05 && size <= 10 * 1024 * 1024
    ensures r == To(BlockBodies) <==> version == 65 && code == 0x06 && size <= 10 * 1024 * 1024
    ensures r == To(BlockBodies66) <==> version >= 66 && code == 0x06 && size <= 10 * 1024 * 1024
    ensures r == To(GetNodeData66) <==> 65 <= version < 67 && code == 0x0d && size <= 10 * 1024 * 1024
    ensures r == To(NodeData) <==> version == 65 && code == 0x0e && size <= 10 * 1024 * 1024
    ensures r == To(NodeData66) <==> version == 66 && code == 0x0e && size <= 10 * 1024 * 1024
    ensures r == To(GetReceipts66) <==> version >= 65 && code == 0x0f && size <= 10 * 1024 * 1024
    ensures r == To(Receipts) <==> version == 65 && code == 0x10 && size <= 10 * 1024 * 1024
    ensures r == To(Receipts66) <==> version >= 66 && code == 0x10 && size <= 10 * 1024 * 1024
    ensures r == To(GetPooledTransactions66) <==> version >= 65 && code == 0x09 && size <= 10 * 1024 * 1024
    ensures r == To(PooledTransactions) <==> version == 65 && code == 0x0a && size <= 10 * 1024 * 1024
    ensures r == To(PooledTransactions66) <==> version >= 66 && code == 0x0a && size <= 10 * 1024 * 1024
    ensures r == InvalidCode <==> size <= 10 * 1024 * 1024 && !Understood(version, code)
  {
    TablesHold(version, code);
    if size > MAX_MESSAGE_SIZE {
      return TooLarge;
    }
    var handlers := HANDLERS_63;
    if version >= ETH67 {
      handlers := HANDLERS_67;
    } else if version >= ETH66 {
      handlers := HANDLERS_66;
    } else if version >= ETH65 {
      handlers := HANDLERS_65;
    }
    r := if code in handlers then To(handlers[code]) else InvalidCode;
  }

  function DispatchOf(version: nat, code: nat, size: nat): Dispatch {
    if size > MAX_MESSAGE_SIZE then TooLarge
    else if code in TableOf(version) then To(TableOf(version)[code])
    else InvalidCode
  }

  /** The unguarded challenge handler is reached by exactly one kind of message, a header
      query, and only on versions before 65. */
  lemma OldQueriesOnly(version: nat, code: nat, size: nat)
    ensures DispatchOf(version, code, size) == To(GetBlockHeaders)
            <==> version < ETH65 && code == 0x03 && size <= MAX_MESSAGE_SIZE
    ensures DispatchOf(version, code, size) == To(GetBlockHeaders66)
            <==> version >= ETH65 && code == 0x03 && size <= MAX_MESSAGE_SIZE
  {
  }

  /** On version 65 the node asks for headers and waits for a dispatched response, but no
      message of that version is dispatched as one. */
  lemma SlowPathUnanswered(code: nat, size: nat)
    ensures DispatchOf(ETH65, 0x03, 0) == To(GetBlockHeaders66)
    ensures DispatchOf(ETH65, code, size) != To(BlockHeaders66)
  {
  }

  // ----- NewNode -----

  const DEFAULT_POOL := PoolConfig(100, 0)

  /** The challenge pool, if the node gets one. */
  method CreatePool(config: Option<PoolConfig>, versions: seq<nat>) returns (pool: Option<PoolConfig>)
    ensures config.Some? ==> pool == config
    ensures config.None? ==> pool == if exists v :: v in versions && v < 65 then Some(PoolConfig(100, 0)) else None
  {
    pool := config;
    if pool.None? {
      var hasOldProtocol := false;
      var i := 0;
      while i < |versions|
        invariant i <= |versions| && !hasOldProtocol
        invariant forall k :: 0 <= k < i ==> versions[k] >= ETH65
      {
        if versions[i] < ETH65 {
          assert versions[i] in versions;
          hasOldProtocol := true;
          break;
        }
        i := i + 1;
      }
      assert hasOldProtocol <==> exists v :: v in versions && v < ETH65;
      if hasOldProtocol {
        pool := Some(DEFAULT_POOL);
      }
    }
  }

  datatype Protocol = Protocol(name: string, version: nat, length: Uint64)

  /** One protocol per configured version, in order. */
  method MakeProtocols(config: Versions) returns (protocols: seq<Protocol>)
    ensures |protocols| == |config.versions|
    ensures forall i :: 0 <= i < |protocols| ==>
              var v := config.versions[i];
              protocols[i] == Protocol(if config.name == "" then "eth" else config.name, v,
                                       if v in config.lengths then config.lengths[v] else 0)
  {
    var name := config.name;
    if name == "" {
      name := "eth";
    }
    var made := new Protocol[|config.versions|](_ => Protocol("", 0, 0));
    for i := 0 to |config.versions|
      invariant forall k :: 0 <= k < i ==>
                  var v := config.versions[k];
                  made[k] == Protocol(name, v, if v in config.lengths then config.lengths[v] else 0)
    {
      var v := config.versions[i];
      made[i] := Protocol(name, v, if v in config.lengths then config.lengths[v] else 0);
    }
    protocols := made[..];
  }

  /** What the node was assembled with. */
  datatype Assembly = Assembly(pool: Option<PoolConfig>, protocols: seq<Protocol>)

  /** For every configuration: if some running protocol can reach the unguarded challenge
      handler, the pool exists. */
  method NewNode(config: Option<PoolConfig>, versions: Versions) returns (node: Assembly)
    ensures forall p, code, size :: p in node.protocols && DispatchOf(p.version, code, size) == To(GetBlockHeaders)
              ==> node.pool.Some?
    ensures config.Some? ==> node.pool == config
    ensures |node.protocols| == |versions.versions|
    ensures forall i :: 0 <= i < |node.protocols| ==> node.protocols[i].version == versions.versions[i]
    ensures node.pool.Some? && config.None? ==>
              exists p :: p in node.protocols && DispatchOf(p.version, 0x03, 0) == To(GetBlockHeaders)
  {
    var pool := CreatePool(config, versions.versions);
    var protocols := MakeProtocols(versions);
    node := Assembly(pool, protocols);
    forall p, code, size | p in protocols && DispatchOf(p.version, code, size) == To(GetBlockHeaders)
      ensures pool.Some?
    {
      OldQueriesOnly(p.version, code, size);
      var i :| 0 <= i < |protocols| && protocols[i] == p;
      assert versions.versions[i] in versions.versions;
    }
    if pool.Some? && config.None? {
      var v :| v in versions.versions && v < ETH65;
      var i :| 0 <= i < |versions.versions| && versions.versions[i] == v;
      OldQueriesOnly(v, 0x03, 0);
      assert protocols[i] in protocols && protocols[i].version == v;
    }
  }
}
