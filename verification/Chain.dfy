/** The chain the indexer watches: blocks, decoded logs, and how a node's view of
    the canonical chain may change between two calls. A block's number is its
    position in the sequence. */
module Chain {

  /** Addresses are lower-case hex text, as the indexer stores them. */
  type Address = string

  const ZERO_ADDR: Address := "0x0000000000000000000000000000000000000000"

  datatype Kind = Transfer | ChannelOpen | ChannelClose | Other

  datatype Key = Key(tx: string, index: nat)

  datatype Log = Log(key: Key, emitter: Address, kind: Kind, from: Address, to: Address, amount: nat)

  datatype Block = Block(hash: string, ts: nat, logs: seq<Log>)

  datatype Config = Config(
    basket: Address, aux: Address, range: Address, channels: Address, weth: Address,
    stables: seq<Address>, startBlock: nat, confirmations: nat, chunkSize: nat)

  /** A zero or empty address means "skip this asset". */
  predicate IsSet(a: Address) {
    a != "" && a != ZERO_ADDR
  }

  function Protocol(cfg: Config): set<Address> {
    set a | a in {cfg.basket, cfg.aux, cfg.range} && IsSet(a)
  }

  function SetAddresses(addresses: seq<Address>): seq<Address> {
    if addresses == [] then []
    else (if IsSet(addresses[0]) then [addresses[0]] else []) + SetAddresses(addresses[1..])
  }

  function WatchedTokens(cfg: Config): seq<Address> {
    SetAddresses(cfg.stables) + SetAddresses([cfg.weth])
  }

  /** What the product documentation says is indexed. */
  predicate Watched(cfg: Config, l: Log) {
    match l.kind
    case Transfer =>
      && IsSet(l.emitter) && (l.emitter in cfg.stables || l.emitter == cfg.weth)
      && (l.to in Protocol(cfg) || l.from in Protocol(cfg))
    case Other => false
    case _ => IsSet(l.emitter) && l.emitter == cfg.channels
  }

  predicate HasLog(c: seq<Block>, b: int, i: int) {
    0 <= b < |c| && 0 <= i < |c[b].logs|
  }

  /** Logs at two places have the same key only if it is the same place. */
  ghost predicate KeysApart(c: seq<Block>, b: int, i: int, b': int, i': int) {
    HasLog(c, b, i) && HasLog(c, b', i') && c[b].logs[i].key == c[b'].logs[i'].key ==> b == b' && i == i'
  }

  ghost predicate UniqueKeys(c: seq<Block>) {
    forall b, i, b', i' :: KeysApart(c, b, i, b', i')
  }

  ghost predicate Later(c: seq<Block>, i: int, j: int) {
    0 <= i < j < |c| ==> c[i].ts < c[j].ts
  }

  ghost predicate Wf(c: seq<Block>) {
    0 < |c| && (forall i, j :: Later(c, i, j)) && UniqueKeys(c)
  }

  /** The deepest block number the indexer treats as final when `c` is the chain. */
  function Final(cfg: Config, c: seq<Block>): (f: int)
    requires 0 < |c|
    ensures 0 <= f < |c|
  {
    if |c| - 1 - cfg.confirmations > 0 then |c| - 1 - cfg.confirmations else 0
  }

  /** One environment move: blocks are appended, or a reorganisation drops at most
      `confirmations` blocks, never genesis, and lands on a chain at least as long. */
  ghost predicate Evolves(cfg: Config, c: seq<Block>, c': seq<Block>)
    requires 0 < |c|
  {
    && Wf(c')
    && |c| <= |c'|
    && c[..Final(cfg, c) + 1] == c'[..Final(cfg, c) + 1]
  }

  /** A block that was final stays the same block, however the chain moves. */
  lemma FinalIsStable(cfg: Config, c: seq<Block>, c': seq<Block>, b: nat)
    requires 0 < |c| && Evolves(cfg, c, c') && b <= Final(cfg, c)
    ensures Final(cfg, c) <= Final(cfg, c') && b < |c'| && c'[b] == c[b]
    ensures c'[..b + 1] == c[..b + 1]
  {
    var f := Final(cfg, c) + 1;
    assert c[b] == c[..f][b] == c'[..f][b];
    assert c'[..b + 1] == c'[..f][..b + 1] == c[..f][..b + 1] == c[..b + 1];
  }
}
