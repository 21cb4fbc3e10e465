/** The plain records of the wallet: blocks and transactions as the wallet
    stores them, and the remote block data the node hands back. */
module Models {
  import opened Wrappers
  import opened Exceptions
  import opened Decimals
  import Units

  /** A block as the wallet remembers it: its number and the time it was
      mined (Unix seconds). Block numbers reported by a node are never
      negative. */
  datatype Block = Block(number: nat, timestamp: int)

  /** A transaction the wallet has recorded. `to` is `None` where the node
      reported no recipient (a contract creation). */
  datatype Transaction = Transaction(
    block: Block,
    txHash: string,
    from: string,
    to: Option<string>,
    amountInWei: int,
    feeInWei: int)

  /** The constructor of a record. Its parameters name the fee before the
      amount; each value lands in the field of its own role. */
  function NewTransaction(
    block: Block,
    transactionHash: string,
    from: string,
    to: Option<string>,
    feeInWei: int,
    amountInWei: int): (t: Transaction)
    ensures t.block == block && t.txHash == transactionHash
    ensures t.from == from && t.to == to
    ensures t.feeInWei == feeInWei && t.amountInWei == amountInWei
  {
    Transaction(block, transactionHash, from, to, amountInWei, feeInWei)
  }

  /** The amount in ether; converting it back gives the exact wei amount,
      and it fails exactly when the amount is outside the decimal range. */
  function AmountInEth(t: Transaction): (r: Result<Decimal, Exception>)
    ensures r.Success? <==> Abs(t.amountInWei) <= MaxMagnitude
    ensures r.Success? ==> Units.WeiOf(Value(r.value)) == t.amountInWei as real
    ensures r.Failure? ==> r.error == Overflow
  {
    Units.WeiOfEtherOf(t.amountInWei);
    Units.WeiToEth(t.amountInWei)
  }

  /** The fee in ether, with the same guarantees as `AmountInEth`. */
  function FeeInEth(t: Transaction): (r: Result<Decimal, Exception>)
    ensures r.Success? <==> Abs(t.feeInWei) <= MaxMagnitude
    ensures r.Success? ==> Units.WeiOf(Value(r.value)) == t.feeInWei as real
    ensures r.Failure? ==> r.error == Overflow
  {
    Units.WeiOfEtherOf(t.feeInWei);
    Units.WeiToEth(t.feeInWei)
  }

  /** A transaction inside a block returned by the node. Gas, gas price and
      value are hex quantities, never negative. */
  datatype RemoteTransaction = RemoteTransaction(
    transactionHash: string,
    from: string,
    to: Option<string>,
    blockNumber: nat,
    gas: nat,
    gasPrice: nat,
    value: nat)

  /** A block returned by the node, with its transactions in block order. */
  datatype BlockData = BlockData(
    number: nat,
    timestamp: int,
    transactions: seq<RemoteTransaction>)

  /** What the wallet writes to its file: the private key, the cursor and the
      known transactions. The address is derived from the key and the file
      name is not serialised. */
  datatype Snapshot = Snapshot(
    privateKeyHex: string,
    lastProcessedBlock: Block,
    knownTransactions: seq<Transaction>)
}
