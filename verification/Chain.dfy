/** Blocks as the node delivers them, after JSON parsing. */
module Chain {
  import opened Wrappers

  const TWO32: nat := 0x1_0000_0000

  type U32 = n: nat | n < TWO32

  /** static_cast<uint32_t> of a container index. */
  function ToU32(n: nat): U32 {
    n % 0x1_0000_0000
  }

  datatype Prevout = Prevout(hash: string, n: U32)

  datatype Vout = Vout(value: nat, addr: string)

  datatype Utxo = Utxo(owner: seq<string>, prevouts: seq<Prevout>, vouts: seq<Vout>, assetType: string)

  /** A JSON member read with `contains` and then `get<std::string>`. */
  datatype JsonText = Absent | Text(text: string) | NotText

  /** The unsigned members of a proposal's txInfo; None where ReadUint64 reports failure. */
  datatype FlowInfo = FlowInfo(
    crossChainTxType: Option<nat>,
    endTime: Option<nat>,
    expirationDate: Option<nat>,
    minVoteNum: Option<nat>)

  /** The members of data.txInfo that the modelled code reads. */
  datatype TxInfo = TxInfo(
    unLockUtxo: JsonText, unstakeUtxo: JsonText, undelegatingUtxo: JsonText,
    recipient: string, input: string, sender: Option<string>, callType: string,
    flow: FlowInfo, proposalHash: string,
    voteHash: string, voteTxType: nat, voteType: nat, voteNumber: nat)

  /** `info` is None when `data` is empty or is not JSON. */
  datatype Transaction = Transaction(
    hash: string, identity: string, time: nat, ty: nat, utxos: seq<Utxo>, info: Option<TxInfo>)

  /** One EVM log of an execution result. */
  datatype Log = Log(topics: seq<string>, creator: string, data: string)

  /** `logs` maps a transaction hash to the log array of its execution result, when it has one. */
  datatype Block = Block(height: nat, time: nat, txs: seq<Transaction>, logs: map<string, seq<Log>>)

  function LogsOf(block: Block, tx: Transaction): seq<Log> {
    if tx.hash in block.logs then block.logs[tx.hash] else []
  }
}
