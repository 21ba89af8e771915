/** The protobuf messages the block core works on (`Protocol.Block`, `Protocol.BlockHeader`,
    `BlockHeader.raw`, `Protocol.Transaction`), as immutable values. Only the fields the
    block wrapper reads or writes are modelled. */
module Protocol {

  newtype byte = x: int | 0 <= x < 256

  /** A protobuf `int64` (Java `long`). */
  newtype int64 = x: int | -0x8000_0000_0000_0000 <= x < 0x8000_0000_0000_0000

  const HashLength: nat := 32

  /** A `Sha256Hash`: exactly 32 bytes. */
  type Hash = s: seq<byte> | |s| == HashLength witness seq(32, i => 0)

  /** `Sha256Hash.ZERO_HASH`: 32 zero bytes. */
  const ZeroHash: Hash := seq(32, i => 0)

  /** A transaction, kept opaque: its serialized contents. */
  datatype Transaction = Transaction(contents: seq<byte>)

  /** `BlockHeader.raw`: every header field that the witness signature covers. Unset
      `bytes` fields read as the empty byte string, as in protobuf. */
  datatype Raw = Raw(
    timestamp: int64,
    txTrieRoot: seq<byte>,
    parentHash: seq<byte>,
    number: int64,
    producerAddress: seq<byte>)

  /** `BlockHeader`: the raw part plus the witness signature, which is outside it. */
  datatype BlockHeader = BlockHeader(rawData: Raw, witnessSignature: seq<byte>)

  /** `Block`: a header followed by the ordered transaction list. */
  datatype Block = Block(blockHeader: BlockHeader, transactions: seq<Transaction>)
}
