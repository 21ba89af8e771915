/** `BlockWrapper`: a block value together with the list of transaction wrappers built from
    it, and the operations that assemble, hash, sign, check and (de)serialize the block.
    Every operation returns a new wrapper; the parts it does not mention are left alone. */
module Blocks {
  import opened Wrappers
  import opened Protocol
  import opened Collaborators

  /** `TransactionWrapper`, reduced to the transaction it wraps. */
  datatype TransactionWrapper = TransactionWrapper(instance: Transaction)

  datatype BlockWrapper = BlockWrapper(block: Block, transactions: seq<TransactionWrapper>)

  datatype BadItemException = BadItemException(message: string)

  datatype ValidateSignatureException = ValidateSignatureException(message: string)

  const ParseFailureMessage: string := "Block proto data parse exception"

  /** The wrapper list has the block's transactions, wrapped, in the block's order. */
  predicate Mirrors(w: BlockWrapper) {
    && |w.transactions| == |w.block.transactions|
    && forall i :: 0 <= i < |w.transactions| ==> w.transactions[i].instance == w.block.transactions[i]
  }

  /** One wrapper per transaction, in list order. */
  function WrapAll(txs: seq<Transaction>): (r: seq<TransactionWrapper>)
    ensures |r| == |txs|
    ensures forall i :: 0 <= i < |r| ==> r[i].instance == txs[i]
  {
    if |txs| == 0 then [] else [TransactionWrapper(txs[0])] + WrapAll(txs[1..])
  }

  /** `initTxs`: rebuilds the wrapper list from the block's transaction list. */
  function InitTxs(block: Block): (w: BlockWrapper)
    ensures w.block == block
    ensures Mirrors(w)
  {
    BlockWrapper(block, WrapAll(block.transactions))
  }

  /** The header the `org.gsc.core.chain.BlockHeader` constructor builds from its four
      arguments: those raw fields set, no Merkle root and no witness signature yet. */
  function InitialHeader(timestamp: int64, parentHash: Hash, number: int64, producerAddress: seq<byte>): BlockHeader
  {
    BlockHeader(Raw(timestamp, [], parentHash, number, producerAddress), [])
  }

  /** The constructor from header fields and a transaction list. */
  function NewBlockWrapper(timestamp: int64, parentHash: Hash, number: int64, producerAddress: seq<byte>,
                           transactionList: seq<Transaction>): (w: BlockWrapper)
    ensures Mirrors(w)
    ensures w.block.transactions == transactionList
    ensures w.block.blockHeader.rawData.timestamp == timestamp
    ensures w.block.blockHeader.rawData.parentHash == parentHash
    ensures w.block.blockHeader.rawData.number == number
    ensures w.block.blockHeader.rawData.producerAddress == producerAddress
    ensures w.block.blockHeader.rawData.txTrieRoot == []
    ensures w.block.blockHeader.witnessSignature == []
  {
    InitTxs(Block(InitialHeader(timestamp, parentHash, number, producerAddress), transactionList))
  }

  /** The constructor from a `Block` value. */
  function FromBlock(block: Block): (w: BlockWrapper)
    ensures w.block == block
    ensures Mirrors(w)
  {
    InitTxs(block)
  }

  /** A wrapper mirrors its block exactly when it is the wrapper the `Block` constructor
      would build from that block: the list is determined by the block. */
  lemma MirrorsIffRebuilt(w: BlockWrapper)
    ensures Mirrors(w) <==> w == FromBlock(w.block)
  {
  }

  /** `addTransaction`: appends the transaction to the block and its wrapper to the list. */
  function AddTransaction(w: BlockWrapper, pending: TransactionWrapper): (r: BlockWrapper)
    ensures r.block.blockHeader == w.block.blockHeader
    ensures |r.block.transactions| == |w.block.transactions| + 1
    ensures r.block.transactions[..|w.block.transactions|] == w.block.transactions
    ensures r.block.transactions[|w.block.transactions|] == pending.instance
    ensures |r.transactions| == |w.transactions| + 1
    ensures r.transactions[..|w.transactions|] == w.transactions
    ensures r.transactions[|w.transactions|] == pending
  {
    BlockWrapper(
      w.block.(transactions := w.block.transactions + [pending.instance]),
      w.transactions + [pending])
  }

  /** Appending keeps the wrapper list in step with the block's list. */
  lemma AddTransactionPreservesMirrors(w: BlockWrapper, pending: TransactionWrapper)
    requires Mirrors(w)
    ensures Mirrors(AddTransaction(w, pending))
  {
  }

  /** The Merkle leaf of every transaction, in list order. */
  function LeafHashes(c: Collaborators, txs: seq<Transaction>): (ids: seq<Hash>)
    ensures |ids| == |txs|
    ensures forall i :: 0 <= i < |ids| ==> ids[i] == c.merkleHash(txs[i])
  {
    if |txs| == 0 then [] else [c.merkleHash(txs[0])] + LeafHashes(c, txs[1..])
  }

  /** `calcMerkleRoot`: the all-zero hash for an empty block, otherwise the Merkle root of
      the transactions' leaf hashes taken in list order. */
  function CalcMerkleRoot(c: Collaborators, w: BlockWrapper): (root: Hash)
    ensures |w.block.transactions| == 0 ==> root == ZeroHash
    ensures |w.block.transactions| > 0 ==>
      exists ids: seq<Hash> {:trigger c.merkleRoot(ids)} ::
        && root == c.merkleRoot(ids)
        && |ids| == |w.block.transactions|
        && forall i :: 0 <= i < |ids| ==> ids[i] == c.merkleHash(w.block.transactions[i])
  {
    var txs := w.block.transactions;
    if |txs| == 0 then ZeroHash else c.merkleRoot(LeafHashes(c, txs))
  }

  /** When the Merkle root of a non-empty leaf sequence is never all zero, the computed root
      is the all-zero hash exactly when the block has no transaction. */
  lemma CalcMerkleRootZeroIffEmpty(c: Collaborators, w: BlockWrapper)
    requires RootNeverZero(c)
    ensures CalcMerkleRoot(c, w) == ZeroHash <==> |w.block.transactions| == 0
  {
  }

  /** Appending a transaction appends its leaf and leaves the earlier leaves in place. */
  lemma LeafHashesAppend(c: Collaborators, txs: seq<Transaction>, t: Transaction)
    ensures LeafHashes(c, txs + [t]) == LeafHashes(c, txs) + [c.merkleHash(t)]
  {
  }

  /** After `addTransaction`, the computed root is the root of the old leaves followed by
      the new transaction's leaf. */
  lemma AddTransactionExtendsRoot(c: Collaborators, w: BlockWrapper, pending: TransactionWrapper)
    ensures CalcMerkleRoot(c, AddTransaction(w, pending))
      == c.merkleRoot(LeafHashes(c, w.block.transactions) + [c.merkleHash(pending.instance)])
  {
    LeafHashesAppend(c, w.block.transactions, pending.instance);
  }

  /** The header's Merkle root commits to the current transaction list, in order. */
  ghost predicate RootCommitted(c: Collaborators, w: BlockWrapper) {
    w.block.blockHeader.rawData.txTrieRoot == c.merkleRoot(LeafHashes(c, w.block.transactions))
  }

  /** `setMerkleRoot`: writes the Merkle root of the leaf hashes into `txTrieRoot`, with no
      special case for an empty list. */
  function SetMerkleRoot(c: Collaborators, w: BlockWrapper): (r: BlockWrapper)
    ensures RootCommitted(c, r)
    ensures r.block.blockHeader.rawData.timestamp == w.block.blockHeader.rawData.timestamp
    ensures r.block.blockHeader.rawData.parentHash == w.block.blockHeader.rawData.parentHash
    ensures r.block.blockHeader.rawData.number == w.block.blockHeader.rawData.number
    ensures r.block.blockHeader.rawData.producerAddress == w.block.blockHeader.rawData.producerAddress
    ensures r.block.blockHeader.witnessSignature == w.block.blockHeader.witnessSignature
    ensures r.block.transactions == w.block.transactions
    ensures r.transactions == w.transactions
  {
    var ids := LeafHashes(c, w.block.transactions);
    var raw := w.block.blockHeader.rawData.(txTrieRoot := c.merkleRoot(ids));
    w.(block := w.block.(blockHeader := w.block.blockHeader.(rawData := raw)))
  }

  /** For a non-empty block, the root `setMerkleRoot` stores is the one `calcMerkleRoot`
      returns. */
  lemma SetMerkleRootAgreesWithCalc(c: Collaborators, w: BlockWrapper)
    requires |w.block.transactions| > 0
    ensures SetMerkleRoot(c, w).block.blockHeader.rawData.txTrieRoot == CalcMerkleRoot(c, w)
  {
  }

  /** On an empty block the two roots agree exactly when the tree of no leaves has the
      all-zero root, which this model leaves open. */
  lemma SetMerkleRootOnEmpty(c: Collaborators, w: BlockWrapper)
    requires |w.block.transactions| == 0
    ensures SetMerkleRoot(c, w).block.blockHeader.rawData.txTrieRoot == CalcMerkleRoot(c, w)
      <==> c.merkleRoot([]) == ZeroHash
  {
    assert LeafHashes(c, w.block.transactions) == [];
  }

  /** Setting the root a second time changes nothing. */
  lemma SetMerkleRootIdempotent(c: Collaborators, w: BlockWrapper)
    ensures SetMerkleRoot(c, SetMerkleRoot(c, w)) == SetMerkleRoot(c, w)
  {
  }

  /** `getRawHash`: the SHA-256 of the encoded raw header, so the signature is not part of
      what it covers. */
  function RawHash(c: Collaborators, w: BlockWrapper): Hash {
    c.sha256(c.encodeRaw(w.block.blockHeader.rawData))
  }

  /** `sign`: signs the raw hash with the private key and stores the signature. */
  function Sign(c: Collaborators, w: BlockWrapper, privateKey: seq<byte>): (r: BlockWrapper)
    ensures r.block.blockHeader.rawData == w.block.blockHeader.rawData
    ensures r.block.blockHeader.witnessSignature == c.sign(privateKey, RawHash(c, w))
    ensures r.block.transactions == w.block.transactions
    ensures r.transactions == w.transactions
  {
    var sig := c.sign(privateKey, RawHash(c, w));
    w.(block := w.block.(blockHeader := w.block.blockHeader.(witnessSignature := sig)))
  }

  /** Signing never changes the payload it signs, nor the root commitment. */
  lemma SignKeepsRawHash(c: Collaborators, w: BlockWrapper, privateKey: seq<byte>)
    ensures RawHash(c, Sign(c, w, privateKey)) == RawHash(c, w)
    ensures RootCommitted(c, Sign(c, w, privateKey)) <==> RootCommitted(c, w)
    ensures CalcMerkleRoot(c, Sign(c, w, privateKey)) == CalcMerkleRoot(c, w)
  {
  }

  /** Re-signing with the same key gives the same block: the signed payload is unaffected by
      the signature already there. */
  lemma SignIdempotent(c: Collaborators, w: BlockWrapper, privateKey: seq<byte>)
    ensures Sign(c, Sign(c, w, privateKey), privateKey) == Sign(c, w, privateKey)
  {
  }

  /** `validateSignature`: recovers the signer's address from the raw hash and the witness
      signature and compares it byte for byte with the producer address; a recovery
      failure is raised as `ValidateSignatureException`, not answered with false. */
  function ValidateSignature(c: Collaborators, w: BlockWrapper): (r: Result<bool, ValidateSignatureException>)
    ensures r.Failure? <==> c.recover(RawHash(c, w), w.block.blockHeader.witnessSignature).Failure?
    ensures r.Failure? ==>
      r.error == ValidateSignatureException(c.recover(RawHash(c, w), w.block.blockHeader.witnessSignature).error)
    ensures r == Success(true) <==>
      c.recover(RawHash(c, w), w.block.blockHeader.witnessSignature)
        == Success(w.block.blockHeader.rawData.producerAddress)
  {
    match c.recover(RawHash(c, w), w.block.blockHeader.witnessSignature)
    case Failure(msg) => Failure(ValidateSignatureException(msg))
    case Success(address) => Success(address == w.block.blockHeader.rawData.producerAddress)
  }

  /** With a sound signature scheme, a block signed with a key validates exactly when its
      producer address is that key's address. */
  lemma {:induction false} SignThenValidate(c: Collaborators, w: BlockWrapper, privateKey: seq<byte>)
    requires SignatureSound(c)
    ensures ValidateSignature(c, Sign(c, w, privateKey))
      == Success(w.block.blockHeader.rawData.producerAddress == c.addressOf(privateKey))
  {
    SignKeepsRawHash(c, w, privateKey);
    assert c.recover(RawHash(c, w), c.sign(privateKey, RawHash(c, w))) == Success(c.addressOf(privateKey));
  }

  /** Appending a transaction after signing does not touch the header, so the signature
      check gives the same verdict as before: nothing invalidates the old signature. */
  lemma AddTransactionKeepsSignatureVerdict(c: Collaborators, w: BlockWrapper, pending: TransactionWrapper)
    ensures ValidateSignature(c, AddTransaction(w, pending)) == ValidateSignature(c, w)
    ensures RawHash(c, AddTransaction(w, pending)) == RawHash(c, w)
  {
  }

  /** `getData`: the protobuf encoding of the block. */
  function GetData(c: Collaborators, w: BlockWrapper): seq<byte> {
    c.encodeBlock(w.block)
  }

  /** The constructor from bytes: a parse failure becomes `BadItemException`. */
  function FromBytes(c: Collaborators, data: seq<byte>): (r: Result<BlockWrapper, BadItemException>)
    ensures r.Failure? <==> c.parseBlock(data).None?
    ensures r.Failure? ==> r.error == BadItemException(ParseFailureMessage)
    ensures r.Success? ==> c.parseBlock(data) == Some(r.value.block) && Mirrors(r.value)
  {
    match c.parseBlock(data)
    case None => Failure(BadItemException(ParseFailureMessage))
    case Some(block) => Success(InitTxs(block))
  }

  /** With a codec that round-trips, rebuilding a wrapper from its own bytes gives the same
      wrapper back, provided its list mirrors its block (as every constructor and
      `addTransaction` leave it). */
  lemma {:induction false} GetDataRoundTrip(c: Collaborators, w: BlockWrapper)
    requires CodecRoundTrip(c)
    requires Mirrors(w)
    ensures FromBytes(c, GetData(c, w)) == Success(w)
  {
    assert c.parseBlock(c.encodeBlock(w.block)) == Some(w.block);
    MirrorsIffRebuilt(w);
  }
}
