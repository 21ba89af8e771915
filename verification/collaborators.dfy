/** The code the block wrapper calls but that is not part of this model: hashing, the
    Merkle tree, the transaction wrapper's leaf hash, the protobuf codec and the elliptic
    curve key operations. Each is a total function supplied by the caller; the few facts
    the wrapper relies on are predicates over them, taken as hypotheses where needed. */
module Collaborators {
  import opened Wrappers
  import opened Protocol

  datatype Collaborators = Collaborators(
    /** `Sha256Hash.of`. */
    sha256: seq<byte> -> Hash,
    /** `MerkleTree.getInstance().createTree(ids).getRoot().getHash()`. */
    merkleRoot: seq<Hash> -> Hash,
    /** `new TransactionWrapper(trx).getMerkleHash()`. */
    merkleHash: Transaction -> Hash,
    /** `BlockHeader.raw.toByteArray()`. */
    encodeRaw: Raw -> seq<byte>,
    /** `Block.toByteArray()`. */
    encodeBlock: Block -> seq<byte>,
    /** `Block.parseFrom(bytes)`; `None` stands for `InvalidProtocolBufferException`. */
    parseBlock: seq<byte> -> Option<Block>,
    /** `ECKey.fromPrivate(privateKey).sign(hash).toByteArray()`, arguments (key, hash). */
    sign: (seq<byte>, seq<byte>) -> seq<byte>,
    /** The address `ECKey.fromPrivate(privateKey)` stands for. */
    addressOf: seq<byte> -> seq<byte>,
    /** `ECKey.signatureToAddress(hash, getBase64FromByteString(signature))`, arguments
        (hash, signature); `Failure` carries the message of a `SignatureException`. */
    recover: (seq<byte>, seq<byte>) -> Result<seq<byte>, string>)

  /** Parsing the encoding of a block gives that block back. */
  ghost predicate CodecRoundTrip(c: Collaborators) {
    forall b: Block :: c.parseBlock(c.encodeBlock(b)) == Some(b)
  }

  /** A signature made with a key recovers, over the same hash, to that key's address. */
  ghost predicate SignatureSound(c: Collaborators) {
    forall key: seq<byte>, hash: seq<byte> ::
      c.recover(hash, c.sign(key, hash)) == Success(c.addressOf(key))
  }

  /** No non-empty leaf sequence has the all-zero digest as its Merkle root. */
  ghost predicate RootNeverZero(c: Collaborators) {
    forall leaves: seq<Hash> :: |leaves| > 0 ==> c.merkleRoot(leaves) != ZeroHash
  }
}
