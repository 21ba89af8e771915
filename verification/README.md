# Block assembly and P2P error kinds of a GSC node, in Dafny

This project models two pieces of the GSC blockchain node:

- `BlockWrapper`. A block is a header (raw fields plus a witness signature) followed by an
  ordered transaction list. The wrapper keeps the block next to a list of transaction
  wrappers. It appends transactions, computes and stores the Merkle root of the
  transactions, signs the raw header hash, and checks the signature against the producer
  address. It also builds a block from, and turns it into, protobuf bytes.
- `P2pException` and its closed enumeration `TypeEnum`. Each kind has a fixed code and
  description and renders as `code, description`.

Each Java mutation is modelled as a pure function from the old wrapper to the new one.
"Nothing else changes" then becomes a statement about the fields of the result.

Modules:

- `Wrappers` (`wrappers.dfy`): `Option` and `Result`.
- `Protocol` (`protocol.dfy`): the protobuf messages `Block`, `BlockHeader`,
  `BlockHeader.raw` and `Transaction`, plus the 32-byte `Hash` and `ZeroHash`.
- `Collaborators` (`collaborators.dfy`): code the wrapper calls that is not part of this
  model. Each one is a total function that the caller passes in:
  - SHA-256;
  - `MerkleTree.createTree(...).getRoot().getHash()`;
  - `TransactionWrapper.getMerkleHash`;
  - protobuf encode and parse;
  - ECDSA sign, key-to-address and signature-to-address recovery.

  The facts the code relies on are ghost predicates over these functions. Lemmas take them
  as hypotheses:
  - `CodecRoundTrip`: parsing an encoded block gives the same block back.
  - `SignatureSound`: a signature recovers to the signing key's address.
  - `RootNeverZero`: a non-empty leaf list never has the all-zero root.
- `Blocks` (`block_wrapper.dfy`): the wrapper and its operations.
- `Decimal` (`decimal.dfy`): Java's decimal rendering of an `Integer`, and a parser that
  reads one back.
- `P2pErrors` (`p2p_exception.dfy`): `TypeEnum`, `P2pException` and `getType`.

`getRawHash` is defined in the superclass `org.gsc.core.chain.BlockHeader`, which is not
part of this model. Here it is SHA-256 of the encoded `BlockHeader.raw` of the current
block. So it never covers the witness signature.

## Behaviour worth knowing

- `addTransaction` leaves `txTrieRoot` and the witness signature unchanged. A block that
  gets a transaction appended after signing keeps its signature verdict
  (`Blocks.AddTransactionKeepsSignatureVerdict`).
- `sign` has no precondition. It signs whatever `txTrieRoot` the header holds, including
  none at all.
- `calcMerkleRoot` has an empty-list branch that returns `ZERO_HASH`. `setMerkleRoot` has no
  such branch and always stores `createTree(ids)`. The two are proved to agree on non-empty
  blocks (`Blocks.SetMerkleRootAgreesWithCalc`). On an empty block they agree exactly when
  the tree of no leaves has the zero root (`Blocks.SetMerkleRootOnEmpty`). What
  `createTree` returns for no leaves is not modelled.

## Model

| member | source | states |
|---|---|---|
| `Blocks.NewBlockWrapper` | src/main/java/org/gsc/core/wrapper/BlockWrapper.java:34-42 | the block holds exactly the given transaction list. The header carries the four given raw fields, with an empty root and an empty signature. The wrapper list mirrors the block's list |
| `Blocks.WrapAll` | src/main/java/org/gsc/core/wrapper/BlockWrapper.java:59-61 | one wrapper per transaction, same length, position i wraps transaction i |
| `Blocks.InitTxs` | src/main/java/org/gsc/core/wrapper/BlockWrapper.java:58-62 | the block is kept and the rebuilt wrapper list mirrors its transactions in order |
| `Blocks.FromBlock` | src/main/java/org/gsc/core/wrapper/BlockWrapper.java:119-123 | the given block is kept unchanged and the wrapper list mirrors it |
| `Blocks.MirrorsIffRebuilt` | src/main/java/org/gsc/core/wrapper/BlockWrapper.java:58-62 | a wrapper mirrors its block if and only if it equals the wrapper rebuilt from that block, so the block determines the list |
| `Blocks.AddTransaction` | src/main/java/org/gsc/core/wrapper/BlockWrapper.java:49-52 | the header is unchanged. Both lists grow by exactly one, earlier entries keep their positions, and the new entry is last |
| `Blocks.AddTransactionPreservesMirrors` | src/main/java/org/gsc/core/wrapper/BlockWrapper.java:49-52 | appending keeps the wrapper list in step with the block's list |
| `Blocks.LeafHashes` | src/main/java/org/gsc/core/wrapper/BlockWrapper.java:83-86 | the leaf list has one Merkle hash per transaction, in list order |
| `Blocks.LeafHashesAppend` | src/main/java/org/gsc/core/wrapper/BlockWrapper.java:105-108 | the leaves of a list with one more transaction are the old leaves followed by the new transaction's leaf |
| `Blocks.AddTransactionExtendsRoot` | src/main/java/org/gsc/core/wrapper/BlockWrapper.java:76-88 | after an append, the computed root is the Merkle root of the old leaves plus the new leaf |
| `Blocks.CalcMerkleRoot` | src/main/java/org/gsc/core/wrapper/BlockWrapper.java:76-89 | the result is `ZERO_HASH` for an empty block. Otherwise it is the Merkle root of a leaf list that holds each transaction's Merkle hash in list order |
| `Blocks.CalcMerkleRootZeroIffEmpty` | src/main/java/org/gsc/core/wrapper/BlockWrapper.java:79-81 | if no non-empty leaf list has the all-zero root, the result is `ZERO_HASH` exactly when the block is empty |
| `Blocks.SetMerkleRoot` | src/main/java/org/gsc/core/wrapper/BlockWrapper.java:102-117 | afterwards `txTrieRoot` commits to the transaction leaves in order. Every other raw field, the signature and both transaction lists are unchanged |
| `Blocks.SetMerkleRootAgreesWithCalc` | src/main/java/org/gsc/core/wrapper/BlockWrapper.java:103-113 | for a non-empty block, the stored root equals `calcMerkleRoot()` |
| `Blocks.SetMerkleRootOnEmpty` | src/main/java/org/gsc/core/wrapper/BlockWrapper.java:76-113 | on an empty block, the root `setMerkleRoot` stores equals `calcMerkleRoot()`'s `ZERO_HASH` if and only if the tree of no leaves has the zero root |
| `Blocks.SetMerkleRootIdempotent` | src/main/java/org/gsc/core/wrapper/BlockWrapper.java:110-116 | setting the root twice gives the same wrapper as setting it once |
| `Blocks.Sign` | src/main/java/org/gsc/core/wrapper/BlockWrapper.java:65-74 | only the witness signature changes. It becomes the key's signature over the raw hash, and the raw data and both transaction lists are unchanged |
| `Blocks.SignKeepsRawHash` | src/main/java/org/gsc/core/wrapper/BlockWrapper.java:65-74 | signing leaves three things unchanged: the raw hash it signs (`Blocks.RawHash`, the inherited `getRawHash()` called at lines 67 and 94), whether the root commits to the transactions, and the computed Merkle root |
| `Blocks.SignIdempotent` | src/main/java/org/gsc/core/wrapper/BlockWrapper.java:67-73 | signing again with the same key gives the same block, because the old signature is not part of the payload |
| `Blocks.ValidateSignature` | src/main/java/org/gsc/core/wrapper/BlockWrapper.java:91-100 | the result fails with `ValidateSignatureException` exactly when recovery fails, and the exception carries the recovery failure's message. It is true exactly when the recovered address equals the producer address byte for byte |
| `Blocks.SignThenValidate` | src/main/java/org/gsc/core/wrapper/BlockWrapper.java:91-99 | with a sound signature scheme, a block signed with a key validates as true if and only if its producer address is that key's address. Otherwise the result is false, not an exception |
| `Blocks.AddTransactionKeepsSignatureVerdict` | src/main/java/org/gsc/core/wrapper/BlockWrapper.java:49-52 | appending a transaction changes neither the raw hash nor the signature check's verdict |
| `Blocks.FromBytes` | src/main/java/org/gsc/core/wrapper/BlockWrapper.java:125-134 | the result fails with `BadItemException("Block proto data parse exception")` exactly when parsing fails. Otherwise it holds the parsed block with a mirroring wrapper list |
| `Blocks.GetDataRoundTrip` | src/main/java/org/gsc/core/wrapper/BlockWrapper.java:125-139 | if the codec round-trips, the bytes constructor applied to `getData()` (`Blocks.GetData`, lines 136-139) gives back the same wrapper, for every wrapper whose list mirrors its block |
| `Decimal.NatToString` | src/main/java/org/gsc/common/exception/P2pException.java:39 | a code renders as a non-empty string of decimal digits with no leading zero |
| `Decimal.IntToString` | src/main/java/org/gsc/common/exception/P2pException.java:39 | the rendering starts with a minus sign exactly when the value is negative |
| `Decimal.NatToStringValue` | src/main/java/org/gsc/common/exception/P2pException.java:39 | the digits rendered for n read back as n |
| `Decimal.IntToStringParses` | src/main/java/org/gsc/common/exception/P2pException.java:39 | a rendered integer followed by text that starts with a non-digit reads back as that integer and that text |
| `P2pErrors.Value` | src/main/java/org/gsc/common/exception/P2pException.java:17-31 | `getValue` (lines 29-31) over the code table (lines 17-19): every code is positive. The exact codes are pinned by the three per-kind lemmas below, and their distinctness by `P2pErrors.ValueInjective` |
| `P2pErrors.FromValue` | src/main/java/org/gsc/common/exception/P2pException.java:17-19 | a kind found from a code has that code |
| `P2pErrors.FromValueInvertsValue` | src/main/java/org/gsc/common/exception/P2pException.java:17-19 | every kind is found again from its code |
| `P2pErrors.ValueInjective` | src/main/java/org/gsc/common/exception/P2pException.java:17-19 | distinct kinds have distinct codes |
| `P2pErrors.ToString` | src/main/java/org/gsc/common/exception/P2pException.java:37-40 | the rendering is longer than the ", " separator. Its content is pinned by `P2pErrors.ToStringParses` (code, separator, description) and by the three per-kind lemmas (exact strings) |
| `P2pErrors.ToStringParses` | src/main/java/org/gsc/common/exception/P2pException.java:33-40 | a kind's rendering splits back into exactly its decimal code, ", ", and its description (`P2pErrors.Desc`, `getDesc` at lines 33-35) |
| `P2pErrors.NoSuchMessageToString` | src/main/java/org/gsc/common/exception/P2pException.java:17 | `NO_SUCH_MESSAGE` has code 1 and description "No such message" and renders as "1, No such message" |
| `P2pErrors.ParseMessageFailedToString` | src/main/java/org/gsc/common/exception/P2pException.java:18 | `PARSE_MESSAGE_FAILED` has code 2 and description "Parse message failed" and renders as "2, Parse message failed" |
| `P2pErrors.DefaultToString` | src/main/java/org/gsc/common/exception/P2pException.java:19 | `DEFAULT` has code 100 and description "default exception" and renders as "100, default exception" |
| `P2pErrors.GetTypeReturnsConstructed` | src/main/java/org/gsc/common/exception/P2pException.java:7-14 | `getType()` (`P2pErrors.GetType`, lines 12-14) returns the kind passed to the constructor, whatever the message |

## Left out

- SHA-256, ECDSA key handling, signing and address recovery, and the Base64 conversion of
  the signature are foreign cryptographic code. They are parameters. Two facts are assumed
  about them:
  - `SignatureSound` is a stated hypothesis, used only in `Blocks.SignThenValidate`.
  - Signing is deterministic. This is implicit, because signing is modelled as a function
    of key and hash. `Blocks.SignIdempotent` rests on it. A randomised ECDSA nonce would
    make a second signature differ from the first.

  A private key that `ECKey.fromPrivate` rejects is not modelled: `Sign` is total.
- The protobuf codec (`Block.parseFrom`, `toByteArray`, the builders) is a library.
  Encoding and parsing are parameters, and the only fact assumed is `CodecRoundTrip`.
  Truncated or padded input is rejected only if the parser rejects it.
- `MerkleTree.createTree` is not part of this model, including its odd-node pairing rule
  and what it does with an empty list. The root is a function of the ordered leaf list.
  `TransactionWrapper` is reduced to the transaction it wraps, and its `getMerkleHash` is
  a parameter.
- Blocks.CalcMerkleRootZeroIffEmpty: the "only if" direction needs the hypothesis
  `RootNeverZero`, because the root of a non-empty list is not otherwise known.
- The superclass `org.gsc.core.chain.BlockHeader` is not part of this model:
  - Blocks.NewBlockWrapper: assumes the superclass constructor's header carries the four
    given raw fields, an empty `txTrieRoot` and an empty signature.
  - `getRawHash` is taken over the block's current raw header. The superclass's own copy
    of the header, and whether it lags behind `setMerkleRoot`, is not modelled.
- The constructor without a transaction list (BlockWrapper.java:44-47) is not modelled.
  `block` is private to `BlockWrapper` (line 28) and has no initialiser. Nothing assigns
  it before `initTxs` reads it, so this constructor always fails with a
  NullPointerException.
- The `generatedByMyself` flag has no behaviour, and neither does `toString`, whose body
  is commented out and returns "".
- `getInstance` and `GscException`'s message handling are plain field accesses with nothing
  to prove.
- `getTransactions` returns the wrapper's own mutable list. `addTransaction` stores the
  caller's `TransactionWrapper` object, not a copy. Changes made through either are not
  modelled, because the model treats both as values. So `Mirrors` is proved only for the
  modelled operations.
- Java `long` fields are the `int64` newtype. The model does no arithmetic on them, so
  wrap-around cannot arise.
