/** What a full node serves: compact blocks, the transactions behind them, and asset metadata.
    Commitments and nullifiers are terms rather than numbers: two of them are equal exactly when they were
    computed from the same data, which is the collision freedom the protocol relies on. */
module Chain {
  import opened Prelude

  type AssetId = nat
  type Address = nat
  type TxId = nat
  type Validator = nat

  datatype TradingPair = TradingPair(asset1: AssetId, asset2: AssetId)

  datatype Swap = Swap(pair: TradingPair, claimAddress: Address, rseed: nat)

  /** A note's blinding seed: chosen by its sender, or derived from the swap it pays out. */
  datatype Rseed = Given(bytes: nat) | Derived(swap: Swap, output: nat)

  datatype Note = Note(asset: AssetId, amount: nat, address: Address, rseed: Rseed)

  /** Our share of a batch swap's output, one amount per asset of the pair. */
  datatype OutputData = OutputData(amount1: nat, amount2: nat)

  datatype Commitment = OfNote(note: Note) | OfSwap(swap: Swap) | Foreign(id: nat)

  datatype Position = Position(epoch: nat, block: nat, commitment: nat)

  /** The nullifier our key derives for a commitment at a position. */
  datatype Nullifier = Nullifier(position: Position, commitment: Commitment)

  datatype Source = Genesis | Transaction(id: Option<TxId>) | FundingStreamReward(epochIndex: nat)

  /** A state payload. `decrypted` is the outcome of trial decryption with our viewing key. */
  datatype Payload =
    | NotePayload(commitment: Commitment, source: Source, decryptedNote: Option<Note>)
    | SwapPayload(commitment: Commitment, source: Source, decryptedSwap: Option<Swap>)
    | RolledUp(commitment: Commitment, source: Source)
  {
    /** Trial decryption returns nothing unless the plaintext matches the payload's commitment. */
    predicate Valid() {
      match this
      case NotePayload(c, _, n) => n.Some? ==> c == OfNote(n.value)
      case SwapPayload(c, _, s) => s.Some? ==> c == OfSwap(s.value)
      case RolledUp(_, _) => true
    }
  }

  /** A tree hash is the term it was computed from, so equal terms are equal under every hash function. */
  datatype Hash =
    | Zero
    | One
    | LeafHash(commitment: Commitment)
    | BlockHash(items: seq<Hash>, finalized: bool)
    | EpochHash(blocks: seq<Hash>, finalized: bool)
    | TreeHash(epochs: seq<Hash>)

  datatype CompactBlock = CompactBlock(
    height: nat,
    payloads: seq<Payload>,
    nullifiers: seq<Nullifier>,
    blockRoot: Hash,
    epochRoot: Option<Hash>,
    epochIndex: nat,
    swapOutputs: map<TradingPair, OutputData>,
    fmdParameters: Option<nat>,
    proposalStarted: bool,
    appParametersUpdated: bool,
    gasPrices: Option<nat>,
    altGasPrices: seq<nat>)
  {
    predicate RequiresScanning() {
      || payloads != []
      || nullifiers != []
      || fmdParameters.Some?
      || proposalStarted
      || appParametersUpdated
      || gasPrices.Some?
      || altGasPrices != []
    }
  }

  datatype Tx = Tx(id: TxId, spentNullifiers: seq<Nullifier>, stateCommitments: seq<Commitment>)

  /** An asset's base denomination, told apart as far as the view database tells them apart. */
  datatype Denom =
    | DelegationToken(validator: Validator)
    | DelegationLike(text: nat)   // matches the SQL pattern for delegation tokens, but does not parse as one
    | OtherDenom(text: nat)

  /** The remote full node. Metadata is a fixed function of the asset. */
  datatype FullNode = FullNode(blocks: seq<CompactBlock>, transactions: seq<seq<Tx>>, metadata: map<AssetId, Denom>)

  function Commitments(ps: seq<Payload>): seq<Commitment> {
    seq(|ps|, i requires 0 <= i < |ps| => ps[i].commitment)
  }

  /** All commitments of the first n blocks. */
  function Seen(blocks: seq<CompactBlock>, n: nat): set<Commitment>
    requires n <= |blocks|
  {
    set i, c | 0 <= i < n && c in Commitments(blocks[i].payloads) :: c
  }
}
