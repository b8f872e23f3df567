/** The view database: its tables, and what each statement run against them does. */
module ViewDatabase {
  import opened Prelude
  import opened Chain
  import opened Tct

  datatype SpendableRow = SpendableRow(
    nullifier: Nullifier, position: Position, heightCreated: nat, source: Source, heightSpent: Option<nat>)

  datatype SwapRow = SwapRow(
    swap: Swap, position: Position, nullifier: Nullifier, outputData: OutputData, heightClaimed: Option<nat>,
    source: Source)

  datatype EpochRow = EpochRow(root: Option<Hash>, startHeight: Option<nat>)

  /** `syncHeight` is -1 before genesis. `notes` also holds advice about notes that were never scanned. */
  datatype Database = Database(
    notes: map<Commitment, Note>,
    spendable: map<Commitment, SpendableRow>,
    swaps: map<Commitment, SwapRow>,
    assets: map<AssetId, Denom>,
    txs: map<TxId, nat>,
    txByNullifier: map<Nullifier, TxId>,
    epochs: map<nat, EpochRow>,
    fmdParameters: Option<nat>,
    gasPrices: Option<nat>,
    syncHeight: int,
    sct: Tree)

  datatype NoteRecord = NoteRecord(
    note: Note, heightCreated: nat, nullifier: Nullifier, position: Position, source: Source)

  datatype SwapRecord = SwapRecord(
    swap: Swap, position: Position, nullifier: Nullifier, source: Source, outputData: OutputData)

  /** The outcome of scanning one block. */
  datatype FilteredBlock = FilteredBlock(
    newNotes: map<Commitment, NoteRecord>,
    newSwaps: map<Commitment, SwapRecord>,
    spentNullifiers: seq<Nullifier>,
    height: nat,
    fmdParameters: Option<nat>,
    gasPrices: Option<nat>)

  /** A freshly initialized database. */
  const INITIAL := Database(
    map[], map[], map[], map[], map[], map[], map[0 := EpochRow(None, Some(0))], None, None, -1, EMPTY)

  // ---------- Well-formed rows ----------

  /** Every row is keyed by the commitment of its contents and carries the nullifier of its position. */
  predicate RowsOk(db: Database) {
    && (forall c <- db.notes :: c == OfNote(db.notes[c]))
    && (forall c <- db.spendable ::
          c in db.notes && db.spendable[c].nullifier == Nullifier(db.spendable[c].position, c))
    && (forall c <- db.swaps ::
          c == OfSwap(db.swaps[c].swap) && db.swaps[c].nullifier == Nullifier(db.swaps[c].position, c))
  }

  predicate NoteRecordsOk(records: map<Commitment, NoteRecord>) {
    forall c <- records :: c == OfNote(records[c].note) && records[c].nullifier == Nullifier(records[c].position, c)
  }

  predicate SwapRecordsOk(records: map<Commitment, SwapRecord>) {
    forall c <- records :: c == OfSwap(records[c].swap) && records[c].nullifier == Nullifier(records[c].position, c)
  }

  predicate FilteredOk(fb: FilteredBlock) {
    NoteRecordsOk(fb.newNotes) && SwapRecordsOk(fb.newSwaps)
  }

  // ---------- Statements outside a block's transaction ----------

  function UpsertEpoch(db: Database, epoch: nat, root: Option<Hash>, start: Option<nat>): Database {
    var row := if epoch in db.epochs then db.epochs[epoch] else EpochRow(None, None);
    var row' := EpochRow(if root.Some? then root else row.root, if start.Some? then start else row.startHeight);
    db.(epochs := db.epochs[epoch := row'])
  }

  function UpsertNote(db: Database, note: Note): Database {
    db.(notes := db.notes[OfNote(note) := note])
  }

  function UpsertAsset(db: Database, asset: AssetId, denom: Denom): Database {
    db.(assets := db.assets[asset := denom])
  }

  /** Notes known by their contents but not yet seen on chain, among the given commitments. */
  function ScanAdvice(db: Database, cs: set<Commitment>): map<Commitment, Note> {
    map c | c in cs && c in db.notes && c !in db.spendable :: db.notes[c]
  }

  /** Advice given about a note is what the next scan of its commitment finds, unless the note was seen on chain, and
      changes nothing about any other. */
  lemma AdviceScanned(db: Database, note: Note, cs: set<Commitment>)
    requires RowsOk(db)
    ensures forall c :: c in ScanAdvice(db, cs) <==> c in cs && c in db.notes && c !in db.spendable
    ensures ScanAdvice(UpsertNote(db, note), cs)
            == if OfNote(note) in cs && OfNote(note) !in db.spendable then ScanAdvice(db, cs)[OfNote(note) := note]
               else ScanAdvice(db, cs)
  {
  }

  predicate KnownNullifier(db: Database, nf: Nullifier) {
    || (exists c <- db.spendable :: db.spendable[c].nullifier == nf)
    || (exists c <- db.swaps :: db.swaps[c].nullifier == nf)
    || nf in db.txByNullifier
  }

  /** The known nullifiers among the given ones, each once. */
  function FilterNullifiers(db: Database, nfs: seq<Nullifier>): (known: seq<Nullifier>)
    ensures forall nf :: nf in known <==> nf in nfs && KnownNullifier(db, nf)
    ensures Distinct(known)
  {
    if nfs == [] then []
    else
      var rest := FilterNullifiers(db, nfs[..|nfs| - 1]);
      var nf := nfs[|nfs| - 1];
      if KnownNullifier(db, nf) && nf !in rest then rest + [nf] else rest
  }

  /** The filter passes a nullifier exactly if it is a note's, a swap's or a recorded transaction's. */
  lemma FilteredExactly(db: Database, nfs: seq<Nullifier>, nf: Nullifier)
    ensures nf in FilterNullifiers(db, nfs) <==>
              nf in nfs && (|| (exists c :: c in db.spendable && db.spendable[c].nullifier == nf)
                            || (exists c :: c in db.swaps && db.swaps[c].nullifier == nf)
                            || nf in db.txByNullifier)
  {
  }

  // ---------- Statements of a block's transaction ----------

  function RowOf(r: NoteRecord, height: nat): SpendableRow {
    SpendableRow(r.nullifier, r.position, height, r.source, None)
  }

  function SwapRowOf(r: SwapRecord): SwapRow {
    SwapRow(r.swap, r.position, r.nullifier, r.outputData, None, r.source)
  }

  function NoteColumn(records: map<Commitment, NoteRecord>): map<Commitment, Note> {
    map c | c in records :: records[c].note
  }

  function RowColumn(records: map<Commitment, NoteRecord>, height: nat): map<Commitment, SpendableRow> {
    map c | c in records :: RowOf(records[c], height)
  }

  function SwapColumn(records: map<Commitment, SwapRecord>): map<Commitment, SwapRow> {
    map c | c in records :: SwapRowOf(records[c])
  }

  function RecordNotes(db: Database, records: map<Commitment, NoteRecord>, height: nat): Database {
    db.(notes := db.notes + NoteColumn(records), spendable := db.spendable + RowColumn(records, height))
  }

  function RecordSwaps(db: Database, records: map<Commitment, SwapRecord>): Database {
    db.(swaps := db.swaps + SwapColumn(records))
  }

  function SpendRows(rows: map<Commitment, SpendableRow>, nfs: set<Nullifier>, height: nat)
    : map<Commitment, SpendableRow>
  {
    map c | c in rows :: if rows[c].nullifier in nfs then rows[c].(heightSpent := Some(height)) else rows[c]
  }

  function ClaimRows(rows: map<Commitment, SwapRow>, nfs: set<Nullifier>, height: nat): map<Commitment, SwapRow> {
    map c | c in rows :: if rows[c].nullifier in nfs then rows[c].(heightClaimed := Some(height)) else rows[c]
  }

  function MarkSpent(db: Database, nfs: set<Nullifier>, height: nat): Database {
    db.(spendable := SpendRows(db.spendable, nfs, height), swaps := ClaimRows(db.swaps, nfs, height))
  }

  /** The note with this commitment is, as far as the asset table knows, of a delegation token. */
  predicate IsDelegation(db: Database, c: Commitment) {
    c in db.notes && db.notes[c].asset in db.assets && db.assets[db.notes[c].asset].DelegationToken?
  }

  /** The commitments that need no witness any more once these nullifiers are revealed. */
  function Forgotten(db: Database, nfs: set<Nullifier>): set<Commitment> {
    (set c | c in db.spendable && db.spendable[c].nullifier in nfs && !IsDelegation(db, c))
    + (set c | c in db.swaps && db.swaps[c].nullifier in nfs)
  }

  /** Insert-or-ignore: what is already recorded stays. */
  function AddNullifiers(m: map<Nullifier, TxId>, nfs: seq<Nullifier>, id: TxId): map<Nullifier, TxId> {
    (map nf | nf in nfs :: id) + m
  }

  function RecordTx(db: Database, tx: Tx, height: nat): Database {
    db.(txs := map[tx.id := height] + db.txs,
        txByNullifier := AddNullifiers(db.txByNullifier, tx.spentNullifiers, tx.id))
  }

  function RecordTxs(db: Database, txs: seq<Tx>, height: nat): Database {
    if txs == [] then db else RecordTx(RecordTxs(db, txs[..|txs| - 1], height), txs[|txs| - 1], height)
  }

  function RecordParameters(db: Database, fb: FilteredBlock): Database {
    db.(fmdParameters := if fb.fmdParameters.Some? then fb.fmdParameters else db.fmdParameters,
        gasPrices := if fb.gasPrices.Some? then fb.gasPrices else db.gasPrices,
        syncHeight := fb.height)
  }

  /** A block's new notes and swaps. */
  function Recorded(db: Database, fb: FilteredBlock): Database {
    RecordSwaps(RecordNotes(db, fb.newNotes, fb.height), fb.newSwaps)
  }

  /** A block's whole transaction, and the tree it leaves in the database and in memory. */
  function CommitBlock(db: Database, fb: FilteredBlock, txs: seq<Tx>, tree: Tree): (Database, Tree) {
    var recorded := Recorded(db, fb);
    var nfs := ToSet(fb.spentNullifiers);
    var tree' := ForgetSet(tree, Forgotten(recorded, nfs));
    var spent := MarkSpent(recorded, nfs, fb.height);
    (RecordParameters(RecordTxs(spent.(sct := tree'), txs, fb.height), fb), tree')
  }

  // ---------- Forgetting many commitments ----------

  function HideItem(t: Tree, cs: set<Commitment>, p: Position, item: Item): Item {
    if item.Kept? && item.commitment in cs && item.commitment in t.index && t.index[item.commitment] == p then
      Hashed(LeafHash(item.commitment))
    else
      item
  }

  function HideBlock(t: Tree, cs: set<Commitment>, e: nat, b: nat, block: Block): Block {
    if block.Bare? then block
    else
      block.(items := seq(|block.items|, i requires 0 <= i < |block.items| =>
                                           HideItem(t, cs, Position(e, b, i), block.items[i])))
  }

  function HideBlocks(t: Tree, cs: set<Commitment>, e: nat, blocks: seq<Block>): seq<Block> {
    seq(|blocks|, b requires 0 <= b < |blocks| => HideBlock(t, cs, e, b, blocks[b]))
  }

  /** Forget all of these commitments, in any order. */
  function ForgetSet(t: Tree, cs: set<Commitment>): Tree {
    Tree(t.index - cs,
         seq(|t.epochs|, e requires 0 <= e < |t.epochs| =>
                           t.epochs[e].(blocks := HideBlocks(t, cs, e, t.epochs[e].blocks))))
  }

  lemma ForgetNone(t: Tree)
    ensures ForgetSet(t, {}) == t
  {
    forall e | 0 <= e < |t.epochs| ensures HideBlocks(t, {}, e, t.epochs[e].blocks) == t.epochs[e].blocks {
      var blocks := t.epochs[e].blocks;
      forall b | 0 <= b < |blocks| ensures HideBlock(t, {}, e, b, blocks[b]) == blocks[b] {
        if blocks[b].Block? {
          assert HideBlock(t, {}, e, b, blocks[b]).items == blocks[b].items;
        }
      }
      assert HideBlocks(t, {}, e, blocks) == blocks;
    }
    assert ForgetSet(t, {}).epochs == t.epochs;
    assert t.index - {} == t.index;
  }

  lemma ForgetOneMore(t: Tree, cs: set<Commitment>, c: Commitment)
    ensures Forget(ForgetSet(t, cs), c) == ForgetSet(t, cs + {c})
  {
    var u, v := ForgetSet(t, cs), ForgetSet(t, cs + {c});
    if c !in u.index {
      assert c in cs || c !in t.index;
      assert u.index == v.index;
      forall e | 0 <= e < |t.epochs| ensures u.epochs[e] == v.epochs[e] {
        var blocks := t.epochs[e].blocks;
        forall b | 0 <= b < |blocks|
          ensures HideBlock(t, cs, e, b, blocks[b]) == HideBlock(t, cs + {c}, e, b, blocks[b])
        {
        }
        assert HideBlocks(t, cs, e, blocks) == HideBlocks(t, cs + {c}, e, blocks);
      }
      assert u.epochs == v.epochs;
    } else {
      var p := t.index[c];
      var w := Forget(u, c);
      assert w.index == v.index;
      forall e | 0 <= e < |t.epochs| ensures w.epochs[e] == v.epochs[e] {
        HideOneMore(t, cs, c, e);
      }
      assert w.epochs == v.epochs;
    }
  }

  lemma HideOneMore(t: Tree, cs: set<Commitment>, c: Commitment, e: nat)
    requires c in t.index && c !in cs && e < |t.epochs|
    ensures ForgetAt(ForgetSet(t, cs).epochs, t.index[c], c)[e] == ForgetSet(t, cs + {c}).epochs[e]
  {
    var p := t.index[c];
    var w := ForgetAt(ForgetSet(t, cs).epochs, p, c)[e].blocks;
    var blocks := t.epochs[e].blocks;
    forall b | 0 <= b < |blocks| ensures w[b] == HideBlock(t, cs + {c}, e, b, blocks[b]) {
      if blocks[b].Block? {
        assert w[b].items == HideBlock(t, cs + {c}, e, b, blocks[b]).items;
      }
    }
    assert w == HideBlocks(t, cs + {c}, e, blocks);
  }

  /** Forgetting a set of commitments leaves every other commitment in its place. */
  lemma ForgetSetHolds(t: Tree, cs: set<Commitment>)
    requires IndexOk(t)
    ensures IndexOk(ForgetSet(t, cs)) && ForgetSet(t, cs).index == t.index - cs
  {
    hide IndexOk;
    forall p, c ensures KeptAt(ForgetSet(t, cs).epochs, p, c) <==> c in t.index - cs && t.index[c] == p {
      LeavesIndexed(t, p, c);
      ForgetSetKeeps(t, cs, p, c);
    }
    IndexRight(ForgetSet(t, cs));
  }

  lemma ForgetSetKeeps(t: Tree, cs: set<Commitment>, p: Position, c: Commitment)
    ensures KeptAt(ForgetSet(t, cs).epochs, p, c)
            <==> KeptAt(t.epochs, p, c) && !(c in cs && c in t.index && t.index[c] == p)
  {
  }
}
