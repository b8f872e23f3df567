/** When two databases lead to the same decisions: what a block's processing depends on, and what it does not. */
module Agreement {
  import opened Prelude
  import opened Chain
  import opened Tct
  import opened ViewDatabase
  import opened ViewStorage
  import opened Scanning
  import opened SyncWorker
  import opened IdealRun

  /** The databases differ at most in the tables written outside a block's transaction. */
  ghost predicate SameCore(db: Database, u: Database) {
    u == db.(notes := u.notes, epochs := u.epochs, assets := u.assets)
  }

  /** Asset rows are right, and every recorded note whose metadata can be had has its asset recorded. */
  ghost predicate AssetsOk(db: Database, metadata: map<AssetId, Denom>) {
    && (forall a <- db.assets :: a in metadata && db.assets[a] == metadata[a])
    && (forall c <- db.spendable :: c in db.notes && (db.notes[c].asset in metadata ==> db.notes[c].asset in db.assets))
  }

  /** The same, also for the notes about to be recorded. */
  ghost predicate AssetsReady(db: Database, records: map<Commitment, NoteRecord>, metadata: map<AssetId, Denom>) {
    && AssetsOk(db, metadata)
    && forall c <- records :: records[c].note.asset in metadata ==> records[c].note.asset in db.assets
  }

  // ---------- Planning ----------

  /** A plan is a function of the rows, the tree and which of the block's rolled-up commitments are known notes. */
  lemma PlanSame(db: Database, u: Database, tree: Tree, b: CompactBlock, all: seq<Tx>, metadata: map<AssetId, Denom>)
    requires SameCore(db, u) && RowsOk(db) && RowsOk(u)
    requires forall c <- RolledUpCommitments(b.payloads) :: c in db.notes <==> c in u.notes
    ensures var w, v := PlanBlock(db, tree, b, all, metadata), PlanBlock(u, tree, b, all, metadata);
            w.fb == v.fb && w.txs == v.txs && w.tree == v.tree && w.writes == v.writes
  {
    hide ScanPayloads, FetchSpec, FilterNullifiers, RolledUpCommitments, EpochWrites, AdviceWrites, KnownNullifier;
    AdviceSame(db, u, RolledUpCommitments(b.payloads));
    assert NoteAdvice(db, b.payloads) == NoteAdvice(u, b.payloads);
    FilterFrame(db, u, b.nullifiers);
  }

  lemma AdviceSame(db: Database, u: Database, cs: set<Commitment>)
    requires SameCore(db, u) && RowsOk(db) && RowsOk(u)
    requires forall c <- cs :: c in db.notes <==> c in u.notes
    ensures ScanAdvice(db, cs) == ScanAdvice(u, cs)
  {
    forall c | c in cs && c in db.notes ensures db.notes[c] == u.notes[c] {
      assert OfNote(db.notes[c]) == c == OfNote(u.notes[c]);
    }
  }

  /** Once a block's assets are looked up, every note of it has the asset row it can have. */
  lemma ReadyAssets(db: Database, fb: FilteredBlock, ws: seq<Write>, metadata: map<AssetId, Denom>)
    requires AssetsOk(db, metadata) && RowsOk(db)
    ensures AssetsReady(RecordAssets(ApplyAll(db, ws), NewAssets(db, fb, metadata), metadata), fb.newNotes, metadata)
  {
    var u := ApplyAll(db, ws);
    ApplyAllFrame(db, ws);
    AssetsAhead(db, u, metadata);
    AssetsMore(u, NewAssets(db, fb, metadata), metadata);
    hide ApplyAll, RowsOk, AssetsOk;
    forall c | c in fb.newNotes && fb.newNotes[c].note.asset in metadata
      ensures fb.newNotes[c].note.asset in db.assets || fb.newNotes[c].note.asset in NewAssets(db, fb, metadata)
    {
    }
  }

  lemma AssetsAhead(db: Database, u: Database, metadata: map<AssetId, Denom>)
    requires AssetsOk(db, metadata) && RowsOk(db) && RowsOk(u) && Ahead(db, u)
    ensures AssetsOk(u, metadata)
  {
    forall c | c in db.spendable ensures db.notes[c] == u.notes[c] {
      assert OfNote(db.notes[c]) == c == OfNote(u.notes[c]);
    }
    hide RowsOk;
  }

  lemma AssetsMore(db: Database, assets: set<AssetId>, metadata: map<AssetId, Denom>)
    requires AssetsOk(db, metadata) && assets <= metadata.Keys
    ensures AssetsOk(RecordAssets(db, assets, metadata), metadata)
    ensures RecordAssets(db, assets, metadata).assets.Keys == db.assets.Keys + assets
  {
  }

  // ---------- Committing ----------

  /** Recorded notes are of delegation tokens exactly when the metadata says so. */
  lemma DelegationKnown(db: Database, fb: FilteredBlock, metadata: map<AssetId, Denom>, c: Commitment)
    requires RowsOk(db) && FilteredOk(fb) && AssetsReady(db, fb.newNotes, metadata)
    ensures var recorded := Recorded(db, fb);
            c in recorded.spendable ==>
              && c in recorded.notes && c == OfNote(recorded.notes[c])
              && (IsDelegation(recorded, c) <==>
                  var asset := recorded.notes[c].asset;
                  asset in metadata && metadata[asset].DelegationToken?)
  {
  }

  /** What must be forgotten does not depend on the eagerly written tables. */
  lemma ForgottenSame(db: Database, u: Database, fb: FilteredBlock, metadata: map<AssetId, Denom>, nfs: set<Nullifier>)
    requires SameCore(db, u) && RowsOk(db) && RowsOk(u) && FilteredOk(fb)
    requires AssetsReady(db, fb.newNotes, metadata) && AssetsReady(u, fb.newNotes, metadata)
    ensures Forgotten(Recorded(db, fb), nfs)
            == Forgotten(Recorded(u, fb), nfs)
  {
    var r, v := Recorded(db, fb), Recorded(u, fb);
    RecordedSame(db, u, fb);
    hide Recorded, RowsOk, FilteredOk, AssetsReady, IsDelegation;
    forall c | c in r.spendable ensures IsDelegation(r, c) == IsDelegation(v, c) {
      DelegationKnown(db, fb, metadata, c);
      DelegationKnown(u, fb, metadata, c);
    }
    ForgottenBy(r, v, nfs);
  }

  lemma ForgottenBy(r: Database, v: Database, nfs: set<Nullifier>)
    requires r.spendable == v.spendable && r.swaps == v.swaps
    requires forall c <- r.spendable :: IsDelegation(r, c) == IsDelegation(v, c)
    ensures Forgotten(r, nfs) == Forgotten(v, nfs)
  {
    hide IsDelegation;
  }

  lemma RecordedSame(db: Database, u: Database, fb: FilteredBlock)
    requires SameCore(db, u)
    ensures SameCore(Recorded(db, fb), Recorded(u, fb))
  {
  }

  /** Committing the same block to databases with the same core leaves the same core and the same tree. */
  lemma CommitSame(db: Database, u: Database, fb: FilteredBlock, txs: seq<Tx>, tree: Tree,
                   metadata: map<AssetId, Denom>)
    requires SameCore(db, u) && RowsOk(db) && RowsOk(u) && FilteredOk(fb)
    requires AssetsReady(db, fb.newNotes, metadata) && AssetsReady(u, fb.newNotes, metadata)
    ensures var (after, tree') := CommitBlock(db, fb, txs, tree);
            var (uAfter, uTree) := CommitBlock(u, fb, txs, tree);
            && tree' == uTree && SameCore(after, uAfter)
            && after.syncHeight == fb.height && after.sct == tree'
  {
    hide RowsOk, FilteredOk, AssetsReady, Recorded, Forgotten, ForgetSet, SpendRows, ClaimRows, RecordTxs;
    var r, v := Recorded(db, fb), Recorded(u, fb);
    var nfs := ToSet(fb.spentNullifiers);
    RecordedSame(db, u, fb);
    ForgottenSame(db, u, fb, metadata, nfs);
    var tree' := ForgetSet(tree, Forgotten(r, nfs));
    RecordTxsSame(MarkSpent(r, nfs, fb.height).(sct := tree'), MarkSpent(v, nfs, fb.height).(sct := tree'),
                  txs, fb.height);
    RecordTxsFrame(MarkSpent(r, nfs, fb.height).(sct := tree'), txs, fb.height);
  }

  lemma {:induction false} RecordTxsSame(db: Database, u: Database, txs: seq<Tx>, height: nat)
    requires SameCore(db, u)
    ensures SameCore(RecordTxs(db, txs, height), RecordTxs(u, txs, height))
    decreases |txs|
  {
    if txs != [] { RecordTxsSame(db, u, txs[..|txs| - 1], height); }
  }

  /** The eagerly written tables after a block's commit. */
  lemma CommitEager(db: Database, fb: FilteredBlock, txs: seq<Tx>, tree: Tree)
    ensures var after := CommitBlock(db, fb, txs, tree).0;
            && after.notes == db.notes + NoteColumn(fb.newNotes)
            && after.assets == db.assets && after.epochs == db.epochs
            && after.spendable.Keys == db.spendable.Keys + fb.newNotes.Keys
            && after.swaps.Keys == db.swaps.Keys + fb.newSwaps.Keys
  {
    hide ForgetSet, Forgotten, RecordTxs, SpendRows, ClaimRows, NoteColumn, RowColumn, SwapColumn;
    var r := Recorded(db, fb);
    var nfs := ToSet(fb.spentNullifiers);
    RecordTxsFrame(MarkSpent(r, nfs, fb.height).(sct := ForgetSet(tree, Forgotten(r, nfs))), txs, fb.height);
    MarkedKeys(r, nfs, fb.height);
    ColumnKeys(fb);
    SwapColumnKeys(fb.newSwaps);
  }

  /** The note and swap rows after a block's commit. */
  lemma RowsAfter(db: Database, fb: FilteredBlock, txs: seq<Tx>, tree: Tree)
    ensures var after, r, nfs := CommitBlock(db, fb, txs, tree).0, Recorded(db, fb), ToSet(fb.spentNullifiers);
            && after.spendable == SpendRows(r.spendable, nfs, fb.height)
            && after.swaps == ClaimRows(r.swaps, nfs, fb.height)
  {
    var r, nfs := Recorded(db, fb), ToSet(fb.spentNullifiers);
    RecordTxsFrame(MarkSpent(r, nfs, fb.height).(sct := ForgetSet(tree, Forgotten(r, nfs))), txs, fb.height);
    hide Recorded, ForgetSet, Forgotten, RecordTxs, SpendRows, ClaimRows;
  }

  lemma MarkedKeys(db: Database, nfs: set<Nullifier>, height: nat)
    ensures SpendRows(db.spendable, nfs, height).Keys == db.spendable.Keys
    ensures ClaimRows(db.swaps, nfs, height).Keys == db.swaps.Keys
  {
  }

  lemma SwapColumnKeys(records: map<Commitment, SwapRecord>)
    ensures SwapColumn(records).Keys == records.Keys
  {
  }

  lemma CommitAssetsOk(db: Database, fb: FilteredBlock, txs: seq<Tx>, tree: Tree, metadata: map<AssetId, Denom>)
    requires AssetsReady(db, fb.newNotes, metadata)
    ensures AssetsOk(CommitBlock(db, fb, txs, tree).0, metadata)
  {
    CommitEager(db, fb, txs, tree);
    hide CommitBlock;
  }

  /** In the uninterrupted run, rows and asset rows are always in order. */
  lemma {:induction false} IdealOk(node: FullNode, n: nat)
    requires ChainOk(node) && n <= |node.blocks|
    ensures RowsOk(Ideal(node, n).db) && AssetsOk(Ideal(node, n).db, node.metadata)
  {
    hide Ideal, BlockOk, RowsOk, AssetsOk, AssetsReady, ApplyAll, CommitBlock, ProcessBlock, NewAssets, RecordAssets,
      ScanBlockSpec, FetchSpec, EpochWrites, AdviceWrites;
    if n == 0 {
      FreshOk(node);
    } else {
      var p, b := Ideal(node, n - 1), node.blocks[n - 1];
      IdealOk(node, n - 1);
      RootIsBlockRoot(node, n - 1);
      IdealNext(node, n - 1);
      ProcessRowsOk(p, b, Transactions(node, n - 1), node.metadata);
      if b.RequiresScanning() {
        var w := IdealPlan(node, n - 1);
        IdealScanned(node, n - 1);
        ReadyAssets(p.db, w.fb, w.writes, node.metadata);
        CommitAssetsOk(RecordAssets(ApplyAll(p.db, w.writes), w.assets, node.metadata), w.fb, w.txs, w.tree,
                       node.metadata);
      } else {
        IdealEmpty(node, n - 1);
        AssetsFrame(p.db, Ideal(node, n).db, node.metadata);
      }
    }
  }

  lemma AssetsFrame(db: Database, u: Database, metadata: map<AssetId, Denom>)
    requires AssetsOk(db, metadata) && u == db.(epochs := u.epochs)
    ensures AssetsOk(u, metadata)
  {
  }

  lemma FreshOk(node: FullNode)
    ensures Ideal(node, 0) == FRESH && RowsOk(INITIAL) && AssetsOk(INITIAL, node.metadata)
  {
  }
}
