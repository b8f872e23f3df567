/** What the rest of the view database says is what the chain says too: where rows come from, which transactions are
    recorded, and the parameters in force. */
module ChainRecords {
  import opened Prelude
  import opened Chain
  import opened Tct
  import opened ViewDatabase
  import opened ViewStorage
  import opened Scanning
  import opened SyncWorker
  import opened IdealRun
  import opened Agreement
  import opened Recovery
  import opened Witnessing
  import opened ScanTruth

  // ---------- Only our own notes and swaps ----------

  /** A note of ours: decrypted in one of the first n blocks, or paid out by a swap decrypted in one of them. */
  ghost predicate OurNote(node: FullNode, n: nat, c: Commitment)
    requires n <= |node.blocks|
  {
    exists k :: 0 <= k < n && OurNoteIn(node.blocks[k], c)
  }

  ghost predicate OurNoteIn(b: CompactBlock, c: Commitment) {
    || (exists note <- DecryptedNotes(b.payloads) :: c == OfNote(note))
    || exists swap <- DecryptedSwaps(b.payloads), note ::
         swap.pair in b.swapOutputs && PaysOut(swap, b.swapOutputs[swap.pair], note) && c == OfNote(note)
  }

  ghost predicate OurSwap(node: FullNode, n: nat, c: Commitment)
    requires n <= |node.blocks|
  {
    exists k :: 0 <= k < n && exists swap <- DecryptedSwaps(node.blocks[k].payloads) :: c == OfSwap(swap)
  }

  ghost predicate OnlyOurs(node: FullNode, db: Database, n: nat)
    requires n <= |node.blocks|
  {
    && (forall c <- db.notes :: OurNote(node, n, c))
    && (forall c <- db.swaps :: OurSwap(node, n, c))
  }

  // ---------- Sources ----------

  /** The source that the commitment's payload gives, or, if the payload names a transaction, the last transaction of
      the block that contains the commitment, if there is one. */
  ghost predicate SourceTrue(b: CompactBlock, txs: seq<Tx>, c: Commitment, source: Source) {
    exists p <- b.payloads :: p.commitment == c && PayloadSource(txs, p, source)
  }

  ghost predicate PayloadSource(txs: seq<Tx>, p: Payload, source: Source) {
    || SourceGiven(txs, p.commitment, p.source, source)
    || (!p.source.Transaction? && source == p.source)
  }

  ghost predicate SourcesTrue(node: FullNode, db: Database, n: nat)
    requires n <= |node.blocks|
  {
    && (forall c <- db.spendable ::
          var k := db.spendable[c].heightCreated;
          k < n && SourceTrue(node.blocks[k], Transactions(node, k), c, db.spendable[c].source))
    && (forall c <- db.swaps ::
          exists k :: 0 <= k < n && SourceTrue(node.blocks[k], Transactions(node, k), c, db.swaps[c].source))
  }

  // ---------- Transactions ----------

  /** The transaction is one of block k's. */
  predicate InBlock(node: FullNode, k: nat, tx: Tx) {
    tx in Transactions(node, k)
  }

  /** Recorded transactions and nullifiers are those of the block with the recorded height. */
  ghost predicate TxsTrue(node: FullNode, db: Database, n: nat) {
    && (forall id <- db.txs :: db.txs[id] < n && exists tx :: InBlock(node, db.txs[id], tx) && tx.id == id)
    && (forall nf <- db.txByNullifier ::
          exists k, tx ::
            0 <= k < n && InBlock(node, k, tx) && tx.id == db.txByNullifier[nf] && nf in tx.spentNullifiers)
  }

  /** The transaction, of block k, spends a note or claims a swap that has a row and was made before the block, or makes
      one that has a row. */
  ghost predicate Concerns(node: FullNode, db: Database, k: nat, tx: Tx)
    requires k < |node.blocks|
  {
    || (exists c :: c in Seen(node.blocks, k) && Spends(node.blocks[k], db, c, tx))
    || (exists p <- node.blocks[k].payloads :: Makes(db, p, tx))
  }

  predicate Spends(b: CompactBlock, db: Database, c: Commitment, tx: Tx) {
    || (c in db.spendable && db.spendable[c].nullifier in tx.spentNullifiers
        && db.spendable[c].nullifier in b.nullifiers)
    || (c in db.swaps && db.swaps[c].nullifier in tx.spentNullifiers && db.swaps[c].nullifier in b.nullifiers)
  }

  predicate Makes(db: Database, p: Payload, tx: Tx) {
    && p.source.Transaction? && p.commitment in tx.stateCommitments
    && (p.commitment in db.spendable || p.commitment in db.swaps)
  }

  predicate TxRecorded(db: Database, tx: Tx) {
    tx.id in db.txs && forall nf <- tx.spentNullifiers :: nf in db.txByNullifier
  }

  ghost predicate TxsComplete(node: FullNode, db: Database, n: nat)
    requires n <= |node.blocks|
  {
    forall k, tx :: 0 <= k < n && InBlock(node, k, tx) && Concerns(node, db, k, tx) ==> TxRecorded(db, tx)
  }

  // ---------- Parameters ----------

  /** The value that the last of the first n blocks to set it has set. */
  ghost predicate LastSet(blocks: seq<CompactBlock>, n: nat, field: CompactBlock -> Option<nat>, value: Option<nat>)
    requires n <= |blocks|
  {
    || (value.None? && forall k :: 0 <= k < n ==> field(blocks[k]).None?)
    || exists k :: 0 <= k < n && value.Some? && field(blocks[k]) == value
                   && forall l :: k < l < n ==> field(blocks[l]).None?
  }

  ghost predicate ParametersTrue(node: FullNode, db: Database, n: nat)
    requires n <= |node.blocks|
  {
    && LastSet(node.blocks, n, (b: CompactBlock) => b.fmdParameters, db.fmdParameters)
    && LastSet(node.blocks, n, (b: CompactBlock) => b.gasPrices, db.gasPrices)
  }

  lemma NextSet(blocks: seq<CompactBlock>, n: nat, field: CompactBlock -> Option<nat>, value: Option<nat>)
    requires n < |blocks| && LastSet(blocks, n, field, value)
    ensures LastSet(blocks, n + 1, field, if field(blocks[n]).Some? then field(blocks[n]) else value)
  {
    if field(blocks[n]).None? && value.Some? {
      var k :| 0 <= k < n && field(blocks[k]) == value && forall l :: k < l < n ==> field(blocks[l]).None?;
      assert k < n + 1;
    }
  }

  // ---------- What a plan says ----------

  ghost predicate Names(ps: seq<Payload>, c: Commitment, source: Source) {
    exists p <- ps :: p.commitment == c && p.source == source
  }

  lemma NamesMore(ps: seq<Payload>, p: Payload)
    ensures forall c, source :: Names(ps, c, source) ==> Names(ps + [p], c, source)
    ensures Names(ps + [p], p.commitment, p.source)
  {
    assert p in ps + [p] && forall q <- ps :: q in ps + [p];
  }

  ghost predicate ScanNamed(ps: seq<Payload>, s: Scan) {
    && (forall c <- s.newNotes :: Names(ps, c, s.newNotes[c].source))
    && (forall c <- s.newSwaps :: Names(ps, c, s.newSwaps[c].source))
  }

  lemma {:induction false} ScanSources(tree: Tree, ps: seq<Payload>, notes: map<Commitment, Note>,
                                       swaps: map<Commitment, Swap>, b: CompactBlock)
    ensures ScanNamed(ps, ScanPayloads(tree, ps, notes, swaps, b))
    decreases |ps|
  {
    hide ScanNamed, ScanPayload;
    if ps == [] {
      assert ScanNamed([], Scan(tree, map[], map[], [])) by { NoneNamed(tree); }
    } else {
      var init, last := ps[..|ps| - 1], ps[|ps| - 1];
      ScanSources(tree, init, notes, swaps, b);
      PayloadNamed(init, ScanPayloads(tree, init, notes, swaps, b), last, notes, swaps, b);
      assert ps == init + [last];
    }
  }

  lemma NoneNamed(tree: Tree)
    ensures ScanNamed([], Scan(tree, map[], map[], []))
  {
  }

  lemma PayloadNamed(ps: seq<Payload>, s: Scan, p: Payload, notes: map<Commitment, Note>, swaps: map<Commitment, Swap>,
                     b: CompactBlock)
    requires ScanNamed(ps, s)
    ensures ScanNamed(ps + [p], ScanPayload(s, p, notes, swaps, b))
  {
    hide Insert, NextPosition, OutputNotes, Names;
    NamesMore(ps, p);
    var s' := ScanPayload(s, p, notes, swaps, b);
    forall c | c in s'.newNotes ensures Names(ps + [p], c, s'.newNotes[c].source) {
      if c != p.commitment { assert Names(ps, c, s.newNotes[c].source); }
    }
    forall c | c in s'.newSwaps ensures Names(ps + [p], c, s'.newSwaps[c].source) {
      if c != p.commitment { assert Names(ps, c, s.newSwaps[c].source); }
    }
  }

  /** Every planned record has a true source. */
  lemma PlanSources(db: Database, tree: Tree, b: CompactBlock, all: seq<Tx>, metadata: map<AssetId, Denom>)
    requires b.RequiresScanning()
    ensures var fb := PlanBlock(db, tree, b, all, metadata).fb;
            && (forall c <- fb.newNotes :: SourceTrue(b, all, c, fb.newNotes[c].source))
            && (forall c <- fb.newSwaps :: SourceTrue(b, all, c, fb.newSwaps[c].source))
  {
    hide PlanBlock, ScanBlockSpec, ScanPayloads, FetchSpec, FilterNullifiers, NoteAdvice, SwapAdvice, Names,
      SourceTrue;
    PlannedRecords(db, tree, b, all, metadata);
    ScanSources(tree, b.payloads, NoteAdvice(db, b.payloads), SwapAdvice(b.payloads), b);
    FetchedSources(b, FilterBlock(db, ScanBlockSpec(db, tree, b), b), all);
  }

  ghost predicate RecordsNamed(ps: seq<Payload>, fb: FilteredBlock) {
    && (forall c <- fb.newNotes :: Names(ps, c, fb.newNotes[c].source))
    && (forall c <- fb.newSwaps :: Names(ps, c, fb.newSwaps[c].source))
  }

  lemma FetchedSources(b: CompactBlock, fb: FilteredBlock, txs: seq<Tx>)
    requires RecordsNamed(b.payloads, fb)
    ensures var fb' := FetchSpec(fb, txs).0;
            && (forall c <- fb'.newNotes :: SourceTrue(b, txs, c, fb'.newNotes[c].source))
            && (forall c <- fb'.newSwaps :: SourceTrue(b, txs, c, fb'.newSwaps[c].source))
  {
    hide SourceGiven, Rehydrate, RelevantTxs;
    RehydrateGives(fb, txs);
    var fb' := FetchSpec(fb, txs).0;
    forall c | c in fb'.newNotes ensures SourceTrue(b, txs, c, fb'.newNotes[c].source) {
      var p :| p in b.payloads && p.commitment == c && p.source == fb.newNotes[c].source;
      assert PayloadSource(txs, p, fb'.newNotes[c].source);
    }
    forall c | c in fb'.newSwaps ensures SourceTrue(b, txs, c, fb'.newSwaps[c].source) {
      var p :| p in b.payloads && p.commitment == c && p.source == fb.newSwaps[c].source;
      assert PayloadSource(txs, p, fb'.newSwaps[c].source);
    }
  }

  lemma {:induction false} RelevantIn(fb: FilteredBlock, txs: seq<Tx>, tx: Tx)
    ensures tx in RelevantTxs(fb, txs) <==> tx in txs && Relevant(fb, tx)
    decreases |txs|
  {
    hide Relevant;
    if txs != [] {
      RelevantIn(fb, txs[..|txs| - 1], tx);
      assert txs == txs[..|txs| - 1] + [txs[|txs| - 1]];
    }
  }

  /** The transaction spends a nullifier that the block reveals and the database knows, or makes a new record. */
  ghost predicate Matters(db: Database, b: CompactBlock, fb: FilteredBlock, tx: Tx) {
    || (exists nf <- tx.spentNullifiers :: nf in b.nullifiers && KnownNullifier(db, nf))
    || exists p <- b.payloads :: p.source.Transaction? && p.commitment in tx.stateCommitments
                                 && (p.commitment in fb.newNotes || p.commitment in fb.newSwaps)
  }

  lemma PlanTxs(db: Database, tree: Tree, b: CompactBlock, all: seq<Tx>, metadata: map<AssetId, Denom>)
    requires b.RequiresScanning() && Distinct(Commitments(b.payloads))
    ensures var w := PlanBlock(db, tree, b, all, metadata);
            && (forall tx <- w.txs :: tx in all)
            && (forall tx <- all :: Matters(db, b, w.fb, tx) ==> tx in w.txs)
  {
    hide PlanBlock, ScanBlockSpec, ScanPayloads, FetchSpec, NoteAdvice, SwapAdvice, Names, KnownNullifier,
      FilterNullifiers;
    var fb := FilterBlock(db, ScanBlockSpec(db, tree, b), b);
    PlannedRecords(db, tree, b, all, metadata);
    ScanSources(tree, b.payloads, NoteAdvice(db, b.payloads), SwapAdvice(b.payloads), b);
    FetchKeys(fb, all);
    PlannedTxs(db, tree, b, all, metadata);
    hide FilterBlock;
    FetchedTxs(db, b, fb, all);
    var w := PlanBlock(db, tree, b, all, metadata);
    forall tx | tx in all && Matters(db, b, w.fb, tx) ensures Matters(db, b, fb, tx) {
    }
  }

  lemma PlannedTxs(db: Database, tree: Tree, b: CompactBlock, all: seq<Tx>, metadata: map<AssetId, Denom>)
    requires b.RequiresScanning()
    ensures var fb := FilterBlock(db, ScanBlockSpec(db, tree, b), b);
            && PlanBlock(db, tree, b, all, metadata).txs == FetchSpec(fb, all).1
            && forall nf :: nf in fb.spentNullifiers <==> nf in b.nullifiers && KnownNullifier(db, nf)
  {
    hide ScanBlockSpec, FetchSpec, KnownNullifier, EpochWrites, AdviceWrites;
  }

  lemma FetchedTxs(db: Database, b: CompactBlock, fb: FilteredBlock, all: seq<Tx>)
    requires RecordsNamed(b.payloads, fb) && Distinct(Commitments(b.payloads))
    requires forall nf :: nf in fb.spentNullifiers <==> nf in b.nullifiers && KnownNullifier(db, nf)
    ensures forall tx <- FetchSpec(fb, all).1 :: tx in all
    ensures forall tx <- all :: Matters(db, b, fb, tx) ==> tx in FetchSpec(fb, all).1
  {
    hide Rehydrate, RelevantTxs, KnownNullifier, Commitments;
    forall tx ensures tx in RelevantTxs(fb, all) <==> tx in all && Relevant(fb, tx) {
      RelevantIn(fb, all, tx);
    }
    forall tx | tx in all && Matters(db, b, fb, tx)
      ensures Relevant(fb, tx) && (fb.spentNullifiers != [] || HasTxSources(fb))
    {
      if nf :| nf in tx.spentNullifiers && nf in b.nullifiers && KnownNullifier(db, nf) {
        assert nf in fb.spentNullifiers;
      } else {
        var p :| p in b.payloads && p.source.Transaction? && p.commitment in tx.stateCommitments
                 && (p.commitment in fb.newNotes || p.commitment in fb.newSwaps);
        assert Mentions(fb, tx);
        NamedSource(b.payloads, fb, p);
      }
    }
  }

  lemma NamedSource(ps: seq<Payload>, fb: FilteredBlock, p: Payload)
    requires RecordsNamed(ps, fb) && Distinct(Commitments(ps)) && p in ps
    ensures p.commitment in fb.newNotes ==> fb.newNotes[p.commitment].source == p.source
    ensures p.commitment in fb.newSwaps ==> fb.newSwaps[p.commitment].source == p.source
  {
    forall q | q in ps && q.commitment == p.commitment ensures q == p {
      var i :| 0 <= i < |ps| && ps[i] == p;
      var j :| 0 <= j < |ps| && ps[j] == q;
      assert Commitments(ps)[i] == Commitments(ps)[j];
    }
  }

  // ---------- What a commit says ----------

  /** Transactions and their nullifiers are added at the height, and what was recorded before stays. */
  lemma {:induction false} RecordTxsIn(db: Database, txs: seq<Tx>, height: nat)
    ensures var after := RecordTxs(db, txs, height);
            && (forall id :: id in after.txs <==> id in db.txs || exists tx <- txs :: tx.id == id)
            && (forall id <- after.txs :: after.txs[id] == if id in db.txs then db.txs[id] else height)
            && (forall nf :: nf in after.txByNullifier <==>
                  nf in db.txByNullifier || exists tx <- txs :: nf in tx.spentNullifiers)
            && (forall nf <- db.txByNullifier :: after.txByNullifier[nf] == db.txByNullifier[nf])
            && (forall nf <- after.txByNullifier :: nf in db.txByNullifier ||
                  exists tx <- txs :: nf in tx.spentNullifiers && tx.id == after.txByNullifier[nf])
    decreases |txs|
  {
    if txs != [] {
      var init, last := txs[..|txs| - 1], txs[|txs| - 1];
      RecordTxsIn(db, init, height);
      hide RecordTxs;
      assert txs == init + [last];
    }
  }

  lemma {:induction false} SameTxs(db: Database, u: Database, txs: seq<Tx>, height: nat)
    requires db.txs == u.txs && db.txByNullifier == u.txByNullifier
    ensures RecordTxs(db, txs, height).txs == RecordTxs(u, txs, height).txs
    ensures RecordTxs(db, txs, height).txByNullifier == RecordTxs(u, txs, height).txByNullifier
    decreases |txs|
  {
    if txs != [] { SameTxs(db, u, txs[..|txs| - 1], height); }
  }

  /** One commitment's rows after a block: the block's or those from before, but for being spent or claimed. */
  lemma CommitRow(db: Database, fb: FilteredBlock, txs: seq<Tx>, tree: Tree, c: Commitment)
    ensures var after := CommitBlock(db, fb, txs, tree).0;
            && (c in after.spendable <==> c in db.spendable || c in fb.newNotes)
            && (c in after.swaps <==> c in db.swaps || c in fb.newSwaps)
            && (c in after.spendable ==>
                  after.spendable[c] == (if c in fb.newNotes then RowOf(fb.newNotes[c], fb.height) else db.spendable[c])
                                        .(heightSpent := after.spendable[c].heightSpent))
            && (c in after.swaps ==>
                  after.swaps[c] == (if c in fb.newSwaps then SwapRowOf(fb.newSwaps[c]) else db.swaps[c])
                                    .(heightClaimed := after.swaps[c].heightClaimed))
  {
    var r, nfs := Recorded(db, fb), ToSet(fb.spentNullifiers);
    RowsAfter(db, fb, txs, tree);
    RecordedAt(db, fb, c);
    SpentRows(r.spendable, nfs, fb.height);
    ClaimedRows(r.swaps, nfs, fb.height);
    hide CommitBlock, Recorded, SpendRows, ClaimRows;
  }

  lemma CommitRest(db: Database, fb: FilteredBlock, txs: seq<Tx>, tree: Tree)
    ensures var after, recorded := CommitBlock(db, fb, txs, tree).0, RecordTxs(db, txs, fb.height);
            && after.txs == recorded.txs && after.txByNullifier == recorded.txByNullifier
            && after.fmdParameters == (if fb.fmdParameters.Some? then fb.fmdParameters else db.fmdParameters)
            && after.gasPrices == (if fb.gasPrices.Some? then fb.gasPrices else db.gasPrices)
  {
    hide RecordTxs, Recorded, MarkSpent, ForgetSet, Forgotten;
    var recorded, nfs := Recorded(db, fb), ToSet(fb.spentNullifiers);
    var spent := MarkSpent(recorded, nfs, fb.height).(sct := ForgetSet(tree, Forgotten(recorded, nfs)));
    assert spent.txs == db.txs && spent.txByNullifier == db.txByNullifier && spent.fmdParameters == db.fmdParameters
           && spent.gasPrices == db.gasPrices by { MarkedRest(db, fb, nfs); }
    SameTxs(spent, db, txs, fb.height);
    RecordTxsFrame(spent, txs, fb.height);
  }

  lemma MarkedRest(db: Database, fb: FilteredBlock, nfs: set<Nullifier>)
    ensures var spent := MarkSpent(Recorded(db, fb), nfs, fb.height);
            && spent.txs == db.txs && spent.txByNullifier == db.txByNullifier
            && spent.fmdParameters == db.fmdParameters && spent.gasPrices == db.gasPrices
  {
  }

  // ---------- One more block ----------

  ghost predicate RecordsTrue(node: FullNode, db: Database, n: nat)
    requires n <= |node.blocks|
  {
    && OnlyOurs(node, db, n) && SourcesTrue(node, db, n)
    && TxsTrue(node, db, n) && TxsComplete(node, db, n) && ParametersTrue(node, db, n)
  }

  lemma StepSources(node: FullNode, n: nat, ready: Database, w: Work, after: Database)
    requires n < |node.blocks| && SourcesTrue(node, ready, n) && w.fb.height == n
    requires after == CommitBlock(ready, w.fb, w.txs, w.tree).0
    requires forall c <- w.fb.newNotes ::
               SourceTrue(node.blocks[n], Transactions(node, n), c, w.fb.newNotes[c].source)
    requires forall c <- w.fb.newSwaps ::
               SourceTrue(node.blocks[n], Transactions(node, n), c, w.fb.newSwaps[c].source)
    ensures SourcesTrue(node, after, n + 1)
  {
    hide CommitBlock, SourceTrue;
    forall c
      ensures c in after.spendable ==>
                var k := after.spendable[c].heightCreated;
                k < n + 1 && SourceTrue(node.blocks[k], Transactions(node, k), c, after.spendable[c].source)
      ensures c in after.swaps ==>
                exists k :: 0 <= k < n + 1
                            && SourceTrue(node.blocks[k], Transactions(node, k), c, after.swaps[c].source)
    {
      CommitRow(ready, w.fb, w.txs, w.tree, c);
      if c in after.swaps && c !in w.fb.newSwaps {
        var k :| 0 <= k < n && SourceTrue(node.blocks[k], Transactions(node, k), c, ready.swaps[c].source);
        assert k < n + 1;
      }
    }
  }

  lemma StepTxs(node: FullNode, n: nat, ready: Database, w: Work, after: Database)
    requires n < |node.blocks| && TxsTrue(node, ready, n) && w.fb.height == n
    requires after == CommitBlock(ready, w.fb, w.txs, w.tree).0
    requires forall tx <- w.txs :: tx in Transactions(node, n)
    ensures TxsTrue(node, after, n + 1)
  {
    hide CommitBlock;
    CommitRest(ready, w.fb, w.txs, w.tree);
    RecordTxsIn(ready, w.txs, n);
    hide RecordTxs;
    forall id | id in after.txs
      ensures after.txs[id] < n + 1 && exists tx :: InBlock(node, after.txs[id], tx) && tx.id == id
    {
      if id !in ready.txs {
        var tx :| tx in w.txs && tx.id == id;
        assert InBlock(node, n, tx);
      }
    }
    forall nf | nf in after.txByNullifier
      ensures exists k, tx :: 0 <= k < n + 1 && InBlock(node, k, tx) && tx.id == after.txByNullifier[nf]
                              && nf in tx.spentNullifiers
    {
      if nf in ready.txByNullifier {
        var k, tx :| 0 <= k < n && InBlock(node, k, tx) && tx.id == ready.txByNullifier[nf] && nf in tx.spentNullifiers;
        assert k < n + 1;
      } else {
        var tx :| tx in w.txs && nf in tx.spentNullifiers && tx.id == after.txByNullifier[nf];
        assert InBlock(node, n, tx);
      }
    }
  }

  /** A transaction that concerns rows after the block concerned them before, or is the block's and matters to it. */
  lemma ConcernsBefore(node: FullNode, n: nat, ready: Database, w: Work, after: Database, k: nat, tx: Tx)
    requires k <= n < |node.blocks| && Concerns(node, after, k, tx)
    requires after == CommitBlock(ready, w.fb, w.txs, w.tree).0
    requires forall c :: c in w.fb.newNotes || c in w.fb.newSwaps ==> c !in Seen(node.blocks, n)
    requires k == n ==> forall c <- Commitments(node.blocks[n].payloads) :: c !in ready.spendable && c !in ready.swaps
    ensures k < n ==> Concerns(node, ready, k, tx)
    ensures k == n ==> Matters(ready, node.blocks[n], w.fb, tx)
  {
    hide CommitBlock, Seen;
    SeenBefore(node.blocks, k, n);
    if c :| c in Seen(node.blocks, k) && Spends(node.blocks[k], after, c, tx) {
      CommitRow(ready, w.fb, w.txs, w.tree, c);
      assert Spends(node.blocks[k], ready, c, tx);
      hide Commitments;
    } else {
      var p :| p in node.blocks[k].payloads && Makes(after, p, tx);
      CommitRow(ready, w.fb, w.txs, w.tree, p.commitment);
      InCommitments(node.blocks[k].payloads, p);
      hide Commitments;
      if k < n {
        assert p.commitment in Seen(node.blocks, n) by { SeenIn(node.blocks, k, n, p.commitment); }
        assert Makes(ready, p, tx);
      }
    }
  }

  lemma SeenBefore(blocks: seq<CompactBlock>, k: nat, n: nat)
    requires k <= n <= |blocks|
    ensures Seen(blocks, k) <= Seen(blocks, n)
  {
    forall c | c in Seen(blocks, k) ensures c in Seen(blocks, n) {
      var i :| 0 <= i < k && c in Commitments(blocks[i].payloads);
      assert i < n;
    }
  }

  lemma SeenIn(blocks: seq<CompactBlock>, k: nat, n: nat, c: Commitment)
    requires k < n <= |blocks| && c in Commitments(blocks[k].payloads)
    ensures c in Seen(blocks, n)
  {
  }

  lemma StepComplete(node: FullNode, n: nat, ready: Database, w: Work, after: Database)
    requires n < |node.blocks| && TxsComplete(node, ready, n) && w.fb.height == n
    requires after == CommitBlock(ready, w.fb, w.txs, w.tree).0
    requires forall c :: c in w.fb.newNotes || c in w.fb.newSwaps ==> c !in Seen(node.blocks, n)
    requires forall c <- Commitments(node.blocks[n].payloads) :: c !in ready.spendable && c !in ready.swaps
    requires forall tx <- Transactions(node, n) :: Matters(ready, node.blocks[n], w.fb, tx) ==> tx in w.txs
    ensures TxsComplete(node, after, n + 1)
  {
    hide CommitBlock, Seen, Concerns, Matters, Commitments;
    CommitRest(ready, w.fb, w.txs, w.tree);
    RecordTxsIn(ready, w.txs, n);
    hide RecordTxs;
    forall k, tx | 0 <= k < n + 1 && InBlock(node, k, tx) && Concerns(node, after, k, tx)
      ensures TxRecorded(after, tx)
    {
      ConcernsBefore(node, n, ready, w, after, k, tx);
      if k < n {
        assert TxRecorded(ready, tx);
      } else {
        assert tx in w.txs;
      }
    }
  }

  lemma StepParameters(node: FullNode, n: nat, ready: Database, w: Work, after: Database)
    requires n < |node.blocks| && ParametersTrue(node, ready, n)
    requires after == CommitBlock(ready, w.fb, w.txs, w.tree).0
    requires w.fb.fmdParameters == node.blocks[n].fmdParameters && w.fb.gasPrices == node.blocks[n].gasPrices
    ensures ParametersTrue(node, after, n + 1)
  {
    hide CommitBlock, LastSet, RecordTxs;
    CommitRest(ready, w.fb, w.txs, w.tree);
    NextSet(node.blocks, n, (b: CompactBlock) => b.fmdParameters, ready.fmdParameters);
    NextSet(node.blocks, n, (b: CompactBlock) => b.gasPrices, ready.gasPrices);
  }

  /** Advice and records of a planned block are of our own notes and swaps. */
  lemma PlanOurs(db: Database, tree: Tree, b: CompactBlock, all: seq<Tx>, metadata: map<AssetId, Denom>)
    requires b.RequiresScanning()
    ensures var w := PlanBlock(db, tree, b, all, metadata);
            && (forall c <- AdviceOf(w.writes) :: OurNoteIn(b, c))
            && (forall c <- w.fb.newNotes :: c in db.notes || OurNoteIn(b, c))
            && (forall c <- w.fb.newSwaps :: exists swap <- DecryptedSwaps(b.payloads) :: c == OfSwap(swap))
            && w.fb.fmdParameters == b.fmdParameters && w.fb.gasPrices == b.gasPrices && w.fb.height == b.height
  {
    hide PlanBlock, ScanBlockSpec, ScanPayloads, FetchSpec, FilterNullifiers, AdviceOf, EpochWrites;
    var notes, swaps := NoteAdvice(db, b.payloads), SwapAdvice(b.payloads);
    var w := PlanBlock(db, tree, b, all, metadata);
    PlannedRecords(db, tree, b, all, metadata);
    PlanFields(db, tree, b, all, metadata);
    ScanFaithful(tree, b.payloads, notes, swaps, b);
    FetchKeys(FilterBlock(db, ScanBlockSpec(db, tree, b), b), all);
    var advice := PlanWrites(db, tree, b, all, metadata);
    ScannedAdvice(db, tree, b);
    NoEpochAdvice(b);
    forall c | c in AdviceOf(w.writes) ensures OurNoteIn(b, c) {
      AdviceOfIff(w.writes, c);
      var x :| x in w.writes && x.AdviceWrite? && OfNote(x.note) == c;
      assert x.note in advice;
      AdviceOutputs(tree, b.payloads, notes, swaps, b, x.note);
      var d :| d in swaps && swaps[d].pair in b.swapOutputs && PaysOut(swaps[d], b.swapOutputs[swaps[d].pair], x.note);
    }
  }

  lemma PlanFields(db: Database, tree: Tree, b: CompactBlock, all: seq<Tx>, metadata: map<AssetId, Denom>)
    requires b.RequiresScanning()
    ensures var fb := PlanBlock(db, tree, b, all, metadata).fb;
            fb.fmdParameters == b.fmdParameters && fb.gasPrices == b.gasPrices && fb.height == b.height
  {
    hide ScanBlockSpec, FilterNullifiers, RelevantTxs, EpochWrites, AdviceWrites;
  }

  lemma ScannedAdvice(db: Database, tree: Tree, b: CompactBlock)
    ensures forall note <- ScanBlockSpec(db, tree, b).advice ::
              note in ScanPayloads(tree, b.payloads, NoteAdvice(db, b.payloads), SwapAdvice(b.payloads), b).advice
  {
    hide ScanPayloads, NoteAdvice, SwapAdvice;
  }

  lemma StepOurs(node: FullNode, n: nat, db: Database, w: Work, ready: Database, after: Database)
    requires n < |node.blocks| && OnlyOurs(node, db, n)
    requires ready.notes.Keys == db.notes.Keys + AdviceOf(w.writes) && ready.swaps == db.swaps
    requires after == CommitBlock(ready, w.fb, w.txs, w.tree).0
    requires forall c <- AdviceOf(w.writes) :: OurNoteIn(node.blocks[n], c)
    requires forall c <- w.fb.newNotes :: c in db.notes || OurNoteIn(node.blocks[n], c)
    requires forall c <- w.fb.newSwaps :: exists swap <- DecryptedSwaps(node.blocks[n].payloads) :: c == OfSwap(swap)
    ensures OnlyOurs(node, after, n + 1)
  {
    hide CommitBlock, OurNoteIn, DecryptedSwaps;
    CommitEager(ready, w.fb, w.txs, w.tree);
    ColumnKeys(w.fb);
    hide NoteColumn;
    OursLater(node, n, db);
    forall c | c in after.notes ensures OurNote(node, n + 1, c) {
      if c !in db.notes { assert OurNoteIn(node.blocks[n], c); }
    }
    forall c | c in after.swaps ensures OurSwap(node, n + 1, c) {
      if c !in db.swaps {
        var swap :| swap in DecryptedSwaps(node.blocks[n].payloads) && c == OfSwap(swap);
      }
    }
  }

  lemma OursLater(node: FullNode, n: nat, db: Database)
    requires n < |node.blocks| && OnlyOurs(node, db, n)
    ensures OnlyOurs(node, db, n + 1)
  {
    hide OurNoteIn, DecryptedSwaps;
    forall c | c in db.notes ensures OurNote(node, n + 1, c) {
      var k :| 0 <= k < n && OurNoteIn(node.blocks[k], c);
      assert k < n + 1;
    }
    forall c | c in db.swaps ensures OurSwap(node, n + 1, c) {
      var k :| 0 <= k < n && exists swap <- DecryptedSwaps(node.blocks[k].payloads) :: c == OfSwap(swap);
      assert k < n + 1;
    }
  }

  // ---------- Every run ----------

  lemma RecordsFrame(node: FullNode, db: Database, u: Database, n: nat)
    requires n <= |node.blocks| && SameCore(db, u)
    ensures SourcesTrue(node, db, n) ==> SourcesTrue(node, u, n)
    ensures TxsTrue(node, db, n) ==> TxsTrue(node, u, n)
    ensures TxsComplete(node, db, n) ==> TxsComplete(node, u, n)
    ensures ParametersTrue(node, db, n) ==> ParametersTrue(node, u, n)
  {
    hide SourceTrue, LastSet, Seen, InBlock;
    if TxsComplete(node, db, n) {
      forall k, tx | 0 <= k < n && InBlock(node, k, tx) && Concerns(node, u, k, tx) ensures TxRecorded(u, tx) {
        assert Concerns(node, db, k, tx) by {
          if c :| c in Seen(node.blocks, k) && Spends(node.blocks[k], u, c, tx) {
            assert Spends(node.blocks[k], db, c, tx);
          } else {
            var p :| p in node.blocks[k].payloads && Makes(u, p, tx);
            assert Makes(db, p, tx);
          }
        }
        assert TxRecorded(db, tx);
      }
    }
  }

  lemma SameKnown(db: Database, u: Database, b: CompactBlock, fb: FilteredBlock, tx: Tx)
    requires SameCore(db, u) && Matters(u, b, fb, tx)
    ensures Matters(db, b, fb, tx)
  {
  }

  lemma RowsSeen(node: FullNode, n: nat)
    requires ChainOk(node) && n <= |node.blocks|
    ensures forall c <- Ideal(node, n).db.spendable :: c in Seen(node.blocks, n)
    ensures forall c <- Ideal(node, n).db.swaps :: c in Seen(node.blocks, n)
  {
    hide Ideal, ChainOk, Complete, RevealedAt;
    IdealTrue(node, n);
    var db := Ideal(node, n).db;
    forall c | c in db.spendable ensures c in Seen(node.blocks, n) {
      assert NoteTrue(node, c, db.spendable[c], n);
      MadeIsSeen(node, c, db.spendable[c].heightCreated, n, db.spendable[c].position);
    }
    forall c | c in db.swaps ensures c in Seen(node.blocks, n) {
      assert SwapTrue(node, c, db.swaps[c], n);
      var k: nat :| MadeAt(node, c, k, n, db.swaps[c].position);
      MadeIsSeen(node, c, k, n, db.swaps[c].position);
    }
  }

  lemma MadeIsSeen(node: FullNode, c: Commitment, created: nat, n: nat, p: Position)
    requires n <= |node.blocks| && MadeAt(node, c, created, n, p)
    ensures c in Seen(node.blocks, n)
  {
    var i :| 0 <= i < |node.blocks[created].payloads| && node.blocks[created].payloads[i].commitment == c;
    assert Commitments(node.blocks[created].payloads)[i] == c;
    SeenIn(node.blocks, created, n, c);
  }

  lemma {:induction false} IdealRecords(node: FullNode, n: nat)
    requires ChainOk(node) && n <= |node.blocks|
    ensures RecordsTrue(node, Ideal(node, n).db, n)
  {
    hide Ideal, ChainOk, RecordsTrue;
    if n == 0 {
      assert Ideal(node, 0).db == INITIAL by { FreshOk(node); }
      FreshRecords(node);
    } else {
      IdealRecords(node, n - 1);
      if node.blocks[n - 1].RequiresScanning() {
        StepRecords(node, n - 1);
      } else {
        QuietRecords(node, n - 1);
      }
    }
  }

  lemma FreshRecords(node: FullNode)
    ensures RecordsTrue(node, INITIAL, 0)
  {
  }

  lemma StepRecords(node: FullNode, n: nat)
    requires ChainOk(node) && n < |node.blocks| && node.blocks[n].RequiresScanning()
    requires RecordsTrue(node, Ideal(node, n).db, n)
    ensures RecordsTrue(node, Ideal(node, n + 1).db, n + 1)
  {
    hide Ideal, ChainOk, OnlyOurs, SourcesTrue, TxsTrue, TxsComplete, ParametersTrue, PlanBlock, RecordAssets,
      ApplyAll, CommitBlock, Seen, SourceTrue, Matters, OurNoteIn, RowsOk, AssetsOk, Witnessable, NewIn;
    var p, w, b := Ideal(node, n), IdealPlan(node, n), node.blocks[n];
    var all := Transactions(node, n);
    var ready, after := RecordAssets(ApplyAll(p.db, w.writes), w.assets, node.metadata), Ideal(node, n + 1).db;
    IdealScanned(node, n);
    assert after == CommitBlock(ready, w.fb, w.txs, w.tree).0;
    ReadyFrame(p.db, w.writes, w.assets, node.metadata);
    AppliedNotes(p.db, w.writes);
    RootIsBlockRoot(node, n);
    BlockIsNew(node, n);
    RowsSeen(node, n);
    PlanOurs(p.db, p.tree, b, all, node.metadata);
    PlanSources(p.db, p.tree, b, all, node.metadata);
    PlanTxs(p.db, p.tree, b, all, node.metadata);
    RecordsFrame(node, p.db, ready, n);
    NewInSeen(node, n);
    forall tx | tx in all && Matters(ready, b, w.fb, tx) ensures Matters(p.db, b, w.fb, tx) {
      SameKnown(p.db, ready, b, w.fb, tx);
    }
    StepOurs(node, n, p.db, w, ready, after);
    StepSources(node, n, ready, w, after);
    StepTxs(node, n, ready, w, after);
    StepComplete(node, n, ready, w, after);
    StepParameters(node, n, ready, w, after);
  }

  /** A planned block's records are of its own commitments. */
  lemma NewInSeen(node: FullNode, n: nat)
    requires ChainOk(node) && n < |node.blocks| && node.blocks[n].RequiresScanning()
    ensures var fb := IdealPlan(node, n).fb;
            forall c :: c in fb.newNotes || c in fb.newSwaps ==> c !in Seen(node.blocks, n)
  {
    hide Ideal, ChainOk, IdealPlan, Seen, PlanTrue, FilteredOk;
    IdealPlanTrue(node, n);
    BlockIsNew(node, n);
  }

  lemma QuietRecords(node: FullNode, n: nat)
    requires ChainOk(node) && n < |node.blocks| && !node.blocks[n].RequiresScanning()
    requires RecordsTrue(node, Ideal(node, n).db, n)
    ensures RecordsTrue(node, Ideal(node, n + 1).db, n + 1)
  {
    hide Ideal, ChainOk, SourcesTrue, TxsTrue, TxsComplete, LastSet, OnlyOurs;
    var db, u, b := Ideal(node, n).db, Ideal(node, n + 1).db, node.blocks[n];
    IdealEmpty(node, n);
    RecordsFrame(node, db, u, n);
    NextSet(node.blocks, n, (b: CompactBlock) => b.fmdParameters, db.fmdParameters);
    NextSet(node.blocks, n, (b: CompactBlock) => b.gasPrices, db.gasPrices);
    QuietSources(node, n, u);
    QuietTxs(node, n, u);
    OursLater(node, n, db);
    SameOurs(node, n + 1, db, u);
  }

  lemma SameOurs(node: FullNode, n: nat, db: Database, u: Database)
    requires n <= |node.blocks| && OnlyOurs(node, db, n) && u.notes == db.notes && u.swaps == db.swaps
    ensures OnlyOurs(node, u, n)
  {
    hide OurNote, OurSwap;
  }

  lemma QuietSources(node: FullNode, n: nat, db: Database)
    requires n < |node.blocks| && SourcesTrue(node, db, n)
    ensures SourcesTrue(node, db, n + 1)
  {
    hide SourceTrue;
    forall c | c in db.swaps
      ensures exists k :: 0 <= k < n + 1 && SourceTrue(node.blocks[k], Transactions(node, k), c, db.swaps[c].source)
    {
      var k :| 0 <= k < n && SourceTrue(node.blocks[k], Transactions(node, k), c, db.swaps[c].source);
      assert k < n + 1;
    }
  }

  lemma QuietTxs(node: FullNode, n: nat, db: Database)
    requires n < |node.blocks| && !node.blocks[n].RequiresScanning()
    ensures TxsTrue(node, db, n) ==> TxsTrue(node, db, n + 1)
    ensures TxsComplete(node, db, n) ==> TxsComplete(node, db, n + 1)
  {
    hide Seen, InBlock;
    if TxsTrue(node, db, n) {
      forall nf | nf in db.txByNullifier
        ensures exists k, tx :: 0 <= k < n + 1 && InBlock(node, k, tx) && tx.id == db.txByNullifier[nf]
                                && nf in tx.spentNullifiers
      {
        var k, tx :| 0 <= k < n && InBlock(node, k, tx) && tx.id == db.txByNullifier[nf] && nf in tx.spentNullifiers;
        assert k < n + 1;
      }
    }
  }

  /** Whatever the crashes, between blocks: rows are of our own notes and swaps only and have their true sources,
      recorded transactions are the chain's, at their heights, every transaction that concerns a row is recorded, and
      the parameters are those last set. */
  lemma RunRecords(node: FullNode, run: seq<System>, i: nat)
    requires ChainOk(node) && Run(node, run) && i < |run| && run[i].Idle()
    ensures run[i].Next() <= |node.blocks|
    ensures var db, n := run[i].db, run[i].Next();
            && (forall c <- db.spendable :: OurNote(node, n, c)) && (forall c <- db.swaps :: OurSwap(node, n, c))
            && SourcesTrue(node, db, n) && TxsTrue(node, db, n) && TxsComplete(node, db, n)
            && ParametersTrue(node, db, n)
  {
    hide Ideal, ChainOk, Run, AssetsOk, SourcesTrue, TxsTrue, TxsComplete, ParametersTrue, OurNote, OurSwap;
    var n := run[i].Next();
    CrashRecovery(node, run, i);
    IdealRecords(node, n);
    IdealOk(node, n);
    SameCoreBack(run[i].db, Ideal(node, n).db);
    RecordsFrame(node, Ideal(node, n).db, run[i].db, n);
    NotesRecorded(Ideal(node, n).db);
    hide RowsOk;
  }
}
