/** Everything that can still be spent, claimed or voted with can be witnessed, in every state between blocks. */
module Witnessing {
  import opened Prelude
  import opened Chain
  import opened Tct
  import opened ViewDatabase
  import opened ViewStorage
  import opened Scanning
  import opened SyncWorker
  import opened IdealRun
  import opened Agreement
  import opened Recovery

  /** "Is a delegation token" as a function of the asset alone. */
  predicate Votes(metadata: map<AssetId, Denom>, note: Note) {
    note.asset in metadata && metadata[note.asset].DelegationToken?
  }

  /** Unspent notes, delegation notes and unclaimed swaps are kept in the tree where their rows say. */
  ghost predicate Witnessable(db: Database, tree: Tree, metadata: map<AssetId, Denom>) {
    && IndexOk(tree)
    && (forall c <- db.spendable :: c in db.notes
          && (db.spendable[c].heightSpent.None? || Votes(metadata, db.notes[c])
              ==> Holds(tree, c, db.spendable[c].position)))
    && (forall c <- db.swaps :: db.swaps[c].heightClaimed.None? ==> Holds(tree, c, db.swaps[c].position))
  }

  // ---------- What a block's scan keeps ----------

  /** The records of one block, and the index of the tree they went into. */
  ghost predicate Indexed(before: Tree, after: Tree, newNotes: map<Commitment, NoteRecord>,
                          newSwaps: map<Commitment, SwapRecord>, cs: set<Commitment>) {
    && IndexOk(after)
    && before.index.Keys <= after.index.Keys <= before.index.Keys + cs
    && (forall c <- before.index :: after.index[c] == before.index[c])
    && (forall c <- newNotes :: c in cs && c in after.index && after.index[c] == newNotes[c].position)
    && (forall c <- newSwaps :: c in cs && c in after.index && after.index[c] == newSwaps[c].position)
  }

  /** Inserting one more commitment, kept or not. */
  lemma IndexedMore(before: Tree, t: Tree, newNotes: map<Commitment, NoteRecord>, newSwaps: map<Commitment, SwapRecord>,
                    cs: set<Commitment>, keep: bool, c: Commitment)
    requires Indexed(before, t, newNotes, newSwaps, cs) && c !in before.index && c !in cs
    ensures Indexed(before, Insert(t, keep, c), newNotes, newSwaps, cs + {c})
    ensures keep ==> c in Insert(t, keep, c).index && Insert(t, keep, c).index[c] == NextPosition(t.epochs)
  {
    hide IndexOk, Insert, Holds, NextPosition;
    InsertHolds(t, keep, c);
  }

  lemma {:induction false} ScanIndexed(tree: Tree, ps: seq<Payload>, notes: map<Commitment, Note>,
                                       swaps: map<Commitment, Swap>, b: CompactBlock)
    requires IndexOk(tree) && Distinct(Commitments(ps))
    requires forall c <- Commitments(ps) :: c !in tree.index
    ensures var s := ScanPayloads(tree, ps, notes, swaps, b);
            Indexed(tree, s.tree, s.newNotes, s.newSwaps, ToSet(Commitments(ps)))
    decreases |ps|
  {
    hide IndexOk, Insert, ScanPayload, Indexed;
    if ps == [] {
      NothingIndexed(tree);
      assert ToSet(Commitments(ps)) == {};
    } else {
      var init, p := ps[..|ps| - 1], ps[|ps| - 1];
      assert Commitments(ps) == Commitments(init) + [p.commitment];
      assert ToSet(Commitments(ps)) == ToSet(Commitments(init)) + {p.commitment};
      NewInBlock(Commitments(init), p.commitment);
      ScanIndexed(tree, init, notes, swaps, b);
      PayloadIndexed(tree, ScanPayloads(tree, init, notes, swaps, b), p, notes, swaps, b, ToSet(Commitments(init)));
    }
  }

  lemma NothingIndexed(tree: Tree)
    requires IndexOk(tree)
    ensures Indexed(tree, tree, map[], map[], {})
  {
  }

  lemma PayloadIndexed(before: Tree, s: Scan, p: Payload, notes: map<Commitment, Note>, swaps: map<Commitment, Swap>,
                       b: CompactBlock, cs: set<Commitment>)
    requires Indexed(before, s.tree, s.newNotes, s.newSwaps, cs) && p.commitment !in before.index && p.commitment !in cs
    ensures var s' := ScanPayload(s, p, notes, swaps, b);
            Indexed(before, s'.tree, s'.newNotes, s'.newSwaps, cs + {p.commitment})
  {
    hide IndexOk, Insert, NextPosition, OutputNotes;
    IndexedMore(before, s.tree, s.newNotes, s.newSwaps, cs, true, p.commitment);
    IndexedMore(before, s.tree, s.newNotes, s.newSwaps, cs, false, p.commitment);
  }

  lemma NewInBlock(cs: seq<Commitment>, c: Commitment)
    requires Distinct(cs + [c])
    ensures Distinct(cs) && c !in cs
  {
    assert (cs + [c])[|cs|] == c;
    assert forall i :: 0 <= i < |cs| ==> (cs + [c])[i] == cs[i];
  }

  lemma IndexedWider(before: Tree, after: Tree, cs: set<Commitment>, more: set<Commitment>)
    requires Indexed(before, after, map[], map[], cs) && cs <= more
    ensures Indexed(before, after, map[], map[], more)
  {
    hide IndexOk;
  }

  /** Sealing a block or an epoch, or putting a block in by its root, leaves the index alone. */
  lemma SealIndexed(before: Tree, t: Tree, newNotes: map<Commitment, NoteRecord>, newSwaps: map<Commitment, SwapRecord>,
                    cs: set<Commitment>, b: CompactBlock)
    requires Indexed(before, t, newNotes, newSwaps, cs)
    ensures Indexed(before, EndBlock(t), newNotes, newSwaps, cs)
    ensures Indexed(before, EndEpoch(EndBlock(t)), newNotes, newSwaps, cs)
    ensures Indexed(before, InsertBlock(t, b.blockRoot), newNotes, newSwaps, cs)
    ensures Indexed(before, EndEpoch(InsertBlock(t, b.blockRoot)), newNotes, newSwaps, cs)
  {
    hide IndexOk, EndBlock, EndEpoch, InsertBlock;
    EndBlockHolds(t);
    InsertBlockHolds(t, b.blockRoot);
    EndEpochHolds(EndBlock(t));
    EndEpochHolds(InsertBlock(t, b.blockRoot));
  }

  /** Records keep their positions when they get a source. */
  lemma RehydrateIndexed(before: Tree, t: Tree, fb: FilteredBlock, txs: seq<Tx>, cs: set<Commitment>)
    requires Indexed(before, t, fb.newNotes, fb.newSwaps, cs)
    ensures Indexed(before, t, FetchSpec(fb, txs).0.newNotes, FetchSpec(fb, txs).0.newSwaps, cs)
  {
    hide IndexOk, SourceFrom, RelevantTxs;
  }

  lemma PlanIndexed(db: Database, tree: Tree, b: CompactBlock, all: seq<Tx>, metadata: map<AssetId, Denom>)
    requires IndexOk(tree) && Distinct(Commitments(b.payloads))
    requires forall c <- Commitments(b.payloads) :: c !in tree.index
    ensures var w := PlanBlock(db, tree, b, all, metadata);
            Indexed(tree, w.tree, w.fb.newNotes, w.fb.newSwaps, ToSet(Commitments(b.payloads)))
  {
    hide IndexOk, EndBlock, EndEpoch, InsertBlock, ScanPayloads, RelevantTxs, FilterNullifiers, NoteAdvice,
      SwapAdvice;
    hide Indexed;
    var notes, swaps := NoteAdvice(db, b.payloads), SwapAdvice(b.payloads);
    var cs := ToSet(Commitments(b.payloads));
    ScanIndexed(tree, b.payloads, notes, swaps, b);
    var s := ScanPayloads(tree, b.payloads, notes, swaps, b);
    SealIndexed(tree, s.tree, s.newNotes, s.newSwaps, cs, b);
    NothingIndexed(tree);
    IndexedWider(tree, tree, {}, cs);
    SealIndexed(tree, tree, map[], map[], cs, b);
    if b.RequiresScanning() {
      var scanned := ScanBlockSpec(db, tree, b);
      assert Indexed(tree, scanned.tree, scanned.newNotes, scanned.newSwaps, cs);
      RehydrateIndexed(tree, scanned.tree, FilterBlock(db, scanned, b), all, cs);
    }
  }

  // ---------- What a block's commit keeps ----------

  lemma RecordedWitness(db: Database, before: Tree, fb: FilteredBlock, tree: Tree, cs: set<Commitment>,
                        metadata: map<AssetId, Denom>)
    requires Witnessable(db, before, metadata) && Indexed(before, tree, fb.newNotes, fb.newSwaps, cs)
    requires RowsOk(db) && FilteredOk(fb)
    ensures Witnessable(Recorded(db, fb), tree, metadata)
  {
    var after := Recorded(db, fb);
    hide KeptAt, Recorded, RowsOk;
    assert forall c <- db.spendable :: c in db.notes by { NotesRecorded(db); }
    forall c
      ensures c in after.spendable ==> c in after.notes
      ensures c in after.spendable && (after.spendable[c].heightSpent.None? || Votes(metadata, after.notes[c])) ==>
                Holds(tree, c, after.spendable[c].position)
      ensures c in after.swaps && after.swaps[c].heightClaimed.None? ==> Holds(tree, c, after.swaps[c].position)
    {
      RecordedAt(db, fb, c);
      assert c in fb.newNotes || c in fb.newSwaps ==> c in tree.index;
    }
  }

  lemma NotesRecorded(db: Database)
    requires RowsOk(db)
    ensures forall c <- db.spendable :: c in db.notes
  {
  }

  /** Only revealed notes that cannot vote are forgotten. */
  lemma NoteNotGone(db: Database, nfs: set<Nullifier>, height: nat, c: Commitment)
    requires RowsOk(db) && c in db.spendable
    requires SpendRows(db.spendable, nfs, height)[c].heightSpent.None? || IsDelegation(db, c)
    ensures c !in Forgotten(db, nfs)
    ensures db.spendable[c].heightSpent.None? || IsDelegation(db, c)
  {
    assert c == OfNote(db.notes[c]);
    assert c !in db.swaps;
  }

  lemma SwapNotGone(db: Database, nfs: set<Nullifier>, height: nat, c: Commitment)
    requires RowsOk(db) && c in db.swaps && ClaimRows(db.swaps, nfs, height)[c].heightClaimed.None?
    ensures c !in Forgotten(db, nfs) && db.swaps[c].heightClaimed.None?
  {
    assert c.OfSwap?;
    assert forall d <- db.spendable :: d.OfNote?;
  }

  lemma StillHeld(tree: Tree, gone: set<Commitment>, c: Commitment, p: Position)
    requires IndexOk(tree) && Holds(tree, c, p) && c !in gone
    ensures Holds(ForgetSet(tree, gone), c, p)
  {
    ForgetSetHolds(tree, gone);
    hide ForgetSet, KeptAt;
  }

  /** Marking rows and forgetting what they no longer need. */
  lemma MarkedWitness(db: Database, tree: Tree, nfs: set<Nullifier>, height: nat, metadata: map<AssetId, Denom>)
    requires Witnessable(db, tree, metadata) && RowsOk(db)
    requires forall c <- db.spendable :: Votes(metadata, db.notes[c]) <==> IsDelegation(db, c)
    ensures Witnessable(MarkSpent(db, nfs, height), ForgetSet(tree, Forgotten(db, nfs)), metadata)
  {
    hide RowsOk, IsDelegation, Votes, ForgetSet, Forgotten, Holds, IndexOk;
    var gone := Forgotten(db, nfs);
    var after, tree' := MarkSpent(db, nfs, height), ForgetSet(tree, gone);
    ForgetSetHolds(tree, gone);
    forall c | c in after.spendable && (after.spendable[c].heightSpent.None? || Votes(metadata, after.notes[c]))
      ensures Holds(tree', c, after.spendable[c].position)
    {
      NoteNotGone(db, nfs, height, c);
      StillHeld(tree, gone, c, db.spendable[c].position);
    }
    forall c | c in after.swaps && after.swaps[c].heightClaimed.None?
      ensures Holds(tree', c, after.swaps[c].position)
    {
      SwapNotGone(db, nfs, height, c);
      StillHeld(tree, gone, c, db.swaps[c].position);
    }
  }

  lemma CommitWitness(db: Database, before: Tree, w: Work, cs: set<Commitment>, metadata: map<AssetId, Denom>)
    requires Witnessable(db, before, metadata) && Indexed(before, w.tree, w.fb.newNotes, w.fb.newSwaps, cs)
    requires RowsOk(db) && FilteredOk(w.fb) && AssetsReady(db, w.fb.newNotes, metadata)
    ensures var (after, tree) := CommitBlock(db, w.fb, w.txs, w.tree);
            Witnessable(after, tree, metadata)
  {
    hide Witnessable, Indexed, RowsOk, FilteredOk, AssetsReady, Recorded, ForgetSet, Forgotten, IsDelegation,
      SpendRows, ClaimRows, RecordTxs;
    var r, nfs := Recorded(db, w.fb), ToSet(w.fb.spentNullifiers);
    RecordedRowsOk(db, w.fb);
    RecordedWitness(db, before, w.fb, w.tree, cs, metadata);
    forall c | c in r.spendable ensures c in r.notes && (Votes(metadata, r.notes[c]) <==> IsDelegation(r, c)) {
      DelegationKnown(db, w.fb, metadata, c);
    }
    MarkedWitness(r, w.tree, nfs, w.fb.height, metadata);
    var tree' := ForgetSet(w.tree, Forgotten(r, nfs));
    var spent := MarkSpent(r, nfs, w.fb.height).(sct := tree');
    RecordTxsFrame(spent, w.txs, w.fb.height);
    WitnessFrame(MarkSpent(r, nfs, w.fb.height), CommitBlock(db, w.fb, w.txs, w.tree).0, tree', metadata);
  }

  lemma WitnessFrame(db: Database, u: Database, tree: Tree, metadata: map<AssetId, Denom>)
    requires Witnessable(db, tree, metadata)
    requires db.notes == u.notes && db.spendable == u.spendable && db.swaps == u.swaps
    ensures Witnessable(u, tree, metadata)
  {
  }

  // ---------- Every reachable state ----------

  lemma SeenNext(blocks: seq<CompactBlock>, n: nat)
    requires n < |blocks|
    ensures Seen(blocks, n + 1) == Seen(blocks, n) + ToSet(Commitments(blocks[n].payloads))
  {
    var cs := Commitments(blocks[n].payloads);
    forall c | c in Seen(blocks, n + 1) ensures c in Seen(blocks, n) || c in cs {
      var i :| 0 <= i < n + 1 && c in Commitments(blocks[i].payloads);
      if i < n { assert c in Seen(blocks, n); }
    }
    forall c | c in Seen(blocks, n) ensures c in Seen(blocks, n + 1) {
      var i :| 0 <= i < n && c in Commitments(blocks[i].payloads);
      assert i < n + 1;
    }
  }

  lemma BlockIsNew(node: FullNode, n: nat)
    requires ChainOk(node) && n < |node.blocks|
    ensures Distinct(Commitments(node.blocks[n].payloads))
    ensures forall c <- Commitments(node.blocks[n].payloads) :: c !in Seen(node.blocks, n)
  {
    hide Seen;
  }

  lemma {:induction false} IdealWitness(node: FullNode, n: nat)
    requires ChainOk(node) && n <= |node.blocks|
    ensures Witnessable(Ideal(node, n).db, Ideal(node, n).tree, node.metadata)
    ensures Ideal(node, n).tree.index.Keys <= Seen(node.blocks, n)
  {
    hide Ideal, ChainOk, BlockOk, Seen, PlanBlock, ApplyAll, RecordAssets, CommitBlock, Witnessable, RowsOk, AssetsOk;
    if n == 0 {
      FreshOk(node);
      FreshWitness(node.metadata);
    } else {
      var p, w, b := Ideal(node, n - 1), IdealPlan(node, n - 1), node.blocks[n - 1];
      var cs := Commitments(b.payloads);
      IdealWitness(node, n - 1);
      IdealOk(node, n - 1);
      SeenNext(node.blocks, n - 1);
      BlockIsNew(node, n - 1);
      WitnessIndex(p.db, p.tree, node.metadata);
      PlanIndexed(p.db, p.tree, b, Transactions(node, n - 1), node.metadata);
      if b.RequiresScanning() {
        var ready := RecordAssets(ApplyAll(p.db, w.writes), w.assets, node.metadata);
        IdealScanned(node, n - 1);
        PlanOk(p.db, p.tree, b, Transactions(node, n - 1), node.metadata);
        PlanAssets(node, n - 1);
        ReadyAssets(p.db, w.fb, w.writes, node.metadata);
        FinishRowsOk(p, b, w, node.metadata);
        ReadyFrame(p.db, w.writes, w.assets, node.metadata);
        SameWitness(p.db, ready, p.tree, node.metadata);
        CommitWitness(ready, p.tree, w, ToSet(cs), node.metadata);
        CommitIndex(ready, w);
      } else {
        IdealEmpty(node, n - 1);
        EmptyWitness(p.db, Ideal(node, n).db, p.tree, w.tree, ToSet(cs), node.metadata);
      }
    }
  }

  lemma FreshWitness(metadata: map<AssetId, Denom>)
    ensures Witnessable(INITIAL, EMPTY, metadata)
  {
  }

  lemma WitnessIndex(db: Database, tree: Tree, metadata: map<AssetId, Denom>)
    requires Witnessable(db, tree, metadata)
    ensures IndexOk(tree)
  {
  }

  lemma CommitIndex(db: Database, w: Work)
    ensures CommitBlock(db, w.fb, w.txs, w.tree).1.index.Keys <= w.tree.index.Keys
  {
  }

  /** Rows of the same core are witnessable by the same tree: a note is determined by its commitment. */
  lemma SameWitness(db: Database, u: Database, tree: Tree, metadata: map<AssetId, Denom>)
    requires Witnessable(db, tree, metadata) && SameCore(db, u) && RowsOk(db) && RowsOk(u)
    ensures Witnessable(u, tree, metadata)
  {
    hide Holds, IndexOk;
    forall c | c in db.spendable ensures c in u.notes && db.notes[c] == u.notes[c] {
      assert OfNote(db.notes[c]) == c == OfNote(u.notes[c]);
    }
  }

  lemma EmptyWitness(db: Database, u: Database, tree: Tree, sealed: Tree, cs: set<Commitment>,
                     metadata: map<AssetId, Denom>)
    requires Witnessable(db, tree, metadata) && u == db.(epochs := u.epochs)
    requires Indexed(tree, sealed, map[], map[], cs)
    ensures Witnessable(u, sealed, metadata)
  {
    hide KeptAt;
  }

  /** Whatever the crashes, between blocks every unspent note, every delegation note and every unclaimed swap is
      kept at its recorded position, with the nullifier of that position and its commitment. */
  lemma RunWitness(node: FullNode, run: seq<System>, i: nat)
    requires ChainOk(node) && Run(node, run) && i < |run| && run[i].Idle()
    ensures RowsOk(run[i].db)
    ensures Witnessable(run[i].db, run[i].memory.value.tree, node.metadata)
  {
    hide Ideal, ChainOk, Witnessable, SameCore, Run;
    RunInv(node, run, i);
    InvWitness(node, run[i]);
  }

  lemma InvWitness(node: FullNode, s: System)
    requires ChainOk(node) && Inv(node, s) && s.Idle()
    ensures RowsOk(s.db) && AssetsOk(s.db, node.metadata)
    ensures Witnessable(s.db, s.memory.value.tree, node.metadata)
  {
    IdleAgrees(node, s);
    IdealWitness(node, s.Next());
    IdealOk(node, s.Next());
    hide Ideal, ChainOk, Witnessable, SameCore, RowsOk, AssetsOk, NextHeight, CellsFrom, AdviceKeys;
    SameWitness(Ideal(node, s.Next()).db, s.db, s.memory.value.tree, node.metadata);
  }

  // ---------- Nothing else is kept ----------

  /** Our swaps in the first n blocks whose output the block does not give: kept, but without a row. */
  function Unpaid(blocks: seq<CompactBlock>, n: nat): set<Commitment>
    requires n <= |blocks|
  {
    set k, s | 0 <= k < n && s in DecryptedSwaps(blocks[k].payloads) && s.pair !in blocks[k].swapOutputs :: OfSwap(s)
  }

  /** Exactly these are kept: notes unspent or of delegation tokens, swaps unclaimed, and swaps without a row. */
  ghost predicate KeptExactly(db: Database, tree: Tree, unpaid: set<Commitment>, metadata: map<AssetId, Denom>) {
    forall c :: KeptAsNeeded(db, tree, unpaid, metadata, c)
  }

  predicate KeptAsNeeded(db: Database, tree: Tree, unpaid: set<Commitment>, metadata: map<AssetId, Denom>,
                         c: Commitment) {
    c in tree.index <==>
      || (c in db.spendable && c in db.notes && (db.spendable[c].heightSpent.None? || Votes(metadata, db.notes[c])))
      || (c in db.swaps && db.swaps[c].heightClaimed.None?)
      || c in unpaid
  }

  /** After these commitments: what is kept is what was kept and what is recognized, and exactly that is recorded,
      except for swaps without an output. */
  ghost predicate ScanKept(tree: Tree, s: Scan, cs: set<Commitment>, notes: map<Commitment, Note>,
                           swaps: map<Commitment, Swap>, b: CompactBlock) {
    IndexOk(s.tree) && forall c :: KeptInScan(tree, s, cs, notes, swaps, b, c)
  }

  predicate KeptInScan(tree: Tree, s: Scan, cs: set<Commitment>, notes: map<Commitment, Note>,
                       swaps: map<Commitment, Swap>, b: CompactBlock, c: Commitment) {
    && (c in s.tree.index <==> c in tree.index || (c in cs && (c in notes || c in swaps)))
    && (c in s.newNotes <==> c in cs && c in notes)
    && (c in s.newSwaps <==> c in cs && c !in notes && c in swaps && swaps[c].pair in b.swapOutputs)
  }

  lemma {:induction false} ScanKeeps(tree: Tree, ps: seq<Payload>, notes: map<Commitment, Note>,
                                     swaps: map<Commitment, Swap>, b: CompactBlock)
    requires IndexOk(tree)
    ensures ScanKept(tree, ScanPayloads(tree, ps, notes, swaps, b), ToSet(Commitments(ps)), notes, swaps, b)
    decreases |ps|
  {
    hide IndexOk, ScanKept, ScanPayload;
    if ps == [] {
      assert ToSet(Commitments(ps)) == {};
      NothingKept(tree, notes, swaps, b);
    } else {
      var init, p := ps[..|ps| - 1], ps[|ps| - 1];
      assert Commitments(ps) == Commitments(init) + [p.commitment];
      assert ToSet(Commitments(ps)) == ToSet(Commitments(init)) + {p.commitment};
      ScanKeeps(tree, init, notes, swaps, b);
      PayloadKeeps(tree, ScanPayloads(tree, init, notes, swaps, b), p, ToSet(Commitments(init)), notes, swaps, b);
    }
  }

  lemma NothingKept(tree: Tree, notes: map<Commitment, Note>, swaps: map<Commitment, Swap>, b: CompactBlock)
    requires IndexOk(tree)
    ensures ScanKept(tree, Scan(tree, map[], map[], []), {}, notes, swaps, b)
  {
    hide IndexOk;
  }

  lemma PayloadKeeps(tree: Tree, s: Scan, p: Payload, cs: set<Commitment>, notes: map<Commitment, Note>,
                     swaps: map<Commitment, Swap>, b: CompactBlock)
    requires ScanKept(tree, s, cs, notes, swaps, b)
    ensures ScanKept(tree, ScanPayload(s, p, notes, swaps, b), cs + {p.commitment}, notes, swaps, b)
  {
    var c := p.commitment;
    var keep := c in notes || c in swaps;
    PayloadRecords(s, p, notes, swaps, b);
    InsertHolds(s.tree, keep, c);
    hide *;
    KeptMore(tree, s, ScanPayload(s, p, notes, swaps, b), cs, notes, swaps, b, c);
  }

  lemma KeptMore(tree: Tree, s: Scan, s': Scan, cs: set<Commitment>, notes: map<Commitment, Note>,
                 swaps: map<Commitment, Swap>, b: CompactBlock, c: Commitment)
    requires ScanKept(tree, s, cs, notes, swaps, b) && IndexOk(s'.tree)
    requires s'.tree.index.Keys == s.tree.index.Keys + if c in notes || c in swaps then {c} else {}
    requires s'.newNotes.Keys == s.newNotes.Keys + if c in notes then {c} else {}
    requires s'.newSwaps.Keys
             == s.newSwaps.Keys + if c !in notes && c in swaps && swaps[c].pair in b.swapOutputs then {c} else {}
    ensures ScanKept(tree, s', cs + {c}, notes, swaps, b)
  {
    hide IndexOk;
    forall d ensures KeptInScan(tree, s', cs + {c}, notes, swaps, b, d) {
      assert KeptInScan(tree, s, cs, notes, swaps, b, d);
    }
  }

  lemma PayloadRecords(s: Scan, p: Payload, notes: map<Commitment, Note>, swaps: map<Commitment, Swap>,
                       b: CompactBlock)
    ensures var s', c := ScanPayload(s, p, notes, swaps, b), p.commitment;
            && s'.tree == Insert(s.tree, c in notes || c in swaps, c)
            && s'.newNotes.Keys == s.newNotes.Keys + (if c in notes then {c} else {})
            && s'.newSwaps.Keys
               == s.newSwaps.Keys + (if c !in notes && c in swaps && swaps[c].pair in b.swapOutputs then {c} else {})
  {
    hide Insert, NextPosition, OutputNotes;
  }

  function UnpaidIn(b: CompactBlock): set<Commitment> {
    set s | s in DecryptedSwaps(b.payloads) && s.pair !in b.swapOutputs :: OfSwap(s)
  }

  /** A planned block's tree has what was kept before, the block's records, and its swaps without an output. */
  ghost predicate Grown(before: Tree, after: Tree, fb: FilteredBlock, unpaid: set<Commitment>) {
    forall c :: c in after.index <==> c in before.index || c in fb.newNotes || c in fb.newSwaps || c in unpaid
  }

  /** A planned block's records are those of the scan, if there is anything to scan for. */
  lemma PlannedRecords(db: Database, tree: Tree, b: CompactBlock, all: seq<Tx>, metadata: map<AssetId, Denom>)
    requires b.RequiresScanning()
    ensures var notes, swaps := NoteAdvice(db, b.payloads), SwapAdvice(b.payloads);
            var s := ScanPayloads(tree, b.payloads, notes, swaps, b);
            var fb := FilterBlock(db, ScanBlockSpec(db, tree, b), b);
            && PlanBlock(db, tree, b, all, metadata).fb == FetchSpec(fb, all).0
            && fb.newNotes == (if notes == map[] && swaps == map[] then map[] else s.newNotes)
            && fb.newSwaps == (if notes == map[] && swaps == map[] then map[] else s.newSwaps)
  {
    hide NoteAdvice, SwapAdvice, ScanPayloads, FetchSpec, FilterNullifiers, EpochWrites, AdviceWrites;
  }

  lemma DecryptedIsAdvice(db: Database, ps: seq<Payload>)
    ensures forall note <- DecryptedNotes(ps) :: OfNote(note) in NoteAdvice(db, ps)
    ensures forall swap <- DecryptedSwaps(ps) :: OfSwap(swap) in SwapAdvice(ps)
  {
  }

  lemma InCommitments(ps: seq<Payload>, p: Payload)
    requires p in ps
    ensures p.commitment in Commitments(ps)
  {
    var i :| 0 <= i < |ps| && ps[i] == p;
    assert Commitments(ps)[i] == p.commitment;
  }

  lemma FetchKeys(fb: FilteredBlock, txs: seq<Tx>)
    ensures FetchSpec(fb, txs).0.newNotes.Keys == fb.newNotes.Keys
    ensures FetchSpec(fb, txs).0.newSwaps.Keys == fb.newSwaps.Keys
  {
    hide SourceFrom, RelevantTxs;
  }

  /** Sealing leaves the index as the payloads left it. */
  lemma PlannedIndex(db: Database, tree: Tree, b: CompactBlock, all: seq<Tx>, metadata: map<AssetId, Denom>)
    ensures var notes, swaps := NoteAdvice(db, b.payloads), SwapAdvice(b.payloads);
            PlanBlock(db, tree, b, all, metadata).tree.index
            == if !b.RequiresScanning() || (notes == map[] && swaps == map[]) then tree.index
               else ScanPayloads(tree, b.payloads, notes, swaps, b).tree.index
  {
    hide NoteAdvice, SwapAdvice, ScanPayloads, FetchSpec, FilterNullifiers, EpochWrites, AdviceWrites;
  }

  lemma PlanGrows(db: Database, tree: Tree, b: CompactBlock, all: seq<Tx>, metadata: map<AssetId, Denom>)
    requires RowsOk(db) && IndexOk(tree) && forall p <- b.payloads :: p.Valid()
    ensures var w := PlanBlock(db, tree, b, all, metadata);
            && Grown(tree, w.tree, w.fb, UnpaidIn(b))
            && forall c <- w.fb.newSwaps :: c in Commitments(b.payloads) && c !in UnpaidIn(b)
  {
    hide RowsOk, IndexOk, ScanKept, Grown, PlanBlock, NoteAdvice, SwapAdvice, ScanPayloads, ScanBlockSpec, FetchSpec,
      UnpaidIn, FilterNullifiers;
    var notes, swaps := NoteAdvice(db, b.payloads), SwapAdvice(b.payloads);
    PlannedIndex(db, tree, b, all, metadata);
    if !b.RequiresScanning() {
      EmptyPlan(db, tree, b, all, metadata);
      NothingGrows(tree, b, PlanBlock(db, tree, b, all, metadata));
    } else {
      PlannedRecords(db, tree, b, all, metadata);
      FetchKeys(FilterBlock(db, ScanBlockSpec(db, tree, b), b), all);
      if notes == map[] && swaps == map[] {
        NothingGrows(tree, b, PlanBlock(db, tree, b, all, metadata));
      } else {
        ScanKeeps(tree, b.payloads, notes, swaps, b);
        AdviceKeyed(db, b.payloads);
        ScanGrows(tree, ScanPayloads(tree, b.payloads, notes, swaps, b), b, notes,
                  PlanBlock(db, tree, b, all, metadata));
      }
    }
  }

  lemma NothingGrows(tree: Tree, b: CompactBlock, w: Work)
    requires !b.RequiresScanning() || SwapAdvice(b.payloads) == map[]
    requires w.tree.index == tree.index && w.fb.newNotes.Keys == {} && w.fb.newSwaps.Keys == {}
    ensures Grown(tree, w.tree, w.fb, UnpaidIn(b))
  {
    if b.RequiresScanning() {
      assert forall s <- DecryptedSwaps(b.payloads) :: OfSwap(s) in SwapAdvice(b.payloads).Keys;
    } else {
      assert b.payloads == [];
    }
  }

  lemma EmptyPlan(db: Database, tree: Tree, b: CompactBlock, all: seq<Tx>, metadata: map<AssetId, Denom>)
    requires !b.RequiresScanning()
    ensures var fb := PlanBlock(db, tree, b, all, metadata).fb; fb.newNotes == map[] && fb.newSwaps == map[]
  {
  }

  lemma ScanGrows(tree: Tree, s: Scan, b: CompactBlock, notes: map<Commitment, Note>, w: Work)
    requires ScanKept(tree, s, ToSet(Commitments(b.payloads)), notes, SwapAdvice(b.payloads), b)
    requires (forall c <- notes :: c.OfNote?) && forall p <- b.payloads :: p.Valid()
    requires w.tree.index == s.tree.index
    requires w.fb.newNotes.Keys == s.newNotes.Keys && w.fb.newSwaps.Keys == s.newSwaps.Keys
    ensures Grown(tree, w.tree, w.fb, UnpaidIn(b))
    ensures forall c <- w.fb.newSwaps :: c in Commitments(b.payloads) && c !in UnpaidIn(b)
  {
    hide IndexOk, DecryptedSwaps;
    OursInBlock(b.payloads);
    var cs := ToSet(Commitments(b.payloads));
    forall c
      ensures c in w.tree.index <==>
                c in tree.index || c in w.fb.newNotes || c in w.fb.newSwaps || c in UnpaidIn(b)
      ensures c in w.fb.newSwaps ==> c in cs && c !in UnpaidIn(b)
    {
      assert KeptInScan(tree, s, cs, notes, SwapAdvice(b.payloads), b, c);
    }
  }

  lemma OursInBlock(ps: seq<Payload>)
    requires forall p <- ps :: p.Valid()
    ensures forall s <- DecryptedSwaps(ps) :: OfSwap(s) in ToSet(Commitments(ps))
  {
    forall s | s in DecryptedSwaps(ps) ensures OfSwap(s) in ToSet(Commitments(ps)) {
      var p :| p in ps && p.SwapPayload? && p.decryptedSwap == Some(s);
      InCommitments(ps, p);
    }
  }

  // ---------- Exactly this is kept after every block ----------

  lemma RecordedKept(db: Database, before: Tree, fb: FilteredBlock, tree: Tree, unpaid: set<Commitment>,
                     more: set<Commitment>, metadata: map<AssetId, Denom>)
    requires KeptExactly(db, before, unpaid, metadata) && Grown(before, tree, fb, more)
    requires RowsOk(db) && FilteredOk(fb)
    ensures KeptExactly(Recorded(db, fb), tree, unpaid + more, metadata)
  {
    hide Recorded, RowsOk;
    NotesRecorded(db);
    forall c ensures KeptAsNeeded(Recorded(db, fb), tree, unpaid + more, metadata, c) {
      assert KeptAsNeeded(db, before, unpaid, metadata, c);
      RecordedAt(db, fb, c);
    }
  }
  /** Marking and forgetting takes away exactly what is no longer needed. */
  lemma MarkedKept(db: Database, tree: Tree, nfs: set<Nullifier>, height: nat, unpaid: set<Commitment>,
                   metadata: map<AssetId, Denom>)
    requires KeptExactly(db, tree, unpaid, metadata) && RowsOk(db)
    requires forall c <- db.spendable :: Votes(metadata, db.notes[c]) <==> IsDelegation(db, c)
    requires forall c <- unpaid :: c.OfSwap? && c !in db.swaps
    ensures KeptExactly(MarkSpent(db, nfs, height), ForgetSet(tree, Forgotten(db, nfs)), unpaid, metadata)
  {
    var after, tree' := MarkSpent(db, nfs, height), ForgetSet(tree, Forgotten(db, nfs));
    NotesRecorded(db);
    hide IsDelegation, Votes, MarkSpent, ForgetSet, Forgotten, RowsOk;
    forall c ensures KeptAsNeeded(after, tree', unpaid, metadata, c) {
      assert KeptAsNeeded(db, tree, unpaid, metadata, c);
      MarkedRow(db, tree, nfs, height, c);
    }
  }

  /** One commitment's rows and leaf after marking and forgetting. */
  lemma MarkedRow(db: Database, tree: Tree, nfs: set<Nullifier>, height: nat, c: Commitment)
    requires RowsOk(db)
    ensures var after := MarkSpent(db, nfs, height);
            && after.notes == db.notes && (c in after.spendable <==> c in db.spendable)
            && (c in after.swaps <==> c in db.swaps)
            && (c in db.spendable ==>
                  c.OfNote? && (after.spendable[c].heightSpent.None? <==>
                                  db.spendable[c].heightSpent.None? && db.spendable[c].nullifier !in nfs))
            && (c in db.swaps ==>
                  c.OfSwap? && (after.swaps[c].heightClaimed.None? <==>
                                  db.swaps[c].heightClaimed.None? && db.swaps[c].nullifier !in nfs))
    ensures c in ForgetSet(tree, Forgotten(db, nfs)).index <==>
              && c in tree.index
              && !(c in db.spendable && db.spendable[c].nullifier in nfs && !IsDelegation(db, c))
              && !(c in db.swaps && db.swaps[c].nullifier in nfs)
  {
    hide IsDelegation;
  }

  lemma CommitKept(db: Database, before: Tree, w: Work, unpaid: set<Commitment>, more: set<Commitment>,
                   metadata: map<AssetId, Denom>)
    requires KeptExactly(db, before, unpaid, metadata) && Grown(before, w.tree, w.fb, more)
    requires RowsOk(db) && FilteredOk(w.fb) && AssetsReady(db, w.fb.newNotes, metadata)
    requires forall c <- unpaid + more :: c.OfSwap? && c !in db.swaps && c !in w.fb.newSwaps
    ensures var (after, tree) := CommitBlock(db, w.fb, w.txs, w.tree);
            KeptExactly(after, tree, unpaid + more, metadata)
  {
    hide KeptExactly, Grown, RowsOk, FilteredOk, AssetsReady, Recorded, ForgetSet, Forgotten, IsDelegation, SpendRows,
      ClaimRows, RecordTxs;
    var r, nfs := Recorded(db, w.fb), ToSet(w.fb.spentNullifiers);
    RecordedRowsOk(db, w.fb);
    RecordedKept(db, before, w.fb, w.tree, unpaid, more, metadata);
    forall c ensures c in r.spendable ==> c in r.notes && (Votes(metadata, r.notes[c]) <==> IsDelegation(r, c)) {
      DelegationKnown(db, w.fb, metadata, c);
    }
    forall c ensures c in r.swaps ==> c in db.swaps || c in w.fb.newSwaps {
      RecordedAt(db, w.fb, c);
    }
    MarkedKept(r, w.tree, nfs, w.fb.height, unpaid + more, metadata);
    var tree' := ForgetSet(w.tree, Forgotten(r, nfs));
    var spent := MarkSpent(r, nfs, w.fb.height).(sct := tree');
    RecordTxsFrame(spent, w.txs, w.fb.height);
    KeptFrame(MarkSpent(r, nfs, w.fb.height), CommitBlock(db, w.fb, w.txs, w.tree).0, tree', tree', unpaid + more,
              metadata);
  }

  lemma KeptFrame(db: Database, u: Database, tree: Tree, after: Tree, unpaid: set<Commitment>,
                  metadata: map<AssetId, Denom>)
    requires KeptExactly(db, tree, unpaid, metadata) && tree.index == after.index
    requires db.notes == u.notes && db.spendable == u.spendable && db.swaps == u.swaps
    ensures KeptExactly(u, after, unpaid, metadata)
  {
    forall c ensures KeptAsNeeded(u, after, unpaid, metadata, c) {
      assert KeptAsNeeded(db, tree, unpaid, metadata, c);
    }
  }

  lemma SameKept(db: Database, u: Database, tree: Tree, unpaid: set<Commitment>, metadata: map<AssetId, Denom>)
    requires KeptExactly(db, tree, unpaid, metadata) && SameCore(db, u) && RowsOk(db) && RowsOk(u)
    ensures KeptExactly(u, tree, unpaid, metadata)
  {
    forall c ensures KeptAsNeeded(u, tree, unpaid, metadata, c) {
      assert KeptAsNeeded(db, tree, unpaid, metadata, c);
      assert c in db.spendable ==> OfNote(db.notes[c]) == c == OfNote(u.notes[c]);
    }
  }

  lemma UnpaidNext(blocks: seq<CompactBlock>, n: nat)
    requires n < |blocks|
    ensures Unpaid(blocks, n + 1) == Unpaid(blocks, n) + UnpaidIn(blocks[n])
  {
    hide DecryptedSwaps;
    forall c | c in Unpaid(blocks, n + 1) ensures c in Unpaid(blocks, n) || c in UnpaidIn(blocks[n]) {
      var k, s :| 0 <= k < n + 1 && s in DecryptedSwaps(blocks[k].payloads) && s.pair !in blocks[k].swapOutputs
                  && c == OfSwap(s);
      if k < n { assert c in Unpaid(blocks, n); }
    }
    forall c | c in Unpaid(blocks, n) ensures c in Unpaid(blocks, n + 1) {
      var k, s :| 0 <= k < n && s in DecryptedSwaps(blocks[k].payloads) && s.pair !in blocks[k].swapOutputs
                  && c == OfSwap(s);
      assert k < n + 1;
    }
    forall c | c in UnpaidIn(blocks[n]) ensures c in Unpaid(blocks, n + 1) {
      var s :| s in DecryptedSwaps(blocks[n].payloads) && s.pair !in blocks[n].swapOutputs && c == OfSwap(s);
      assert n < n + 1;
    }
  }

  /** A swap without an output has no row: its commitment is in one block only. */
  ghost predicate UnpaidApart(node: FullNode, n: nat, swaps: set<Commitment>)
    requires n <= |node.blocks|
  {
    && swaps <= Seen(node.blocks, n) && Unpaid(node.blocks, n) <= Seen(node.blocks, n)
    && (forall c <- Unpaid(node.blocks, n) :: c.OfSwap? && c !in swaps)
  }

  lemma ApartNext(node: FullNode, n: nat, swaps: set<Commitment>, newSwaps: set<Commitment>)
    requires ChainOk(node) && n < |node.blocks| && UnpaidApart(node, n, swaps)
    requires forall c <- newSwaps :: c in Commitments(node.blocks[n].payloads) && c !in UnpaidIn(node.blocks[n])
    ensures UnpaidApart(node, n + 1, swaps + newSwaps)
    ensures forall c <- Unpaid(node.blocks, n) + UnpaidIn(node.blocks[n]) :: c.OfSwap? && c !in swaps && c !in newSwaps
  {
    var b := node.blocks[n];
    UnpaidNext(node.blocks, n);
    SeenNext(node.blocks, n);
    BlockIsNew(node, n);
    assert forall p <- b.payloads :: p.Valid() by { hide Seen; }
    OursInBlock(b.payloads);
    assert forall c <- UnpaidIn(b) :: c.OfSwap? && c in Commitments(b.payloads);
    hide Seen, Unpaid, UnpaidIn, ChainOk, Commitments;
  }

  /** In the uninterrupted run. */
  lemma {:induction false} IdealKept(node: FullNode, n: nat)
    requires ChainOk(node) && n <= |node.blocks|
    ensures KeptExactly(Ideal(node, n).db, Ideal(node, n).tree, Unpaid(node.blocks, n), node.metadata)
    ensures UnpaidApart(node, n, Ideal(node, n).db.swaps.Keys)
  {
    hide Ideal, ChainOk, BlockOk, Seen, Unpaid, UnpaidIn, UnpaidApart, PlanBlock, ApplyAll, RecordAssets, CommitBlock,
      KeptExactly, Grown, RowsOk, AssetsOk, Witnessable, IndexOk;
    if n == 0 {
      FreshOk(node);
      FreshKept(node);
    } else {
      IdealKept(node, n - 1);
      if node.blocks[n - 1].RequiresScanning() {
        ScannedKept(node, n - 1);
      } else {
        QuietKept(node, n - 1);
      }
    }
  }

  lemma PayloadsValid(node: FullNode, n: nat)
    requires ChainOk(node) && n < |node.blocks|
    ensures forall p <- node.blocks[n].payloads :: p.Valid()
  {
    hide Seen;
  }

  lemma SameCoreBack(db: Database, u: Database)
    requires SameCore(db, u)
    ensures SameCore(u, db)
  {
  }

  lemma FreshKept(node: FullNode)
    ensures KeptExactly(INITIAL, EMPTY, Unpaid(node.blocks, 0), node.metadata)
    ensures UnpaidApart(node, 0, INITIAL.swaps.Keys)
  {
  }

  lemma ScannedKept(node: FullNode, n: nat)
    requires ChainOk(node) && n < |node.blocks| && node.blocks[n].RequiresScanning()
    requires KeptExactly(Ideal(node, n).db, Ideal(node, n).tree, Unpaid(node.blocks, n), node.metadata)
    requires UnpaidApart(node, n, Ideal(node, n).db.swaps.Keys)
    ensures KeptExactly(Ideal(node, n + 1).db, Ideal(node, n + 1).tree, Unpaid(node.blocks, n + 1), node.metadata)
    ensures UnpaidApart(node, n + 1, Ideal(node, n + 1).db.swaps.Keys)
  {
    hide Ideal, ChainOk, BlockOk, Seen, Unpaid, UnpaidIn, UnpaidApart, PlanBlock, ApplyAll, RecordAssets, CommitBlock,
      KeptExactly, Grown, RowsOk, AssetsOk, AssetsReady, Witnessable, IndexOk;
    var p, w, b := Ideal(node, n), IdealPlan(node, n), node.blocks[n];
    var ready := RecordAssets(ApplyAll(p.db, w.writes), w.assets, node.metadata);
    IdealOk(node, n);
    IdealWitness(node, n);
    WitnessIndex(p.db, p.tree, node.metadata);
    PayloadsValid(node, n);
    PlanGrows(p.db, p.tree, b, Transactions(node, n), node.metadata);
    IdealScanned(node, n);
    PlanOk(p.db, p.tree, b, Transactions(node, n), node.metadata);
    PlanAssets(node, n);
    ReadyAssets(p.db, w.fb, w.writes, node.metadata);
    FinishRowsOk(p, b, w, node.metadata);
    ReadyFrame(p.db, w.writes, w.assets, node.metadata);
    SameKept(p.db, ready, p.tree, Unpaid(node.blocks, n), node.metadata);
    ApartNext(node, n, p.db.swaps.Keys, w.fb.newSwaps.Keys);
    UnpaidNext(node.blocks, n);
    CommitKept(ready, p.tree, w, Unpaid(node.blocks, n), UnpaidIn(b), node.metadata);
    CommitEager(ready, w.fb, w.txs, w.tree);
  }

  lemma QuietKept(node: FullNode, n: nat)
    requires ChainOk(node) && n < |node.blocks| && !node.blocks[n].RequiresScanning()
    requires KeptExactly(Ideal(node, n).db, Ideal(node, n).tree, Unpaid(node.blocks, n), node.metadata)
    requires UnpaidApart(node, n, Ideal(node, n).db.swaps.Keys)
    ensures KeptExactly(Ideal(node, n + 1).db, Ideal(node, n + 1).tree, Unpaid(node.blocks, n + 1), node.metadata)
    ensures UnpaidApart(node, n + 1, Ideal(node, n + 1).db.swaps.Keys)
  {
    hide Ideal, ChainOk, BlockOk, Seen, Unpaid, UnpaidApart, PlanBlock, ApplyAll, RowsOk;
    var p, b := Ideal(node, n), node.blocks[n];
    IdealEmpty(node, n);
    PlannedIndex(p.db, p.tree, b, Transactions(node, n), node.metadata);
    UnpaidNext(node.blocks, n);
    assert b.payloads == [] && DecryptedSwaps(b.payloads) == {} && UnpaidIn(b) == {};
    ApartNext(node, n, p.db.swaps.Keys, {});
    assert p.db.swaps.Keys + {} == Ideal(node, n + 1).db.swaps.Keys;
    hide KeptExactly;
    assert Unpaid(node.blocks, n + 1) == Unpaid(node.blocks, n);
    KeptFrame(p.db, Ideal(node, n + 1).db, p.tree, Ideal(node, n + 1).tree, Unpaid(node.blocks, n), node.metadata);
  }

  /** Whatever the crashes, between blocks exactly these commitments have a proof: notes that are unspent or of
      delegation tokens, swaps that are unclaimed, and our swaps whose output their block did not give. */
  lemma RunKept(node: FullNode, run: seq<System>, i: nat, c: Commitment)
    requires ChainOk(node) && Run(node, run) && i < |run| && run[i].Idle()
    ensures run[i].Next() <= |node.blocks|
    ensures var db := run[i].db;
            Witness(run[i].memory.value.tree, c).Some? <==>
              || (c in db.spendable && c in db.notes
                  && (db.spendable[c].heightSpent.None? || Votes(node.metadata, db.notes[c])))
              || (c in db.swaps && db.swaps[c].heightClaimed.None?)
              || exists k, p :: 0 <= k < run[i].Next() && p in node.blocks[k].payloads && p.SwapPayload?
                                && p.decryptedSwap.Some? && c == OfSwap(p.decryptedSwap.value)
                                && p.decryptedSwap.value.pair !in node.blocks[k].swapOutputs
  {
    RunInv(node, run, i);
    hide Inv, Run, ChainOk;
    KeptNow(node, run[i]);
    var tree := run[i].memory.value.tree;
    assert KeptAsNeeded(run[i].db, tree, Unpaid(node.blocks, run[i].Next()), node.metadata, c);
    InvWitness(node, run[i]);
    WitnessIndex(run[i].db, tree, node.metadata);
    WitnessVerifies(tree, c);
    UnpaidIff(node.blocks, run[i].Next(), c);
    hide Witness, KeptAt, Unpaid, Votes, Witnessable, RowsOk, AssetsOk;
  }

  lemma UnpaidIff(blocks: seq<CompactBlock>, n: nat, c: Commitment)
    requires n <= |blocks|
    ensures c in Unpaid(blocks, n) <==>
              exists k, p :: 0 <= k < n && p in blocks[k].payloads && p.SwapPayload? && p.decryptedSwap.Some?
                             && c == OfSwap(p.decryptedSwap.value)
                             && p.decryptedSwap.value.pair !in blocks[k].swapOutputs
  {
    if c in Unpaid(blocks, n) {
      var k, s :| 0 <= k < n && s in DecryptedSwaps(blocks[k].payloads) && s.pair !in blocks[k].swapOutputs
                  && c == OfSwap(s);
      var p :| p in blocks[k].payloads && p.SwapPayload? && p.decryptedSwap == Some(s);
    }
    if k, p :| 0 <= k < n && p in blocks[k].payloads && p.SwapPayload? && p.decryptedSwap.Some?
               && c == OfSwap(p.decryptedSwap.value) && p.decryptedSwap.value.pair !in blocks[k].swapOutputs {
      assert p.decryptedSwap.value in DecryptedSwaps(blocks[k].payloads);
    }
  }

  lemma KeptNow(node: FullNode, s: System)
    requires ChainOk(node) && Inv(node, s) && s.Idle()
    ensures s.Next() <= |node.blocks|
    ensures KeptExactly(s.db, s.memory.value.tree, Unpaid(node.blocks, s.Next()), node.metadata)
  {
    hide Ideal, ChainOk, SameCore, RowsOk, AssetsOk, NextHeight, CellsFrom, AdviceKeys, KeptExactly, Unpaid,
      Witnessable, UnpaidApart;
    IdleAgrees(node, s);
    InvWitness(node, s);
    IdealOk(node, s.Next());
    IdealKept(node, s.Next());
    SameCoreBack(s.db, Ideal(node, s.Next()).db);
    SameKept(Ideal(node, s.Next()).db, s.db, s.memory.value.tree, Unpaid(node.blocks, s.Next()), node.metadata);
  }

  // ---------- Voting ----------

  /** The notes a query for voting selects: of an asset whose denom looks like a delegation token's, created
      before the height and not spent by then. */
  predicate Selected(db: Database, c: Commitment, votableAt: nat) {
    && c in db.spendable && c in db.notes && db.notes[c].asset in db.assets
    && (db.assets[db.notes[c].asset].DelegationToken? || db.assets[db.notes[c].asset].DelegationLike?)
    && (db.spendable[c].heightSpent.None? || db.spendable[c].heightSpent.value > votableAt)
    && db.spendable[c].heightCreated < votableAt
  }

  /** Notes and their validators. One selected note of the account whose denom does not parse fails the whole query. */
  function NotesForVoting(db: Database, ours: Address -> bool, votableAt: nat)
    : Result<map<Commitment, Validator>, string>
  {
    var selected := set c | c in db.spendable && Selected(db, c, votableAt) && ours(db.notes[c].address);
    if exists c <- selected :: !IsDelegation(db, c) then Err("invalid delegation token denom")
    else Ok(map c | c in selected :: db.assets[db.notes[c].asset].validator)
  }

  /** A note of the account, made before the height and not spent by then. */
  predicate Votable(db: Database, c: Commitment, ours: Address -> bool, votableAt: nat) {
    && c in db.spendable && c in db.notes && ours(db.notes[c].address)
    && db.spendable[c].heightCreated < votableAt
    && match db.spendable[c].heightSpent { case None => true case Some(h) => votableAt < h }
  }

  predicate OfToken(db: Database, c: Commitment) {
    c in db.notes && db.notes[c].asset in db.assets && db.assets[db.notes[c].asset].DelegationToken?
  }

  predicate OfLookalike(db: Database, c: Commitment) {
    c in db.notes && db.notes[c].asset in db.assets && db.assets[db.notes[c].asset].DelegationLike?
  }

  /** Exactly the account's votable notes of delegation tokens are returned, with their validators, and the query fails
      exactly if the account has a votable note of an asset that only looks like one. */
  lemma VotingNotesExact(db: Database, ours: Address -> bool, votableAt: nat)
    requires RowsOk(db)
    ensures var r := NotesForVoting(db, ours, votableAt);
            && (r.Err? <==> exists c :: Votable(db, c, ours, votableAt) && OfLookalike(db, c))
            && (r.Ok? ==> forall c :: c in r.value <==> Votable(db, c, ours, votableAt) && OfToken(db, c))
            && (r.Ok? ==> forall c <- r.value :: db.assets[db.notes[c].asset] == DelegationToken(r.value[c]))
  {
    NotesRecorded(db);
    hide RowsOk;
    forall c
      ensures c in db.spendable && Selected(db, c, votableAt) && ours(db.notes[c].address)
              <==> Votable(db, c, ours, votableAt) && (OfToken(db, c) || OfLookalike(db, c))
      ensures IsDelegation(db, c) <==> OfToken(db, c)
    {
    }
    if NotesForVoting(db, ours, votableAt).Err? {
      var c :| c in db.spendable && Selected(db, c, votableAt) && ours(db.notes[c].address) && !IsDelegation(db, c);
      assert Votable(db, c, ours, votableAt) && OfLookalike(db, c);
    }
    hide Selected, Votable;
  }

  /** Everything returned for voting has a proof against the tree's root, spent or not. */
  lemma VotingNotesWitnessed(node: FullNode, run: seq<System>, i: nat, ours: Address -> bool, votableAt: nat,
                             c: Commitment)
    requires ChainOk(node) && Run(node, run) && i < |run| && run[i].Idle()
    requires NotesForVoting(run[i].db, ours, votableAt).Ok? && c in NotesForVoting(run[i].db, ours, votableAt).value
    ensures var tree := run[i].memory.value.tree;
            && Witness(tree, c).Some?
            && Witness(tree, c).value.position == run[i].db.spendable[c].position
            && Witness(tree, c).value.leaf == c
            && Witness(tree, c).value.Verifies(Root(tree))
  {
    RunInv(node, run, i);
    InvWitness(node, run[i]);
    WitnessVerifies(run[i].memory.value.tree, c);
    hide ChainOk, Inv, Run, RowsOk, IndexOk, Witness, KeptAt;
  }

  // ---------- Filtering nullifiers ----------

  predicate Matches(db: Database, nf: Nullifier) {
    || (exists c <- db.spendable :: db.spendable[c].nullifier == nf)
    || (exists c <- db.swaps :: db.swaps[c].nullifier == nf)
  }

  /** A nullifier that matches a row after the block's notes are recorded was known before the block. */
  lemma UnknownMatchesNothing(db: Database, fb: FilteredBlock, nf: Nullifier, cs: seq<Commitment>)
    requires RowsOk(db) && FilteredOk(fb)
    requires forall c :: c in fb.newNotes || c in fb.newSwaps ==> c in cs
    requires nf.commitment !in cs && !KnownNullifier(db, nf)
    ensures !Matches(Recorded(db, fb), nf)
  {
    var r := Recorded(db, fb);
    forall c
      ensures c in r.spendable ==> r.spendable[c].nullifier != nf
      ensures c in r.swaps ==> r.swaps[c].nullifier != nf
    {
      RecordedAt(db, fb, c);
      hide Recorded;
    }
  }

  /** Nullifiers that match no row change nothing. */
  lemma OnlyMatchesCount(db: Database, some: set<Nullifier>, all: set<Nullifier>, height: nat)
    requires some <= all && forall nf <- all :: nf !in some ==> !Matches(db, nf)
    ensures MarkSpent(db, some, height) == MarkSpent(db, all, height)
    ensures Forgotten(db, some) == Forgotten(db, all)
  {
    hide IsDelegation, Forgotten;
    forall c | c in db.spendable ensures db.spendable[c].nullifier in some <==> db.spendable[c].nullifier in all {
      assert Matches(db, db.spendable[c].nullifier);
    }
    forall c | c in db.swaps ensures db.swaps[c].nullifier in some <==> db.swaps[c].nullifier in all {
      assert Matches(db, db.swaps[c].nullifier);
    }
    assert SpendRows(db.spendable, some, height) == SpendRows(db.spendable, all, height);
    assert ClaimRows(db.swaps, some, height) == ClaimRows(db.swaps, all, height);
    SameForgotten(db, some, all);
  }

  lemma SameForgotten(db: Database, some: set<Nullifier>, all: set<Nullifier>)
    requires forall c <- db.spendable :: db.spendable[c].nullifier in some <==> db.spendable[c].nullifier in all
    requires forall c <- db.swaps :: db.swaps[c].nullifier in some <==> db.swaps[c].nullifier in all
    ensures Forgotten(db, some) == Forgotten(db, all)
  {
    hide IsDelegation;
  }

  /** Committing with the filtered nullifiers leaves the note table, the swap table and the tree as committing with
      all of the block's nullifiers would. */
  lemma FilteringLosesNothing(db: Database, fb: FilteredBlock, nfs: seq<Nullifier>, cs: seq<Commitment>, txs: seq<Tx>,
                              tree: Tree)
    requires RowsOk(db) && FilteredOk(fb) && fb.spentNullifiers == FilterNullifiers(db, nfs)
    requires forall c :: c in fb.newNotes || c in fb.newSwaps ==> c in cs
    requires forall nf <- nfs :: nf.commitment !in cs
    ensures CommitBlock(db, fb, txs, tree) == CommitBlock(db, fb.(spentNullifiers := nfs), txs, tree)
  {
    hide RowsOk, FilteredOk, KnownNullifier, Forgotten, MarkSpent, RecordTxs, ForgetSet, Matches;
    var r := Recorded(db, fb);
    assert Recorded(db, fb.(spentNullifiers := nfs)) == r;
    forall nf | nf in ToSet(nfs) && nf !in ToSet(fb.spentNullifiers) ensures !Matches(r, nf) {
      UnknownMatchesNothing(db, fb, nf, cs);
    }
    OnlyMatchesCount(r, ToSet(fb.spentNullifiers), ToSet(nfs), fb.height);
  }

  /** The same for a block of the chain as the worker plans and commits it. */
  lemma PlanFilteringLosesNothing(db: Database, tree: Tree, b: CompactBlock, seen: set<Commitment>, all: seq<Tx>,
                                  metadata: map<AssetId, Denom>)
    requires RowsOk(db) && IndexOk(tree) && tree.index.Keys <= seen && BlockOk(b, seen) && b.RequiresScanning()
    ensures var w := PlanBlock(db, tree, b, all, metadata);
            var ready := RecordAssets(ApplyAll(db, w.writes), w.assets, metadata);
            CommitBlock(ready, w.fb, w.txs, w.tree)
              == CommitBlock(ready, w.fb.(spentNullifiers := b.nullifiers), w.txs, w.tree)
  {
    var w := PlanBlock(db, tree, b, all, metadata);
    assert w.fb.spentNullifiers == FilterNullifiers(db, b.nullifiers);
    hide PlanBlock, RowsOk, IndexOk, ApplyAll, FilterNullifiers, CommitBlock, AddAssets, FilteredOk;
    PlanIndexed(db, tree, b, all, metadata);
    PlanOk(db, tree, b, all, metadata);
    FinishRowsOk(Process(db, tree, None), b, w, metadata);
    ReadyFrame(db, w.writes, w.assets, metadata);
    var ready := RecordAssets(ApplyAll(db, w.writes), w.assets, metadata);
    FilterFrame(db, ready, b.nullifiers);
    FilteringLosesNothing(ready, w.fb, b.nullifiers, Commitments(b.payloads), w.txs, w.tree);
  }
}
