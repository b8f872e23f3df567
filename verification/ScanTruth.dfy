/** What the view database says about our notes and swaps is what the chain says. */
module ScanTruth {
  import opened Prelude
  import opened Chain
  import opened Tct
  import opened TctShape
  import opened ViewDatabase
  import opened Scanning
  import opened SyncWorker
  import opened IdealRun
  import opened Agreement
  import opened Recovery
  import opened Witnessing

  // ---------- Positions ----------

  lemma {:induction false} InsertAllIndexed(t: Tree, cs: seq<Commitment>, keep: set<Commitment>)
    requires IndexOk(t) && Distinct(cs) && forall c <- cs :: c in keep && c !in t.index
    ensures var t' := InsertAll(t, cs, keep);
            && IndexOk(t') && t'.index.Keys == t.index.Keys + ToSet(cs)
            && forall c <- t.index :: t'.index[c] == t.index[c]
    decreases |cs|
  {
    hide IndexOk, Insert, NextPosition, Holds;
    if cs == [] {
      assert ToSet(cs) == {};
    } else {
      var init, last := cs[..|cs| - 1], cs[|cs| - 1];
      assert cs == init + [last];
      assert ToSet(cs) == ToSet(init) + {last};
      NewInBlock(init, last);
      InsertAllIndexed(t, init, keep);
      InsertHolds(InsertAll(t, init, keep), true, last);
    }
  }

  /** The commitments inserted take the next places in order. */
  lemma {:induction false} InsertAllPlaces(t: Tree, cs: seq<Commitment>, keep: set<Commitment>)
    requires IndexOk(t) && Distinct(cs) && forall c <- cs :: c in keep && c !in t.index
    ensures var p, t' := NextPosition(t.epochs), InsertAll(t, cs, keep);
            && NextPosition(t'.epochs) == Position(p.epoch, p.block, p.commitment + |cs|)
            && forall i :: 0 <= i < |cs| ==> cs[i] in t'.index
                                             && t'.index[cs[i]] == Position(p.epoch, p.block, p.commitment + i)
    decreases |cs|
  {
    hide IndexOk, Insert, NextPosition, Holds, Distinct;
    if cs != [] {
      var init, last := cs[..|cs| - 1], cs[|cs| - 1];
      assert cs == init + [last];
      NewInBlock(init, last);
      InsertAllPlaces(t, init, keep);
      InsertAllIndexed(t, init, keep);
      hide InsertAll;
      InsertAllMore(t, init, keep, last);
      InsertHolds(InsertAll(t, init, keep), true, last);
      InsertNext(InsertAll(t, init, keep), true, last);
    }
  }

  /** Every commitment of the block has, in this index, the place that the chain gives it. */
  ghost predicate InPlace(blocks: seq<CompactBlock>, k: nat, index: map<Commitment, Position>)
    requires k < |blocks|
  {
    var cs := Commitments(blocks[k].payloads);
    forall i :: 0 <= i < |cs| ==> cs[i] in index && index[cs[i]] == PlaceOf(blocks, k, i)
  }

  /** The full tree can witness exactly the commitments of the chain so far, and never moves one. */
  lemma {:induction false} FullIndexed(node: FullNode, n: nat)
    requires ChainOk(node) && n <= |node.blocks|
    ensures IndexOk(FullTree(node, n)) && FullTree(node, n).index.Keys == Seen(node.blocks, n)
    ensures n > 0 ==> forall c <- FullTree(node, n - 1).index ::
                        c in FullTree(node, n).index && FullTree(node, n).index[c] == FullTree(node, n - 1).index[c]
    ensures n > 0 ==>
              var cs := Commitments(node.blocks[n - 1].payloads);
              FullTree(node, n).index == InsertAll(FullTree(node, n - 1), cs, ToSet(cs)).index
  {
    hide IndexOk, InsertAll, EndBlock, EndEpoch, ChainOk, Seen;
    if n == 0 {
      NothingSeen(node);
    } else {
      var cs := Commitments(node.blocks[n - 1].payloads);
      var before := FullTree(node, n - 1);
      FullIndexed(node, n - 1);
      SeenNext(node.blocks, n - 1);
      BlockIsNew(node, n - 1);
      InsertAllIndexed(before, cs, ToSet(cs));
      var inserted := InsertAll(before, cs, ToSet(cs));
      EndBlockHolds(inserted);
      EndEpochHolds(EndBlock(inserted));
    }
  }

  /** The full tree has each commitment at its place: by the epochs that ended before its block, the blocks since, and
      the commitments before it in the block. */
  lemma {:induction false} FullPlaces(node: FullNode, n: nat)
    requires ChainOk(node) && n <= |node.blocks|
    ensures forall k :: 0 <= k < n ==> InPlace(node.blocks, k, FullTree(node, n).index)
  {
    hide IndexOk, InsertAll, ChainOk, Seen, InPlace, NextPosition, FullTree, Distinct;
    if n > 0 {
      var cs := Commitments(node.blocks[n - 1].payloads);
      var before, after := FullTree(node, n - 1), FullTree(node, n).index;
      FullPlaces(node, n - 1);
      FullIndexed(node, n - 1);
      FullIndexed(node, n);
      FullLayout(node, n - 1);
      BlockIsNew(node, n - 1);
      InsertAllPlaces(before, cs, ToSet(cs));
      NewInPlace(node.blocks, n - 1, after);
      forall k | 0 <= k < n - 1 ensures InPlace(node.blocks, k, after) {
        StaysInPlace(node.blocks, k, before.index, after);
      }
    }
  }

  lemma StaysInPlace(blocks: seq<CompactBlock>, k: nat, before: map<Commitment, Position>,
                     after: map<Commitment, Position>)
    requires k < |blocks| && InPlace(blocks, k, before)
    requires forall c <- before :: c in after && after[c] == before[c]
    ensures InPlace(blocks, k, after)
  {
  }

  lemma NewInPlace(blocks: seq<CompactBlock>, k: nat, index: map<Commitment, Position>)
    requires k < |blocks|
    requires var cs, p := Commitments(blocks[k].payloads), PlaceOf(blocks, k, 0);
             forall i :: 0 <= i < |cs| ==>
               cs[i] in index && index[cs[i]] == Position(p.epoch, p.block, p.commitment + i)
    ensures InPlace(blocks, k, index)
  {
  }

  lemma NothingSeen(node: FullNode)
    ensures IndexOk(EMPTY) && EMPTY.index.Keys == Seen(node.blocks, 0)
  {
  }

  /** A record's position is where the full tree puts the commitment. */
  ghost predicate Placed(newNotes: map<Commitment, NoteRecord>, newSwaps: map<Commitment, SwapRecord>, full: Tree) {
    && (forall c <- newNotes :: c in full.index && full.index[c] == newNotes[c].position)
    && (forall c <- newSwaps :: c in full.index && full.index[c] == newSwaps[c].position)
  }

  lemma {:induction false} ScanPlaces(tree: Tree, full: Tree, ps: seq<Payload>, notes: map<Commitment, Note>,
                                      swaps: map<Commitment, Swap>, b: CompactBlock, keep: set<Commitment>)
    requires SameShape(tree, full) && !HasOpenBlock(tree.epochs) && !HasOpenBlock(full.epochs)
    requires IndexOk(full) && Distinct(Commitments(ps))
    requires forall c <- Commitments(ps) :: c in keep && c !in full.index
    ensures var s := ScanPayloads(tree, ps, notes, swaps, b);
            Placed(s.newNotes, s.newSwaps, InsertAll(full, Commitments(ps), keep))
    decreases |ps|
  {
    hide SameShape, HasOpenBlock, IndexOk, Placed, InsertAll, ScanPayload;
    if ps == [] {
      NothingPlaced(InsertAll(full, Commitments(ps), keep));
    } else {
      var init, p := ps[..|ps| - 1], ps[|ps| - 1];
      var cs := Commitments(init);
      assert Commitments(ps) == cs + [p.commitment];
      NewInBlock(cs, p.commitment);
      ScanPlaces(tree, full, init, notes, swaps, b, keep);
      ScanInsertsAll(tree, init, notes, swaps, b);
      SameNext(tree, full, cs, notes.Keys + swaps.Keys, keep);
      InsertAllIndexed(full, cs, keep);
      InsertAllMore(full, cs, keep, p.commitment);
      PayloadPlaced(ScanPayloads(tree, init, notes, swaps, b), InsertAll(full, cs, keep), p, notes, swaps, b);
    }
  }

  lemma NothingPlaced(full: Tree)
    ensures Placed(map[], map[], full)
  {
  }

  lemma InsertAllMore(t: Tree, cs: seq<Commitment>, keep: set<Commitment>, c: Commitment)
    ensures InsertAll(t, cs + [c], keep) == Insert(InsertAll(t, cs, keep), c in keep, c)
  {
    assert (cs + [c])[..|cs|] == cs;
  }

  /** After the same commitments, trees of the same shape put the next one at the same position. */
  lemma SameNext(tree: Tree, full: Tree, cs: seq<Commitment>, keep: set<Commitment>, all: set<Commitment>)
    requires SameShape(tree, full) && !HasOpenBlock(tree.epochs) && !HasOpenBlock(full.epochs)
    ensures NextPosition(InsertAll(tree, cs, keep).epochs) == NextPosition(InsertAll(full, cs, all).epochs)
  {
    InsertAllShape(tree, cs, keep);
    InsertAllShape(full, cs, all);
    hide InsertAll, Erase, NextPosition;
    SameShapeSameRoot(InsertAll(tree, cs, keep), InsertAll(full, cs, all));
  }

  lemma PayloadPlaced(s: Scan, full: Tree, p: Payload, notes: map<Commitment, Note>, swaps: map<Commitment, Swap>,
                      b: CompactBlock)
    requires Placed(s.newNotes, s.newSwaps, full) && IndexOk(full) && p.commitment !in full.index
    requires NextPosition(s.tree.epochs) == NextPosition(full.epochs)
    ensures var s' := ScanPayload(s, p, notes, swaps, b);
            Placed(s'.newNotes, s'.newSwaps, Insert(full, true, p.commitment))
  {
    hide IndexOk, Insert, NextPosition, OutputNotes;
    InsertHolds(full, true, p.commitment);
  }

  // ---------- Completeness of a scan ----------

  /** Our notes in the block, and our swaps that the block says the output of, are all recorded. */
  ghost predicate FoundAll(ps: seq<Payload>, notes: map<Commitment, Note>, swaps: map<Commitment, Swap>,
                           b: CompactBlock, newNotes: map<Commitment, NoteRecord>,
                           newSwaps: map<Commitment, SwapRecord>) {
    forall p <- ps ::
      && (p.commitment in notes ==> p.commitment in newNotes)
      && (p.commitment !in notes && p.commitment in swaps && swaps[p.commitment].pair in b.swapOutputs ==>
            p.commitment in newSwaps)
  }

  lemma {:induction false} ScanFindsAll(tree: Tree, ps: seq<Payload>, notes: map<Commitment, Note>,
                                        swaps: map<Commitment, Swap>, b: CompactBlock)
    ensures var s := ScanPayloads(tree, ps, notes, swaps, b);
            FoundAll(ps, notes, swaps, b, s.newNotes, s.newSwaps)
    decreases |ps|
  {
    hide Insert, NextPosition, OutputNotes;
    if ps != [] {
      ScanFindsAll(tree, ps[..|ps| - 1], notes, swaps, b);
      assert ps == ps[..|ps| - 1] + [ps[|ps| - 1]];
    }
  }

  /** Records hold what was recognized and the output the block gives. */
  ghost predicate Faithful(notes: map<Commitment, Note>, swaps: map<Commitment, Swap>, b: CompactBlock,
                           newNotes: map<Commitment, NoteRecord>, newSwaps: map<Commitment, SwapRecord>) {
    && (forall c <- newNotes :: c in notes && newNotes[c].note == notes[c] && newNotes[c].heightCreated == b.height)
    && (forall c <- newSwaps :: c in swaps && newSwaps[c].swap == swaps[c]
          && swaps[c].pair in b.swapOutputs && newSwaps[c].outputData == b.swapOutputs[swaps[c].pair])
  }

  lemma {:induction false} ScanFaithful(tree: Tree, ps: seq<Payload>, notes: map<Commitment, Note>,
                                        swaps: map<Commitment, Swap>, b: CompactBlock)
    ensures var s := ScanPayloads(tree, ps, notes, swaps, b);
            Faithful(notes, swaps, b, s.newNotes, s.newSwaps)
    decreases |ps|
  {
    hide Insert, NextPosition, OutputNotes;
    if ps != [] { ScanFaithful(tree, ps[..|ps| - 1], notes, swaps, b); }
  }

  // ---------- What a planned block records ----------

  /** Every note we decrypt in the block, and every swap we decrypt whose output it gives, is recorded, at the place
      the full tree has for it. */
  ghost predicate PlanTrue(b: CompactBlock, fb: FilteredBlock, full: Tree) {
    && Placed(fb.newNotes, fb.newSwaps, full)
    && (forall c <- fb.newSwaps :: fb.newSwaps[c].swap.pair in b.swapOutputs
          && fb.newSwaps[c].outputData == b.swapOutputs[fb.newSwaps[c].swap.pair])
    && (forall note <- DecryptedNotes(b.payloads) :: OfNote(note) in fb.newNotes)
    && (forall swap <- DecryptedSwaps(b.payloads) :: swap.pair in b.swapOutputs ==> OfSwap(swap) in fb.newSwaps)
  }

  lemma PlanIsTrue(db: Database, tree: Tree, b: CompactBlock, all: seq<Tx>, metadata: map<AssetId, Denom>, full: Tree)
    requires RowsOk(db) && b.RequiresScanning()
    requires SameShape(tree, full) && !HasOpenBlock(tree.epochs) && !HasOpenBlock(full.epochs) && IndexOk(full)
    requires Distinct(Commitments(b.payloads)) && forall c <- Commitments(b.payloads) :: c !in full.index
    requires forall p <- b.payloads :: p.Valid()
    ensures var cs := Commitments(b.payloads);
            PlanTrue(b, PlanBlock(db, tree, b, all, metadata).fb, InsertAll(full, cs, ToSet(cs)))
  {
    hide IndexOk, SameShape, HasOpenBlock, InsertAll, RowsOk, PlanTrue, PlanBlock, ScanBlockSpec, ScanPayloads,
      NoteAdvice, SwapAdvice, FetchSpec, FilterNullifiers, Placed, FoundAll, Faithful;
    var cs := Commitments(b.payloads);
    var notes, swaps := NoteAdvice(db, b.payloads), SwapAdvice(b.payloads);
    var fullAfter := InsertAll(full, cs, ToSet(cs));
    AdviceKeyed(db, b.payloads);
    ScanPlaces(tree, full, b.payloads, notes, swaps, b, ToSet(cs));
    ScanFindsAll(tree, b.payloads, notes, swaps, b);
    ScanFaithful(tree, b.payloads, notes, swaps, b);
    ScanTrue(db, b, ScanPayloads(tree, b.payloads, notes, swaps, b), fullAfter);
    if notes == map[] && swaps == map[] { NothingOurs(db, b, fullAfter); }
    PlannedRecords(db, tree, b, all, metadata);
    RehydrateTrue(b, FilterBlock(db, ScanBlockSpec(db, tree, b), b), all, fullAfter);
  }

  lemma ScanTrue(db: Database, b: CompactBlock, s: Scan, full: Tree)
    requires var notes, swaps := NoteAdvice(db, b.payloads), SwapAdvice(b.payloads);
             && FoundAll(b.payloads, notes, swaps, b, s.newNotes, s.newSwaps)
             && Faithful(notes, swaps, b, s.newNotes, s.newSwaps)
             && (forall c <- notes :: c.OfNote?) && (forall c <- swaps :: c == OfSwap(swaps[c]))
    requires Placed(s.newNotes, s.newSwaps, full) && forall p <- b.payloads :: p.Valid()
    ensures forall fb: FilteredBlock :: fb.newNotes == s.newNotes && fb.newSwaps == s.newSwaps ==> PlanTrue(b, fb, full)
  {
    hide Placed;
    forall note | note in DecryptedNotes(b.payloads) ensures OfNote(note) in s.newNotes {
      var p :| p in b.payloads && p.NotePayload? && p.decryptedNote == Some(note);
      assert p.commitment == OfNote(note) && OfNote(note) in NoteAdvice(db, b.payloads);
    }
    forall swap | swap in DecryptedSwaps(b.payloads) && swap.pair in b.swapOutputs ensures OfSwap(swap) in s.newSwaps {
      var p :| p in b.payloads && p.SwapPayload? && p.decryptedSwap == Some(swap);
      assert p.commitment == OfSwap(swap) && OfSwap(swap) in SwapAdvice(b.payloads);
    }
  }

  /** A block with nothing we recognize decrypts to nothing. */
  lemma NothingOurs(db: Database, b: CompactBlock, full: Tree)
    requires NoteAdvice(db, b.payloads) == map[] && SwapAdvice(b.payloads) == map[]
    ensures forall fb: FilteredBlock :: fb.newNotes == map[] && fb.newSwaps == map[] ==> PlanTrue(b, fb, full)
  {
    NothingPlaced(full);
    DecryptedIsAdvice(db, b.payloads);
    hide Placed, NoteAdvice, SwapAdvice;
  }

  lemma RehydrateTrue(b: CompactBlock, fb: FilteredBlock, txs: seq<Tx>, full: Tree)
    requires PlanTrue(b, fb, full)
    ensures PlanTrue(b, FetchSpec(fb, txs).0, full)
  {
    hide SourceFrom, RelevantTxs, DecryptedNotes, DecryptedSwaps;
  }

  // ---------- What the rows say ----------

  /** The height says which block after the created one revealed the nullifier last, or that none has. */
  ghost predicate RevealedAt(node: FullNode, nf: Nullifier, created: nat, n: nat, height: Option<nat>)
    requires n <= |node.blocks|
  {
    match height
    case None => forall k :: created < k < n ==> nf !in node.blocks[k].nullifiers
    case Some(h) =>
      created < h < n && nf in node.blocks[h].nullifiers && forall k :: h < k < n ==> nf !in node.blocks[k].nullifiers
  }

  /** The commitment is one of the block's, and the position is its place on the chain. */
  ghost predicate MadeAt(node: FullNode, c: Commitment, created: nat, n: nat, p: Position)
    requires n <= |node.blocks|
  {
    && created < n
    && exists i :: 0 <= i < |node.blocks[created].payloads|
                   && node.blocks[created].payloads[i].commitment == c && p == PlaceOf(node.blocks, created, i)
  }

  ghost predicate NoteTrue(node: FullNode, c: Commitment, row: SpendableRow, n: nat)
    requires n <= |node.blocks|
  {
    && MadeAt(node, c, row.heightCreated, n, row.position)
    && RevealedAt(node, Nullifier(row.position, c), row.heightCreated, n, row.heightSpent)
  }

  ghost predicate SwapTrue(node: FullNode, c: Commitment, row: SwapRow, n: nat)
    requires n <= |node.blocks|
  {
    exists created: nat ::
      && MadeAt(node, c, created, n, row.position)
      && row.swap.pair in node.blocks[created].swapOutputs
      && row.outputData == node.blocks[created].swapOutputs[row.swap.pair]
      && RevealedAt(node, Nullifier(row.position, c), created, n, row.heightClaimed)
  }

  ghost predicate RowsTrue(node: FullNode, db: Database, n: nat)
    requires n <= |node.blocks|
  {
    && (forall c <- db.spendable :: NoteTrue(node, c, db.spendable[c], n))
    && (forall c <- db.swaps :: SwapTrue(node, c, db.swaps[c], n))
  }

  /** Every note and swap we can decrypt in the blocks so far has its row. */
  ghost predicate Complete(node: FullNode, db: Database, n: nat)
    requires n <= |node.blocks|
  {
    && (forall i :: 0 <= i < n ==>
        forall note <- DecryptedNotes(node.blocks[i].payloads) :: OfNote(note) in db.spendable)
    && (forall i :: 0 <= i < n ==> forall swap <- DecryptedSwaps(node.blocks[i].payloads) ::
          swap.pair in node.blocks[i].swapOutputs ==> OfSwap(swap) in db.swaps)
  }

  lemma MadeLater(node: FullNode, c: Commitment, created: nat, n: nat, p: Position)
    requires n < |node.blocks| && MadeAt(node, c, created, n, p)
    ensures MadeAt(node, c, created, n + 1, p)
  {
  }

  /** One more block, with the row marked exactly if the block reveals its nullifier. */
  lemma RevealedLater(node: FullNode, nf: Nullifier, created: nat, n: nat, height: Option<nat>)
    requires n < |node.blocks| && created < n && RevealedAt(node, nf, created, n, height)
    ensures RevealedAt(node, nf, created, n + 1, if nf in node.blocks[n].nullifiers then Some(n) else height)
  {
  }

  /** A new record is true of its own block, which does not reveal its nullifier. */
  lemma NewIsTrue(node: FullNode, n: nat, c: Commitment, p: Position)
    requires ChainOk(node) && n < |node.blocks| && c in Commitments(node.blocks[n].payloads)
    requires c in FullTree(node, n + 1).index && FullTree(node, n + 1).index[c] == p
    ensures MadeAt(node, c, n, n + 1, p) && RevealedAt(node, Nullifier(p, c), n, n + 1, None)
    ensures Nullifier(p, c) !in node.blocks[n].nullifiers
  {
    hide ChainOk, FullTree, Seen, InPlace, MadeAt, IndexOk, InsertAll;
    FullPlaces(node, n + 1);
    FromPlace(node, n, FullTree(node, n + 1).index, c);
    NotRevealed(node, n, c, p);
  }

  lemma FromPlace(node: FullNode, n: nat, index: map<Commitment, Position>, c: Commitment)
    requires n < |node.blocks| && InPlace(node.blocks, n, index)
    requires c in Commitments(node.blocks[n].payloads) && c in index
    ensures MadeAt(node, c, n, n + 1, index[c])
  {
    var cs := Commitments(node.blocks[n].payloads);
    var i :| 0 <= i < |cs| && cs[i] == c;
    assert node.blocks[n].payloads[i].commitment == c;
  }

  /** A block does not reveal nullifiers of its own commitments. */
  lemma NotRevealed(node: FullNode, n: nat, c: Commitment, p: Position)
    requires ChainOk(node) && n < |node.blocks| && c in Commitments(node.blocks[n].payloads)
    ensures Nullifier(p, c) !in node.blocks[n].nullifiers
  {
    hide Seen;
  }

  /** An older note's row after one more block. */
  lemma OldNote(node: FullNode, n: nat, c: Commitment, row: SpendableRow)
    requires ChainOk(node) && n < |node.blocks| && NoteTrue(node, c, row, n)
             && row.nullifier == Nullifier(row.position, c)
    ensures NoteTrue(node, c, row.(heightSpent := if row.nullifier in ToSet(node.blocks[n].nullifiers) then Some(n)
                                                  else row.heightSpent), n + 1)
  {
    hide ChainOk, FullTree, MadeAt, RevealedAt;
    MadeLater(node, c, row.heightCreated, n, row.position);
    Created(node, c, row.heightCreated, n, row.position);
    RevealedLater(node, row.nullifier, row.heightCreated, n, row.heightSpent);
  }

  lemma OldSwap(node: FullNode, n: nat, c: Commitment, row: SwapRow)
    requires ChainOk(node) && n < |node.blocks| && SwapTrue(node, c, row, n)
             && row.nullifier == Nullifier(row.position, c)
    ensures SwapTrue(node, c, row.(heightClaimed := if row.nullifier in ToSet(node.blocks[n].nullifiers) then Some(n)
                                                    else row.heightClaimed), n + 1)
  {
    var created: nat :| MadeAt(node, c, created, n, row.position)
      && row.swap.pair in node.blocks[created].swapOutputs
      && row.outputData == node.blocks[created].swapOutputs[row.swap.pair]
      && RevealedAt(node, Nullifier(row.position, c), created, n, row.heightClaimed);
    MadeLater(node, c, created, n, row.position);
    Created(node, c, created, n, row.position);
    RevealedLater(node, row.nullifier, created, n, row.heightClaimed);
    hide ChainOk, FullTree, MadeAt, RevealedAt;
  }

  ghost predicate NewIn(node: FullNode, n: nat, fb: FilteredBlock)
    requires n < |node.blocks|
  {
    && FilteredOk(fb) && fb.height == n && PlanTrue(node.blocks[n], fb, FullTree(node, n + 1))
    && forall c :: c in fb.newNotes || c in fb.newSwaps ==> c in Commitments(node.blocks[n].payloads)
  }

  lemma NewNote(node: FullNode, n: nat, fb: FilteredBlock, c: Commitment)
    requires ChainOk(node) && n < |node.blocks| && NewIn(node, n, fb) && c in fb.newNotes
    ensures NoteTrue(node, c, RowOf(fb.newNotes[c], n), n + 1)
    ensures fb.newNotes[c].nullifier !in ToSet(node.blocks[n].nullifiers)
  {
    NewIsTrue(node, n, c, fb.newNotes[c].position);
    hide ChainOk, FullTree, MadeAt, RevealedAt;
  }

  lemma NewSwap(node: FullNode, n: nat, fb: FilteredBlock, c: Commitment)
    requires ChainOk(node) && n < |node.blocks| && NewIn(node, n, fb) && c in fb.newSwaps
    ensures SwapTrue(node, c, SwapRowOf(fb.newSwaps[c]), n + 1)
    ensures fb.newSwaps[c].nullifier !in ToSet(node.blocks[n].nullifiers)
  {
    NewIsTrue(node, n, c, fb.newSwaps[c].position);
    hide ChainOk, FullTree, MadeAt, RevealedAt;
  }

  lemma StepNotes(node: FullNode, n: nat, ready: Database, fb: FilteredBlock, after: map<Commitment, SpendableRow>)
    requires ChainOk(node) && n < |node.blocks| && RowsTrue(node, ready, n) && RowsOk(ready) && NewIn(node, n, fb)
    requires after == SpendRows(ready.spendable + RowColumn(fb.newNotes, n), ToSet(node.blocks[n].nullifiers), n)
    ensures forall c <- after :: NoteTrue(node, c, after[c], n + 1)
  {
    hide ChainOk, FullTree, SwapTrue, NoteTrue, NewIn, ToSet;
    forall c | c in after ensures NoteTrue(node, c, after[c], n + 1) {
      if c in fb.newNotes {
        NewNote(node, n, fb, c);
      } else {
        OldNote(node, n, c, ready.spendable[c]);
      }
    }
  }

  lemma StepSwaps(node: FullNode, n: nat, ready: Database, fb: FilteredBlock, after: map<Commitment, SwapRow>)
    requires ChainOk(node) && n < |node.blocks| && RowsTrue(node, ready, n) && RowsOk(ready) && NewIn(node, n, fb)
    requires after == ClaimRows(ready.swaps + SwapColumn(fb.newSwaps), ToSet(node.blocks[n].nullifiers), n)
    ensures forall c <- after :: SwapTrue(node, c, after[c], n + 1)
  {
    hide ChainOk, FullTree, SwapTrue, NoteTrue, NewIn, ToSet;
    forall c | c in after ensures SwapTrue(node, c, after[c], n + 1) {
      if c in fb.newSwaps {
        NewSwap(node, n, fb, c);
      } else {
        OldSwap(node, n, c, ready.swaps[c]);
      }
    }
  }

  /** The rows of both tables after a block whose transaction sees all of the block's nullifiers. */
  lemma StepRows(node: FullNode, n: nat, ready: Database, fb: FilteredBlock, after: Database)
    requires ChainOk(node) && n < |node.blocks| && RowsTrue(node, ready, n) && RowsOk(ready) && NewIn(node, n, fb)
    requires after.spendable == SpendRows(Recorded(ready, fb).spendable, ToSet(node.blocks[n].nullifiers), n)
    requires after.swaps == ClaimRows(Recorded(ready, fb).swaps, ToSet(node.blocks[n].nullifiers), n)
    ensures RowsTrue(node, after, n + 1)
  {
    hide ChainOk, FullTree, NewIn, ToSet, SpendRows, ClaimRows, RowColumn, SwapColumn, NoteColumn, NoteTrue, SwapTrue,
      RowsOk;
    NewHeight(node, n, fb);
    StepNotes(node, n, ready, fb, after.spendable);
    StepSwaps(node, n, ready, fb, after.swaps);
  }

  lemma NewHeight(node: FullNode, n: nat, fb: FilteredBlock)
    requires n < |node.blocks| && NewIn(node, n, fb)
    ensures fb.height == n
  {
    hide FullTree;
  }

  lemma Created(node: FullNode, c: Commitment, created: nat, n: nat, p: Position)
    requires n <= |node.blocks| && MadeAt(node, c, created, n, p)
    ensures created < n
  {
  }

  /** What the uninterrupted run plans for a block is true of it. */
  lemma IdealPlanTrue(node: FullNode, n: nat)
    requires ChainOk(node) && n < |node.blocks| && node.blocks[n].RequiresScanning()
    ensures NewIn(node, n, IdealPlan(node, n).fb)
  {
    hide Ideal, FullTree, ChainOk, Seen, Witnessable, RowsOk, AssetsOk, SameShape, HasOpenBlock, IndexOk, InsertAll,
      PlanTrue, FilteredOk, BlockOk, Root, NextPosition, CountBlocks, PlanBlock;
    var p, b, full := Ideal(node, n), node.blocks[n], FullTree(node, n);
    var cs := Commitments(b.payloads);
    IdealOk(node, n);
    IdealWitness(node, n);
    SparseRefinesFull(node, n);
    SameOpen(p.tree, full);
    FullIndexed(node, n);
    FullIndexed(node, n + 1);
    BlockIsNew(node, n);
    PayloadsValid(node, n);
    WitnessIndex(p.db, p.tree, node.metadata);
    RootIsBlockRoot(node, n);
    PlanIsTrue(p.db, p.tree, b, Transactions(node, n), node.metadata, full);
    PlanOk(p.db, p.tree, b, Transactions(node, n), node.metadata);
    PlanIndexed(p.db, p.tree, b, Transactions(node, n), node.metadata);
    TrueIndex(b, IdealPlan(node, n).fb, InsertAll(full, cs, ToSet(cs)), FullTree(node, n + 1));
    PlanHeight(p.db, p.tree, b, Transactions(node, n), node.metadata);
  }

  lemma PlanHeight(db: Database, tree: Tree, b: CompactBlock, all: seq<Tx>, metadata: map<AssetId, Denom>)
    ensures PlanBlock(db, tree, b, all, metadata).fb.height == b.height
  {
    hide ScanBlockSpec, FilterNullifiers, RelevantTxs;
  }

  lemma SameOpen(t: Tree, u: Tree)
    requires SameShape(t, u)
    ensures HasOpenBlock(t.epochs) == HasOpenBlock(u.epochs)
  {
    ErasePosition(t.epochs);
    ErasePosition(u.epochs);
  }

  lemma TrueIndex(b: CompactBlock, fb: FilteredBlock, full: Tree, sealed: Tree)
    requires PlanTrue(b, fb, full) && full.index == sealed.index
    ensures PlanTrue(b, fb, sealed)
  {
  }

  /** After any number of blocks of the chain, the uninterrupted run has a row for every note and swap of ours, and
      every row tells where its commitment is, which block made it, and which block revealed its nullifier. */
  lemma {:induction false} IdealTrue(node: FullNode, n: nat)
    requires ChainOk(node) && n <= |node.blocks|
    ensures RowsTrue(node, Ideal(node, n).db, n) && Complete(node, Ideal(node, n).db, n)
  {
    hide Ideal, FullTree, ChainOk, BlockOk, RowsTrue, Complete, RowsOk, AssetsOk, PlanBlock, ApplyAll, RecordAssets,
      CommitBlock, Witnessable, NewIn, IndexOk;
    if n == 0 {
      FreshOk(node);
      FreshTrue(node);
    } else {
      IdealTrue(node, n - 1);
      if node.blocks[n - 1].RequiresScanning() {
        StepTrue(node, n - 1);
      } else {
        IdealEmpty(node, n - 1);
        IdealOk(node, n - 1);
        QuietTrue(node, n - 1, Ideal(node, n - 1).db, Ideal(node, n).db);
      }
    }
  }

  lemma FreshTrue(node: FullNode)
    ensures RowsTrue(node, INITIAL, 0) && Complete(node, INITIAL, 0)
  {
  }

  /** An empty block decrypts to nothing and reveals nothing. */
  lemma QuietTrue(node: FullNode, n: nat, db: Database, u: Database)
    requires ChainOk(node) && n < |node.blocks| && !node.blocks[n].RequiresScanning()
    requires RowsTrue(node, db, n) && Complete(node, db, n) && RowsOk(db)
    requires u.spendable == db.spendable && u.swaps == db.swaps
    ensures RowsTrue(node, u, n + 1) && Complete(node, u, n + 1)
  {
    hide ChainOk, FullTree, NoteTrue, SwapTrue, ToSet;
    NoNullifiers(node.blocks[n]);
    forall c | c in u.spendable ensures NoteTrue(node, c, u.spendable[c], n + 1) {
      OldNote(node, n, c, db.spendable[c]);
    }
    forall c | c in u.swaps ensures SwapTrue(node, c, u.swaps[c], n + 1) {
      OldSwap(node, n, c, db.swaps[c]);
    }
    assert DecryptedNotes(node.blocks[n].payloads) == {} && DecryptedSwaps(node.blocks[n].payloads) == {};
  }

  lemma NoNullifiers(b: CompactBlock)
    requires !b.RequiresScanning()
    ensures ToSet(b.nullifiers) == {}
  {
  }

  lemma StepTrue(node: FullNode, n: nat)
    requires ChainOk(node) && n < |node.blocks| && node.blocks[n].RequiresScanning()
    requires RowsTrue(node, Ideal(node, n).db, n) && Complete(node, Ideal(node, n).db, n)
    ensures RowsTrue(node, Ideal(node, n + 1).db, n + 1) && Complete(node, Ideal(node, n + 1).db, n + 1)
  {
    var p, w, b := Ideal(node, n), IdealPlan(node, n), node.blocks[n];
    var ready := RecordAssets(ApplyAll(p.db, w.writes), w.assets, node.metadata);
    IdealOk(node, n);
    IdealWitness(node, n);
    IdealScanned(node, n);
    IdealPlanTrue(node, n);
    WitnessIndex(p.db, p.tree, node.metadata);
    hide Ideal, FullTree, ChainOk, RowsTrue, Complete, RowsOk, AssetsOk, ApplyAll, Witnessable, NewIn, IndexOk, Seen,
      Recorded, SpendRows, ClaimRows;
    BlockFacts(node, n);
    PlanFilteringLosesNothing(p.db, p.tree, b, Seen(node.blocks, n), Transactions(node, n), node.metadata);
    PlanOk(p.db, p.tree, b, Transactions(node, n), node.metadata);
    FinishRowsOk(p, b, w, node.metadata);
    ReadyFrame(p.db, w.writes, w.assets, node.metadata);
    hide PlanBlock, BlockOk, RecordAssets;
    var all := w.fb.(spentNullifiers := b.nullifiers);
    RowsAfter(ready, all, w.txs, w.tree);
    var after := Ideal(node, n + 1).db;
    assert after == CommitBlock(ready, all, w.txs, w.tree).0;
    hide CommitBlock;
    SameRecords(ready, w.fb, b.nullifiers);
    NewHeight(node, n, w.fb);
    RowsTrueFrame(node, p.db, ready, n);
    StepRows(node, n, ready, w.fb, after);
    StepComplete(node, n, ready, w.fb, after);
  }

  lemma BlockFacts(node: FullNode, n: nat)
    requires ChainOk(node) && n < |node.blocks|
    ensures BlockOk(node.blocks[n], Seen(node.blocks, n))
  {
  }

  lemma SameRecords(db: Database, fb: FilteredBlock, nfs: seq<Nullifier>)
    ensures Recorded(db, fb.(spentNullifiers := nfs)) == Recorded(db, fb)
  {
  }

  lemma RowsTrueFrame(node: FullNode, db: Database, u: Database, n: nat)
    requires n <= |node.blocks| && SameCore(db, u) && RowsTrue(node, db, n) && Complete(node, db, n)
    ensures RowsTrue(node, u, n) && Complete(node, u, n)
  {
  }

  lemma RecordedKeys(db: Database, fb: FilteredBlock)
    ensures Recorded(db, fb).spendable.Keys == db.spendable.Keys + fb.newNotes.Keys
    ensures Recorded(db, fb).swaps.Keys == db.swaps.Keys + fb.newSwaps.Keys
  {
  }

  lemma StepComplete(node: FullNode, n: nat, ready: Database, fb: FilteredBlock, after: Database)
    requires n < |node.blocks| && Complete(node, ready, n) && NewIn(node, n, fb)
    requires after.spendable == SpendRows(Recorded(ready, fb).spendable, ToSet(node.blocks[n].nullifiers), n)
    requires after.swaps == ClaimRows(Recorded(ready, fb).swaps, ToSet(node.blocks[n].nullifiers), n)
    ensures Complete(node, after, n + 1)
  {
    hide FullTree, FilteredOk, Placed, DecryptedNotes, DecryptedSwaps, ToSet, SpendRows, ClaimRows, Recorded,
      Complete;
    RecordedKeys(ready, fb);
    MarkedKeys(Recorded(ready, fb), ToSet(node.blocks[n].nullifiers), n);
    MoreComplete(node, n, ready, fb, after);
  }

  lemma MoreComplete(node: FullNode, n: nat, ready: Database, fb: FilteredBlock, after: Database)
    requires n < |node.blocks| && Complete(node, ready, n) && PlanTrue(node.blocks[n], fb, FullTree(node, n + 1))
    requires ready.spendable.Keys + fb.newNotes.Keys <= after.spendable.Keys
    requires ready.swaps.Keys + fb.newSwaps.Keys <= after.swaps.Keys
    ensures Complete(node, after, n + 1)
  {
    hide FullTree, Placed, DecryptedNotes, DecryptedSwaps;
    forall i | 0 <= i < n + 1
      ensures forall note <- DecryptedNotes(node.blocks[i].payloads) :: OfNote(note) in after.spendable.Keys
      ensures forall swap <- DecryptedSwaps(node.blocks[i].payloads) ::
                swap.pair in node.blocks[i].swapOutputs ==> OfSwap(swap) in after.swaps.Keys
    {
    }
  }

  /** The same in every run, whatever the crashes, between blocks. */
  lemma RunTrue(node: FullNode, run: seq<System>, i: nat)
    requires ChainOk(node) && Run(node, run) && i < |run| && run[i].Idle()
    ensures run[i].Next() <= |node.blocks|
    ensures RowsTrue(node, run[i].db, run[i].Next())
    ensures forall k :: 0 <= k < run[i].Next() ==> forall p <- node.blocks[k].payloads ::
              && (p.NotePayload? && p.decryptedNote.Some? ==> OfNote(p.decryptedNote.value) in run[i].db.spendable)
              && (p.SwapPayload? && p.decryptedSwap.Some?
                  && p.decryptedSwap.value.pair in node.blocks[k].swapOutputs ==>
                    OfSwap(p.decryptedSwap.value) in run[i].db.swaps)
  {
    hide Ideal, ChainOk, RowsTrue, Complete, Run, SameCore, AssetsOk;
    CrashRecovery(node, run, i);
    IdealTrue(node, run[i].Next());
    SameCoreBack(run[i].db, Ideal(node, run[i].Next()).db);
    RowsTrueFrame(node, Ideal(node, run[i].Next()).db, run[i].db, run[i].Next());
    EachFound(node, run[i].db, run[i].Next());
  }

  lemma EachFound(node: FullNode, db: Database, n: nat)
    requires n <= |node.blocks| && Complete(node, db, n)
    ensures forall k :: 0 <= k < n ==> forall p <- node.blocks[k].payloads ::
              && (p.NotePayload? && p.decryptedNote.Some? ==> OfNote(p.decryptedNote.value) in db.spendable)
              && (p.SwapPayload? && p.decryptedSwap.Some?
                  && p.decryptedSwap.value.pair in node.blocks[k].swapOutputs ==>
                    OfSwap(p.decryptedSwap.value) in db.swaps)
  {
    forall k, p | 0 <= k < n && p in node.blocks[k].payloads
      ensures p.NotePayload? && p.decryptedNote.Some? ==> OfNote(p.decryptedNote.value) in db.spendable
      ensures p.SwapPayload? && p.decryptedSwap.Some? && p.decryptedSwap.value.pair in node.blocks[k].swapOutputs ==>
                OfSwap(p.decryptedSwap.value) in db.swaps
    {
      var ps := node.blocks[k].payloads;
      assert p.NotePayload? && p.decryptedNote.Some? ==> p.decryptedNote.value in DecryptedNotes(ps);
      assert p.SwapPayload? && p.decryptedSwap.Some? ==> p.decryptedSwap.value in DecryptedSwaps(ps);
    }
  }

  // ---------- Swap claims ----------

  /** The two notes a swap pays out: of each asset of its pair the batch's amount of it, to the swap's claim address. */
  predicate PaysOut(swap: Swap, data: OutputData, note: Note) {
    || note == Note(swap.pair.asset1, data.amount1, swap.claimAddress, Derived(swap, 1))
    || note == Note(swap.pair.asset2, data.amount2, swap.claimAddress, Derived(swap, 2))
  }

  /** The notes our swaps pay out are known in advance, from the block that gives the swap's output on. */
  ghost predicate OutputsKnown(node: FullNode, db: Database, n: nat)
    requires n <= |node.blocks|
  {
    forall i :: 0 <= i < n ==> forall swap <- DecryptedSwaps(node.blocks[i].payloads) ::
      swap.pair in node.blocks[i].swapOutputs ==>
        forall note :: PaysOut(swap, node.blocks[i].swapOutputs[swap.pair], note) ==> OfNote(note) in db.notes
  }

  /** Every claimed output of our swaps, which no later block's payloads decrypt to, has its row. */
  ghost predicate ClaimsFound(node: FullNode, db: Database, n: nat)
    requires n <= |node.blocks|
  {
    forall i, j :: 0 <= i < j < n ==> forall swap <- DecryptedSwaps(node.blocks[i].payloads) ::
      swap.pair in node.blocks[i].swapOutputs ==>
        forall note :: PaysOut(swap, node.blocks[i].swapOutputs[swap.pair], note) ==>
          forall p <- node.blocks[j].payloads ::
            p.RolledUp? && p.commitment == OfNote(note) ==> p.commitment in db.spendable
  }

  /** Scanning a swap whose output the block gives gives advice of both its output notes. */
  lemma {:induction false} ScanGives(tree: Tree, ps: seq<Payload>, notes: map<Commitment, Note>,
                                     swaps: map<Commitment, Swap>, b: CompactBlock, c: Commitment)
    requires c in Commitments(ps) && c !in notes && c in swaps && swaps[c].pair in b.swapOutputs
    ensures forall note :: PaysOut(swaps[c], b.swapOutputs[swaps[c].pair], note) ==>
              note in ScanPayloads(tree, ps, notes, swaps, b).advice
    decreases |ps|
  {
    hide Insert, NextPosition;
    var init, p := ps[..|ps| - 1], ps[|ps| - 1];
    assert Commitments(ps) == Commitments(init) + [p.commitment];
    if c in Commitments(init) { ScanGives(tree, init, notes, swaps, b, c); }
  }

  lemma PlanGives(db: Database, tree: Tree, b: CompactBlock, all: seq<Tx>, metadata: map<AssetId, Denom>, swap: Swap)
    requires RowsOk(db) && b.RequiresScanning() && forall p <- b.payloads :: p.Valid()
    requires swap in DecryptedSwaps(b.payloads) && swap.pair in b.swapOutputs
    ensures forall note :: PaysOut(swap, b.swapOutputs[swap.pair], note) ==>
              OfNote(note) in AdviceOf(PlanBlock(db, tree, b, all, metadata).writes)
  {
    var notes, swaps := NoteAdvice(db, b.payloads), SwapAdvice(b.payloads);
    var p :| p in b.payloads && p.SwapPayload? && p.decryptedSwap == Some(swap);
    AdviceKeyed(db, b.payloads);
    DecryptedIsAdvice(db, b.payloads);
    InCommitments(b.payloads, p);
    hide NoteAdvice, SwapAdvice, RowsOk, DecryptedSwaps;
    ScanGives(tree, b.payloads, notes, swaps, b, OfSwap(swap));
    var advice := PlanWrites(db, tree, b, all, metadata);
    hide PlanBlock, AdviceOf, ScanPayloads, PaysOut, EpochWrites, AdviceWrites;
    forall note | PaysOut(swap, b.swapOutputs[swap.pair], note)
      ensures OfNote(note) in AdviceOf(EpochWrites(b) + AdviceWrites(advice))
    {
      WrittenAdvice(b, advice, note);
    }
  }

  lemma WrittenAdvice(b: CompactBlock, advice: seq<Note>, note: Note)
    requires note in advice
    ensures OfNote(note) in AdviceOf(EpochWrites(b) + AdviceWrites(advice))
  {
    var ws := EpochWrites(b) + AdviceWrites(advice);
    var i :| 0 <= i < |advice| && advice[i] == note;
    assert ws[|EpochWrites(b)| + i] == AdviceWrite(note);
    assert AdviceWrite(note) in ws;
    AdviceOfIff(ws, OfNote(note));
  }

  /** A rolled-up commitment of a known note that was not seen before is recorded. */
  lemma PlanFindsAdvice(db: Database, tree: Tree, b: CompactBlock, all: seq<Tx>, metadata: map<AssetId, Denom>,
                        p: Payload)
    requires RowsOk(db) && b.RequiresScanning() && p in b.payloads && p.RolledUp?
    requires p.commitment in db.notes && p.commitment !in db.spendable
    ensures p.commitment in PlanBlock(db, tree, b, all, metadata).fb.newNotes
  {
    hide PlanBlock, ScanBlockSpec, ScanPayloads, FetchSpec, FilterNullifiers, RowsOk;
    var notes, swaps := NoteAdvice(db, b.payloads), SwapAdvice(b.payloads);
    assert p.commitment in notes;
    ScanFindsAll(tree, b.payloads, notes, swaps, b);
    hide NoteAdvice, SwapAdvice;
    PlannedRecords(db, tree, b, all, metadata);
    FetchKeys(FilterBlock(db, ScanBlockSpec(db, tree, b), b), all);
  }

  lemma {:induction false} IdealClaims(node: FullNode, n: nat)
    requires ChainOk(node) && n <= |node.blocks|
    ensures OutputsKnown(node, Ideal(node, n).db, n) && ClaimsFound(node, Ideal(node, n).db, n)
  {
    hide Ideal, ChainOk, OutputsKnown, ClaimsFound, RowsOk, AssetsOk, PlanBlock, ApplyAll, RecordAssets, CommitBlock;
    if n == 0 {
      NoClaims(node, Ideal(node, 0).db);
    } else {
      IdealClaims(node, n - 1);
      if node.blocks[n - 1].RequiresScanning() {
        StepClaims(node, n - 1);
      } else {
        IdealEmpty(node, n - 1);
        QuietClaims(node, n - 1, Ideal(node, n - 1).db, Ideal(node, n).db);
      }
    }
  }

  lemma NoClaims(node: FullNode, db: Database)
    ensures OutputsKnown(node, db, 0) && ClaimsFound(node, db, 0)
  {
  }

  lemma QuietClaims(node: FullNode, n: nat, db: Database, u: Database)
    requires n < |node.blocks| && !node.blocks[n].RequiresScanning()
    requires OutputsKnown(node, db, n) && ClaimsFound(node, db, n) && u == db.(epochs := u.epochs)
    ensures OutputsKnown(node, u, n + 1) && ClaimsFound(node, u, n + 1)
  {
    hide PaysOut;
    assert DecryptedSwaps(node.blocks[n].payloads) == {};
  }

  lemma StepClaims(node: FullNode, n: nat)
    requires ChainOk(node) && n < |node.blocks| && node.blocks[n].RequiresScanning()
    requires OutputsKnown(node, Ideal(node, n).db, n) && ClaimsFound(node, Ideal(node, n).db, n)
    ensures OutputsKnown(node, Ideal(node, n + 1).db, n + 1) && ClaimsFound(node, Ideal(node, n + 1).db, n + 1)
  {
    var p, w, b := Ideal(node, n), IdealPlan(node, n), node.blocks[n];
    var ready := RecordAssets(ApplyAll(p.db, w.writes), w.assets, node.metadata);
    var after := Ideal(node, n + 1).db;
    IdealOk(node, n);
    IdealScanned(node, n);
    hide Ideal, ChainOk, RowsOk, AssetsOk, ApplyAll, RecordAssets, PaysOut;
    AppliedNotes(p.db, w.writes);
    ReadyFrame(p.db, w.writes, w.assets, node.metadata);
    CommitEager(ready, w.fb, w.txs, w.tree);
    hide CommitBlock;
    PayloadsValid(node, n);
    forall swap | swap in DecryptedSwaps(b.payloads) && swap.pair in b.swapOutputs
      ensures forall note :: PaysOut(swap, b.swapOutputs[swap.pair], note) ==> OfNote(note) in AdviceOf(w.writes)
    {
      PlanGives(p.db, p.tree, b, Transactions(node, n), node.metadata, swap);
    }
    forall q | q in b.payloads && q.RolledUp? && q.commitment in p.db.notes ensures q.commitment in after.spendable {
      if q.commitment !in p.db.spendable {
        PlanFindsAdvice(p.db, p.tree, b, Transactions(node, n), node.metadata, q);
      }
    }
    hide PlanBlock, DecryptedSwaps;
    NextClaims(node, n, p.db, after, AdviceOf(w.writes));
  }

  lemma NextClaims(node: FullNode, n: nat, db: Database, after: Database, given: set<Commitment>)
    requires n < |node.blocks| && OutputsKnown(node, db, n) && ClaimsFound(node, db, n)
    requires db.notes.Keys + given <= after.notes.Keys && db.spendable.Keys <= after.spendable.Keys
    requires forall swap <- DecryptedSwaps(node.blocks[n].payloads) :: swap.pair in node.blocks[n].swapOutputs ==>
               forall note :: PaysOut(swap, node.blocks[n].swapOutputs[swap.pair], note) ==> OfNote(note) in given
    requires forall q <- node.blocks[n].payloads :: q.RolledUp? && q.commitment in db.notes ==>
             q.commitment in after.spendable
    ensures OutputsKnown(node, after, n + 1) && ClaimsFound(node, after, n + 1)
  {
    hide PaysOut, DecryptedSwaps;
  }

  /** Every swap claim of ours on chain is detected, in every run, whatever the crashes: when a later block rolls up the
      commitment of either note that the swap pays out, the note has its row, with exactly this asset, amount and
      address in the note table. */
  lemma RunClaims(node: FullNode, run: seq<System>, i: nat, k: nat, q: Payload, swap: Swap, note: Note, l: nat,
                  p: Payload)
    requires ChainOk(node) && Run(node, run) && i < |run| && run[i].Idle()
    requires k < l < run[i].Next() && l < |node.blocks|
    requires q in node.blocks[k].payloads && q.SwapPayload? && q.decryptedSwap == Some(swap)
    requires swap.pair in node.blocks[k].swapOutputs
    requires var data := node.blocks[k].swapOutputs[swap.pair];
             || note == Note(swap.pair.asset1, data.amount1, swap.claimAddress, Derived(swap, 1))
             || note == Note(swap.pair.asset2, data.amount2, swap.claimAddress, Derived(swap, 2))
    requires p in node.blocks[l].payloads && p.RolledUp? && p.commitment == OfNote(note)
    ensures p.commitment in run[i].db.spendable
    ensures p.commitment in run[i].db.notes && run[i].db.notes[p.commitment] == note
  {
    assert swap in DecryptedSwaps(node.blocks[k].payloads);
    hide Ideal, ChainOk, Run, SameCore, AssetsOk, RowsOk, Witnessable, DecryptedSwaps;
    CrashRecovery(node, run, i);
    IdealClaims(node, run[i].Next());
    SameSpendable(run[i].db, Ideal(node, run[i].Next()).db);
    RunWitness(node, run, i);
    assert PaysOut(swap, node.blocks[k].swapOutputs[swap.pair], note);
    NoteByCommitment(run[i].db, note);
  }

  lemma NoteByCommitment(db: Database, note: Note)
    requires RowsOk(db) && OfNote(note) in db.spendable
    ensures OfNote(note) in db.notes && db.notes[OfNote(note)] == note
  {
    assert OfNote(db.notes[OfNote(note)]) == OfNote(note);
  }

  lemma SameSpendable(db: Database, u: Database)
    requires SameCore(db, u)
    ensures db.spendable == u.spendable
  {
  }
}
