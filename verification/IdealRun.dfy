/** The uninterrupted run over a chain: what it keeps in its tree, and that its sparse tree stands for the full one. */
module IdealRun {
  import opened Prelude
  import opened Chain
  import opened Tct
  import opened TctShape
  import opened ViewDatabase
  import opened Scanning
  import opened SyncWorker

  // ---------- What the chain guarantees ----------

  /** A block's commitments are new, none of its nullifiers spends them, and swaps pay out in later blocks. */
  ghost predicate BlockOk(b: CompactBlock, seen: set<Commitment>) {
    var cs := Commitments(b.payloads);
    && b.blockRoot == RootOf(cs)
    && Distinct(cs)
    && (forall c <- cs :: c !in seen)
    && (forall p <- b.payloads :: p.Valid())
    && (forall nf <- b.nullifiers :: nf.commitment !in cs)
    && (forall p <- b.payloads :: p.SwapPayload? && p.decryptedSwap.Some?
                                  && p.decryptedSwap.value.pair in b.swapOutputs ==>
          var s := p.decryptedSwap.value;
          var data := b.swapOutputs[s.pair];
          && OfNote(Note(s.pair.asset1, data.amount1, s.claimAddress, Derived(s, 1))) !in cs
          && OfNote(Note(s.pair.asset2, data.amount2, s.claimAddress, Derived(s, 2))) !in cs)
  }

  /** Genesis is never an empty block. */
  ghost predicate ChainOk(node: FullNode) {
    && (node.blocks != [] ==> node.blocks[0].RequiresScanning())
    && forall i :: 0 <= i < |node.blocks| ==>
       node.blocks[i].height == i && BlockOk(node.blocks[i], Seen(node.blocks, i))
  }

  /** A process that starts from nothing. */
  const FRESH := Process(INITIAL, EMPTY, None)

  /** The first n blocks processed without interruption. */
  function Ideal(node: FullNode, n: nat): Process
    requires n <= |node.blocks|
  {
    ProcessAll(FRESH, node.blocks[..n], node)
  }

  /** What the uninterrupted run decides about its next block. */
  function IdealPlan(node: FullNode, n: nat): Work
    requires n < |node.blocks|
  {
    var p := Ideal(node, n);
    PlanBlock(p.db, p.tree, node.blocks[n], Transactions(node, n), node.metadata)
  }

  lemma IdealNext(node: FullNode, n: nat)
    requires n < |node.blocks| && node.blocks[n].height == n
    ensures Ideal(node, n + 1) == ProcessBlock(Ideal(node, n), node.blocks[n], Transactions(node, n), node.metadata)
  {
    hide ProcessBlock;
    assert node.blocks[..n + 1][..n] == node.blocks[..n];
  }

  // ---------- The sparse tree has the shape of the full one ----------

  function Boundary(t: Tree, b: CompactBlock): Tree {
    if b.epochRoot.Some? then EndEpoch(t) else t
  }

  /** The tree a full node keeps: every commitment inserted and kept. */
  function FullTree(node: FullNode, n: nat): Tree
    requires n <= |node.blocks|
  {
    if n == 0 then EMPTY
    else
      var b := node.blocks[n - 1];
      var cs := Commitments(b.payloads);
      Boundary(EndBlock(InsertAll(FullTree(node, n - 1), cs, ToSet(cs))), b)
  }

  /** Scanning inserts every commitment of the block in order, keeping ours. */
  lemma {:induction false} ScanInsertsAll(tree: Tree, ps: seq<Payload>, notes: map<Commitment, Note>,
                                          swaps: map<Commitment, Swap>, b: CompactBlock)
    ensures ScanPayloads(tree, ps, notes, swaps, b).tree == InsertAll(tree, Commitments(ps), notes.Keys + swaps.Keys)
    decreases |ps|
  {
    if ps != [] {
      var init := ps[..|ps| - 1];
      ScanInsertsAll(tree, init, notes, swaps, b);
      assert Commitments(ps)[..|ps| - 1] == Commitments(init);
    }
  }

  lemma ForgetSetShape(t: Tree, cs: set<Commitment>)
    ensures SameShape(ForgetSet(t, cs), t)
  {
    forall e | 0 <= e < |t.epochs|
      ensures EraseBlocks(HideBlocks(t, cs, e, t.epochs[e].blocks)) == EraseBlocks(t.epochs[e].blocks)
    {
      var blocks := t.epochs[e].blocks;
      forall b | 0 <= b < |blocks| ensures EraseBlock(HideBlock(t, cs, e, b, blocks[b])) == EraseBlock(blocks[b]) {
        if blocks[b].Block? {
          HideItemsHashes(t, cs, e, b, blocks[b]);
        }
      }
    }
  }

  lemma HideItemsHashes(t: Tree, cs: set<Commitment>, e: nat, b: nat, block: Block)
    requires block.Block?
    ensures var hidden := HideBlock(t, cs, e, b, block);
            ItemHashes(hidden.items) == ItemHashes(block.items) && EraseItems(hidden.items) == EraseItems(block.items)
  {
    var hidden := HideBlock(t, cs, e, b, block);
    assert forall i :: 0 <= i < |block.items| ==> ItemHash(hidden.items[i]) == ItemHash(block.items[i]);
  }

  /** Adding a block to trees of the same shape. */
  lemma BoundaryShape(t: Tree, u: Tree, b: CompactBlock)
    requires SameShape(t, u) && !HasOpenBlock(t.epochs)
    ensures !HasOpenBlock(u.epochs)
    ensures SameShape(Boundary(t, b), Boundary(u, b)) && !HasOpenBlock(Boundary(t, b).epochs)
    ensures CountBlocks(Boundary(t, b).epochs) == CountBlocks(t.epochs)
  {
    ErasePosition(t.epochs);
    ErasePosition(u.epochs);
    EraseEndEpoch(t, u);
    CountEndEpoch(t);
    EndEpochCloses(t);
  }

  lemma EndEpochCloses(t: Tree)
    requires !HasOpenBlock(t.epochs)
    ensures !HasOpenBlock(EndEpoch(t).epochs)
  {
  }

  lemma InsertBlockShape(t: Tree, u: Tree, root: Hash)
    requires SameShape(t, u) && !HasOpenBlock(t.epochs)
    ensures !HasOpenBlock(u.epochs)
    ensures SameShape(InsertBlock(t, root), InsertBlock(u, root)) && !HasOpenBlock(InsertBlock(t, root).epochs)
    ensures CountBlocks(InsertBlock(t, root).epochs) == CountBlocks(t.epochs) + 1
  {
    ErasePosition(t.epochs);
    ErasePosition(u.epochs);
    EraseInsertBlock(t, root);
    EraseInsertBlock(u, root);
    CountPushBlock(t.epochs, Bare(root));
  }

  /** Whichever way a block goes in, the tree gets the shape it has with the block's root. */
  lemma PlanShape(db: Database, tree: Tree, b: CompactBlock, all: seq<Tx>, metadata: map<AssetId, Denom>)
    requires b.blockRoot == RootOf(Commitments(b.payloads)) && !HasOpenBlock(tree.epochs)
    ensures SameShape(PlanBlock(db, tree, b, all, metadata).tree, Boundary(InsertBlock(tree, b.blockRoot), b))
  {
    hide InsertBlock, EndBlock, EndEpoch, SameShape, InsertAll, FilterBlock, FetchSpec, NoteAdvice, SwapAdvice;
    var cs := Commitments(b.payloads);
    SameShapeSelf(InsertBlock(tree, b.blockRoot));
    if !b.RequiresScanning() {
      InsertAllThenSeal(tree, cs, {});
      InsertAllNone(tree, cs);
      SealShape(tree, EndBlock(tree), b);
    } else {
      var notes, swaps := NoteAdvice(db, b.payloads), SwapAdvice(b.payloads);
      if notes == map[] && swaps == map[] {
        SealShape(tree, InsertBlock(tree, b.blockRoot), b);
      } else {
        InsertAllThenSeal(tree, cs, notes.Keys + swaps.Keys);
        ScanInsertsAll(tree, b.payloads, notes, swaps, b);
        SealShape(tree, EndBlock(InsertAll(tree, cs, notes.Keys + swaps.Keys)), b);
      }
    }
  }

  lemma InsertAllNone(tree: Tree, cs: seq<Commitment>)
    ensures cs == [] ==> InsertAll(tree, cs, {}) == tree
  {
  }

  lemma SameShapeSelf(t: Tree)
    ensures SameShape(t, t)
  {
  }

  lemma SealShape(tree: Tree, sealed: Tree, b: CompactBlock)
    requires !HasOpenBlock(tree.epochs) && SameShape(sealed, InsertBlock(tree, b.blockRoot))
    ensures SameShape(Boundary(sealed, b), Boundary(InsertBlock(tree, b.blockRoot), b))
  {
    InsertBlockShape(tree, tree, b.blockRoot);
    BoundaryShape(InsertBlock(tree, b.blockRoot), sealed, b);
  }

  lemma FinishTree(p: Process, b: CompactBlock, w: Work)
    ensures SameShape(FinishBlock(p, b, w).tree, w.tree)
  {
    var recorded := Recorded(p.db, w.fb);
    ForgetSetShape(w.tree, Forgotten(recorded, ToSet(w.fb.spentNullifiers)));
  }

  /** A processed block adds exactly one sealed block, of the shape of the block's root. */
  lemma ProcessShape(p: Process, b: CompactBlock, all: seq<Tx>, metadata: map<AssetId, Denom>)
    requires b.blockRoot == RootOf(Commitments(b.payloads)) && !HasOpenBlock(p.tree.epochs)
    ensures SameShape(ProcessBlock(p, b, all, metadata).tree, Boundary(InsertBlock(p.tree, b.blockRoot), b))
    ensures !HasOpenBlock(ProcessBlock(p, b, all, metadata).tree.epochs)
    ensures CountBlocks(ProcessBlock(p, b, all, metadata).tree.epochs) == CountBlocks(p.tree.epochs) + 1
  {
    hide InsertBlock, FinishBlock, PlanBlock, Boundary, ApplyAll, RecordAssets;
    var w := PlanBlock(p.db, p.tree, b, all, metadata);
    var ready := p.(db := RecordAssets(ApplyAll(p.db, w.writes), w.assets, metadata));
    var after := ProcessBlock(p, b, all, metadata).tree;
    var expected := InsertBlock(p.tree, b.blockRoot);
    FinishTree(ready, b, w);
    PlanShape(p.db, p.tree, b, all, metadata);
    InsertBlockShape(p.tree, p.tree, b.blockRoot);
    BoundaryShape(expected, expected, b);
    ErasePosition(after.epochs);
    ErasePosition(Boundary(expected, b).epochs);
    CountErased(after.epochs);
    CountErased(Boundary(expected, b).epochs);
  }

  /** After every block the sparse tree has the full tree's root, next position and number of blocks. */
  lemma {:induction false} SparseRefinesFull(node: FullNode, n: nat)
    requires ChainOk(node) && n <= |node.blocks|
    ensures SameShape(Ideal(node, n).tree, FullTree(node, n))
    ensures Root(Ideal(node, n).tree) == Root(FullTree(node, n))
    ensures NextPosition(Ideal(node, n).tree.epochs) == NextPosition(FullTree(node, n).epochs)
    ensures !HasOpenBlock(Ideal(node, n).tree.epochs)
    ensures CountBlocks(Ideal(node, n).tree.epochs) == n
  {
    hide ProcessBlock, InsertBlock, Boundary, EndBlock, SameShape, ChainOk, Ideal, HasOpenBlock, CountBlocks,
      NextPosition, Root, InsertAll, PlanBlock;
    if n == 0 {
      FreshTree(node);
      SameShapeSelf(EMPTY);
    } else {
      var b := node.blocks[n - 1];
      var cs := Commitments(b.payloads);
      var p, full := Ideal(node, n - 1), FullTree(node, n - 1);
      SparseRefinesFull(node, n - 1);
      RootIsBlockRoot(node, n - 1);
      IdealNext(node, n - 1);
      ProcessShape(p, b, Transactions(node, n - 1), node.metadata);
      InsertBlockShape(p.tree, full, b.blockRoot);
      BoundaryShape(InsertBlock(p.tree, b.blockRoot), InsertBlock(full, b.blockRoot), b);
      InsertAllThenSeal(full, cs, ToSet(cs));
      SealShape(full, EndBlock(InsertAll(full, cs, ToSet(cs))), b);
      SameShapeTrans(Ideal(node, n).tree, Boundary(InsertBlock(p.tree, b.blockRoot), b),
                     Boundary(InsertBlock(full, b.blockRoot), b), FullTree(node, n));
    }
    SameShapeSameRoot(Ideal(node, n).tree, FullTree(node, n));
  }

  lemma FreshTree(node: FullNode)
    ensures Ideal(node, 0) == FRESH && CountBlocks(EMPTY.epochs) == 0 && !HasOpenBlock(EMPTY.epochs)
  {
  }

  lemma RootIsBlockRoot(node: FullNode, i: nat)
    requires ChainOk(node) && i < |node.blocks|
    ensures node.blocks[i].height == i
    ensures node.blocks[i].blockRoot == RootOf(Commitments(node.blocks[i].payloads))
  {
  }

  lemma SameShapeTrans(t: Tree, u: Tree, v: Tree, w: Tree)
    requires SameShape(t, u) && SameShape(u, v) && SameShape(w, v)
    ensures SameShape(t, w)
  {
  }

  // ---------- The full tree, without tree operations ----------

  /** How many of the first n blocks end an epoch. */
  function EpochsEnded(blocks: seq<CompactBlock>, n: nat): nat
    requires n <= |blocks|
  {
    if n == 0 then 0 else EpochsEnded(blocks, n - 1) + if blocks[n - 1].epochRoot.Some? then 1 else 0
  }

  /** How many of the first n blocks there are since the last of them that ends an epoch. */
  function BlocksSince(blocks: seq<CompactBlock>, n: nat): nat
    requires n <= |blocks|
  {
    if n == 0 || blocks[n - 1].epochRoot.Some? then 0 else BlocksSince(blocks, n - 1) + 1
  }

  /** The place of a block's commitment number i. */
  function PlaceOf(blocks: seq<CompactBlock>, n: nat, i: nat): Position
    requires n <= |blocks|
  {
    Position(EpochsEnded(blocks, n), BlocksSince(blocks, n), i)
  }

  /** A later block is in a later epoch, or further on in the same one. */
  lemma {:induction false} LaterPlace(blocks: seq<CompactBlock>, k: nat, n: nat)
    requires k < n <= |blocks|
    ensures EpochsEnded(blocks, k) <= EpochsEnded(blocks, n)
    ensures EpochsEnded(blocks, k) == EpochsEnded(blocks, n) ==> BlocksSince(blocks, k) < BlocksSince(blocks, n)
    ensures blocks[k].epochRoot.Some? ==> EpochsEnded(blocks, k) < EpochsEnded(blocks, n)
    decreases n
  {
    if k < n - 1 { LaterPlace(blocks, k, n - 1); }
  }

  /** Every block's root is at its place, the epochs that ended and no others are finalized, and nothing else is
      there. */
  ghost predicate LaidOut(blocks: seq<CompactBlock>, n: nat, shape: seq<Epoch>)
    requires n <= |blocks|
  {
    && |shape| == EpochsEnded(blocks, n) + (if BlocksSince(blocks, n) > 0 then 1 else 0)
    && (forall e :: 0 <= e < |shape| ==> (shape[e].finalized <==> e < EpochsEnded(blocks, n)))
    && (BlocksSince(blocks, n) > 0 ==> |shape[EpochsEnded(blocks, n)].blocks| == BlocksSince(blocks, n))
    && forall k :: 0 <= k < n ==> BlockLaidOut(blocks, k, shape)
  }

  ghost predicate BlockLaidOut(blocks: seq<CompactBlock>, k: nat, shape: seq<Epoch>)
    requires k < |blocks|
  {
    var e, b := EpochsEnded(blocks, k), BlocksSince(blocks, k);
    && e < |shape| && b < |shape[e].blocks|
    && shape[e].blocks[b] == Bare(RootOf(Commitments(blocks[k].payloads)))
    && (blocks[k].epochRoot.Some? ==> |shape[e].blocks| == b + 1)
  }

  /** The shape of the tree after one more block. */
  function Appended(shape: seq<Epoch>, b: CompactBlock): seq<Epoch> {
    var pushed := PushBlock(shape, Bare(RootOf(Commitments(b.payloads))));
    if b.epochRoot.Some? then pushed[|pushed| - 1 := pushed[|pushed| - 1].(finalized := true)] else pushed
  }

  lemma AppendedLaidOut(blocks: seq<CompactBlock>, n: nat, shape: seq<Epoch>)
    requires n < |blocks| && LaidOut(blocks, n, shape)
    ensures LaidOut(blocks, n + 1, Appended(shape, blocks[n]))
  {
    hide RootOf, Commitments;
    var after := Appended(shape, blocks[n]);
    forall k | 0 <= k < n ensures BlockLaidOut(blocks, k, after) {
      assert BlockLaidOut(blocks, k, shape);
      LaterPlace(blocks, k, n);
    }
    assert BlockLaidOut(blocks, n, after);
  }

  lemma EraseNextBlock(t: Tree, b: CompactBlock)
    requires !HasOpenBlock(t.epochs)
    ensures var cs := Commitments(b.payloads);
            var after := Boundary(EndBlock(InsertAll(t, cs, ToSet(cs))), b);
            Erase(after.epochs) == Appended(Erase(t.epochs), b) && !HasOpenBlock(after.epochs)
  {
    hide InsertAll, Erase, EndBlock, RootOf;
    var cs := Commitments(b.payloads);
    var sealed := EndBlock(InsertAll(t, cs, ToSet(cs)));
    InsertAllThenSeal(t, cs, ToSet(cs));
    EraseInsertBlock(t, RootOf(cs));
    ErasePosition(sealed.epochs);
    EraseEpochFlag(sealed.epochs);
    assert |Erase(sealed.epochs)| == |sealed.epochs| by { EraseLength(sealed.epochs); }
  }

  lemma EraseLength(epochs: seq<Epoch>)
    ensures |Erase(epochs)| == |epochs|
  {
  }

  /** The tree that keeps everything has exactly the chain's layout, and so has every tree of its shape. */
  lemma {:induction false} FullLayout(node: FullNode, n: nat)
    requires n <= |node.blocks|
    ensures LaidOut(node.blocks, n, Erase(FullTree(node, n).epochs)) && !HasOpenBlock(FullTree(node, n).epochs)
    ensures NextPosition(FullTree(node, n).epochs) == PlaceOf(node.blocks, n, 0)
  {
    hide InsertAll, EndBlock, Boundary, Erase, HasOpenBlock, Appended;
    var full := FullTree(node, n);
    if n == 0 {
      assert LaidOut(node.blocks, 0, Erase([])) && !HasOpenBlock([]) by { EmptyLayout(node.blocks); }
    } else {
      FullLayout(node, n - 1);
      EraseNextBlock(FullTree(node, n - 1), node.blocks[n - 1]);
      AppendedLaidOut(node.blocks, n - 1, Erase(FullTree(node, n - 1).epochs));
    }
    ErasePosition(full.epochs);
    LayoutNext(node.blocks, n, Erase(full.epochs));
  }

  lemma EmptyLayout(blocks: seq<CompactBlock>)
    ensures LaidOut(blocks, 0, Erase([])) && !HasOpenBlock([])
  {
  }

  lemma LayoutNext(blocks: seq<CompactBlock>, n: nat, shape: seq<Epoch>)
    requires n <= |blocks| && LaidOut(blocks, n, shape) && !HasOpenBlock(shape)
    ensures NextPosition(shape) == PlaceOf(blocks, n, 0)
  {
  }

  /** A block's hash, from its commitments: of their leaf hashes, finalized, or one if there are none. */
  predicate BlockHashed(b: CompactBlock, h: Hash) {
    if b.payloads == [] then h == One
    else
      && h.BlockHash? && h.finalized && |h.items| == |b.payloads|
      && forall i :: 0 <= i < |b.payloads| ==> h.items[i] == LeafHash(b.payloads[i].commitment)
  }

  /** The root is the hash of the epochs, each the hash of its blocks, finalized if it has ended. */
  ghost predicate ChainHashed(blocks: seq<CompactBlock>, n: nat, root: Hash)
    requires n <= |blocks|
  {
    if n == 0 then root == Zero
    else
      && root.TreeHash?
      && |root.epochs| == EpochsEnded(blocks, n) + (if BlocksSince(blocks, n) > 0 then 1 else 0)
      && forall k :: 0 <= k < n ==> EpochHashed(blocks, n, k, root.epochs)
  }

  /** Block k, in the hash of its epoch. */
  ghost predicate EpochHashed(blocks: seq<CompactBlock>, n: nat, k: nat, epochs: seq<Hash>)
    requires k < n <= |blocks|
  {
    var e, b := EpochsEnded(blocks, k), BlocksSince(blocks, k);
    && e < |epochs| && epochs[e].EpochHash?
    && (epochs[e].finalized <==> e < EpochsEnded(blocks, n))
    && b < |epochs[e].blocks| && BlockHashed(blocks[k], epochs[e].blocks[b])
    && (blocks[k].epochRoot.Some? || k == n - 1 ==> |epochs[e].blocks| == b + 1)
  }

  lemma RootOfHashed(b: CompactBlock)
    ensures BlockHashed(b, RootOf(Commitments(b.payloads)))
  {
  }

  /** A tree with the chain's layout has the chain's hash as its root. */
  lemma LayoutRoot(blocks: seq<CompactBlock>, n: nat, t: Tree)
    requires n <= |blocks| && LaidOut(blocks, n, Erase(t.epochs))
    ensures ChainHashed(blocks, n, Root(t))
  {
    EraseRoot(t);
    var shape := Erase(t.epochs);
    hide Erase, EpochRoot, EpochHashed, LaidOut;
    LayoutLength(blocks, n, shape);
    if n > 0 {
      forall k | 0 <= k < n ensures EpochHashed(blocks, n, k, EpochRoots(shape)) {
        LayoutAt(blocks, n, shape, k);
      }
    }
  }

  lemma LayoutLength(blocks: seq<CompactBlock>, n: nat, shape: seq<Epoch>)
    requires n <= |blocks| && LaidOut(blocks, n, shape)
    ensures |shape| == EpochsEnded(blocks, n) + (if BlocksSince(blocks, n) > 0 then 1 else 0)
    ensures n == 0 <==> shape == []
  {
    if n > 0 { LaterPlace(blocks, n - 1, n); }
  }

  lemma LayoutAt(blocks: seq<CompactBlock>, n: nat, shape: seq<Epoch>, k: nat)
    requires k < n <= |blocks| && LaidOut(blocks, n, shape)
    ensures EpochHashed(blocks, n, k, EpochRoots(shape))
  {
    hide RootOf, Commitments, BlockHashed;
    assert BlockLaidOut(blocks, k, shape);
    RootOfHashed(blocks[k]);
    LaterPlace(blocks, k, n);
  }

  // ---------- Heights ----------

  /** Every processed block is accounted for: the reported height is one less than the number of sealed blocks. */
  lemma {:induction false} IdealHeight(node: FullNode, n: nat)
    requires ChainOk(node) && n <= |node.blocks|
    ensures NextHeight(Ideal(node, n)) == n
  {
    hide ProcessBlock, BlockOk;
    if n > 0 {
      RootIsBlockRoot(node, n - 1);
      IdealNext(node, n - 1);
      ProcessedHeight(Ideal(node, n - 1), node.blocks[n - 1], Transactions(node, n - 1), node.metadata);
    }
  }

  /** An empty block moves only the tree, the uncommitted height and perhaps epoch rows. */
  lemma IdealEmpty(node: FullNode, n: nat)
    requires ChainOk(node) && n < |node.blocks| && !node.blocks[n].RequiresScanning()
    ensures Ideal(node, n + 1).db == ApplyAll(Ideal(node, n).db, IdealPlan(node, n).writes)
    ensures Ideal(node, n + 1).db == Ideal(node, n).db.(epochs := Ideal(node, n + 1).db.epochs)
    ensures Ideal(node, n + 1).tree == IdealPlan(node, n).tree
    ensures Ideal(node, n + 1).uncommitted == Some(n)
    ensures IdealPlan(node, n).writes == EpochWrites(node.blocks[n])
    ensures IdealPlan(node, n).assets == {}
  {
    hide Ideal, BlockOk, ProcessBlock, ApplyAll;
    RootIsBlockRoot(node, n);
    IdealNext(node, n);
    EmptyBlockSpec(Ideal(node, n), node.blocks[n], Transactions(node, n), node.metadata);
    EpochWritesFrame(Ideal(node, n).db, node.blocks[n]);
  }

  /** A scanned block is committed: nothing about it remains in memory only. */
  lemma IdealScanned(node: FullNode, n: nat)
    requires ChainOk(node) && n < |node.blocks| && node.blocks[n].RequiresScanning()
    ensures var p, w := Ideal(node, n), IdealPlan(node, n);
            var ready := RecordAssets(ApplyAll(p.db, w.writes), w.assets, node.metadata);
            Ideal(node, n + 1) == FinishBlock(p.(db := ready), node.blocks[n], w)
    ensures Ideal(node, n + 1).uncommitted == None
    ensures Ideal(node, n + 1).db.sct == Ideal(node, n + 1).tree
    ensures Ideal(node, n + 1).db.syncHeight == n
  {
    hide Ideal, BlockOk, ApplyAll, RecordNotes, RecordSwaps, MarkSpent, ScanBlockSpec, FilterNullifiers, ForgetSet,
      RelevantTxs;
    RootIsBlockRoot(node, n);
    IdealNext(node, n);
    var p, w := Ideal(node, n), IdealPlan(node, n);
    var db := RecordAssets(ApplyAll(p.db, w.writes), w.assets, node.metadata);
    var recorded := Recorded(db, w.fb);
    var nfs := ToSet(w.fb.spentNullifiers);
    var tree := ForgetSet(w.tree, Forgotten(recorded, nfs));
    RecordTxsFrame(MarkSpent(recorded, nfs, w.fb.height).(sct := tree), w.txs, w.fb.height);
    assert w.fb.height == n;
  }

  /** A block moves the database's height exactly if it has payloads or nullifiers, or any of the notices that need
      scanning; otherwise the database keeps its height and its saved tree. */
  lemma IdealCommits(node: FullNode, n: nat)
    requires ChainOk(node) && n < |node.blocks|
    ensures var b, before, after := node.blocks[n], Ideal(node, n).db, Ideal(node, n + 1).db;
            var notable := || b.payloads != [] || b.nullifiers != [] || b.fmdParameters != None || b.proposalStarted
                           || b.appParametersUpdated || b.gasPrices != None || b.altGasPrices != [];
            if notable then after.syncHeight == n && after.sct == Ideal(node, n + 1).tree
            else after.syncHeight == before.syncHeight && after.sct == before.sct
                 && Ideal(node, n + 1).uncommitted == Some(n)
  {
    hide Ideal, ChainOk;
    if node.blocks[n].RequiresScanning() {
      IdealScanned(node, n);
    } else {
      IdealEmpty(node, n);
    }
  }

  /** Scanning changes the shared tree before the block is committed. After a failure in between, scanning the same
      block again on that tree seals one block too many, so it never gives the tree of the uninterrupted run. */
  lemma RetryDiverges(db: Database, p: Process, b: CompactBlock, all: seq<Tx>, metadata: map<AssetId, Denom>)
    requires b.blockRoot == RootOf(Commitments(b.payloads)) && !HasOpenBlock(p.tree.epochs)
    ensures var retried := Process(db, PlanBlock(p.db, p.tree, b, all, metadata).tree, p.uncommitted);
            CountBlocks(ProcessBlock(retried, b, all, metadata).tree.epochs)
            == CountBlocks(ProcessBlock(p, b, all, metadata).tree.epochs) + 1
  {
    hide PlanBlock, ProcessBlock, InsertBlock, Boundary, HasOpenBlock, CountBlocks, SameShape, BlockRoot;
    var tree := PlanBlock(p.db, p.tree, b, all, metadata).tree;
    var expected := InsertBlock(p.tree, b.blockRoot);
    PlanShape(p.db, p.tree, b, all, metadata);
    SameShapeSelf(p.tree);
    InsertBlockShape(p.tree, p.tree, b.blockRoot);
    SameShapeSelf(expected);
    BoundaryShape(expected, expected, b);
    ShapeCounts(tree, Boundary(expected, b));
    ProcessShape(p, b, all, metadata);
    ProcessShape(Process(db, tree, p.uncommitted), b, all, metadata);
  }

  lemma ShapeCounts(t: Tree, u: Tree)
    requires SameShape(t, u)
    ensures CountBlocks(t.epochs) == CountBlocks(u.epochs) && HasOpenBlock(t.epochs) == HasOpenBlock(u.epochs)
  {
    CountErased(t.epochs);
    CountErased(u.epochs);
    ErasePosition(t.epochs);
    ErasePosition(u.epochs);
  }
}
