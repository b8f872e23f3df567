/** The tiered commitment tree: epochs of blocks of commitments, of which only some are kept for witnessing. */
module Tct {
  import opened Prelude
  import opened Chain

  /** A leaf is either a commitment that can be witnessed or only its hash. */
  datatype Item = Kept(commitment: Commitment) | Hashed(hash: Hash)

  /** A block is its items, or, when inserted all at once, just its root. */
  datatype Block = Block(items: seq<Item>, finalized: bool) | Bare(root: Hash)

  datatype Epoch = Epoch(blocks: seq<Block>, finalized: bool)

  datatype Tree = Tree(index: map<Commitment, Position>, epochs: seq<Epoch>)

  const EMPTY := Tree(map[], [])

  // ---------- Hashes ----------

  function ItemHash(item: Item): Hash {
    match item
    case Kept(c) => LeafHash(c)
    case Hashed(h) => h
  }

  function ItemHashes(items: seq<Item>): seq<Hash> {
    seq(|items|, i requires 0 <= i < |items| => ItemHash(items[i]))
  }

  /** An empty tier hashes to one when finalized and to zero while it is still open. */
  function BlockRoot(b: Block): Hash {
    match b
    case Bare(root) => root
    case Block(items, finalized) =>
      if items == [] then (if finalized then One else Zero) else BlockHash(ItemHashes(items), finalized)
  }

  function BlockRoots(blocks: seq<Block>): seq<Hash> {
    seq(|blocks|, i requires 0 <= i < |blocks| => BlockRoot(blocks[i]))
  }

  function EpochRoot(e: Epoch): Hash {
    if e.blocks == [] then (if e.finalized then One else Zero) else EpochHash(BlockRoots(e.blocks), e.finalized)
  }

  function EpochRoots(epochs: seq<Epoch>): seq<Hash> {
    seq(|epochs|, i requires 0 <= i < |epochs| => EpochRoot(epochs[i]))
  }

  function Root(t: Tree): Hash {
    if t.epochs == [] then Zero else TreeHash(EpochRoots(t.epochs))
  }

  // ---------- Frontier ----------

  predicate HasOpenEpoch(epochs: seq<Epoch>) {
    epochs != [] && !epochs[|epochs| - 1].finalized
  }

  predicate IsOpen(b: Block) {
    b.Block? && !b.finalized
  }

  predicate HasOpenBlock(epochs: seq<Epoch>) {
    && HasOpenEpoch(epochs)
    && var e := epochs[|epochs| - 1];
       e.blocks != [] && IsOpen(e.blocks[|e.blocks| - 1])
  }

  function LastBlock(epochs: seq<Epoch>): Block
    requires HasOpenBlock(epochs)
  {
    var e := epochs[|epochs| - 1];
    e.blocks[|e.blocks| - 1]
  }

  function SetLastBlock(epochs: seq<Epoch>, b: Block): seq<Epoch>
    requires HasOpenBlock(epochs)
  {
    var k := |epochs| - 1;
    var e := epochs[k];
    epochs[k := e.(blocks := e.blocks[|e.blocks| - 1 := b])]
  }

  /** Put a block after the latest one, in a new epoch if the latest epoch is finalized or missing. */
  function PushBlock(epochs: seq<Epoch>, b: Block): seq<Epoch> {
    if HasOpenEpoch(epochs) then
      var k := |epochs| - 1;
      epochs[k := epochs[k].(blocks := epochs[k].blocks + [b])]
    else
      epochs + [Epoch([b], false)]
  }

  function PushItem(epochs: seq<Epoch>, item: Item): seq<Epoch> {
    if HasOpenBlock(epochs) then
      SetLastBlock(epochs, Block(LastBlock(epochs).items + [item], false))
    else
      PushBlock(epochs, Block([item], false))
  }

  function FinalizeBlock(epochs: seq<Epoch>): seq<Epoch> {
    if HasOpenBlock(epochs) then SetLastBlock(epochs, Block(LastBlock(epochs).items, true)) else epochs
  }

  /** The position the next inserted commitment takes. */
  function NextPosition(epochs: seq<Epoch>): Position {
    if !HasOpenEpoch(epochs) then
      Position(|epochs|, 0, 0)
    else
      var k := |epochs| - 1;
      var blocks := epochs[k].blocks;
      if HasOpenBlock(epochs) then Position(k, |blocks| - 1, |LastBlock(epochs).items|)
      else Position(k, |blocks|, 0)
  }

  // ---------- Operations ----------

  predicate KeptAt(epochs: seq<Epoch>, p: Position, c: Commitment) {
    && p.epoch < |epochs|
    && p.block < |epochs[p.epoch].blocks|
    && var b := epochs[p.epoch].blocks[p.block];
       b.Block? && p.commitment < |b.items| && b.items[p.commitment] == Kept(c)
  }

  /** Replace a kept leaf by its hash. Nothing happens if the leaf is not kept there. */
  function ForgetAt(epochs: seq<Epoch>, p: Position, c: Commitment): seq<Epoch> {
    if KeptAt(epochs, p, c) then
      var e := epochs[p.epoch];
      var b := e.blocks[p.block];
      var b' := b.(items := b.items[p.commitment := Hashed(LeafHash(c))]);
      epochs[p.epoch := e.(blocks := e.blocks[p.block := b'])]
    else
      epochs
  }

  function Insert(t: Tree, keep: bool, c: Commitment): Tree {
    var epochs := PushItem(t.epochs, if keep then Kept(c) else Hashed(LeafHash(c)));
    if !keep then
      t.(epochs := epochs)
    else
      Tree(t.index[c := NextPosition(t.epochs)], if c in t.index then ForgetAt(epochs, t.index[c], c) else epochs)
  }

  function InsertBlock(t: Tree, root: Hash): Tree {
    t.(epochs := PushBlock(FinalizeBlock(t.epochs), Bare(root)))
  }

  function EndBlock(t: Tree): Tree {
    if HasOpenBlock(t.epochs) then
      t.(epochs := FinalizeBlock(t.epochs))
    else
      t.(epochs := PushBlock(t.epochs, Block([], true)))
  }

  function EndEpoch(t: Tree): Tree {
    if HasOpenEpoch(t.epochs) then
      var epochs := FinalizeBlock(t.epochs);
      var k := |epochs| - 1;
      t.(epochs := epochs[k := epochs[k].(finalized := true)])
    else
      t.(epochs := t.epochs + [Epoch([], true)])
  }

  function Forget(t: Tree, c: Commitment): Tree {
    if c in t.index then Tree(t.index - {c}, ForgetAt(t.epochs, t.index[c], c)) else t
  }

  /** Where the next commitment goes after each operation: one place on, one block on, or to the next epoch. */
  lemma InsertNext(t: Tree, keep: bool, c: Commitment)
    ensures var p := NextPosition(t.epochs);
            NextPosition(Insert(t, keep, c).epochs) == Position(p.epoch, p.block, p.commitment + 1)
  {
    var pushed := PushItem(t.epochs, if keep then Kept(c) else Hashed(LeafHash(c)));
    PushItemNext(t.epochs, if keep then Kept(c) else Hashed(LeafHash(c)));
    if keep && c in t.index { ForgetAtNext(pushed, t.index[c], c); }
    hide PushItem, NextPosition, ForgetAt;
  }

  lemma PushItemNext(epochs: seq<Epoch>, item: Item)
    ensures var p := NextPosition(epochs);
            NextPosition(PushItem(epochs, item)) == Position(p.epoch, p.block, p.commitment + 1)
  {
  }

  lemma ForgetAtNext(epochs: seq<Epoch>, p: Position, c: Commitment)
    ensures NextPosition(ForgetAt(epochs, p, c)) == NextPosition(epochs)
  {
  }

  lemma EndBlockNext(t: Tree)
    ensures var p := NextPosition(t.epochs);
            NextPosition(EndBlock(t).epochs) == Position(p.epoch, p.block + 1, 0) && !HasOpenBlock(EndBlock(t).epochs)
  {
  }

  lemma InsertBlockNext(t: Tree, root: Hash)
    requires !HasOpenBlock(t.epochs)
    ensures var p := NextPosition(t.epochs);
            NextPosition(InsertBlock(t, root).epochs) == Position(p.epoch, p.block + 1, 0)
  {
  }

  lemma EndEpochNext(t: Tree)
    ensures NextPosition(EndEpoch(t).epochs) == Position(NextPosition(t.epochs).epoch + 1, 0, 0)
  {
  }

  // ---------- Inclusion proofs ----------

  /** An authentication path. The hash at the proof's own place in each tier is not used. */
  datatype Proof = Proof(
    position: Position,
    leaf: Commitment,
    items: seq<Hash>, blockFinalized: bool,
    blocks: seq<Hash>, epochFinalized: bool,
    epochs: seq<Hash>)
  {
    predicate WellFormed() {
      position.commitment < |items| && position.block < |blocks| && position.epoch < |epochs|
    }

    /** The root that the path leads to from the leaf. */
    function Root(): Hash
      requires WellFormed()
    {
      var block := BlockHash(items[position.commitment := LeafHash(leaf)], blockFinalized);
      var epoch := EpochHash(blocks[position.block := block], epochFinalized);
      TreeHash(epochs[position.epoch := epoch])
    }

    predicate Verifies(anchor: Hash) {
      WellFormed() && Root() == anchor
    }
  }

  function Witness(t: Tree, c: Commitment): Option<Proof> {
    if c in t.index && KeptAt(t.epochs, t.index[c], c) then
      var p := t.index[c];
      var e := t.epochs[p.epoch];
      var b := e.blocks[p.block];
      Some(Proof(p, c, ItemHashes(b.items), b.finalized, BlockRoots(e.blocks), e.finalized, EpochRoots(t.epochs)))
    else
      None
  }

  /** Every indexed commitment is a kept leaf at the position the index gives for it, and no other leaf is kept. */
  ghost predicate IndexOk(t: Tree) {
    && (forall c <- t.index :: KeptAt(t.epochs, t.index[c], c))
    && forall p, c :: KeptAt(t.epochs, p, c) ==> c in t.index && t.index[c] == p
  }

  /** The commitment can be witnessed, at this position. */
  predicate Holds(t: Tree, c: Commitment, p: Position) {
    c in t.index && t.index[c] == p && KeptAt(t.epochs, p, c)
  }

  lemma WitnessVerifies(t: Tree, c: Commitment)
    ensures Witness(t, c).Some? <==> c in t.index && KeptAt(t.epochs, t.index[c], c)
    ensures Witness(t, c).Some? ==>
              var p := Witness(t, c).value;
              p.leaf == c && p.position == t.index[c] && p.Verifies(Root(t))
  {
    if Witness(t, c).Some? {
      var p := Witness(t, c).value;
      var e := t.epochs[p.position.epoch];
      var b := e.blocks[p.position.block];
      assert p.items[p.position.commitment := LeafHash(c)] == ItemHashes(b.items);
      assert p.blocks[p.position.block := BlockRoot(b)] == BlockRoots(e.blocks);
      assert p.epochs[p.position.epoch := EpochRoot(e)] == EpochRoots(t.epochs);
    }
  }

  // ---------- What each operation does to the kept leaves ----------

  lemma PushItemKeeps(epochs: seq<Epoch>, item: Item, p: Position, c: Commitment)
    ensures KeptAt(PushItem(epochs, item), p, c)
            <==> KeptAt(epochs, p, c) || (item == Kept(c) && p == NextPosition(epochs))
    ensures KeptAt(epochs, p, c) ==> p != NextPosition(epochs)
  {
  }

  lemma ForgetAtKeeps(epochs: seq<Epoch>, p: Position, c: Commitment, q: Position, d: Commitment)
    ensures KeptAt(ForgetAt(epochs, p, c), q, d) <==> KeptAt(epochs, q, d) && !(p == q && c == d)
  {
  }

  /** The index is right if it has exactly the kept leaves. */
  lemma IndexRight(t: Tree)
    requires forall p, c :: KeptAt(t.epochs, p, c) <==> c in t.index && t.index[c] == p
    ensures IndexOk(t)
  {
  }

  lemma LeavesIndexed(t: Tree, p: Position, c: Commitment)
    requires IndexOk(t)
    ensures KeptAt(t.epochs, p, c) <==> c in t.index && t.index[c] == p
  {
  }

  /** Inserting a commitment to keep makes it witnessable at the next position, and loses no other one. */
  lemma InsertHolds(t: Tree, keep: bool, c: Commitment)
    requires IndexOk(t)
    ensures IndexOk(Insert(t, keep, c))
    ensures keep ==> Holds(Insert(t, keep, c), c, NextPosition(t.epochs))
    ensures Insert(t, keep, c).index == if keep then t.index[c := NextPosition(t.epochs)] else t.index
  {
    hide PushItem, NextPosition, KeptAt, ForgetAt, IndexOk;
    var t' := Insert(t, keep, c);
    var item := if keep then Kept(c) else Hashed(LeafHash(c));
    var pushed := PushItem(t.epochs, item);
    forall p, d ensures KeptAt(t'.epochs, p, d) <==> d in t'.index && t'.index[d] == p {
      LeavesIndexed(t, p, d);
      PushItemKeeps(t.epochs, item, p, d);
      if keep && c in t.index {
        LeavesIndexed(t, t.index[c], c);
        PushItemKeeps(t.epochs, item, t.index[c], c);
        ForgetAtKeeps(pushed, t.index[c], c, p, d);
      }
    }
    IndexRight(t');
  }

  /** Finalizing the open block leaves every leaf as it is. */
  lemma FinalizeKeeps(epochs: seq<Epoch>, p: Position, c: Commitment)
    ensures KeptAt(FinalizeBlock(epochs), p, c) <==> KeptAt(epochs, p, c)
  {
  }

  lemma PushBlockKeeps(epochs: seq<Epoch>, b: Block, p: Position, c: Commitment)
    requires b.Block? ==> b.items == []
    ensures KeptAt(PushBlock(epochs, b), p, c) <==> KeptAt(epochs, p, c)
  {
  }

  lemma EndBlockHolds(t: Tree)
    requires IndexOk(t)
    ensures IndexOk(EndBlock(t)) && EndBlock(t).index == t.index
    ensures var p := NextPosition(t.epochs); NextPosition(EndBlock(t).epochs) == Position(p.epoch, p.block + 1, 0)
  {
    EndBlockNext(t);
    hide NextPosition;
    hide FinalizeBlock, PushBlock, KeptAt, IndexOk;
    forall p, c ensures KeptAt(EndBlock(t).epochs, p, c) <==> c in t.index && t.index[c] == p {
      LeavesIndexed(t, p, c);
      FinalizeKeeps(t.epochs, p, c);
      PushBlockKeeps(t.epochs, Block([], true), p, c);
    }
    IndexRight(EndBlock(t));
  }

  lemma InsertBlockHolds(t: Tree, root: Hash)
    requires IndexOk(t)
    ensures IndexOk(InsertBlock(t, root)) && InsertBlock(t, root).index == t.index
    ensures var p := NextPosition(t.epochs);
            !HasOpenBlock(t.epochs) ==> NextPosition(InsertBlock(t, root).epochs) == Position(p.epoch, p.block + 1, 0)
  {
    if !HasOpenBlock(t.epochs) { InsertBlockNext(t, root); }
    hide NextPosition;
    hide FinalizeBlock, PushBlock, KeptAt, IndexOk;
    forall p, c ensures KeptAt(InsertBlock(t, root).epochs, p, c) <==> c in t.index && t.index[c] == p {
      LeavesIndexed(t, p, c);
      FinalizeKeeps(t.epochs, p, c);
      PushBlockKeeps(FinalizeBlock(t.epochs), Bare(root), p, c);
    }
    IndexRight(InsertBlock(t, root));
  }

  lemma EndEpochKeeps(t: Tree, p: Position, c: Commitment)
    ensures KeptAt(EndEpoch(t).epochs, p, c) <==> KeptAt(t.epochs, p, c)
  {
    FinalizeKeeps(t.epochs, p, c);
  }

  /** Ending an epoch leaves every leaf where it is, and the next commitment starts the next epoch. */
  lemma EndEpochHolds(t: Tree)
    requires IndexOk(t)
    ensures IndexOk(EndEpoch(t)) && EndEpoch(t).index == t.index
    ensures NextPosition(EndEpoch(t).epochs) == Position(NextPosition(t.epochs).epoch + 1, 0, 0)
  {
    EndEpochNext(t);
    assert EndEpoch(t).index == t.index;
    hide EndEpoch, KeptAt, IndexOk, NextPosition;
    forall p, c ensures KeptAt(EndEpoch(t).epochs, p, c) <==> c in t.index && t.index[c] == p {
      LeavesIndexed(t, p, c);
      EndEpochKeeps(t, p, c);
    }
    IndexRight(EndEpoch(t));
  }

  lemma ForgetHolds(t: Tree, c: Commitment)
    requires IndexOk(t)
    ensures IndexOk(Forget(t, c)) && Forget(t, c).index == t.index - {c}
  {
    hide ForgetAt, KeptAt, IndexOk;
    if c in t.index {
      forall p, d ensures KeptAt(Forget(t, c).epochs, p, d) <==> d in t.index - {c} && t.index[d] == p {
        LeavesIndexed(t, p, d);
        LeavesIndexed(t, p, c);
        ForgetAtKeeps(t.epochs, t.index[c], c, p, d);
      }
      IndexRight(Forget(t, c));
    }
  }
}
