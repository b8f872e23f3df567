/** Which commitments are kept never affects a tree's root or its next position. This module compares trees
    after erasing everything that is kept, and counts the blocks they hold. */
module TctShape {
  import opened Chain
  import opened Tct

  function EraseItems(items: seq<Item>): seq<Item> {
    seq(|items|, i requires 0 <= i < |items| => Hashed(ItemHash(items[i])))
  }

  /** An open block becomes its leaf hashes, any other block its root. */
  function EraseBlock(b: Block): Block {
    if IsOpen(b) then Block(EraseItems(b.items), false) else Bare(BlockRoot(b))
  }

  function EraseBlocks(blocks: seq<Block>): seq<Block> {
    seq(|blocks|, i requires 0 <= i < |blocks| => EraseBlock(blocks[i]))
  }

  function Erase(epochs: seq<Epoch>): seq<Epoch> {
    seq(|epochs|, i requires 0 <= i < |epochs| => Epoch(EraseBlocks(epochs[i].blocks), epochs[i].finalized))
  }

  ghost predicate SameShape(t: Tree, u: Tree) {
    Erase(t.epochs) == Erase(u.epochs)
  }

  lemma EraseBlockRoot(b: Block)
    ensures BlockRoot(EraseBlock(b)) == BlockRoot(b)
  {
    if IsOpen(b) {
      assert ItemHashes(EraseItems(b.items)) == ItemHashes(b.items);
    }
  }

  lemma EraseRoot(t: Tree)
    ensures Root(Tree(map[], Erase(t.epochs))) == Root(t)
  {
    var u := Erase(t.epochs);
    forall i | 0 <= i < |t.epochs| ensures EpochRoot(u[i]) == EpochRoot(t.epochs[i]) {
      var blocks := t.epochs[i].blocks;
      forall j | 0 <= j < |blocks| ensures BlockRoot(EraseBlock(blocks[j])) == BlockRoot(blocks[j]) {
        EraseBlockRoot(blocks[j]);
      }
      assert BlockRoots(u[i].blocks) == BlockRoots(blocks);
    }
    assert EpochRoots(u) == EpochRoots(t.epochs);
  }

  /** Trees of the same shape have the same root and insert the next commitment at the same position. */
  lemma SameShapeSameRoot(t: Tree, u: Tree)
    requires SameShape(t, u)
    ensures Root(t) == Root(u)
    ensures NextPosition(t.epochs) == NextPosition(u.epochs)
  {
    EraseRoot(t);
    EraseRoot(u);
    ErasePosition(t.epochs);
    ErasePosition(u.epochs);
  }

  lemma ErasePosition(epochs: seq<Epoch>)
    ensures NextPosition(Erase(epochs)) == NextPosition(epochs)
    ensures HasOpenBlock(Erase(epochs)) == HasOpenBlock(epochs)
    ensures HasOpenEpoch(Erase(epochs)) == HasOpenEpoch(epochs)
  {
    if HasOpenEpoch(epochs) {
      var e := epochs[|epochs| - 1];
      assert Erase(epochs)[|epochs| - 1] == Epoch(EraseBlocks(e.blocks), e.finalized);
      if e.blocks != [] {
        assert EraseBlocks(e.blocks)[|e.blocks| - 1] == EraseBlock(e.blocks[|e.blocks| - 1]);
      }
    }
  }

  lemma ErasePushBlock(epochs: seq<Epoch>, b: Block)
    ensures Erase(PushBlock(epochs, b)) == PushBlock(Erase(epochs), EraseBlock(b))
  {
    ErasePosition(epochs);
    if HasOpenEpoch(epochs) {
      var e := epochs[|epochs| - 1];
      assert EraseBlocks(e.blocks + [b]) == EraseBlocks(e.blocks) + [EraseBlock(b)];
    } else {
      assert EraseBlocks([b]) == [EraseBlock(b)];
    }
    assert Erase(PushBlock(epochs, b)) == PushBlock(Erase(epochs), EraseBlock(b));
  }

  lemma EraseSetLast(epochs: seq<Epoch>, b: Block)
    requires HasOpenBlock(epochs)
    ensures HasOpenBlock(Erase(epochs))
    ensures Erase(SetLastBlock(epochs, b)) == SetLastBlock(Erase(epochs), EraseBlock(b))
    ensures LastBlock(Erase(epochs)) == EraseBlock(LastBlock(epochs))
  {
    ErasePosition(epochs);
    var e := epochs[|epochs| - 1];
    assert EraseBlocks(e.blocks[|e.blocks| - 1 := b]) == EraseBlocks(e.blocks)[|e.blocks| - 1 := EraseBlock(b)];
    assert Erase(SetLastBlock(epochs, b)) == SetLastBlock(Erase(epochs), EraseBlock(b));
  }

  lemma ErasePushItem(epochs: seq<Epoch>, item: Item)
    ensures Erase(PushItem(epochs, item)) == PushItem(Erase(epochs), Hashed(ItemHash(item)))
  {
    ErasePosition(epochs);
    if HasOpenBlock(epochs) {
      var b := Block(LastBlock(epochs).items + [item], false);
      EraseSetLast(epochs, b);
      assert EraseItems(b.items) == EraseItems(LastBlock(epochs).items) + [Hashed(ItemHash(item))];
    } else {
      ErasePushBlock(epochs, Block([item], false));
      assert EraseItems([item]) == [Hashed(ItemHash(item))];
    }
  }

  /** Replacing a kept leaf by its hash changes nothing that is erased. */
  lemma EraseForgetAt(epochs: seq<Epoch>, p: Position, c: Commitment)
    ensures Erase(ForgetAt(epochs, p, c)) == Erase(epochs)
  {
    if KeptAt(epochs, p, c) {
      var e := epochs[p.epoch];
      var b := e.blocks[p.block];
      var b' := b.(items := b.items[p.commitment := Hashed(LeafHash(c))]);
      assert ItemHashes(b'.items) == ItemHashes(b.items);
      assert EraseItems(b'.items) == EraseItems(b.items);
      assert EraseBlock(b') == EraseBlock(b);
      assert EraseBlocks(e.blocks[p.block := b']) == EraseBlocks(e.blocks);
    }
  }

  lemma EraseForget(t: Tree, c: Commitment)
    ensures SameShape(Forget(t, c), t)
  {
    if c in t.index { EraseForgetAt(t.epochs, t.index[c], c); }
  }

  lemma EraseInsert(t: Tree, keep: bool, c: Commitment)
    ensures Erase(Insert(t, keep, c).epochs) == PushItem(Erase(t.epochs), Hashed(LeafHash(c)))
  {
    var item := if keep then Kept(c) else Hashed(LeafHash(c));
    ErasePushItem(t.epochs, item);
    if keep && c in t.index { EraseForgetAt(PushItem(t.epochs, item), t.index[c], c); }
  }

  /** Closing the open block of an erased tree. */
  function SealErased(epochs: seq<Epoch>): seq<Epoch> {
    if HasOpenBlock(epochs) then
      SetLastBlock(epochs, Bare(BlockRoot(Block(LastBlock(epochs).items, true))))
    else
      PushBlock(epochs, Bare(One))
  }

  lemma EraseEndBlock(t: Tree)
    ensures Erase(EndBlock(t).epochs) == SealErased(Erase(t.epochs))
  {
    ErasePosition(t.epochs);
    if HasOpenBlock(t.epochs) {
      var b := Block(LastBlock(t.epochs).items, true);
      EraseSetLast(t.epochs, b);
      assert ItemHashes(EraseItems(b.items)) == ItemHashes(b.items);
    } else {
      ErasePushBlock(t.epochs, Block([], true));
    }
  }

  lemma EraseInsertBlock(t: Tree, root: Hash)
    requires !HasOpenBlock(t.epochs)
    ensures Erase(InsertBlock(t, root).epochs) == PushBlock(Erase(t.epochs), Bare(root))
  {
    ErasePushBlock(t.epochs, Bare(root));
  }

  lemma EraseEndEpoch(t: Tree, u: Tree)
    requires SameShape(t, u) && !HasOpenBlock(t.epochs) && !HasOpenBlock(u.epochs)
    ensures SameShape(EndEpoch(t), EndEpoch(u))
  {
    ErasePosition(t.epochs);
    ErasePosition(u.epochs);
    EraseEpochFlag(t.epochs);
    EraseEpochFlag(u.epochs);
    assert EraseBlocks([]) == [];
    assert Erase(t.epochs + [Epoch([], true)]) == Erase(t.epochs) + [Epoch([], true)];
    assert Erase(u.epochs + [Epoch([], true)]) == Erase(u.epochs) + [Epoch([], true)];
  }

  lemma EraseEpochFlag(epochs: seq<Epoch>)
    ensures HasOpenEpoch(epochs) ==>
              var k := |epochs| - 1;
              Erase(epochs[k := epochs[k].(finalized := true)])
              == Erase(epochs)[k := Erase(epochs)[k].(finalized := true)]
  {
  }

  // ---------- A whole block at once ----------

  function Leaves(cs: seq<Commitment>): seq<Item> {
    seq(|cs|, i requires 0 <= i < |cs| => Hashed(LeafHash(cs[i])))
  }

  /** The root of the block made of exactly these commitments. */
  function RootOf(cs: seq<Commitment>): Hash {
    BlockRoot(Block(Leaves(cs), true))
  }

  /** Insert commitments one at a time, keeping those that are wanted. */
  function InsertAll(t: Tree, cs: seq<Commitment>, keep: set<Commitment>): Tree {
    if cs == [] then t
    else
      var c := cs[|cs| - 1];
      Insert(InsertAll(t, cs[..|cs| - 1], keep), c in keep, c)
  }

  lemma {:induction false} InsertAllShape(t: Tree, cs: seq<Commitment>, keep: set<Commitment>)
    requires !HasOpenBlock(t.epochs)
    ensures Erase(InsertAll(t, cs, keep).epochs)
            == if cs == [] then Erase(t.epochs) else PushBlock(Erase(t.epochs), Block(Leaves(cs), false))
    decreases |cs|
  {
    if cs != [] {
      var init, c := cs[..|cs| - 1], cs[|cs| - 1];
      InsertAllShape(t, init, keep);
      ErasePosition(t.epochs);
      EraseInsert(InsertAll(t, init, keep), c in keep, c);
      assert Leaves(cs) == Leaves(init) + [Hashed(LeafHash(c))];
      if init != [] {
        PushThenSet(Erase(t.epochs), Block(Leaves(init), false), Block(Leaves(cs), false));
      } else {
        assert Leaves(cs) == [Hashed(LeafHash(c))];
      }
    }
  }

  /** Replacing a block just pushed is pushing the other block. */
  lemma PushThenSet(epochs: seq<Epoch>, b: Block, b': Block)
    requires IsOpen(b)
    ensures HasOpenBlock(PushBlock(epochs, b)) && LastBlock(PushBlock(epochs, b)) == b
    ensures SetLastBlock(PushBlock(epochs, b), b') == PushBlock(epochs, b')
  {
    if HasOpenEpoch(epochs) {
      var blocks := epochs[|epochs| - 1].blocks;
      assert (blocks + [b])[|blocks| := b'] == blocks + [b'];
    } else {
      assert [b][0 := b'] == [b'];
    }
    assert SetLastBlock(PushBlock(epochs, b), b') == PushBlock(epochs, b');
  }

  /** Inserting a block's commitments and sealing it has the shape of inserting the block's root. */
  lemma InsertAllThenSeal(t: Tree, cs: seq<Commitment>, keep: set<Commitment>)
    requires !HasOpenBlock(t.epochs)
    ensures SameShape(EndBlock(InsertAll(t, cs, keep)), InsertBlock(t, RootOf(cs)))
    ensures !HasOpenBlock(EndBlock(InsertAll(t, cs, keep)).epochs)
  {
    var u := InsertAll(t, cs, keep);
    InsertAllShape(t, cs, keep);
    EraseEndBlock(u);
    EraseInsertBlock(t, RootOf(cs));
    ErasePosition(t.epochs);
    ErasePosition(u.epochs);
    ErasePosition(EndBlock(u).epochs);
    if cs != [] {
      PushThenSet(Erase(t.epochs), Block(Leaves(cs), false), Bare(RootOf(cs)));
    }
  }

  // ---------- Counting blocks ----------

  function CountBlocks(epochs: seq<Epoch>): nat {
    if epochs == [] then 0 else CountBlocks(epochs[..|epochs| - 1]) + |epochs[|epochs| - 1].blocks|
  }

  lemma CountPushBlock(epochs: seq<Epoch>, b: Block)
    ensures CountBlocks(PushBlock(epochs, b)) == CountBlocks(epochs) + 1
  {
    var pushed := PushBlock(epochs, b);
    if HasOpenEpoch(epochs) {
      assert pushed[..|pushed| - 1] == epochs[..|epochs| - 1];
    } else {
      assert pushed[..|pushed| - 1] == epochs;
    }
  }

  /** The number of blocks is a matter of shape. */
  lemma {:induction false} CountErased(epochs: seq<Epoch>)
    ensures CountBlocks(Erase(epochs)) == CountBlocks(epochs)
    decreases |epochs|
  {
    if epochs != [] {
      CountErased(epochs[..|epochs| - 1]);
      assert Erase(epochs)[..|epochs| - 1] == Erase(epochs[..|epochs| - 1]);
    }
  }

  lemma CountEndEpoch(t: Tree)
    requires !HasOpenBlock(t.epochs)
    ensures CountBlocks(EndEpoch(t).epochs) == CountBlocks(t.epochs)
  {
    var after := EndEpoch(t).epochs;
    if HasOpenEpoch(t.epochs) {
      assert after[..|after| - 1] == t.epochs[..|t.epochs| - 1];
    } else {
      assert after[..|after| - 1] == t.epochs;
    }
  }
}
