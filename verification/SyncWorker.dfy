/** The sync worker: consumes a stream of compact blocks and keeps the in-memory tree and the database in step. */
module SyncWorker {
  import opened Prelude
  import opened Chain
  import opened Tct
  import opened ViewDatabase
  import opened ViewStorage
  import opened Scanning

  // ---------- One block, as the writes it makes before its own transaction ----------

  /** A database write made outside a block's transaction, so one that a crash can leave behind. */
  datatype Write =
    | EpochRootWrite(epoch: nat, root: Hash)
    | EpochStartWrite(epoch: nat, height: nat)
    | AdviceWrite(note: Note)

  function Apply(db: Database, w: Write): Database {
    match w
    case EpochRootWrite(e, root) => UpsertEpoch(db, e, Some(root), None)
    case EpochStartWrite(e, height) => UpsertEpoch(db, e, None, Some(height))
    case AdviceWrite(note) => UpsertNote(db, note)
  }

  function ApplyAll(db: Database, ws: seq<Write>): Database
    decreases |ws|
  {
    if ws == [] then db else ApplyAll(Apply(db, ws[0]), ws[1..])
  }

  function EpochWrites(b: CompactBlock): seq<Write> {
    if b.epochRoot.Some? then
      [EpochRootWrite(b.epochIndex, b.epochRoot.value), EpochStartWrite(b.epochIndex + 1, b.height + 1)]
    else
      []
  }

  function AdviceWrites(advice: seq<Note>): seq<Write> {
    seq(|advice|, i requires 0 <= i < |advice| => AdviceWrite(advice[i]))
  }

  /** The assets of these new notes whose metadata is not known yet but can be had. */
  function UnknownAssets(known: map<AssetId, Denom>, records: map<Commitment, NoteRecord>, cs: set<Commitment>,
                         metadata: map<AssetId, Denom>): set<AssetId> {
    set c | c in cs && c in records && records[c].note.asset !in known && records[c].note.asset in metadata
      :: records[c].note.asset
  }

  function NewAssets(db: Database, fb: FilteredBlock, metadata: map<AssetId, Denom>): set<AssetId> {
    UnknownAssets(db.assets, fb.newNotes, fb.newNotes.Keys, metadata)
  }

  function AddAssets(known: map<AssetId, Denom>, assets: set<AssetId>, metadata: map<AssetId, Denom>)
    : map<AssetId, Denom>
  {
    known + (map a | a in assets && a in metadata :: metadata[a])
  }

  function RecordAssets(db: Database, assets: set<AssetId>, metadata: map<AssetId, Denom>): Database {
    db.(assets := AddAssets(db.assets, assets, metadata))
  }

  /** Everything decided about a block before it is committed. */
  datatype Work = Work(fb: FilteredBlock, txs: seq<Tx>, tree: Tree, writes: seq<Write>, assets: set<AssetId>)

  function PlanBlock(db: Database, tree: Tree, b: CompactBlock, all: seq<Tx>, metadata: map<AssetId, Denom>): Work {
    if !b.RequiresScanning() then
      var sealed := EndBlock(tree);
      Work(FilteredBlock(map[], map[], [], b.height, None, None), [],
           if b.epochRoot.Some? then EndEpoch(sealed) else sealed, EpochWrites(b), {})
    else
      var s := ScanBlockSpec(db, tree, b);
      var (fb, txs) := FetchSpec(FilterBlock(db, s, b), all);
      Work(fb, txs, s.tree, EpochWrites(b) + AdviceWrites(s.advice), NewAssets(db, fb, metadata))
  }

  /** The persistent and the in-memory halves of a running process. */
  datatype Process = Process(db: Database, tree: Tree, uncommitted: Option<nat>)

  /** The end of a block: an empty one advances only memory, any other one is committed. */
  function FinishBlock(p: Process, b: CompactBlock, w: Work): Process {
    if !b.RequiresScanning() then
      p.(tree := w.tree, uncommitted := Some(b.height))
    else
      var (db, tree) := CommitBlock(p.db, w.fb, w.txs, w.tree);
      Process(db, tree, None)
  }

  function ProcessBlock(p: Process, b: CompactBlock, all: seq<Tx>, metadata: map<AssetId, Denom>): Process {
    var w := PlanBlock(p.db, p.tree, b, all, metadata);
    FinishBlock(p.(db := RecordAssets(ApplyAll(p.db, w.writes), w.assets, metadata)), b, w)
  }

  function LastHeight(p: Process): Option<nat> {
    SyncHeight(p.db, p.uncommitted)
  }

  /** The block can be recorded: it comes next, and an empty genesis block is refused. */
  predicate Accepts(p: Process, b: CompactBlock) {
    Follows(LastHeight(p), b.height) && (LastHeight(p) == None ==> b.RequiresScanning())
  }

  function NextHeight(p: Process): nat {
    if LastHeight(p).Some? then LastHeight(p).value + 1 else 0
  }

  // ---------- Frames ----------

  lemma {:induction false} ApplyAllAppend(db: Database, ws: seq<Write>, more: seq<Write>)
    ensures ApplyAll(db, ws + more) == ApplyAll(ApplyAll(db, ws), more)
    decreases |ws|
  {
    if ws == [] {
      assert ws + more == more;
    } else {
      assert (ws + more)[1..] == ws[1..] + more;
      ApplyAllAppend(Apply(db, ws[0]), ws[1..], more);
    }
  }

  /** The databases differ at most in notes and epochs, and none of the first one's notes is missing. */
  ghost predicate Ahead(db: Database, u: Database) {
    && u == db.(notes := u.notes, epochs := u.epochs)
    && db.notes.Keys <= u.notes.Keys
  }

  lemma ApplyFrame(db: Database, w: Write)
    ensures Ahead(db, Apply(db, w))
    ensures RowsOk(db) ==> RowsOk(Apply(db, w))
  {
  }

  /** Writes made ahead of a block's transaction touch only notes and epochs. */
  lemma {:induction false} ApplyAllFrame(db: Database, ws: seq<Write>)
    ensures Ahead(db, ApplyAll(db, ws))
    ensures RowsOk(db) ==> RowsOk(ApplyAll(db, ws))
    decreases |ws|
  {
    if ws != [] {
      ApplyFrame(db, ws[0]);
      ApplyAllFrame(Apply(db, ws[0]), ws[1..]);
    }
  }

  lemma {:induction false} AdviceWritesApply(db: Database, advice: seq<Note>)
    ensures ApplyAll(db, AdviceWrites(advice)) == AddAdvice(db, advice)
    decreases |advice|
  {
    if advice == [] {
      assert AdviceWrites(advice) == [];
    } else {
      var init, last := advice[..|advice| - 1], advice[|advice| - 1];
      assert AdviceWrites(advice) == AdviceWrites(init) + [AdviceWrite(last)];
      ApplyAllAppend(db, AdviceWrites(init), [AdviceWrite(last)]);
      AdviceWritesApply(db, init);
      var d := ApplyAll(db, AdviceWrites(init));
      assert [AdviceWrite(last)][1..] == [];
      assert ApplyAll(Apply(d, AdviceWrite(last)), []) == Apply(d, AdviceWrite(last));
    }
  }

  /** Epoch rows do not influence what a block's scan decides. */
  lemma EpochFrame(db: Database, u: Database, tree: Tree, b: CompactBlock)
    requires db == u.(epochs := db.epochs)
    ensures ScanBlockSpec(db, tree, b) == ScanBlockSpec(u, tree, b)
    ensures FilterBlock(db, ScanBlockSpec(db, tree, b), b) == FilterBlock(u, ScanBlockSpec(u, tree, b), b)
  {
    assert NoteAdvice(db, b.payloads) == NoteAdvice(u, b.payloads);
    FilterFrame(db, u, b.nullifiers);
  }

  /** What a scan records is keyed by commitment and carries the nullifier of its position. */
  lemma {:induction false} ScannedOk(tree: Tree, ps: seq<Payload>, notes: map<Commitment, Note>,
                                     swaps: map<Commitment, Swap>, b: CompactBlock)
    requires (forall c <- notes :: c == OfNote(notes[c])) && (forall c <- swaps :: c == OfSwap(swaps[c]))
    ensures var s := ScanPayloads(tree, ps, notes, swaps, b);
            NoteRecordsOk(s.newNotes) && SwapRecordsOk(s.newSwaps)
    decreases |ps|
  {
    hide NoteRecordsOk, SwapRecordsOk, ScanPayload;
    if ps == [] {
      NoRecordsOk();
    } else {
      ScannedOk(tree, ps[..|ps| - 1], notes, swaps, b);
      PayloadOk(ScanPayloads(tree, ps[..|ps| - 1], notes, swaps, b), ps[|ps| - 1], notes, swaps, b);
    }
  }

  lemma NoRecordsOk()
    ensures NoteRecordsOk(map[]) && SwapRecordsOk(map[])
  {
  }

  lemma PayloadOk(s: Scan, p: Payload, notes: map<Commitment, Note>, swaps: map<Commitment, Swap>, b: CompactBlock)
    requires (forall c <- notes :: c == OfNote(notes[c])) && (forall c <- swaps :: c == OfSwap(swaps[c]))
    requires NoteRecordsOk(s.newNotes) && SwapRecordsOk(s.newSwaps)
    ensures var s' := ScanPayload(s, p, notes, swaps, b);
            NoteRecordsOk(s'.newNotes) && SwapRecordsOk(s'.newSwaps)
  {
    hide Insert, NextPosition, OutputNotes;
  }

  lemma PlanOk(db: Database, tree: Tree, b: CompactBlock, all: seq<Tx>, metadata: map<AssetId, Denom>)
    requires RowsOk(db)
    ensures FilteredOk(FilterBlock(db, ScanBlockSpec(db, tree, b), b))
    ensures FilteredOk(PlanBlock(db, tree, b, all, metadata).fb)
  {
    hide RowsOk, NoteAdvice, SwapAdvice, ScanPayloads, NoteRecordsOk, SwapRecordsOk, FetchSpec, FilterNullifiers,
      EpochWrites, AdviceWrites, NewAssets;
    AdviceKeyed(db, b.payloads);
    ScannedOk(tree, b.payloads, NoteAdvice(db, b.payloads), SwapAdvice(b.payloads), b);
    NoRecordsOk();
    FetchOk(FilterBlock(db, ScanBlockSpec(db, tree, b), b), all);
  }

  lemma FetchOk(fb: FilteredBlock, txs: seq<Tx>)
    requires FilteredOk(fb)
    ensures FilteredOk(FetchSpec(fb, txs).0)
  {
    RehydrateOk(fb, txs);
  }

  lemma RehydrateOk(fb: FilteredBlock, txs: seq<Tx>)
    requires FilteredOk(fb)
    ensures FilteredOk(Rehydrate(fb, txs))
  {
  }

  /** A block leaves the rows well-formed. */
  lemma CommitRowsOk(db: Database, fb: FilteredBlock, txs: seq<Tx>, tree: Tree)
    requires RowsOk(db) && FilteredOk(fb)
    ensures RowsOk(CommitBlock(db, fb, txs, tree).0)
  {
    var recorded := Recorded(db, fb);
    RecordedRowsOk(db, fb);
    var nfs := ToSet(fb.spentNullifiers);
    var spent := MarkSpent(recorded, nfs, fb.height);
    MarkSpentSame(recorded, nfs, fb.height, nfs);
    RecordTxsFrame(spent.(sct := ForgetSet(tree, Forgotten(recorded, nfs))), txs, fb.height);
  }

  lemma {:induction false} RecordTxsFrame(db: Database, txs: seq<Tx>, height: nat)
    ensures var after := RecordTxs(db, txs, height);
            after == db.(txs := after.txs, txByNullifier := after.txByNullifier)
    decreases |txs|
  {
    if txs != [] { RecordTxsFrame(db, txs[..|txs| - 1], height); }
  }

  lemma ProcessRowsOk(p: Process, b: CompactBlock, all: seq<Tx>, metadata: map<AssetId, Denom>)
    requires RowsOk(p.db)
    ensures RowsOk(ProcessBlock(p, b, all, metadata).db)
  {
    var w := PlanBlock(p.db, p.tree, b, all, metadata);
    PlanOk(p.db, p.tree, b, all, metadata);
    FinishRowsOk(p, b, w, metadata);
  }

  lemma FinishRowsOk(p: Process, b: CompactBlock, w: Work, metadata: map<AssetId, Denom>)
    requires RowsOk(p.db) && FilteredOk(w.fb)
    ensures var ready := RecordAssets(ApplyAll(p.db, w.writes), w.assets, metadata);
            RowsOk(ready) && RowsOk(FinishBlock(p.(db := ready), b, w).db)
  {
    ApplyAllFrame(p.db, w.writes);
    var written := ApplyAll(p.db, w.writes);
    var ready := RecordAssets(written, w.assets, metadata);
    hide ApplyAll, FilteredOk;
    assert RowsOk(ready);
    hide RowsOk, RecordAssets, CommitBlock;
    CommitRowsOk(ready, w.fb, w.txs, w.tree);
  }

  /** An empty block seals the tree and touches nothing but epoch rows in the database. */
  lemma EmptyBlockSpec(p: Process, b: CompactBlock, all: seq<Tx>, metadata: map<AssetId, Denom>)
    requires !b.RequiresScanning()
    ensures ProcessBlock(p, b, all, metadata)
            == Process(ApplyAll(p.db, EpochWrites(b)),
                       if b.epochRoot.Some? then EndEpoch(EndBlock(p.tree)) else EndBlock(p.tree), Some(b.height))
  {
    var db := ApplyAll(p.db, EpochWrites(b));
    assert AddAssets(db.assets, {}, metadata) == db.assets;
  }

  /** After a block the reported height is the block's. */
  lemma ProcessedHeight(p: Process, b: CompactBlock, all: seq<Tx>, metadata: map<AssetId, Denom>)
    ensures LastHeight(ProcessBlock(p, b, all, metadata)) == Some(b.height)
  {
    hide ApplyAll, ScanBlockSpec, RecordAssets, RecordNotes, RecordSwaps, MarkSpent, RecordTxs, FilterNullifiers;
    assert PlanBlock(p.db, p.tree, b, all, metadata).fb.height == b.height;
  }

  // ---------- A stream of blocks ----------

  /** Blocks that do not have the expected height are skipped. */
  function Accepted(stream: seq<CompactBlock>, expected: nat): seq<CompactBlock> {
    if stream == [] then []
    else if stream[0].height == expected then [stream[0]] + Accepted(stream[1..], expected + 1)
    else Accepted(stream[1..], expected)
  }

  function ProcessAll(p: Process, blocks: seq<CompactBlock>, node: FullNode): Process {
    if blocks == [] then p
    else
      var b := blocks[|blocks| - 1];
      ProcessBlock(ProcessAll(p, blocks[..|blocks| - 1], node), b, Transactions(node, b.height), node.metadata)
  }

  function Transactions(node: FullNode, height: nat): seq<Tx> {
    if height < |node.transactions| then node.transactions[height] else []
  }

  /** Whatever the stream's gaps, repeats and order, the processed heights are start, start + 1, and so on. */
  lemma {:induction false} AcceptedInOrder(stream: seq<CompactBlock>, expected: nat)
    ensures forall i :: 0 <= i < |Accepted(stream, expected)| ==> Accepted(stream, expected)[i].height == expected + i
    ensures forall b <- Accepted(stream, expected) :: b in stream
    decreases |stream|
  {
    if stream != [] {
      if stream[0].height == expected {
        AcceptedInOrder(stream[1..], expected + 1);
      } else {
        AcceptedInOrder(stream[1..], expected);
      }
    }
  }

  lemma {:induction false} AcceptedAppend(stream: seq<CompactBlock>, expected: nat, b: CompactBlock)
    ensures Accepted(stream + [b], expected) ==
            var before := Accepted(stream, expected);
            if b.height == expected + |before| then before + [b] else before
    decreases |stream|
  {
    if stream == [] {
      assert [b][1..] == [];
      assert Accepted([b], expected)
          == if b.height == expected then [b] + Accepted([], expected + 1) else Accepted([], expected);
    } else {
      assert (stream + [b])[1..] == stream[1..] + [b];
      AcceptedAppend(stream[1..], if stream[0].height == expected then expected + 1 else expected, b);
    }
  }

  class Worker {
    const storage: Storage
    const node: FullNode
    var sct: Tree

    /** A new process reloads the tree from the database. */
    constructor (storage: Storage, node: FullNode)
      ensures this.storage == storage && this.node == node && sct == storage.db.sct
    {
      this.storage, this.node, sct := storage, node, storage.db.sct;
    }

    function State(): Process
      reads this, storage
    {
      Process(storage.db, sct, storage.uncommittedHeight)
    }

    /** One block, under the locks. A refused block leaves the reported height where it was. */
    method SyncBlock(block: CompactBlock) returns (r: Result<(), string>)
      requires RowsOk(storage.db)
      modifies this, storage
      ensures r.Ok? <==> Accepts(old(State()), block)
      ensures r.Ok? ==> State() == ProcessBlock(old(State()), block, Transactions(node, block.height), node.metadata)
      ensures r.Ok? && block.RequiresScanning() ==>
                var w := PlanBlock(old(storage.db), old(sct), block, Transactions(node, block.height), node.metadata);
                && Broadcast(old(storage.scannedNotes), storage.scannedNotes, w.fb.newNotes.Keys)
                && storage.scannedNullifiers == old(storage.scannedNullifiers) + w.fb.spentNullifiers
                && Broadcast(old(storage.scannedSwaps), storage.scannedSwaps, w.fb.newSwaps.Keys)
      ensures r.Err? || !block.RequiresScanning() ==>
                && storage.scannedNotes == old(storage.scannedNotes)
                && storage.scannedNullifiers == old(storage.scannedNullifiers)
                && storage.scannedSwaps == old(storage.scannedSwaps)
      ensures RowsOk(storage.db)
      ensures LastHeight(State()) == if r.Ok? then Some(block.height) else old(LastHeight(State()))
    {
      hide PlanBlock, RowsOk, EpochWrites, ApplyAll, CommitBlock, UpsertEpoch, FinishBlock;
      ghost var p0 := State();
      ghost var all := Transactions(node, block.height);
      ProcessRowsOk(p0, block, all, node.metadata);
      ProcessedHeight(p0, block, all, node.metadata);
      EpochWritesApply(p0.db, block);
      ApplyAllFrame(p0.db, EpochWrites(block));
      if block.epochRoot.Some? {
        storage.UpdateEpoch(block.epochIndex, block.epochRoot, None);
        storage.UpdateEpoch(block.epochIndex + 1, None, Some(block.height + 1));
      }
      if !block.RequiresScanning() {
        EmptyBlockSpec(p0, block, all, node.metadata);
        sct := EndBlock(sct);
        if block.epochRoot.Some? {
          sct := EndEpoch(sct);
        }
        r := storage.RecordEmptyBlock(block.height);
      } else {
        r := ScanAndRecord(block, p0.db);
        ghost var w := PlanBlock(p0.db, p0.tree, block, all, node.metadata);
        assert ProcessBlock(p0, block, all, node.metadata)
            == FinishBlock(p0.(db := RecordAssets(ApplyAll(p0.db, w.writes), w.assets, node.metadata)), block, w);
      }
    }

    /** A block worth scanning, once its epoch is recorded. */
    method ScanAndRecord(block: CompactBlock, ghost db0: Database) returns (r: Result<(), string>)
      requires RowsOk(db0) && storage.db == ApplyAll(db0, EpochWrites(block))
      requires block.RequiresScanning()
      modifies this, storage
      ensures r.Ok? <==> Follows(SyncHeight(db0, old(storage.uncommittedHeight)), block.height)
      ensures var w := PlanBlock(db0, old(sct), block, Transactions(node, block.height), node.metadata);
              var ready := RecordAssets(ApplyAll(db0, w.writes), w.assets, node.metadata);
              if r.Ok? then
                && State() == FinishBlock(Process(ready, old(sct), old(storage.uncommittedHeight)), block, w)
                && Broadcast(old(storage.scannedNotes), storage.scannedNotes, w.fb.newNotes.Keys)
                && storage.scannedNullifiers == old(storage.scannedNullifiers) + w.fb.spentNullifiers
                && Broadcast(old(storage.scannedSwaps), storage.scannedSwaps, w.fb.newSwaps.Keys)
              else
                && storage.db == ready
                && RowsOk(ready) && ready.syncHeight == db0.syncHeight
                && storage.uncommittedHeight == old(storage.uncommittedHeight)
                && storage.scannedNotes == old(storage.scannedNotes)
                && storage.scannedNullifiers == old(storage.scannedNullifiers)
                && storage.scannedSwaps == old(storage.scannedSwaps)
    {
      hide RowsOk, FilteredOk, CommitBlock, ScanBlockSpec, FilterNullifiers, EpochWrites, AdviceWrites, ApplyAll,
        AddAdvice, UnknownAssets, Broadcast, RelevantTxs;
      ghost var all := Transactions(node, block.height);
      ghost var w := PlanBlock(db0, sct, block, all, node.metadata);
      ghost var s := ScanBlockSpec(db0, sct, block);
      PlanOk(db0, sct, block, all, node.metadata);
      FinishRowsOk(Process(db0, sct, None), block, w, node.metadata);
      ApplyAllFrame(db0, EpochWrites(block));
      ApplyAllFrame(db0, w.writes);
      EpochWritesFrame(db0, block);
      EpochFrame(storage.db, db0, sct, block);
      ApplyAllAppend(db0, EpochWrites(block), AdviceWrites(s.advice));
      AdviceWritesApply(storage.db, s.advice);
      assert storage.db.syncHeight == db0.syncHeight;

      var fb, txs, recorded;
      fb, sct := ScanBlock(storage, sct, block);
      fb, txs := FetchTransactions(fb, Transactions(node, block.height));
      assert storage.db == ApplyAll(db0, w.writes) && fb == w.fb && txs == w.txs && sct == w.tree;
      RecordNewAssets(fb);
      assert storage.db.syncHeight == db0.syncHeight && fb.height == block.height;
      recorded := storage.RecordBlock(fb, txs, sct);
      if recorded.Err? {
        return Err(recorded.error);
      }
      sct := recorded.value;
      r := Ok(());
    }

    /** Look up and record the metadata of assets not seen before. */
    method RecordNewAssets(fb: FilteredBlock)
      modifies storage`db
      ensures storage.db == RecordAssets(old(storage.db), NewAssets(old(storage.db), fb, node.metadata), node.metadata)
    {
      hide AddAssets, UnknownAssets;
      ghost var db0 := storage.db;
      ghost var known, metadata := db0.assets, node.metadata;
      var todo := fb.newNotes.Keys;
      NoUnknownAssets(known, fb.newNotes, metadata);
      assert fb.newNotes.Keys - todo == {};
      while todo != {}
        invariant todo <= fb.newNotes.Keys
        invariant storage.db == db0.(assets := storage.db.assets)
        invariant storage.db.assets
               == AddAssets(known, UnknownAssets(known, fb.newNotes, fb.newNotes.Keys - todo, metadata), metadata)
        decreases |todo|
      {
        var c :| c in todo;
        var asset := fb.newNotes[c].note.asset;
        AssetOfOneMore(known, fb.newNotes, fb.newNotes.Keys - todo, c, metadata);
        assert fb.newNotes.Keys - (todo - {c}) == fb.newNotes.Keys - todo + {c};
        if asset !in storage.db.assets && asset in node.metadata {
          storage.RecordAsset(asset, node.metadata[asset]);
        }
        todo := todo - {c};
      }
      assert fb.newNotes.Keys - {} == fb.newNotes.Keys;
    }

    /** One sync run over a stream of blocks, with gaps, repeats and reordering. */
    method Sync(stream: seq<CompactBlock>) returns (r: Result<(), string>)
      requires RowsOk(storage.db)
      modifies this, storage
      ensures RowsOk(storage.db)
      ensures r.Ok? ==> State() == ProcessAll(old(State()), Accepted(stream, NextHeight(old(State()))), node)
      ensures r.Ok? ==>
                var k := |Accepted(stream, NextHeight(old(State())))|;
                NextHeight(State()) == NextHeight(old(State())) + k
      ensures r.Err? ==> exists b <- stream :: b.height == 0 && !b.RequiresScanning()
    {
      hide RowsOk, ProcessBlock, PlanBlock, Broadcast;
      ghost var p0 := State();
      var expected := if storage.LastSyncHeight().Some? then storage.LastSyncHeight().value + 1 else 0;
      ghost var start := expected;
      for i := 0 to |stream|
        invariant RowsOk(storage.db)
        invariant expected == start + |Accepted(stream[..i], start)| == NextHeight(State())
        invariant State() == ProcessAll(p0, Accepted(stream[..i], start), node)
      {
        var block := stream[i];
        assert stream[..i + 1] == stream[..i] + [block];
        AcceptedAppend(stream[..i], start, block);
        if block.height != expected {
          continue;
        }
        expected := expected + 1;
        r := SyncBlock(block);
        if r.Err? {
          return;
        }
        ghost var done := Accepted(stream[..i], start);
        assert (done + [block])[..|done|] == done;
      }
      assert stream[..|stream|] == stream;
      r := Ok(());
    }
  }

  lemma NoUnknownAssets(known: map<AssetId, Denom>, records: map<Commitment, NoteRecord>, metadata: map<AssetId, Denom>)
    ensures AddAssets(known, UnknownAssets(known, records, {}, metadata), metadata) == known
  {
    assert UnknownAssets(known, records, {}, metadata) == {};
    assert AddAssets(known, {}, metadata) == known;
  }

  lemma AssetOfOneMore(known: map<AssetId, Denom>, records: map<Commitment, NoteRecord>, done: set<Commitment>,
                       c: Commitment, metadata: map<AssetId, Denom>)
    requires c in records
    ensures var before := AddAssets(known, UnknownAssets(known, records, done, metadata), metadata);
            var after := AddAssets(known, UnknownAssets(known, records, done + {c}, metadata), metadata);
            var asset := records[c].note.asset;
            after == if asset !in before && asset in metadata then before[asset := metadata[asset]] else before
  {
    var asset := records[c].note.asset;
    var news := UnknownAssets(known, records, done, metadata);
    assert UnknownAssets(known, records, done + {c}, metadata)
        == if asset !in known && asset in metadata then news + {asset} else news;
    if asset !in known && asset in metadata {
      AddAssetsOneMore(known, news, asset, metadata);
    }
  }

  lemma AddAssetsOneMore(known: map<AssetId, Denom>, news: set<AssetId>, asset: AssetId, metadata: map<AssetId, Denom>)
    requires asset !in known && asset in metadata
    ensures AddAssets(known, news + {asset}, metadata) == AddAssets(known, news, metadata)[asset := metadata[asset]]
  {
  }

  /** Recording an epoch boundary touches only epoch rows. */
  lemma EpochWritesFrame(db: Database, b: CompactBlock)
    ensures ApplyAll(db, EpochWrites(b)) == db.(epochs := ApplyAll(db, EpochWrites(b)).epochs)
  {
    EpochWritesApply(db, b);
  }

  lemma EpochWritesApply(db: Database, b: CompactBlock)
    ensures ApplyAll(db, EpochWrites(b)) ==
            if b.epochRoot.Some? then
              UpsertEpoch(UpsertEpoch(db, b.epochIndex, b.epochRoot, None), b.epochIndex + 1, None, Some(b.height + 1))
            else db
  {
    if b.epochRoot.Some? {
      var ws := EpochWrites(b);
      assert ws[1..] == [ws[1]] && ws[1..][1..] == [];
      assert ApplyAll(db, ws) == ApplyAll(Apply(db, ws[0]), ws[1..]);
      assert ApplyAll(Apply(db, ws[0]), ws[1..]) == ApplyAll(Apply(Apply(db, ws[0]), ws[1]), []);
    }
  }
}
