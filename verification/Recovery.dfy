/** Crashes and restarts at any point of a run: what the database and memory are once the process has caught up. */
module Recovery {
  import opened Prelude
  import opened Chain
  import opened Tct
  import opened TctShape
  import opened ViewDatabase
  import opened Scanning
  import opened SyncWorker
  import opened IdealRun
  import opened Agreement

  // ---------- The machine ----------

  /** A running process. `work` is what remains of the block in progress, if there is one. */
  datatype Memory = Memory(tree: Tree, uncommitted: Option<nat>, work: Option<Work>)

  /** `begun` is history: the first block that no process ever started on. */
  datatype System = System(db: Database, memory: Option<Memory>, begun: nat)
  {
    function Process(): Process
      requires memory.Some?
    {
      SyncWorker.Process.Process(db, memory.value.tree, memory.value.uncommitted)
    }

    predicate Idle() {
      memory.Some? && memory.value.work.None?
    }

    predicate Busy() {
      memory.Some? && memory.value.work.Some?
    }

    /** The block that comes next, or is in progress. */
    function Next(): nat
      requires memory.Some?
    {
      NextHeight(Process())
    }
  }

  const START := System(INITIAL, None, 0)

  /** A new process reloads the tree and the height from the database. */
  ghost predicate Restart(s: System, s': System) {
    s.memory.None? && s' == s.(memory := Some(Memory(s.db.sct, None, None)))
  }

  ghost predicate Crash(s: System, s': System) {
    s.memory.Some? && s' == s.(memory := None)
  }

  ghost predicate Begin(node: FullNode, s: System, s': System) {
    && s.Idle() && s.Next() < |node.blocks|
    && var n := s.Next();
       var work := PlanBlock(s.db, s.memory.value.tree, node.blocks[n], Transactions(node, n), node.metadata);
       s' == System(s.db, Some(s.memory.value.(work := Some(work))), if n < s.begun then s.begun else n + 1)
  }

  /** One write ahead of the block's transaction: an epoch row or a note the block's swaps will pay out. */
  ghost predicate WriteAhead(s: System, s': System) {
    && s.Busy()
    && var w := s.memory.value.work.value;
       && w.writes != []
       && s' == s.(db := Apply(s.db, w.writes[0]),
                   memory := Some(s.memory.value.(work := Some(w.(writes := w.writes[1..])))))
  }

  ghost predicate WriteAsset(node: FullNode, s: System, s': System, asset: AssetId) {
    && s.Busy()
    && var w := s.memory.value.work.value;
       && w.writes == [] && asset in w.assets && asset in node.metadata
       && s' == s.(db := UpsertAsset(s.db, asset, node.metadata[asset]),
                   memory := Some(s.memory.value.(work := Some(w.(assets := w.assets - {asset})))))
  }

  /** The block's transaction, or, for an empty block, the step that only moves memory. */
  ghost predicate Finish(node: FullNode, s: System, s': System) {
    && s.Busy() && s.Next() < |node.blocks|
    && var w, b := s.memory.value.work.value, node.blocks[s.Next()];
       && w.writes == [] && w.assets == {} && Accepts(s.Process(), b)
       && var p := FinishBlock(s.Process(), b, w);
          s' == s.(db := p.db, memory := Some(Memory(p.tree, p.uncommitted, None)))
  }

  ghost predicate Step(node: FullNode, s: System, s': System) {
    || Restart(s, s')
    || Crash(s, s')
    || Begin(node, s, s')
    || WriteAhead(s, s')
    || (exists asset :: WriteAsset(node, s, s', asset))
    || Finish(node, s, s')
  }

  ghost predicate Run(node: FullNode, run: seq<System>) {
    && run != [] && run[0] == START
    && forall i :: 0 <= i < |run| - 1 ==> Step(node, run[i], run[i + 1])
  }

  // ---------- Epoch rows, cell by cell ----------

  function RootCell(epochs: map<nat, EpochRow>, e: nat): Option<Hash> {
    if e in epochs then epochs[e].root else None
  }

  function StartCell(epochs: map<nat, EpochRow>, e: nat): Option<nat> {
    if e in epochs then epochs[e].startHeight else None
  }

  function EpochsAt(node: FullNode, n: nat): map<nat, EpochRow>
    requires n <= |node.blocks|
  {
    Ideal(node, n).db.epochs
  }

  /** The cell is what the uninterrupted run has there at some point from n to hw. */
  ghost predicate CellFrom(node: FullNode, epochs: map<nat, EpochRow>, e: nat, n: nat, hw: nat)
    requires hw <= |node.blocks|
  {
    && (exists k :: n <= k <= hw && RootCell(epochs, e) == RootCell(EpochsAt(node, k), e))
    && (exists k :: n <= k <= hw && StartCell(epochs, e) == StartCell(EpochsAt(node, k), e))
  }

  ghost predicate RowsFull(epochs: map<nat, EpochRow>) {
    forall e <- epochs :: epochs[e] != EpochRow(None, None)
  }

  ghost predicate CellsFrom(node: FullNode, epochs: map<nat, EpochRow>, n: nat, hw: nat)
    requires hw <= |node.blocks|
  {
    && (forall e :: CellFrom(node, epochs, e, n, hw))
    && RowsFull(epochs)
  }

  function OrElse<T>(a: Option<T>, b: Option<T>): Option<T> {
    if a.Some? then a else b
  }

  function WrittenRoot(b: CompactBlock, e: nat): Option<Hash> {
    if e == b.epochIndex then b.epochRoot else None
  }

  function WrittenStart(b: CompactBlock, e: nat): Option<nat> {
    if b.epochRoot.Some? && e == b.epochIndex + 1 then Some(b.height + 1) else None
  }

  lemma PlanWrites(db: Database, tree: Tree, b: CompactBlock, all: seq<Tx>, metadata: map<AssetId, Denom>)
    returns (advice: seq<Note>)
    ensures PlanBlock(db, tree, b, all, metadata).writes == EpochWrites(b) + AdviceWrites(advice)
    ensures advice == if b.RequiresScanning() then ScanBlockSpec(db, tree, b).advice else []
  {
    advice := if b.RequiresScanning() then ScanBlockSpec(db, tree, b).advice else [];
    hide ScanBlockSpec, FetchSpec, EpochWrites;
  }

  /** What a block's early writes do to the epoch rows. */
  lemma WrittenCells(db: Database, b: CompactBlock, advice: seq<Note>, e: nat)
    ensures var after := ApplyAll(db, EpochWrites(b) + AdviceWrites(advice));
            && RootCell(after.epochs, e) == OrElse(WrittenRoot(b, e), RootCell(db.epochs, e))
            && StartCell(after.epochs, e) == OrElse(WrittenStart(b, e), StartCell(db.epochs, e))
  {
    ApplyAllAppend(db, EpochWrites(b), AdviceWrites(advice));
    EpochWritesApply(db, b);
    AdviceWritesApply(ApplyAll(db, EpochWrites(b)), advice);
    AddAdviceFrame(ApplyAll(db, EpochWrites(b)), advice);
    hide ApplyAll, AddAdvice, AdviceWrites, EpochWrites;
  }

  lemma {:induction false} WrittenRows(db: Database, ws: seq<Write>)
    requires RowsFull(db.epochs)
    ensures RowsFull(ApplyAll(db, ws).epochs)
    decreases |ws|
  {
    if ws != [] {
      NoEmptyRow(db, ws[0]);
      hide Apply, RowsFull;
      WrittenRows(Apply(db, ws[0]), ws[1..]);
    }
  }

  lemma EpochsNext(node: FullNode, n: nat, e: nat)
    requires ChainOk(node) && n < |node.blocks|
    ensures RootCell(EpochsAt(node, n + 1), e) == OrElse(WrittenRoot(node.blocks[n], e), RootCell(EpochsAt(node, n), e))
    ensures StartCell(EpochsAt(node, n + 1), e)
            == OrElse(WrittenStart(node.blocks[n], e), StartCell(EpochsAt(node, n), e))
  {
    hide Ideal, BlockOk, PlanBlock, CommitBlock, ApplyAll;
    var p, w, b := Ideal(node, n), IdealPlan(node, n), node.blocks[n];
    var advice := PlanWrites(p.db, p.tree, b, Transactions(node, n), node.metadata);
    WrittenCells(p.db, b, advice, e);
    if b.RequiresScanning() {
      IdealScanned(node, n);
      CommitEager(RecordAssets(ApplyAll(p.db, w.writes), w.assets, node.metadata), w.fb, w.txs, w.tree);
    } else {
      IdealEmpty(node, n);
    }
  }

  // ---------- Advice written early ----------

  /** The notes that the block's swaps will pay out. */
  function AdviceKeys(node: FullNode, n: nat): set<Commitment>
    requires n < |node.blocks|
  {
    AdviceOf(IdealPlan(node, n).writes)
  }

  function AdviceOf(ws: seq<Write>): set<Commitment>
    decreases |ws|
  {
    if ws == [] then {}
    else AdviceOf(ws[1..]) + OwnAdvice(ws[0])
  }

  function OwnAdvice(w: Write): set<Commitment> {
    if w.AdviceWrite? then {OfNote(w.note)} else {}
  }

  lemma AppliedNote(db: Database, w: Write)
    ensures Apply(db, w).notes.Keys == db.notes.Keys + OwnAdvice(w)
  {
  }

  lemma {:induction false} AdviceOfIff(ws: seq<Write>, c: Commitment)
    ensures c in AdviceOf(ws) <==> exists w <- ws :: w.AdviceWrite? && OfNote(w.note) == c
    decreases |ws|
  {
    if ws != [] {
      AdviceOfIff(ws[1..], c);
      assert forall w :: w in ws <==> w == ws[0] || w in ws[1..];
    }
  }

  lemma {:induction false} AppliedNotes(db: Database, ws: seq<Write>)
    ensures ApplyAll(db, ws).notes.Keys == db.notes.Keys + AdviceOf(ws)
    decreases |ws|
  {
    hide Apply, OwnAdvice;
    if ws != [] {
      AppliedNote(db, ws[0]);
      AppliedNotes(Apply(db, ws[0]), ws[1..]);
    }
  }

  lemma {:induction false} AdviceOutputs(tree: Tree, ps: seq<Payload>, notes: map<Commitment, Note>,
                                         swaps: map<Commitment, Swap>, b: CompactBlock, note: Note)
    requires note in ScanPayloads(tree, ps, notes, swaps, b).advice
    ensures exists c <- swaps ::
              swaps[c].pair in b.swapOutputs
              && var (output1, output2) := OutputNotes(swaps[c], b.swapOutputs[swaps[c].pair]);
                 note == output1 || note == output2
    decreases |ps|
  {
    if note in ScanPayloads(tree, ps[..|ps| - 1], notes, swaps, b).advice {
      AdviceOutputs(tree, ps[..|ps| - 1], notes, swaps, b, note);
    }
  }

  lemma NoEpochAdvice(b: CompactBlock)
    ensures forall w <- EpochWrites(b) :: !w.AdviceWrite?
  {
  }

  /** No early write tells a block about one of its own commitments. */
  lemma AdviceNotInBlock(node: FullNode, n: nat)
    requires ChainOk(node) && n < |node.blocks|
    ensures forall c <- Commitments(node.blocks[n].payloads) :: c !in AdviceKeys(node, n)
    ensures !node.blocks[n].RequiresScanning() ==> AdviceKeys(node, n) == {}
  {
    var p, b := Ideal(node, n), node.blocks[n];
    var notes, swaps := NoteAdvice(p.db, b.payloads), SwapAdvice(b.payloads);
    hide Ideal, PlanBlock, NoteAdvice, ScanPayloads, AdviceOf, EpochWrites;
    var advice := PlanWrites(p.db, p.tree, b, Transactions(node, n), node.metadata);
    assert forall w <- EpochWrites(b) :: !w.AdviceWrite? by { NoEpochAdvice(b); }
    forall c | c in AdviceKeys(node, n) ensures b.RequiresScanning() && c !in Commitments(b.payloads) {
      AdviceOfIff(IdealPlan(node, n).writes, c);
      var w :| w in IdealPlan(node, n).writes && w.AdviceWrite? && OfNote(w.note) == c;
      assert w.note in advice;
      AdviceOutputs(p.tree, b.payloads, notes, swaps, b, w.note);
    }
  }

  // ---------- The invariant ----------

  /** The database: it agrees with the uninterrupted run at its height, up to what was written ahead. */
  ghost predicate DatabaseOk(node: FullNode, db: Database, begun: nat) {
    && 0 <= db.syncHeight + 1 <= begun <= |node.blocks|
    && var p := Ideal(node, db.syncHeight + 1);
       && SameCore(db, p.db) && p.uncommitted == None && p.db.sct == p.tree
       && RowsOk(db) && AssetsOk(db, node.metadata)
       && (forall k :: db.syncHeight + 1 <= k < begun - 1 ==> !node.blocks[k].RequiresScanning())
       && p.db.notes.Keys <= db.notes.Keys
       && db.notes.Keys <= p.db.notes.Keys + (if db.syncHeight + 1 < begun then AdviceKeys(node, begun - 1) else {})
       && CellsFrom(node, db.epochs, db.syncHeight + 1, begun)
  }

  /** A process at block n: its memory is that of the uninterrupted run, and only empty blocks are uncommitted. */
  ghost predicate ProcessOk(node: FullNode, s: System)
    requires s.memory.Some? && s.begun <= |node.blocks|
  {
    && 0 <= s.db.syncHeight + 1 <= s.Next() <= s.begun
    && (forall k :: s.db.syncHeight + 1 <= k < s.Next() && k < |node.blocks| ==> !node.blocks[k].RequiresScanning())
    && s.memory.value.tree == Ideal(node, s.Next()).tree
    && s.memory.value.uncommitted == Ideal(node, s.Next()).uncommitted
    && CellsFrom(node, s.db.epochs, s.Next(), s.begun)
  }

  /** The block in progress: its plan is the uninterrupted run's, and what is left to write completes it. */
  ghost predicate WorkOk(node: FullNode, s: System, w: Work)
    requires s.memory.Some? && s.begun <= |node.blocks|
  {
    && s.Next() < s.begun
    && var plan := IdealPlan(node, s.Next());
       && w.fb == plan.fb && w.txs == plan.txs && w.tree == plan.tree
       && (forall x <- w.writes :: x in plan.writes)
       && w.assets <= node.metadata.Keys
       && var ready := RecordAssets(ApplyAll(s.db, w.writes), w.assets, node.metadata);
          && CellsFrom(node, ready.epochs, s.Next() + 1, s.begun)
          && AdviceKeys(node, s.Next()) <= ready.notes.Keys
          && AssetsReady(ready, w.fb.newNotes, node.metadata)
  }

  ghost predicate Inv(node: FullNode, s: System) {
    && DatabaseOk(node, s.db, s.begun)
    && (s.memory.Some? ==> ProcessOk(node, s))
    && (s.Busy() ==> WorkOk(node, s, s.memory.value.work.value))
  }

  // ---------- Agreement at the process's own block ----------

  /** Across empty blocks the uninterrupted run's database changes only in its epoch rows. */
  lemma {:induction false} QuietSame(node: FullNode, m: nat, n: nat)
    requires ChainOk(node) && m <= n <= |node.blocks|
    requires forall k :: m <= k < n ==> !node.blocks[k].RequiresScanning()
    ensures Ideal(node, n).db == Ideal(node, m).db.(epochs := Ideal(node, n).db.epochs)
    decreases n
  {
    hide Ideal, BlockOk, ChainOk;
    if m < n {
      QuietSame(node, m, n - 1);
      IdealEmpty(node, n - 1);
    }
  }

  /** The process's own database, compared with the uninterrupted run's at the same block. */
  ghost predicate NearAt(node: FullNode, db: Database, n: nat, begun: nat)
    requires n <= begun <= |node.blocks|
  {
    && SameCore(db, Ideal(node, n).db)
    && Ideal(node, n).db.notes.Keys <= db.notes.Keys
    && db.notes.Keys <= Ideal(node, n).db.notes.Keys + (if n < begun then AdviceKeys(node, begun - 1) else {})
  }

  lemma NearNow(node: FullNode, s: System)
    requires ChainOk(node) && Inv(node, s) && s.memory.Some?
    ensures NearAt(node, s.db, s.Next(), s.begun)
  {
    hide Ideal, IdealPlan, BlockOk, CellsFrom, RowsOk, AssetsOk, WorkOk, ChainOk, NextHeight, AdviceKeys;
    var m, n := s.db.syncHeight + 1, s.Next();
    QuietSame(node, m, n);
    if m < n == s.begun {
      AdviceNotInBlock(node, n - 1);
    }
  }

  // ---------- Epoch cells under the steps ----------

  lemma CellsWiden(node: FullNode, epochs: map<nat, EpochRow>, n: nat, hw: nat, n': nat, hw': nat)
    requires n' <= n && hw <= hw' <= |node.blocks| && CellsFrom(node, epochs, n, hw)
    ensures CellsFrom(node, epochs, n', hw')
  {
    hide Ideal, EpochsAt;
    forall e ensures CellFrom(node, epochs, e, n', hw') {
      assert CellFrom(node, epochs, e, n, hw);
    }
  }

  /** All early writes of block n bring every cell past n. */
  lemma CellsAdvance(node: FullNode, db: Database, advice: seq<Note>, n: nat, hw: nat)
    requires ChainOk(node) && n < hw <= |node.blocks| && CellsFrom(node, db.epochs, n, hw)
    ensures CellsFrom(node, ApplyAll(db, EpochWrites(node.blocks[n]) + AdviceWrites(advice)).epochs, n + 1, hw)
  {
    hide Ideal, EpochsAt, ChainOk, EpochWrites, AdviceWrites, ApplyAll, RootCell, StartCell, WrittenRoot,
      WrittenStart;
    var ws := EpochWrites(node.blocks[n]) + AdviceWrites(advice);
    WrittenRows(db, ws);
    var epochs := ApplyAll(db, ws).epochs;
    var next := n + 1;
    forall e ensures CellFrom(node, epochs, e, next, hw) {
      assert CellFrom(node, db.epochs, e, n, hw);
      var k :| n <= k <= hw && RootCell(db.epochs, e) == RootCell(EpochsAt(node, k), e);
      var l :| n <= l <= hw && StartCell(db.epochs, e) == StartCell(EpochsAt(node, l), e);
      WrittenCells(db, node.blocks[n], advice, e);
      EpochsNext(node, n, e);
      var k' := if k == n || WrittenRoot(node.blocks[n], e).Some? then n + 1 else k;
      var l' := if l == n || WrittenStart(node.blocks[n], e).Some? then n + 1 else l;
      assert RootCell(epochs, e) == RootCell(EpochsAt(node, k'), e);
      assert StartCell(epochs, e) == StartCell(EpochsAt(node, l'), e);
    }
  }

  lemma PlannedWrite(node: FullNode, n: nat, x: Write)
    requires n < |node.blocks| && x in IdealPlan(node, n).writes
    ensures x.EpochRootWrite? ==> WrittenRoot(node.blocks[n], x.epoch) == Some(x.root)
    ensures x.EpochStartWrite? ==> WrittenStart(node.blocks[n], x.epoch) == Some(x.height)
    ensures x.AdviceWrite? ==> OfNote(x.note) in AdviceKeys(node, n)
  {
    var p := Ideal(node, n);
    hide Ideal, PlanBlock;
    var advice := PlanWrites(p.db, p.tree, node.blocks[n], Transactions(node, n), node.metadata);
    assert x in EpochWrites(node.blocks[n]) || x in AdviceWrites(advice);
    if x.AdviceWrite? { AdviceOfIff(IdealPlan(node, n).writes, OfNote(x.note)); }
  }

  lemma AppliedCells(db: Database, x: Write, e: nat)
    ensures var after := Apply(db, x).epochs;
            && RootCell(after, e)
               == (if x.EpochRootWrite? && x.epoch == e then Some(x.root) else RootCell(db.epochs, e))
            && StartCell(after, e)
               == (if x.EpochStartWrite? && x.epoch == e then Some(x.height) else StartCell(db.epochs, e))
  {
  }

  /** Any one of block n's early writes leaves every cell where the uninterrupted run has been, or will be. */
  lemma CellsWrite(node: FullNode, db: Database, x: Write, n: nat, hw: nat)
    requires ChainOk(node) && n < hw <= |node.blocks| && CellsFrom(node, db.epochs, n, hw)
    requires x in IdealPlan(node, n).writes
    ensures CellsFrom(node, Apply(db, x).epochs, n, hw)
  {
    hide Ideal, IdealPlan, EpochsAt, ChainOk, RootCell, StartCell, WrittenRoot, WrittenStart;
    PlannedWrite(node, n, x);
    var epochs := Apply(db, x).epochs;
    forall e ensures CellFrom(node, epochs, e, n, hw) {
      assert CellFrom(node, db.epochs, e, n, hw);
      AppliedCells(db, x, e);
      EpochsNext(node, n, e);
      if RootCell(epochs, e) != RootCell(db.epochs, e) {
        assert RootCell(epochs, e) == RootCell(EpochsAt(node, n + 1), e);
      }
      if StartCell(epochs, e) != StartCell(db.epochs, e) {
        assert StartCell(epochs, e) == StartCell(EpochsAt(node, n + 1), e);
      }
    }
    NoEmptyRow(db, x);
  }

  lemma NoEmptyRow(db: Database, x: Write)
    requires RowsFull(db.epochs)
    ensures RowsFull(Apply(db, x).epochs)
  {
  }

  // ---------- Every step keeps the invariant ----------

  lemma StartInv(node: FullNode)
    requires ChainOk(node)
    ensures Inv(node, START)
  {
    hide ProcessBlock, ChainOk;
    FreshOk(node);
    forall e ensures CellFrom(node, INITIAL.epochs, e, 0, 0) {
      assert RootCell(INITIAL.epochs, e) == RootCell(EpochsAt(node, 0), e);
      assert StartCell(INITIAL.epochs, e) == StartCell(EpochsAt(node, 0), e);
    }
  }

  lemma RestartInv(node: FullNode, s: System, s': System)
    requires ChainOk(node) && Inv(node, s) && Restart(s, s')
    ensures Inv(node, s')
  {
    hide Ideal, IdealPlan, CellsFrom, RowsOk, AssetsOk, BlockOk, AdviceKeys, ChainOk;
  }

  lemma BeginInv(node: FullNode, s: System, s': System)
    requires ChainOk(node) && Inv(node, s) && Begin(node, s, s')
    ensures Inv(node, s')
  {
    hide Ideal, IdealPlan, CellsFrom, RowsOk, AssetsOk, AssetsReady, BlockOk, AdviceKeys, ChainOk, PlanBlock,
      RecordAssets, ApplyAll, NextHeight;
    var n := s.Next();
    CellsWiden(node, s.db.epochs, s.db.syncHeight + 1, s.begun, s.db.syncHeight + 1, s'.begun);
    CellsWiden(node, s.db.epochs, n, s.begun, n, s'.begun);
    NearNow(node, s);
    assert DatabaseOk(node, s'.db, s'.begun) by {
      if s.begun == n && s.db.syncHeight + 1 < n {
        AdviceNotInBlock(node, n - 1);
      }
    }
    PlanNow(node, s);
    var w := s'.memory.value.work.value;
    hide DatabaseOk, NearAt;
    CellsAdvanceNow(node, s', w);
  }

  lemma RolledUpInBlock(ps: seq<Payload>)
    ensures forall c <- RolledUpCommitments(ps) :: c in Commitments(ps)
  {
    forall p <- ps ensures p.commitment in Commitments(ps) {
      var i :| 0 <= i < |ps| && ps[i] == p;
      assert Commitments(ps)[i] == p.commitment;
    }
  }

  lemma NoNewAssets(db: Database, fb: FilteredBlock, metadata: map<AssetId, Denom>)
    ensures fb.newNotes == map[] ==> NewAssets(db, fb, metadata) == {}
    ensures NewAssets(db, fb, metadata) <= metadata.Keys
  {
  }

  lemma CellsAdvanceNow(node: FullNode, s: System, w: Work)
    requires ChainOk(node) && s.memory.Some? && s.Next() < s.begun <= |node.blocks|
    requires CellsFrom(node, s.db.epochs, s.Next(), s.begun)
    requires w.writes == IdealPlan(node, s.Next()).writes
    ensures CellsFrom(node, RecordAssets(ApplyAll(s.db, w.writes), w.assets, node.metadata).epochs,
                      s.Next() + 1, s.begun)
  {
    hide Ideal, CellsFrom, PlanBlock, ChainOk, ApplyAll, EpochWrites, AdviceWrites, RecordAssets, NextHeight;
    var n, p := s.Next(), Ideal(node, s.Next());
    var advice := PlanWrites(p.db, p.tree, node.blocks[n], Transactions(node, n), node.metadata);
    CellsAdvance(node, s.db, advice, n, s.begun);
    ReadyFrame(s.db, w.writes, w.assets, node.metadata);
  }

  /** The plan that the process makes now. */
  function PlanOf(node: FullNode, s: System): Work
    requires s.memory.Some? && s.Next() < |node.blocks|
  {
    PlanBlock(s.db, s.memory.value.tree, node.blocks[s.Next()], Transactions(node, s.Next()), node.metadata)
  }

  /** The plan made now is the one the uninterrupted run makes, and its early writes suffice. */
  lemma PlanNow(node: FullNode, s: System)
    requires ChainOk(node) && Inv(node, s) && s.memory.Some? && s.Next() < |node.blocks|
    ensures var plan, w := IdealPlan(node, s.Next()), PlanOf(node, s);
            var ready := RecordAssets(ApplyAll(s.db, w.writes), w.assets, node.metadata);
            && w.fb == plan.fb && w.txs == plan.txs && w.tree == plan.tree && w.writes == plan.writes
            && w.assets <= node.metadata.Keys
            && AdviceKeys(node, s.Next()) <= ready.notes.Keys
            && AssetsReady(ready, w.fb.newNotes, node.metadata)
  {
    PlanAgrees(node, s);
    hide Inv, ChainOk, ApplyAll, PlanBlock, IdealPlan, AssetsReady;
    var w := PlanOf(node, s);
    AppliedNotes(s.db, w.writes);
    RowsNow(node, s);
    ReadyAssets(s.db, w.fb, w.writes, node.metadata);
    PlannedAssets(node, s);
  }

  lemma RowsNow(node: FullNode, s: System)
    requires Inv(node, s)
    ensures RowsOk(s.db) && AssetsOk(s.db, node.metadata)
  {
    hide Ideal, RowsOk, AssetsOk, CellsFrom;
  }

  lemma PlannedAssets(node: FullNode, s: System)
    requires s.memory.Some? && s.Next() < |node.blocks|
    ensures var w := PlanOf(node, s);
            w.assets == NewAssets(s.db, w.fb, node.metadata) && w.assets <= node.metadata.Keys
  {
    hide ScanBlockSpec, FetchSpec, EpochWrites, AdviceWrites, NextHeight;
    NoNewAssets(s.db, PlanOf(node, s).fb, node.metadata);
  }

  lemma PlanAgrees(node: FullNode, s: System)
    requires ChainOk(node) && Inv(node, s) && s.memory.Some? && s.Next() < |node.blocks|
    ensures var plan, w := IdealPlan(node, s.Next()), PlanOf(node, s);
            w.fb == plan.fb && w.txs == plan.txs && w.tree == plan.tree && w.writes == plan.writes
  {
    var n, b := s.Next(), node.blocks[s.Next()];
    var u := Ideal(node, n).db;
    NearNow(node, s);
    IdealOk(node, n);
    RowsNow(node, s);
    TreeNow(node, s);
    hide Inv, ChainOk, Ideal, PlanBlock, RowsOk, AssetsOk, NextHeight, AdviceKeys;
    assert forall c <- RolledUpCommitments(b.payloads) :: c in s.db.notes <==> c in u.notes by {
      RolledUpInBlock(b.payloads);
      EarlyAdvice(node, s);
    }
    PlanSame(s.db, u, s.memory.value.tree, b, Transactions(node, n), node.metadata);
  }

  lemma TreeNow(node: FullNode, s: System)
    requires Inv(node, s) && s.memory.Some?
    ensures s.memory.value.tree == Ideal(node, s.Next()).tree
  {
    hide Ideal, CellsFrom, RowsOk, AssetsOk;
  }

  /** Advice beyond the uninterrupted run's is about no commitment of the next block. */
  lemma EarlyAdvice(node: FullNode, s: System)
    requires ChainOk(node) && Inv(node, s) && s.memory.Some? && s.Next() < |node.blocks|
    ensures forall c <- Commitments(node.blocks[s.Next()].payloads) ::
              c in s.db.notes ==> c in Ideal(node, s.Next()).db.notes
  {
    hide Inv, ChainOk, Ideal, AdviceKeys, SameCore, NextHeight;
    var n := s.Next();
    NearNow(node, s);
    if n + 1 < s.begun {
      QuietNow(node, s);
      assert node.blocks[n].payloads == [];
    } else if n + 1 == s.begun {
      AdviceNotInBlock(node, n);
    }
  }

  lemma QuietNow(node: FullNode, s: System)
    requires Inv(node, s) && s.memory.Some? && s.Next() + 1 < s.begun
    ensures s.Next() < |node.blocks| && !node.blocks[s.Next()].RequiresScanning()
  {
    hide Ideal, CellsFrom, RowsOk, AssetsOk, SameCore, AdviceKeys, NextHeight;
  }

  lemma WriteInv(node: FullNode, s: System, s': System)
    requires ChainOk(node) && Inv(node, s) && WriteAhead(s, s')
    ensures Inv(node, s')
  {
    hide Ideal, IdealPlan, CellsFrom, RowsOk, AssetsOk, AssetsReady, BlockOk, AdviceKeys, ChainOk, PlanBlock,
      RecordAssets, Apply, NextHeight;
    var n, w := s.Next(), s.memory.value.work.value;
    var x := w.writes[0];
    assert x in w.writes;
    ApplyFrame(s.db, x);
    CellsWrite(node, s.db, x, n, s.begun);
    CellsWiden(node, s'.db.epochs, n, s.begun, s.db.syncHeight + 1, s.begun);
    WriteKeeps(node, s.db, x, n, s.begun);
    NextSame(s, s');
  }

  /** The height of a process depends only on its database height and its uncommitted height. */
  lemma NextSame(s: System, s': System)
    requires s.memory.Some? && s'.memory.Some?
    requires s.db.syncHeight == s'.db.syncHeight && s.memory.value.uncommitted == s'.memory.value.uncommitted
    ensures s.Next() == s'.Next()
  {
  }

  lemma WriteKeeps(node: FullNode, db: Database, x: Write, n: nat, begun: nat)
    requires ChainOk(node) && DatabaseOk(node, db, begun)
    requires db.syncHeight + 1 <= n < begun && x in IdealPlan(node, n).writes
    ensures var p := Ideal(node, db.syncHeight + 1);
            && SameCore(Apply(db, x), p.db) && RowsOk(Apply(db, x)) && AssetsOk(Apply(db, x), node.metadata)
            && p.db.notes.Keys <= Apply(db, x).notes.Keys
                             <= p.db.notes.Keys
                               + (if db.syncHeight + 1 < begun then AdviceKeys(node, begun - 1) else {})
  {
    hide Ideal, IdealPlan, CellsFrom, ChainOk, BlockOk, AdviceKeys;
    ApplyFrame(db, x);
    PlannedWrite(node, n, x);
    AdviceNotInBlock(node, n);
    AssetsApplied(db, x, node.metadata);
  }

  lemma AssetsApplied(db: Database, x: Write, metadata: map<AssetId, Denom>)
    requires RowsOk(db) && AssetsOk(db, metadata)
    ensures AssetsOk(Apply(db, x), metadata)
  {
  }

  lemma AssetInv(node: FullNode, s: System, s': System, asset: AssetId)
    requires ChainOk(node) && Inv(node, s) && WriteAsset(node, s, s', asset)
    ensures Inv(node, s')
  {
    hide Ideal, IdealPlan, CellsFrom, RowsOk, AssetsReady, BlockOk, AdviceKeys, ChainOk, PlanBlock, NextHeight,
      AddAssets;
    var w := s.memory.value.work.value;
    AssetLater(s.db.assets, w.assets, asset, node.metadata);
    RowsFrame(s.db, s'.db);
    NextSame(s, s');
  }

  lemma AssetLater(known: map<AssetId, Denom>, todo: set<AssetId>, asset: AssetId, metadata: map<AssetId, Denom>)
    requires asset in todo && asset in metadata
    ensures AddAssets(known[asset := metadata[asset]], todo - {asset}, metadata) == AddAssets(known, todo, metadata)
  {
  }

  lemma RowsFrame(db: Database, u: Database)
    requires RowsOk(db) && u == db.(assets := u.assets)
    ensures RowsOk(u)
  {
  }

  /** With nothing left to write, the database is what the block's transaction starts from. */
  lemma ReadyNow(db: Database, metadata: map<AssetId, Denom>)
    ensures RecordAssets(ApplyAll(db, []), {}, metadata) == db
  {
    assert AddAssets(db.assets, {}, metadata) == db.assets;
  }

  lemma FinishEmptyInv(node: FullNode, s: System, s': System)
    requires ChainOk(node) && Inv(node, s) && Finish(node, s, s') && !node.blocks[s.Next()].RequiresScanning()
    ensures Inv(node, s') && s'.Next() == s.Next() + 1
  {
    hide Ideal, IdealPlan, CellsFrom, RowsOk, AssetsOk, AssetsReady, BlockOk, AdviceKeys, ChainOk, PlanBlock,
      RecordAssets, ApplyAll;
    var n := s.Next();
    RootIsBlockRoot(node, n);
    IdealEmpty(node, n);
    ReadyNow(s.db, node.metadata);
  }

  /** A scanned block's transaction closes every gap to the uninterrupted run. */
  lemma FinishScannedInv(node: FullNode, s: System, s': System)
    requires ChainOk(node) && Inv(node, s) && Finish(node, s, s') && node.blocks[s.Next()].RequiresScanning()
    ensures Inv(node, s') && s'.Next() == s.Next() + 1
  {
    hide Ideal, IdealPlan, CellsFrom, RowsOk, AssetsOk, AssetsReady, BlockOk, AdviceKeys, ChainOk, PlanBlock,
      RecordAssets, ApplyAll, CommitBlock, SameCore;
    var n := s.Next();
    RootIsBlockRoot(node, n);
    ReadyNow(s.db, node.metadata);
    NearNow(node, s);
    assert s.begun == n + 1;
    CommitNow(node, s.db, n);
  }

  /** The commit of a database that agrees with the uninterrupted run and has all the block's advice. */
  lemma CommitNow(node: FullNode, db: Database, n: nat)
    requires ChainOk(node) && n < |node.blocks| && node.blocks[n].RequiresScanning()
    requires NearAt(node, db, n, n + 1) && RowsOk(db)
    requires AdviceKeys(node, n) <= db.notes.Keys
    requires AssetsReady(db, IdealPlan(node, n).fb.newNotes, node.metadata)
    ensures var w := IdealPlan(node, n);
            var (after, tree) := CommitBlock(db, w.fb, w.txs, w.tree);
            var p := Ideal(node, n + 1);
            && SameCore(after, p.db) && tree == p.tree && after.syncHeight == n
            && p.uncommitted == None && p.db.sct == p.tree
            && RowsOk(after) && AssetsOk(after, node.metadata)
            && after.notes.Keys == p.db.notes.Keys
            && after.epochs == db.epochs
  {
    hide Ideal, CellsFrom, RowsOk, AssetsOk, AssetsReady, BlockOk, ChainOk, RecordAssets, ApplyAll, CommitBlock,
      PlanBlock;
    var p, w := Ideal(node, n), IdealPlan(node, n);
    var u := RecordAssets(ApplyAll(p.db, w.writes), w.assets, node.metadata);
    IdealOk(node, n);
    IdealScanned(node, n);
    PlanOk(p.db, p.tree, node.blocks[n], Transactions(node, n), node.metadata);
    PlanAssets(node, n);
    ReadyAssets(p.db, w.fb, w.writes, node.metadata);
    FinishRowsOk(p, node.blocks[n], w, node.metadata);
    ReadyFrame(p.db, w.writes, w.assets, node.metadata);
    AppliedNotes(p.db, w.writes);
    SameCoreTrans(db, p.db, u);
    CommitSame(db, u, w.fb, w.txs, w.tree, node.metadata);
    CommitRowsOk(db, w.fb, w.txs, w.tree);
    CommitAssetsOk(db, w.fb, w.txs, w.tree, node.metadata);
    CommitEager(db, w.fb, w.txs, w.tree);
    CommitEager(u, w.fb, w.txs, w.tree);
  }

  lemma PlanAssets(node: FullNode, n: nat)
    requires n < |node.blocks| && node.blocks[n].RequiresScanning()
    ensures IdealPlan(node, n).assets == NewAssets(Ideal(node, n).db, IdealPlan(node, n).fb, node.metadata)
  {
    hide Ideal, ScanBlockSpec, FetchSpec;
  }

  lemma ReadyFrame(db: Database, ws: seq<Write>, assets: set<AssetId>, metadata: map<AssetId, Denom>)
    ensures SameCore(db, RecordAssets(ApplyAll(db, ws), assets, metadata))
    ensures RecordAssets(ApplyAll(db, ws), assets, metadata).notes == ApplyAll(db, ws).notes
    ensures RecordAssets(ApplyAll(db, ws), assets, metadata).epochs == ApplyAll(db, ws).epochs
  {
    ApplyAllFrame(db, ws);
    hide ApplyAll, AddAssets;
  }

  lemma SameCoreTrans(db: Database, u: Database, v: Database)
    requires SameCore(db, u) && SameCore(u, v)
    ensures SameCore(db, v)
  {
  }

  lemma StepInv(node: FullNode, s: System, s': System)
    requires ChainOk(node) && Inv(node, s) && Step(node, s, s')
    ensures Inv(node, s')
  {
    hide Inv, Restart, Begin, WriteAhead, WriteAsset, Finish, ChainOk;
    if Restart(s, s') {
      RestartInv(node, s, s');
    } else if Crash(s, s') {
      CrashInv(node, s, s');
    } else if Begin(node, s, s') {
      BeginInv(node, s, s');
    } else if WriteAhead(s, s') {
      WriteInv(node, s, s');
    } else if asset :| WriteAsset(node, s, s', asset) {
      AssetInv(node, s, s', asset);
    } else {
      FinishInv(node, s, s');
    }
  }

  lemma CrashInv(node: FullNode, s: System, s': System)
    requires Inv(node, s) && Crash(s, s')
    ensures Inv(node, s')
  {
    hide DatabaseOk, ProcessOk, WorkOk;
  }

  lemma FinishInv(node: FullNode, s: System, s': System)
    requires ChainOk(node) && Inv(node, s) && Finish(node, s, s')
    ensures Inv(node, s') && s'.Next() == s.Next() + 1
  {
    hide Inv, FinishBlock, ChainOk;
    if node.blocks[s.Next()].RequiresScanning() {
      FinishScannedInv(node, s, s');
    } else {
      FinishEmptyInv(node, s, s');
    }
  }

  /** In every state of every run. */
  lemma {:induction false} RunInv(node: FullNode, run: seq<System>, i: nat)
    requires ChainOk(node) && Run(node, run) && i < |run|
    ensures Inv(node, run[i])
  {
    hide Inv, Step, ChainOk;
    if i == 0 {
      StartInv(node);
    } else {
      RunInv(node, run, i - 1);
      assert Step(node, run[i - 1], run[i - 1 + 1]);
      StepInv(node, run[i - 1], run[i]);
    }
  }

  // ---------- Main results ----------

  lemma {:induction false} IdealRowsFull(node: FullNode, n: nat)
    requires ChainOk(node) && n <= |node.blocks|
    ensures RowsFull(Ideal(node, n).db.epochs)
  {
    hide Ideal, BlockOk, ChainOk, ApplyAll, CommitBlock, PlanBlock, RecordAssets;
    if n == 0 {
      FreshOk(node);
    } else {
      var p, w := Ideal(node, n - 1), IdealPlan(node, n - 1);
      IdealRowsFull(node, n - 1);
      WrittenRows(p.db, w.writes);
      ReadyFrame(p.db, w.writes, w.assets, node.metadata);
      hide RowsFull;
      if node.blocks[n - 1].RequiresScanning() {
        IdealScanned(node, n - 1);
        CommitEager(RecordAssets(ApplyAll(p.db, w.writes), w.assets, node.metadata), w.fb, w.txs, w.tree);
      } else {
        IdealEmpty(node, n - 1);
      }
    }
  }

  lemma SameRows(epochs: map<nat, EpochRow>, u: map<nat, EpochRow>)
    requires forall e :: RootCell(epochs, e) == RootCell(u, e) && StartCell(epochs, e) == StartCell(u, e)
    requires RowsFull(epochs) && RowsFull(u)
    ensures epochs == u
  {
    forall e ensures e in epochs <==> e in u {
      assert RootCell(epochs, e) == RootCell(u, e) && StartCell(epochs, e) == StartCell(u, e);
    }
    forall e | e in epochs ensures epochs[e] == u[e] {
      assert RootCell(epochs, e) == RootCell(u, e) && StartCell(epochs, e) == StartCell(u, e);
    }
  }

  /** Whatever crashes and restarts came before, a process between blocks has the uninterrupted run's tree, heights,
      note and swap rows, transactions and saved tree. Once it is past every block that was ever started, its
      epoch rows and known notes are the uninterrupted run's too. */
  lemma CrashRecovery(node: FullNode, run: seq<System>, i: nat)
    requires ChainOk(node) && Run(node, run) && i < |run| && run[i].Idle()
    ensures run[i].begun <= |node.blocks| && run[i].Next() <= run[i].begun
    ensures var s, p := run[i], Ideal(node, run[i].Next());
            && s.memory.value == Memory(p.tree, p.uncommitted, None)
            && SameCore(s.db, p.db) && AssetsOk(s.db, node.metadata)
            && LastHeight(s.Process()) == LastHeight(p)
            && (s.Next() == s.begun ==> s.db == p.db.(assets := s.db.assets))
  {
    RunInv(node, run, i);
    hide Inv, Run, Ideal, ChainOk, SameCore, AssetsOk;
    IdleAgrees(node, run[i]);
  }

  lemma IdleAgrees(node: FullNode, s: System)
    requires ChainOk(node) && Inv(node, s) && s.Idle()
    ensures s.begun <= |node.blocks| && s.Next() <= s.begun
    ensures var p := Ideal(node, s.Next());
            && s.memory.value == Memory(p.tree, p.uncommitted, None)
            && SameCore(s.db, p.db) && AssetsOk(s.db, node.metadata)
            && LastHeight(s.Process()) == LastHeight(p)
            && (s.Next() == s.begun ==> s.db == p.db.(assets := s.db.assets))
  {
    hide Ideal, BlockOk, ChainOk, RowsOk, AssetsOk, IdealPlan, CellsFrom, AdviceKeys, NextHeight;
    NearNow(node, s);
    if s.Next() == s.begun {
      CaughtUp(node, s.db, s.begun);
    }
  }

  /** With nothing written ahead, notes and epoch rows are the uninterrupted run's. */
  lemma CaughtUp(node: FullNode, db: Database, n: nat)
    requires ChainOk(node) && n <= |node.blocks|
    requires NearAt(node, db, n, n) && RowsOk(db) && CellsFrom(node, db.epochs, n, n)
    ensures db == Ideal(node, n).db.(assets := db.assets)
  {
    var u := Ideal(node, n).db;
    IdealOk(node, n);
    IdealRowsFull(node, n);
    IdealEpochs(node, n);
    hide Ideal, ChainOk, EpochsAt, RootCell, StartCell, AssetsOk, RowsFull;
    NotesByKeys(db, u);
    forall e
      ensures RootCell(db.epochs, e) == RootCell(u.epochs, e) && StartCell(db.epochs, e) == StartCell(u.epochs, e)
    {
      assert CellFrom(node, db.epochs, e, n, n);
    }
    SameRows(db.epochs, u.epochs);
  }

  lemma IdealEpochs(node: FullNode, n: nat)
    requires n <= |node.blocks|
    ensures EpochsAt(node, n) == Ideal(node, n).db.epochs
  {
  }

  lemma NotesByKeys(db: Database, u: Database)
    requires RowsOk(db) && RowsOk(u) && db.notes.Keys == u.notes.Keys
    ensures db.notes == u.notes
  {
    forall c | c in db.notes ensures db.notes[c] == u.notes[c] {
      assert OfNote(db.notes[c]) == c == OfNote(u.notes[c]);
    }
  }

  /** Between blocks, whatever the crashes, the sparse tree stands for the full tree of the blocks processed: it has its
      root, which is the chain's hash, and the chain says where every block's root is in it and where the next
      commitment goes. */
  lemma RunTree(node: FullNode, run: seq<System>, i: nat)
    requires ChainOk(node) && Run(node, run) && i < |run| && run[i].Idle()
    ensures run[i].Next() <= |node.blocks|
    ensures var tree, full := run[i].memory.value.tree, FullTree(node, run[i].Next());
            && Root(tree) == Root(full) && ChainHashed(node.blocks, run[i].Next(), Root(tree))
            && NextPosition(tree.epochs) == PlaceOf(node.blocks, run[i].Next(), 0)
            && LaidOut(node.blocks, run[i].Next(), Erase(tree.epochs))
  {
    CrashRecovery(node, run, i);
    SparseRefinesFull(node, run[i].Next());
    FullLayout(node, run[i].Next());
    LayoutRoot(node.blocks, run[i].Next(), run[i].memory.value.tree);
    hide ChainOk, Run, Ideal, FullTree, LaidOut, Erase, SameCore, AssetsOk;
  }

  /** A block that was started is never refused. */
  lemma NeverRefused(node: FullNode, s: System)
    requires ChainOk(node) && Inv(node, s) && s.Busy()
    ensures s.Next() < |node.blocks| && Accepts(s.Process(), node.blocks[s.Next()])
  {
    hide Ideal, BlockOk, PlanBlock, CellsFrom;
    RootIsBlockRoot(node, s.Next());
  }

  /** Between blocks the reported height is one less than the number of sealed blocks in the tree, and an
      uncommitted height is past the database's. */
  lemma ReportedHeight(node: FullNode, run: seq<System>, i: nat)
    requires ChainOk(node) && Run(node, run) && i < |run| && run[i].Idle()
    ensures var s := run[i];
            && (LastHeight(s.Process()).None? <==> CountBlocks(s.memory.value.tree.epochs) == 0)
            && (LastHeight(s.Process()).Some? ==>
                LastHeight(s.Process()).value == CountBlocks(s.memory.value.tree.epochs) - 1)
            && (s.memory.value.uncommitted.Some? ==> s.memory.value.uncommitted.value > s.db.syncHeight)
  {
    RunInv(node, run, i);
    hide Inv, Run, ChainOk;
    IdleHeight(node, run[i]);
  }

  lemma IdleHeight(node: FullNode, s: System)
    requires ChainOk(node) && Inv(node, s) && s.Idle()
    ensures CountBlocks(s.memory.value.tree.epochs) == s.Next()
    ensures s.memory.value.uncommitted.Some? ==> s.memory.value.uncommitted.value > s.db.syncHeight
  {
    hide Ideal, IdealPlan, BlockOk, ChainOk, CellsFrom, RowsOk, AssetsOk, SameCore, CountBlocks, HasOpenBlock,
      SameShape, Root, NextPosition, FullTree, AdviceKeys, WorkOk;
    SparseRefinesFull(node, s.Next());
  }

  /** Within a process the reported height moves only forward, by one at the end of each block. */
  lemma HeightSteps(node: FullNode, s: System, s': System)
    requires ChainOk(node) && Inv(node, s) && Step(node, s, s') && s.memory.Some? && s'.memory.Some?
    ensures s'.Next() == if Finish(node, s, s') then s.Next() + 1 else s.Next()
  {
    hide Inv, ChainOk, PlanBlock, FinishBlock, NextHeight;
    if Finish(node, s, s') {
      FinishInv(node, s, s');
    } else {
      assert s.db.syncHeight == s'.db.syncHeight by {
        if WriteAhead(s, s') { ApplyFrame(s.db, s.memory.value.work.value.writes[0]); }
      }
      NextSame(s, s');
    }
  }

  // ---------- The steps of a block make up the worker's method ----------

  /** What the block in progress will leave if nothing interrupts it. */
  function Outcome(node: FullNode, s: System): SyncWorker.Process
    requires s.Busy() && s.Next() < |node.blocks|
  {
    var w := s.memory.value.work.value;
    var ready := RecordAssets(ApplyAll(s.db, w.writes), w.assets, node.metadata);
    FinishBlock(s.Process().(db := ready), node.blocks[s.Next()], w)
  }

  /** Uninterrupted, the steps of a block do what the worker's block method does. */
  lemma StepsMakeBlock(node: FullNode, s: System, s': System)
    requires Step(node, s, s')
    ensures s.Idle() && s'.Busy() ==>
              && s.Next() == s'.Next() < |node.blocks|
              && Outcome(node, s')
                 == ProcessBlock(s.Process(), node.blocks[s.Next()], Transactions(node, s.Next()), node.metadata)
    ensures s.Busy() && s'.Busy() ==>
              && s.Next() == s'.Next()
              && (s.Next() < |node.blocks| ==> Outcome(node, s') == Outcome(node, s))
    ensures s.Busy() && s'.Idle() ==> s.Next() < |node.blocks| && s'.Process() == Outcome(node, s)
  {
    hide PlanBlock, NextHeight, AddAssets, FinishBlock;
    if s.Busy() && s'.Busy() {
      BusySteps(node, s, s');
    } else if s.Busy() && s'.Idle() {
      ReadyNow(s.db, node.metadata);
    } else if s.Idle() && s'.Busy() {
      NextSame(s, s');
    }
  }

  lemma BusySteps(node: FullNode, s: System, s': System)
    requires s.Busy() && s'.Busy() && (WriteAhead(s, s') || exists asset :: WriteAsset(node, s, s', asset))
    ensures s.Next() == s'.Next() && (s.Next() < |node.blocks| ==> Outcome(node, s') == Outcome(node, s))
  {
    hide PlanBlock, NextHeight, AddAssets, RecordNotes, MarkSpent, RecordTxs, CommitBlock;
    var w, w' := s.memory.value.work.value, s'.memory.value.work.value;
    if WriteAhead(s, s') {
      ApplyFrame(s.db, w.writes[0]);
      NextSame(s, s');
    } else {
      var asset :| WriteAsset(node, s, s', asset);
      NextSame(s, s');
      AssetLater(s.db.assets, w.assets, asset, node.metadata);
      assert RecordAssets(ApplyAll(s'.db, w'.writes), w'.assets, node.metadata)
          == RecordAssets(ApplyAll(s.db, w.writes), w.assets, node.metadata);
    }
  }
}
