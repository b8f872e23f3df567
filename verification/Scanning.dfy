/** Scanning one compact block: which commitments are ours, and what that does to the commitment tree. */
module Scanning {
  import opened Prelude
  import opened Chain
  import opened Tct
  import opened ViewDatabase
  import opened ViewStorage

  // ---------- What we recognize ----------

  function DecryptedNotes(ps: seq<Payload>): set<Note> {
    set p | p in ps && p.NotePayload? && p.decryptedNote.Some? :: p.decryptedNote.value
  }

  function DecryptedSwaps(ps: seq<Payload>): set<Swap> {
    set p | p in ps && p.SwapPayload? && p.decryptedSwap.Some? :: p.decryptedSwap.value
  }

  function RolledUpCommitments(ps: seq<Payload>): set<Commitment> {
    set p | p in ps && p.RolledUp? :: p.commitment
  }

  /** Our notes in a block: those we decrypt, and rolled-up ones we had been told about. */
  function NoteAdvice(db: Database, ps: seq<Payload>): map<Commitment, Note> {
    ScanAdvice(db, RolledUpCommitments(ps)) + (map n | n in DecryptedNotes(ps) :: OfNote(n) := n)
  }

  function SwapAdvice(ps: seq<Payload>): map<Commitment, Swap> {
    map s | s in DecryptedSwaps(ps) :: OfSwap(s) := s
  }

  /** The notes a swap pays out, known as soon as the batch's output is. */
  function OutputNotes(swap: Swap, data: OutputData): (Note, Note) {
    (Note(swap.pair.asset1, data.amount1, swap.claimAddress, Derived(swap, 1)),
     Note(swap.pair.asset2, data.amount2, swap.claimAddress, Derived(swap, 2)))
  }

  // ---------- Scanning payloads in order ----------

  datatype Scan = Scan(
    tree: Tree, newNotes: map<Commitment, NoteRecord>, newSwaps: map<Commitment, SwapRecord>, advice: seq<Note>)

  function ScanPayload(s: Scan, p: Payload, notes: map<Commitment, Note>, swaps: map<Commitment, Swap>,
                       b: CompactBlock): Scan
  {
    var c := p.commitment;
    var position := NextPosition(s.tree.epochs);
    if c in notes then
      s.(tree := Insert(s.tree, true, c),
         newNotes := s.newNotes[c := NoteRecord(notes[c], b.height, Nullifier(position, c), position, p.source)])
    else if c in swaps then
      var kept := s.(tree := Insert(s.tree, true, c));
      var swap := swaps[c];
      if swap.pair !in b.swapOutputs then
        kept
      else
        var data := b.swapOutputs[swap.pair];
        var (output1, output2) := OutputNotes(swap, data);
        kept.(advice := s.advice + [output1, output2],
              newSwaps := s.newSwaps[c := SwapRecord(swap, position, Nullifier(position, c), p.source, data)])
    else
      s.(tree := Insert(s.tree, false, c))
  }

  function ScanPayloads(tree: Tree, ps: seq<Payload>, notes: map<Commitment, Note>, swaps: map<Commitment, Swap>,
                        b: CompactBlock): Scan
  {
    if ps == [] then Scan(tree, map[], map[], [])
    else ScanPayload(ScanPayloads(tree, ps[..|ps| - 1], notes, swaps, b), ps[|ps| - 1], notes, swaps, b)
  }

  /** The whole block, up to its last seal. Blocks with nothing of ours go in as a bare root. */
  function ScanBlockSpec(db: Database, tree: Tree, b: CompactBlock): Scan {
    var notes, swaps := NoteAdvice(db, b.payloads), SwapAdvice(b.payloads);
    var s :=
      if notes == map[] && swaps == map[] then
        Scan(InsertBlock(tree, b.blockRoot), map[], map[], [])
      else
        var scanned := ScanPayloads(tree, b.payloads, notes, swaps, b);
        scanned.(tree := EndBlock(scanned.tree));
    if b.epochRoot.Some? then s.(tree := EndEpoch(s.tree)) else s
  }

  function AddAdvice(db: Database, advice: seq<Note>): Database {
    if advice == [] then db else UpsertNote(AddAdvice(db, advice[..|advice| - 1]), advice[|advice| - 1])
  }

  function FilterBlock(db: Database, s: Scan, b: CompactBlock): FilteredBlock {
    FilteredBlock(s.newNotes, s.newSwaps, FilterNullifiers(db, b.nullifiers), b.height, b.fmdParameters, b.gasPrices)
  }

  lemma {:induction false} AddAdviceFrame(db: Database, advice: seq<Note>)
    ensures AddAdvice(db, advice) == db.(notes := AddAdvice(db, advice).notes)
    ensures AddAdvice(db, advice).notes.Keys == db.notes.Keys + (set n | n in advice :: OfNote(n))
    ensures RowsOk(db) ==> RowsOk(AddAdvice(db, advice))
    decreases |advice|
  {
    if advice != [] {
      AddAdviceFrame(db, advice[..|advice| - 1]);
      assert advice == advice[..|advice| - 1] + [advice[|advice| - 1]];
    }
  }

  /** Which nullifiers are known does not depend on the notes table. */
  lemma {:induction false} FilterFrame(db: Database, u: Database, nfs: seq<Nullifier>)
    requires db.spendable == u.spendable && db.swaps == u.swaps && db.txByNullifier == u.txByNullifier
    ensures FilterNullifiers(db, nfs) == FilterNullifiers(u, nfs)
    decreases |nfs|
  {
    if nfs != [] {
      FilterFrame(db, u, nfs[..|nfs| - 1]);
      assert KnownNullifier(db, nfs[|nfs| - 1]) == KnownNullifier(u, nfs[|nfs| - 1]);
    }
  }

  /** The advice found for a block is keyed by commitment, so a payload is never both a note and a swap of ours. */
  lemma AdviceKeyed(db: Database, ps: seq<Payload>)
    requires RowsOk(db)
    ensures forall c <- NoteAdvice(db, ps) :: c == OfNote(NoteAdvice(db, ps)[c])
    ensures forall c <- SwapAdvice(ps) :: c == OfSwap(SwapAdvice(ps)[c])
  {
  }

  /** One payload of a block: insert it, and record it if it is ours. */
  method ScanNext(storage: Storage, ghost db0: Database, s: Scan, payload: Payload, notes: map<Commitment, Note>,
                  swaps: map<Commitment, Swap>, b: CompactBlock)
    returns (s': Scan)
    requires storage.db == AddAdvice(db0, s.advice)
    requires forall c <- notes :: c.OfNote?
    requires forall c <- swaps :: c.OfSwap?
    modifies storage`db
    ensures s' == ScanPayload(s, payload, notes, swaps, b)
    ensures storage.db == AddAdvice(db0, s'.advice)
  {
    var c := payload.commitment;
    var position := NextPosition(s.tree.epochs);
    if c in notes && c in swaps {
      assert false;  // swap and note commitments are distinct
    } else if c in notes {
      var record := NoteRecord(notes[c], b.height, Nullifier(position, c), position, payload.source);
      s' := s.(tree := Insert(s.tree, true, c), newNotes := s.newNotes[c := record]);
    } else if c in swaps {
      s' := s.(tree := Insert(s.tree, true, c));
      var swap := swaps[c];
      if swap.pair in b.swapOutputs {
        var data := b.swapOutputs[swap.pair];
        var (output1, output2) := OutputNotes(swap, data);
        storage.GiveAdvice(output1);
        storage.GiveAdvice(output2);
        GiveTwo(db0, s.advice, output1, output2);
        var record := SwapRecord(swap, position, Nullifier(position, c), payload.source, data);
        s' := s'.(advice := s.advice + [output1, output2], newSwaps := s.newSwaps[c := record]);
      }
    } else {
      s' := s.(tree := Insert(s.tree, false, c));
    }
  }

  /** Scan a block into the shared tree, giving advice as swaps are found. */
  method ScanBlock(storage: Storage, tree: Tree, b: CompactBlock) returns (fb: FilteredBlock, sct: Tree)
    requires RowsOk(storage.db)
    modifies storage`db
    ensures sct == ScanBlockSpec(old(storage.db), tree, b).tree
    ensures fb == FilterBlock(old(storage.db), ScanBlockSpec(old(storage.db), tree, b), b)
    ensures storage.db == AddAdvice(old(storage.db), ScanBlockSpec(old(storage.db), tree, b).advice)
  {
    hide RowsOk, ScanPayload, AddAdvice, FilterNullifiers, InsertBlock, EndBlock, EndEpoch, NoteAdvice, SwapAdvice,
      UpsertNote;
    ghost var db0 := storage.db;
    NoAdvice(db0);
    var noteAdvice := NoteAdvice(storage.db, b.payloads);
    var swapAdvice := SwapAdvice(b.payloads);
    AdviceKeyed(storage.db, b.payloads);
    var s := Scan(tree, map[], map[], []);

    if noteAdvice == map[] && swapAdvice == map[] {
      s := s.(tree := InsertBlock(s.tree, b.blockRoot));
    } else {
      for i := 0 to |b.payloads|
        invariant s == ScanPayloads(tree, b.payloads[..i], noteAdvice, swapAdvice, b)
        invariant storage.db == AddAdvice(db0, s.advice)
      {
        assert b.payloads[..i + 1][..i] == b.payloads[..i];
        s := ScanNext(storage, db0, s, b.payloads[i], noteAdvice, swapAdvice, b);
      }
      assert b.payloads[..|b.payloads|] == b.payloads;
      s := s.(tree := EndBlock(s.tree));
    }
    sct := s.tree;
    if b.epochRoot.Some? {
      sct := EndEpoch(sct);
    }
    AddAdviceFrame(db0, s.advice);
    FilterFrame(db0, storage.db, b.nullifiers);
    fb := FilterBlock(storage.db, s, b);
  }

  lemma NoAdvice(db: Database)
    ensures AddAdvice(db, []) == db
  {
  }

  lemma GiveTwo(db: Database, advice: seq<Note>, n1: Note, n2: Note)
    ensures UpsertNote(UpsertNote(AddAdvice(db, advice), n1), n2) == AddAdvice(db, advice + [n1, n2])
  {
    var more := advice + [n1, n2];
    assert more[..|more| - 1] == advice + [n1];
    assert (advice + [n1])[..|advice|] == advice;
  }

  // ---------- Fetching the transactions behind a block ----------

  predicate HasTxSources(fb: FilteredBlock) {
    || (exists c <- fb.newNotes :: fb.newNotes[c].source.Transaction?)
    || (exists c <- fb.newSwaps :: fb.newSwaps[c].source.Transaction?)
  }

  predicate Mentions(fb: FilteredBlock, tx: Tx) {
    exists c <- tx.stateCommitments :: c in fb.newNotes || c in fb.newSwaps
  }

  /** The transaction spends a nullifier we know, or creates one of our new notes or swaps. */
  predicate Relevant(fb: FilteredBlock, tx: Tx) {
    (exists nf <- tx.spentNullifiers :: nf in fb.spentNullifiers) || Mentions(fb, tx)
  }

  function RelevantTxs(fb: FilteredBlock, txs: seq<Tx>): seq<Tx> {
    if txs == [] then []
    else
      var rest := RelevantTxs(fb, txs[..|txs| - 1]);
      var tx := txs[|txs| - 1];
      if Relevant(fb, tx) then rest + [tx] else rest
  }

  /** The last of these transactions that contains the commitment. */
  function LastTxWith(txs: seq<Tx>, c: Commitment): Option<TxId> {
    if txs == [] then None
    else if c in txs[|txs| - 1].stateCommitments then Some(txs[|txs| - 1].id)
    else LastTxWith(txs[..|txs| - 1], c)
  }

  function SourceFrom(txs: seq<Tx>, c: Commitment, source: Source): Source {
    var last := LastTxWith(txs, c);
    if last.Some? then Transaction(last) else source
  }

  /** Give every new note and swap the last transaction that contains it as its source. */
  function Rehydrate(fb: FilteredBlock, txs: seq<Tx>): FilteredBlock {
    fb.(newNotes := map c | c in fb.newNotes ::
                      fb.newNotes[c].(source := SourceFrom(txs, c, fb.newNotes[c].source)),
        newSwaps := map c | c in fb.newSwaps ::
                      fb.newSwaps[c].(source := SourceFrom(txs, c, fb.newSwaps[c].source)))
  }

  function FetchSpec(fb: FilteredBlock, txs: seq<Tx>): (FilteredBlock, seq<Tx>) {
    if fb.spentNullifiers == [] && !HasTxSources(fb) then (fb, [])
    else (Rehydrate(fb, txs), RelevantTxs(fb, txs))
  }

  /** Point one new note or swap at a transaction, if it is one of ours. */
  function Point(fb: FilteredBlock, c: Commitment, id: TxId): FilteredBlock {
    var notes := if c in fb.newNotes then fb.newNotes[c := fb.newNotes[c].(source := Transaction(Some(id)))]
                 else fb.newNotes;
    var swaps := if c in fb.newSwaps then fb.newSwaps[c := fb.newSwaps[c].(source := Transaction(Some(id)))]
                 else fb.newSwaps;
    fb.(newNotes := notes, newSwaps := swaps)
  }

  /** One transaction: is it relevant, and which records does it give a source to? */
  method RehydrateFrom(fb: FilteredBlock, tx: Tx) returns (fb': FilteredBlock, relevant: bool)
    ensures fb' == Rehydrate(fb, [tx])
    ensures relevant == Relevant(fb, tx)
  {
    fb' := fb;
    relevant := exists nf <- tx.spentNullifiers :: nf in fb.spentNullifiers;
    RehydrateNone(fb, tx);
    for j := 0 to |tx.stateCommitments|
      invariant fb' == Rehydrate(fb, [tx.(stateCommitments := tx.stateCommitments[..j])])
      invariant relevant == Relevant(fb, tx.(stateCommitments := tx.stateCommitments[..j]))
    {
      var c := tx.stateCommitments[j];
      RehydrateOne(fb, tx, j);
      assert tx.stateCommitments[..j + 1] == tx.stateCommitments[..j] + [c];
      relevant := relevant || c in fb'.newNotes || c in fb'.newSwaps;
      fb' := Point(fb', c, tx.id);
    }
    assert tx.stateCommitments[..|tx.stateCommitments|] == tx.stateCommitments;
  }

  /** A record's source: the last of the transactions that contains its commitment, or what it was if none does. */
  ghost predicate SourceGiven(txs: seq<Tx>, c: Commitment, before: Source, after: Source) {
    || (after == before && forall tx <- txs :: c !in tx.stateCommitments)
    || exists i :: 0 <= i < |txs| && c in txs[i].stateCommitments && after == Transaction(Some(txs[i].id))
                   && forall j :: i < j < |txs| ==> c !in txs[j].stateCommitments
  }

  /** The records are the same but for their sources, which are given from the transactions. */
  ghost predicate SourcesGiven(txs: seq<Tx>, fb: FilteredBlock, fb': FilteredBlock) {
    && fb'.newNotes.Keys == fb.newNotes.Keys && fb'.newSwaps.Keys == fb.newSwaps.Keys
    && fb' == fb.(newNotes := fb'.newNotes, newSwaps := fb'.newSwaps)
    && (forall c <- fb.newNotes ::
          && fb'.newNotes[c] == fb.newNotes[c].(source := fb'.newNotes[c].source)
          && SourceGiven(txs, c, fb.newNotes[c].source, fb'.newNotes[c].source))
    && (forall c <- fb.newSwaps ::
          && fb'.newSwaps[c] == fb.newSwaps[c].(source := fb'.newSwaps[c].source)
          && SourceGiven(txs, c, fb.newSwaps[c].source, fb'.newSwaps[c].source))
  }

  lemma SourceFromGiven(txs: seq<Tx>, c: Commitment, source: Source)
    ensures SourceGiven(txs, c, source, SourceFrom(txs, c, source))
  {
    LastTxWithIsLast(txs, c);
    hide LastTxWith;
  }

  lemma RehydrateGives(fb: FilteredBlock, txs: seq<Tx>)
    ensures SourcesGiven(txs, fb, Rehydrate(fb, txs))
  {
    hide SourceFrom, SourceGiven;
    forall c, source ensures SourceGiven(txs, c, source, SourceFrom(txs, c, source)) {
      SourceFromGiven(txs, c, source);
    }
  }

  /** Which of a block's transactions concern us, and where our new notes and swaps came from. */
  method FetchTransactions(fb: FilteredBlock, all: seq<Tx>) returns (fb': FilteredBlock, txs: seq<Tx>)
    ensures (fb', txs) == FetchSpec(fb, all)
    ensures if fb.spentNullifiers == [] && !HasTxSources(fb) then fb' == fb && txs == []
            else SourcesGiven(all, fb, fb')
  {
    hide SourcesGiven;
    RehydrateGives(fb, all);
    fb', txs := fb, [];
    if fb.spentNullifiers == [] && !HasTxSources(fb) {
      return;
    }
    RehydrateNothing(fb);
    for i := 0 to |all|
      invariant fb' == Rehydrate(fb, all[..i])
      invariant txs == RelevantTxs(fb, all[..i])
    {
      assert all[..i + 1] == all[..i] + [all[i]];
      RehydrateMore(fb, all[..i], all[i]);
      RelevantAfter(fb, all[..i], all[i]);
      var relevant;
      fb', relevant := RehydrateFrom(fb', all[i]);
      if relevant {
        txs := txs + [all[i]];
      }
    }
    assert all[..|all|] == all;
  }

  lemma RehydrateNothing(fb: FilteredBlock)
    ensures Rehydrate(fb, []) == fb
  {
    assert Rehydrate(fb, []).newNotes == fb.newNotes && Rehydrate(fb, []).newSwaps == fb.newSwaps;
  }

  lemma RehydrateNone(fb: FilteredBlock, tx: Tx)
    ensures Rehydrate(fb, [tx.(stateCommitments := tx.stateCommitments[..0])]) == fb
  {
    var empty := [tx.(stateCommitments := [])];
    assert tx.stateCommitments[..0] == [] && empty[..0] == [];
    var r := Rehydrate(fb, empty);
    assert forall c :: LastTxWith(empty, c) == None;
    assert r.newNotes == fb.newNotes && r.newSwaps == fb.newSwaps;
  }

  /** Rehydration keeps both key sets, so it does not change which transactions are relevant. */
  lemma RelevantAfter(fb: FilteredBlock, txs: seq<Tx>, tx: Tx)
    ensures Relevant(Rehydrate(fb, txs), tx) == Relevant(fb, tx)
    ensures Rehydrate(fb, txs).newNotes.Keys == fb.newNotes.Keys
    ensures Rehydrate(fb, txs).newSwaps.Keys == fb.newSwaps.Keys
  {
  }

  lemma RehydrateOne(fb: FilteredBlock, tx: Tx, j: nat)
    requires j < |tx.stateCommitments|
    ensures var before := [tx.(stateCommitments := tx.stateCommitments[..j])];
            var after := [tx.(stateCommitments := tx.stateCommitments[..j + 1])];
            Point(Rehydrate(fb, before), tx.stateCommitments[j], tx.id) == Rehydrate(fb, after)
  {
    var before := [tx.(stateCommitments := tx.stateCommitments[..j])];
    var after := [tx.(stateCommitments := tx.stateCommitments[..j + 1])];
    var c := tx.stateCommitments[j];
    assert tx.stateCommitments[..j + 1] == tx.stateCommitments[..j] + [c];
    forall d ensures LastTxWith(after, d) == if d == c then Some(tx.id) else LastTxWith(before, d) {
    }
  }

  lemma LastTxWithAppend(txs: seq<Tx>, tx: Tx, c: Commitment)
    ensures LastTxWith(txs + [tx], c) == if c in tx.stateCommitments then Some(tx.id) else LastTxWith(txs, c)
    ensures LastTxWith([tx], c) == if c in tx.stateCommitments then Some(tx.id) else None
  {
    assert (txs + [tx])[..|txs|] == txs && [tx][..0] == [];
  }

  lemma RehydrateMore(fb: FilteredBlock, txs: seq<Tx>, tx: Tx)
    ensures Rehydrate(Rehydrate(fb, txs), [tx]) == Rehydrate(fb, txs + [tx])
  {
    hide LastTxWith;
    forall c, source
      ensures SourceFrom([tx], c, SourceFrom(txs, c, source)) == SourceFrom(txs + [tx], c, source)
    {
      LastTxWithAppend(txs, tx, c);
    }
  }

  /** The transactions returned are the relevant ones, at increasing places of the block. */
  lemma {:induction false} RelevantInOrder(fb: FilteredBlock, txs: seq<Tx>) returns (places: seq<nat>)
    ensures |places| == |RelevantTxs(fb, txs)|
    ensures forall k :: 0 <= k < |places| ==> places[k] < |txs| && RelevantTxs(fb, txs)[k] == txs[places[k]]
    ensures forall k, l :: 0 <= k < l < |places| ==> places[k] < places[l]
    ensures forall i :: 0 <= i < |txs| ==> (i in places <==> Relevant(fb, txs[i]))
    decreases |txs|
  {
    if txs == [] {
      places := [];
    } else {
      var last := |txs| - 1;
      places := RelevantInOrder(fb, txs[..last]);
      if Relevant(fb, txs[last]) {
        places := places + [last];
      }
    }
  }

  /** A record's new source is the last transaction of the block that contains its commitment. */
  lemma {:induction false} LastTxWithIsLast(txs: seq<Tx>, c: Commitment)
    ensures LastTxWith(txs, c).None? <==> forall tx <- txs :: c !in tx.stateCommitments
    ensures LastTxWith(txs, c).Some? ==>
              exists i :: 0 <= i < |txs| && c in txs[i].stateCommitments && txs[i].id == LastTxWith(txs, c).value
                          && forall j :: i < j < |txs| ==> c !in txs[j].stateCommitments
    decreases |txs|
  {
    if txs != [] {
      var last := |txs| - 1;
      if c !in txs[last].stateCommitments {
        LastTxWithIsLast(txs[..last], c);
        assert txs == txs[..last] + [txs[last]];
      }
    }
  }

  lemma {:induction false} RelevantIff(fb: FilteredBlock, txs: seq<Tx>)
    ensures RelevantTxs(fb, txs) == [] <==> forall tx <- txs :: !Relevant(fb, tx)
    decreases |txs|
  {
    if txs != [] {
      RelevantIff(fb, txs[..|txs| - 1]);
      assert txs == txs[..|txs| - 1] + [txs[|txs| - 1]];
    }
  }

  /** Skipping the download agrees with the full scan exactly when no transaction makes one of our new records,
      which holds whenever payloads made by a transaction carry a transaction source. */
  lemma EarlyReturnExact(fb: FilteredBlock, txs: seq<Tx>)
    requires fb.spentNullifiers == [] && !HasTxSources(fb)
    ensures FetchSpec(fb, txs) == (Rehydrate(fb, txs), RelevantTxs(fb, txs)) <==> forall tx <- txs :: !Mentions(fb, tx)
  {
    RelevantIff(fb, txs);
    if forall tx <- txs :: !Mentions(fb, tx) {
      forall c | c in fb.newNotes || c in fb.newSwaps ensures LastTxWith(txs, c) == None {
        LastTxWithIsLast(txs, c);
      }
      assert Rehydrate(fb, txs).newNotes == fb.newNotes && Rehydrate(fb, txs).newSwaps == fb.newSwaps;
    } else {
      var tx :| tx in txs && Mentions(fb, tx);
      assert Relevant(fb, tx);
    }
  }
}
