/** The storage object shared by the sync worker and its readers. */
module ViewStorage {
  import opened Prelude
  import opened Chain
  import opened Tct
  import opened ViewDatabase

  /** One more upsert out of those still to do. */
  lemma UpsertOne<K, V>(base: map<K, V>, column: map<K, V>, todo: set<K>, k: K)
    requires todo <= column.Keys && k in todo
    ensures (base + (column - todo))[k := column[k]] == base + (column - (todo - {k}))
  {
  }

  lemma ColumnsAt(fb: FilteredBlock, c: Commitment)
    requires c in fb.newNotes
    ensures c in NoteColumn(fb.newNotes) && NoteColumn(fb.newNotes)[c] == fb.newNotes[c].note
    ensures c in RowColumn(fb.newNotes, fb.height)
            && RowColumn(fb.newNotes, fb.height)[c] == RowOf(fb.newNotes[c], fb.height)
  {
  }

  lemma KeyOf(fb: FilteredBlock, c: Commitment)
    requires FilteredOk(fb) && c in fb.newNotes
    ensures c == OfNote(fb.newNotes[c].note)
  {
  }

  lemma ColumnKeys(fb: FilteredBlock)
    ensures NoteColumn(fb.newNotes).Keys == RowColumn(fb.newNotes, fb.height).Keys == fb.newNotes.Keys
    ensures NoteColumn(fb.newNotes) - {} == NoteColumn(fb.newNotes)
    ensures RowColumn(fb.newNotes, fb.height) - {} == RowColumn(fb.newNotes, fb.height)
  {
  }

  /** A block's new notes, one upsert into each of the two note tables at a time. */
  method InsertNotes(db: Database, fb: FilteredBlock) returns (dbtx: Database)
    requires FilteredOk(fb)
    ensures dbtx == RecordNotes(db, fb.newNotes, fb.height)
  {
    hide NoteColumn, RowColumn, RowOf, FilteredOk;
    var notes, spendable := db.notes, db.spendable;
    ColumnKeys(fb);
    ghost var noteColumn, rowColumn := NoteColumn(fb.newNotes), RowColumn(fb.newNotes, fb.height);
    var todo := fb.newNotes.Keys;
    while todo != {}
      invariant todo <= fb.newNotes.Keys
      invariant notes == db.notes + (noteColumn - todo)
      invariant spendable == db.spendable + (rowColumn - todo)
      decreases |todo|
    {
      var c :| c in todo;
      var record := fb.newNotes[c];
      assert c == OfNote(record.note) by { KeyOf(fb, c); }
      ColumnsAt(fb, c);
      UpsertOne(db.notes, noteColumn, todo, c);
      UpsertOne(db.spendable, rowColumn, todo, c);
      notes := notes[OfNote(record.note) := record.note];
      spendable := spendable[c := RowOf(record, fb.height)];
      todo := todo - {c};
    }
    dbtx := db.(notes := notes, spendable := spendable);
  }

  lemma SwapColumnAt(records: map<Commitment, SwapRecord>)
    ensures SwapColumn(records).Keys == records.Keys && SwapColumn(records) - {} == SwapColumn(records)
    ensures forall c <- records :: SwapColumn(records)[c] == SwapRowOf(records[c])
  {
  }

  method InsertSwaps(db: Database, fb: FilteredBlock) returns (dbtx: Database)
    ensures dbtx == RecordSwaps(db, fb.newSwaps)
  {
    hide SwapColumn, SwapRowOf;
    SwapColumnAt(fb.newSwaps);
    var swaps := db.swaps;
    ghost var column := SwapColumn(fb.newSwaps);
    var todo := fb.newSwaps.Keys;
    while todo != {}
      invariant todo <= fb.newSwaps.Keys
      invariant swaps == db.swaps + (column - todo)
      decreases |todo|
    {
      var c :| c in todo;
      UpsertOne(db.swaps, column, todo, c);
      swaps := swaps[c := SwapRowOf(fb.newSwaps[c])];
      todo := todo - {c};
    }
    dbtx := db.(swaps := swaps);
  }

  /** The rows a statement selects by nullifier: at most one, since a row's nullifier names its commitment. */
  lemma OneRow(db: Database, nf: Nullifier)
    requires RowsOk(db)
    ensures (set c | c in db.spendable && db.spendable[c].nullifier == nf) <= {nf.commitment}
    ensures (set c | c in db.swaps && db.swaps[c].nullifier == nf) <= {nf.commitment}
  {
  }

  lemma SpendNone(db: Database, tree: Tree, height: nat)
    ensures MarkSpent(db, {}, height) == db
    ensures ForgetSet(tree, Forgotten(db, {})) == tree
  {
    ForgetNone(tree);
    assert Forgotten(db, {}) == {};
    assert SpendRows(db.spendable, {}, height) == db.spendable && ClaimRows(db.swaps, {}, height) == db.swaps;
  }

  /** Revealing one more nullifier, after some others. */
  lemma SpendOneMore(db: Database, done: set<Nullifier>, nf: Nullifier, height: nat)
    ensures SpendRows(SpendRows(db.spendable, done, height), {nf}, height)
            == SpendRows(db.spendable, done + {nf}, height)
    ensures ClaimRows(ClaimRows(db.swaps, done, height), {nf}, height) == ClaimRows(db.swaps, done + {nf}, height)
    ensures Forgotten(db, done + {nf}) == Forgotten(db, done) + Forgotten(db, {nf})
  {
  }

  /** Mark the rows of revealed nullifiers, and forget from the tree what can no longer be spent or voted with. */
  method SpendNullifiers(db: Database, tree: Tree, nfs: seq<Nullifier>, height: nat)
    returns (dbtx: Database, newSct: Tree)
    requires RowsOk(db)
    ensures dbtx == MarkSpent(db, ToSet(nfs), height)
    ensures newSct == ForgetSet(tree, Forgotten(db, ToSet(nfs)))
  {
    dbtx, newSct := db, tree;
    SpendNone(db, tree, height);
    assert ToSet(nfs[..0]) == {};
    for i := 0 to |nfs|
      invariant dbtx == MarkSpent(db, ToSet(nfs[..i]), height)
      invariant newSct == ForgetSet(tree, Forgotten(db, ToSet(nfs[..i])))
    {
      var nf := nfs[i];
      ghost var done := ToSet(nfs[..i]);
      assert ToSet(nfs[..i + 1]) == done + {nf};
      SpendOneMore(db, done, nf, height);
      MarkSpentSame(db, done, height, {nf});
      dbtx, newSct := SpendNullifier(dbtx, newSct, nf, height, tree, Forgotten(db, done));
    }
    assert nfs[..|nfs|] == nfs;
  }

  /** Marking rows spent keeps them well-formed and changes nothing about which are forgotten. */
  lemma MarkSpentSame(db: Database, done: set<Nullifier>, height: nat, nfs: set<Nullifier>)
    requires RowsOk(db)
    ensures RowsOk(MarkSpent(db, done, height))
    ensures Forgotten(MarkSpent(db, done, height), nfs) == Forgotten(db, nfs)
  {
    SpentRows(db.spendable, done, height);
    ClaimedRows(db.swaps, done, height);
    hide SpendRows, ClaimRows;
    var after := MarkSpent(db, done, height);
    assert forall c :: IsDelegation(after, c) == IsDelegation(db, c);
  }

  lemma SpentRows(rows: map<Commitment, SpendableRow>, nfs: set<Nullifier>, height: nat)
    ensures SpendRows(rows, nfs, height).Keys == rows.Keys
    ensures var after := SpendRows(rows, nfs, height);
            forall c <- rows :: after[c] == rows[c].(heightSpent := after[c].heightSpent)
  {
  }

  lemma ClaimedRows(rows: map<Commitment, SwapRow>, nfs: set<Nullifier>, height: nat)
    ensures ClaimRows(rows, nfs, height).Keys == rows.Keys
    ensures var after := ClaimRows(rows, nfs, height);
            forall c <- rows :: after[c] == rows[c].(heightClaimed := after[c].heightClaimed)
  {
  }

  /** One nullifier: the two updates, and what their returned rows let the tree forget. */
  method SpendNullifier(db: Database, sct: Tree, nf: Nullifier, height: nat, ghost tree: Tree,
                        ghost gone: set<Commitment>)
    returns (dbtx: Database, newSct: Tree)
    requires RowsOk(db) && sct == ForgetSet(tree, gone)
    ensures dbtx == MarkSpent(db, {nf}, height)
    ensures newSct == ForgetSet(tree, gone + Forgotten(db, {nf}))
  {
    hide RowsOk, ForgetSet, Forget, SpendRows, ClaimRows, IsDelegation;
    OneRow(db, nf);
    var spent := set c | c in db.spendable && db.spendable[c].nullifier == nf;
    var claimed := set c | c in db.swaps && db.swaps[c].nullifier == nf;
    newSct := sct;
    ghost var gone1 := gone;
    if spent != {} {
      var c :| c in spent;
      if !IsDelegation(db, c) {
        newSct := Forget(newSct, c);
        ForgetOneMore(tree, gone, c);
        gone1 := gone + {c};
      }
    }
    ghost var gone2 := gone1;
    if claimed != {} {
      var c :| c in claimed;
      newSct := Forget(newSct, c);
      ForgetOneMore(tree, gone1, c);
      gone2 := gone1 + {c};
    }
    assert gone1 == gone + (set c | c in spent && !IsDelegation(db, c));
    assert gone2 == gone1 + claimed;
    assert gone2 == gone + Forgotten(db, {nf}) by {
      assert Forgotten(db, {nf}) == (set c | c in spent && !IsDelegation(db, c)) + claimed;
    }
    dbtx := db.(spendable := SpendRows(db.spendable, {nf}, height), swaps := ClaimRows(db.swaps, {nf}, height));
  }

  method InsertTransactions(db: Database, txs: seq<Tx>, height: nat) returns (dbtx: Database)
    ensures dbtx == RecordTxs(db, txs, height)
  {
    hide RecordTxs, AddNullifiers;
    dbtx := db;
    NoTxs(db, height);
    for i := 0 to |txs|
      invariant dbtx == RecordTxs(db, txs[..i], height)
    {
      var tx := txs[i];
      NextTx(db, txs, i, height);
      var byNullifier := InsertNullifiers(dbtx.txByNullifier, tx.spentNullifiers, tx.id);
      dbtx := dbtx.(txs := map[tx.id := height] + dbtx.txs, txByNullifier := byNullifier);
    }
    assert txs[..|txs|] == txs;
  }

  lemma NoTxs(db: Database, height: nat)
    ensures RecordTxs(db, [], height) == db
  {
  }

  lemma NextTx(db: Database, txs: seq<Tx>, i: nat, height: nat)
    requires i < |txs|
    ensures RecordTxs(db, txs[..i + 1], height) == RecordTx(RecordTxs(db, txs[..i], height), txs[i], height)
  {
    hide RecordTx;
    assert txs[..i + 1][..i] == txs[..i];
  }

  method InsertNullifiers(m: map<Nullifier, TxId>, nfs: seq<Nullifier>, id: TxId) returns (m': map<Nullifier, TxId>)
    ensures m' == AddNullifiers(m, nfs, id)
  {
    hide AddNullifiers;
    m' := m;
    AddNoNullifier(m, id);
    for j := 0 to |nfs|
      invariant m' == AddNullifiers(m, nfs[..j], id)
    {
      AddOneNullifier(m, nfs[..j], nfs[j], id);
      assert nfs[..j + 1] == nfs[..j] + [nfs[j]];
      m' := map[nfs[j] := id] + m';
    }
    assert nfs[..|nfs|] == nfs;
  }

  lemma AddNoNullifier(m: map<Nullifier, TxId>, id: TxId)
    ensures AddNullifiers(m, [], id) == m
  {
  }

  lemma AddOneNullifier(m: map<Nullifier, TxId>, nfs: seq<Nullifier>, nf: Nullifier, id: TxId)
    ensures map[nf := id] + AddNullifiers(m, nfs, id) == AddNullifiers(m, nfs + [nf], id)
  {
  }

  /** What was sent on a broadcast channel after `before`: these keys, each once. */
  ghost predicate Broadcast<T>(before: seq<T>, after: seq<T>, keys: set<T>) {
    before <= after && ToSet(after[|before|..]) == keys && Distinct(after[|before|..])
  }

  lemma SentNothing<T>(channel: seq<T>)
    ensures Broadcast(channel, channel, {})
  {
  }

  lemma SentOneMore<T>(before: seq<T>, after: seq<T>, keys: set<T>, key: T)
    requires Broadcast(before, after, keys) && key !in keys
    ensures Broadcast(before, after + [key], keys + {key})
  {
    var sent := after[|before|..];
    assert (after + [key])[|before|..] == sent + [key];
    assert ToSet(sent + [key]) == ToSet(sent) + {key};
    assert forall i :: 0 <= i < |sent| ==> sent[i] in ToSet(sent);
  }

  method SendAll<T(==)>(channel: seq<T>, keys: set<T>) returns (channel': seq<T>)
    ensures Broadcast(channel, channel', keys)
  {
    hide Broadcast;
    channel' := channel;
    var todo := keys;
    SentNothing(channel);
    assert keys - todo == {};
    while todo != {}
      invariant todo <= keys
      invariant Broadcast(channel, channel', keys - todo)
      decreases |todo|
    {
      var key :| key in todo;
      SentOneMore(channel, channel', keys - todo, key);
      assert keys - todo + {key} == keys - (todo - {key});
      channel' := channel' + [key];
      todo := todo - {key};
    }
    assert keys - {} == keys;
  }

  class Storage {
    var db: Database

    /** Empty blocks processed beyond the database height. Never zero. */
    var uncommittedHeight: Option<nat>

    /** Everything sent so far on the three broadcast channels. */
    var scannedNotes: seq<Commitment>
    var scannedNullifiers: seq<Nullifier>
    var scannedSwaps: seq<Commitment>

    constructor (db: Database)
      ensures this.db == db && uncommittedHeight == None
      ensures scannedNotes == [] && scannedNullifiers == [] && scannedSwaps == []
    {
      this.db, uncommittedHeight := db, None;
      scannedNotes, scannedNullifiers, scannedSwaps := [], [], [];
    }

    function LastSyncHeight(): Option<nat>
      reads this
    {
      SyncHeight(db, uncommittedHeight)
    }

    method UpdateEpoch(epoch: nat, root: Option<Hash>, start: Option<nat>)
      modifies this`db
      ensures db == UpsertEpoch(old(db), epoch, root, start)
    {
      db := UpsertEpoch(db, epoch, root, start);
    }

    method GiveAdvice(note: Note)
      modifies this`db
      ensures db == UpsertNote(old(db), note)
    {
      db := UpsertNote(db, note);
    }

    method RecordAsset(asset: AssetId, denom: Denom)
      modifies this`db
      ensures db == UpsertAsset(old(db), asset, denom)
    {
      db := UpsertAsset(db, asset, denom);
    }

    /** An empty block only moves the uncommitted height. The database stays as it is, and genesis is refused. */
    method RecordEmptyBlock(height: nat) returns (r: Result<(), string>)
      modifies this`uncommittedHeight
      ensures r.Ok? <==> old(LastSyncHeight()).Some? && height == old(LastSyncHeight()).value + 1
      ensures uncommittedHeight == if r.Ok? then Some(height) else old(uncommittedHeight)
    {
      var last := LastSyncHeight();
      if last == None {
        return Err("invalid: tried to record empty block as genesis block");
      }
      if height != last.value + 1 {
        return Err("wrong block height");
      }
      uncommittedHeight := Some(height);
      return Ok(());
    }

    /** Commit a scanned block in one database transaction, then tell the waiting readers about it. */
    method RecordBlock(fb: FilteredBlock, txs: seq<Tx>, tree: Tree) returns (r: Result<Tree, string>)
      requires RowsOk(db) && FilteredOk(fb)
      modifies this
      ensures r.Ok? <==> Follows(old(LastSyncHeight()), fb.height)
      ensures r.Err? ==> unchanged(this)
      ensures r.Ok? ==>
                && (db, r.value) == CommitBlock(old(db), fb, txs, tree)
                && uncommittedHeight == None
                && Broadcast(old(scannedNotes), scannedNotes, fb.newNotes.Keys)
                && scannedNullifiers == old(scannedNullifiers) + fb.spentNullifiers
                && Broadcast(old(scannedSwaps), scannedSwaps, fb.newSwaps.Keys)
    {
      if !Follows(LastSyncHeight(), fb.height) {
        return Err("wrong block height");
      }
      var dbtx := InsertNotes(db, fb);
      dbtx := InsertSwaps(dbtx, fb);
      RecordedRowsOk(db, fb);
      var newSct;
      dbtx, newSct := SpendNullifiers(dbtx, tree, fb.spentNullifiers, fb.height);
      dbtx := dbtx.(sct := newSct);
      dbtx := InsertTransactions(dbtx, txs, fb.height);
      dbtx := RecordParameters(dbtx, fb);
      db := dbtx;

      uncommittedHeight := None;
      scannedNotes := SendAll(scannedNotes, fb.newNotes.Keys);
      scannedNullifiers := scannedNullifiers + fb.spentNullifiers;
      scannedSwaps := SendAll(scannedSwaps, fb.newSwaps.Keys);
      return Ok(newSct);
    }
  }

  /** The height reported to clients: the uncommitted one if there is one, else the database's. */
  function SyncHeight(db: Database, uncommitted: Option<nat>): Option<nat> {
    if uncommitted.Some? then uncommitted
    else if db.syncHeight < 0 then None
    else Some(db.syncHeight)
  }

  /** The block at this height comes next: after the last one scanned, or genesis on a fresh database. */
  predicate Follows(last: Option<nat>, height: nat) {
    match last
    case Some(h) => height == h + 1
    case None => height == 0
  }

  lemma RecordedRowsOk(db: Database, fb: FilteredBlock)
    requires RowsOk(db) && FilteredOk(fb)
    ensures RowsOk(Recorded(db, fb))
  {
    hide Recorded;
    var r := Recorded(db, fb);
    forall c
      ensures c in r.notes ==> c == OfNote(r.notes[c])
      ensures c in r.spendable ==>
                c in r.notes && r.spendable[c].nullifier == Nullifier(r.spendable[c].position, c)
      ensures c in r.swaps ==>
                c == OfSwap(r.swaps[c].swap) && r.swaps[c].nullifier == Nullifier(r.swaps[c].position, c)
    {
      RecordedRow(db, fb, c);
    }
  }

  /** One commitment's rows are well-formed. */
  predicate RowOk(db: Database, c: Commitment) {
    && (c in db.notes ==> c == OfNote(db.notes[c]))
    && (c in db.spendable ==>
          c in db.notes && db.spendable[c].nullifier == Nullifier(db.spendable[c].position, c))
    && (c in db.swaps ==>
          c == OfSwap(db.swaps[c].swap) && db.swaps[c].nullifier == Nullifier(db.swaps[c].position, c))
  }

  lemma RecordedRow(db: Database, fb: FilteredBlock, c: Commitment)
    requires RowOk(db, c) && FilteredOk(fb)
    ensures RowOk(Recorded(db, fb), c)
  {
    RecordedAt(db, fb, c);
    hide Recorded;
  }

  /** One commitment's rows after a block's new notes and swaps: the block's, or else those from before. */
  lemma RecordedAt(db: Database, fb: FilteredBlock, c: Commitment)
    ensures var r := Recorded(db, fb);
            && (c in r.notes <==> c in db.notes || c in fb.newNotes)
            && (c in r.spendable <==> c in db.spendable || c in fb.newNotes)
            && (c in r.swaps <==> c in db.swaps || c in fb.newSwaps)
            && (c in r.notes ==> r.notes[c] == if c in fb.newNotes then fb.newNotes[c].note else db.notes[c])
            && (c in r.spendable ==>
                  r.spendable[c] == if c in fb.newNotes then RowOf(fb.newNotes[c], fb.height) else db.spendable[c])
            && (c in r.swaps ==>
                  r.swaps[c] == if c in fb.newSwaps then SwapRowOf(fb.newSwaps[c]) else db.swaps[c])
  {
    if c in fb.newNotes { ColumnsAt(fb, c); }
    ColumnKeys(fb);
    SwapColumnAt(fb.newSwaps);
    hide NoteColumn, RowColumn, SwapColumn;
  }
}
