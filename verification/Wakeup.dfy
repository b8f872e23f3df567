/** Readers that wait for a note, a swap or a nullifier, and the writer that commits and then broadcasts.
    Stated once for any key; the three channels are the same machine. */
module Wakeup {
  import opened Prelude
  import opened Chain
  import opened Tct
  import opened ViewDatabase
  import opened ViewStorage
  import opened Agreement

  datatype Failure = Lagged | Closed | NotFound

  /** A reader subscribes, then queries the database, then waits. `cursor` is its place in the channel. */
  datatype Reader<K> =
    | Subscribed(key: K, wait: bool, cursor: nat)
    | Waiting(key: K, cursor: nat)
    | Found(key: K)
    | Failed(key: K, why: Failure)

  /** `recorded` is what a query finds. `unsent` is what is committed but not yet broadcast. */
  datatype Channel<K> = Channel(
    capacity: nat, recorded: set<K>, unsent: seq<K>, log: seq<K>, closed: bool, readers: map<nat, Reader<K>>)

  function Open<K>(capacity: nat): Channel<K> {
    Channel(capacity, {}, [], [], false, map[])
  }

  // ---------- One receive ----------

  datatype Received<K> = Message(key: K) | Missed | Ended | Pending

  function Receive<K>(ch: Channel<K>, cursor: nat): Received<K> {
    if cursor + ch.capacity < |ch.log| then Missed
    else if cursor < |ch.log| then Message(ch.log[cursor])
    else if ch.closed then Ended
    else Pending
  }

  /** What a waiting reader does with what it receives. */
  function Wake<K(==)>(ch: Channel<K>, r: Reader<K>): Reader<K>
    requires r.Waiting?
  {
    match Receive(ch, r.cursor)
    case Message(key) => if key == r.key then Found(key) else Waiting(r.key, r.cursor + 1)
    case Missed => Failed(r.key, Lagged)
    case Ended => Failed(r.key, Closed)
    case Pending => r
  }

  function Query<K(==)>(ch: Channel<K>, r: Reader<K>): Reader<K>
    requires r.Subscribed?
  {
    if r.key in ch.recorded then Found(r.key)
    else if !r.wait then Failed(r.key, NotFound)
    else Waiting(r.key, r.cursor)
  }

  /** Receive until nothing is left to receive. */
  function Drain<K(==)>(ch: Channel<K>, r: Reader<K>): Reader<K>
    requires r.Waiting?
    decreases if r.cursor < |ch.log| then |ch.log| - r.cursor else 0
  {
    var r' := Wake(ch, r);
    if r'.Waiting? && r' != r then Drain(ch, r') else r'
  }

  // ---------- Steps ----------

  /** The writer commits a block only after it has broadcast everything about the previous one. */
  ghost predicate Commit<K(!new)>(ch: Channel<K>, ch': Channel<K>, news: set<K>, keys: seq<K>) {
    && ch.unsent == [] && !ch.closed
    && news <= ToSet(keys)
    && ch' == ch.(recorded := ch.recorded + news, unsent := keys)
  }

  ghost predicate Send<K(!new)>(ch: Channel<K>, ch': Channel<K>) {
    ch.unsent != [] && ch' == ch.(log := ch.log + [ch.unsent[0]], unsent := ch.unsent[1..])
  }

  ghost predicate Close<K(!new)>(ch: Channel<K>, ch': Channel<K>) {
    ch.unsent == [] && ch' == ch.(closed := true)
  }

  ghost predicate Subscribe<K(!new)>(ch: Channel<K>, ch': Channel<K>, id: nat, key: K, wait: bool) {
    id !in ch.readers && ch' == ch.(readers := ch.readers[id := Subscribed(key, wait, |ch.log|)])
  }

  ghost predicate ReaderSteps<K(!new)>(ch: Channel<K>, ch': Channel<K>, id: nat) {
    && id in ch.readers
    && var r := ch.readers[id];
       (r.Subscribed? || r.Waiting?)
       && ch' == ch.(readers := ch.readers[id := if r.Subscribed? then Query(ch, r) else Wake(ch, r)])
  }

  ghost predicate ChannelStep<K(!new)>(ch: Channel<K>, ch': Channel<K>) {
    || (exists news, keys :: Commit(ch, ch', news, keys))
    || Send(ch, ch')
    || Close(ch, ch')
    || (exists id, key, wait :: Subscribe(ch, ch', id, key, wait))
    || (exists id :: ReaderSteps(ch, ch', id))
  }

  ghost predicate ChannelRun<K(!new)>(run: seq<Channel<K>>) {
    && run != [] && (exists capacity :: run[0] == Open(capacity))
    && forall i :: 0 <= i < |run| - 1 ==> ChannelStep(run[i], run[i + 1])
  }

  // ---------- No lost wakeup ----------

  /** A waiting reader's key, once recorded, is still ahead of it: in the channel, or about to be sent. A reader that
      was told yes asked for a key that was recorded or sent. */
  ghost predicate ReaderOk<K(!new)>(ch: Channel<K>, r: Reader<K>) {
    match r
    case Subscribed(_, _, cursor) => cursor <= |ch.log|
    case Waiting(key, cursor) =>
      cursor <= |ch.log| && (key in ch.recorded ==> key in ch.log[cursor..] || key in ch.unsent)
    case Found(key) => key in ch.recorded || key in ch.log
    case Failed(key, why) => true
  }

  ghost predicate ChannelInv<K(!new)>(ch: Channel<K>) {
    forall id <- ch.readers :: ReaderOk(ch, ch.readers[id])
  }

  lemma WriterKeeps<K(!new)>(ch: Channel<K>, ch': Channel<K>, r: Reader<K>)
    requires ReaderOk(ch, r)
    requires Send(ch, ch') || exists news, keys :: Commit(ch, ch', news, keys)
    ensures ReaderOk(ch', r)
  {
    if Send(ch, ch') && r.Waiting? {
      assert ch'.log[r.cursor..] == ch.log[r.cursor..] + [ch.unsent[0]];
      assert ch.unsent == [ch.unsent[0]] + ch.unsent[1..];
    }
  }

  lemma WakeKeeps<K(!new)>(ch: Channel<K>, r: Reader<K>)
    requires ReaderOk(ch, r) && r.Waiting?
    ensures ReaderOk(ch, Wake(ch, r))
  {
    if r.cursor < |ch.log| {
      assert ch.log[r.cursor..] == [ch.log[r.cursor]] + ch.log[r.cursor + 1..];
    }
  }

  /** A step of a reader that has not asked yet: yes exactly if its key is recorded, no exactly if it is not and the
      reader does not wait, and otherwise it waits from where it subscribed. */
  lemma AskingStep<K(!new)>(ch: Channel<K>, ch': Channel<K>, id: nat)
    requires ReaderSteps(ch, ch', id) && ch.readers[id].Subscribed?
    ensures var r, r' := ch.readers[id], ch'.readers[id];
            && r'.key == r.key
            && (r'.Found? <==> r.key in ch.recorded)
            && (r' == Failed(r.key, NotFound) <==> r.key !in ch.recorded && !r.wait)
            && (r'.Waiting? <==> r.key !in ch.recorded && r.wait) && (r'.Waiting? ==> r'.cursor == r.cursor)
  {
  }

  /** A step of a waiting reader: the next message, or why there is none. */
  lemma WaitingStep<K(!new)>(ch: Channel<K>, ch': Channel<K>, id: nat)
    requires ReaderSteps(ch, ch', id) && ch.readers[id].Waiting?
    ensures var r, r' := ch.readers[id], ch'.readers[id];
            && r'.key == r.key && !r'.Subscribed? && r' != Failed(r.key, NotFound)
            && (r' == Failed(r.key, Lagged) <==> |ch.log| - r.cursor > ch.capacity)
            && (r'.Found? <==> r.cursor < |ch.log| && |ch.log| - r.cursor <= ch.capacity && ch.log[r.cursor] == r.key)
            && (r' == Failed(r.key, Closed) <==>
                  r.cursor >= |ch.log| && ch.closed && |ch.log| - r.cursor <= ch.capacity)
            && (r'.Waiting? ==> r'.cursor == if r.cursor < |ch.log| then r.cursor + 1 else r.cursor)
  {
  }

  /** A reader that does not wait never does: it has not asked yet, or was answered by its query. */
  ghost predicate Impatient<K(!new)>(r: Reader<K>, key: K) {
    r.key == key && match r
                    case Subscribed(_, wait, _) => !wait
                    case Waiting(_, _) => false
                    case Found(_) => true
                    case Failed(_, why) => why == NotFound
  }

  lemma {:induction false} NeverWaits<K(!new)>(run: seq<Channel<K>>, i: nat, j: nat, id: nat, key: K)
    requires ChannelRun(run) && i <= j < |run|
    requires id in run[i].readers && Impatient(run[i].readers[id], key)
    ensures id in run[j].readers && Impatient(run[j].readers[id], key)
  {
    if i < j {
      NeverWaits(run, i, j - 1, id, key);
      assert ChannelStep(run[j - 1], run[j - 1 + 1]);
    }
  }

  lemma ChannelStepInv<K(!new)>(ch: Channel<K>, ch': Channel<K>)
    requires ChannelInv(ch) && ChannelStep(ch, ch')
    ensures ChannelInv(ch')
  {
    forall id <- ch'.readers ensures ReaderOk(ch', ch'.readers[id]) {
      if id in ch.readers && ch'.readers[id] == ch.readers[id] {
        if Send(ch, ch') || exists news, keys :: Commit(ch, ch', news, keys) {
          WriterKeeps(ch, ch', ch.readers[id]);
        }
      } else if id in ch.readers && ch.readers[id].Waiting? {
        WakeKeeps(ch, ch.readers[id]);
      }
    }
  }

  lemma {:induction false} ChannelRunInv<K(!new)>(run: seq<Channel<K>>, i: nat)
    requires ChannelRun(run) && i < |run|
    ensures ChannelInv(run[i])
  {
    hide ChannelStep, ChannelInv;
    if i == 0 {
      NoReadersYet(run[0]);
    } else {
      ChannelRunInv(run, i - 1);
      assert ChannelStep(run[i - 1], run[i - 1 + 1]);
      ChannelStepInv(run[i - 1], run[i]);
    }
  }

  lemma NoReadersYet<K(!new)>(ch: Channel<K>)
    requires ch.readers == map[]
    ensures ChannelInv(ch)
  {
  }

  /** Draining a channel that still holds the key ends in the key or in an explicit error, never in waiting. */
  lemma {:induction false} DrainFinds<K(!new)>(ch: Channel<K>, r: Reader<K>)
    requires r.Waiting? && r.cursor <= |ch.log| && r.key in ch.log[r.cursor..]
    ensures Drain(ch, r) == Found(r.key) || Drain(ch, r) == Failed(r.key, Lagged)
    ensures Drain(ch, r) == Found(r.key) <==> r.cursor + ch.capacity >= |ch.log|
    decreases |ch.log| - r.cursor
  {
    assert ch.log[r.cursor..] == [ch.log[r.cursor]] + ch.log[r.cursor + 1..];
    var r' := Wake(ch, r);
    if r'.Waiting? {
      DrainFinds(ch, r');
    }
  }

  /** In every interleaving, once a block's broadcasts are out, a reader waiting for a recorded key gets it by
      receiving what is there, unless the channel has overwritten too much, which it is told. */
  lemma NoLostWakeup<K(!new)>(run: seq<Channel<K>>, i: nat, id: nat)
    requires ChannelRun(run) && i < |run| && id in run[i].readers
    requires run[i].readers[id].Waiting? && run[i].readers[id].key in run[i].recorded
    ensures run[i].readers[id].cursor <= |run[i].log|
    ensures var ch, r := run[i], run[i].readers[id];
            && (r.key in ch.log[r.cursor..] || r.key in ch.unsent)
            && (ch.unsent == [] ==>
                  Drain(ch, r) == if r.cursor + ch.capacity >= |ch.log| then Found(r.key) else Failed(r.key, Lagged))
  {
    ChannelRunInv(run, i);
    var ch, r := run[i], run[i].readers[id];
    assert ReaderOk(ch, r);
    if ch.unsent == [] {
      DrainFinds(ch, r);
    }
  }

  /** Nobody is told yes about a key that was neither recorded nor sent. */
  lemma FoundIsThere<K(!new)>(run: seq<Channel<K>>, i: nat, id: nat)
    requires ChannelRun(run) && i < |run| && id in run[i].readers && run[i].readers[id].Found?
    ensures run[i].readers[id].key in run[i].recorded || run[i].readers[id].key in run[i].log
  {
    ChannelRunInv(run, i);
    assert ReaderOk(run[i], run[i].readers[id]);
  }

  // ---------- Readers that come too late ----------

  /** The reader is waiting or about to query, nothing ahead of it is its key, and a query would not find it. */
  ghost predicate Unheard<K(!new)>(ch: Channel<K>, r: Reader<K>) {
    && (r.Waiting? || (r.Subscribed? && r.wait))
    && r.cursor <= |ch.log| && r.key !in ch.log[r.cursor..] && r.key !in ch.unsent && r.key !in ch.recorded
  }

  /** From one state to the next no block with the key is committed, the channel is open, and the reader is not told
      that it lags. */
  ghost predicate Undisturbed<K(!new)>(ch: Channel<K>, ch': Channel<K>, id: nat, key: K) {
    && (forall news, keys :: Commit(ch, ch', news, keys) ==> key !in keys)
    && !ch.closed
    && (id in ch.readers && ch.readers[id].Waiting? ==> Receive(ch, ch.readers[id].cursor) != Missed)
  }

  lemma UnheardStep<K(!new)>(ch: Channel<K>, ch': Channel<K>, id: nat)
    requires id in ch.readers && Unheard(ch, ch.readers[id])
    requires ChannelStep(ch, ch') && Undisturbed(ch, ch', id, ch.readers[id].key)
    ensures id in ch'.readers && ch'.readers[id].key == ch.readers[id].key && Unheard(ch', ch'.readers[id])
  {
    var r := ch.readers[id];
    assert r.cursor < |ch.log| ==> ch.log[r.cursor..] == [ch.log[r.cursor]] + ch.log[r.cursor + 1..];
    if Send(ch, ch') {
      assert ch'.log[r.cursor..] == ch.log[r.cursor..] + [ch.unsent[0]];
      assert ch.unsent[0] in ch.unsent;
    } else if news, keys :| Commit(ch, ch', news, keys) {
      assert r.key !in ToSet(keys);
    }
  }

  lemma {:induction false} StaysUnheard<K(!new)>(run: seq<Channel<K>>, i: nat, j: nat, id: nat, key: K)
    requires ChannelRun(run) && i <= j < |run|
    requires id in run[i].readers && run[i].readers[id].key == key && Unheard(run[i], run[i].readers[id])
    requires forall k :: i <= k < j ==> Undisturbed(run[k], run[k + 1], id, key)
    ensures id in run[j].readers && run[j].readers[id].key == key && Unheard(run[j], run[j].readers[id])
  {
    hide ChannelStep, Unheard, Undisturbed;
    if i < j {
      StaysUnheard(run, i, j - 1, id, key);
      assert ChannelStep(run[j - 1], run[j - 1 + 1]);
      assert Undisturbed(run[j - 1], run[j - 1 + 1], id, key);
      UnheardStep(run[j - 1], run[j], id);
    }
  }

  /** A reader that subscribes after the broadcasts are out, for a key that a query does not find, is waiting in every
      later state, until a block with that key is committed, the channel is closed, or it lags. */
  lemma LateReader<K(!new)>(run: seq<Channel<K>>, i: nat, j: nat, id: nat, key: K)
    requires ChannelRun(run) && i < j < |run|
    requires Subscribe(run[i], run[i + 1], id, key, true) && run[i].unsent == [] && key !in run[i].recorded
    requires forall k :: i <= k < j ==> Undisturbed(run[k], run[k + 1], id, key)
    ensures id in run[j].readers && run[j].readers[id].key == key
    ensures run[j].readers[id].Waiting? || run[j].readers[id].Subscribed?
    ensures run[j].readers[id].Waiting? && run[j].unsent == [] && !run[j].closed
            && run[j].readers[id].cursor + run[j].capacity >= |run[j].log| ==>
              Drain(run[j], run[j].readers[id]).Waiting?
  {
    assert Unheard(run[i + 1], run[i + 1].readers[id]);
    StaysUnheard(run, i + 1, j, id, key);
    if run[j].readers[id].Waiting? && run[j].readers[id].cursor + run[j].capacity >= |run[j].log| && !run[j].closed {
      DrainWaits(run[j], run[j].readers[id]);
    }
  }

  /** Receiving everything there is does not help it. */
  lemma {:induction false} DrainWaits<K(!new)>(ch: Channel<K>, r: Reader<K>)
    requires r.Waiting? && Unheard(ch, r) && !ch.closed && r.cursor + ch.capacity >= |ch.log|
    ensures Drain(ch, r).Waiting?
    decreases |ch.log| - r.cursor
  {
    if r.cursor < |ch.log| {
      assert ch.log[r.cursor..] == [ch.log[r.cursor]] + ch.log[r.cursor + 1..];
      DrainWaits(ch, Wake(ch, r));
    }
  }

  // ---------- What the storage's queries find ----------

  predicate NoteFound(db: Database, c: Commitment) {
    c in db.notes && c in db.spendable
  }

  predicate SwapFound(db: Database, c: Commitment) {
    c in db.swaps
  }

  /** Only spendable notes are looked up by nullifier. */
  predicate NullifierFound(db: Database, nf: Nullifier) {
    SpentIn(db.spendable, nf)
  }

  predicate SpentIn(rows: map<Commitment, SpendableRow>, nf: Nullifier) {
    exists c <- rows :: rows[c].nullifier == nf && rows[c].heightSpent.Some?
  }

  /** Exactly notes with a spendable row are found, so one known only from advice is not, and exactly swaps with a
      row. */
  lemma FoundIffRow(db: Database, c: Commitment)
    requires RowsOk(db)
    ensures NoteFound(db, c) <==> c in db.spendable
    ensures SwapFound(db, c) <==> c in db.swaps
  {
  }

  /** A committed block's new notes and swaps are found by query, and are all broadcast: the block is a commit of the
      machine above on both of their channels. */
  lemma BlockIsCommit(db: Database, fb: FilteredBlock, txs: seq<Tx>, tree: Tree, before: seq<Commitment>,
                      after: seq<Commitment>)
    requires RowsOk(db)
    ensures var db' := CommitBlock(db, fb, txs, tree).0;
            && (Broadcast(before, after, fb.newNotes.Keys) ==>
                  forall c :: NoteFound(db', c) <==> NoteFound(db, c) || c in after[|before|..])
            && (Broadcast(before, after, fb.newSwaps.Keys) ==>
                  forall c :: SwapFound(db', c) <==> SwapFound(db, c) || c in after[|before|..])
  {
    CommitEager(db, fb, txs, tree);
    hide CommitBlock, Distinct;
    if Broadcast(before, after, fb.newNotes.Keys) {
      forall c ensures c in fb.newNotes <==> c in after[|before|..] {
        assert c in ToSet(after[|before|..]) <==> c in fb.newNotes.Keys;
      }
    }
    if Broadcast(before, after, fb.newSwaps.Keys) {
      forall c ensures c in fb.newSwaps <==> c in after[|before|..] {
        assert c in ToSet(after[|before|..]) <==> c in fb.newSwaps.Keys;
      }
    }
  }

  /** A revealed nullifier is found afterwards exactly when it is a note's. */
  lemma NullifierFoundIff(db: Database, fb: FilteredBlock, txs: seq<Tx>, tree: Tree, nf: Nullifier)
    requires nf in fb.spentNullifiers
    ensures NullifierFound(CommitBlock(db, fb, txs, tree).0, nf)
            <==> exists c <- Recorded(db, fb).spendable :: Recorded(db, fb).spendable[c].nullifier == nf
  {
    RowsAfter(db, fb, txs, tree);
    hide Recorded, CommitBlock;
    var r, after := Recorded(db, fb), CommitBlock(db, fb, txs, tree).0;
    if c :| c in r.spendable && r.spendable[c].nullifier == nf {
      assert after.spendable[c].nullifier == nf && after.spendable[c].heightSpent.Some?;
    }
  }

  /** A swap's nullifier is never found. When a block claims the swap, its nullifier passes the filter and so is
      broadcast, and the row is marked, but the query still finds nothing: by `LateReader`, a reader that comes after
      the broadcast waits on. */
  lemma ClaimedSwapNotFound(db: Database, fb: FilteredBlock, nfs: seq<Nullifier>, txs: seq<Tx>, tree: Tree,
                            c: Commitment)
    requires RowsOk(db) && FilteredOk(fb) && c in db.swaps && db.swaps[c].nullifier in nfs
    requires fb.spentNullifiers == FilterNullifiers(db, nfs)
    ensures var db', nf := CommitBlock(db, fb, txs, tree).0, db.swaps[c].nullifier;
            && nf in fb.spentNullifiers && !NullifierFound(db', nf)
            && c in db'.swaps && (c !in fb.newSwaps ==> db'.swaps[c].heightClaimed == Some(fb.height))
  {
    var nf := db.swaps[c].nullifier;
    assert KnownNullifier(db, nf);
    RowsAfter(db, fb, txs, tree);
    RecordedRowsOk(db, fb);
    NullifierFoundIff(db, fb, txs, tree, nf);
    hide FilterNullifiers, KnownNullifier;
    var r := Recorded(db, fb);
    forall n | n in r.spendable ensures r.spendable[n].nullifier != nf {
      assert n == OfNote(r.notes[n]);
    }
  }

  const SWAP := Swap(TradingPair(0, 1), 0, 0)
  const ORIGIN := Position(0, 0, 0)
  const SWAP_ROW := SwapRow(SWAP, ORIGIN, Nullifier(ORIGIN, OfSwap(SWAP)), OutputData(0, 0), None, Genesis)
  const ONE_SWAP := INITIAL.(swaps := map[OfSwap(SWAP) := SWAP_ROW])

  /** Such a database and block exist. */
  lemma SwapClaimed()
    ensures RowsOk(ONE_SWAP) && FilterNullifiers(ONE_SWAP, [SWAP_ROW.nullifier]) == [SWAP_ROW.nullifier]
    ensures var fb := FilteredBlock(map[], map[], [SWAP_ROW.nullifier], 1, None, None);
            && FilteredOk(fb)
            && !NullifierFound(CommitBlock(ONE_SWAP, fb, [], EMPTY).0, SWAP_ROW.nullifier)
  {
    var nfs := [SWAP_ROW.nullifier];
    assert nfs[..0] == [];
    assert ONE_SWAP.swaps[OfSwap(SWAP)].nullifier == SWAP_ROW.nullifier;
    assert KnownNullifier(ONE_SWAP, SWAP_ROW.nullifier);
    ClaimedSwapNotFound(ONE_SWAP, FilteredBlock(map[], map[], nfs, 1, None, None), nfs, [], EMPTY, OfSwap(SWAP));
  }

  /** Nullifiers found before a block are found after it, and a new one is broadcast. */
  lemma NullifiersAreCommit(db: Database, fb: FilteredBlock, txs: seq<Tx>, tree: Tree, nf: Nullifier)
    requires forall c <- fb.newNotes :: c !in db.spendable
    ensures NullifierFound(CommitBlock(db, fb, txs, tree).0, nf) ==> NullifierFound(db, nf) || nf in fb.spentNullifiers
    ensures NullifierFound(db, nf) ==> NullifierFound(CommitBlock(db, fb, txs, tree).0, nf)
  {
    hide Recorded, CommitBlock, SpentIn, SpendRows;
    RowsAfter(db, fb, txs, tree);
    RecordedRows(db, fb);
    SpentAfter(db.spendable, Recorded(db, fb).spendable, ToSet(fb.spentNullifiers), fb.height, nf);
  }

  lemma SpentAfter(before: map<Commitment, SpendableRow>, rows: map<Commitment, SpendableRow>, nfs: set<Nullifier>,
                   height: nat, nf: Nullifier)
    requires forall c <- before :: c in rows && rows[c] == before[c]
    requires forall c <- rows :: c in before || rows[c].heightSpent == None
    ensures SpentIn(SpendRows(rows, nfs, height), nf) ==> SpentIn(before, nf) || nf in nfs
    ensures SpentIn(before, nf) ==> SpentIn(SpendRows(rows, nfs, height), nf)
  {
    var after := SpendRows(rows, nfs, height);
    if c :| c in before && before[c].nullifier == nf && before[c].heightSpent.Some? {
      assert after[c].nullifier == nf && after[c].heightSpent.Some?;
    }
  }

  lemma RecordedRows(db: Database, fb: FilteredBlock)
    requires forall c <- fb.newNotes :: c !in db.spendable
    ensures var rows := Recorded(db, fb).spendable;
            && (forall c <- db.spendable :: c in rows && rows[c] == db.spendable[c])
            && (forall c <- rows :: c in db.spendable || rows[c].heightSpent == None)
  {
  }
}
