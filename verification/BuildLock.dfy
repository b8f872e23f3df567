/** Building a transaction while blocks arrive: the build lock and the lock on the tree. */
module BuildLock {
  import opened Prelude
  import opened Chain
  import opened Tct
  import opened ViewDatabase
  import opened IdealRun
  import opened Agreement
  import opened Recovery
  import opened Witnessing

  /** A witness request holds the tree's read lock from its anchor to its last proof. */
  datatype Call = Call(requested: seq<Commitment>, anchor: Hash, proofs: seq<Proof>)
  {
    predicate More() {
      |proofs| < |requested|
    }

    /** One more proof, unless the commitment is missing, which fails the request. */
    function Next(tree: Tree): Option<Call>
      requires More()
    {
      var proof := Witness(tree, requested[|proofs|]);
      if proof.Some? then Some(this.(proofs := proofs + [proof.value])) else None
    }

    /** Every proof so far is of the commitment asked for, and leads to the request's one anchor. */
    predicate Sound() {
      && |proofs| <= |requested|
      && forall k :: 0 <= k < |proofs| ==> proofs[k].leaf == requested[k] && proofs[k].Verifies(anchor)
    }
  }

  /** A transaction build holds the write side of the build lock from planning to witnessing. */
  datatype Builder = Away | Building(selected: set<Commitment>, call: Option<Call>)

  /** `others` are witness requests made without the build lock. */
  datatype Site = Site(sys: System, workerRead: bool, workerWrite: bool, builder: Builder, others: map<nat, Call>)

  const QUIET := Site(START, false, false, Away, map[])

  /** No request holds the tree's lock. */
  predicate NoReaders(s: Site) {
    s.others == map[] && (s.builder.Building? ==> s.builder.call.None?)
  }

  predicate CanRead(s: Site) {
    s.sys.memory.Some? && !s.workerWrite
  }

  /** The note can still be spent or voted with, or the swap claimed, as far as the database knows. */
  predicate Selectable(db: Database, c: Commitment) {
    || (c in db.spendable && (db.spendable[c].heightSpent.None? || IsDelegation(db, c)))
    || (c in db.swaps && db.swaps[c].heightClaimed.None?)
  }

  // ---------- Steps ----------

  /** The worker takes the build lock for reading, then the tree's lock for writing. */
  ghost predicate WorkerLocks(s: Site, s': Site) {
    && s.sys.Idle()
    && (if !s.workerRead then s.builder.Away? && s' == s.(workerRead := true)
        else !s.workerWrite && NoReaders(s) && s' == s.(workerWrite := true))
  }

  ghost predicate WorkerUnlocks(s: Site, s': Site) {
    && s.sys.Idle() && s.workerRead
    && s' == if s.workerWrite then s.(workerWrite := false) else s.(workerRead := false)
  }

  /** Every part of processing a block happens under both locks. */
  ghost predicate WorkerSteps(node: FullNode, s: Site, s': Site) {
    && s.workerWrite && s.sys.memory.Some? && s'.sys.memory.Some?
    && Step(node, s.sys, s'.sys)
    && s' == s.(sys := s'.sys)
  }

  /** A crash takes every lock and request of the process with it. */
  ghost predicate ProcessSteps(s: Site, s': Site) {
    && (Crash(s.sys, s'.sys) || Restart(s.sys, s'.sys))
    && s' == Site(s'.sys, false, false, Away, map[])
  }

  ghost predicate BuilderLocks(s: Site, s': Site) {
    match s.builder
    case Away => s.sys.memory.Some? && !s.workerRead && s' == s.(builder := Building({}, None))
    case Building(_, call) => call.None? && s' == s.(builder := Away)
  }

  /** One more note or swap read from the database while planning. */
  ghost predicate Selects(s: Site, s': Site, c: Commitment) {
    && s.builder.Building? && s.builder.call.None? && Selectable(s.sys.db, c)
    && s' == s.(builder := s.builder.(selected := s.builder.selected + {c}))
  }

  ghost predicate StartsCall(s: Site, s': Site, requested: seq<Commitment>) {
    && s.builder.Building? && s.builder.call.None? && CanRead(s)
    && (forall c <- requested :: c in s.builder.selected)
    && s' == s.(builder := s.builder.(call := Some(Call(requested, Root(s.sys.memory.value.tree), []))))
  }

  ghost predicate Proves(s: Site, s': Site) {
    && s.builder.Building? && s.builder.call.Some? && s.builder.call.value.More() && s.sys.memory.Some?
    && s' == s.(builder := s.builder.(call := s.builder.call.value.Next(s.sys.memory.value.tree)))
  }

  ghost predicate EndsCall(s: Site, s': Site) {
    && s.builder.Building? && s.builder.call.Some? && !s.builder.call.value.More()
    && s' == s.(builder := s.builder.(call := None))
  }

  /** Requests for any commitments at any time, guarded only by the tree's lock. */
  ghost predicate OtherStarts(s: Site, s': Site, id: nat, requested: seq<Commitment>) {
    && id !in s.others && CanRead(s)
    && s' == s.(others := s.others[id := Call(requested, Root(s.sys.memory.value.tree), [])])
  }

  ghost predicate OtherProves(s: Site, s': Site, id: nat) {
    && id in s.others && s.others[id].More() && s.sys.memory.Some?
    && var next := s.others[id].Next(s.sys.memory.value.tree);
       s' == s.(others := if next.Some? then s.others[id := next.value] else s.others - {id})
  }

  ghost predicate OtherEnds(s: Site, s': Site, id: nat) {
    id in s.others && !s.others[id].More() && s' == s.(others := s.others - {id})
  }

  ghost predicate SiteStep(node: FullNode, s: Site, s': Site) {
    || WorkerLocks(s, s')
    || WorkerUnlocks(s, s')
    || WorkerSteps(node, s, s')
    || ProcessSteps(s, s')
    || BuilderLocks(s, s')
    || (exists c :: Selects(s, s', c))
    || (exists requested :: StartsCall(s, s', requested))
    || Proves(s, s')
    || EndsCall(s, s')
    || (exists id, requested :: OtherStarts(s, s', id, requested))
    || (exists id :: OtherProves(s, s', id))
    || (exists id :: OtherEnds(s, s', id))
  }

  ghost predicate SiteRun(node: FullNode, run: seq<Site>) {
    && run != [] && run[0] == QUIET
    && forall i :: 0 <= i < |run| - 1 ==> SiteStep(node, run[i], run[i + 1])
  }

  // ---------- The invariant ----------

  /** The request belongs to the tree as it is now. */
  ghost predicate CallOk(call: Call, tree: Tree) {
    call.anchor == Root(tree) && call.Sound()
  }

  ghost predicate LocksOk(s: Site) {
    && (s.sys.Busy() ==> s.workerWrite)
    && (s.workerWrite ==> s.workerRead && NoReaders(s))
    && (s.workerRead ==> s.builder.Away? && s.sys.memory.Some?)
    && (s.builder.Building? || s.others != map[] ==> s.sys.memory.Some?)
  }

  ghost predicate CallsOk(s: Site) {
    && (s.builder.Building? ==> forall c <- s.builder.selected :: Selectable(s.sys.db, c))
    && (s.builder.Building? && s.builder.call.Some? && s.sys.memory.Some? ==>
          && CallOk(s.builder.call.value, s.sys.memory.value.tree)
          && forall c <- s.builder.call.value.requested :: c in s.builder.selected)
    && (s.sys.memory.Some? ==> forall id <- s.others :: CallOk(s.others[id], s.sys.memory.value.tree))
  }

  ghost predicate SiteInv(node: FullNode, s: Site) {
    Inv(node, s.sys) && LocksOk(s) && CallsOk(s)
  }

  lemma NextOk(call: Call, tree: Tree)
    requires CallOk(call, tree) && call.More() && call.Next(tree).Some?
    ensures CallOk(call.Next(tree).value, tree)
    ensures call.Next(tree).value.requested == call.requested
  {
    WitnessVerifies(tree, call.requested[|call.proofs|]);
    hide Witness, KeptAt;
  }

  lemma SiteStepInv(node: FullNode, s: Site, s': Site)
    requires ChainOk(node) && SiteInv(node, s) && SiteStep(node, s, s')
    ensures SiteInv(node, s')
  {
    hide ChainOk, Inv, Step, Witness, Selectable, CallOk, Root;
    if WorkerSteps(node, s, s') {
      StepInv(node, s.sys, s'.sys);
      assert s.builder.Away? && s.others == map[];
    } else if ProcessSteps(s, s') {
      hide Step, Crash, Restart;
      ProcessInv(node, s, s');
    } else if Proves(s, s') {
      if s'.builder.call.Some? { NextOk(s.builder.call.value, s.sys.memory.value.tree); }
    } else if id :| OtherProves(s, s', id) {
      if s.others[id].Next(s.sys.memory.value.tree).Some? { NextOk(s.others[id], s.sys.memory.value.tree); }
    } else if requested :| StartsCall(s, s', requested) {
      NewCallOk(requested, s.sys.memory.value.tree);
    } else if id, requested :| OtherStarts(s, s', id, requested) {
      NewCallOk(requested, s.sys.memory.value.tree);
    }
  }

  lemma NewCallOk(requested: seq<Commitment>, tree: Tree)
    ensures CallOk(Call(requested, Root(tree), []), tree)
  {
  }

  lemma ProcessInv(node: FullNode, s: Site, s': Site)
    requires ChainOk(node) && Inv(node, s.sys) && ProcessSteps(s, s')
    ensures SiteInv(node, s')
  {
    hide ChainOk, Inv;
    StepInv(node, s.sys, s'.sys);
  }

  lemma {:induction false} SiteRunInv(node: FullNode, run: seq<Site>, i: nat)
    requires ChainOk(node) && SiteRun(node, run) && i < |run|
    ensures SiteInv(node, run[i])
  {
    hide ChainOk, Inv, SiteStep, LocksOk, CallsOk;
    if i == 0 {
      StartInv(node);
      QuietInv();
    } else {
      SiteRunInv(node, run, i - 1);
      assert SiteStep(node, run[i - 1], run[i - 1 + 1]);
      SiteStepInv(node, run[i - 1], run[i]);
    }
  }

  lemma QuietInv()
    ensures LocksOk(QUIET) && CallsOk(QUIET)
  {
  }

  // ---------- Main results ----------

  /** Over every interleaving of worker, builder, other requests and crashes: while the builder holds the build lock,
      each note it read as spendable has a proof at its recorded position, so its request never fails. */
  lemma BuildNeverMisses(node: FullNode, run: seq<Site>, i: nat, c: Commitment)
    requires ChainOk(node) && SiteRun(node, run) && i < |run|
    requires run[i].builder.Building? && c in run[i].builder.selected
    ensures run[i].sys.Idle() && Selectable(run[i].sys.db, c)
    ensures var proof := Witness(run[i].sys.memory.value.tree, c);
            && proof.Some? && proof.value.leaf == c && proof.value.Verifies(Root(run[i].sys.memory.value.tree))
            && proof.value.position == if c in run[i].sys.db.spendable then run[i].sys.db.spendable[c].position
                                       else run[i].sys.db.swaps[c].position
  {
    SiteRunInv(node, run, i);
    InvWitness(node, run[i].sys);
    WitnessVerifies(run[i].sys.memory.value.tree, c);
    hide ChainOk, SiteRun, Inv, Witness, IndexOk, RowsOk;
    NoteVotes(run[i].sys.db, node.metadata, c);
  }

  /** A note the asset table calls a delegation token is one. */
  lemma NoteVotes(db: Database, metadata: map<AssetId, Denom>, c: Commitment)
    requires AssetsOk(db, metadata)
    ensures c in db.spendable && IsDelegation(db, c) ==> Votes(metadata, db.notes[c])
  {
  }

  /** All proofs of one request, with or without the build lock, lead to the one anchor it returns. */
  lemma OneAnchor(node: FullNode, run: seq<Site>, i: nat)
    requires ChainOk(node) && SiteRun(node, run) && i < |run|
    ensures run[i].builder.Building? && run[i].builder.call.Some? ==> run[i].builder.call.value.Sound()
    ensures forall id <- run[i].others :: run[i].others[id].Sound()
  {
    hide ChainOk, SiteRun, Inv;
    SiteRunInv(node, run, i);
  }

  /** The builder's request goes through: its next step always adds a proof. */
  lemma RequestSucceeds(node: FullNode, run: seq<Site>, i: nat)
    requires ChainOk(node) && SiteRun(node, run) && i < |run|
    requires run[i].builder.Building? && run[i].builder.call.Some? && run[i].builder.call.value.More()
    ensures run[i].sys.memory.Some? && run[i].builder.call.value.Next(run[i].sys.memory.value.tree).Some?
  {
    var call := run[i].builder.call.value;
    SiteRunInv(node, run, i);
    hide ChainOk, SiteRun, Inv, Witness;
    BuildNeverMisses(node, run, i, call.requested[|call.proofs|]);
  }
}
