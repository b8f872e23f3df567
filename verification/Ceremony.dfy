/** The summoning ceremony: one phase's slot tables, and the rounds that extend its chain of contributions. */
module Ceremony {
  import opened Prelude

  type Address = nat
  type Crs = nat
  type Raw = nat
  type Contribution = nat

  /** The cryptography of a phase, as its functions. */
  datatype Phase = Phase(validate: (Crs, Raw) -> Option<Contribution>, linked: (Contribution, Crs) -> bool,
                         newElements: Contribution -> Crs)

  datatype Blob = RootBlob(crs: Crs) | ContributionBlob(contribution: Contribution)

  datatype SlotRow = SlotRow(isRoot: bool, address: Option<Address>)

  datatype Tables = Tables(data: map<nat, Blob>, contributions: map<nat, SlotRow>, strikes: map<Address, nat>)

  const EMPTY := Tables(map[], map[], map[])

  // ---------- Slots ----------

  predicate IsMax(s: set<nat>, m: nat) {
    m in s && forall x <- s :: x <= m
  }

  lemma {:induction false} MaxExists(s: set<nat>)
    requires s != {}
    ensures exists m :: IsMax(s, m)
  {
    var x :| x in s;
    if s == {x} {
      assert IsMax(s, x);
    } else {
      MaxExists(s - {x});
      var n :| IsMax(s - {x}, n);
      forall y | y in s ensures y <= x || y <= n {
        assert y == x || y in s - {x};
      }
      assert IsMax(s, if x > n then x else n);
    }
  }

  ghost function Max(s: set<nat>): (m: nat)
    requires s != {}
    ensures IsMax(s, m)
  {
    MaxExists(s);
    var m :| IsMax(s, m);
    m
  }

  /** An inserted row without a slot goes after the last one, or to slot one of an empty table. */
  ghost function NextSlot<T>(table: map<nat, T>): nat {
    if table == map[] then 1 else Max(table.Keys) + 1
  }

  // ---------- Storage operations ----------

  /** Fails if either table has a slot zero already. */
  function WithRoot(t: Tables, root: Crs): Result<Tables, string> {
    if 0 in t.data || 0 in t.contributions then Err("slot exists")
    else Ok(t.(data := t.data[0 := RootBlob(root)], contributions := t.contributions[0 := SlotRow(true, None)]))
  }

  /** Each table numbers its own rows. */
  ghost function Commit(t: Tables, contributor: Address, c: Contribution): Tables {
    t.(data := t.data[NextSlot(t.data) := ContributionBlob(c)],
       contributions := t.contributions[NextSlot(t.contributions) := SlotRow(false, Some(contributor))])
  }

  function Struck(t: Tables, address: Address): Tables {
    t.(strikes := t.strikes[address := if address in t.strikes then t.strikes[address] + 1 else 1])
  }

  /** The elements in a slot, read as its root flag says. */
  function ElementsIn(p: Phase, t: Tables, slot: nat): Option<Crs> {
    if slot !in t.contributions || slot !in t.data then None
    else if t.contributions[slot].isRoot then
      (if t.data[slot].RootBlob? then Some(t.data[slot].crs) else None)
    else
      (if t.data[slot].ContributionBlob? then Some(p.newElements(t.data[slot].contribution)) else None)
  }

  /** The elements of the last slot present in both tables. */
  ghost function CurrentCrs(p: Phase, t: Tables): Option<Crs> {
    var slots := t.contributions.Keys * t.data.Keys;
    if slots == {} then None else ElementsIn(p, t, Max(slots))
  }

  // ---------- The chain ----------

  predicate Linked(p: Phase, t: Tables, slot: nat) {
    && slot > 0 && slot in t.data && slot in t.contributions
    && !t.contributions[slot].isRoot && t.contributions[slot].address.Some?
    && t.data[slot].ContributionBlob?
    && ElementsIn(p, t, slot - 1).Some?
    && p.linked(t.data[slot].contribution, ElementsIn(p, t, slot - 1).value)
  }

  /** The contribution came out of validation against the root. */
  ghost predicate Validated(p: Phase, root: Crs, c: Contribution) {
    exists raw :: p.validate(root, raw) == Some(c)
  }

  ghost predicate SlotOk(p: Phase, root: Crs, t: Tables, slot: nat) {
    Linked(p, t, slot) && Validated(p, root, t.data[slot].contribution)
  }

  /** Both tables hold slots 0 to n. Slot zero alone is a root, and every later slot holds a contribution that was
      validated against it and is linked to the slot before. */
  ghost predicate Chain(p: Phase, root: Crs, t: Tables, n: nat) {
    && (forall slot: nat :: slot in t.data <==> slot <= n)
    && (forall slot: nat :: slot in t.contributions <==> slot <= n)
    && t.data[0] == RootBlob(root) && t.contributions[0].isRoot
    && forall slot :: 1 <= slot <= n ==> SlotOk(p, root, t, slot)
  }

  lemma MaxIs(s: set<nat>, n: nat)
    requires forall x: nat :: x in s <==> x <= n
    ensures s != {} && Max(s) == n
  {
    assert n in s;
  }

  lemma ChainSlots(p: Phase, root: Crs, t: Tables, n: nat)
    requires Chain(p, root, t, n)
    ensures NextSlot(t.data) == NextSlot(t.contributions) == n + 1
    ensures CurrentCrs(p, t) == ElementsIn(p, t, n) && CurrentCrs(p, t).Some?
  {
    MaxIs(t.data.Keys, n);
    MaxIs(t.contributions.Keys, n);
    MaxIs(t.contributions.Keys * t.data.Keys, n);
    if n > 0 { assert SlotOk(p, root, t, n); }
  }

  lemma RootChain(p: Phase, root: Crs)
    ensures WithRoot(EMPTY, root).Ok? && Chain(p, root, WithRoot(EMPTY, root).value, 0)
  {
  }

  /** A validated contribution linked to the current elements extends the chain by one slot. */
  lemma CommitExtends(p: Phase, root: Crs, t: Tables, n: nat, contributor: Address, c: Contribution)
    requires Chain(p, root, t, n) && Validated(p, root, c)
    requires CurrentCrs(p, t).Some? && p.linked(c, CurrentCrs(p, t).value)
    ensures Chain(p, root, Commit(t, contributor, c), n + 1)
    ensures CurrentCrs(p, Commit(t, contributor, c)) == Some(p.newElements(c))
  {
    ChainSlots(p, root, t, n);
    var t' := Commit(t, contributor, c);
    NewSlot(t, n, contributor, c);
    hide Commit, CurrentCrs, SlotOk;
    forall slot | 1 <= slot <= n + 1 ensures SlotOk(p, root, t', slot) {
      if slot <= n {
        assert SlotOk(p, root, t, slot);
        SlotStays(p, root, t, t', slot);
      } else {
        SlotAdded(p, root, t, t', slot, c);
      }
    }
    ChainSlots(p, root, t', n + 1);
    NewElements(p, t', n + 1, c);
  }

  predicate SameRows(t: Tables, t': Tables, slot: nat) {
    && slot in t.data && slot in t'.data && t.data[slot] == t'.data[slot]
    && slot in t.contributions && slot in t'.contributions && t.contributions[slot] == t'.contributions[slot]
  }

  lemma SlotStays(p: Phase, root: Crs, t: Tables, t': Tables, slot: nat)
    requires SlotOk(p, root, t, slot) && SameRows(t, t', slot) && slot > 0 && SameRows(t, t', slot - 1)
    ensures SlotOk(p, root, t', slot)
  {
  }

  lemma SlotAdded(p: Phase, root: Crs, t: Tables, t': Tables, slot: nat, c: Contribution)
    requires slot > 0 && SameRows(t, t', slot - 1)
    requires slot in t'.data && t'.data[slot] == ContributionBlob(c)
    requires slot in t'.contributions && !t'.contributions[slot].isRoot && t'.contributions[slot].address.Some?
    requires Validated(p, root, c)
    requires ElementsIn(p, t, slot - 1).Some? && p.linked(c, ElementsIn(p, t, slot - 1).value)
    ensures SlotOk(p, root, t', slot)
  {
  }

  /** On a chain both tables give the next row the same slot. */
  lemma NewSlot(t: Tables, n: nat, contributor: Address, c: Contribution)
    requires NextSlot(t.data) == NextSlot(t.contributions) == n + 1
    ensures Commit(t, contributor, c).data == t.data[n + 1 := ContributionBlob(c)]
    ensures Commit(t, contributor, c).contributions == t.contributions[n + 1 := SlotRow(false, Some(contributor))]
  {
    hide NextSlot;
  }

  lemma NewElements(p: Phase, t: Tables, slot: nat, c: Contribution)
    requires slot in t.data && slot in t.contributions && !t.contributions[slot].isRoot
             && t.data[slot] == ContributionBlob(c)
    ensures ElementsIn(p, t, slot) == Some(p.newElements(c))
  {
  }

  // ---------- Rounds ----------

  /** Where a round is. It can be cancelled wherever it waits. */
  datatype Round =
    | Waiting
    | Selected(address: Address)
    | Asked(address: Address, parent: Crs)
    | Received(address: Address, parent: Crs, raw: Raw)
    | Checked(address: Address, parent: Crs, contribution: Contribution)
    | Committed(address: Address)
    | Failing(address: Address)
    | Stopped

  datatype State = State(tables: Tables, round: Round)

  ghost predicate Select(s: State, s': State, address: Address) {
    s.round.Waiting? && s' == s.(round := Selected(address))
  }

  ghost predicate ReadParent(p: Phase, s: State, s': State) {
    && s.round.Selected? && CurrentCrs(p, s.tables).Some?
    && s' == s.(round := Asked(s.round.address, CurrentCrs(p, s.tables).value))
  }

  /** The participant answers with anything, or with nothing usable. */
  ghost predicate Receive(s: State, s': State, answer: Option<Raw>) {
    && s.round.Asked?
    && s' == s.(round := match answer
                         case Some(raw) => Received(s.round.address, s.round.parent, raw)
                         case None => Failing(s.round.address))
  }

  /** Validation against the stored root, then the link to the parent that was sent out. */
  ghost predicate Check(p: Phase, s: State, s': State) {
    && s.round.Received?
    && 0 in s.tables.data && s.tables.data[0].RootBlob?
    && var c := p.validate(s.tables.data[0].crs, s.round.raw);
       s' == s.(round := if c.Some? && p.linked(c.value, s.round.parent)
                         then Checked(s.round.address, s.round.parent, c.value)
                         else Failing(s.round.address))
  }

  ghost predicate Save(s: State, s': State) {
    && s.round.Checked?
    && s' == State(Commit(s.tables, s.round.address, s.round.contribution), Committed(s.round.address))
  }

  ghost predicate EndRound(s: State, s': State) {
    || (s.round.Committed? && s' == s.(round := Waiting))
    || (s.round.Failing? && s' == State(Struck(s.tables, s.round.address), Waiting))
  }

  /** The time limit cancels the round wherever it is, even after the commit, and strikes the participant. */
  ghost predicate Timeout(s: State, s': State) {
    && !s.round.Waiting? && !s.round.Stopped?
    && s' == State(Struck(s.tables, s.round.address), Waiting)
  }

  /** An error, for instance a participant gone before the confirmation, ends the coordinator. */
  ghost predicate Fail(s: State, s': State) {
    !s.round.Waiting? && s' == s.(round := Stopped)
  }

  /** The coordinator can end anywhere. A new one starts from the same tables. */
  ghost predicate Restart(s: State, s': State) {
    s' == s.(round := Waiting)
  }

  ghost predicate Next(p: Phase, s: State, s': State) {
    || (exists address :: Select(s, s', address))
    || ReadParent(p, s, s')
    || (exists answer :: Receive(s, s', answer))
    || Check(p, s, s')
    || Save(s, s')
    || EndRound(s, s')
    || Timeout(s, s')
    || Fail(s, s')
    || Restart(s, s')
  }

  ghost predicate Run(p: Phase, root: Crs, run: seq<State>) {
    && run != [] && run[0] == State(WithRoot(EMPTY, root).value, Waiting)
    && forall i :: 0 <= i < |run| - 1 ==> Next(p, run[i], run[i + 1])
  }

  /** The parent a participant was given is still the current one, since only this round extends the chain. */
  ghost predicate RoundOk(p: Phase, root: Crs, s: State) {
    match s.round
    case Asked(_, parent) => CurrentCrs(p, s.tables) == Some(parent)
    case Received(_, parent, _) => CurrentCrs(p, s.tables) == Some(parent)
    case Checked(_, parent, c) =>
      CurrentCrs(p, s.tables) == Some(parent) && p.linked(c, parent) && Validated(p, root, c)
    case _ => true
  }

  lemma NextChain(p: Phase, root: Crs, s: State, s': State, n: nat) returns (n': nat)
    requires Chain(p, root, s.tables, n) && RoundOk(p, root, s) && Next(p, s, s')
    ensures n' == (if Save(s, s') then n + 1 else n)
    ensures Chain(p, root, s'.tables, n') && RoundOk(p, root, s')
  {
    hide CurrentCrs, Commit;
    n' := n;
    if Save(s, s') {
      CommitExtends(p, root, s.tables, n, s.round.address, s.round.contribution);
      n' := n + 1;
    } else {
      hide Chain;
      ChainFrame(p, root, s.tables, s'.tables, n);
      if Check(p, s, s') { RootOfChain(p, root, s.tables, n); }
    }
  }

  lemma ChainFrame(p: Phase, root: Crs, t: Tables, t': Tables, n: nat)
    requires Chain(p, root, t, n) && t' == t.(strikes := t'.strikes)
    ensures Chain(p, root, t', n) && CurrentCrs(p, t') == CurrentCrs(p, t)
  {
    forall slot | 1 <= slot <= n ensures SlotOk(p, root, t', slot) {
      assert SlotOk(p, root, t, slot);
      SlotStays(p, root, t, t', slot);
    }
  }

  lemma RootOfChain(p: Phase, root: Crs, t: Tables, n: nat)
    requires Chain(p, root, t, n)
    ensures 0 in t.data && t.data[0] == RootBlob(root)
  {
  }

  /** Commits made so far in a run. */
  ghost function Saves(run: seq<State>): nat {
    if |run| <= 1 then 0
    else Saves(run[..|run| - 1]) + if Save(run[|run| - 2], run[|run| - 1]) then 1 else 0
  }

  /** After any number of rounds, with participants answering anything, the time limit striking anywhere and the
      coordinator restarted anywhere, the slots form one chain from the root: one slot for each commit, each validated
      and linked to the slot before it. */
  lemma {:induction false} CeremonyChain(p: Phase, root: Crs, run: seq<State>)
    requires Run(p, root, run)
    ensures Chain(p, root, run[|run| - 1].tables, Saves(run)) && RoundOk(p, root, run[|run| - 1])
    decreases |run|
  {
    hide Next, Chain, RoundOk, Save, Select;
    if |run| == 1 {
      RootChain(p, root);
      WaitingOk(p, root, run[0]);
    } else {
      var init := run[..|run| - 1];
      CeremonyChain(p, root, init);
      assert Next(p, run[|run| - 2], run[|run| - 2 + 1]);
      var n' := NextChain(p, root, run[|run| - 2], run[|run| - 1], Saves(init));
    }
  }

  function StrikesOf(t: Tables, address: Address): nat {
    if address in t.strikes then t.strikes[address] else 0
  }

  /** The step ends a round of this participant by failure or by the time limit. */
  ghost predicate Strikes(s: State, s': State, address: Address) {
    && !s.round.Waiting? && !s.round.Stopped? && s.round.address == address
    && ((s.round.Failing? && EndRound(s, s')) || Timeout(s, s'))
  }

  ghost function StrikingSteps(run: seq<State>, address: Address): nat {
    if |run| <= 1 then 0
    else
      StrikingSteps(run[..|run| - 1], address)
      + if Strikes(run[|run| - 2], run[|run| - 1], address) then 1 else 0
  }

  lemma StrikeStep(p: Phase, s: State, s': State, address: Address)
    requires Next(p, s, s')
    ensures StrikesOf(s'.tables, address) == StrikesOf(s.tables, address) + if Strikes(s, s', address) then 1 else 0
  {
    hide CurrentCrs, NextSlot;
    var struck := Struck(s.tables, if s.round.Waiting? || s.round.Stopped? then 0 else s.round.address);
    if s' == State(struck, Waiting) && !s.round.Waiting? && !s.round.Stopped? {
      assert StrikesOf(struck, s.round.address) == StrikesOf(s.tables, s.round.address) + 1;
    }
  }

  /** A participant has one strike for each of its rounds that failed or ran out of time, and no others. */
  lemma {:induction false} StrikesCounted(p: Phase, root: Crs, run: seq<State>, address: Address)
    requires Run(p, root, run)
    ensures StrikesOf(run[|run| - 1].tables, address) == StrikingSteps(run, address)
    decreases |run|
  {
    hide Next, Strikes, StrikesOf;
    if |run| == 1 {
      assert StrikesOf(run[0].tables, address) == 0 by { NoStrikes(root, address); }
    } else {
      var init := run[..|run| - 1];
      StrikesCounted(p, root, init, address);
      assert Next(p, run[|run| - 2], run[|run| - 2 + 1]);
      StrikeStep(p, run[|run| - 2], run[|run| - 1], address);
    }
  }

  lemma NoStrikes(root: Crs, address: Address)
    ensures WithRoot(EMPTY, root).Ok? && StrikesOf(WithRoot(EMPTY, root).value, address) == 0
  {
  }

  /** The rounds that were saved, in order. */
  ghost function SavedRounds(run: seq<State>): seq<Round> {
    if |run| <= 1 then []
    else
      SavedRounds(run[..|run| - 1]) + if Save(run[|run| - 2], run[|run| - 1]) then [run[|run| - 2].round] else []
  }

  ghost predicate Credited(t: Tables, rounds: seq<Round>) {
    forall k :: 0 <= k < |rounds| ==>
      && rounds[k].Checked?
      && k + 1 in t.contributions && t.contributions[k + 1] == SlotRow(false, Some(rounds[k].address))
      && k + 1 in t.data && t.data[k + 1] == ContributionBlob(rounds[k].contribution)
  }

  /** Slot k holds the contribution of the k-th round that was saved, in the name of that round's participant. */
  lemma {:induction false} ContributorsCredited(p: Phase, root: Crs, run: seq<State>)
    requires Run(p, root, run)
    ensures |SavedRounds(run)| == Saves(run) && Credited(run[|run| - 1].tables, SavedRounds(run))
    decreases |run|
  {
    hide Next, Save, Chain, RoundOk, Credited;
    if |run| == 1 {
      NoneCredited(run[0].tables);
    } else {
      var init, s, s' := run[..|run| - 1], run[|run| - 2], run[|run| - 1];
      ContributorsCredited(p, root, init);
      CeremonyChain(p, root, init);
      assert Next(p, s, run[|run| - 2 + 1]);
      assert init[|init| - 1] == s;
      CreditStep(p, root, s, s', SavedRounds(init));
      assert SavedRounds(init) + [] == SavedRounds(init);
    }
  }

  lemma NoneCredited(t: Tables)
    ensures Credited(t, [])
  {
  }

  lemma CreditStep(p: Phase, root: Crs, s: State, s': State, rounds: seq<Round>)
    requires Next(p, s, s') && Chain(p, root, s.tables, |rounds|) && Credited(s.tables, rounds)
    ensures Credited(s'.tables, if Save(s, s') then rounds + [s.round] else rounds)
  {
    ChainSlots(p, root, s.tables, |rounds|);
    hide CurrentCrs, NextSlot, Chain;
    if Save(s, s') { NewSlot(s.tables, |rounds|, s.round.address, s.round.contribution); }
  }

  lemma WaitingOk(p: Phase, root: Crs, s: State)
    requires s.round.Waiting?
    ensures RoundOk(p, root, s)
  {
  }

  /** The coordinator's `expect` never fails: once the root is set, there are always current elements to send. */
  lemma AlwaysInitialized(p: Phase, root: Crs, run: seq<State>)
    requires Run(p, root, run)
    ensures CurrentCrs(p, run[|run| - 1].tables).Some?
  {
    hide Chain;
    CeremonyChain(p, root, run);
    ChainSlots(p, root, run[|run| - 1].tables, Saves(run));
  }

  // ---------- The storage object ----------

  class Storage {
    var data: map<nat, Blob>
    var contributions: map<nat, SlotRow>
    var strikes: map<Address, nat>

    constructor ()
      ensures State() == EMPTY
    {
      data, contributions, strikes := map[], map[], map[];
    }

    function State(): Tables
      reads this
    {
      Tables(data, contributions, strikes)
    }

    method SetRoot(root: Crs) returns (r: Result<(), string>)
      modifies this
      ensures r.Ok? <==> WithRoot(old(State()), root).Ok?
      ensures State() == if r.Ok? then WithRoot(old(State()), root).value else old(State())
    {
      if 0 in data || 0 in contributions {
        return Err("slot exists");
      }
      data := data[0 := RootBlob(root)];
      contributions := contributions[0 := SlotRow(true, None)];
      return Ok(());
    }

    /** Two inserts in one transaction; each table assigns its own next slot. */
    method CommitContribution(contributor: Address, c: Contribution)
      modifies this
      ensures State() == Commit(old(State()), contributor, c)
    {
      var slot := FreeSlot(data.Keys);
      data := data[slot := ContributionBlob(c)];
      slot := FreeSlot(contributions.Keys);
      contributions := contributions[slot := SlotRow(false, Some(contributor))];
    }

    method Strike(address: Address)
      modifies this`strikes
      ensures State() == Struck(old(State()), address)
      ensures StrikesOf(State(), address) == StrikesOf(old(State()), address) + 1
      ensures forall a :: a != address ==> StrikesOf(State(), a) == StrikesOf(old(State()), a)
    {
      strikes := strikes[address := if address in strikes then strikes[address] + 1 else 1];
    }

    /** The last slot, or zero. On a chain it is the slot of the latest commit. */
    method CurrentSlot() returns (slot: nat)
      ensures slot == if contributions == map[] then 0 else Max(contributions.Keys)
    {
      if contributions == map[] {
        return 0;
      }
      slot := LastSlot(contributions.Keys);
    }

    /** Join the tables on their slots and take the last one. */
    method ReadCurrentCrs(p: Phase) returns (crs: Option<Crs>)
      ensures crs == CurrentCrs(p, State())
    {
      var slots := contributions.Keys * data.Keys;
      if slots == {} {
        return None;
      }
      var slot := LastSlot(slots);
      crs := ElementsIn(p, State(), slot);
    }
  }

  method LastSlot(slots: set<nat>) returns (last: nat)
    requires slots != {}
    ensures last == Max(slots)
  {
    last :| last in slots;
    var todo := slots - {last};
    while todo != {}
      invariant todo <= slots && last in slots
      invariant forall x <- slots :: x in todo || x <= last
      decreases |todo|
    {
      var x :| x in todo;
      if x > last {
        last := x;
      }
      todo := todo - {x};
    }
  }

  method FreeSlot(slots: set<nat>) returns (slot: nat)
    ensures slot == if slots == {} then 1 else Max(slots) + 1
  {
    if slots == {} {
      return 1;
    }
    slot := LastSlot(slots);
    slot := slot + 1;
  }
}
