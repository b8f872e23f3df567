/** The supply indexer: how each event moves native tokens between the unstaked supply's components and validators. */
module SupplyIndex {
  import opened Prelude
  import opened DelegatedSupply
  import opened Ledger
  import IntegerDivision

  type AssetId = nat
  type IdentityKey = nat

  const STAKING_TOKEN: AssetId := 0
  const U128: nat := 0x1_0000_0000_0000_0000_0000_0000_0000_0000

  datatype Unstaked = Unstaked(um: nat, auction: int, dex: int, arb: nat, fees: nat)
  {
    /** Each column fits a signed 64-bit integer. */
    predicate Storable() {
      um < I64 && arb < I64 && fees < I64 && IsI64(auction) && IsI64(dex)
    }

    /** The native tokens accounted for. The `dex` column carries the opposite sign. */
    function Net(): int {
      um + auction - dex + arb + fees
    }
  }

  const NONE := Unstaked(0, 0, 0, 0, 0)

  predicate IsI64(n: int) {
    -(I64 as int) <= n < I64
  }

  /** Unsigned arithmetic wraps around. */
  function Wrap(n: int): nat {
    n % (U64 as int)
  }

  function WrapU128(n: int): nat {
    n % (U128 as int)
  }

  /** Amounts are unsigned 128-bit integers. */
  datatype Event =
    | Undelegate(height: nat, validator: IdentityKey, amount: nat)
    | Delegate(height: nat, validator: IdentityKey, amount: nat)
    | FundingStreamReward(height: nat, amount: nat)
    | RateDataChange(height: nat, validator: IdentityKey, rate: nat)
    | AuctionCredit(height: nat, asset: AssetId, previous: nat, next: nat)
    | AuctionDebit(height: nat, asset: AssetId, previous: nat, next: nat)
    | DexCredit(height: nat, asset: AssetId, previous: nat, next: nat)
    | DexDebit(height: nat, asset: AssetId, previous: nat, next: nat)
    | DexArb(height: nat, inputAsset: AssetId, input: nat, outputAsset: AssetId, output: nat)
    | BlockFees(height: nat, asset: AssetId, amount: nat)
  {
    /** Events about other assets, and blocks without fees, are skipped. */
    predicate Ignored() {
      match this
      case AuctionCredit(_, asset, _, _) => asset != STAKING_TOKEN
      case AuctionDebit(_, asset, _, _) => asset != STAKING_TOKEN
      case DexCredit(_, asset, _, _) => asset != STAKING_TOKEN
      case DexDebit(_, asset, _, _) => asset != STAKING_TOKEN
      case DexArb(_, i, _, o, _) => i != o || i != STAKING_TOKEN
      case BlockFees(_, asset, amount) => asset != STAKING_TOKEN || amount == 0
      case _ => false
    }

    predicate Stakes() {
      Undelegate? || Delegate? || RateDataChange?
    }

    predicate Valid() {
      match this
      case Undelegate(_, _, amount) => amount < U128
      case Delegate(_, _, amount) => amount < U128
      case FundingStreamReward(_, amount) => amount < U128
      case RateDataChange(_, _, rate) => rate < U128
      case AuctionCredit(_, _, previous, next) => previous < U128 && next < U128
      case AuctionDebit(_, _, previous, next) => previous < U128 && next < U128
      case DexCredit(_, _, previous, next) => previous < U128 && next < U128
      case DexDebit(_, _, previous, next) => previous < U128 && next < U128
      case DexArb(_, _, input, _, output) => input < U128 && output < U128
      case BlockFees(_, _, amount) => amount < U128
    }
  }

  /** The amount an event moves, if it converts: a difference of balances the wrong way round is far too large. */
  function Moved(e: Event): Result<nat, Failure> {
    match e
    case Undelegate(_, _, amount) => Convert(amount, I64)
    case Delegate(_, _, amount) => Convert(amount, I64)
    case FundingStreamReward(_, amount) => Convert(amount, U64)
    case RateDataChange(_, _, _) => Ok(0)
    case AuctionCredit(_, _, previous, next) => Convert(WrapU128(next - previous), I64)
    case AuctionDebit(_, _, previous, next) => Convert(WrapU128(previous - next), I64)
    case DexCredit(_, _, previous, next) => Convert(WrapU128(next - previous), I64)
    case DexDebit(_, _, previous, next) => Convert(WrapU128(previous - next), I64)
    case DexArb(_, _, input, _, output) => Convert(WrapU128(output - input), U64)
    case BlockFees(_, _, amount) => Convert(amount, U64)
  }

  function Convert(n: nat, bound: nat): Result<nat, Failure> {
    if n < bound then Ok(n) else Err(Failed("out of range"))
  }

  /** The unstaked supply after an event that moves `n`. */
  function UnstakedAfter(e: Event, n: nat, s: Unstaked): Result<Unstaked, Failure> {
    match e
    case Delegate(_, _, _) => Ok(s.(um := Wrap(s.um - n)))
    case Undelegate(_, _, _) => Ok(s.(um := Wrap(s.um + n)))
    case FundingStreamReward(_, _) => Ok(s.(um := Wrap(s.um + n)))
    case RateDataChange(_, _, _) => Ok(s)
    case AuctionCredit(_, _, _, _) =>
      if IsI64(s.auction + n) then Ok(s.(um := Wrap(s.um - n), auction := s.auction + n))
      else Err(Failed("AuctionVCB overflow"))
    case AuctionDebit(_, _, _, _) =>
      if IsI64(s.auction - n) then Ok(s.(um := Wrap(s.um + n), auction := s.auction - n))
      else Err(Failed("AuctionVCB underflow"))
    case DexCredit(_, _, _, _) =>
      if IsI64(s.dex - n) then Ok(s.(um := Wrap(s.um - n), dex := s.dex - n)) else Err(Failed("DexVCB overflow"))
    case DexDebit(_, _, _, _) =>
      if IsI64(s.dex + n) then Ok(s.(um := Wrap(s.um + n), dex := s.dex + n)) else Err(Failed("DexVCB underflow"))
    case DexArb(_, _, _, _, _) => Ok(s.(um := Wrap(s.um - n), arb := Wrap(s.arb + n)))
    case BlockFees(_, _, _) => Ok(s.(um := Wrap(s.um - n), fees := Wrap(s.fees + n)))
  }

  function StakedAfter(e: Event, n: nat, s: Supply): Result<Supply, Failure>
    requires e.Stakes()
  {
    match e
    case Delegate(_, _, _) => AddUm(s, n)
    case Undelegate(_, _, _) => AddUm(s, 0 - n)
    case RateDataChange(_, _, rate) => ChangeRate(s, rate)
  }

  predicate StorableSupply(s: Supply) {
    s.um < I64 && s.delUm < I64 && s.rateBps2 < I64
  }

  // ---------- The tables ----------

  datatype Tables = Tables(
    unstaked: map<nat, Unstaked>, ids: map<IdentityKey, nat>, nextId: nat, staked: map<nat, map<nat, Supply>>)

  const FRESH := Tables(map[], map[], 1, map[])

  function Rows(t: Tables, id: nat): map<nat, Supply> {
    if id in t.staked then t.staked[id] else map[]
  }

  function ModifyUnstaked(t: Tables, e: Event, n: nat): Result<Tables, Failure> {
    if e.height >= I64 then Err(Failed("height out of range"))
    else
      var after := UnstakedAfter(e, n, Read(t.unstaked, e.height, NONE));
      if after.Err? then Err(after.error)
      else if !after.value.Storable() then Err(Failed("supply out of range"))
      else Ok(t.(unstaked := t.unstaked[e.height := after.value]))
  }

  /** Give a new validator the next identifier. */
  function Define(t: Tables, ik: IdentityKey): Tables {
    if ik in t.ids then t else t.(ids := t.ids[ik := t.nextId], nextId := t.nextId + 1)
  }

  function ModifyStaked(t: Tables, id: nat, e: Event, n: nat): Result<Tables, Failure>
    requires e.Stakes()
  {
    if e.height >= I64 then Err(Failed("height out of range"))
    else
      var after := StakedAfter(e, n, Read(Rows(t, id), e.height, DEFAULT));
      if after.Err? then Err(after.error)
      else if !StorableSupply(after.value) then Err(Failed("supply out of range"))
      else Ok(t.(staked := t.staked[id := Rows(t, id)[e.height := after.value]]))
  }

  /** What indexing one event does to the tables. */
  function IndexSpec(t: Tables, e: Event): Result<Tables, Failure> {
    if e.Ignored() then Ok(t)
    else
      var moved := Moved(e);
      if moved.Err? then Err(moved.error)
      else
        var t1 := if e.RateDataChange? then Ok(t) else ModifyUnstaked(t, e, moved.value);
        if t1.Err? || !e.Stakes() then t1
        else
          var t2 := Define(t1.value, e.validator);
          ModifyStaked(t2, t2.ids[e.validator], e, moved.value)
  }

  // ---------- Identifiers ----------

  /** Identifiers are given once, and only given ones have rows. */
  ghost predicate IdsOk(t: Tables) {
    && (forall ik <- t.ids :: t.ids[ik] < t.nextId)
    && (forall a <- t.ids, b <- t.ids :: t.ids[a] == t.ids[b] ==> a == b)
    && (forall id <- t.staked :: id < t.nextId)
  }

  /** A validator keeps its identifier, and no two validators share one. */
  lemma DefineKeepsIds(t: Tables, ik: IdentityKey)
    requires IdsOk(t)
    ensures IdsOk(Define(t, ik)) && ik in Define(t, ik).ids
    ensures forall k <- t.ids :: k in Define(t, ik).ids && Define(t, ik).ids[k] == t.ids[k]
    ensures ik !in t.ids ==> forall k <- t.ids :: t.ids[k] != Define(t, ik).ids[ik]
  {
  }

  lemma UnstakedFrame(t: Tables, e: Event, n: nat)
    requires ModifyUnstaked(t, e, n).Ok?
    ensures ModifyUnstaked(t, e, n).value == t.(unstaked := ModifyUnstaked(t, e, n).value.unstaked)
  {
  }

  lemma StakedFrame(t: Tables, id: nat, e: Event, n: nat)
    requires e.Stakes() && ModifyStaked(t, id, e, n).Ok?
    ensures var t' := ModifyStaked(t, id, e, n).value;
            t' == t.(staked := t'.staked) && t'.staked.Keys == t.staked.Keys + {id}
  {
  }

  lemma IndexKeepsIds(t: Tables, e: Event)
    requires IdsOk(t) && IndexSpec(t, e).Ok?
    ensures IdsOk(IndexSpec(t, e).value)
    ensures forall k <- t.ids :: k in IndexSpec(t, e).value.ids && IndexSpec(t, e).value.ids[k] == t.ids[k]
  {
    hide Define, ModifyUnstaked, ModifyStaked, Moved;
    if !e.Ignored() {
      var n := Moved(e).value;
      var t1 := if e.RateDataChange? then t else ModifyUnstaked(t, e, n).value;
      if !e.RateDataChange? { UnstakedFrame(t, e, n); }
      if e.Stakes() {
        DefineKeepsIds(t1, e.validator);
        var t2 := Define(t1, e.validator);
        StakedFrame(t2, t2.ids[e.validator], e, n);
      }
    }
  }

  // ---------- Conservation ----------

  /** The native tokens delegated at a height, over the validators with identifiers below n. */
  function Staked(staked: map<nat, map<nat, Supply>>, n: nat, height: nat): nat {
    if n == 0 then 0
    else
      (if n - 1 in staked then Read(staked[n - 1], height, DEFAULT).um else 0) + Staked(staked, n - 1, height)
  }

  function TotalAt(t: Tables, height: nat): int {
    Read(t.unstaked, height, NONE).Net() + Staked(t.staked, t.nextId, height)
  }

  /** One validator's change is the change of the sum. */
  lemma {:induction false} StakedUpdate(staked: map<nat, map<nat, Supply>>, id: nat, rows: map<nat, Supply>, n: nat,
                                        height: nat)
    ensures var before := if id in staked then Read(staked[id], height, DEFAULT).um else 0;
            Staked(staked[id := rows], n, height)
            == Staked(staked, n, height) + if id < n then Read(rows, height, DEFAULT).um - before else 0
  {
    if n > 0 { StakedUpdate(staked, id, rows, n - 1, height); }
  }

  lemma {:induction false} StakedMore(staked: map<nat, map<nat, Supply>>, n: nat, height: nat)
    requires n !in staked
    ensures Staked(staked, n + 1, height) == Staked(staked, n, height)
  {
  }

  /** How far an event changes the total. */
  function Minted(t: Tables, e: Event): int {
    if e.FundingStreamReward? then e.amount
    else if e.RateDataChange? then
      var id := Define(t, e.validator).ids[e.validator];
      var s := Read(Rows(t, id), e.height, DEFAULT);
      if ChangeRate(s, e.rate).Ok? then ChangeRate(s, e.rate).value.um - s.um else 0
    else 0
  }

  /** The reward does not wrap the unsigned column around. */
  predicate RewardFits(t: Tables, e: Event) {
    e.FundingStreamReward? ==> Read(t.unstaked, e.height, NONE).um + e.amount < U64
  }

  /** Every stored row fits its columns. */
  ghost predicate RowsStorable(t: Tables) {
    && (forall h <- t.unstaked :: t.unstaked[h].Storable())
    && (forall id <- t.staked, h <- t.staked[id] :: StorableSupply(t.staked[id][h]))
  }

  lemma ReadStorable(t: Tables, id: nat, height: nat)
    requires RowsStorable(t)
    ensures Read(t.unstaked, height, NONE).Storable()
    ensures StorableSupply(Read(Rows(t, id), height, DEFAULT))
  {
    LatestIsGreatest(t.unstaked, height);
    LatestIsGreatest(Rows(t, id), height);
  }

  /** What comes into the unstaked supply from validators and rewards. */
  function Inflow(e: Event, n: int, um: int): int {
    match e
    case Delegate(_, _, _) => -n
    case Undelegate(_, _, _) => n
    case FundingStreamReward(_, _) => if um + n < U64 then n else n - U64
    case _ => 0
  }

  /** Despite wrap-around, a stored change keeps the net of the unstaked supply, up to what goes to or comes from
      validators and rewards. */
  lemma UnstakedNet(e: Event, n: nat, s: Unstaked)
    requires s.Storable() && !e.Ignored() && Moved(e) == Ok(n) && UnstakedAfter(e, n, s).Ok?
    requires UnstakedAfter(e, n, s).value.Storable()
    ensures UnstakedAfter(e, n, s).value.Net() == s.Net() + Inflow(e, n, s.um)
  {
    hide Wrap, Convert, WrapU128;
    MovedFits(e);
    Wrapped(s.um - n);
    Wrapped(s.um + n);
    Wrapped(s.arb + n);
    Wrapped(s.fees + n);
  }

  lemma MovedFits(e: Event)
    requires Moved(e).Ok?
    ensures Moved(e).value < U64
    ensures !e.FundingStreamReward? && !e.DexArb? && !e.BlockFees? ==> Moved(e).value < I64
  {
    hide WrapU128;
  }

  lemma Wrapped(n: int)
    requires -(U64 as int) <= n < 2 * U64
    ensures Wrap(n) == if n < 0 then n + U64 else if n < U64 then n else n - U64
  {
  }

  /** A delegation or undelegation moves exactly its amount to or from the validator. */
  lemma StakedNet(e: Event, n: nat, s: Supply)
    requires StorableSupply(s) && e.Stakes() && Moved(e) == Ok(n) && StakedAfter(e, n, s).Ok?
    ensures e.Delegate? ==> StakedAfter(e, n, s).value.um == s.um + n
    ensures e.Undelegate? ==> StakedAfter(e, n, s).value.um == s.um - n
  {
    hide DelUmDelta, ChangeRate;
  }

  /** The total at an event's height changes by exactly a reward or a validator's revaluation, and not at all for every
      other event, except that a reward that wraps around loses two to the 64. */
  lemma Conservation(t: Tables, e: Event)
    requires IdsOk(t) && RowsStorable(t) && e.Valid() && IndexSpec(t, e).Ok?
    ensures var t' := IndexSpec(t, e).value;
            && RowsStorable(t')
            && TotalAt(t', e.height) == TotalAt(t, e.height) + Minted(t, e) - if RewardFits(t, e) then 0 else U64
  {
    hide ModifyUnstaked, ModifyStaked, Define, Read, Staked, IdsOk, RowsStorable, ChangeRate;
    if !e.Ignored() {
      var n := Moved(e).value;
      var t1 := if e.RateDataChange? then t else ModifyUnstaked(t, e, n).value;
      if !e.RateDataChange? {
        UnstakedFrame(t, e, n);
        IdsFrame(t, t1);
        UnstakedPart(t, e, n);
      }
      if e.Stakes() {
        var t2 := Define(t1, e.validator);
        DefineFrame(t1, e.validator);
        StakedPart(t1, t2, t2.ids[e.validator], e, n);
      }
    }
  }

  lemma IdsFrame(t: Tables, u: Tables)
    requires IdsOk(t) && u == t.(unstaked := u.unstaked)
    ensures IdsOk(u)
  {
  }

  lemma UnstakedPart(t: Tables, e: Event, n: nat)
    requires RowsStorable(t) && !e.Ignored() && !e.RateDataChange? && Moved(e) == Ok(n) && ModifyUnstaked(t, e, n).Ok?
    ensures var t' := ModifyUnstaked(t, e, n).value;
            && RowsStorable(t') && t'.staked == t.staked && t'.ids == t.ids && t'.nextId == t.nextId
            && Read(t'.unstaked, e.height, NONE).Net()
               == Read(t.unstaked, e.height, NONE).Net() + Inflow(e, n, Read(t.unstaked, e.height, NONE).um)
  {
    ReadStorable(t, 0, e.height);
    UnstakedNet(e, n, Read(t.unstaked, e.height, NONE));
    hide UnstakedAfter, Moved;
  }

  /** A validator without rows has nothing delegated. */
  lemma UmOf(t: Tables, id: nat, height: nat)
    ensures Read(Rows(t, id), height, DEFAULT).um
            == if id in t.staked then Read(t.staked[id], height, DEFAULT).um else 0
  {
    LatestIsGreatest(Rows(t, id), height);
  }

  /** What goes to the validator. */
  function Outflow(t: Tables, e: Event, n: int): int
    requires e.Stakes()
  {
    if e.Delegate? then n else if e.Undelegate? then -n else Minted(t, e)
  }

  lemma StakedPart(t: Tables, t2: Tables, id: nat, e: Event, n: nat)
    requires IdsOk(t) && RowsStorable(t) && e.Stakes() && Moved(e) == Ok(n)
    requires t2 == Define(t, e.validator) && id == t2.ids[e.validator] && ModifyStaked(t2, id, e, n).Ok?
    ensures var t' := ModifyStaked(t2, id, e, n).value;
            && RowsStorable(t') && t'.unstaked == t.unstaked
            && Staked(t'.staked, t'.nextId, e.height) - Staked(t.staked, t.nextId, e.height) == Outflow(t, e, n)
  {
    hide AddUm, ChangeRate, Moved, StakedAfter, Minted, Outflow, Read;
    DefineKeepsIds(t, e.validator);
    var s := Read(Rows(t, id), e.height, DEFAULT);
    var after := StakedAfter(e, n, s).value;
    var rows := Rows(t, id)[e.height := after];
    RowMoves(t, t2, id, e, n);
    assert RowsStorable(t2.(staked := t2.staked[id := rows])) by { StorableRow(t2, id, e.height, after); }
    hide RowsStorable;
    UmOf(t, id, e.height);
    StakedUpdate(t.staked, id, rows, t2.nextId, e.height);
    StakedMore(t.staked, t.nextId, e.height);
    WrittenRow(Rows(t, id), e.height, after);
  }

  lemma RowMoves(t: Tables, t2: Tables, id: nat, e: Event, n: nat)
    requires RowsStorable(t) && e.Stakes() && Moved(e) == Ok(n)
    requires t2 == Define(t, e.validator) && id == t2.ids[e.validator] && ModifyStaked(t2, id, e, n).Ok?
    ensures t2.staked == t.staked && t2.unstaked == t.unstaked
    ensures var s := Read(Rows(t, id), e.height, DEFAULT);
            StakedAfter(e, n, s).Ok? && StakedAfter(e, n, s).value.um - s.um == Outflow(t, e, n)
  {
    hide AddUm, ChangeRate, Moved, Latest;
    ReadStorable(t, id, e.height);
    StakedNet(e, n, Read(Rows(t, id), e.height, DEFAULT));
  }

  lemma StorableRow(t: Tables, id: nat, height: nat, row: Supply)
    requires RowsStorable(t) && StorableSupply(row)
    ensures RowsStorable(t.(staked := t.staked[id := Rows(t, id)[height := row]]))
  {
  }

  lemma WrittenRow(rows: map<nat, Supply>, height: nat, row: Supply)
    ensures Read(rows[height := row], height, DEFAULT) == row
  {
  }

  // ---------- Whole runs ----------

  function IndexAll(t: Tables, es: seq<Event>): Result<Tables, Failure> {
    if es == [] then Ok(t)
    else
      var r := IndexAll(t, es[..|es| - 1]);
      if r.Err? then r else IndexSpec(r.value, es[|es| - 1])
  }

  ghost predicate RowsBelow(t: Tables, height: nat) {
    && (forall h <- t.unstaked :: h <= height)
    && (forall id <- t.staked, h <- t.staked[id] :: h <= height)
  }

  lemma {:induction false} StakedForward(staked: map<nat, map<nat, Supply>>, n: nat, height: nat, later: nat)
    requires height <= later && forall id <- staked, h <- staked[id] :: h <= height
    ensures Staked(staked, n, later) == Staked(staked, n, height)
  {
    if n > 0 {
      StakedForward(staked, n - 1, height, later);
      if n - 1 in staked { ReadForward(staked[n - 1], height, later); }
    }
  }

  lemma TotalForward(t: Tables, height: nat, later: nat)
    requires height <= later && RowsBelow(t, height)
    ensures TotalAt(t, later) == TotalAt(t, height)
  {
    ReadForward(t.unstaked, height, later);
    StakedForward(t.staked, t.nextId, height, later);
  }

  lemma IndexRowsBelow(t: Tables, e: Event)
    requires RowsBelow(t, e.height) && IndexSpec(t, e).Ok?
    ensures RowsBelow(IndexSpec(t, e).value, e.height)
  {
    hide UnstakedAfter, StakedAfter, Moved, Latest, Define, ModifyUnstaked, ModifyStaked;
    if !e.Ignored() {
      var n := Moved(e).value;
      var t1 := if e.RateDataChange? then t else ModifyUnstaked(t, e, n).value;
      if !e.RateDataChange? { UnstakedBelow(t, e, n); }
      if e.Stakes() {
        var t2 := Define(t1, e.validator);
        DefineFrame(t1, e.validator);
        StakedBelow(t2, t2.ids[e.validator], e, n);
      }
    }
  }

  lemma DefineFrame(t: Tables, ik: IdentityKey)
    ensures Define(t, ik).unstaked == t.unstaked && Define(t, ik).staked == t.staked && ik in Define(t, ik).ids
  {
  }

  lemma UnstakedBelow(t: Tables, e: Event, n: nat)
    requires RowsBelow(t, e.height) && ModifyUnstaked(t, e, n).Ok?
    ensures RowsBelow(ModifyUnstaked(t, e, n).value, e.height)
  {
    hide UnstakedAfter, Read;
  }

  lemma StakedBelow(t: Tables, id: nat, e: Event, n: nat)
    requires RowsBelow(t, e.height) && e.Stakes() && ModifyStaked(t, id, e, n).Ok?
    ensures RowsBelow(ModifyStaked(t, id, e, n).value, e.height)
  {
    hide StakedAfter, Read;
  }

  /** Everything minted or revalued by the events, one after the other. */
  function MintedBy(t: Tables, es: seq<Event>): int {
    if es == [] then 0
    else
      var init := es[..|es| - 1];
      MintedBy(t, init) + if IndexAll(t, init).Ok? then Minted(IndexAll(t, init).value, es[|es| - 1]) else 0
  }

  /** How many of the events are rewards that wrap around. */
  function WrappedRewards(t: Tables, es: seq<Event>): nat {
    if es == [] then 0
    else
      var init := es[..|es| - 1];
      WrappedRewards(t, init)
      + if IndexAll(t, init).Ok? && !RewardFits(IndexAll(t, init).value, es[|es| - 1]) then 1 else 0
  }

  predicate Ascending(start: nat, es: seq<Event>) {
    && (forall i :: 0 <= i < |es| ==> start <= es[i].height)
    && forall i, j :: 0 <= i < j < |es| ==> es[i].height <= es[j].height
  }

  /** Over any accepted sequence of events in height order, the total changes by exactly the rewards and the
      revaluations, less what rewards that wrap around lose. */
  lemma {:induction false} RunConservation(t: Tables, start: nat, es: seq<Event>)
    requires IdsOk(t) && RowsStorable(t) && RowsBelow(t, start) && Ascending(start, es)
    requires (forall e <- es :: e.Valid()) && IndexAll(t, es).Ok?
    ensures var t', height := IndexAll(t, es).value, if es == [] then start else es[|es| - 1].height;
            && IdsOk(t') && RowsStorable(t') && RowsBelow(t', height)
            && TotalAt(t', height) == TotalAt(t, start) + MintedBy(t, es) - U64 * WrappedRewards(t, es)
    decreases |es|
  {
    hide IndexSpec, IdsOk, RowsStorable, RowsBelow, TotalAt, Minted, RewardFits;
    if es != [] {
      var init, e := es[..|es| - 1], es[|es| - 1];
      var height := if init == [] then start else init[|init| - 1].height;
      assert e in es;
      RunConservation(t, start, init);
      var mid := IndexAll(t, init).value;
      TotalForward(mid, height, e.height);
      BelowLater(mid, height, e.height);
      IndexKeepsIds(mid, e);
      IndexRowsBelow(mid, e);
      Conservation(mid, e);
    }
  }

  lemma BelowLater(t: Tables, height: nat, later: nat)
    requires RowsBelow(t, height) && height <= later
    ensures RowsBelow(t, later)
  {
  }

  // ---------- Versions ----------

  /** An event as a change of the unstaked supply. */
  function UnstakedChange(e: Event): Change<Unstaked> {
    Change(e.height, s => if Moved(e).Ok? && UnstakedAfter(e, Moved(e).value, s).Ok?
                          then UnstakedAfter(e, Moved(e).value, s).value else s)
  }

  function UnstakedChanges(es: seq<Event>): seq<Change<Unstaked>> {
    if es == [] then []
    else
      var rest, e := UnstakedChanges(es[..|es| - 1]), es[|es| - 1];
      if e.Ignored() || e.RateDataChange? then rest else rest + [UnstakedChange(e)]
  }

  function StakedChange(e: Event): Change<Supply>
    requires e.Stakes()
  {
    Change(e.height, s => if Moved(e).Ok? && StakedAfter(e, Moved(e).value, s).Ok?
                          then StakedAfter(e, Moved(e).value, s).value else s)
  }

  function StakedChanges(es: seq<Event>, ik: IdentityKey): seq<Change<Supply>> {
    if es == [] then []
    else
      var rest, e := StakedChanges(es[..|es| - 1], ik), es[|es| - 1];
      if e.Stakes() && e.validator == ik then rest + [StakedChange(e)] else rest
  }

  lemma ReplayMore<T>(changes: seq<Change<T>>, c: Change<T>, default: T)
    ensures Replay(changes + [c], default)
            == Replay(changes, default)[c.height := c.f(Read(Replay(changes, default), c.height, default))]
  {
    assert (changes + [c])[..|changes|] == changes;
  }

  /** The unstaked table replays the events' changes, on top of whatever made the table they start from. */
  lemma {:induction false} UnstakedReplays(t: Tables, origin: seq<Change<Unstaked>>, es: seq<Event>)
    requires t.unstaked == Replay(origin, NONE) && IndexAll(t, es).Ok?
    ensures IndexAll(t, es).value.unstaked == Replay(origin + UnstakedChanges(es), NONE)
    decreases |es|
  {
    hide Moved, UnstakedAfter, StakedAfter, Replay, Read;
    if es == [] {
      assert origin + UnstakedChanges(es) == origin;
    } else {
      var init, e := es[..|es| - 1], es[|es| - 1];
      UnstakedReplays(t, origin, init);
      if !e.Ignored() && !e.RateDataChange? {
        ReplayMore(origin + UnstakedChanges(init), UnstakedChange(e), NONE);
        assert origin + UnstakedChanges(es) == origin + UnstakedChanges(init) + [UnstakedChange(e)];
      }
    }
  }

  function RowsOf(t: Tables, ik: IdentityKey): map<nat, Supply> {
    if ik in t.ids then Rows(t, t.ids[ik]) else map[]
  }

  lemma DefineRows(t: Tables, validator: IdentityKey, ik: IdentityKey)
    requires IdsOk(t)
    ensures RowsOf(Define(t, validator), ik) == RowsOf(t, ik)
    ensures RowsOf(t, validator) == Rows(t, Define(t, validator).ids[validator])
  {
  }

  lemma ModifyRows(t: Tables, e: Event, n: nat, ik: IdentityKey)
    requires IdsOk(t) && e.Stakes() && e.validator in t.ids && Moved(e) == Ok(n)
    requires ModifyStaked(t, t.ids[e.validator], e, n).Ok?
    ensures RowsOf(ModifyStaked(t, t.ids[e.validator], e, n).value, ik)
            == if e.validator == ik then NextRows(RowsOf(t, ik), e) else RowsOf(t, ik)
  {
    hide Moved, StakedAfter, Read;
  }

  /** A validator's rows after one of its events. */
  function NextRows(rows: map<nat, Supply>, e: Event): map<nat, Supply>
    requires e.Stakes()
  {
    var c := StakedChange(e);
    rows[c.height := c.f(Read(rows, c.height, DEFAULT))]
  }

  /** Indexing touches only the rows of the event's own validator. */
  lemma RowsOfNext(t: Tables, e: Event, ik: IdentityKey)
    requires IdsOk(t) && IndexSpec(t, e).Ok?
    ensures RowsOf(IndexSpec(t, e).value, ik)
            == if e.Stakes() && e.validator == ik then NextRows(RowsOf(t, ik), e) else RowsOf(t, ik)
  {
    hide Moved, ModifyUnstaked, ModifyStaked, Define, NextRows;
    if !e.Ignored() {
      var n := Moved(e).value;
      var t1 := if e.RateDataChange? then t else ModifyUnstaked(t, e, n).value;
      if !e.RateDataChange? { UnstakedFrame(t, e, n); }
      if e.Stakes() {
        DefineKeepsIds(t1, e.validator);
        DefineRows(t1, e.validator, ik);
        ModifyRows(Define(t1, e.validator), e, n, ik);
      }
    }
  }

  /** A validator's table replays the changes of its own events. */
  lemma {:induction false} StakedReplays(t: Tables, origin: seq<Change<Supply>>, es: seq<Event>, ik: IdentityKey)
    requires IdsOk(t) && RowsOf(t, ik) == Replay(origin, DEFAULT) && IndexAll(t, es).Ok?
    ensures IdsOk(IndexAll(t, es).value)
    ensures RowsOf(IndexAll(t, es).value, ik) == Replay(origin + StakedChanges(es, ik), DEFAULT)
    decreases |es|
  {
    hide IndexSpec, IdsOk, RowsOf, Replay, Read;
    if es == [] {
      assert origin + StakedChanges(es, ik) == origin;
    } else {
      var init, e := es[..|es| - 1], es[|es| - 1];
      StakedReplays(t, origin, init, ik);
      IndexKeepsIds(IndexAll(t, init).value, e);
      RowsOfNext(IndexAll(t, init).value, e, ik);
      if e.Stakes() && e.validator == ik {
        ReplayMore(origin + StakedChanges(init, ik), StakedChange(e), DEFAULT);
        assert origin + StakedChanges(es, ik) == origin + StakedChanges(init, ik) + [StakedChange(e)];
      }
    }
  }

  lemma {:induction false} ChangesInOrder(start: nat, es: seq<Event>, ik: IdentityKey)
    requires Ascending(start, es)
    ensures InOrder(UnstakedChanges(es)) && InOrder(StakedChanges(es, ik))
    ensures es != [] ==> forall c <- UnstakedChanges(es) :: c.height <= es[|es| - 1].height
    ensures es != [] ==> forall c <- StakedChanges(es, ik) :: c.height <= es[|es| - 1].height
    decreases |es|
  {
    hide UnstakedAfter, StakedAfter, Moved;
    if es != [] {
      var init := es[..|es| - 1];
      ChangesInOrder(start, init, ik);
      assert init != [] ==> init[|init| - 1].height <= es[|es| - 1].height;
    }
  }

  // ---------- The indexer ----------

  class Indexer {
    var unstaked: map<nat, Unstaked>
    var ids: map<IdentityKey, nat>
    var nextId: nat
    var staked: map<nat, map<nat, Supply>>

    constructor ()
      ensures State() == FRESH
    {
      unstaked, ids, nextId, staked := map[], map[], 1, map[];
    }

    function State(): Tables
      reads this
    {
      Tables(unstaked, ids, nextId, staked)
    }

    /** The existing identifier, or a new one. */
    method DefineValidator(ik: IdentityKey) returns (id: nat)
      modifies this`ids, this`nextId
      ensures State() == Define(old(State()), ik)
      ensures ik in ids && id == ids[ik]
    {
      if ik in ids {
        return ids[ik];
      }
      id := nextId;
      nextId := nextId + 1;
      ids := ids[ik := id];
    }

    method ModifyUnstakedRow(e: Event, n: nat) returns (r: Result<(), Failure>)
      modifies this`unstaked
      ensures r.Ok? <==> ModifyUnstaked(old(State()), e, n).Ok?
      ensures r.Ok? ==> State() == ModifyUnstaked(old(State()), e, n).value
      ensures r.Err? ==> State() == old(State())
    {
      if e.height >= I64 {
        return Err(Failed("height out of range"));
      }
      var current := Read(unstaked, e.height, NONE);
      var after := UnstakedAfter(e, n, current);
      if after.Err? {
        return Err(after.error);
      }
      if !after.value.Storable() {
        return Err(Failed("supply out of range"));
      }
      unstaked := unstaked[e.height := after.value];
      return Ok(());
    }

    method ModifyStakedRow(id: nat, e: Event, n: nat) returns (r: Result<(), Failure>)
      requires e.Stakes()
      modifies this`staked
      ensures r.Ok? <==> ModifyStaked(old(State()), id, e, n).Ok?
      ensures r.Ok? ==> State() == ModifyStaked(old(State()), id, e, n).value
      ensures r.Err? ==> State() == old(State())
    {
      if e.height >= I64 {
        return Err(Failed("height out of range"));
      }
      var rows := Rows(State(), id);
      var after := StakedAfter(e, n, Read(rows, e.height, DEFAULT));
      if after.Err? {
        return Err(after.error);
      }
      if !StorableSupply(after.value) {
        return Err(Failed("supply out of range"));
      }
      staked := staked[id := rows[e.height := after.value]];
      return Ok(());
    }

    /** One event. On an error the surrounding database transaction is about to be abandoned. */
    method Index(e: Event) returns (r: Result<(), Failure>)
      modifies this
      ensures r.Ok? <==> IndexSpec(old(State()), e).Ok?
      ensures r.Ok? ==> State() == IndexSpec(old(State()), e).value
      ensures nextId >= old(nextId)
    {
      if e.Ignored() {
        return Ok(());
      }
      var moved := Moved(e);
      if moved.Err? {
        return Err(moved.error);
      }
      if !e.RateDataChange? {
        r := ModifyUnstakedRow(e, moved.value);
        if r.Err? {
          return;
        }
      }
      if e.Stakes() {
        var id := DefineValidator(e.validator);
        r := ModifyStakedRow(id, e, moved.value);
      } else {
        r := Ok(());
      }
    }

    /** A batch is one transaction: an error undoes all of it, except that given identifiers are not given again. */
    method IndexBatch(es: seq<Event>) returns (r: Result<(), Failure>)
      modifies this
      ensures r.Ok? <==> IndexAll(old(State()), es).Ok?
      ensures r.Ok? ==> State() == IndexAll(old(State()), es).value
      ensures r.Err? ==> State() == old(State()).(nextId := nextId) && nextId >= old(nextId)
    {
      var savedUnstaked, savedIds, savedStaked := unstaked, ids, staked;
      ghost var t := State();
      for i := 0 to |es|
        invariant IndexAll(t, es[..i]) == Ok(State())
        invariant nextId >= t.nextId
      {
        assert es[..i + 1][..i] == es[..i];
        r := Index(es[i]);
        if r.Err? {
          FailedPrefix(t, es, i);
          unstaked, ids, staked := savedUnstaked, savedIds, savedStaked;
          return;
        }
      }
      assert es[..|es|] == es;
      r := Ok(());
    }
  }

  /** The order of the genesis code: mints, the unstaked row, then validator by validator. */
  method SeedGenesis(allocations: seq<Allocation>, vs: seq<GenesisValidator>) returns (r: Result<Tables, Failure>)
    requires forall a <- allocations :: a.amount < U128
    ensures r.Ok? <==> GenesisSpec(allocations, vs).Ok?
    ensures r.Ok? ==> r == GenesisSpec(allocations, vs)
  {
    var mints := ContentMints(allocations);
    var mint := if STAKING_TOKEN in mints then mints[STAKING_TOKEN] else 0;
    if mint >= I64 {
      return Err(Failed("supply out of range"));
    }
    var t := FRESH.(unstaked := map[0 := Unstaked(mint, 0, 0, 0, 0)]);
    ghost var t0 := t;
    for i := 0 to |vs|
      invariant SeedValidators(t0, allocations, vs[..i]) == Ok(t)
    {
      assert vs[..i + 1][..i] == vs[..i];
      var amount := if vs[i].token in mints then mints[vs[i].token] else 0;
      assert amount == MintOf(allocations, vs[i].token);
      if amount >= I64 {
        FailedSeed(t0, allocations, vs, i);
        return Err(Failed("amount out of range"));
      }
      t := Define(t, vs[i].validator);
      var id := t.ids[vs[i].validator];
      var row := AddUm(DEFAULT, amount);
      if row.Err? || !StorableSupply(row.value) {
        FailedSeed(t0, allocations, vs, i);
        return Err(Failed("supply out of range"));
      }
      t := t.(staked := t.staked[id := Rows(t, id)[0 := row.value]]);
    }
    assert vs[..|vs|] == vs;
    r := Ok(t);
  }

  lemma {:induction false} FailedSeed(t: Tables, allocations: seq<Allocation>, vs: seq<GenesisValidator>, i: nat)
    requires i < |vs| && SeedValidators(t, allocations, vs[..i]).Ok?
    requires SeedValidator(SeedValidators(t, allocations, vs[..i]).value, allocations, vs[i]).Err?
    ensures SeedValidators(t, allocations, vs).Err?
    decreases |vs|
  {
    hide SeedValidator;
    var init := vs[..|vs| - 1];
    if i < |init| {
      assert init[..i] == vs[..i];
      FailedSeed(t, allocations, init, i);
    }
  }

  /** A batch fails with its first failing event. */
  lemma {:induction false} FailedPrefix(t: Tables, es: seq<Event>, i: nat)
    requires i < |es| && IndexAll(t, es[..i]).Ok? && IndexSpec(IndexAll(t, es[..i]).value, es[i]).Err?
    ensures IndexAll(t, es).Err?
    decreases |es|
  {
    hide IndexSpec;
    var init := es[..|es| - 1];
    if i < |init| {
      assert init[..i] == es[..i];
      FailedPrefix(t, init, i);
    }
  }

  // ---------- Genesis ----------

  datatype Allocation = Allocation(asset: AssetId, amount: nat)

  datatype GenesisValidator = GenesisValidator(validator: IdentityKey, token: AssetId)

  /** What genesis mints of an asset. Amounts add up modulo two to the 128. */
  function MintOf(allocations: seq<Allocation>, asset: AssetId): nat {
    if allocations == [] then 0
    else
      var rest, a := MintOf(allocations[..|allocations| - 1], asset), allocations[|allocations| - 1];
      if a.asset == asset then WrapU128(rest + a.amount) else rest
  }

  function AllocatedOf(allocations: seq<Allocation>, asset: AssetId): nat {
    if allocations == [] then 0
    else
      var a := allocations[0];
      (if a.asset == asset then a.amount else 0) + AllocatedOf(allocations[1..], asset)
  }

  /** The mint of an asset is the sum of its allocations, modulo two to the 128. */
  lemma {:induction false} MintIsSum(allocations: seq<Allocation>, asset: AssetId)
    ensures MintOf(allocations, asset) == AllocatedOf(allocations, asset) % U128
    decreases |allocations|
  {
    if allocations != [] {
      var init, a := allocations[..|allocations| - 1], allocations[|allocations| - 1];
      MintIsSum(init, asset);
      AllocatedMore(init, a, asset);
      assert allocations == init + [a];
      if a.asset == asset { SumWraps(AllocatedOf(init, asset), a.amount); }
    }
  }

  lemma SumWraps(sum: nat, amount: nat)
    ensures WrapU128(sum % U128 + amount) == (sum + amount) % U128
  {
  }

  lemma {:induction false} AllocatedMore(allocations: seq<Allocation>, a: Allocation, asset: AssetId)
    ensures AllocatedOf(allocations + [a], asset)
            == AllocatedOf(allocations, asset) + if a.asset == asset then a.amount else 0
  {
    if allocations == [] {
      assert [] + [a] == [a] && [a][1..] == [];
    } else {
      AllocatedMore(allocations[1..], a, asset);
      assert (allocations + [a])[1..] == allocations[1..] + [a];
    }
  }

  /** All mints, one allocation after the other. */
  method ContentMints(allocations: seq<Allocation>) returns (mints: map<AssetId, nat>)
    requires forall a <- allocations :: a.amount < U128
    ensures forall asset :: (if asset in mints then mints[asset] else 0) == MintOf(allocations, asset)
  {
    mints := map[];
    for i := 0 to |allocations|
      invariant forall asset :: (if asset in mints then mints[asset] else 0) == MintOf(allocations[..i], asset)
    {
      var a := allocations[i];
      assert allocations[..i + 1][..i] == allocations[..i];
      assert WrapU128(0 + a.amount) == a.amount;
      mints := mints[a.asset := if a.asset in mints then WrapU128(mints[a.asset] + a.amount) else a.amount];
    }
    assert allocations[..|allocations|] == allocations;
  }

  /** At the genesis ratio of one to one, a validator starts with exactly as many tokens as native tokens. */
  lemma GenesisOneToOne(amount: nat)
    requires amount < I64
    ensures AddUm(DEFAULT, amount) == Ok(Supply(amount, amount, BPS_SQUARED))
  {
    hide AddUm;
    AddUmExact(DEFAULT, amount);
    IntegerDivision.DivUnique(amount * BPS_SQUARED, BPS_SQUARED, amount);
  }

  /** One genesis validator: its row at height zero replaces any other. */
  function SeedValidator(t: Tables, allocations: seq<Allocation>, v: GenesisValidator): Result<Tables, Failure> {
    var amount := Convert(MintOf(allocations, v.token), I64);
    if amount.Err? then Err(amount.error)
    else
      var t2 := Define(t, v.validator);
      var id := t2.ids[v.validator];
      var row := AddUm(DEFAULT, amount.value);
      if row.Err? then Err(row.error)
      else if !StorableSupply(row.value) then Err(Failed("supply out of range"))
      else Ok(t2.(staked := t2.staked[id := Rows(t2, id)[0 := row.value]]))
  }

  function SeedValidators(t: Tables, allocations: seq<Allocation>, vs: seq<GenesisValidator>): Result<Tables, Failure> {
    if vs == [] then Ok(t)
    else
      var r := SeedValidators(t, allocations, vs[..|vs| - 1]);
      if r.Err? then r else SeedValidator(r.value, allocations, vs[|vs| - 1])
  }

  /** The whole genesis supply, from its allocations, which include the community pool's. */
  function GenesisSpec(allocations: seq<Allocation>, vs: seq<GenesisValidator>): Result<Tables, Failure> {
    var mint := MintOf(allocations, STAKING_TOKEN);
    if mint >= I64 then Err(Failed("supply out of range"))
    else SeedValidators(FRESH.(unstaked := map[0 := Unstaked(mint, 0, 0, 0, 0)]), allocations, vs)
  }

  /** Genesis is accepted exactly if every amount it records fits a signed 64-bit integer. */
  lemma {:induction false} GenesisAccepted(allocations: seq<Allocation>, vs: seq<GenesisValidator>)
    ensures GenesisSpec(allocations, vs).Ok? <==>
              && AllocatedOf(allocations, STAKING_TOKEN) % U128 < I64
              && forall v <- vs :: AllocatedOf(allocations, v.token) % U128 < I64
    decreases |vs|
  {
    hide AllocatedOf, MintOf;
    MintIsSum(allocations, STAKING_TOKEN);
    if vs != [] {
      var init, v := vs[..|vs| - 1], vs[|vs| - 1];
      GenesisAccepted(allocations, init);
      MintIsSum(allocations, v.token);
      if MintOf(allocations, v.token) < I64 { GenesisOneToOne(MintOf(allocations, v.token)); }
      hide AddUm;
      assert vs == init + [v];
    }
  }

  predicate Listed(vs: seq<GenesisValidator>, ik: IdentityKey) {
    exists v <- vs :: v.validator == ik
  }

  /** What genesis gives to the validators. An entry counts only if its key is not listed again later. */
  function MintedToValidators(allocations: seq<Allocation>, vs: seq<GenesisValidator>): nat {
    if vs == [] then 0
    else
      (if Listed(vs[1..], vs[0].validator) then 0 else MintOf(allocations, vs[0].token))
      + MintedToValidators(allocations, vs[1..])
  }

  /** What a key's last entry gives it. */
  function LastMint(allocations: seq<Allocation>, vs: seq<GenesisValidator>, ik: IdentityKey): nat {
    if vs == [] then 0
    else if vs[|vs| - 1].validator == ik then MintOf(allocations, vs[|vs| - 1].token)
    else LastMint(allocations, vs[..|vs| - 1], ik)
  }

  lemma {:induction false} LastMintFront(allocations: seq<Allocation>, vs: seq<GenesisValidator>, ik: IdentityKey)
    requires vs != []
    ensures LastMint(allocations, vs, ik)
            == if Listed(vs[1..], ik) then LastMint(allocations, vs[1..], ik)
               else if vs[0].validator == ik then MintOf(allocations, vs[0].token) else 0
    decreases |vs|
  {
    hide MintOf;
    if |vs| > 1 {
      var last := vs[|vs| - 1];
      assert last == vs[1..][|vs| - 2];
      assert vs[1..][..|vs| - 2] == vs[..|vs| - 1][1..];
      assert vs[1..] == vs[1..][..|vs| - 2] + [last];
      if last.validator != ik { LastMintFront(allocations, vs[..|vs| - 1], ik); }
    }
  }

  /** A further entry replaces what its key was given before. */
  lemma {:induction false} MintedMore(allocations: seq<Allocation>, vs: seq<GenesisValidator>, v: GenesisValidator)
    ensures MintedToValidators(allocations, vs + [v])
            == MintedToValidators(allocations, vs) + MintOf(allocations, v.token)
               - LastMint(allocations, vs, v.validator)
  {
    hide MintOf;
    if vs != [] {
      var rest := vs[1..];
      MintedMore(allocations, rest, v);
      LastMintFront(allocations, vs, v.validator);
      assert (vs + [v])[1..] == rest + [v];
      ListedMore(rest, v, vs[0].validator);
      if !Listed(rest, v.validator) { NotListed(allocations, rest, v.validator); }
    }
  }

  lemma ListedMore(vs: seq<GenesisValidator>, v: GenesisValidator, ik: IdentityKey)
    ensures Listed(vs + [v], ik) <==> Listed(vs, ik) || v.validator == ik
  {
    assert v in vs + [v];
    assert forall x <- vs :: x in vs + [v];
  }

  lemma {:induction false} NotListed(allocations: seq<Allocation>, vs: seq<GenesisValidator>, ik: IdentityKey)
    requires !Listed(vs, ik)
    ensures LastMint(allocations, vs, ik) == 0
    decreases |vs|
  {
    if vs != [] {
      assert vs[|vs| - 1] in vs;
      assert forall v <- vs[..|vs| - 1] :: v in vs;
      NotListed(allocations, vs[..|vs| - 1], ik);
    }
  }

  /** A validator's rows after genesis. */
  function Seeded(allocations: seq<Allocation>, vs: seq<GenesisValidator>, ik: IdentityKey): map<nat, Supply> {
    var amount := LastMint(allocations, vs, ik);
    if Listed(vs, ik) then map[0 := Supply(amount, amount, BPS_SQUARED)] else map[]
  }

  lemma SeedTotal(t: Tables, allocations: seq<Allocation>, v: GenesisValidator)
    requires IdsOk(t) && SeedValidator(t, allocations, v).Ok?
    ensures var t', amount := SeedValidator(t, allocations, v).value, MintOf(allocations, v.token);
            && IdsOk(t') && t'.unstaked == t.unstaked && amount < I64
            && RowsOf(t', v.validator) == RowsOf(t, v.validator)[0 := Supply(amount, amount, BPS_SQUARED)]
            && (forall ik | ik != v.validator :: RowsOf(t', ik) == RowsOf(t, ik))
            && TotalAt(t', 0) == TotalAt(t, 0) + amount - Read(RowsOf(t, v.validator), 0, DEFAULT).um
            && (RowsStorable(t) ==> RowsStorable(t')) && (RowsBelow(t, 0) ==> RowsBelow(t', 0))
  {
    var amount := MintOf(allocations, v.token);
    var row := Supply(amount, amount, BPS_SQUARED);
    GenesisOneToOne(amount);
    var t2 := Define(t, v.validator);
    var id := t2.ids[v.validator];
    assert SeedValidator(t, allocations, v) == Ok(t2.(staked := t2.staked[id := Rows(t, id)[0 := row]])) && amount < I64
    by {
      hide AddUm, MintOf, IdsOk, RowsStorable, RowsBelow;
    }
    hide SeedValidator, AddUm, MintOf, Define;
    DefineFrame(t, v.validator);
    DefineKeepsIds(t, v.validator);
    SeedRows(t, v.validator, row);
    SeedSum(t, v.validator, row);
    if RowsStorable(t) { StorableRow(t2, id, 0, row); }
  }

  lemma SeedRows(t: Tables, validator: IdentityKey, row: Supply)
    requires IdsOk(t)
    ensures var t2 := Define(t, validator);
            var t' := t2.(staked := t2.staked[t2.ids[validator] := Rows(t, t2.ids[validator])[0 := row]]);
            && IdsOk(t') && (RowsBelow(t, 0) ==> RowsBelow(t', 0))
            && RowsOf(t', validator) == RowsOf(t, validator)[0 := row]
            && forall ik | ik != validator :: RowsOf(t', ik) == RowsOf(t, ik)
  {
    DefineKeepsIds(t, validator);
    forall ik | ik != validator ensures RowsOf(Define(t, validator), ik) == RowsOf(t, ik) {
      DefineRows(t, validator, ik);
    }
    DefineRows(t, validator, validator);
    hide IdsOk, RowsBelow;
    var t2 := Define(t, validator);
    PutRow(t2, validator, RowsOf(t, validator)[0 := row]);
  }

  /** Replacing a validator's rows. */
  lemma PutRow(t: Tables, validator: IdentityKey, rows: map<nat, Supply>)
    requires IdsOk(t) && validator in t.ids
    ensures var t' := t.(staked := t.staked[t.ids[validator] := rows]);
            && IdsOk(t') && RowsOf(t', validator) == rows
            && (RowsBelow(t, 0) && (forall h <- rows :: h == 0 || h in RowsOf(t, validator)) ==> RowsBelow(t', 0))
            && forall ik | ik != validator :: RowsOf(t', ik) == RowsOf(t, ik)
  {
  }

  lemma SeedSum(t: Tables, validator: IdentityKey, row: Supply)
    requires IdsOk(t)
    ensures var t2 := Define(t, validator);
            var t' := t2.(staked := t2.staked[t2.ids[validator] := Rows(t, t2.ids[validator])[0 := row]]);
            TotalAt(t', 0) == TotalAt(t, 0) + row.um - Read(RowsOf(t, validator), 0, DEFAULT).um
  {
    DefineKeepsIds(t, validator);
    DefineFrame(t, validator);
    DefineRows(t, validator, validator);
    var t2 := Define(t, validator);
    var id := t2.ids[validator];
    StakedUpdate(t.staked, id, Rows(t, id)[0 := row], t2.nextId, 0);
    if validator !in t.ids { StakedMore(t.staked, t.nextId, 0); }
    UmOf(t, id, 0);
    WrittenRow(Rows(t, id), 0, row);
    hide Read, Staked, Rows;
  }

  /** Genesis accounts for everything minted, the staking token unstaked and delegation tokens one to one, and leaves
      every listed validator one version, at height zero. */
  lemma {:induction false} GenesisTotal(allocations: seq<Allocation>, vs: seq<GenesisValidator>)
    requires GenesisSpec(allocations, vs).Ok?
    ensures var t := GenesisSpec(allocations, vs).value;
            && IdsOk(t) && RowsStorable(t) && RowsBelow(t, 0)
            && t.unstaked == map[0 := Unstaked(MintOf(allocations, STAKING_TOKEN), 0, 0, 0, 0)]
            && (forall ik :: RowsOf(t, ik) == Seeded(allocations, vs, ik))
            && TotalAt(t, 0) == MintOf(allocations, STAKING_TOKEN) + MintedToValidators(allocations, vs)
    decreases |vs|
  {
    hide SeedValidator, MintOf, IdsOk, TotalAt, RowsOf, RowsStorable, RowsBelow, MintedToValidators, Read;
    if vs == [] {
      GenesisStart(MintOf(allocations, STAKING_TOKEN));
      assert MintedToValidators(allocations, vs) == 0 by { NothingMinted(allocations); }
    } else {
      var init, v := vs[..|vs| - 1], vs[|vs| - 1];
      assert vs == init + [v];
      GenesisTotal(allocations, init);
      var t := GenesisSpec(allocations, init).value;
      SeedTotal(t, allocations, v);
      MintedMore(allocations, init, v);
      SeededUm(allocations, init, v.validator);
      hide GenesisSpec;
      forall ik ensures RowsOf(SeedValidator(t, allocations, v).value, ik) == Seeded(allocations, vs, ik) {
        ListedMore(init, v, ik);
      }
    }
  }

  lemma NothingMinted(allocations: seq<Allocation>)
    ensures MintedToValidators(allocations, []) == 0
  {
  }

  lemma SeededUm(allocations: seq<Allocation>, vs: seq<GenesisValidator>, ik: IdentityKey)
    ensures Read(Seeded(allocations, vs, ik), 0, DEFAULT).um == LastMint(allocations, vs, ik)
  {
    if !Listed(vs, ik) { NotListed(allocations, vs, ik); }
  }

  lemma GenesisStart(mint: nat)
    requires mint < I64
    ensures var t := FRESH.(unstaked := map[0 := Unstaked(mint, 0, 0, 0, 0)]);
            && IdsOk(t) && TotalAt(t, 0) == mint && RowsStorable(t) && RowsBelow(t, 0)
            && forall ik :: RowsOf(t, ik) == map[]
  {
    assert Staked(map[], 1, 0) == Staked(map[], 0, 0);
  }

  // ---------- Whole runs from genesis ----------

  /** From genesis on, the total is exactly what genesis, rewards and revaluations made, less what wrapped rewards
      lose. */
  lemma TotalFromGenesis(allocations: seq<Allocation>, vs: seq<GenesisValidator>, es: seq<Event>)
    requires GenesisSpec(allocations, vs).Ok? && IndexAll(GenesisSpec(allocations, vs).value, es).Ok?
    requires Ascending(0, es) && forall e <- es :: e.Valid()
    ensures var genesis, height := GenesisSpec(allocations, vs).value, if es == [] then 0 else es[|es| - 1].height;
            TotalAt(IndexAll(genesis, es).value, height)
            == MintOf(allocations, STAKING_TOKEN) + MintedToValidators(allocations, vs)
               + MintedBy(genesis, es) - U64 * WrappedRewards(genesis, es)
  {
    hide *;
    GenesisTotal(allocations, vs);
    RunConservation(GenesisSpec(allocations, vs).value, 0, es);
  }

  /** The genesis rows as changes of empty tables. */
  function UnstakedOrigin(allocations: seq<Allocation>): Change<Unstaked> {
    var mint := MintOf(allocations, STAKING_TOKEN);
    Change(0, _ => Unstaked(mint, 0, 0, 0, 0))
  }

  function StakedOrigin(allocations: seq<Allocation>, vs: seq<GenesisValidator>, ik: IdentityKey): seq<Change<Supply>> {
    var amount := LastMint(allocations, vs, ik);
    if Listed(vs, ik) then [Change(0, _ => Supply(amount, amount, BPS_SQUARED))] else []
  }

  /** With events in height order, reading either table at any height gives genesis and exactly the events at or below
      that height. */
  lemma VersionsAreFolds(allocations: seq<Allocation>, vs: seq<GenesisValidator>, es: seq<Event>, ik: IdentityKey,
                         height: nat)
    requires GenesisSpec(allocations, vs).Ok? && IndexAll(GenesisSpec(allocations, vs).value, es).Ok?
    requires Ascending(0, es)
    ensures var t := IndexAll(GenesisSpec(allocations, vs).value, es).value;
            && Read(t.unstaked, height, NONE)
               == Fold(Ledger.UpTo([UnstakedOrigin(allocations)] + UnstakedChanges(es), height), NONE)
            && Read(RowsOf(t, ik), height, DEFAULT)
               == Fold(Ledger.UpTo(StakedOrigin(allocations, vs, ik) + StakedChanges(es, ik), height), DEFAULT)
  {
    hide *;
    var genesis := GenesisSpec(allocations, vs).value;
    GenesisTotal(allocations, vs);
    OriginsReplay(allocations, vs, ik);
    ChangesInOrder(0, es, ik);
    var unstaked, staked := [UnstakedOrigin(allocations)], StakedOrigin(allocations, vs, ik);
    UnstakedReplays(genesis, unstaked, es);
    StakedReplays(genesis, staked, es, ik);
    OriginFirst(unstaked, UnstakedChanges(es));
    OriginFirst(staked, StakedChanges(es, ik));
    ReadIsFold(unstaked + UnstakedChanges(es), NONE, height);
    ReadIsFold(staked + StakedChanges(es, ik), DEFAULT, height);
  }

  lemma OriginsReplay(allocations: seq<Allocation>, vs: seq<GenesisValidator>, ik: IdentityKey)
    ensures var unstaked, staked := [UnstakedOrigin(allocations)], StakedOrigin(allocations, vs, ik);
            && Replay(unstaked, NONE) == map[0 := Unstaked(MintOf(allocations, STAKING_TOKEN), 0, 0, 0, 0)]
            && Replay(staked, DEFAULT) == Seeded(allocations, vs, ik)
            && unstaked[0].height == 0 && |staked| <= 1 && forall c <- staked :: c.height == 0
  {
    hide MintOf, LastMint, Listed, Read;
    var unstaked, staked := [UnstakedOrigin(allocations)], StakedOrigin(allocations, vs, ik);
    assert unstaked[..0] == [] && (staked != [] ==> staked[..0] == []);
  }

  lemma OriginFirst<T>(origin: seq<Change<T>>, changes: seq<Change<T>>)
    requires InOrder(changes) && |origin| <= 1 && forall c <- origin :: c.height == 0
    ensures InOrder(origin + changes)
  {
  }

  /** A reward that is accepted and lost: it takes the only native token with it. */
  lemma RewardLost()
    ensures var t, e := FRESH.(unstaked := map[0 := Unstaked(1, 0, 0, 0, 0)]), FundingStreamReward(0, U64 - 1);
            && e.Valid() && !RewardFits(t, e)
            && IndexSpec(t, e) == Ok(t.(unstaked := map[0 := Unstaked(0, 0, 0, 0, 0)]))
  {
    var t, e := FRESH.(unstaked := map[0 := Unstaked(1, 0, 0, 0, 0)]), FundingStreamReward(0, U64 - 1);
    assert Read(t.unstaked, 0, NONE) == Unstaked(1, 0, 0, 0, 0);
    assert Wrap(1 + (U64 - 1)) == 0;
    assert ModifyUnstaked(t, e, U64 - 1).value.unstaked == map[0 := Unstaked(0, 0, 0, 0, 0)];
  }
}
