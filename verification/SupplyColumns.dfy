/** Each column of the supply indexer's tables, from the events' own fields. Differences of balances wrap at 128 bits,
    and unsigned columns at 64. */
module SupplyColumns {
  import opened Prelude
  import opened DelegatedSupply
  import opened Ledger
  import opened SupplyIndex
  import IntegerDivision

  // ---------- What an event does to each column ----------

  function FeesOf(e: Event): int {
    if e.BlockFees? && e.asset == STAKING_TOKEN then e.amount else 0
  }

  /** What arbitrage of the staking token gained. */
  function ArbOf(e: Event): int {
    if e.DexArb? && e.inputAsset == STAKING_TOKEN && e.outputAsset == STAKING_TOKEN then
      (e.output - e.input) % (U128 as int)
    else
      0
  }

  /** Credits less debits. */
  function AuctionOf(e: Event): int {
    match e
    case AuctionCredit(_, asset, previous, next) =>
      if asset == STAKING_TOKEN then (next - previous) % (U128 as int) else 0
    case AuctionDebit(_, asset, previous, next) =>
      if asset == STAKING_TOKEN then -((previous - next) % (U128 as int)) else 0
    case _ => 0
  }

  /** Debits less credits. */
  function DexOf(e: Event): int {
    match e
    case DexCredit(_, asset, previous, next) =>
      if asset == STAKING_TOKEN then -((next - previous) % (U128 as int)) else 0
    case DexDebit(_, asset, previous, next) =>
      if asset == STAKING_TOKEN then (previous - next) % (U128 as int) else 0
    case _ => 0
  }

  /** What comes from validators and rewards, less what goes to the other components. */
  function UmOf(e: Event): int {
    match e
    case Delegate(_, _, amount) => 0 - amount
    case Undelegate(_, _, amount) => amount
    case FundingStreamReward(_, amount) => amount
    case _ => DexOf(e) - AuctionOf(e) - ArbOf(e) - FeesOf(e)
  }

  /** The sum over the events at or below a height. */
  function SumUpTo(es: seq<Event>, height: nat, f: Event -> int): int {
    if es == [] then 0
    else
      var e := es[|es| - 1];
      SumUpTo(es[..|es| - 1], height, f) + if e.height <= height then f(e) else 0
  }

  /** The row has these amounts, the unsigned ones modulo two to the 64. */
  predicate HasColumns(s: Unstaked, um: int, auction: int, dex: int, arb: int, fees: int) {
    && s.um == um % (U64 as int) && s.auction == auction && s.dex == dex
    && s.arb == arb % (U64 as int) && s.fees == fees % (U64 as int)
  }

  lemma ModAdd(a: int, n: int)
    ensures Wrap(a % (U64 as int) + n) == (a + n) % (U64 as int)
  {
  }

  lemma EventColumns(e: Event, s: Unstaked, um: int, auction: int, dex: int, arb: int, fees: int)
    requires HasColumns(s, um, auction, dex, arb, fees) && !e.Ignored() && Moved(e).Ok?
    requires UnstakedAfter(e, Moved(e).value, s).Ok?
    ensures HasColumns(UnstakedAfter(e, Moved(e).value, s).value, um + UmOf(e), auction + AuctionOf(e), dex + DexOf(e),
                       arb + ArbOf(e), fees + FeesOf(e))
  {
    hide Wrap;
    var n: int := Moved(e).value;
    ModAdd(um, n);
    ModAdd(um, 0 - n);
    ModAdd(arb, n);
    ModAdd(fees, n);
  }

  lemma IgnoredColumns(e: Event)
    requires e.Ignored() || e.RateDataChange?
    ensures UmOf(e) == AuctionOf(e) == DexOf(e) == ArbOf(e) == FeesOf(e) == 0
  {
  }

  // ---------- Whole runs ----------

  /** A read at this height has what genesis minted and what the events up to it made of every column. */
  predicate ColumnsAt(t: Tables, mint: nat, es: seq<Event>, height: nat) {
    HasColumns(Read(t.unstaked, height, NONE),
               mint + SumUpTo(es, height, UmOf), SumUpTo(es, height, AuctionOf), SumUpTo(es, height, DexOf),
               SumUpTo(es, height, ArbOf), SumUpTo(es, height, FeesOf))
  }

  lemma {:induction false} SumLater(es: seq<Event>, height: nat, later: nat, f: Event -> int)
    requires height <= later && forall e <- es :: e.height <= height
    ensures SumUpTo(es, later, f) == SumUpTo(es, height, f)
    decreases |es|
  {
    if es != [] {
      assert es[|es| - 1] in es && forall e <- es[..|es| - 1] :: e in es;
      SumLater(es[..|es| - 1], height, later, f);
    }
  }

  lemma ColumnsLater(t: Tables, mint: nat, es: seq<Event>, height: nat, later: nat)
    requires ColumnsAt(t, mint, es, height) && height <= later
    requires (forall e <- es :: e.height <= height) && forall h <- t.unstaked :: h <= height
    ensures ColumnsAt(t, mint, es, later)
  {
    SumLater(es, height, later, UmOf);
    SumLater(es, height, later, AuctionOf);
    SumLater(es, height, later, DexOf);
    SumLater(es, height, later, ArbOf);
    SumLater(es, height, later, FeesOf);
    ReadForward(t.unstaked, height, later);
    hide SumUpTo, Latest;
  }

  lemma SumMore(es: seq<Event>, e: Event, height: nat, f: Event -> int)
    ensures SumUpTo(es + [e], height, f) == SumUpTo(es, height, f) + if e.height <= height then f(e) else 0
  {
    assert (es + [e])[..|es|] == es;
  }

  lemma ColumnsMore(es: seq<Event>, e: Event, height: nat)
    ensures SumUpTo(es + [e], height, UmOf) == SumUpTo(es, height, UmOf) + if e.height <= height then UmOf(e) else 0
    ensures SumUpTo(es + [e], height, AuctionOf)
            == SumUpTo(es, height, AuctionOf) + if e.height <= height then AuctionOf(e) else 0
    ensures SumUpTo(es + [e], height, DexOf) == SumUpTo(es, height, DexOf) + if e.height <= height then DexOf(e) else 0
    ensures SumUpTo(es + [e], height, ArbOf) == SumUpTo(es, height, ArbOf) + if e.height <= height then ArbOf(e) else 0
    ensures SumUpTo(es + [e], height, FeesOf)
            == SumUpTo(es, height, FeesOf) + if e.height <= height then FeesOf(e) else 0
  {
    SumMore(es, e, height, UmOf);
    SumMore(es, e, height, AuctionOf);
    SumMore(es, e, height, DexOf);
    SumMore(es, e, height, ArbOf);
    SumMore(es, e, height, FeesOf);
  }

  /** One more accepted event, not below the others. */
  lemma StepColumns(t: Tables, mint: nat, es: seq<Event>, e: Event, height: nat)
    requires IndexSpec(t, e).Ok? && ColumnsAt(t, mint, es, height) && ColumnsAt(t, mint, es, e.height)
    requires (forall x <- es :: x.height <= e.height) && forall h <- t.unstaked :: h <= e.height
    ensures ColumnsAt(IndexSpec(t, e).value, mint, es + [e], height)
  {
    hide SumUpTo, UmOf, AuctionOf, DexOf, ArbOf, FeesOf, Moved, UnstakedAfter, StakedAfter, Read, HasColumns;
    ColumnsMore(es, e, height);
    if e.Ignored() || e.RateDataChange? {
      IgnoredColumns(e);
      SameUnstaked(t, e);
    } else {
      NewUnstaked(t, e);
      var s := Read(t.unstaked, e.height, NONE);
      var after := UnstakedAfter(e, Moved(e).value, s).value;
      if height < e.height {
        EarlierRead(t.unstaked, e.height, after, height);
      } else {
        ColumnsLater(t, mint, es, e.height, height);
        LaterRead(t.unstaked, e.height, after, height);
        SumsLater(es, e.height, height);
        EventColumns(e, s, mint + SumUpTo(es, height, UmOf), SumUpTo(es, height, AuctionOf),
                     SumUpTo(es, height, DexOf), SumUpTo(es, height, ArbOf), SumUpTo(es, height, FeesOf));
      }
    }
  }

  lemma SumsLater(es: seq<Event>, height: nat, later: nat)
    requires height <= later && forall e <- es :: e.height <= height
    ensures SumUpTo(es, later, UmOf) == SumUpTo(es, height, UmOf)
    ensures SumUpTo(es, later, AuctionOf) == SumUpTo(es, height, AuctionOf)
    ensures SumUpTo(es, later, DexOf) == SumUpTo(es, height, DexOf)
    ensures SumUpTo(es, later, ArbOf) == SumUpTo(es, height, ArbOf)
    ensures SumUpTo(es, later, FeesOf) == SumUpTo(es, height, FeesOf)
  {
    SumLater(es, height, later, UmOf);
    SumLater(es, height, later, AuctionOf);
    SumLater(es, height, later, DexOf);
    SumLater(es, height, later, ArbOf);
    SumLater(es, height, later, FeesOf);
  }

  lemma SameUnstaked(t: Tables, e: Event)
    requires IndexSpec(t, e).Ok? && (e.Ignored() || e.RateDataChange?)
    ensures IndexSpec(t, e).value.unstaked == t.unstaked
  {
    hide Moved, StakedAfter, Read;
  }

  lemma NewUnstaked(t: Tables, e: Event)
    requires IndexSpec(t, e).Ok? && !e.Ignored() && !e.RateDataChange?
    ensures var s := Read(t.unstaked, e.height, NONE);
            && Moved(e).Ok? && UnstakedAfter(e, Moved(e).value, s).Ok?
            && IndexSpec(t, e).value.unstaked == t.unstaked[e.height := UnstakedAfter(e, Moved(e).value, s).value]
  {
    hide Moved, UnstakedAfter, StakedAfter, Read;
  }

  lemma EarlierRead(rows: map<nat, Unstaked>, at: nat, row: Unstaked, height: nat)
    requires height < at
    ensures Read(rows[at := row], height, NONE) == Read(rows, height, NONE)
  {
    WriteShows(rows, at, row, height);
  }

  lemma LaterRead(rows: map<nat, Unstaked>, at: nat, row: Unstaked, height: nat)
    requires at <= height && forall h <- rows :: h <= at
    ensures Read(rows[at := row], height, NONE) == row
  {
    WriteShows(rows, at, row, height);
  }

  /** From any genesis, after any accepted events in height order, every column of the version read at any height is
      what the fields of the events up to that height add up to. */
  lemma {:induction false} ColumnsFromGenesis(allocations: seq<Allocation>, vs: seq<GenesisValidator>, es: seq<Event>,
                                              height: nat)
    requires GenesisSpec(allocations, vs).Ok? && IndexAll(GenesisSpec(allocations, vs).value, es).Ok?
    requires Ascending(0, es)
    ensures var row := Read(IndexAll(GenesisSpec(allocations, vs).value, es).value.unstaked, height, NONE);
            && row.um == (MintOf(allocations, STAKING_TOKEN) + SumUpTo(es, height, UmOf)) % (U64 as int)
            && row.auction == SumUpTo(es, height, AuctionOf) && row.dex == SumUpTo(es, height, DexOf)
            && row.arb == SumUpTo(es, height, ArbOf) % (U64 as int)
            && row.fees == SumUpTo(es, height, FeesOf) % (U64 as int)
    decreases |es|
  {
    hide GenesisSpec, IndexSpec, SumUpTo, Read, UmOf, AuctionOf, DexOf, ArbOf, FeesOf, MintOf, RowsBelow;
    RunColumns(allocations, vs, es, height);
  }

  lemma {:induction false} RunColumns(allocations: seq<Allocation>, vs: seq<GenesisValidator>, es: seq<Event>,
                                      height: nat)
    requires GenesisSpec(allocations, vs).Ok? && IndexAll(GenesisSpec(allocations, vs).value, es).Ok?
    requires Ascending(0, es)
    ensures var t := IndexAll(GenesisSpec(allocations, vs).value, es).value;
            && ColumnsAt(t, MintOf(allocations, STAKING_TOKEN), es, height)
            && RowsBelow(t, if es == [] then 0 else es[|es| - 1].height)
    decreases |es|
  {
    hide GenesisSpec, IndexSpec, ColumnsAt, MintOf, RowsBelow;
    var genesis, mint := GenesisSpec(allocations, vs).value, MintOf(allocations, STAKING_TOKEN);
    if es == [] {
      GenesisTotal(allocations, vs);
      GenesisColumns(allocations, vs, height);
    } else {
      var init, e := es[..|es| - 1], es[|es| - 1];
      var mid := IndexAll(genesis, init).value;
      RunColumns(allocations, vs, init, height);
      RunColumns(allocations, vs, init, e.height);
      BelowLater(mid, if init == [] then 0 else init[|init| - 1].height, e.height);
      IndexRowsBelow(mid, e);
      BelowHeights(mid, e.height);
      StepColumns(mid, mint, init, e, height);
      assert es == init + [e];
    }
  }

  lemma BelowHeights(t: Tables, height: nat)
    requires RowsBelow(t, height)
    ensures forall h <- t.unstaked :: h <= height
  {
  }

  lemma GenesisColumns(allocations: seq<Allocation>, vs: seq<GenesisValidator>, height: nat)
    requires GenesisSpec(allocations, vs).Ok?
    ensures ColumnsAt(GenesisSpec(allocations, vs).value, MintOf(allocations, STAKING_TOKEN), [], height)
  {
    hide *;
    var mint := MintOf(allocations, STAKING_TOKEN);
    GenesisTotal(allocations, vs);
    GenesisMint(allocations, vs);
    GenesisRead(GenesisSpec(allocations, vs).value, mint, height);
  }

  lemma GenesisRead(t: Tables, mint: nat, height: nat)
    requires mint < I64 && t.unstaked == map[0 := Unstaked(mint, 0, 0, 0, 0)]
    ensures ColumnsAt(t, mint, [], height)
  {
    ReadForward(t.unstaked, 0, height);
    SmallColumn(mint);
  }

  lemma GenesisMint(allocations: seq<Allocation>, vs: seq<GenesisValidator>)
    requires GenesisSpec(allocations, vs).Ok?
    ensures MintOf(allocations, STAKING_TOKEN) < I64
  {
    hide SeedValidators;
  }

  // ---------- One validator's row ----------

  /** A delegation adds its amount and the tokens it buys, an undelegation takes its amount and the tokens it costs, and
      a new rate revalues what is there. */
  lemma StakedColumns(t: Tables, e: Event)
    requires IdsOk(t) && RowsStorable(t) && e.Valid() && e.Stakes() && IndexSpec(t, e).Ok?
    ensures var s := Read(RowsOf(t, e.validator), e.height, DEFAULT);
            var after := Read(RowsOf(IndexSpec(t, e).value, e.validator), e.height, DEFAULT);
            match e
            case Delegate(_, _, amount) =>
              && after.um == s.um + amount && after.rateBps2 == s.rateBps2
              && after.delUm == s.delUm + TokensMoved(s.rateBps2, amount)
            case Undelegate(_, _, amount) =>
              && after.um == s.um - amount && after.rateBps2 == s.rateBps2
              && after.delUm == s.delUm + TokensMoved(s.rateBps2, 0 - amount)
            case RateDataChange(_, _, rate) =>
              && after.um == s.delUm * rate / BPS_SQUARED - (if FallsShort(rate, s.delUm) then 1 else 0)
              && after.delUm == s.delUm && after.rateBps2 == rate
  {
    hide RowsOf, ModifyUnstaked, AddUm, ChangeRate, TokensMoved, FallsShort;
    RowsOfNext(t, e, e.validator);
    StakedRead(t, e);
    var s := Read(RowsOf(t, e.validator), e.height, DEFAULT);
    WrittenRow(RowsOf(t, e.validator), e.height, StakedChange(e).f(s));
    hide Read, IndexSpec;
    match e
    case Delegate(_, _, amount) => AddUmExact(s, amount);
    case Undelegate(_, _, amount) => AddUmExact(s, 0 - amount);
    case RateDataChange(_, _, rate) => ChangeRateExact(s, rate);
  }

  /** The row that an accepted event changes fits its columns, and changing it succeeds. */
  lemma StakedRead(t: Tables, e: Event)
    requires IdsOk(t) && RowsStorable(t) && e.Stakes() && IndexSpec(t, e).Ok?
    ensures var s := Read(RowsOf(t, e.validator), e.height, DEFAULT);
            StorableSupply(s) && Moved(e).Ok? && StakedAfter(e, Moved(e).value, s).Ok?
  {
    hide StakedAfter, Moved, Read;
    var t1 := if e.RateDataChange? then t else ModifyUnstaked(t, e, Moved(e).value).value;
    if !e.RateDataChange? { UnstakedFrame(t, e, Moved(e).value); }
    hide ModifyUnstaked;
    DefineRows(t1, e.validator, e.validator);
    if e.validator in t.ids { ReadStorable(t, t.ids[e.validator], e.height); } else { NoRows(e.height); }
  }

  lemma NoRows(height: nat)
    ensures Read(map[], height, DEFAULT) == DEFAULT
  {
    LatestIsGreatest<Supply>(map[], height);
  }

  // ---------- Which events are accepted ----------

  /** Events of other assets, and blocks without fees. */
  predicate Irrelevant(e: Event) {
    match e
    case AuctionCredit(_, asset, _, _) => asset != STAKING_TOKEN
    case AuctionDebit(_, asset, _, _) => asset != STAKING_TOKEN
    case DexCredit(_, asset, _, _) => asset != STAKING_TOKEN
    case DexDebit(_, asset, _, _) => asset != STAKING_TOKEN
    case DexArb(_, asset1, _, asset2, _) => asset1 != STAKING_TOKEN || asset2 != STAKING_TOKEN
    case BlockFees(_, asset, amount) => asset != STAKING_TOKEN || amount == 0
    case _ => false
  }

  /** The amount moved fits the integer type it is converted to. */
  predicate InRange(e: Event) {
    match e
    case Undelegate(_, _, amount) => amount < I64
    case Delegate(_, _, amount) => amount < I64
    case FundingStreamReward(_, amount) => amount < U64
    case RateDataChange(_, _, _) => true
    case AuctionCredit(_, _, previous, next) => (next - previous) % (U128 as int) < I64
    case AuctionDebit(_, _, previous, next) => (previous - next) % (U128 as int) < I64
    case DexCredit(_, _, previous, next) => (next - previous) % (U128 as int) < I64
    case DexDebit(_, _, previous, next) => (previous - next) % (U128 as int) < I64
    case DexArb(_, _, input, _, output) => (output - input) % (U128 as int) < U64
    case BlockFees(_, _, amount) => amount < U64
  }

  /** The columns that the event leaves fit signed 64-bit integers. */
  predicate ColumnsFit(s: Unstaked, e: Event) {
    && (s.um + UmOf(e)) % (U64 as int) < I64
    && (s.arb + ArbOf(e)) % (U64 as int) < I64 && (s.fees + FeesOf(e)) % (U64 as int) < I64
    && -(I64 as int) <= s.auction + AuctionOf(e) < I64 && -(I64 as int) <= s.dex + DexOf(e) < I64
  }

  predicate RowFits(s: Supply, e: Event)
    requires e.Stakes()
  {
    match e
    case Delegate(_, _, amount) => s.um + amount < I64 && s.delUm + TokensMoved(s.rateBps2, amount) < I64
    case Undelegate(_, _, amount) => amount <= s.um && s.delUm + TokensMoved(s.rateBps2, 0 - amount) >= 0
    case RateDataChange(_, _, rate) =>
      s.delUm * rate / BPS_SQUARED - (if FallsShort(rate, s.delUm) then 1 else 0) < I64 && rate < I64
  }

  /** An event is accepted exactly if it is irrelevant, or its height, its amount and what it leaves fit their types. */
  lemma AcceptedIff(t: Tables, e: Event)
    requires IdsOk(t) && RowsStorable(t) && e.Valid()
    ensures IndexSpec(t, e).Ok? <==>
              || Irrelevant(e)
              || (&& e.height < I64 && InRange(e)
                  && (e.RateDataChange? || ColumnsFit(Read(t.unstaked, e.height, NONE), e))
                  && (e.Stakes() ==> RowFits(Read(RowsOf(t, e.validator), e.height, DEFAULT), e)))
  {
    hide Read, RowsOf, IdsOk, RowsStorable, ColumnsFit, RowFits, UnstakedAfter, StakedAfter, InRange;
    assert Irrelevant(e) <==> e.Ignored();
    RangeIff(e);
    if !e.Ignored() && Moved(e).Ok? {
      var n := Moved(e).value;
      var s := Read(t.unstaked, e.height, NONE);
      ReadStorable(t, 0, e.height);
      UnstakedFits(e, n, s);
      if e.Stakes() { ChangedRow(t, e, n); }
    }
  }

  lemma RangeIff(e: Event)
    ensures !e.Ignored() ==> (Moved(e).Ok? <==> InRange(e))
  {
  }

  lemma UnstakedFits(e: Event, n: nat, s: Unstaked)
    requires s.Storable() && !e.Ignored() && Moved(e) == Ok(n)
    ensures !e.RateDataChange? ==>
              (UnstakedAfter(e, n, s).Ok? && UnstakedAfter(e, n, s).value.Storable() <==> ColumnsFit(s, e))
  {
    if !e.RateDataChange? { AfterColumns(e, n, s); }
    FitsWrapped(s, e);
    hide UmOf, AuctionOf, DexOf, ArbOf, FeesOf, Moved, ColumnsFit, Wrap, UnstakedAfter;
  }

  lemma AfterColumns(e: Event, n: nat, s: Unstaked)
    requires s.Storable() && !e.Ignored() && !e.RateDataChange? && Moved(e) == Ok(n)
    ensures UnstakedAfter(e, n, s).Ok? <==> IsI64(s.auction + AuctionOf(e)) && IsI64(s.dex + DexOf(e))
    ensures UnstakedAfter(e, n, s).Ok? ==>
              UnstakedAfter(e, n, s).value
              == Unstaked(Wrap(s.um + UmOf(e)), s.auction + AuctionOf(e), s.dex + DexOf(e), Wrap(s.arb + ArbOf(e)),
                          Wrap(s.fees + FeesOf(e)))
  {
    MovedColumns(e, n);
    SmallWrap(s.um);
    SmallWrap(s.arb);
    SmallWrap(s.fees);
    hide UmOf, AuctionOf, DexOf, ArbOf, FeesOf, Moved, Wrap;
  }

  lemma FitsWrapped(s: Unstaked, e: Event)
    ensures ColumnsFit(s, e) <==>
              && Wrap(s.um + UmOf(e)) < I64 && Wrap(s.arb + ArbOf(e)) < I64 && Wrap(s.fees + FeesOf(e)) < I64
              && -(I64 as int) <= s.auction + AuctionOf(e) < I64 && -(I64 as int) <= s.dex + DexOf(e) < I64
  {
    hide UmOf, AuctionOf, DexOf, ArbOf, FeesOf;
  }

  lemma SmallWrap(column: nat)
    requires column < I64
    ensures Wrap(column) == column
  {
  }

  lemma SmallColumn(column: nat)
    requires column < I64
    ensures (column + 0) % (U64 as int) == column
  {
  }

  /** What an event that moves n does to each column. */
  lemma MovedColumns(e: Event, n: nat)
    requires !e.Ignored() && Moved(e) == Ok(n)
    ensures FeesOf(e) == (if e.BlockFees? then n else 0) && ArbOf(e) == (if e.DexArb? then n else 0)
    ensures AuctionOf(e) == if e.AuctionCredit? then n else if e.AuctionDebit? then 0 - n else 0
    ensures DexOf(e) == if e.DexDebit? then n else if e.DexCredit? then 0 - n else 0
    ensures UmOf(e) == (if e.Undelegate? || e.FundingStreamReward? || e.AuctionDebit? || e.DexDebit? then n
                        else if e.RateDataChange? then 0 else 0 - n)
  {
  }

  lemma ChangedRow(t: Tables, e: Event, n: nat)
    requires IdsOk(t) && RowsStorable(t) && e.Valid() && e.Stakes() && Moved(e) == Ok(n)
    ensures var t1 := if e.RateDataChange? then Ok(t) else ModifyUnstaked(t, e, n);
            t1.Ok? ==>
              var t2 := Define(t1.value, e.validator);
              ModifyStaked(t2, t2.ids[e.validator], e, n).Ok?
              <==> e.height < I64 && RowFits(Read(RowsOf(t, e.validator), e.height, DEFAULT), e)
  {
    hide StakedAfter, Moved, Read, RowFits, StorableSupply, RowsStorable;
    var t1 := if e.RateDataChange? then Ok(t) else ModifyUnstaked(t, e, n);
    if t1.Ok? {
      if !e.RateDataChange? { UnstakedFrame(t, e, n); }
      hide ModifyUnstaked;
      DefineRows(t1.value, e.validator, e.validator);
      RowStorable(t, e.validator, e.height);
      StakedFits(e, n, Read(RowsOf(t, e.validator), e.height, DEFAULT));
    }
  }

  lemma RowStorable(t: Tables, ik: IdentityKey, height: nat)
    requires IdsOk(t) && RowsStorable(t)
    ensures StorableSupply(Read(RowsOf(t, ik), height, DEFAULT))
  {
    if ik in t.ids { ReadStorable(t, t.ids[ik], height); } else { NoRows(height); }
  }

  lemma StakedFits(e: Event, n: nat, s: Supply)
    requires StorableSupply(s) && e.Valid() && e.Stakes() && Moved(e) == Ok(n)
    ensures StakedAfter(e, n, s).Ok? && StorableSupply(StakedAfter(e, n, s).value) <==> RowFits(s, e)
  {
    hide AddUm, ChangeRate, TokensMoved, FallsShort;
    match e
    case Delegate(_, _, amount) =>
      AddUmExact(s, amount);
      MovedSign(s.rateBps2, amount);
    case Undelegate(_, _, amount) =>
      AddUmExact(s, 0 - amount);
      MovedSign(s.rateBps2, 0 - amount);
    case RateDataChange(_, _, rate) =>
      ChangeRateExact(s, rate);
  }

  /** Tokens move the same way as what they are paid with. */
  lemma MovedSign(rate: nat, delta: int)
    ensures delta >= 0 ==> TokensMoved(rate, delta) >= 0
    ensures delta <= 0 ==> TokensMoved(rate, delta) <= 0
  {
    if rate > 0 && delta >= 0 { IntegerDivision.DivBounds(delta * BPS_SQUARED, rate); }
  }
}
