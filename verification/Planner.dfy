/** The transaction planner: fee and change estimates, and the loop that adds spends until the transaction balances. */
module Planner {
  import opened Prelude

  type AssetId = nat

  // ---------- The list of actions ----------

  /** Gas is a vector of four costs. */
  datatype Gas = Gas(blockSpace: nat, compactBlockSpace: nat, verification: nat, execution: nat)
  {
    function Plus(g: Gas): Gas {
      Gas(blockSpace + g.blockSpace, compactBlockSpace + g.compactBlockSpace, verification + g.verification,
          execution + g.execution)
    }

    function Times(n: nat): Gas {
      Gas(n * blockSpace, n * compactBlockSpace, n * verification, n * execution)
    }

    predicate AtMost(g: Gas) {
      && blockSpace <= g.blockSpace && compactBlockSpace <= g.compactBlockSpace
      && verification <= g.verification && execution <= g.execution
    }
  }

  const NO_GAS := Gas(0, 0, 0, 0)
  const SPEND_GAS := Gas(160 + 192, 2 + 32, 1000, 10)
  const OUTPUT_GAS := Gas(128 + 240 + 192, 240, 1000, 10)

  /** An action by what it adds to each asset's balance and what gas it costs. */
  datatype Action = Action(balance: map<AssetId, int>, gas: Gas)

  datatype Fee = Fee(asset: AssetId, amount: nat)

  /** Change outputs are kept apart, one per asset. */
  datatype ActionList = ActionList(actions: seq<Action>, change: map<AssetId, nat>, fee: Fee)

  datatype FeeTier = Low | Medium | High
  {
    function Percent(): nat {
      match this
      case Low => 105
      case Medium => 130
      case High => 200
    }
  }

  /** The price of each kind of gas, per thousand, all paid in one asset. */
  datatype Pricing = Pricing(asset: AssetId, prices: Gas, tier: FeeTier)
  {
    function BaseFee(g: Gas): nat {
      prices.blockSpace * g.blockSpace / 1000 + prices.compactBlockSpace * g.compactBlockSpace / 1000
      + prices.verification * g.verification / 1000 + prices.execution * g.execution / 1000
    }

    function Estimate(g: Gas): nat {
      BaseFee(g) * tier.Percent() / 100
    }
  }

  lemma PriceMonotone(price: nat, m: nat, n: nat)
    requires m <= n
    ensures 0 <= price * m / 1000 <= price * n / 1000
  {
    assert price * m <= price * n;
  }

  /** More gas never costs less. */
  lemma EstimateMonotone(p: Pricing, g: Gas, h: Gas)
    requires g.AtMost(h)
    ensures p.Estimate(g) <= p.Estimate(h)
  {
    PriceMonotone(p.prices.blockSpace, g.blockSpace, h.blockSpace);
    PriceMonotone(p.prices.compactBlockSpace, g.compactBlockSpace, h.compactBlockSpace);
    PriceMonotone(p.prices.verification, g.verification, h.verification);
    PriceMonotone(p.prices.execution, g.execution, h.execution);
    hide *;
    Percentage(p, g, h);
  }

  lemma Percentage(p: Pricing, g: Gas, h: Gas)
    requires p.BaseFee(g) <= p.BaseFee(h)
    ensures p.Estimate(g) <= p.Estimate(h)
  {
    var x, y := p.BaseFee(g), p.BaseFee(h);
    assert x * p.tier.Percent() <= y * p.tier.Percent();
  }

  function Provided(actions: seq<Action>, asset: AssetId): int {
    if actions == [] then 0
    else
      Provided(actions[..|actions| - 1], asset) + In(actions[|actions| - 1], asset)
  }

  function Assets(actions: seq<Action>): set<AssetId> {
    set action, asset | action in actions && asset in action.balance :: asset
  }

  function GasOf(actions: seq<Action>): Gas {
    if actions == [] then NO_GAS else GasOf(actions[..|actions| - 1]).Plus(actions[|actions| - 1].gas)
  }

  /** The estimate is each gas times its price and the tier's percentage, but for rounding down five times. */
  lemma EstimateClose(p: Pricing, g: Gas)
    ensures var percent := match p.tier { case Low => 105 case Medium => 130 case High => 200 };
            var exact := p.prices.blockSpace * g.blockSpace + p.prices.compactBlockSpace * g.compactBlockSpace
                         + p.prices.verification * g.verification + p.prices.execution * g.execution;
            100_000 * p.Estimate(g) <= percent * exact < 100_000 * p.Estimate(g) + 100_000 + 4_000 * percent
  {
    PriceMonotone(p.prices.blockSpace, g.blockSpace, g.blockSpace);
    PriceMonotone(p.prices.compactBlockSpace, g.compactBlockSpace, g.compactBlockSpace);
    PriceMonotone(p.prices.verification, g.verification, g.verification);
    PriceMonotone(p.prices.execution, g.execution, g.execution);
  }

  function In(action: Action, asset: AssetId): int {
    if asset in action.balance then action.balance[asset] else 0
  }

  lemma ProvidedMore(actions: seq<Action>, action: Action, asset: AssetId)
    ensures Provided(actions + [action], asset) == Provided(actions, asset) + In(action, asset)
  {
    assert (actions + [action])[..|actions|] == actions;
  }

  lemma GasMore(actions: seq<Action>, action: Action)
    ensures GasOf(actions + [action]) == GasOf(actions).Plus(action.gas)
  {
    assert (actions + [action])[..|actions|] == actions;
  }

  function ChangeOf(change: map<AssetId, nat>, asset: AssetId): nat {
    if asset in change then change[asset] else 0
  }

  function FeeIn(fee: Fee, asset: AssetId): nat {
    if fee.asset == asset then fee.amount else 0
  }

  /** What the actions provide, less change, less the fee. */
  function Balance(l: ActionList, asset: AssetId): int {
    Provided(l.actions, asset) - ChangeOf(l.change, asset) - FeeIn(l.fee, asset)
  }

  function Mentioned(l: ActionList): set<AssetId> {
    Assets(l.actions) + l.change.Keys + {l.fee.asset}
  }

  function Required(l: ActionList): set<AssetId> {
    set a | a in Mentioned(l) && Balance(l, a) < 0
  }

  /** One change output for each asset in surplus. */
  function RefreshChange(l: ActionList): ActionList {
    var bare := l.(change := map[]);
    bare.(change := map a | a in Mentioned(bare) && Balance(bare, a) > 0 :: Balance(bare, a))
  }

  /** The higher of the current fee and the new estimate, or just the estimate if the fee asset changes. */
  function RefreshFee(l: ActionList, p: Pricing): ActionList {
    var estimate := p.Estimate(GasOf(l.actions).Plus(OUTPUT_GAS.Times(|l.change|)));
    l.(fee := Fee(p.asset, if l.fee.asset == p.asset && l.fee.amount > estimate then l.fee.amount else estimate))
  }

  function Saturating(n: int): nat {
    if n > 0 then n else 0
  }

  /** Surplus goes into existing change, a shortfall comes out of it as far as it lasts, and empty change goes. */
  function AdjustChange(l: ActionList): ActionList {
    l.(change := map a | a in l.change && Saturating(l.change[a] + Balance(l, a)) > 0
                   :: Saturating(l.change[a] + Balance(l, a)))
  }

  function Refresh(l: ActionList, p: Pricing): ActionList {
    AdjustChange(RefreshFee(RefreshChange(l), p))
  }

  lemma {:induction false} NotMentioned(actions: seq<Action>, asset: AssetId)
    requires asset !in Assets(actions)
    ensures Provided(actions, asset) == 0
    decreases |actions|
  {
    if actions != [] {
      var init, last := actions[..|actions| - 1], actions[|actions| - 1];
      assert last in actions;
      assert forall action <- init :: action in actions;
      NotMentioned(init, asset);
    }
  }

  lemma RequiredIff(l: ActionList, asset: AssetId)
    ensures asset in Required(l) <==> Balance(l, asset) < 0
  {
    if asset !in Mentioned(l) { NotMentioned(l.actions, asset); }
  }

  /** After a refresh, exactly those assets are required of which the actions provide less than nothing, or, for the
      fee's asset, less than the fee. The fee is in the priced asset and never goes down while it stays so. */
  lemma RefreshRequired(l: ActionList, p: Pricing, asset: AssetId)
    ensures Refresh(l, p).actions == l.actions && Refresh(l, p).fee.asset == p.asset
    ensures l.fee.asset == p.asset ==> Refresh(l, p).fee.amount >= l.fee.amount
    ensures asset in Required(Refresh(l, p)) <==> Provided(l.actions, asset) < FeeIn(Refresh(l, p).fee, asset)
  {
    hide Provided, GasOf, RefreshChange, AdjustChange, Required, Mentioned;
    var l1 := RefreshChange(l);
    var l2 := RefreshFee(l1, p);
    RefreshedChange(l, asset);
    AdjustedChange(l2, asset);
    RequiredIff(Refresh(l, p), asset);
  }

  /** What a refresh leaves of each asset. Everything provided goes into change and the fee, except what is short of the
      fee, and except what an asset that stops being the fee's has left within its old fee. */
  lemma RefreshBalance(l: ActionList, p: Pricing, asset: AssetId)
    ensures var provided, fee := Provided(l.actions, asset), FeeIn(Refresh(l, p).fee, asset);
            Balance(Refresh(l, p), asset)
            == if provided < fee then provided - fee
               else if asset != p.asset && asset == l.fee.asset && provided <= l.fee.amount then provided
               else 0
  {
    hide Provided, GasOf, RefreshChange, AdjustChange, Required, Mentioned;
    var l1 := RefreshChange(l);
    var l2 := RefreshFee(l1, p);
    RefreshedChange(l, asset);
    AdjustedChange(l2, asset);
  }

  /** Every change output is worth something, and the fee is at least the estimate for the list as it then is. */
  lemma RefreshCovers(l: ActionList, p: Pricing)
    ensures var after := Refresh(l, p);
            && (forall a <- after.change :: after.change[a] > 0)
            && after.fee.amount >= p.Estimate(GasOf(after.actions).Plus(OUTPUT_GAS.Times(|after.change|)))
  {
    hide Provided, GasOf, Assets;
    var l1, after := RefreshChange(l), Refresh(l, p);
    assert after.change.Keys <= l1.change.Keys;
    SmallerSet(after.change.Keys, l1.change.Keys);
    assert |after.change| == |after.change.Keys| && |l1.change| == |l1.change.Keys|;
    EstimateMonotone(p, GasOf(l.actions).Plus(OUTPUT_GAS.Times(|after.change|)),
                     GasOf(l.actions).Plus(OUTPUT_GAS.Times(|l1.change|)));
    RefreshedFee(l, p);
  }

  lemma RefreshedChange(l: ActionList, asset: AssetId)
    ensures RefreshChange(l) == l.(change := RefreshChange(l).change)
    ensures ChangeOf(RefreshChange(l).change, asset) == Saturating(Provided(l.actions, asset) - FeeIn(l.fee, asset))
    ensures asset in RefreshChange(l).change <==> Provided(l.actions, asset) > FeeIn(l.fee, asset)
  {
    hide Provided, Assets;
    if asset !in Assets(l.actions) { NotMentioned(l.actions, asset); }
  }

  lemma AdjustedChange(l: ActionList, asset: AssetId)
    ensures AdjustChange(l) == l.(change := AdjustChange(l).change)
    ensures ChangeOf(AdjustChange(l).change, asset)
            == if asset in l.change then Saturating(l.change[asset] + Balance(l, asset)) else 0
  {
    hide Provided;
  }

  // ---------- Notes to spend ----------

  datatype Record = Record(commitment: nat, asset: AssetId, amount: nat, ephemeral: bool)

  function Spend(r: Record): Action {
    Action(map[r.asset := r.amount], SPEND_GAS)
  }

  /** Notes on one-time addresses come first, then larger notes. */
  predicate Before(a: Record, b: Record) {
    if a.ephemeral != b.ephemeral then a.ephemeral else a.amount >= b.amount
  }

  predicate Prioritized(s: seq<Record>) {
    forall i, j :: 0 <= i < j < |s| ==> Before(s[i], s[j])
  }

  /** Put a note after all notes that come before it or tie with it. */
  function Place(s: seq<Record>, r: Record): seq<Record> {
    if s == [] then [r]
    else if Before(s[|s| - 1], r) then s + [r]
    else Place(s[..|s| - 1], r) + [s[|s| - 1]]
  }

  /** The notes worth something, in order of priority. */
  function Prioritize(records: seq<Record>): seq<Record> {
    if records == [] then []
    else
      var rest, r := Prioritize(records[..|records| - 1]), records[|records| - 1];
      if r.amount > 0 then Place(rest, r) else rest
  }

  lemma {:induction false} PlaceCounts(s: seq<Record>, r: Record)
    ensures multiset(Place(s, r)) == multiset(s) + multiset{r}
    decreases |s|
  {
    if s != [] && !Before(s[|s| - 1], r) {
      PlaceCounts(s[..|s| - 1], r);
      assert s == s[..|s| - 1] + [s[|s| - 1]];
    }
  }

  lemma {:induction false} PlaceMembers(s: seq<Record>, r: Record, x: Record)
    requires x in Place(s, r)
    ensures x == r || x in s
    decreases |s|
  {
    if s != [] && !Before(s[|s| - 1], r) && x != s[|s| - 1] {
      PlaceMembers(s[..|s| - 1], r, x);
    }
  }

  lemma {:induction false} PlaceSorted(s: seq<Record>, r: Record)
    requires Prioritized(s)
    ensures Prioritized(Place(s, r))
    decreases |s|
  {
    if s != [] && !Before(s[|s| - 1], r) {
      var init, last := s[..|s| - 1], s[|s| - 1];
      PlaceSorted(init, r);
      forall i | 0 <= i < |Place(init, r)| ensures Before(Place(init, r)[i], last) {
        PlaceMembers(init, r, Place(init, r)[i]);
      }
    }
  }

  function Positive(records: seq<Record>): multiset<Record> {
    if records == [] then multiset{}
    else
      var r := records[|records| - 1];
      Positive(records[..|records| - 1]) + if r.amount > 0 then multiset{r} else multiset{}
  }

  lemma {:induction false} PrioritizeKeeps(records: seq<Record>)
    ensures Prioritized(Prioritize(records)) && multiset(Prioritize(records)) == Positive(records)
    decreases |records|
  {
    if records != [] {
      var init, r := records[..|records| - 1], records[|records| - 1];
      PrioritizeKeeps(init);
      if r.amount > 0 {
        PlaceSorted(Prioritize(init), r);
        PlaceCounts(Prioritize(init), r);
      }
    }
  }

  lemma {:induction false} PositiveCounts(records: seq<Record>, r: Record)
    ensures Positive(records)[r] == if r.amount > 0 then multiset(records)[r] else 0
    decreases |records|
  {
    if records != [] {
      PositiveCounts(records[..|records| - 1], r);
      assert records == records[..|records| - 1] + [records[|records| - 1]];
    }
  }

  /** Prioritizing keeps exactly the notes of positive amount, as often as they come. Notes on one-time addresses stand
      before all others, and within a kind no note stands before a larger one. */
  lemma PrioritizeSorts(records: seq<Record>)
    ensures forall r :: multiset(Prioritize(records))[r] == if r.amount > 0 then multiset(records)[r] else 0
    ensures var s := Prioritize(records);
            forall i, j :: 0 <= i < j < |s| ==>
              && (s[j].ephemeral ==> s[i].ephemeral)
              && (s[i].ephemeral == s[j].ephemeral ==> s[i].amount >= s[j].amount)
  {
    PrioritizeKeeps(records);
    forall r {
      PositiveCounts(records, r);
    }
    hide Prioritize, Positive;
  }

  lemma {:induction false} PositiveFrom(records: seq<Record>, r: Record)
    ensures r in Positive(records) ==> r in records && r.amount > 0
    decreases |records|
  {
    if records != [] { PositiveFrom(records[..|records| - 1], r); }
  }

  /** Every note offered for an asset is a positive note of the query. */
  lemma PrioritizeFrom(records: seq<Record>, r: Record)
    requires r in Prioritize(records)
    ensures r in records && r.amount > 0
  {
    PrioritizeKeeps(records);
    assert r in multiset(Prioritize(records));
    PositiveFrom(records, r);
  }

  // ---------- Spends ----------

  const MAX_ITERATIONS := 100

  datatype Outcome =
    | Planned
    | OutOfNotes(asset: AssetId)
    | TooMany
    | NeverQueried(asset: AssetId)   // the loop's `expect` fails

  /** The spends of one asset, in the order they were added. */
  function Of(spends: seq<Record>, asset: AssetId): seq<Record> {
    if spends == [] then []
    else
      var rest, last := Of(spends[..|spends| - 1], asset), spends[|spends| - 1];
      if last.asset == asset then rest + [last] else rest
  }

  function Reverse(s: seq<Record>): seq<Record> {
    if s == [] then [] else [s[|s| - 1]] + Reverse(s[..|s| - 1])
  }

  function SpendAll(actions: seq<Action>, spends: seq<Record>): seq<Action> {
    if spends == [] then actions else SpendAll(actions, spends[..|spends| - 1]) + [Spend(spends[|spends| - 1])]
  }

  lemma OfMore(spends: seq<Record>, r: Record, asset: AssetId)
    ensures Of(spends + [r], asset) == if r.asset == asset then Of(spends, asset) + [r] else Of(spends, asset)
  {
    assert (spends + [r])[..|spends|] == spends;
  }

  lemma ReverseMore(s: seq<Record>, r: Record)
    ensures Reverse(s + [r]) == [r] + Reverse(s)
  {
    assert (s + [r])[..|s|] == s;
  }

  lemma SpendMore(actions: seq<Action>, spends: seq<Record>, r: Record)
    ensures SpendAll(actions, spends + [r]) == SpendAll(actions, spends) + [Spend(r)]
  {
    assert (spends + [r])[..|spends|] == spends;
  }

  lemma {:induction false} SpendAppend(actions: seq<Action>, spends: seq<Record>, more: seq<Record>)
    ensures SpendAll(actions, spends + more) == SpendAll(SpendAll(actions, spends), more)
    decreases |more|
  {
    if more == [] {
      assert spends + more == spends;
    } else {
      var init, last := more[..|more| - 1], more[|more| - 1];
      SpendAppend(actions, spends, init);
      assert spends + more == spends + init + [last];
      SpendMore(actions, spends + init, last);
    }
  }

  /** Spends only add to what is provided, and only of their own assets. */
  lemma {:induction false} SpendProvides(actions: seq<Action>, spends: seq<Record>, asset: AssetId)
    ensures Provided(SpendAll(actions, spends), asset) >= Provided(actions, asset)
    ensures (forall r <- spends :: r.asset != asset) ==>
              Provided(SpendAll(actions, spends), asset) == Provided(actions, asset)
    decreases |spends|
  {
    if spends != [] {
      SpendProvides(actions, spends[..|spends| - 1], asset);
      ProvidedMore(SpendAll(actions, spends[..|spends| - 1]), Spend(spends[|spends| - 1]), asset);
    }
  }

  /** The gas of spends is in proportion to their number. */
  lemma {:induction false} SpendsGas(actions: seq<Action>, spends: seq<Record>)
    ensures GasOf(SpendAll(actions, spends)) == GasOf(actions).Plus(SPEND_GAS.Times(|spends|))
    decreases |spends|
  {
    if spends != [] {
      SpendsGas(actions, spends[..|spends| - 1]);
      GasMore(SpendAll(actions, spends[..|spends| - 1]), Spend(spends[|spends| - 1]));
    }
  }

  /** The list after these spends, with fee and change refreshed after each. */
  function ListAfter(first: ActionList, p: Pricing, spends: seq<Record>): ActionList {
    if spends == [] then Refresh(first, p)
    else
      var l := ListAfter(first, p, spends[..|spends| - 1]);
      Refresh(l.(actions := l.actions + [Spend(spends[|spends| - 1])]), p)
  }

  lemma ListMore(first: ActionList, p: Pricing, spends: seq<Record>, r: Record)
    ensures var l := ListAfter(first, p, spends);
            ListAfter(first, p, spends + [r]) == Refresh(l.(actions := l.actions + [Spend(r)]), p)
  {
    assert (spends + [r])[..|spends|] == spends;
  }

  /** An asset is required after some spends exactly if what is provided of it is below the fee in it. */
  lemma {:induction false} RequiredAfter(first: ActionList, p: Pricing, spends: seq<Record>, asset: AssetId)
    ensures var l := ListAfter(first, p, spends);
            && l.actions == SpendAll(first.actions, spends) && l.fee.asset == p.asset
            && (asset in Required(l) <==> Provided(l.actions, asset) < FeeIn(l.fee, asset))
    decreases |spends|
  {
    hide Refresh, Required, Provided;
    if spends == [] {
      RefreshRequired(first, p, asset);
    } else {
      var init, last := spends[..|spends| - 1], spends[|spends| - 1];
      RequiredAfter(first, p, init, asset);
      var l := ListAfter(first, p, init);
      RefreshRequired(l.(actions := l.actions + [Spend(last)]), p, asset);
    }
  }

  /** The list after some spends, with everything that the actions provide in change or in the fee. Only the first
      refresh can leave anything over: of an asset that stops being the fee's. */
  ghost predicate BalancedAfter(first: ActionList, p: Pricing, spends: seq<Record>, l: ActionList, asset: AssetId) {
    var provided := Provided(l.actions, asset);
    && (forall a <- l.change :: l.change[a] > 0)
    && l.fee.asset == p.asset
    && l.fee.amount >= p.Estimate(GasOf(l.actions).Plus(OUTPUT_GAS.Times(|l.change|)))
    && (provided >= FeeIn(l.fee, asset) ==>
          provided == ChangeOf(l.change, asset) + FeeIn(l.fee, asset)
                      + if spends == [] && asset != p.asset && asset == first.fee.asset && provided <= first.fee.amount
                        then provided else 0)
  }

  lemma ListBalance(first: ActionList, p: Pricing, spends: seq<Record>, asset: AssetId)
    ensures BalancedAfter(first, p, spends, ListAfter(first, p, spends), asset)
  {
    hide Refresh, Provided, GasOf, Required;
    var l := first;
    if spends != [] {
      var init, last := spends[..|spends| - 1], spends[|spends| - 1];
      RequiredAfter(first, p, init, asset);
      l := ListAfter(first, p, init).(actions := SpendAll(first.actions, spends));
      SpendMore(first.actions, init, last);
      assert init + [last] == spends;
    }
    assert ListAfter(first, p, spends) == Refresh(l, p);
    RefreshBalance(l, p, asset);
    RefreshCovers(l, p);
    RefreshRequired(l, p, asset);
  }

  /** While balancing, an asset other than the fee's is required only if it was at first. */
  lemma RequiredShrinks(first: ActionList, p: Pricing, spends: seq<Record>, asset: AssetId)
    requires asset != p.asset && asset in Required(ListAfter(first, p, spends))
    ensures asset in Required(Refresh(first, p))
  {
    hide Required, Refresh, Provided, SpendAll;
    RequiredAfter(first, p, spends, asset);
    RefreshRequired(first, p, asset);
    SpendProvides(first.actions, spends, asset);
  }

  /** The fee never goes down. */
  lemma {:induction false} FeeGrows(first: ActionList, p: Pricing, spends: seq<Record>, more: seq<Record>)
    ensures ListAfter(first, p, spends + more).fee.amount >= ListAfter(first, p, spends).fee.amount
    decreases |more|
  {
    hide Refresh;
    if more == [] {
      assert spends + more == spends;
    } else {
      var init, last := more[..|more| - 1], more[|more| - 1];
      FeeGrows(first, p, spends, init);
      assert spends + more == spends + init + [last];
      ListMore(first, p, spends + init, last);
      RequiredAfter(first, p, spends + init, p.asset);
      var l := ListAfter(first, p, spends + init);
      RefreshRequired(l.(actions := l.actions + [Spend(last)]), p, p.asset);
    }
  }

  // ---------- The spends that the other assets need ----------

  predicate IsLeast(s: set<AssetId>, m: AssetId) {
    m in s && forall x <- s :: m <= x
  }

  lemma {:induction false} LeastExists(s: set<AssetId>)
    requires s != {}
    ensures exists m :: IsLeast(s, m)
  {
    var x :| x in s;
    if s == {x} {
      assert IsLeast(s, x);
    } else {
      LeastExists(s - {x});
      var n :| IsLeast(s - {x}, n);
      forall y | y in s ensures x <= y || n <= y {
        assert y == x || y in s - {x};
      }
      assert IsLeast(s, if x < n then x else n);
    }
  }

  /** The first asset by identifier. */
  function Least(s: set<AssetId>): (m: AssetId)
    requires s != {}
    ensures IsLeast(s, m)
  {
    LeastExists(s);
    var m :| m in s && forall x <- s :: m <= x;
    m
  }

  function Unmet(actions: seq<Action>, notes: map<AssetId, seq<Record>>): set<AssetId> {
    set a | a in notes && Provided(actions, a) < 0
  }

  /** The spends that the queried assets need, whatever the fee: the first unmet asset's last note, again and again,
      up to a number, or until an asset runs out. */
  function SpendsFor(actions: seq<Action>, notes: map<AssetId, seq<Record>>, n: nat): (spends: seq<Record>)
    ensures |spends| <= n
    decreases n
  {
    var unmet := Unmet(actions, notes);
    if n == 0 || unmet == {} then []
    else
      var a := Least(unmet);
      if notes[a] == [] then []
      else
        var note := notes[a][|notes[a]| - 1];
        [note] + SpendsFor(actions + [Spend(note)], notes[a := notes[a][..|notes[a]| - 1]], n - 1)
  }

  lemma NextSpend(actions: seq<Action>, notes: map<AssetId, seq<Record>>, a: AssetId, n: nat)
    requires n > 0 && IsLeast(Unmet(actions, notes), a) && notes[a] != []
    ensures var note := notes[a][|notes[a]| - 1];
            SpendsFor(actions, notes, n)
            == [note] + SpendsFor(actions + [Spend(note)], notes[a := notes[a][..|notes[a]| - 1]], n - 1)
  {
    hide Unmet, Spend;
    assert Least(Unmet(actions, notes)) == a;
  }

  /** The shortest run of notes from the back of a list that makes up for a shortfall, or all of them. */
  function Needs(shortfall: int, list: seq<Record>): seq<Record> {
    if shortfall <= 0 || list == [] then []
    else
      var note := list[|list| - 1];
      [note] + Needs(shortfall - note.amount, list[..|list| - 1])
  }

  lemma NeedsMore(shortfall: int, list: seq<Record>)
    requires shortfall > 0 && list != []
    ensures var note := list[|list| - 1];
            Needs(shortfall, list) == [note] + Needs(shortfall - note.amount, list[..|list| - 1])
  {
  }

  lemma {:induction false} OfFront(r: Record, spends: seq<Record>, asset: AssetId)
    ensures Of([r] + spends, asset) == if r.asset == asset then [r] + Of(spends, asset) else Of(spends, asset)
    decreases |spends|
  {
    if spends == [] {
      assert [r] + spends == [] + [r];
      OfMore([], r, asset);
    } else {
      var init, last := spends[..|spends| - 1], spends[|spends| - 1];
      OfFront(r, init, asset);
      assert [r] + spends == [r] + init + [last];
      OfMore([r] + init, last, asset);
    }
  }

  predicate OwnNotes(notes: map<AssetId, seq<Record>>) {
    forall a <- notes :: forall r <- notes[a] :: r.asset == a
  }

  /** For an asset these are spends it needs, and all of them if it is met. */
  predicate SpendsNeeded(actions: seq<Action>, notes: map<AssetId, seq<Record>>, spends: seq<Record>, a: AssetId)
    requires a in notes
  {
    var taken, needed := Of(spends, a), Needs(-Provided(actions, a), notes[a]);
    && taken <= needed
    && (Provided(SpendAll(actions, spends), a) >= 0 ==> taken == needed)
  }

  lemma {:induction false} SpendsAreNeeds(actions: seq<Action>, notes: map<AssetId, seq<Record>>, n: nat, a: AssetId)
    requires a in notes && OwnNotes(notes)
    ensures SpendsNeeded(actions, notes, SpendsFor(actions, notes, n), a)
    decreases n
  {
    hide SpendsFor, SpendsNeeded;
    var unmet := Unmet(actions, notes);
    if n == 0 || unmet == {} || notes[Least(unmet)] == [] {
      NoneNeeded(actions, notes, n);
      NothingNeeded(actions, notes, a);
    } else {
      var b := Least(unmet);
      var note := notes[b][|notes[b]| - 1];
      var rest := notes[b := notes[b][..|notes[b]| - 1]];
      assert OwnNotes(rest) && note.asset == b by { hide Unmet, Least; }
      SpendsAreNeeds(actions + [Spend(note)], rest, n - 1, a);
      NextSpend(actions, notes, b, n);
      OneNeeded(actions, notes, b, SpendsFor(actions + [Spend(note)], rest, n - 1), a);
    }
  }

  lemma NothingNeeded(actions: seq<Action>, notes: map<AssetId, seq<Record>>, a: AssetId)
    requires a in notes
    ensures SpendsNeeded(actions, notes, [], a)
  {
    NothingSpent(actions, a);
  }

  lemma OneNeeded(actions: seq<Action>, notes: map<AssetId, seq<Record>>, b: AssetId, spends: seq<Record>, a: AssetId)
    requires a in notes && b in notes && Provided(actions, b) < 0 && notes[b] != []
    requires notes[b][|notes[b]| - 1].asset == b
    requires SpendsNeeded(actions + [Spend(notes[b][|notes[b]| - 1])],
                          notes[b := notes[b][..|notes[b]| - 1]], spends, a)
    ensures SpendsNeeded(actions, notes, [notes[b][|notes[b]| - 1]] + spends, a)
  {
    hide Of, SpendAll, Provided, Needs;
    var note := notes[b][|notes[b]| - 1];
    SpentOne(actions, note, spends, a);
    if b == a {
      NeedsMore(-Provided(actions, a), notes[a]);
      SamePrefix(note, Of(spends, a), Needs(-Provided(actions + [Spend(note)], a), notes[b][..|notes[b]| - 1]));
    }
  }

  lemma SpentOne(actions: seq<Action>, note: Record, spends: seq<Record>, a: AssetId)
    ensures Of([note] + spends, a) == if note.asset == a then [note] + Of(spends, a) else Of(spends, a)
    ensures Provided(actions + [Spend(note)], a) == Provided(actions, a) + if note.asset == a then note.amount else 0
    ensures SpendAll(actions, [note] + spends) == SpendAll(actions + [Spend(note)], spends)
  {
    hide Of, SpendAll, Provided;
    OfFront(note, spends, a);
    ProvidedMore(actions, Spend(note), a);
    assert [] + [note] == [note];
    NothingSpent(actions, a);
    SpendMore(actions, [], note);
    SpendAppend(actions, [note], spends);
  }

  lemma SamePrefix(r: Record, s: seq<Record>, t: seq<Record>)
    requires s <= t
    ensures [r] + s <= [r] + t
  {
  }

  lemma NoneNeeded(actions: seq<Action>, notes: map<AssetId, seq<Record>>, n: nat)
    requires n == 0 || Unmet(actions, notes) == {} || notes[Least(Unmet(actions, notes))] == []
    ensures SpendsFor(actions, notes, n) == []
  {
    hide Unmet;
  }

  lemma NothingSpent(actions: seq<Action>, a: AssetId)
    ensures SpendAll(actions, []) == actions && Of([], a) == [] && Reverse([]) == []
  {
  }

  // ---------- When the fee's asset becomes required without having been queried ----------

  function Queried(first: ActionList, p: Pricing, view: AssetId -> seq<Record>): map<AssetId, seq<Record>> {
    map a | a in Required(Refresh(first, p)) :: Prioritize(view(a))
  }

  /** The fee's asset was not queried; the spends that the queried assets need make the fee more than the actions
      provide of it; and these spends meet every asset that comes before it. */
  predicate FeeUncovered(first: ActionList, p: Pricing, view: AssetId -> seq<Record>) {
    var notes := Queried(first, p, view);
    var spends := SpendsFor(first.actions, notes, MAX_ITERATIONS);
    && p.asset !in notes
    && ListAfter(first, p, spends).fee.amount > Provided(first.actions, p.asset)
    && forall a <- notes :: a < p.asset ==> Provided(SpendAll(first.actions, spends), a) >= 0
  }

  /** A note taken from the list is one of the query's, of its asset. */
  lemma NoteOf(rest: seq<Record>, taken: seq<Record>, records: seq<Record>)
    requires rest != [] && rest + taken == Prioritize(records)
    ensures rest[|rest| - 1] in records
  {
    hide Prioritize;
    assert rest[|rest| - 1] == Prioritize(records)[|rest| - 1];
    PrioritizeFrom(records, rest[|rest| - 1]);
  }

  /** Moving the last note of a list to the spends keeps what is left and what is taken together. */
  lemma TakeNote(rest: seq<Record>, spends: seq<Record>, note: Record, a: AssetId)
    requires rest != [] && rest[|rest| - 1] == note
    ensures note.asset != a ==> Of(spends + [note], a) == Of(spends, a)
    ensures note.asset == a ==>
              rest[..|rest| - 1] + Reverse(Of(spends + [note], a)) == rest + Reverse(Of(spends, a))
  {
    hide Of, Reverse;
    OfMore(spends, note, a);
    if note.asset == a {
      ReverseMore(Of(spends, a), note);
      assert rest == rest[..|rest| - 1] + [note];
    }
  }

  /** What is left of each asset's list, followed by what was taken from its back, is the whole list. */
  ghost predicate Accounted(left: map<AssetId, seq<Record>>, spends: seq<Record>, view: AssetId -> seq<Record>) {
    forall asset <- left :: left[asset] + Reverse(Of(spends, asset)) == Prioritize(view(asset))
  }

  lemma NothingTaken(notes: map<AssetId, seq<Record>>, view: AssetId -> seq<Record>)
    requires forall a <- notes :: notes[a] == Prioritize(view(a))
    ensures Accounted(notes, [], view)
  {
    hide Prioritize;
    assert forall a <- notes :: notes[a] + [] == notes[a];
  }

  lemma TakeOne(notes: map<AssetId, seq<Record>>, spends: seq<Record>, asset: AssetId, view: AssetId -> seq<Record>)
    requires Accounted(notes, spends, view) && asset in notes && notes[asset] != []
    requires forall a :: forall r <- view(a) :: r.asset == a
    ensures var note := notes[asset][|notes[asset]| - 1];
            && note.asset == asset
            && Accounted(notes[asset := notes[asset][..|notes[asset]| - 1]], spends + [note], view)
  {
    hide Of, Reverse, Prioritize;
    var note := notes[asset][|notes[asset]| - 1];
    NoteOf(notes[asset], Reverse(Of(spends, asset)), view(asset));
    forall a | a in notes
      ensures (if a == asset then notes[a][..|notes[a]| - 1] else notes[a]) + Reverse(Of(spends + [note], a))
              == Prioritize(view(a))
    {
      TakeNote(notes[asset], spends, note, a);
    }
  }

  /** The spends made so far are a beginning of those the queried assets need, if the fee's asset is not one. */
  ghost predicate OnCourse(first: ActionList, p: Pricing, view: AssetId -> seq<Record>, spends: seq<Record>,
                           left: map<AssetId, seq<Record>>) {
    && |spends| <= MAX_ITERATIONS
    && left.Keys == Queried(first, p, view).Keys
    && (forall r <- spends :: r.asset in left)
    && (p.asset !in left ==>
          spends + SpendsFor(SpendAll(first.actions, spends), left, MAX_ITERATIONS - |spends|)
          == SpendsFor(first.actions, Queried(first, p, view), MAX_ITERATIONS))
  }

  lemma StartsOnCourse(first: ActionList, p: Pricing, view: AssetId -> seq<Record>)
    ensures OnCourse(first, p, view, [], Queried(first, p, view))
  {
    hide Queried, SpendsFor;
    NothingSpent(first.actions, 0);
    var s := SpendsFor(first.actions, Queried(first, p, view), MAX_ITERATIONS);
    assert [] + s == s;
  }

  /** The first required asset, if it was queried, is the first unmet one. */
  lemma SameChoice(first: ActionList, p: Pricing, spends: seq<Record>, left: map<AssetId, seq<Record>>, asset: AssetId)
    requires IsLeast(Required(ListAfter(first, p, spends)), asset)
    requires asset in left && p.asset !in left
    ensures IsLeast(Unmet(SpendAll(first.actions, spends), left), asset)
  {
    hide Provided, Required, ListAfter, SpendAll;
    forall a | a in left
      ensures a in Unmet(SpendAll(first.actions, spends), left) <==> a in Required(ListAfter(first, p, spends))
    {
      RequiredAfter(first, p, spends, a);
    }
  }

  lemma StaysOnCourse(first: ActionList, p: Pricing, view: AssetId -> seq<Record>, spends: seq<Record>,
                      left: map<AssetId, seq<Record>>, asset: AssetId)
    requires OnCourse(first, p, view, spends, left) && |spends| < MAX_ITERATIONS
    requires IsLeast(Required(ListAfter(first, p, spends)), asset) && asset in left && left[asset] != []
    requires left[asset][|left[asset]| - 1].asset == asset
    ensures OnCourse(first, p, view, spends + [left[asset][|left[asset]| - 1]],
                     left[asset := left[asset][..|left[asset]| - 1]])
  {
    hide Queried, SpendAll, SpendsFor, Required, ListAfter;
    var note := left[asset][|left[asset]| - 1];
    var actions := SpendAll(first.actions, spends);
    if p.asset !in left {
      SameChoice(first, p, spends, left, asset);
      SpendMore(first.actions, spends, note);
      NextSpend(actions, left, asset, MAX_ITERATIONS - |spends|);
      var rest := SpendsFor(actions + [Spend(note)], left[asset := left[asset][..|left[asset]| - 1]],
                            MAX_ITERATIONS - |spends| - 1);
      assert spends + ([note] + rest) == spends + [note] + rest;
    }
  }

  /** Stopping for any other reason means that the fee is covered. */
  lemma StoppedElsewhere(first: ActionList, p: Pricing, view: AssetId -> seq<Record>, spends: seq<Record>,
                         left: map<AssetId, seq<Record>>)
    requires OnCourse(first, p, view, spends, left)
    requires var l := ListAfter(first, p, spends);
             || Required(l) == {}
             || (Least(Required(l)) in left && (left[Least(Required(l))] == [] || |spends| == MAX_ITERATIONS))
    ensures !FeeUncovered(first, p, view)
  {
    if p.asset !in left {
      var l := ListAfter(first, p, spends);
      if Required(l) == {} {
        NoneUnmet(first, p, spends, left);
      } else {
        SameChoice(first, p, spends, left, Least(Required(l)));
      }
      hide Provided, Required, ListAfter, SpendAll, Queried;
      assert SpendsFor(SpendAll(first.actions, spends), left, MAX_ITERATIONS - |spends|) == [];
      assert spends + [] == spends;
      RequiredAfter(first, p, spends, p.asset);
      SpendProvides(first.actions, spends, p.asset);
      if Required(l) != {} { RequiredAfter(first, p, spends, Least(Required(l))); }
    }
  }

  lemma NoneUnmet(first: ActionList, p: Pricing, spends: seq<Record>, left: map<AssetId, seq<Record>>)
    requires Required(ListAfter(first, p, spends)) == {} && p.asset !in left
    ensures Unmet(SpendAll(first.actions, spends), left) == {}
  {
    hide Provided, Required, ListAfter, SpendAll;
    forall a | a in left ensures a !in Unmet(SpendAll(first.actions, spends), left) {
      RequiredAfter(first, p, spends, a);
    }
  }

  /** Choosing an asset that was not queried means that it is the fee's and not covered. */
  lemma ChosenUnqueried(first: ActionList, p: Pricing, view: AssetId -> seq<Record>, spends: seq<Record>,
                        left: map<AssetId, seq<Record>>, asset: AssetId)
    requires OnCourse(first, p, view, spends, left)
    requires IsLeast(Required(ListAfter(first, p, spends)), asset) && asset !in left
    ensures asset == p.asset && FeeUncovered(first, p, view)
  {
    if asset != p.asset {
      RequiredShrinks(first, p, spends, asset);
    }
    var rest := SpendsFor(SpendAll(first.actions, spends), left, MAX_ITERATIONS - |spends|);
    hide Provided, Required, ListAfter, SpendAll, SpendsFor, Prioritize;
    RequiredAfter(first, p, spends, p.asset);
    SpendProvides(first.actions, spends, p.asset);
    FeeGrows(first, p, spends, rest);
    SpendAppend(first.actions, spends, rest);
    forall a | a in left && a < p.asset ensures Provided(SpendAll(first.actions, spends + rest), a) >= 0 {
      RequiredAfter(first, p, spends, a);
      SpendProvides(SpendAll(first.actions, spends), rest, a);
    }
  }

  // ---------- The balancing loop ----------

  /** Add spends until nothing is required, one note at a time from the back of the first required asset's list. The
      loop's `expect` fails exactly when the fee is not covered. */
  method Plan(first: ActionList, p: Pricing, view: AssetId -> seq<Record>)
    returns (outcome: Outcome, list: ActionList, ghost spends: seq<Record>, ghost left: map<AssetId, seq<Record>>)
    requires forall asset :: forall r <- view(asset) :: r.asset == asset
    ensures |spends| <= 101
    ensures list == ListAfter(first, p, spends) && list.actions == SpendAll(first.actions, spends)
    ensures left.Keys == Required(Refresh(first, p))
    ensures Accounted(left, spends, view) && SmallestFirst(left, spends)
    ensures forall r <- spends :: r.asset in left
    ensures outcome.Planned? <==> Required(list) == {} && |spends| <= 100
    ensures outcome.Planned? ==>
              && (forall a :: Provided(list.actions, a) >= FeeIn(list.fee, a))
              && forall a :: BalancedAfter(first, p, spends, list, a)
    ensures outcome.OutOfNotes? ==>
              && Required(list) != {} && outcome.asset == Least(Required(list))
              && outcome.asset in left && left[outcome.asset] == []
    ensures outcome.TooMany? <==> |spends| == 101
    ensures outcome.NeverQueried? <==> FeeUncovered(first, p, view)
    ensures outcome.NeverQueried? ==> outcome.asset == p.asset
  {
    hide Refresh, Prioritize, SpendAll, Provided, Required, Accounted, ListAfter, OnCourse, FeeUncovered,
      SmallestFirst, BalancedAfter;
    list := Refresh(first, p);
    var notes := Queried(first, p, view);
    left, spends := notes, [];
    StartsOnCourse(first, p, view);
    NothingTaken(notes, view);
    assert list == ListAfter(first, p, []) by { NoSpends(first, p); }
    var iterations := 0;
    while Required(list) != {}
      invariant iterations == |spends| <= MAX_ITERATIONS
      invariant list == ListAfter(first, p, spends)
      invariant left == notes && notes.Keys == Required(Refresh(first, p))
      invariant OnCourse(first, p, view, spends, left) && Accounted(left, spends, view)
      invariant forall r <- spends :: r.asset in left
      decreases MAX_ITERATIONS - iterations
    {
      var asset := Least(Required(list));
      RequiredAfter(first, p, spends, asset);
      if asset !in notes {
        ChosenUnqueried(first, p, view, spends, left, asset);
        SpendOrder(left, spends, view);
        return NeverQueried(asset), list, spends, left;
      }
      if notes[asset] == [] {
        StoppedElsewhere(first, p, view, spends, left);
        SpendOrder(left, spends, view);
        return OutOfNotes(asset), list, spends, left;
      }
      if iterations == MAX_ITERATIONS { StoppedElsewhere(first, p, view, spends, left); }
      var note := notes[asset][|notes[asset]| - 1];
      TakeOne(notes, spends, asset, view);
      if iterations < MAX_ITERATIONS { StaysOnCourse(first, p, view, spends, left, asset); }
      ListMore(first, p, spends, note);
      notes := notes[asset := notes[asset][..|notes[asset]| - 1]];
      left, spends := notes, spends + [note];
      list := Refresh(list.(actions := list.actions + [Spend(note)]), p);
      iterations := iterations + 1;
      RequiredAfter(first, p, spends, p.asset);
      if iterations > MAX_ITERATIONS {
        SpendOrder(left, spends, view);
        return TooMany, list, spends, left;
      }
    }
    RequiredAfter(first, p, spends, p.asset);
    StoppedElsewhere(first, p, view, spends, left);
    SpendOrder(left, spends, view);
    forall a ensures Provided(list.actions, a) >= FeeIn(list.fee, a) && BalancedAfter(first, p, spends, list, a) {
      RequiredAfter(first, p, spends, a);
      ListBalance(first, p, spends, a);
    }
    return Planned, list, spends, left;
  }

  lemma NoSpends(first: ActionList, p: Pricing)
    ensures ListAfter(first, p, []) == Refresh(first, p)
  {
  }

  // ---------- What the loop's result means ----------

  lemma {:induction false} ReverseAt(s: seq<Record>, k: nat)
    requires k < |s|
    ensures |Reverse(s)| == |s| && Reverse(s)[k] == s[|s| - 1 - k]
    decreases |s|
  {
    if k > 0 {
      ReverseAt(s[..|s| - 1], k - 1);
    } else if |s| > 1 {
      ReverseAt(s[..|s| - 1], 0);
    }
  }

  lemma {:induction false} OfIndex(spends: seq<Record>, i: nat, j: nat)
    requires i < j < |spends| && spends[i] == spends[j]
    ensures !Distinct(Of(spends, spends[i].asset))
    decreases |spends|
  {
    var init, last := spends[..|spends| - 1], spends[|spends| - 1];
    var a := spends[i].asset;
    if j < |init| {
      OfIndex(init, i, j);
      if last.asset == a { NotDistinctPrefix(Of(init, a), last); }
    } else {
      OfHas(init, i);
      var k :| 0 <= k < |Of(init, a)| && Of(init, a)[k] == init[i];
      var all := Of(init, a) + [last];
      assert all[k] == all[|all| - 1];
    }
  }

  lemma NotDistinctPrefix(s: seq<Record>, r: Record)
    requires !Distinct(s)
    ensures !Distinct(s + [r])
  {
    var i, j :| 0 <= i < j < |s| && s[i] == s[j];
    assert (s + [r])[i] == (s + [r])[j];
  }

  lemma {:induction false} OfHas(spends: seq<Record>, i: nat)
    requires i < |spends|
    ensures spends[i] in Of(spends, spends[i].asset)
    decreases |spends|
  {
    if i < |spends| - 1 { OfHas(spends[..|spends| - 1], i); }
  }

  /** The spends of an asset are a suffix of its list, taken from the back. */
  lemma SuffixTaken(left: seq<Record>, taken: seq<Record>, all: seq<Record>)
    requires left + Reverse(taken) == all
    ensures |taken| <= |all|
    ensures forall k {:trigger taken[k]} :: 0 <= k < |taken| ==> taken[k] == all[|all| - 1 - k]
  {
    hide Reverse;
    ReverseLength(taken);
    forall k {:trigger taken[k]} | 0 <= k < |taken| ensures taken[k] == all[|all| - 1 - k] {
      TakenAt(left, taken, all, k);
    }
  }

  lemma TakenAt(left: seq<Record>, taken: seq<Record>, all: seq<Record>, k: nat)
    requires left + Reverse(taken) == all && |all| == |left| + |taken| && k < |taken|
    ensures taken[k] == all[|all| - 1 - k]
  {
    hide Reverse;
    var place := |taken| - 1 - k;
    ReverseAt(taken, place);
    assert all[|left| + place] == Reverse(taken)[place];
  }

  lemma ReverseLength(s: seq<Record>)
    ensures |Reverse(s)| == |s|
  {
    if s != [] { ReverseAt(s, 0); }
  }

  lemma DistinctTaken(left: seq<Record>, taken: seq<Record>, all: seq<Record>)
    requires left + Reverse(taken) == all && Distinct(all)
    ensures Distinct(taken)
  {
    hide Reverse;
    SuffixTaken(left, taken, all);
    forall i, j | 0 <= i < j < |taken| ensures taken[i] != taken[j] {
      assert all[|all| - 1 - j] != all[|all| - 1 - i];
    }
  }

  /** Among the spends of an asset, in the order they were added, those on ordinary addresses come first, and within a
      kind smaller ones come first. What is left would come after them all. */
  ghost predicate SmallestFirst(left: map<AssetId, seq<Record>>, spends: seq<Record>) {
    forall a <- left ::
      var taken := Of(spends, a);
      && (forall i, j :: 0 <= i < j < |taken| ==> SpentBefore(taken[i], taken[j]))
      && (forall s <- taken, r <- left[a] :: SpentBefore(s, r))
  }

  predicate SpentBefore(s: Record, t: Record) {
    (s.ephemeral ==> t.ephemeral) && (s.ephemeral == t.ephemeral ==> s.amount <= t.amount)
  }

  lemma SpendOrder(left: map<AssetId, seq<Record>>, spends: seq<Record>, view: AssetId -> seq<Record>)
    requires Accounted(left, spends, view)
    ensures SmallestFirst(left, spends)
  {
    hide Reverse, Prioritize, Of, SpentBefore;
    forall a | a in left
      ensures forall i, j :: 0 <= i < j < |Of(spends, a)| ==> SpentBefore(Of(spends, a)[i], Of(spends, a)[j])
      ensures forall s <- Of(spends, a), r <- left[a] :: SpentBefore(s, r)
    {
      TakenOrder(left[a], Of(spends, a), view(a));
    }
  }

  lemma TakenOrder(left: seq<Record>, taken: seq<Record>, records: seq<Record>)
    requires left + Reverse(taken) == Prioritize(records)
    ensures forall i, j :: 0 <= i < j < |taken| ==> SpentBefore(taken[i], taken[j])
    ensures forall s <- taken, r <- left :: SpentBefore(s, r)
  {
    hide Reverse, Prioritize;
    var all := Prioritize(records);
    PrioritizeSorts(records);
    SuffixTaken(left, taken, all);
    ReverseLength(taken);
    forall s, r | s in taken && r in left ensures SpentBefore(s, r) {
      var i :| 0 <= i < |taken| && taken[i] == s;
      var j :| 0 <= j < |left| && left[j] == r;
      assert all[j] == r && all[|all| - 1 - i] == s;
    }
  }

  /** No note is spent twice, if no query lists a note twice. */
  lemma SpendsDistinct(spends: seq<Record>, left: map<AssetId, seq<Record>>, view: AssetId -> seq<Record>)
    requires Accounted(left, spends, view) && forall a <- left :: Distinct(Prioritize(view(a)))
    requires forall r <- spends :: r.asset in left
    ensures Distinct(spends)
  {
    hide Reverse, Prioritize, Of;
    forall a | a in left ensures Distinct(Of(spends, a)) {
      DistinctTaken(left[a], Of(spends, a), Prioritize(view(a)));
    }
    forall i, j | 0 <= i < j < |spends| ensures spends[i] != spends[j] {
      assert spends[i] in spends;
      if spends[i] == spends[j] { OfIndex(spends, i, j); }
    }
  }

  // ---------- Fees that are always covered, and fees that are not ----------

  lemma {:induction false} SmallerSet(s: set<AssetId>, t: set<AssetId>)
    requires s <= t
    ensures |s| <= |t|
  {
    if s != {} {
      var x :| x in s;
      SmallerSet(s - {x}, t - {x});
    }
  }

  /** Change goes only to assets of the actions. */
  lemma ChangeWithin(l: ActionList)
    ensures RefreshChange(l).change.Keys <= Assets(l.actions)
    ensures |RefreshChange(l).change| <= |Assets(l.actions)|
  {
    forall a | a in RefreshChange(l).change ensures a in Assets(l.actions) {
      if a !in Assets(l.actions) { NotMentioned(l.actions, a); }
    }
    SmallerSet(RefreshChange(l).change.Keys, Assets(l.actions));
    assert |RefreshChange(l).change| == |RefreshChange(l).change.Keys|;
  }

  lemma {:induction false} SpendAssets(actions: seq<Action>, spends: seq<Record>)
    requires forall r <- spends :: r.asset in Assets(actions)
    ensures Assets(SpendAll(actions, spends)) == Assets(actions)
    decreases |spends|
  {
    if spends != [] {
      var init, last := spends[..|spends| - 1], spends[|spends| - 1];
      SpendAssets(actions, init);
      MoreAssets(SpendAll(actions, init), Spend(last));
    }
  }

  lemma MoreAssets(actions: seq<Action>, action: Action)
    ensures Assets(actions + [action]) == Assets(actions) + action.balance.Keys
  {
    forall a | a in Assets(actions) ensures a in Assets(actions + [action]) {
      var x :| x in actions && a in x.balance;
      assert x in actions + [action];
    }
    forall a | a in action.balance ensures a in Assets(actions + [action]) {
      assert action in actions + [action];
    }
  }

  /** The most that the fee can come to: a hundred spends, and change of every asset of the actions. */
  function Worst(first: ActionList, p: Pricing): nat {
    p.Estimate(GasOf(first.actions).Plus(SPEND_GAS.Times(MAX_ITERATIONS))
                                   .Plus(OUTPUT_GAS.Times(|Assets(first.actions)|)))
  }

  lemma {:induction false} FeeBounded(first: ActionList, p: Pricing, spends: seq<Record>, bound: nat)
    requires |spends| <= MAX_ITERATIONS && forall r <- spends :: r.asset in Assets(first.actions)
    requires Worst(first, p) <= bound && (first.fee.asset == p.asset ==> first.fee.amount <= bound)
    ensures ListAfter(first, p, spends).fee.amount <= bound
    decreases |spends|
  {
    hide Assets, SpendAll, GasOf, AdjustChange, RefreshChange, Worst;
    var l := first;
    if spends == [] {
      NothingSpent(first.actions, 0);
    } else {
      var init, last := spends[..|spends| - 1], spends[|spends| - 1];
      FeeBounded(first, p, init, bound);
      RequiredAfter(first, p, init, p.asset);
      l := ListAfter(first, p, init).(actions := SpendAll(first.actions, spends));
      SpendMore(first.actions, init, last);
      assert init + [last] == spends;
    }
    assert ListAfter(first, p, spends) == Refresh(l, p);
    SpendAssets(first.actions, spends);
    SpendsGas(first.actions, spends);
    ChangeWithin(l);
    RefreshedFee(l, p);
    hide Refresh, ListAfter;
    WorstCase(first, p, |spends|, |RefreshChange(l).change|);
  }

  /** The fee after a refresh. */
  lemma RefreshedFee(l: ActionList, p: Pricing)
    ensures var estimate := p.Estimate(GasOf(l.actions).Plus(OUTPUT_GAS.Times(|RefreshChange(l).change|)));
            Refresh(l, p).fee.amount
            == if l.fee.asset == p.asset && l.fee.amount > estimate then l.fee.amount else estimate
  {
    hide Provided, GasOf, Assets;
  }

  lemma WorstCase(first: ActionList, p: Pricing, n: nat, k: nat)
    requires n <= MAX_ITERATIONS && k <= |Assets(first.actions)|
    ensures p.Estimate(GasOf(first.actions).Plus(SPEND_GAS.Times(n)).Plus(OUTPUT_GAS.Times(k))) <= Worst(first, p)
  {
    EstimateMonotone(p, GasOf(first.actions).Plus(SPEND_GAS.Times(n)).Plus(OUTPUT_GAS.Times(k)),
                     GasOf(first.actions).Plus(SPEND_GAS.Times(MAX_ITERATIONS))
                                         .Plus(OUTPUT_GAS.Times(|Assets(first.actions)|)));
  }

  lemma {:induction false} SpendsFromNotes(actions: seq<Action>, notes: map<AssetId, seq<Record>>, n: nat, r: Record)
    requires r in SpendsFor(actions, notes, n)
    ensures exists a <- notes :: r in notes[a]
    decreases n
  {
    var a := Least(Unmet(actions, notes));
    var note := notes[a][|notes[a]| - 1];
    if r != note {
      SpendsFromNotes(actions + [Spend(note)], notes[a := notes[a][..|notes[a]| - 1]], n - 1, r);
    }
  }

  /** With enough of the fee's asset for a hundred spends and change of every asset, the `expect` never fails. */
  lemma AmpleFeeCovered(first: ActionList, p: Pricing, view: AssetId -> seq<Record>)
    requires forall asset :: forall r <- view(asset) :: r.asset == asset
    requires Worst(first, p) <= Provided(first.actions, p.asset)
    requires first.fee.asset == p.asset ==> first.fee.amount <= Provided(first.actions, p.asset)
    ensures p.asset !in Required(Refresh(first, p)) && !FeeUncovered(first, p, view)
  {
    hide Assets, SpendAll, GasOf, Refresh, Worst, Required, Provided;
    var notes := Queried(first, p, view);
    var spends := SpendsFor(first.actions, notes, MAX_ITERATIONS);
    FeeBounded(first, p, [], Provided(first.actions, p.asset));
    NoSpends(first, p);
    RefreshRequired(first, p, p.asset);
    forall r | r in spends ensures r.asset in Assets(first.actions) {
      SpendsFromNotes(first.actions, notes, MAX_ITERATIONS, r);
      var a :| a in notes && r in notes[a];
      hide SpendsFor, ListAfter;
      PrioritizeFrom(view(a), r);
      RefreshRequired(first, p, a);
      if a !in Assets(first.actions) { NotMentioned(first.actions, a); }
    }
    FeeBounded(first, p, spends, Provided(first.actions, p.asset));
  }

  /** With the fee's asset not queried, and every other one of enough notes, the `expect` fails if the spends alone cost
      more than the actions provide. */
  lemma ScarceFeeUncovered(first: ActionList, p: Pricing, view: AssetId -> seq<Record>)
    requires p.asset !in Queried(first, p, view)
    requires var spends := SpendsFor(first.actions, Queried(first, p, view), MAX_ITERATIONS);
             && spends != [] && Unmet(SpendAll(first.actions, spends), Queried(first, p, view)) == {}
             && p.Estimate(GasOf(first.actions).Plus(SPEND_GAS.Times(|spends|))) > Provided(first.actions, p.asset)
    ensures FeeUncovered(first, p, view)
  {
    hide Refresh, Queried, SpendsFor, GasOf, SpendAll, RefreshChange;
    var spends := SpendsFor(first.actions, Queried(first, p, view), MAX_ITERATIONS);
    var init, last := spends[..|spends| - 1], spends[|spends| - 1];
    RequiredAfter(first, p, init, p.asset);
    SpendMore(first.actions, init, last);
    assert init + [last] == spends;
    var l := ListAfter(first, p, init).(actions := SpendAll(first.actions, spends));
    assert ListAfter(first, p, spends) == Refresh(l, p);
    SpendsGas(first.actions, spends);
    RefreshedFee(l, p);
    EstimateMonotone(p, GasOf(l.actions), GasOf(l.actions).Plus(OUTPUT_GAS.Times(|RefreshChange(l).change|)));
    hide Provided, ListAfter;
    forall a | a in Queried(first, p, view) ensures Provided(SpendAll(first.actions, spends), a) >= 0 {
      assert a !in Unmet(SpendAll(first.actions, spends), Queried(first, p, view));
    }
  }

  // ---------- An input on which the loop's `expect` fails ----------

  const PRICES := Pricing(0, Gas(0, 0, 0, 1000), Low)
  const OFFER := ActionList([Spend(Record(1, 0, 31, false)), Action(map[1 := -1], OUTPUT_GAS)], map[], Fee(0, 0))
  const COIN := Record(2, 1, 5, false)

  function Wallet(asset: AssetId): seq<Record> {
    if asset == 1 then [COIN] else []
  }

  lemma OfferBasics()
    ensures forall a :: Provided(OFFER.actions, a) == if a == 0 then 31 else if a == 1 then -1 else 0
    ensures GasOf(OFFER.actions).execution == 20
    ensures forall a :: Provided(OFFER.actions + [Spend(COIN)], a) == if a == 0 then 31 else if a == 1 then 4 else 0
    ensures GasOf(OFFER.actions + [Spend(COIN)]).execution == 30
  {
    var x, y := Spend(Record(1, 0, 31, false)), Action(map[1 := -1], OUTPUT_GAS);
    assert OFFER.actions == [] + [x] + [y];
    GasMore([], x);
    GasMore([] + [x], y);
    GasMore(OFFER.actions, Spend(COIN));
    forall a
      ensures Provided(OFFER.actions, a) == if a == 0 then 31 else if a == 1 then -1 else 0
      ensures Provided(OFFER.actions + [Spend(COIN)], a) == if a == 0 then 31 else if a == 1 then 4 else 0
    {
      ProvidedMore([], x, a);
      ProvidedMore([] + [x], y, a);
      ProvidedMore(OFFER.actions, Spend(COIN), a);
    }
  }

  lemma ExecutionFee(g: Gas)
    ensures PRICES.Estimate(g) == g.execution * 105 / 100
  {
    PerThousand(g.blockSpace);
    PerThousand(g.compactBlockSpace);
    PerThousand(g.verification);
    PerThousand(g.execution);
    assert PRICES.BaseFee(g) == g.execution;
  }

  lemma PerThousand(n: nat)
    ensures 0 * n / 1000 == 0 && 1000 * n / 1000 == n
  {
  }

  /** The first list: one change output, whose cost brings the fee to exactly what is provided. */
  lemma FirstList()
    ensures var l := Refresh(OFFER, PRICES);
            l.fee == Fee(0, 31) && Required(l) == {1} && l.actions == OFFER.actions
  {
    hide Refresh, Required, RefreshChange, GasOf, Provided, Assets;
    OfferBasics();
    forall a ensures a in RefreshChange(OFFER).change <==> a == 0 {
      RefreshedChange(OFFER, a);
    }
    assert RefreshChange(OFFER).change.Keys == {0};
    assert |RefreshChange(OFFER).change| == |RefreshChange(OFFER).change.Keys| == 1;
    RefreshedFee(OFFER, PRICES);
    ExecutionFee(GasOf(OFFER.actions).Plus(OUTPUT_GAS.Times(1)));
    forall a ensures a in Required(Refresh(OFFER, PRICES)) <==> a == 1 {
      RefreshRequired(OFFER, PRICES, a);
    }
    RefreshRequired(OFFER, PRICES, 0);
  }

  /** With the coin spent, its change costs more than is left. */
  lemma SecondList()
    ensures ListAfter(OFFER, PRICES, [COIN]).fee.amount > 31
  {
    hide Refresh, Required, RefreshChange, GasOf, Provided, Assets;
    FirstList();
    OfferBasics();
    var l := Refresh(OFFER, PRICES);
    var next := l.(actions := OFFER.actions + [Spend(COIN)]);
    NoSpends(OFFER, PRICES);
    ListMore(OFFER, PRICES, [], COIN);
    assert [] + [COIN] == [COIN];
    RefreshedChange(next, 1);
    assert 1 in RefreshChange(next).change.Keys;
    assert |RefreshChange(next).change| == |RefreshChange(next).change.Keys| >= 1;
    RefreshedFee(next, PRICES);
    ExecutionFee(GasOf(next.actions).Plus(OUTPUT_GAS.Times(|RefreshChange(next).change|)));
  }

  /** A spend that covers its transaction's fee exactly, and an output of another asset that still needs one. */
  lemma OfferUncovered()
    ensures FeeUncovered(OFFER, PRICES, Wallet)
  {
    var notes := Queried(OFFER, PRICES, Wallet);
    FirstList();
    SecondList();
    OfferBasics();
    hide Refresh, Required, GasOf, Provided, ListAfter;
    PrioritizeCoin();
    assert notes == map[1 := [COIN]];
    assert Unmet(OFFER.actions, notes) == {1};
    assert [COIN][..0] == [];
    assert Unmet(OFFER.actions + [Spend(COIN)], notes[1 := []]) == {};
    assert SpendsFor(OFFER.actions + [Spend(COIN)], notes[1 := []], MAX_ITERATIONS - 1) == [];
    assert SpendsFor(OFFER.actions, notes, MAX_ITERATIONS) == [COIN];
  }

  lemma PrioritizeCoin()
    ensures Prioritize([COIN]) == [COIN]
  {
    assert [COIN][..0] == [];
  }

  /** The planner run on that input. */
  method ExpectFails() returns (outcome: Outcome)
    ensures outcome == NeverQueried(0)
  {
    OfferUncovered();
    hide FeeUncovered;
    var list;
    ghost var spends, left;
    outcome, list, spends, left := Plan(OFFER, PRICES, Wallet);
  }
}
