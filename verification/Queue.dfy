/** The ceremony's queue of participants, kept in a vector sorted by bid. */
module Queue {
  import opened Prelude

  type Address = nat

  /** A participant is one connection of an address. */
  datatype Participant = Participant(address: Address, connection: nat)

  datatype Entry = Entry(participant: Participant, bid: nat)
  {
    function Address(): Address {
      participant.address
    }
  }

  predicate Sorted(s: seq<Entry>) {
    forall i, j :: 0 <= i < j < |s| ==> s[i].bid <= s[j].bid
  }

  predicate UniqueAddresses(s: seq<Entry>) {
    forall i, j :: 0 <= i < j < |s| ==> s[i].Address() != s[j].Address()
  }

  /** The entries that pass, in order. */
  function Retain(s: seq<Entry>, f: Entry -> bool): seq<Entry> {
    if s == [] then []
    else
      var rest, e := Retain(s[..|s| - 1], f), s[|s| - 1];
      if f(e) then rest + [e] else rest
  }

  lemma {:induction false} RetainMembers(s: seq<Entry>, f: Entry -> bool, e: Entry)
    ensures e in Retain(s, f) <==> e in s && f(e)
    decreases |s|
  {
    if s != [] {
      RetainMembers(s[..|s| - 1], f, e);
      assert s == s[..|s| - 1] + [s[|s| - 1]];
    }
  }

  lemma {:induction false} RetainOrder(s: seq<Entry>, f: Entry -> bool)
    requires Sorted(s) && UniqueAddresses(s)
    ensures Sorted(Retain(s, f)) && UniqueAddresses(Retain(s, f))
    decreases |s|
  {
    if s != [] {
      var init, last := s[..|s| - 1], s[|s| - 1];
      RetainOrder(init, f);
      forall e | e in Retain(init, f) ensures e.bid <= last.bid && e.Address() != last.Address() {
        RetainMembers(init, f, e);
        var i :| 0 <= i < |init| && s[i] == e;
      }
      OrderMore(Retain(init, f), last);
    }
  }

  method RetainWhere(s: seq<Entry>, f: Entry -> bool) returns (r: seq<Entry>)
    ensures r == Retain(s, f)
  {
    r := [];
    for i := 0 to |s|
      invariant r == Retain(s[..i], f)
    {
      assert s[..i + 1][..i] == s[..i];
      if f(s[i]) {
        r := r + [s[i]];
      }
    }
    assert s[..|s|] == s;
  }

  /** A place for the bid: that of an entry with the same bid, if there is one, else where it belongs. */
  method BinarySearch(s: seq<Entry>, bid: nat) returns (position: nat, found: bool)
    requires Sorted(s)
    ensures position <= |s|
    ensures forall i :: 0 <= i < position ==> s[i].bid <= bid
    ensures forall i :: position <= i < |s| ==> bid <= s[i].bid
    ensures found <==> exists e <- s :: e.bid == bid
    ensures found ==> position < |s| && s[position].bid == bid
  {
    var low, high := 0, |s|;
    while low < high
      invariant 0 <= low <= high <= |s|
      invariant forall i :: 0 <= i < low ==> s[i].bid < bid
      invariant forall i :: high <= i < |s| ==> bid < s[i].bid
    {
      var mid := (low + high) / 2;
      if s[mid].bid < bid {
        low := mid + 1;
      } else if s[mid].bid == bid {
        return mid, true;
      } else {
        high := mid;
      }
    }
    return low, false;
  }

  function InsertAt(s: seq<Entry>, position: nat, e: Entry): seq<Entry>
    requires position <= |s|
  {
    s[..position] + [e] + s[position..]
  }

  lemma InsertKeeps(s: seq<Entry>, position: nat, e: Entry)
    requires Sorted(s) && UniqueAddresses(s) && position <= |s|
    requires forall i :: 0 <= i < position ==> s[i].bid <= e.bid
    requires forall i :: position <= i < |s| ==> e.bid <= s[i].bid
    requires forall x <- s :: x.Address() != e.Address()
    ensures Sorted(InsertAt(s, position, e)) && UniqueAddresses(InsertAt(s, position, e))
    ensures forall x :: x in InsertAt(s, position, e) <==> x in s || x == e
  {
    assert s == s[..position] + s[position..];
    SplitOrder(s, position);
    OrderMore(s[..position], e);
    OrderAppend(s[..position] + [e], s[position..]);
  }

  lemma SplitOrder(s: seq<Entry>, position: nat)
    requires Sorted(s) && UniqueAddresses(s) && position <= |s|
    ensures Sorted(s[..position]) && UniqueAddresses(s[..position])
    ensures Sorted(s[position..]) && UniqueAddresses(s[position..])
    ensures forall x <- s[..position], y <- s[position..] :: x.bid <= y.bid && x.Address() != y.Address()
  {
    forall x, y | x in s[..position] && y in s[position..] ensures x.bid <= y.bid && x.Address() != y.Address() {
      var i :| 0 <= i < position && s[i] == x;
      var j :| position <= j < |s| && s[j] == y;
    }
  }

  lemma OrderAppend(s: seq<Entry>, t: seq<Entry>)
    requires Sorted(s) && UniqueAddresses(s) && Sorted(t) && UniqueAddresses(t)
    requires forall x <- s, y <- t :: x.bid <= y.bid && x.Address() != y.Address()
    ensures Sorted(s + t) && UniqueAddresses(s + t)
  {
    forall i, j | 0 <= i < j < |s + t|
      ensures (s + t)[i].bid <= (s + t)[j].bid && (s + t)[i].Address() != (s + t)[j].Address()
    {
      if i < |s| <= j { assert s[i] in s && t[j - |s|] in t; }
    }
  }

  lemma OrderMore(s: seq<Entry>, last: Entry)
    requires Sorted(s) && UniqueAddresses(s)
    requires forall e <- s :: e.bid <= last.bid && e.Address() != last.Address()
    ensures Sorted(s + [last]) && UniqueAddresses(s + [last])
  {
    OrderAppend(s, [last]);
  }

  // ---------- The vector and the map it stands for ----------

  /** The vector holds each address's entry, in order of bids. */
  ghost predicate Queued(s: seq<Entry>, m: map<Address, Entry>) {
    && Sorted(s) && UniqueAddresses(s)
    && (forall e <- s :: e.Address() in m && m[e.Address()] == e)
    && (forall a <- m :: m[a] in s && m[a].Address() == a)
  }

  function Filtered(m: map<Address, Entry>, f: Entry -> bool): map<Address, Entry> {
    map a | a in m && f(m[a]) :: m[a]
  }

  lemma RetainQueued(s: seq<Entry>, m: map<Address, Entry>, f: Entry -> bool)
    requires Queued(s, m)
    ensures Queued(Retain(s, f), Filtered(m, f))
  {
    hide Retain;
    RetainOrder(s, f);
    forall e ensures e in Retain(s, f) <==> e in s && f(e) {
      RetainMembers(s, f, e);
    }
    hide Sorted, UniqueAddresses;
  }

  lemma InsertQueued(s: seq<Entry>, m: map<Address, Entry>, position: nat, e: Entry)
    requires Queued(s, m) && e.Address() !in m && position <= |s|
    requires forall i :: 0 <= i < position ==> s[i].bid <= e.bid
    requires forall i :: position <= i < |s| ==> e.bid <= s[i].bid
    ensures Queued(InsertAt(s, position, e), m[e.Address() := e])
  {
    InsertKeeps(s, position, e);
    hide InsertAt, Sorted, UniqueAddresses;
  }

  /** The last entry of the vector has a highest bid. */
  lemma LastQueued(s: seq<Entry>, m: map<Address, Entry>)
    requires Queued(s, m)
    ensures s == [] <==> m == map[]
    ensures s != [] ==>
              var e := s[|s| - 1];
              && e.Address() in m && m[e.Address()] == e
              && (forall a <- m :: m[a].bid <= e.bid)
              && Queued(s[..|s| - 1], m - {e.Address()})
  {
    assert forall a <- m :: m[a] in s;
    if s != [] {
      var init, e := s[..|s| - 1], s[|s| - 1];
      InitOrder(s);
      hide Sorted, UniqueAddresses;
      forall a | a in m ensures m[a].bid <= e.bid && (a != e.Address() ==> m[a] in init) {
        assert m[a] in s;
      }
    }
  }

  lemma InitOrder(s: seq<Entry>)
    requires s != [] && Sorted(s) && UniqueAddresses(s)
    ensures var init, e := s[..|s| - 1], s[|s| - 1];
            && Sorted(init) && UniqueAddresses(init)
            && (forall x <- init :: x in s && x.Address() != e.Address())
            && (forall x <- s :: x.bid <= e.bid && (x in init || x == e))
            && e in s
  {
    var init, e := s[..|s| - 1], s[|s| - 1];
    assert s == init + [e];
    forall x | x in s ensures x.bid <= e.bid {
      var i :| 0 <= i < |s| && s[i] == x;
    }
    forall x | x in init ensures x.Address() != e.Address() {
      var i :| 0 <= i < |init| && s[i] == x;
    }
  }

  class Inner {
    var sorted: seq<Entry>
    var addresses: set<Address>

    /** Each address with its participant and latest bid. */
    ghost var bids: map<Address, Entry>

    ghost predicate Valid()
      reads this
    {
      Queued(sorted, bids) && addresses == bids.Keys
    }

    constructor ()
      ensures Valid() && bids == map[]
    {
      sorted, addresses, bids := [], {}, map[];
    }

    function TopBid(): Option<nat>
      reads this
    {
      if sorted == [] then None else Some(sorted[|sorted| - 1].bid)
    }

    /** The participant's entry replaces any other of the same address. */
    method Push(participant: Participant, bid: nat)
      requires Valid()
      modifies this
      ensures Valid()
      ensures bids == old(bids)[participant.address := Entry(participant, bid)]
    {
      hide Queued, Retain, InsertAt;
      var address := participant.address;
      var e := Entry(participant, bid);
      ghost var others := bids - {address};
      if address in addresses {
        var isOther := (x: Entry) => x.Address() != address;
        RetainQueued(sorted, bids, isOther);
        assert Filtered(bids, isOther) == others by { QueuedKeys(sorted, bids); }
        sorted := RetainWhere(sorted, isOther);
      } else {
        assert others == bids;
      }
      QueuedSorted(sorted, others);
      var position, found := BinarySearch(sorted, bid);
      InsertQueued(sorted, others, position, e);
      sorted := InsertAt(sorted, position, e);
      addresses := addresses + {address};
      bids := bids[address := e];
      assert others[address := e] == bids;
    }

    /** Exactly the participants that are still connected stay. */
    method Prune(live: set<Participant>)
      requires Valid()
      modifies this
      ensures Valid()
      ensures bids == Filtered(old(bids), (e: Entry) => e.participant in live)
    {
      hide Queued, Retain;
      var isLive := (e: Entry) => e.participant in live;
      var isDead := (e: Entry) => e.participant !in live;
      RetainQueued(sorted, bids, isLive);
      RetainQueued(sorted, bids, isDead);
      var dead := RetainWhere(sorted, isDead);
      QueuedKeys(dead, Filtered(bids, isDead));
      addresses := addresses - set e | e in dead :: e.Address();
      sorted := RetainWhere(sorted, isLive);
      bids := Filtered(bids, isLive);
    }

    /** Remove an entry that nobody outbids. */
    method Pop() returns (r: Option<Entry>)
      requires Valid()
      modifies this
      ensures Valid()
      ensures r.None? <==> old(bids) == map[]
      ensures r.None? ==> bids == old(bids)
      ensures r.Some? ==>
                && r.value.Address() in old(bids) && old(bids)[r.value.Address()] == r.value
                && (forall a <- old(bids) :: old(bids)[a].bid <= r.value.bid)
                && bids == old(bids) - {r.value.Address()}
      ensures r.Some? ==> old(TopBid()) == Some(r.value.bid)
    {
      LastQueued(sorted, bids);
      hide Queued;
      if sorted == [] {
        return None;
      }
      var e := sorted[|sorted| - 1];
      sorted := sorted[..|sorted| - 1];
      addresses := addresses - {e.Address()};
      bids := bids - {e.Address()};
      return Some(e);
    }

    /** One selection: drop whoever left, then take a highest bid among those still connected. */
    method PruneAndPop(live: set<Participant>) returns (r: Option<Entry>)
      requires Valid()
      modifies this
      ensures Valid()
      ensures r.None? <==> forall a <- old(bids) :: old(bids)[a].participant !in live
      ensures r.Some? ==>
                && r.value.participant in live
                && r.value.Address() in old(bids) && old(bids)[r.value.Address()] == r.value
                && forall a <- old(bids) :: old(bids)[a].participant in live ==> old(bids)[a].bid <= r.value.bid
      ensures bids == Filtered(old(bids), (e: Entry) => e.participant in live)
                      - if r.Some? then {r.value.Address()} else {}
    {
      Prune(live);
      hide Queued;
      ghost var pruned := bids;
      r := Pop();
      if r.None? {
        assert forall a <- old(bids) :: old(bids)[a].participant in live ==> a in pruned;
        assert pruned - {} == pruned;
      } else {
        forall a | a in old(bids) && old(bids)[a].participant in live ensures old(bids)[a].bid <= r.value.bid {
          assert a in pruned && pruned[a] == old(bids)[a];
        }
      }
    }
  }

  lemma QueuedKeys(s: seq<Entry>, m: map<Address, Entry>)
    requires Queued(s, m)
    ensures forall a <- m :: m[a].Address() == a
    ensures (set e | e in s :: e.Address()) == m.Keys
  {
    forall a | a in m ensures exists e :: e in s && e.Address() == a {
      assert m[a] in s;
    }
  }

  lemma QueuedSorted(s: seq<Entry>, m: map<Address, Entry>)
    requires Queued(s, m)
    ensures Sorted(s)
  {
  }

  // ---------- Any sequence of operations ----------

  datatype Op = Push(participant: Participant, bid: nat) | Prune(live: set<Participant>) | Pop

  /** What the operations leave, as entries by address: pushes replace, prunes filter, pops drop a highest bid. */
  ghost predicate Leaves(m: map<Address, Entry>, op: Op, m': map<Address, Entry>) {
    match op
    case Push(p, bid) => m' == m[p.address := Entry(p, bid)]
    case Prune(live) => m' == Filtered(m, (e: Entry) => e.participant in live)
    case Pop =>
      if m == map[] then m' == m
      else exists a <- m :: (forall b <- m :: m[b].bid <= m[a].bid) && m' == m - {a}
  }

  ghost predicate LeavesAll(states: seq<map<Address, Entry>>, ops: seq<Op>) {
    && |states| == |ops| + 1 && states[0] == map[]
    && forall i :: 0 <= i < |ops| ==> Leaves(states[i], ops[i], states[i + 1])
  }

  /** The address's bid of step i is the one it has in the end, with no prune or pop of it since. */
  ghost predicate Latest(states: seq<map<Address, Entry>>, ops: seq<Op>, a: Address, i: nat)
    requires |states| == |ops| + 1 && a in states[|ops|] && i < |ops|
  {
    && ops[i].Push? && ops[i].participant.address == a
    && states[|ops|][a] == Entry(ops[i].participant, ops[i].bid)
    && forall j :: i < j < |ops| ==>
         && (ops[j].Push? ==> ops[j].participant.address != a)
         && (ops[j].Prune? ==> ops[i].participant in ops[j].live)
         && a in states[j + 1]
  }

  /** An address keeps its latest bid until a prune without it or a pop of it. */
  lemma {:induction false} LatestBid(states: seq<map<Address, Entry>>, ops: seq<Op>, a: Address)
    requires LeavesAll(states, ops) && a in states[|ops|]
    ensures exists i :: 0 <= i < |ops| && Latest(states, ops, a, i)
    decreases |ops|
  {
    if ops != [] {
      var n := |ops| - 1;
      var op := ops[n];
      assert Leaves(states[n], op, states[n + 1]);
      if op.Push? && op.participant.address == a {
        assert Latest(states, ops, a, n);
      } else {
        assert a in states[n] && states[n][a] == states[n + 1][a];
        assert LeavesAll(states[..n + 1], ops[..n]) by { LeavesInit(states, ops); }
        hide LeavesAll;
        LatestBid(states[..n + 1], ops[..n], a);
        var i :| 0 <= i < n && Latest(states[..n + 1], ops[..n], a, i);
        LatestKept(states, ops, a, i);
      }
    }
  }

  lemma LeavesInit(states: seq<map<Address, Entry>>, ops: seq<Op>)
    requires LeavesAll(states, ops) && ops != []
    ensures LeavesAll(states[..|ops|], ops[..|ops| - 1])
  {
    hide Leaves;
  }

  lemma LatestKept(states: seq<map<Address, Entry>>, ops: seq<Op>, a: Address, i: nat)
    requires |states| == |ops| + 1 && ops != [] && a in states[|ops| - 1] && i < |ops| - 1
    requires Latest(states[..|ops|], ops[..|ops| - 1], a, i)
    requires var n := |ops| - 1;
             && a in states[n + 1] && states[n + 1][a] == states[n][a]
             && Leaves(states[n], ops[n], states[n + 1]) && (ops[n].Push? ==> ops[n].participant.address != a)
    ensures Latest(states, ops, a, i)
  {
    var n := |ops| - 1;
    forall j | i < j < |ops|
      ensures ops[j].Push? ==> ops[j].participant.address != a
      ensures ops[j].Prune? ==> ops[i].participant in ops[j].live
      ensures a in states[j + 1]
    {
      if j < n { assert ops[..n][j] == ops[j] && states[..n + 1][j + 1] == states[j + 1]; }
    }
  }

  /** The queue's methods make such runs. */
  method RunQueue(ops: seq<Op>) returns (ghost states: seq<map<Address, Entry>>, sorted: seq<Entry>)
    ensures LeavesAll(states, ops)
    ensures Sorted(sorted) && UniqueAddresses(sorted)
    ensures forall e :: e in sorted <==> e.Address() in states[|ops|] && states[|ops|][e.Address()] == e
  {
    var queue := new Inner();
    hide Queued;
    states := [queue.bids];
    for i := 0 to |ops|
      invariant fresh(queue) && queue.Valid()
      invariant |states| == i + 1 && states[0] == map[] && states[i] == queue.bids
      invariant forall k :: 0 <= k < i ==> Leaves(states[k], ops[k], states[k + 1])
    {
      match ops[i] {
        case Push(p, bid) => queue.Push(p, bid);
        case Prune(live) => queue.Prune(live);
        case Pop =>
          var r := queue.Pop();
      }
      states := states + [queue.bids];
    }
    sorted := queue.sorted;
    QueuedMembers(queue.sorted, queue.bids);
  }

  lemma QueuedMembers(s: seq<Entry>, m: map<Address, Entry>)
    requires Queued(s, m)
    ensures Sorted(s) && UniqueAddresses(s)
    ensures forall e :: e in s <==> e.Address() in m && m[e.Address()] == e
  {
  }
}
