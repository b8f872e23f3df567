/** Custody policies: which transactions may be authorized. */
module Policy {
  import opened Prelude

  type Signer = nat
  type Address = nat

  /** A packet claims a signer. Whether its signature verifies is decided by the signature scheme. */
  datatype PreAuth = PreAuth(signer: Signer, signature: nat)

  datatype Action =
    | SpendPlan
    | OutputPlan(destination: Address)
    | SwapPlan(claimAddress: Address)
    | IbcAction
    | OtherPlan

  datatype AuthPolicy =
    | DestinationAllowList(allowed: seq<Address>)
    | OnlyIbcRelay
    | PreAuthorization(required: nat, signers: seq<Signer>)

  // ---------- Pre-authorization ----------

  /** The signer's first packet is at this place. */
  predicate FirstOf(packets: seq<PreAuth>, i: nat) {
    i < |packets| && forall j :: 0 <= j < i ==> packets[j].signer != packets[i].signer
  }

  /** The distinct allowed signers that sent anything. */
  function Present(packets: seq<PreAuth>, allowed: set<Signer>): set<Signer> {
    set p | p in packets && p.signer in allowed :: p.signer
  }

  /** Every allowed signer's first packet verifies, and enough distinct allowed signers are present. */
  predicate Authorized(packets: seq<PreAuth>, allowed: set<Signer>, required: nat, verifies: PreAuth -> bool) {
    && (forall i :: 0 <= i < |packets| && FirstOf(packets, i) && packets[i].signer in allowed ==> verifies(packets[i]))
    && |Present(packets, allowed)| >= required
  }

  /** Signers are taken out of the allowed set as their packets come, so only the first packet of each is looked at.
      Repetitions in either list change nothing. */
  method CheckPreAuthorizations(required: nat, signers: seq<Signer>, packets: seq<PreAuth>, verifies: PreAuth -> bool)
    returns (r: Result<(), string>)
    ensures r.Ok? <==> Authorized(packets, ToSet(signers), required, verifies)
  {
    ghost var all := ToSet(signers);
    var allowed := ToSet(signers);
    var seen: set<Signer> := {};
    for i := 0 to |packets|
      invariant seen == Present(packets[..i], all)
      invariant allowed == all - seen
      invariant forall j :: 0 <= j < i && FirstOf(packets, j) && packets[j].signer in all ==> verifies(packets[j])
    {
      var packet := packets[i];
      assert packets[..i + 1] == packets[..i] + [packet];
      assert Present(packets[..i + 1], all)
          == Present(packets[..i], all) + if packet.signer in all then {packet.signer} else {};
      if packet.signer in allowed {
        allowed := allowed - {packet.signer};
        FirstSeen(packets, i, all);
        if !verifies(packet) {
          return Err("invalid signature");
        }
        seen := seen + {packet.signer};
      } else if packet.signer in all {
        FirstSeen(packets, i, all);
      }
    }
    assert packets[..|packets|] == packets;
    if |seen| < required {
      return Err("too few signatures");
    }
    return Ok(());
  }

  /** A signer has been seen exactly when its packet is not its first. */
  lemma FirstSeen(packets: seq<PreAuth>, i: nat, allowed: set<Signer>)
    requires i < |packets| && packets[i].signer in allowed
    ensures packets[i].signer in Present(packets[..i], allowed) <==> !FirstOf(packets, i)
  {
    if !FirstOf(packets, i) {
      var j :| 0 <= j < i && packets[j].signer == packets[i].signer;
      assert packets[..i][j] == packets[j];
      assert packets[j] in packets[..i];
    }
  }

  /** Only which signers are allowed matters, not how often each is listed. */
  lemma SignersAsSet(signers: seq<Signer>, again: seq<Signer>, required: nat, packets: seq<PreAuth>,
                     verifies: PreAuth -> bool)
    requires forall s :: s in signers <==> s in again
    ensures Authorized(packets, ToSet(signers), required, verifies)
            == Authorized(packets, ToSet(again), required, verifies)
  {
    assert ToSet(signers) == ToSet(again);
  }

  /** A further packet of a signer that sent one already neither helps nor hurts, whatever its signature. */
  lemma RepeatsDoNotCount(packets: seq<PreAuth>, packet: PreAuth, allowed: set<Signer>, required: nat,
                          verifies: PreAuth -> bool)
    requires exists p <- packets :: p.signer == packet.signer
    ensures Authorized(packets + [packet], allowed, required, verifies)
            == Authorized(packets, allowed, required, verifies)
  {
    var more := packets + [packet];
    assert Present(more, allowed) == Present(packets, allowed);
    var p :| p in packets && p.signer == packet.signer;
    var k :| 0 <= k < |packets| && packets[k] == p;
    assert more[k].signer == more[|packets|].signer;
    assert !FirstOf(more, |packets|);
    forall i | 0 <= i < |packets| ensures FirstOf(more, i) == FirstOf(packets, i) {
      assert forall j :: 0 <= j <= i ==> more[j] == packets[j];
    }
    if Authorized(more, allowed, required, verifies) {
      forall i | 0 <= i < |packets| && FirstOf(packets, i) && packets[i].signer in allowed
        ensures verifies(packets[i])
      {
        assert more[i] == packets[i] && FirstOf(more, i);
      }
    }
  }

  /** A signer that is not allowed changes nothing either. */
  lemma StrangersDoNotCount(packets: seq<PreAuth>, packet: PreAuth, allowed: set<Signer>, required: nat,
                            verifies: PreAuth -> bool)
    requires packet.signer !in allowed
    ensures Authorized(packets + [packet], allowed, required, verifies)
            == Authorized(packets, allowed, required, verifies)
  {
    var more := packets + [packet];
    assert Present(more, allowed) == Present(packets, allowed);
    forall i | 0 <= i < |packets| ensures FirstOf(more, i) == FirstOf(packets, i) {
      assert forall j :: 0 <= j <= i ==> more[j] == packets[j];
    }
    if Authorized(more, allowed, required, verifies) {
      forall i | 0 <= i < |packets| && FirstOf(packets, i) && packets[i].signer in allowed
        ensures verifies(packets[i])
      {
        assert more[i] == packets[i] && FirstOf(more, i);
      }
    }
  }

  // ---------- Transactions ----------

  /** The plan's values leave only to allowed addresses, its actions are a relayer's, or it is pre-authorized. */
  predicate Allowed(policy: AuthPolicy, plan: seq<Action>, packets: seq<PreAuth>, verifies: PreAuth -> bool) {
    match policy
    case DestinationAllowList(allowed) =>
      && (forall a <- plan :: a.OutputPlan? ==> a.destination in allowed)
      && (forall a <- plan :: a.SwapPlan? ==> a.claimAddress in allowed)
    case OnlyIbcRelay => forall a <- plan :: a.SpendPlan? || a.OutputPlan? || a.IbcAction?
    case PreAuthorization(required, signers) => Authorized(packets, ToSet(signers), required, verifies)
  }

  /** Outputs first, then swaps; the first one not allowed fails the check. */
  method CheckTransaction(policy: AuthPolicy, plan: seq<Action>, packets: seq<PreAuth>, verifies: PreAuth -> bool)
    returns (r: Result<(), string>)
    ensures r.Ok? <==> Allowed(policy, plan, packets, verifies)
  {
    match policy
    case DestinationAllowList(allowed) => {
      for i := 0 to |plan|
        invariant forall a <- plan[..i] :: a.OutputPlan? ==> a.destination in allowed
      {
        if plan[i].OutputPlan? && plan[i].destination !in allowed {
          return Err("output not in allow list");
        }
      }
      for i := 0 to |plan|
        invariant forall a <- plan[..i] :: a.SwapPlan? ==> a.claimAddress in allowed
      {
        if plan[i].SwapPlan? && plan[i].claimAddress !in allowed {
          return Err("claim address not in allow list");
        }
      }
      assert plan[..|plan|] == plan;
      r := Ok(());
    }
    case OnlyIbcRelay => {
      for i := 0 to |plan|
        invariant forall a <- plan[..i] :: a.SpendPlan? || a.OutputPlan? || a.IbcAction?
      {
        if plan[i].SwapPlan? || plan[i].OtherPlan? {
          assert plan[i] in plan;
          return Err("action not allowed");
        }
      }
      assert plan[..|plan|] == plan;
      r := Ok(());
    }
    case PreAuthorization(required, signers) => {
      r := CheckPreAuthorizations(required, signers, packets, verifies);
    }
  }
}
