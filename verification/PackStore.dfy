/** The in-memory policy-pack store: first what it means on values, then the store itself, whose packs
    hold their policies in heap slices that must not be shared with callers. */
module PackStore {
  import opened Domain
  import opened Sequences
  import opened Text

  type Packs = map<string, PolicyPack>

  datatype StoreError = Cancelled | TenantRequired | IDRequired | NotFound

  // ----- Meaning of the operations -----------------------------------------------------

  function KeyOf(pack: PolicyPack): string {
    Key(pack.tenantID, pack.id)
  }

  /** What `Upsert` fills into a policy: the tenant and identifier of its pack where they are empty. */
  function DefaultPolicy(policy: Policy, tenantID: string, packID: string): Policy {
    policy.(
      tenantID := if policy.tenantID == "" then tenantID else policy.tenantID,
      policyPackID := if policy.policyPackID == "" then packID else policy.policyPackID)
  }

  function DefaultPolicies(policies: seq<Policy>, tenantID: string, packID: string): seq<Policy> {
    seq(|policies|, i requires 0 <= i < |policies| => DefaultPolicy(policies[i], tenantID, packID))
  }

  function DefaultPack(pack: PolicyPack): PolicyPack {
    pack.(policies := DefaultPolicies(pack.policies, pack.tenantID, pack.id))
  }

  function UpsertError(pack: PolicyPack, cancelled: bool): Option<StoreError> {
    if cancelled then Some(Cancelled)
    else if pack.tenantID == "" then Some(TenantRequired)
    else if pack.id == "" then Some(IDRequired)
    else None
  }

  function AfterUpsert(packs: Packs, pack: PolicyPack, cancelled: bool): Packs {
    if UpsertError(pack, cancelled).Some? then packs else packs[KeyOf(pack) := DefaultPack(pack)]
  }

  function AfterSetEnabled(packs: Packs, tenantID: string, packID: string, enabled: bool, cancelled: bool): Packs {
    var k := Key(tenantID, packID);
    if cancelled || k !in packs then packs else packs[k := packs[k].(enabled := enabled)]
  }

  /** `stored` is `pack` as the store keeps it: everything as given, the tenant and the pack filled into the
      policies that name none. */
  predicate StoredAs(stored: PolicyPack, pack: PolicyPack) {
    && stored.id == pack.id && stored.tenantID == pack.tenantID && stored.name == pack.name
    && stored.version == pack.version && stored.enabled == pack.enabled
    && |stored.policies| == |pack.policies|
    && forall i | 0 <= i < |pack.policies| :: var p := pack.policies[i];
         stored.policies[i] == p.(tenantID := if p.tenantID != "" then p.tenantID else pack.tenantID,
                                  policyPackID := if p.policyPackID != "" then p.policyPackID else pack.id)
  }

  /** Whatever was stored before, an upsert without error stores this pack at its key and changes no other
      entry; one with an error changes nothing. */
  lemma UpsertStores(packs: Packs, pack: PolicyPack, cancelled: bool)
    ensures var error, after := UpsertError(pack, cancelled), AfterUpsert(packs, pack, cancelled);
      && error == (if cancelled then Some(Cancelled) else if pack.tenantID == "" then Some(TenantRequired)
                   else if pack.id == "" then Some(IDRequired) else None)
      && (error.Some? ==> after == packs)
      && (error.None? ==>
            var key := Key(pack.tenantID, pack.id);
            && key in after && StoredAs(after[key], pack)
            && forall k | k != key :: (k in after <==> k in packs) && (k in packs ==> after[k] == packs[k]))
  {
  }

  /** Switching sets the flag of the named pack, and nothing else changes; without that pack nothing does. */
  lemma SetEnabledSwitches(packs: Packs, tenantID: string, packID: string, enabled: bool, cancelled: bool)
    ensures var key, after := Key(tenantID, packID), AfterSetEnabled(packs, tenantID, packID, enabled, cancelled);
      && after.Keys == packs.Keys
      && (forall k | k in packs && k != key :: after[k] == packs[k])
      && (key in packs ==> after[key] == packs[key].(enabled := if cancelled then packs[key].enabled else enabled))
  {
  }

  function OfTenant(packs: Packs, tenantID: string): string -> seq<PolicyPack> {
    k => if k in packs && packs[k].tenantID == tenantID then [packs[k]] else []
  }

  function EnabledOfTenant(packs: Packs, tenantID: string): string -> seq<PolicyPack> {
    k => if k in packs && packs[k].tenantID == tenantID && packs[k].enabled then [packs[k]] else []
  }

  /** The tenant's packs when the map is walked in the order `keys`. */
  function Listing(packs: Packs, keys: seq<string>, tenantID: string): seq<PolicyPack> {
    FlatMap(keys, OfTenant(packs, tenantID))
  }

  function EnabledListing(packs: Packs, keys: seq<string>, tenantID: string): seq<PolicyPack> {
    FlatMap(keys, EnabledOfTenant(packs, tenantID))
  }

  /** A listing gives each pack stored for the tenant once, in the map's order; an enabled listing those among
      them that are enabled. */
  lemma ListedPacks(packs: Packs, order: seq<string>, tenantID: string, onlyEnabled: bool) returns (own: seq<string>)
    requires Enumerates(order, packs.Keys)
    ensures NoDuplicates(own)
    ensures forall k :: k in own <==> k in packs && packs[k].tenantID == tenantID && (onlyEnabled ==> packs[k].enabled)
    ensures var listed := if onlyEnabled then EnabledListing(packs, order, tenantID)
      else Listing(packs, order, tenantID);
      |listed| == |own| && forall i | 0 <= i < |own| :: own[i] in packs && listed[i] == packs[own[i]]
  {
    var g := if onlyEnabled then EnabledOfTenant(packs, tenantID) else OfTenant(packs, tenantID);
    var keep := k => k in packs && packs[k].tenantID == tenantID && (onlyEnabled ==> packs[k].enabled);
    own := PickedInOrder(order, packs.Keys, keep, g);
    forall i | 0 <= i < |own| ensures own[i] in packs && FlatMap(order, g)[i] == packs[own[i]] {
      assert own[i] in own;
    }
  }

  predicate IsEnabled(pack: PolicyPack) {
    pack.enabled
  }

  lemma {:induction false} EnabledListingFilters(packs: Packs, keys: seq<string>, tenantID: string)
    ensures EnabledListing(packs, keys, tenantID) == Filter(Listing(packs, keys, tenantID), IsEnabled)
  {
    if keys != [] {
      EnabledListingFilters(packs, keys[1..], tenantID);
      FilterConcat(OfTenant(packs, tenantID)(keys[0]), Listing(packs, keys[1..], tenantID), IsEnabled);
    }
  }

  /** An enabled listing holds exactly the enabled packs of the tenant. */
  lemma EnabledListingMembers(packs: Packs, keys: seq<string>, tenantID: string, pack: PolicyPack)
    requires Enumerates(keys, packs.Keys)
    ensures pack in EnabledListing(packs, keys, tenantID)
       <==> exists k | k in packs :: packs[k] == pack && pack.tenantID == tenantID && pack.enabled
  {
    FlatMapMember(keys, EnabledOfTenant(packs, tenantID), pack);
    if k :| k in packs && packs[k] == pack && pack.tenantID == tenantID && pack.enabled {
      assert k in keys && pack in EnabledOfTenant(packs, tenantID)(k);
    }
  }

  /** The packs of one tenant. */
  function View(packs: Packs, tenantID: string): Packs {
    map k | k in packs && packs[k].tenantID == tenantID :: packs[k]
  }

  /** A tenant's listing depends, up to order, on that tenant's packs alone. */
  lemma ListingFromView(packs: Packs, keys: seq<string>, others: Packs, otherKeys: seq<string>, tenantID: string)
    requires Enumerates(keys, packs.Keys) && Enumerates(otherKeys, others.Keys)
    requires View(packs, tenantID) == View(others, tenantID)
    ensures multiset(EnabledListing(packs, keys, tenantID)) == multiset(EnabledListing(others, otherKeys, tenantID))
  {
    var keep := k => k in View(packs, tenantID);
    var g, h := EnabledOfTenant(packs, tenantID), EnabledOfTenant(others, tenantID);
    var xs, ys := Filter(keys, keep), Filter(otherKeys, keep);
    NoDuplicatesFilter(keys, keep);
    NoDuplicatesFilter(otherKeys, keep);
    assert forall k :: k in View(others, tenantID) <==> k in View(packs, tenantID);
    forall k ensures k in xs <==> k in ys {
      FilterMember(keys, keep, k);
      FilterMember(otherKeys, keep, k);
    }
    SameElements(xs, ys);
    FlatMapPermutation(xs, ys, g);
    forall k | k in ys ensures g(k) == h(k) {
      FilterMember(otherKeys, keep, k);
      assert View(packs, tenantID)[k] == View(others, tenantID)[k];
    }
    FlatMapCongruent(ys, g, h);
    assert forall k | k in keys && !keep(k) :: g(k) == [];
    assert forall k | k in otherKeys && !keep(k) :: h(k) == [];
    FlatMapOfFilter(keys, keep, g);
    FlatMapOfFilter(otherKeys, keep, h);
  }

  // ----- The store ---------------------------------------------------------------------

  /** A pack as the program passes it around: its policies are a reference to a slice. */
  datatype PackRef = PackRef(id: string, tenantID: string, name: string, version: string, enabled: bool,
                             policies: array<Policy>)
  {
    function Value(): PolicyPack
      reads policies
    {
      PolicyPack(id, tenantID, name, version, enabled, policies[..])
    }
  }

  /** Copies a slice of policies. */
  method ClonePolicies(policies: array<Policy>) returns (copy: array<Policy>)
    ensures fresh(copy) && copy[..] == policies[..]
  {
    copy := new Policy[policies.Length](i requires 0 <= i < policies.Length reads policies => policies[i]);
  }

  method ClonePack(pack: PackRef) returns (copy: PackRef)
    ensures fresh(copy.policies) && copy.Value() == pack.Value()
  {
    var policies := ClonePolicies(pack.policies);
    copy := pack.(policies := policies);
  }

  /** `refs` are fresh-standing references to the packs `values`. */
  ghost predicate Denote(refs: seq<PackRef>, values: seq<PolicyPack>)
    reads set i | 0 <= i < |refs| :: refs[i].policies
  {
    |refs| == |values| && forall i :: 0 <= i < |refs| ==> refs[i].Value() == values[i]
  }

  /** No two of the packs share a slice. */
  ghost predicate Unshared(refs: seq<PackRef>) {
    forall i, j | 0 <= i < j < |refs| :: refs[i].policies != refs[j].policies
  }

  /** The loop of `ListEnabled`. */
  method KeepEnabled(refs: seq<PackRef>, ghost values: seq<PolicyPack>) returns (result: seq<PackRef>)
    requires Denote(refs, values) && Unshared(refs)
    ensures forall p :: p in result ==> p in refs
    ensures Denote(result, Filter(values, IsEnabled)) && Unshared(result)
  {
    result := [];
    for i := 0 to |refs|
      invariant forall p :: p in result ==> p in refs[..i]
      invariant Unshared(result)
      invariant Denote(result, Filter(values[..i], IsEnabled))
    {
      assert values[..i + 1] == values[..i] + [values[i]];
      FilterSnoc(values[..i], values[i], IsEnabled);
      if refs[i].enabled {
        assert forall p | p in result :: p.policies != refs[i].policies;
        result := result + [refs[i]];
      }
    }
    assert values[..|refs|] == values;
  }

  /** The loop of `Upsert` over the caller's slice. */
  method FillDefaults(pack: PackRef)
    modifies pack.policies
    ensures pack.policies[..] == DefaultPolicies(old(pack.policies[..]), pack.tenantID, pack.id)
  {
    var policies := pack.policies;
    for i := 0 to policies.Length
      invariant forall j :: 0 <= j < i ==> policies[j] == DefaultPolicy(old(policies[j]), pack.tenantID, pack.id)
      invariant forall j :: i <= j < policies.Length ==> policies[j] == old(policies[j])
    {
      if policies[i].tenantID == "" {
        policies[i] := policies[i].(tenantID := pack.tenantID);
      }
      if policies[i].policyPackID == "" {
        policies[i] := policies[i].(policyPackID := pack.id);
      }
    }
  }

  /** The loop body of `List`: one more pack, with a slice of its own. */
  method AddCopy(refs: seq<PackRef>, ghost values: seq<PolicyPack>, pack: PackRef) returns (more: seq<PackRef>)
    requires Denote(refs, values) && Unshared(refs)
    ensures forall p | p in more :: p in refs || fresh(p.policies)
    ensures Denote(more, values + [pack.Value()]) && Unshared(more)
  {
    var copy := ClonePack(pack);
    more := refs + [copy];
  }

  class MemoryStore {
    var packs: map<string, PackRef>
    /** The store as a map of values. */
    ghost var Contents: Packs
    /** The slices the store owns. */
    ghost var Repr: set<object>

    ghost predicate Valid()
      reads this, Repr
    {
      && packs.Keys == Contents.Keys
      && forall k | k in packs :: packs[k].policies in Repr && packs[k].Value() == Contents[k]
    }

    constructor ()
      ensures Valid() && Repr == {} && Contents == map[]
    {
      packs, Contents, Repr := map[], map[], {};
    }

    /** Takes over a pack and its slice. */
    method Hold(k: string, pack: PackRef)
      requires Valid()
      modifies this
      ensures Valid() && Contents == old(Contents)[k := pack.Value()] && Repr == old(Repr) + {pack.policies}
    {
      packs := packs[k := pack];
      Contents := Contents[k := pack.Value()];
      Repr := Repr + {pack.policies};
    }

    /** Stores a copy of the pack; fills empty fields in the caller's slice on the way. */
    method Upsert(pack: PackRef, cancelled: bool) returns (error: Option<StoreError>)
      requires Valid() && pack.policies !in Repr
      modifies this, pack.policies
      ensures Valid() && fresh(Repr - old(Repr)) && old(Repr) <= Repr && pack.policies !in Repr
      ensures error == UpsertError(old(pack.Value()), cancelled)
      ensures Contents == AfterUpsert(old(Contents), old(pack.Value()), cancelled)
      ensures pack.policies[..] == if error.Some? then old(pack.policies[..])
                                   else DefaultPolicies(old(pack.policies[..]), pack.tenantID, pack.id)
    {
      if cancelled {
        return Some(Cancelled);
      }
      if pack.tenantID == "" {
        return Some(TenantRequired);
      }
      if pack.id == "" {
        return Some(IDRequired);
      }
      FillDefaults(pack);
      var copy := ClonePack(pack);
      assert copy.Value() == DefaultPack(old(pack.Value()));
      Hold(Key(pack.tenantID, pack.id), copy);
      error := None;
    }

    method Get(tenantID: string, packID: string, cancelled: bool) returns (r: Result<PackRef, StoreError>)
      requires Valid()
      ensures r.Err? <==> cancelled || Key(tenantID, packID) !in Contents
      ensures r.Err? ==> r.error == if cancelled then Cancelled else NotFound
      ensures r.Ok? ==> fresh(r.value.policies) && r.value.Value() == Contents[Key(tenantID, packID)]
    {
      if cancelled {
        return Err(Cancelled);
      }
      var k := Key(tenantID, packID);
      if k !in packs {
        return Err(NotFound);
      }
      var copy := ClonePack(packs[k]);
      r := Ok(copy);
    }

    /** The tenant's packs, each with its own slice, in some map order. */
    method List(tenantID: string, cancelled: bool) returns (r: Option<seq<PackRef>>, ghost order: seq<string>)
      requires Valid()
      ensures r.None? <==> cancelled
      ensures r.Some? ==> Enumerates(order, packs.Keys)
      ensures r.Some? ==> (forall p :: p in r.value ==> fresh(p.policies)) && Unshared(r.value)
      ensures r.Some? ==> Denote(r.value, Listing(Contents, order, tenantID))
    {
      order := [];
      if cancelled {
        return None, order;
      }
      var keys := MapOrder(packs.Keys);
      order := keys;
      ghost var values := [];
      var result: seq<PackRef> := [];
      for i := 0 to |keys|
        invariant (forall p :: p in result ==> fresh(p.policies)) && Unshared(result)
        invariant values == Listing(Contents, keys[..i], tenantID) && Denote(result, values)
      {
        var k := keys[i];
        assert keys[..i + 1] == keys[..i] + [k];
        FlatMapSnoc(keys[..i], k, OfTenant(Contents, tenantID));
        if packs[k].tenantID == tenantID {
          result := AddCopy(result, values, packs[k]);
          values := values + [Contents[k]];
        }
      }
      assert keys[..|keys|] == keys;
      r := Some(result);
    }

    method ListEnabled(tenantID: string, cancelled: bool) returns (r: Option<seq<PackRef>>, ghost order: seq<string>)
      requires Valid()
      ensures r.None? <==> cancelled
      ensures r.Some? ==> Enumerates(order, packs.Keys)
      ensures r.Some? ==> (forall p :: p in r.value ==> fresh(p.policies)) && Unshared(r.value)
      ensures r.Some? ==> Denote(r.value, EnabledListing(Contents, order, tenantID))
    {
      var all;
      all, order := List(tenantID, cancelled);
      if all.None? {
        return None, order;
      }
      var enabled := KeepEnabled(all.value, Listing(Contents, order, tenantID));
      EnabledListingFilters(Contents, order, tenantID);
      r := Some(enabled);
    }

    method SetEnabled(tenantID: string, packID: string, enabled: bool, cancelled: bool)
      returns (error: Option<StoreError>)
      requires Valid()
      modifies this`packs, this`Contents
      ensures Valid()
      ensures error == if cancelled then Some(Cancelled)
        else if Key(tenantID, packID) !in old(Contents) then Some(NotFound) else None
      ensures Contents == AfterSetEnabled(old(Contents), tenantID, packID, enabled, cancelled)
    {
      if cancelled {
        return Some(Cancelled);
      }
      var k := Key(tenantID, packID);
      if k !in packs {
        return Some(NotFound);
      }
      var pack := packs[k];
      pack := pack.(enabled := enabled);
      packs := packs[k := pack];
      Contents := Contents[k := pack.Value()];
      error := None;
    }
  }
}
