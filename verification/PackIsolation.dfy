/** The pack store never shares a slice with its callers. A caller that makes slices, upserts them, keeps
    every slice the store hands out, and writes into any of them at any time, sees what it would see if all
    packs were passed by value. */
module PackIsolation {
  import opened Domain
  import opened Sequences
  import opened Text
  import opened PackStore

  // ----- By value ----------------------------------------------------------------------

  /** What a caller may do; slices are named by the order in which the caller got them. */
  datatype Deed =
    | Make(policies: seq<Policy>)
    | Write(slice: nat, at: nat, policy: Policy)
    | Put(slice: nat, head: PolicyPack, cancelled: bool)
    | Switch(tenantID: string, packID: string, enabled: bool, cancelled: bool)
    | Fetch(tenantID: string, packID: string, cancelled: bool)
    | FetchAll(tenantID: string, cancelled: bool)
    | FetchEnabled(tenantID: string, cancelled: bool)

  /** The packs in the store, and the contents of the caller's slices. */
  datatype World = World(packs: Packs, slices: seq<seq<Policy>>)

  function PoliciesIn(packs: seq<PolicyPack>): seq<seq<Policy>> {
    seq(|packs|, i requires 0 <= i < |packs| => packs[i].policies)
  }

  /** One deed on values; `order` is the order in which a listing walks the map. */
  function After(w: World, deed: Deed, order: seq<string>): World {
    match deed
    case Make(policies) => w.(slices := w.slices + [policies])
    case Write(n, at, policy) =>
      if n < |w.slices| && at < |w.slices[n]| then w.(slices := w.slices[n := w.slices[n][at := policy]]) else w
    case Put(n, head, cancelled) =>
      if n >= |w.slices| then w
      else
        var pack := head.(policies := w.slices[n]);
        World(AfterUpsert(w.packs, pack, cancelled),
              if UpsertError(pack, cancelled).Some? then w.slices else w.slices[n := DefaultPack(pack).policies])
    case Switch(tenantID, packID, enabled, cancelled) =>
      w.(packs := AfterSetEnabled(w.packs, tenantID, packID, enabled, cancelled))
    case Fetch(tenantID, packID, cancelled) =>
      var k := Key(tenantID, packID);
      if cancelled || k !in w.packs then w else w.(slices := w.slices + [w.packs[k].policies])
    case FetchAll(tenantID, cancelled) =>
      if cancelled then w else w.(slices := w.slices + PoliciesIn(Listing(w.packs, order, tenantID)))
    case FetchEnabled(tenantID, cancelled) =>
      if cancelled then w else w.(slices := w.slices + PoliciesIn(EnabledListing(w.packs, order, tenantID)))
  }

  function AfterAll(w: World, script: seq<Deed>, orders: seq<seq<string>>): World
    requires |orders| == |script|
  {
    if script == [] then w
    else
      var n := |script| - 1;
      After(AfterAll(w, script[..n], orders[..n]), script[n], orders[n])
  }

  /** A listing walks every key of the map once. */
  predicate Walks(w: World, deed: Deed, order: seq<string>) {
    (deed.FetchAll? || deed.FetchEnabled?) && !deed.cancelled ==> Enumerates(order, w.packs.Keys)
  }

  predicate AllWalk(w: World, script: seq<Deed>, orders: seq<seq<string>>)
    requires |orders| == |script|
  {
    script == []
    || var n := |script| - 1;
       AllWalk(w, script[..n], orders[..n]) && Walks(AfterAll(w, script[..n], orders[..n]), script[n], orders[n])
  }

  /** The deed updates the pack stored at `k`. */
  predicate Updates(deed: Deed, k: string) {
    (deed.Put? && KeyOf(deed.head) == k) || (deed.Switch? && Key(deed.tenantID, deed.packID) == k)
  }

  /** Only an upsert or a switch of that very pack changes a stored pack: it stays as it was put, whatever
      else is called and whatever is written into any slice. */
  lemma {:induction false} StoredPackStays(w: World, script: seq<Deed>, orders: seq<seq<string>>, k: string)
    requires |orders| == |script| && k in w.packs
    requires forall deed | deed in script :: !Updates(deed, k)
    ensures var after := AfterAll(w, script, orders); k in after.packs && after.packs[k] == w.packs[k]
  {
    if script != [] {
      var n := |script| - 1;
      assert forall deed :: deed in script[..n] ==> deed in script;
      StoredPackStays(w, script[..n], orders[..n], k);
      assert !Updates(script[n], k);
    }
  }

  /** Nor do slices the caller has got change, but by writing into them or upserting them. */
  lemma {:induction false} SliceStays(w: World, script: seq<Deed>, orders: seq<seq<string>>, n: nat)
    requires |orders| == |script| && n < |w.slices|
    requires forall deed | deed in script :: !((deed.Write? || deed.Put?) && deed.slice == n)
    ensures var after := AfterAll(w, script, orders); n < |after.slices| && after.slices[n] == w.slices[n]
  {
    if script != [] {
      var m := |script| - 1;
      assert forall deed :: deed in script[..m] ==> deed in script;
      SliceStays(w, script[..m], orders[..m], n);
      assert script[m] in script;
    }
  }

  // ----- On the heap -------------------------------------------------------------------

  class Caller {
    const store: MemoryStore
    /** Every slice the caller has made or been handed. */
    var held: seq<array<Policy>>

    ghost predicate Valid()
      reads this, store, store.Repr
    {
      && store.Valid()
      && (forall i | 0 <= i < |held| :: held[i] !in store.Repr)
      && (forall i, j | 0 <= i < j < |held| :: held[i] != held[j])
    }

    ghost function Slices(): seq<seq<Policy>>
      reads this, held
    {
      seq(|held|, i requires 0 <= i < |held| reads this, held => held[i][..])
    }

    ghost function Now(): World
      reads this, store, held
    {
      World(store.Contents, Slices())
    }

    constructor (store: MemoryStore)
      requires store.Valid()
      ensures this.store == store && Valid() && Now() == World(store.Contents, [])
    {
      this.store, held := store, [];
    }

    /** Keeps the slices of packs the store has handed out. */
    method Keep(refs: seq<PackRef>, ghost values: seq<PolicyPack>)
      requires Valid() && Denote(refs, values) && Unshared(refs)
      requires forall p | p in refs :: p.policies !in store.Repr && p.policies !in held
      modifies this`held
      ensures Valid() && Now() == old(Now()).(slices := old(Slices()) + PoliciesIn(values))
      ensures forall a | a in held :: a in old(held) || exists p | p in refs :: a == p.policies
    {
      var more := seq(|refs|, i requires 0 <= i < |refs| => refs[i].policies);
      assert forall i | 0 <= i < |refs| :: more[i][..] == refs[i].Value().policies;
      held := held + more;
      assert Slices() == old(Slices()) + PoliciesIn(values);
    }

    method MakeSlice(policies: seq<Policy>)
      requires Valid()
      modifies this`held
      ensures Valid() && Now() == After(old(Now()), Make(policies), [])
      ensures forall a | a in held :: a in old(held) || fresh(a)
    {
      var slice := new Policy[|policies|](i requires 0 <= i < |policies| => policies[i]);
      held := held + [slice];
      assert slice[..] == policies;
      assert Slices() == old(Slices()) + [policies];
    }

    method WriteSlice(n: nat, at: nat, policy: Policy)
      requires Valid() && n < |held| && at < held[n].Length
      modifies held[n]
      ensures Valid() && held == old(held) && Now() == After(old(Now()), Write(n, at, policy), [])
    {
      held[n][at] := policy;
      assert Slices() == old(Slices())[n := old(Slices())[n][at := policy]];
    }

    method PutSlice(n: nat, head: PolicyPack, cancelled: bool)
      requires Valid() && n < |held|
      modifies store, held[n]
      ensures Valid() && held == old(held) && Now() == After(old(Now()), Put(n, head, cancelled), [])
      ensures fresh(store.Repr - old(store.Repr))
    {
      var pack := PackRef(head.id, head.tenantID, head.name, head.version, head.enabled, held[n]);
      var error := store.Upsert(pack, cancelled);
      assert Slices() == After(old(Now()), Put(n, head, cancelled), []).slices;
    }

    method FetchPack(tenantID: string, packID: string, cancelled: bool)
      requires Valid()
      modifies this`held
      ensures Valid() && Now() == After(old(Now()), Fetch(tenantID, packID, cancelled), [])
      ensures forall a | a in held :: a in old(held) || fresh(a)
    {
      var got := store.Get(tenantID, packID, cancelled);
      if got.Ok? {
        Keep([got.value], [store.Contents[Key(tenantID, packID)]]);
      }
    }

    method FetchListing(tenantID: string, cancelled: bool) returns (ghost order: seq<string>)
      requires Valid()
      modifies this`held
      ensures Valid() && Now() == After(old(Now()), FetchAll(tenantID, cancelled), order)
        && Walks(old(Now()), FetchAll(tenantID, cancelled), order)
      ensures forall a | a in held :: a in old(held) || fresh(a)
    {
      var got;
      got, order := store.List(tenantID, cancelled);
      if got.Some? {
        Keep(got.value, Listing(store.Contents, order, tenantID));
      }
    }

    method FetchEnabledListing(tenantID: string, cancelled: bool) returns (ghost order: seq<string>)
      requires Valid()
      modifies this`held
      ensures Valid() && Now() == After(old(Now()), FetchEnabled(tenantID, cancelled), order)
        && Walks(old(Now()), FetchEnabled(tenantID, cancelled), order)
      ensures forall a | a in held :: a in old(held) || fresh(a)
    {
      var got;
      got, order := store.ListEnabled(tenantID, cancelled);
      if got.Some? {
        Keep(got.value, EnabledListing(store.Contents, order, tenantID));
      }
    }

    /** Does one deed. */
    method Do(deed: Deed) returns (ghost order: seq<string>)
      requires Valid()
      modifies this`held, store, held
      ensures Valid() && Now() == After(old(Now()), deed, order) && Walks(old(Now()), deed, order)
      ensures forall a | a in held :: a in old(held) || fresh(a)
    {
      order := [];
      match deed
      case Make(policies) => MakeSlice(policies);
      case Write(n, at, policy) =>
        if n < |held| && at < held[n].Length {
          WriteSlice(n, at, policy);
        }
      case Put(n, head, cancelled) =>
        if n < |held| {
          PutSlice(n, head, cancelled);
        }
      case Switch(tenantID, packID, enabled, cancelled) =>
        var _ := store.SetEnabled(tenantID, packID, enabled, cancelled);
      case Fetch(tenantID, packID, cancelled) => FetchPack(tenantID, packID, cancelled);
      case FetchAll(tenantID, cancelled) => order := FetchListing(tenantID, cancelled);
      case FetchEnabled(tenantID, cancelled) => order := FetchEnabledListing(tenantID, cancelled);
    }

    /** Does any script of deeds: store and slices end as they do by value. */
    method Run(script: seq<Deed>) returns (ghost orders: seq<seq<string>>)
      requires Valid()
      modifies this`held, store, held
      ensures Valid() && |orders| == |script| && Now() == AfterAll(old(Now()), script, orders)
        && AllWalk(old(Now()), script, orders)
    {
      orders := [];
      for i := 0 to |script|
        invariant forall a | a in held :: a in old(held) || fresh(a)
        invariant Valid() && |orders| == i && Now() == AfterAll(old(Now()), script[..i], orders)
          && AllWalk(old(Now()), script[..i], orders)
      {
        assert forall j | 0 <= j < |held| :: held[j] in old(held) || fresh(held[j]);
        ghost var order := Do(script[i]);
        orders := orders + [order];
        assert script[..i + 1][..i] == script[..i] && orders[..i] + [order] == orders;
      }
      assert script[..|script|] == script;
    }
  }
}
