/** The registry of reply ids that wait for an answer. It is what lets the claim scheduler assume that every
    id belongs to one request. */
module SurbPoolObject {
  import opened ReplyClaims

  /** Registered ids with their requests, in order of registration. */
  type Registry = seq<(Id, RequestId)>

  predicate DistinctIds(registry: Registry) {
    forall i, j :: 0 <= i < j < |registry| ==> registry[i].0 != registry[j].0
  }

  function IdsForRequest(registry: Registry, r: RequestId): (ids: seq<Id>)
    ensures forall id :: id in ids <==> (id, r) in registry
  {
    if registry == [] then []
    else
      var (id, owner) := registry[|registry| - 1];
      assert registry == registry[..|registry| - 1] + [(id, owner)];
      IdsForRequest(registry[..|registry| - 1], r) + if owner == r then [id] else []
  }

  /** Registering an id that is registered already moves it to its new request in place. */
  function Registered(registry: Registry, id: Id, r: RequestId): Registry {
    if registry == [] then [(id, r)]
    else
      var k := |registry| - 1;
      if registry[k].0 == id then registry[..k] + [(id, r)] else Registered(registry[..k], id, r) + [registry[k]]
  }

  function RegisteredAll(registry: Registry, ids: seq<Id>, r: RequestId): Registry {
    if ids == [] then registry else Registered(RegisteredAll(registry, ids[..|ids| - 1], r), ids[|ids| - 1], r)
  }

  function Kept(registry: Registry, keep: ((Id, RequestId)) -> bool): Registry {
    if registry == [] then []
    else
      var k := |registry| - 1;
      Kept(registry[..k], keep) + if keep(registry[k]) then [registry[k]] else []
  }

  lemma {:induction false} RegisteredMembers(registry: Registry, id: Id, r: RequestId)
    requires DistinctIds(registry)
    ensures DistinctIds(Registered(registry, id, r))
    ensures forall p :: p in Registered(registry, id, r) <==> p == (id, r) || (p in registry && p.0 != id)
  {
    if registry != [] {
      var k := |registry| - 1;
      RegisteredMembers(registry[..k], id, r);
      assert registry == registry[..k] + [registry[k]];
      assert forall i :: 0 <= i < k ==> registry[..k][i] == registry[i];
    }
  }

  lemma {:induction false} RegisteredAllDistinct(registry: Registry, ids: seq<Id>, r: RequestId)
    requires DistinctIds(registry)
    ensures DistinctIds(RegisteredAll(registry, ids, r))
  {
    hide DistinctIds, Registered;
    if ids != [] {
      RegisteredAllDistinct(registry, ids[..|ids| - 1], r);
      RegisteredMembers(RegisteredAll(registry, ids[..|ids| - 1], r), ids[|ids| - 1], r);
    }
  }

  lemma {:induction false} KeptMembers(registry: Registry, keep: ((Id, RequestId)) -> bool)
    requires DistinctIds(registry)
    ensures DistinctIds(Kept(registry, keep))
    ensures forall p :: p in Kept(registry, keep) <==> p in registry && keep(p)
  {
    if registry != [] {
      var k := |registry| - 1;
      KeptMembers(registry[..k], keep);
      assert registry == registry[..k] + [registry[k]];
      var kept := Kept(registry[..k], keep);
      assert forall i :: 0 <= i < |kept| ==> kept[i] in registry[..k];
    }
  }

  lemma {:induction false} IdsDistinct(registry: Registry, r: RequestId)
    requires DistinctIds(registry)
    ensures NoDup(IdsForRequest(registry, r))
  {
    if registry != [] {
      var k := |registry| - 1;
      IdsDistinct(registry[..k], r);
      var ids := IdsForRequest(registry[..k], r);
      assert forall i :: 0 <= i < |ids| ==> ids[i] in ids;
      assert forall p :: p in registry[..k] ==> p.0 != registry[k].0;
    }
  }

  lemma {:induction false} NothingListed(registry: Registry, r: RequestId)
    requires forall p :: p in registry ==> p.1 != r
    ensures IdsForRequest(registry, r) == []
  {
    if registry != [] { NothingListed(registry[..|registry| - 1], r); }
  }

  /** No id is listed twice, under one request or under two. */
  lemma OneRequestPerId(registry: Registry, r: RequestId, other: RequestId)
    requires DistinctIds(registry) && r != other
    ensures NoDup(IdsForRequest(registry, r)) && Apart(IdsForRequest(registry, r), IdsForRequest(registry, other))
  {
    hide NoDup;
    IdsDistinct(registry, r);
    forall id | id in IdsForRequest(registry, r) ensures id !in IdsForRequest(registry, other) {
      var i :| 0 <= i < |registry| && registry[i] == (id, r);
      assert forall j :: 0 <= j < |registry| && j != i ==> registry[j].0 != id;
    }
  }

  /** The registry meets what the scheduler demands of its host: ids come once, under their owner. */
  lemma RegistryIsOwned(registry: Registry, w: World)
    requires DistinctIds(registry) && forall p :: p in registry ==> w.owner(p.0) == p.1
    ensures Owned(w, (r: RequestId) => IdsForRequest(registry, r))
  {
    forall r: RequestId ensures NoDup(IdsForRequest(registry, r)) { IdsDistinct(registry, r); }
  }

  class SurbPool {
    var registry: Registry

    ghost predicate Valid()
      reads this
    {
      DistinctIds(registry)
    }

    constructor ()
      ensures Valid() && registry == []
    {
      registry := [];
    }

    method IdsFor(r: RequestId) returns (ids: seq<Id>)
      requires Valid()
      ensures ids == IdsForRequest(registry, r) && NoDup(ids)
    {
      hide NoDup;
      ids := [];
      assert registry[..0] == [];
      for i := 0 to |registry|
        invariant ids == IdsForRequest(registry[..i], r)
      {
        assert registry[..i + 1][..i] == registry[..i];
        if registry[i].1 == r { ids := ids + [registry[i].0]; }
      }
      assert registry[..|registry|] == registry;
      IdsDistinct(registry, r);
    }

    /** generate: registers the id of each new reply block. */
    method Generate(r: RequestId, created: seq<Id>)
      requires Valid()
      modifies this
      ensures Valid() && registry == RegisteredAll(old(registry), created, r)
    {
      hide DistinctIds, Registered;
      RegisteredAllDistinct(registry, created, r);
      ghost var before := registry;
      assert created[..0] == [];
      for i := 0 to |created|
        invariant registry == RegisteredAll(before, created[..i], r)
      {
        assert created[..i + 1][..i] == created[..i];
        registry := Registered(registry, created[i], r);
      }
      assert created[..|created|] == created;
    }

    /** The registry part of decryptById and matchAndDecrypt: a used id is forgotten. */
    method Forget(id: Id)
      requires Valid()
      modifies this
      ensures Valid() && (forall p :: p in registry <==> p in old(registry) && p.0 != id)
    {
      KeptMembers(registry, (p: (Id, RequestId)) => p.0 != id);
      registry := Kept(registry, (p: (Id, RequestId)) => p.0 != id);
    }

    method Cleanup(r: RequestId)
      requires Valid()
      modifies this
      ensures Valid() && (forall p :: p in registry <==> p in old(registry) && p.1 != r)
      ensures IdsForRequest(registry, r) == []
    {
      KeptMembers(registry, (p: (Id, RequestId)) => p.1 != r);
      registry := Kept(registry, (p: (Id, RequestId)) => p.1 != r);
      NothingListed(registry, r);
    }
  }
}
