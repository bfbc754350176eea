/** The index of who references what, and its rebuild from the stored gateways. */
module References {
  import opened Wrappers
  import opened Keys
  import opened GatewayApi

  type Gvk = string
  const GATEWAY_GVK: Gvk := "gateway.networking.k8s.io/v1/Gateway"

  /** (secret, listener): the listener references the secret. */
  type Ref = (ObjectKey, ObjectKey)

  type OwnerMap = map<ObjectKey, map<Gvk, set<ObjectKey>>>

  ghost predicate Has(owners: OwnerMap, o: ObjectKey, g: Gvk, w: ObjectKey) {
    o in owners && g in owners[o] && w in owners[o][g]
  }

  /** No entry is left behind empty. */
  ghost predicate NoEmptyEntry(owners: OwnerMap) {
    forall o :: o in owners ==> owners[o] != map[] && forall g :: g in owners[o] ==> owners[o][g] != {}
  }

  /** The (owned, owner) pairs of one kind of owner. */
  ghost function PairsIn(owners: OwnerMap, g: Gvk): set<Ref> {
    set o, w | o in owners && g in owners[o] && w in owners[o][g] :: (o, w)
  }

  lemma PairsFromHas(before: OwnerMap, after: OwnerMap, owned: ObjectKey, owner: ObjectKey, g: Gvk, added: bool)
    requires forall o, h, w :: Has(after, o, h, w) <==>
               if (o, h, w) == (owned, g, owner) then added else Has(before, o, h, w)
    ensures forall h :: PairsIn(after, h) ==
              if h != g then PairsIn(before, h)
              else if added then PairsIn(before, h) + {(owned, owner)}
              else PairsIn(before, h) - {(owned, owner)}
  {
    forall h ensures PairsIn(after, h) ==
              if h != g then PairsIn(before, h)
              else if added then PairsIn(before, h) + {(owned, owner)}
              else PairsIn(before, h) - {(owned, owner)}
    {
      forall p: Ref ensures p in PairsIn(after, h) <==>
        if (p.0, h, p.1) == (owned, g, owner) then added else p in PairsIn(before, h)
      {
        assert Has(after, p.0, h, p.1) <==>
          if (p.0, h, p.1) == (owned, g, owner) then added else Has(before, p.0, h, p.1);
      }
    }
  }

  /** What is left of one owned object's entry, and of the whole index, after a removal. */
  ghost function RemoveOwner(byGvk: map<Gvk, set<ObjectKey>>, g: Gvk, owner: ObjectKey): map<Gvk, set<ObjectKey>>
    requires g in byGvk
  {
    var cut := byGvk[g] - {owner};
    if cut == {} then byGvk - {g} else byGvk[g := cut]
  }

  lemma AddedEntry(before: OwnerMap, after: OwnerMap, owned: ObjectKey, owner: ObjectKey, g: Gvk)
    requires NoEmptyEntry(before)
    requires var byGvk := if owned in before then before[owned] else map[];
             var known := if g in byGvk then byGvk[g] else {};
             after == before[owned := byGvk[g := known + {owner}]]
    ensures NoEmptyEntry(after)
    ensures forall o, h, w :: Has(after, o, h, w) <==>
              if (o, h, w) == (owned, g, owner) then true else Has(before, o, h, w)
  {}

  lemma RemovedEntry(before: OwnerMap, after: OwnerMap, owned: ObjectKey, owner: ObjectKey, g: Gvk)
    requires NoEmptyEntry(before) && owned in before && g in before[owned]
    requires var left := RemoveOwner(before[owned], g, owner);
             after == if left == map[] then before - {owned} else before[owned := left]
    ensures NoEmptyEntry(after)
    ensures forall o, h, w :: Has(after, o, h, w) <==>
              if (o, h, w) == (owned, g, owner) then false else Has(before, o, h, w)
  {
    var left := RemoveOwner(before[owned], g, owner);
    forall h, w ensures h in left && w in left[h] <==>
      h in before[owned] && w in before[owned][h] && (h, w) != (g, owner)
    {
      assert w in before[owned][g] - {owner} <==> w in before[owned][g] && w != owner;
    }
  }

  class ReferencedBy {
    var owners: OwnerMap

    ghost predicate Valid()
      reads this
    {
      NoEmptyEntry(owners)
    }

    ghost function Pairs(g: Gvk): set<Ref>
      reads this
    {
      PairsIn(owners, g)
    }

    constructor ()
      ensures Valid() && owners == map[]
    {
      owners := map[];
    }

    method AddReferencedBy(owned: ObjectKey, owner: ObjectKey, g: Gvk)
      requires Valid()
      modifies this
      ensures Valid()
      ensures forall h :: Pairs(h) == old(Pairs(h)) + if h == g then {(owned, owner)} else {}
    {
      hide NoEmptyEntry, Has, PairsIn;
      ghost var before := owners;
      var byGvk := if owned in owners then owners[owned] else map[];
      var known := if g in byGvk then byGvk[g] else {};
      owners := owners[owned := byGvk[g := known + {owner}]];
      AddedEntry(before, owners, owned, owner, g);
      PairsFromHas(before, owners, owned, owner, g, true);
    }

    method RemoveReferencedBy(owned: ObjectKey, owner: ObjectKey, g: Gvk)
      requires Valid()
      modifies this
      ensures Valid()
      ensures forall h :: Pairs(h) == old(Pairs(h)) - if h == g then {(owned, owner)} else {}
    {
      hide NoEmptyEntry, PairsIn;
      ghost var before := owners;
      if owned !in owners || g !in owners[owned] {
        PairsFromHas(before, owners, owned, owner, g, false);
        return;
      }
      var byGvk := owners[owned];
      byGvk := byGvk[g := byGvk[g] - {owner}];
      if |byGvk[g]| == 0 {
        byGvk := byGvk - {g};
      }
      assert byGvk == RemoveOwner(before[owned], g, owner);
      owners := if |byGvk| == 0 then owners - {owned} else owners[owned := byGvk];
      RemovedEntry(before, owners, owned, owner, g);
      PairsFromHas(before, owners, owned, owner, g, false);
    }

    method ReferencedByUsingKeys(owned: ObjectKey, g: Gvk) returns (r: set<ObjectKey>)
      ensures r == set p | p in Pairs(g) && p.0 == owned :: p.1
    {
      if owned !in owners {
        return {};
      }
      if g !in owners[owned] {
        return {};
      }
      r := owners[owned][g];
      forall w ensures w in r <==> exists p :: p in Pairs(g) && p.0 == owned && p.1 == w {
        if w in r { assert (owned, w) in Pairs(g); }
      }
    }

    method AllReferenced(g: Gvk) returns (referenced: map<ObjectKey, set<ObjectKey>>)
      ensures referenced == BySecret(Pairs(g))
    {
      referenced := map[];
      var todo := owners.Keys;
      while todo != {}
        invariant todo <= owners.Keys
        invariant forall o :: o in referenced <==>
          o in owners.Keys - todo && g in owners[o] && owners[o][g] != {}
        invariant forall o :: o in referenced ==> referenced[o] == owners[o][g]
      {
        var o :| o in todo;
        todo := todo - {o};
        var gwOwners := if g in owners[o] then owners[o][g] else {};
        if |gwOwners| != 0 {
          referenced := referenced[o := gwOwners];
        }
      }
      BySecretIs(Pairs(g), referenced);
    }

    /** Fills new maps entry by entry at all three levels. */
    method DeepCopy() returns (ownerCopy: OwnerMap)
      ensures ownerCopy == owners
    {
      ownerCopy := map[];
      var todo := owners.Keys;
      while todo != {}
        invariant todo <= owners.Keys && ownerCopy == map o | o in owners && o !in todo :: owners[o]
      {
        var o :| o in todo;
        todo := todo - {o};
        var innerCopy := DeepCopyInner(owners[o]);
        ownerCopy := ownerCopy[o := innerCopy];
      }
    }

    static method DeepCopyInner(byGvk: map<Gvk, set<ObjectKey>>) returns (innerCopy: map<Gvk, set<ObjectKey>>)
      ensures innerCopy == byGvk
    {
      innerCopy := map[];
      var todo := byGvk.Keys;
      while todo != {}
        invariant todo <= byGvk.Keys && innerCopy == map g | g in byGvk && g !in todo :: byGvk[g]
      {
        var g :| g in todo;
        todo := todo - {g};
        var deepestCopy := DeepestCopy(byGvk[g]);
        innerCopy := innerCopy[g := deepestCopy];
      }
    }

    static method DeepestCopy(keys: set<ObjectKey>) returns (deepestCopy: set<ObjectKey>)
      ensures deepestCopy == keys
    {
      deepestCopy := {};
      var todo := keys;
      while todo != {}
        invariant todo <= keys && deepestCopy == keys - todo
      {
        var w :| w in todo;
        todo := todo - {w};
        deepestCopy := deepestCopy + {w};
      }
    }

    method CleanOwners()
      modifies this
      ensures Valid() && owners == map[]
    {
      var todo := owners.Keys;
      while todo != {}
        invariant todo == owners.Keys
      {
        var o :| o in todo;
        todo := todo - {o};
        owners := owners - {o};
      }
    }
  }

  ghost function Secrets(refs: set<Ref>): set<ObjectKey> {
    set p | p in refs :: p.0
  }

  ghost function Listeners(refs: set<Ref>): set<ObjectKey> {
    set p | p in refs :: p.1
  }

  ghost function SecretsOf(refs: set<Ref>, l: ObjectKey): set<ObjectKey> {
    set p | p in refs && p.1 == l :: p.0
  }

  ghost function BySecret(refs: set<Ref>): map<ObjectKey, set<ObjectKey>> {
    map s | s in Secrets(refs) :: set p | p in refs && p.0 == s :: p.1
  }

  ghost function ByListener(refs: set<Ref>): map<ObjectKey, set<ObjectKey>> {
    map l | l in Listeners(refs) :: SecretsOf(refs, l)
  }

  lemma BySecretIs(refs: set<Ref>, m: map<ObjectKey, set<ObjectKey>>)
    requires forall s, l :: (s, l) in refs <==> s in m && l in m[s]
    requires forall s :: s in m ==> m[s] != {}
    ensures m == BySecret(refs)
  {
    var b := BySecret(refs);
    forall s ensures s in m <==> s in b {
      if s in m {
        var l :| l in m[s];
        assert (s, l) in refs;
      }
      if s in b {
        var p :| p in refs && p.0 == s;
        assert (s, p.1) in refs;
      }
    }
    forall s | s in m ensures m[s] == b[s] {
      forall l ensures l in m[s] <==> l in b[s] {
        if l in m[s] { assert (s, l) in refs; }
        if l in b[s] {
          var p :| p in refs && p.0 == s && p.1 == l;
          assert (s, l) in refs;
        }
      }
    }
  }

  lemma ByListenerIs(refs: set<Ref>, m: map<ObjectKey, set<ObjectKey>>)
    requires forall s, l :: (s, l) in refs <==> l in m && s in m[l]
    requires forall l :: l in m ==> m[l] != {}
    ensures m == ByListener(refs)
  {
    var b := ByListener(refs);
    forall l ensures l in m <==> l in b {
      if l in m {
        var s :| s in m[l];
        assert (s, l) in refs;
      }
      if l in b {
        var p :| p in refs && p.1 == l;
        assert (p.0, l) in refs;
      }
    }
    forall l | l in m ensures m[l] == b[l] {
      forall s ensures s in m[l] <==> s in b[l] {
        if s in m[l] { assert (s, l) in refs; }
        if s in b[l] {
          var p :| p in refs && p.1 == l && p.0 == s;
          assert (s, l) in refs;
        }
      }
    }
  }

  // ---- the references the stored gateways make

  ghost predicate ListenerRefers(gw: Gateway, l: Listener, s: ObjectKey) {
    l.tls.Some? && exists j :: 0 <= j < |l.tls.value| && IsSecretGroupKindSupported(l.tls.value[j])
                               && CertRefKey(l.tls.value[j], gw) == s
  }

  ghost function PrefixRefs(gw: Gateway, l: Listener, n: nat): set<Ref>
    requires l.tls.Some? && n <= |l.tls.value|
  {
    set j | 0 <= j < n && IsSecretGroupKindSupported(l.tls.value[j]) ::
      (CertRefKey(l.tls.value[j], gw), ListenerKey(gw.key, l.name))
  }

  ghost function ListenerRefs(gw: Gateway, l: Listener): set<Ref> {
    if l.tls == None then {} else PrefixRefs(gw, l, |l.tls.value|)
  }

  ghost function ListenersRefs(gw: Gateway, n: nat): set<Ref>
    requires n <= |gw.listeners|
  {
    set i, p | 0 <= i < n && p in ListenerRefs(gw, gw.listeners[i]) :: p
  }

  ghost function RefsOf(gateways: map<ObjectKey, Gateway>): set<Ref> {
    RefsOfSome(gateways, gateways.Keys)
  }

  ghost function RefsOfSome(gateways: map<ObjectKey, Gateway>, keys: set<ObjectKey>): set<Ref>
    requires keys <= gateways.Keys
  {
    set k, p | k in keys && p in ListenersRefs(gateways[k], |gateways[k].listeners|) :: p
  }

  lemma ListenersRefsAdd(gw: Gateway, i: nat)
    requires i < |gw.listeners|
    ensures ListenersRefs(gw, i + 1) == ListenersRefs(gw, i) + ListenerRefs(gw, gw.listeners[i])
  {}

  lemma RefsOfSomeAdd(gateways: map<ObjectKey, Gateway>, keys: set<ObjectKey>, k: ObjectKey)
    requires keys <= gateways.Keys && k in gateways
    ensures RefsOfSome(gateways, keys + {k}) ==
            RefsOfSome(gateways, keys) + ListenersRefs(gateways[k], |gateways[k].listeners|)
  {}

  /** What the index says, read off the gateways. */
  lemma RefsOfMeaning(gateways: map<ObjectKey, Gateway>, s: ObjectKey, lk: ObjectKey)
    ensures (s, lk) in RefsOf(gateways) <==>
            exists k, i :: k in gateways && 0 <= i < |gateways[k].listeners|
              && ListenerKey(gateways[k].key, gateways[k].listeners[i].name) == lk
              && ListenerRefers(gateways[k], gateways[k].listeners[i], s)
  {
    if k, i :| k in gateways && 0 <= i < |gateways[k].listeners|
              && ListenerKey(gateways[k].key, gateways[k].listeners[i].name) == lk
              && ListenerRefers(gateways[k], gateways[k].listeners[i], s) {
      var gw, l := gateways[k], gateways[k].listeners[i];
      var j :| 0 <= j < |l.tls.value| && IsSecretGroupKindSupported(l.tls.value[j]) && CertRefKey(l.tls.value[j], gw) == s;
      assert (s, lk) in ListenerRefs(gw, l);
      assert (s, lk) in ListenersRefs(gw, |gw.listeners|);
    }
  }

  /** Keeps the index of this cycle and of the one before. */
  class ReferenceManager {
    const referencedSecrets: ReferencedBy
    const previousReferencedSecrets: ReferencedBy

    ghost predicate Valid()
      reads this, referencedSecrets, previousReferencedSecrets
    {
      referencedSecrets != previousReferencedSecrets && referencedSecrets.Valid()
    }

    constructor ()
      ensures Valid() && fresh(referencedSecrets) && fresh(previousReferencedSecrets)
      ensures referencedSecrets.owners == map[] && referencedSecrets.Pairs(GATEWAY_GVK) == {}
      ensures previousReferencedSecrets.owners == map[]
    {
      referencedSecrets := new ReferencedBy();
      previousReferencedSecrets := new ReferencedBy();
    }

    /** The index is rebuilt when some gateway was touched, and is snapshot first. */
    method UpdateReferences(gateways: map<ObjectKey, Gateway>, gatewaysTouched: bool)
      requires Valid()
      modifies referencedSecrets, previousReferencedSecrets
      ensures Valid()
      ensures previousReferencedSecrets.owners == old(referencedSecrets.owners)
      ensures referencedSecrets.Pairs(GATEWAY_GVK) ==
              if gatewaysTouched then RefsOf(gateways) else old(referencedSecrets.Pairs(GATEWAY_GVK))
    {
      var snapshot := referencedSecrets.DeepCopy();
      previousReferencedSecrets.owners := snapshot;
      if gatewaysTouched {
        referencedSecrets.CleanOwners();
      }
      if !gatewaysTouched {
        return;
      }
      BuildSecretReferences(gateways);
    }

    method BuildSecretReferences(gateways: map<ObjectKey, Gateway>)
      requires Valid() && referencedSecrets.owners == map[]
      modifies referencedSecrets
      ensures Valid()
      ensures referencedSecrets.Pairs(GATEWAY_GVK) == RefsOf(gateways)
    {
      var todo := gateways.Keys;
      while todo != {}
        invariant todo <= gateways.Keys
        invariant Valid()
        invariant referencedSecrets.Pairs(GATEWAY_GVK) == RefsOfSome(gateways, gateways.Keys - todo)
      {
        var k :| k in todo;
        AddGateway(gateways[k]);
        RefsOfSomeAdd(gateways, gateways.Keys - todo, k);
        todo := todo - {k};
        assert gateways.Keys - todo == gateways.Keys - (todo + {k}) + {k};
      }
    }

    method AddGateway(gw: Gateway)
      requires Valid()
      modifies referencedSecrets
      ensures Valid()
      ensures referencedSecrets.Pairs(GATEWAY_GVK) ==
              old(referencedSecrets.Pairs(GATEWAY_GVK)) + ListenersRefs(gw, |gw.listeners|)
    {
      for i := 0 to |gw.listeners|
        invariant Valid()
        invariant referencedSecrets.Pairs(GATEWAY_GVK) == old(referencedSecrets.Pairs(GATEWAY_GVK)) + ListenersRefs(gw, i)
      {
        AddListener(gw, gw.listeners[i]);
        ListenersRefsAdd(gw, i);
      }
    }

    method AddListener(gw: Gateway, l: Listener)
      requires Valid()
      modifies referencedSecrets
      ensures Valid()
      ensures referencedSecrets.Pairs(GATEWAY_GVK) == old(referencedSecrets.Pairs(GATEWAY_GVK)) + ListenerRefs(gw, l)
    {
      if l.tls == None {
        return;
      }
      var refs := l.tls.value;
      for j := 0 to |refs|
        invariant Valid()
        invariant referencedSecrets.Pairs(GATEWAY_GVK) == old(referencedSecrets.Pairs(GATEWAY_GVK)) + PrefixRefs(gw, l, j)
      {
        assert PrefixRefs(gw, l, j + 1) == PrefixRefs(gw, l, j) +
          if IsSecretGroupKindSupported(refs[j]) then {(CertRefKey(refs[j], gw), ListenerKey(gw.key, l.name))} else {};
        if !IsSecretGroupKindSupported(refs[j]) {
          continue;
        }
        referencedSecrets.AddReferencedBy(CertRefKey(refs[j], gw), ListenerKey(gw.key, l.name), GATEWAY_GVK);
      }
    }
  }
}
