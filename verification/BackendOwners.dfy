/** Which routes own which backends: an index that is nested three deep, changed route by
    route and pruned at the end of each pass. */
module BackendOwnership {
  import opened Wrappers
  import opened Keys
  import opened ObjectStores
  import opened ParentRefs
  import opened Sets
  import opened Text

  datatype OwnerType = HTTPRoute | TLSRoute

  /** backend name -> owner type -> route -> generation of the route. */
  type Owners = map<string, map<OwnerType, map<ObjectKey, int>>>

  datatype BackendRef = BackendRef(group: Option<string>, kind: Option<string>, ns: Option<string>, name: string,
                                   port: Option<int>, filterHash: string)

  /** `checks` is keyed without the port, so references that differ only in it share a check. */
  datatype Rule = Rule(valid: bool, refs: seq<BackendRef>, checks: map<string, bool>)

  datatype Route = Route(status: Status, valid: bool, ns: string, generation: int, rules: seq<Rule>)

  /** The name template, which may fail. */
  type Naming = (ObjectKey, int, string) -> Option<string>

  // ---- the relation the index stands for

  function Generation(o: Owners, be: string, t: OwnerType, k: ObjectKey): Option<int> {
    if be in o && t in o[be] && k in o[be][t] then Some(o[be][t][k]) else None
  }

  ghost function OwnedBackends(o: Owners, t: OwnerType, k: ObjectKey): set<string> {
    set be | be in o && Generation(o, be, t, k) != None
  }

  ghost predicate Ownerless(o: Owners, be: string) {
    forall t, k :: Generation(o, be, t, k) == None
  }

  ghost predicate SameOwnership(a: Owners, b: Owners) {
    forall be, t, k :: Generation(a, be, t, k) == Generation(b, be, t, k)
  }

  /** No backend without an owner type; owner types may be empty between prunings. */
  ghost predicate NoEmptyBackend(o: Owners) {
    forall be :: be in o ==> o[be] != map[]
  }

  /** Nothing empty at any depth. */
  ghost predicate Pruned(o: Owners) {
    NoEmptyBackend(o) && forall be, t :: be in o && t in o[be] ==> o[be][t] != map[]
  }

  lemma PrunedIsOwned(o: Owners, be: string)
    requires Pruned(o)
    ensures be in o <==> !Ownerless(o, be)
  {
    if be in o {
      var t :| t in o[be];
      var k :| k in o[be][t];
      assert Generation(o, be, t, k) != None;
    }
  }

  function AddOwner(o: Owners, be: string, t: OwnerType, k: ObjectKey, generation: int): Owners {
    var o := if be in o then o else o[be := map[]];
    var o := if t in o[be] then o else o[be := o[be][t := map[]]];
    o[be := o[be][t := o[be][t][k := generation]]]
  }

  function RemoveOwner(o: Owners, be: string, t: OwnerType, k: ObjectKey): Owners {
    if be in o && t in o[be] then o[be := o[be][t := o[be][t] - {k}]] else o
  }

  /** `after` is `before` with the ownership of one route replaced on some backends. */
  ghost predicate Changed(before: Owners, after: Owners, t: OwnerType, k: ObjectKey, backends: set<string>, generation: Option<int>) {
    forall be, t', k' :: Generation(after, be, t', k') == ChangedAt(before, t, k, backends, generation, be, t', k')
  }

  ghost function ChangedAt(before: Owners, t: OwnerType, k: ObjectKey, backends: set<string>, generation: Option<int>,
                           be: string, t': OwnerType, k': ObjectKey): Option<int> {
    if t' == t && k' == k && be in backends then generation else Generation(before, be, t', k')
  }

  lemma Gain(before: Owners, o: Owners, t: OwnerType, k: ObjectKey, backends: set<string>, generation: int, be: string)
    requires Changed(before, o, t, k, backends, Some(generation))
    ensures Changed(before, AddOwner(o, be, t, k, generation), t, k, backends + {be}, Some(generation))
    ensures NoEmptyBackend(o) ==> NoEmptyBackend(AddOwner(o, be, t, k, generation))
    ensures AddOwner(o, be, t, k, generation).Keys == o.Keys + {be}
  {
    var after := AddOwner(o, be, t, k, generation);
    AddedOwner(o, be, t, k, generation);
    hide AddOwner, Generation;
    forall be', t', k' ensures Generation(after, be', t', k') == ChangedAt(before, t, k, backends + {be}, Some(generation), be', t', k') {
      assert Generation(o, be', t', k') == ChangedAt(before, t, k, backends, Some(generation), be', t', k');
    }
  }

  lemma AddedOwner(o: Owners, be: string, t: OwnerType, k: ObjectKey, generation: int)
    ensures var after := AddOwner(o, be, t, k, generation);
            && after.Keys == o.Keys + {be} && after[be] != map[] && (forall be' :: be' in o && be' != be ==> after[be'] == o[be'])
            && forall be', t', k' :: Generation(after, be', t', k') ==
                 (if be' == be && t' == t && k' == k then Some(generation) else Generation(o, be', t', k'))
  {
    assert t in AddOwner(o, be, t, k, generation)[be];
  }

  lemma Lose(before: Owners, o: Owners, t: OwnerType, k: ObjectKey, backends: set<string>, be: string)
    requires Changed(before, o, t, k, backends, None)
    ensures Changed(before, RemoveOwner(o, be, t, k), t, k, backends + {be}, None)
    ensures NoEmptyBackend(o) ==> NoEmptyBackend(RemoveOwner(o, be, t, k))
    ensures RemoveOwner(o, be, t, k).Keys == o.Keys
  {
    var after := RemoveOwner(o, be, t, k);
    forall be', t', k' ensures Generation(after, be', t', k') == ChangedAt(before, t, k, backends + {be}, None, be', t', k') {
      assert Generation(o, be', t', k') == ChangedAt(before, t, k, backends, None, be', t', k');
    }
    if be in o && t in o[be] {
      assert t in after[be];
    }
  }

  lemma Unaltered(o: Owners, t: OwnerType, k: ObjectKey, generation: Option<int>)
    ensures Changed(o, o, t, k, {}, generation)
  {}

  // ---- what a route calls for

  /** The namespace of the route stands in for a missing or empty one. */
  function ServiceKey(routeNs: string, ref: BackendRef): (r: ObjectKey)
    ensures r.name == ref.name
    ensures ref.ns in {None, Some("")} ==> r.ns == routeNs
    ensures ref.ns !in {None, Some("")} ==> Some(r.ns) == ref.ns
  {
    if ref.ns == None || ref.ns.value == "" then ObjectKey(routeNs, ref.name) else ObjectKey(ref.ns.value, ref.name)
  }

  function CheckKey(ref: BackendRef): string {
    Join([StrPtrToString(ref.group), StrPtrToString(ref.kind), StrPtrToString(ref.ns), ref.name], ':')
  }

  function RefName(naming: Naming, t: OwnerType, routeNs: string, ref: BackendRef): Option<string> {
    naming(ServiceKey(routeNs, ref), if ref.port == None then 0 else ref.port.value, if t.HTTPRoute? then ref.filterHash else "")
  }

  /** Two plain references share their check exactly when they differ at most in the port and
      the filters. */
  lemma CheckKeyShared(a: BackendRef, b: BackendRef)
    requires PlainField(a.group) && PlainField(a.kind) && PlainField(a.ns) && ':' !in a.name
    requires PlainField(b.group) && PlainField(b.kind) && PlainField(b.ns) && ':' !in b.name
    ensures CheckKey(a) == CheckKey(b) <==> a.group == b.group && a.kind == b.kind && a.ns == b.ns && a.name == b.name
  {
    var x := [StrPtrToString(a.group), StrPtrToString(a.kind), StrPtrToString(a.ns), a.name];
    var y := [StrPtrToString(b.group), StrPtrToString(b.kind), StrPtrToString(b.ns), b.name];
    SplitJoin(x, ':');
    SplitJoin(y, ':');
    PtrRoundTrip(a.group);
    PtrRoundTrip(a.kind);
    PtrRoundTrip(a.ns);
    PtrRoundTrip(b.group);
    PtrRoundTrip(b.kind);
    PtrRoundTrip(b.ns);
    if CheckKey(a) == CheckKey(b) {
      assert x == y;
      assert x[0] == y[0] && x[1] == y[1] && x[2] == y[2] && x[3] == y[3];
    }
  }

  /** A missing port names port 0; filters count for HTTP routes only. */
  lemma RefNameMeans(naming: Naming, ns: string, ref: BackendRef, port: int)
    requires ref.port == Some(port) || (ref.port == None && port == 0)
    ensures RefName(naming, HTTPRoute, ns, ref) == naming(ServiceKey(ns, ref), port, ref.filterHash)
    ensures RefName(naming, TLSRoute, ns, ref) == naming(ServiceKey(ns, ref), port, "")
  {}

  ghost predicate Calls(naming: Naming, t: OwnerType, routeNs: string, rule: Rule, ref: BackendRef, be: string) {
    && rule.valid && ref in rule.refs && RefName(naming, t, routeNs, ref) == Some(be)
    && CheckKey(ref) in rule.checks && rule.checks[CheckKey(ref)]
  }

  /** The backend a reference of a valid rule adds, if any. */
  ghost function AddedBy(naming: Naming, t: OwnerType, routeNs: string, rule: Rule, ref: BackendRef): Option<string> {
    if CheckKey(ref) in rule.checks && rule.checks[CheckKey(ref)] then RefName(naming, t, routeNs, ref) else None
  }

  lemma CallsIsAdded(naming: Naming, t: OwnerType, routeNs: string, rule: Rule, i: nat)
    requires rule.valid && i < |rule.refs|
    ensures forall be :: Calls(naming, t, routeNs, rule, rule.refs[i], be) <==> AddedBy(naming, t, routeNs, rule, rule.refs[i]) == Some(be)
  {}

  lemma CallsNeeds(naming: Naming, t: OwnerType, routeNs: string, rule: Rule)
    ensures forall ref, be :: Calls(naming, t, routeNs, rule, ref, be) ==>
              rule.valid && exists i :: 0 <= i < |rule.refs| && rule.refs[i] == ref
  {}

  ghost predicate CallsFor(naming: Naming, t: OwnerType, route: Route, be: string) {
    exists rule, ref :: rule in route.rules && Calls(naming, t, route.ns, rule, ref, be)
  }

  /** All the backends a route calls for. */
  ghost function Called(naming: Naming, t: OwnerType, route: Route): set<string> {
    set rule, ref | rule in route.rules && rule.valid && ref in rule.refs && AddedBy(naming, t, route.ns, rule, ref) != None ::
      AddedBy(naming, t, route.ns, rule, ref).value
  }

  lemma CalledIsSet(naming: Naming, t: OwnerType, route: Route, names: set<string>)
    requires forall be :: be in names <==> CallsFor(naming, t, route, be)
    ensures names == Called(naming, t, route)
  {
    forall be ensures be in Called(naming, t, route) <==> CallsFor(naming, t, route, be) {
      if CallsFor(naming, t, route, be) {
        var rule, ref :| rule in route.rules && Calls(naming, t, route.ns, rule, ref, be);
        assert AddedBy(naming, t, route.ns, rule, ref) == Some(be);
      }
      if be in Called(naming, t, route) {
        var rule, ref :| rule in route.rules && rule.valid && ref in rule.refs && AddedBy(naming, t, route.ns, rule, ref) == Some(be);
        assert Calls(naming, t, route.ns, rule, ref, be);
      }
    }
  }

  /** The backends the upserted valid routes among `done` queue. */
  ghost function QueuedBy(naming: Naming, t: OwnerType, routes: map<ObjectKey, Route>, done: set<ObjectKey>): set<string> {
    set k, be | k in done && k in routes && be in QueuedByOne(naming, t, routes[k]) :: be
  }

  /** The backends that upserted valid routes among `done` owned and call for no more. */
  ghost function LeftBy(naming: Naming, t: OwnerType, routes: map<ObjectKey, Route>, done: set<ObjectKey>, before: Owners): set<string> {
    set k, be | k in done && k in routes && be in LeftByOne(naming, t, routes[k], OwnedBackends(before, t, k)) :: be
  }

  ghost function LeftByOne(naming: Naming, t: OwnerType, route: Route, owned: set<string>): set<string> {
    if route.status == Upserted && route.valid then set be | be in owned && !CallsFor(naming, t, route, be) else {}
  }

  lemma OneMoreLeft(naming: Naming, t: OwnerType, routes: map<ObjectKey, Route>, done: set<ObjectKey>, k: ObjectKey, before: Owners)
    requires k in routes
    ensures LeftBy(naming, t, routes, done + {k}, before) ==
            LeftBy(naming, t, routes, done, before) + LeftByOne(naming, t, routes[k], OwnedBackends(before, t, k))
  {
    hide LeftByOne, OwnedBackends;
  }

  ghost function QueuedByOne(naming: Naming, t: OwnerType, route: Route): set<string> {
    if route.status == Upserted && route.valid then Called(naming, t, route) else {}
  }

  /** The owner a route processed in this cycle should leave on a backend. */
  ghost function Due(naming: Naming, t: OwnerType, route: Route, be: string, before: Option<int>): Option<int> {
    match route.status
    case Unchanged => before
    case Deleted => None
    case Upserted => if route.valid && CallsFor(naming, t, route, be) then Some(route.generation) else None
  }

  /** Routes that give up all their backends, which are then queued for deletion. */
  ghost predicate Withdraws(route: Route) {
    route.status == Deleted || (route.status == Upserted && !route.valid)
  }

  class BackendManager {
    const naming: Naming
    var owners: Owners
    var upserted: map<string, map<ObjectKey, BackendRef>>
    var deleted: set<string>
    var unreferenced: set<string>

    constructor (naming: Naming)
      ensures owners == map[] && this.naming == naming && deleted == {} && unreferenced == {} && upserted == map[]
    {
      this.naming := naming;
      owners, upserted, deleted, unreferenced := map[], map[], {}, {};
    }

    /** Every cycle starts with empty queues. */
    method ResetQueues()
      modifies this`upserted, this`deleted, this`unreferenced
      ensures upserted == map[] && deleted == {} && unreferenced == {}
    {
      upserted, deleted, unreferenced := map[], {}, {};
    }

    method Add(be: string, t: OwnerType, k: ObjectKey, generation: int)
      modifies this`owners
      ensures owners == AddOwner(old(owners), be, t, k, generation)
    {
      if be !in owners {
        owners := owners[be := map[]];
      }
      if t !in owners[be] {
        owners := owners[be := owners[be][t := map[]]];
      }
      owners := owners[be := owners[be][t := owners[be][t][k := generation]]];
    }

    method Remove(be: string, t: OwnerType, k: ObjectKey)
      modifies this`owners
      ensures owners == RemoveOwner(old(owners), be, t, k)
    {
      if be !in owners {
        return;
      }
      if t !in owners[be] {
        return;
      }
      owners := owners[be := owners[be][t := owners[be][t] - {k}]];
    }

    method GetBackendsReferencedBy(t: OwnerType, k: ObjectKey) returns (backends: set<string>)
      ensures backends == OwnedBackends(owners, t, k)
    {
      backends := {};
      var todo := owners.Keys;
      while todo != {}
        invariant todo <= owners.Keys
        invariant backends == set be | be in owners.Keys - todo && Generation(owners, be, t, k) != None
      {
        var be :| be in todo;
        todo := todo - {be};
        if t !in owners[be] {
          continue;
        }
        if k in owners[be][t] {
          backends := backends + {be};
        }
      }
    }

    method AddImpactedUpserted(be: string, k: ObjectKey, ref: BackendRef, ghost names: set<string>)
      requires Queued(upserted, k, names)
      modifies this`upserted
      ensures upserted == old(upserted)[be := (if be in old(upserted) then old(upserted)[be] else map[])[k := ref]]
      ensures Queued(upserted, k, names + {be})
    {
      if be !in upserted {
        upserted := upserted[be := map[]];
      }
      upserted := upserted[be := upserted[be][k := ref]];
    }

    // -- one valid route

    ghost predicate Gained(before: Owners, queue: set<string>, t: OwnerType, k: ObjectKey, generation: int, names: set<string>)
      reads this
    {
      && NoEmptyBackend(owners) && Changed(before, owners, t, k, names, Some(generation)) && owners.Keys == before.Keys + names
      && Queued(upserted, k, names) && upserted.Keys == queue + names
    }

    method UpsertBackend(be: string, t: OwnerType, k: ObjectKey, generation: int, ref: BackendRef, ghost before: Owners,
                         ghost queue: set<string>, ghost names: set<string>)
      requires Gained(before, queue, t, k, generation, names)
      modifies this`owners, this`upserted
      ensures Gained(before, queue, t, k, generation, names + {be})
    {
      hide Changed, NoEmptyBackend, AddOwner, Queued;
      Gain(before, owners, t, k, names, generation, be);
      Add(be, t, k, generation);
      AddImpactedUpserted(be, k, ref, names);
    }

    /** Adds the backends called for by one rule. */
    method UpsertRule(t: OwnerType, k: ObjectKey, route: Route, rule: Rule, ghost before: Owners,
                      ghost queue: set<string>, names0: set<string>) returns (names: set<string>)
      requires rule in route.rules && Gained(before, queue, t, k, route.generation, names0)
      requires forall be :: be in names0 ==> CallsFor(naming, t, route, be)
      modifies this`owners, this`upserted
      ensures Gained(before, queue, t, k, route.generation, names)
      ensures names0 <= names && forall be :: be in names ==> CallsFor(naming, t, route, be)
      ensures forall ref, be :: Calls(naming, t, route.ns, rule, ref, be) ==> be in names
    {
      hide Gained, CallsFor, Calls, CheckKey, RefName;
      names := names0;
      CallsNeeds(naming, t, route.ns, rule);
      if !rule.valid {
        return;
      }
      for i := 0 to |rule.refs|
        invariant names0 <= names && Gained(before, queue, t, k, route.generation, names)
        invariant forall be :: be in names ==> CallsFor(naming, t, route, be)
        invariant forall j, be :: 0 <= j < i && Calls(naming, t, route.ns, rule, rule.refs[j], be) ==> be in names
      {
        var ref := rule.refs[i];
        CallsIsAdded(naming, t, route.ns, rule, i);
        var name := RefName(naming, t, route.ns, ref);
        if name == None {
          continue;
        }
        if CheckKey(ref) !in rule.checks {
          continue;
        }
        if rule.checks[CheckKey(ref)] {
          var be := name.value;
          CalledFor(naming, t, route, rule, ref, be);
          UpsertBackend(be, t, k, route.generation, ref, before, queue, names);
          names := names + {be};
        }
      }
    }

    method UpsertRouteBackends(t: OwnerType, k: ObjectKey, route: Route)
      requires NoEmptyBackend(owners)
      modifies this`owners, this`upserted, this`unreferenced
      ensures NoEmptyBackend(owners) && OwnsExactly(naming, t, k, route, old(owners), owners)
      ensures KeysCalledFor(naming, t, route, old(owners), owners)
      ensures forall be :: CallsFor(naming, t, route, be) ==> be in upserted && k in upserted[be]
      ensures upserted.Keys == old(upserted).Keys + Called(naming, t, route)
      ensures unreferenced == old(unreferenced) + set be | be in OwnedBackends(old(owners), t, k) && !CallsFor(naming, t, route, be)
    {
      var names := UpsertRules(t, k, route);
      CalledIsSet(naming, t, route, names);
      hide CallsFor, Changed, NoEmptyBackend, OwnsExactly, KeysCalledFor, OwnedBackends;
      ghost var mid := owners;
      RemoveUnreferenced(t, k, names);
      Replaced(naming, t, k, route, old(owners), mid, owners, names);
    }

    method RemoveUnreferenced(t: OwnerType, k: ObjectKey, names: set<string>)
      requires NoEmptyBackend(owners)
      modifies this`owners, this`unreferenced
      ensures NoEmptyBackend(owners) && owners.Keys == old(owners).Keys
      ensures Changed(old(owners), owners, t, k, OwnedBackends(old(owners), t, k) - names, None)
      ensures unreferenced == old(unreferenced) + (OwnedBackends(old(owners), t, k) - names)
    {
      hide Changed, NoEmptyBackend, OwnedBackends;
      var referenced := GetBackendsReferencedBy(t, k);
      var todo := SetDifference(referenced, names);
      RemoveAll(t, k, todo);
      unreferenced := unreferenced + todo;
    }

    method UpsertRules(t: OwnerType, k: ObjectKey, route: Route) returns (names: set<string>)
      requires NoEmptyBackend(owners)
      modifies this`owners, this`upserted
      ensures Gained(old(owners), old(upserted).Keys, t, k, route.generation, names)
      ensures forall be :: be in names <==> CallsFor(naming, t, route, be)
    {
      hide Gained, CallsFor, Calls;
      names := {};
      NothingGained(t, k, route.generation);
      for i := 0 to |route.rules|
        invariant Gained(old(owners), old(upserted).Keys, t, k, route.generation, names)
        invariant forall be :: be in names ==> CallsFor(naming, t, route, be)
        invariant forall j, ref, be :: 0 <= j < i && Calls(naming, t, route.ns, route.rules[j], ref, be) ==> be in names
      {
        names := UpsertRule(t, k, route, route.rules[i], old(owners), old(upserted).Keys, names);
      }
      AllCalled(naming, t, route, names);
    }

    lemma NothingGained(t: OwnerType, k: ObjectKey, generation: int)
      requires NoEmptyBackend(owners)
      ensures Gained(owners, upserted.Keys, t, k, generation, {})
    {
      Unaltered(owners, t, k, Some(generation));
    }

    method RemoveAll(t: OwnerType, k: ObjectKey, backends: set<string>)
      requires NoEmptyBackend(owners)
      modifies this`owners
      ensures NoEmptyBackend(owners) && owners.Keys == old(owners).Keys
      ensures Changed(old(owners), owners, t, k, backends, None)
    {
      hide Changed, NoEmptyBackend, RemoveOwner;
      Unaltered(owners, t, k, None);
      var todo := backends;
      assert backends - todo == {};
      while todo != {}
        invariant todo <= backends && NoEmptyBackend(owners) && owners.Keys == old(owners).Keys
        invariant Changed(old(owners), owners, t, k, backends - todo, None)
      {
        var be :| be in todo;
        ghost var done := backends - todo;
        todo := todo - {be};
        assert backends - todo == done + {be};
        Lose(old(owners), owners, t, k, done, be);
        Remove(be, t, k);
      }
      assert backends - todo == backends;
    }

    // -- the routes of one type

    method OnRemovedRoute(t: OwnerType, k: ObjectKey)
      requires NoEmptyBackend(owners)
      modifies this`owners, this`deleted
      ensures NoEmptyBackend(owners) && owners.Keys == old(owners).Keys
      ensures Changed(old(owners), owners, t, k, OwnedBackends(old(owners), t, k), None)
      ensures deleted == old(deleted) + OwnedBackends(old(owners), t, k)
    {
      var impacted := GetBackendsReferencedBy(t, k);
      RemoveAll(t, k, impacted);
      deleted := deleted + impacted;
    }

    method ProcessRoute(t: OwnerType, k: ObjectKey, route: Route)
      requires NoEmptyBackend(owners)
      modifies this`owners, this`upserted, this`unreferenced, this`deleted
      ensures NoEmptyBackend(owners) && OneRenewed(naming, t, k, route, old(owners), owners)
      ensures deleted == old(deleted) + if Withdraws(route) then OwnedBackends(old(owners), t, k) else {}
      ensures unreferenced == old(unreferenced) + LeftByOne(naming, t, route, OwnedBackends(old(owners), t, k))
      ensures upserted.Keys == old(upserted).Keys + QueuedByOne(naming, t, route)
    {
      hide CallsFor, NoEmptyBackend;
      match route.status {
        case Unchanged =>
        case Upserted =>
          if route.valid {
            UpsertRouteBackends(t, k, route);
            UpsertRenews(naming, t, k, route, old(owners), owners);
          } else {
            OnRemovedRoute(t, k);
            Withdrawn(naming, t, k, route, old(owners), owners);
          }
        case Deleted =>
          OnRemovedRoute(t, k);
          Withdrawn(naming, t, k, route, old(owners), owners);
      }
    }

    /** One pass over the routes of one type, then the pruning of both types. */
    method ProcessRoutes(t: OwnerType, routes: map<ObjectKey, Route>)
      requires Pruned(owners)
      modifies this`owners, this`upserted, this`unreferenced, this`deleted
      ensures Pruned(owners) && Renewed(naming, t, routes, routes.Keys, old(owners), owners)
      ensures deleted == old(deleted) + GivenUp(old(owners), t, routes, routes.Keys) + Orphans(old(owners), owners)
      ensures upserted.Keys == old(upserted).Keys + QueuedBy(naming, t, routes, routes.Keys)
      ensures unreferenced == old(unreferenced) + LeftBy(naming, t, routes, routes.Keys, old(owners))
    {
      hide QueuedBy, QueuedByOne, LeftBy, LeftByOne;
      hide Pruned, NoEmptyBackend, Renewed, OneRenewed, OwnedBackends, GivenUp, SameOwnership, Withdraws;
      PrunedHasNoEmpty(owners);
      NoneRenewed(naming, t, routes, owners);
      var todo := routes.Keys;
      assert routes.Keys - todo == {};
      while todo != {}
        invariant todo <= routes.Keys && NoEmptyBackend(owners) && old(owners).Keys <= owners.Keys
        invariant Renewed(naming, t, routes, routes.Keys - todo, old(owners), owners)
        invariant deleted == old(deleted) + GivenUp(old(owners), t, routes, routes.Keys - todo)
        invariant upserted.Keys == old(upserted).Keys + QueuedBy(naming, t, routes, routes.Keys - todo)
        invariant unreferenced == old(unreferenced) + LeftBy(naming, t, routes, routes.Keys - todo, old(owners))
      {
        var k :| k in todo;
        ghost var done := routes.Keys - todo;
        ghost var before := owners;
        todo := todo - {k};
        assert routes.Keys - todo == done + {k};
        ProcessRoute(t, k, routes[k]);
        OneMoreRenewed(naming, t, routes, done, k, old(owners), before, owners);
        OneMoreQueued(naming, t, routes, done, k);
        OneMoreLeft(naming, t, routes, done, k, old(owners));
      }
      assert routes.Keys - todo == routes.Keys;
      ghost var mid := owners;
      CleanupUnreferencedBackends();
      OrphansAfter(naming, t, routes, old(owners), mid, owners);
    }

    /** Deletes what became empty; a backend left without owners is queued for deletion. */
    method CleanupUnreferencedBackends()
      requires NoEmptyBackend(owners)
      modifies this`owners, this`deleted
      ensures Pruned(owners) && SameOwnership(old(owners), owners) && owners.Keys <= old(owners).Keys
      ensures deleted == old(deleted) + set be | be in old(owners) && Ownerless(old(owners), be)
    {
      ghost var start := owners;
      CleanupFor(HTTPRoute);
      CleanupFor(TLSRoute);
      CleanedTwice(start);
    }

    method CleanupFor(t: OwnerType)
      modifies this`owners, this`deleted
      ensures owners == CleanedOf(old(owners), t, old(owners).Keys)
      ensures deleted == old(deleted) + EmptiedOf(old(owners), t, old(owners).Keys)
    {
      hide CleanedOf, EmptiedOf, Emptied, Trimmed;
      ghost var start := owners;
      CleanedNothing(start, t);
      var todo := owners.Keys;
      assert start.Keys - todo == {};
      while todo != {}
        invariant todo <= start.Keys
        invariant owners == CleanedOf(start, t, start.Keys - todo)
        invariant deleted == old(deleted) + EmptiedOf(start, t, start.Keys - todo)
      {
        var be :| be in todo;
        ghost var done := start.Keys - todo;
        todo := todo - {be};
        assert start.Keys - todo == done + {be};
        CleanedStep(start, t, done, be);
        CleanupBackend(t, be);
      }
      assert start.Keys - todo == start.Keys;
    }

    method CleanupBackend(t: OwnerType, be: string)
      requires be in owners
      modifies this`owners, this`deleted
      ensures owners == if Emptied(old(owners), t, be) then old(owners) - {be} else old(owners)[be := Trimmed(old(owners)[be], t)]
      ensures deleted == old(deleted) + if Emptied(old(owners), t, be) then {be} else {}
    {
      if t !in owners[be] {
        return;
      }
      if owners[be][t] == map[] {
        owners := owners[be := owners[be] - {t}];
      }
      if owners[be] == map[] {
        owners := owners - {be};
        deleted := deleted + {be};
      }
    }
  }

  // ---- pruning, on the index

  ghost function Trimmed(forBackend: map<OwnerType, map<ObjectKey, int>>, t: OwnerType): map<OwnerType, map<ObjectKey, int>> {
    if t in forBackend && forBackend[t] == map[] then forBackend - {t} else forBackend
  }

  ghost predicate Emptied(o: Owners, t: OwnerType, be: string)
    requires be in o
  {
    t in o[be] && Trimmed(o[be], t) == map[]
  }

  ghost function CleanedOf(o: Owners, t: OwnerType, done: set<string>): Owners {
    map be | be in o && !(be in done && Emptied(o, t, be)) :: if be in done then Trimmed(o[be], t) else o[be]
  }

  ghost function EmptiedOf(o: Owners, t: OwnerType, done: set<string>): set<string> {
    set be | be in done && be in o && Emptied(o, t, be)
  }

  lemma CleanedNothing(o: Owners, t: OwnerType)
    ensures CleanedOf(o, t, {}) == o && EmptiedOf(o, t, {}) == {}
  {}

  lemma CleanedStep(o: Owners, t: OwnerType, done: set<string>, be: string)
    requires be in o && be !in done
    ensures var before, after := CleanedOf(o, t, done), CleanedOf(o, t, done + {be});
            && be in before && before[be] == o[be] && (Emptied(before, t, be) <==> Emptied(o, t, be))
            && EmptiedOf(o, t, done + {be}) == EmptiedOf(o, t, done) + (if Emptied(o, t, be) then {be} else {})
            && after == if Emptied(o, t, be) then before - {be} else before[be := Trimmed(o[be], t)]
  {}

  lemma CleanedTwice(o: Owners)
    requires NoEmptyBackend(o)
    ensures var a := CleanedOf(o, HTTPRoute, o.Keys);
            var b := CleanedOf(a, TLSRoute, a.Keys);
            && Pruned(b) && SameOwnership(o, b) && b.Keys <= o.Keys
            && EmptiedOf(o, HTTPRoute, o.Keys) + EmptiedOf(a, TLSRoute, a.Keys)
               == set be | be in o && Ownerless(o, be)
  {
    var a := CleanedOf(o, HTTPRoute, o.Keys);
    var b := CleanedOf(a, TLSRoute, a.Keys);
    forall be | be in o
      ensures be in b ==> b[be] != map[] && forall t :: t in b[be] ==> b[be][t] != map[]
      ensures Emptied(o, HTTPRoute, be) || (be in a && Emptied(a, TLSRoute, be)) <==> Ownerless(o, be)
      ensures forall t, k :: Generation(o, be, t, k) == Generation(b, be, t, k)
    {
      CleanedBackend(o, be);
    }
  }

  lemma CleanedBackend(o: Owners, be: string)
    requires NoEmptyBackend(o) && be in o
    ensures var a := CleanedOf(o, HTTPRoute, o.Keys);
            var b := CleanedOf(a, TLSRoute, a.Keys);
            && (be in b ==> b[be] != map[] && forall t :: t in b[be] ==> b[be][t] != map[])
            && (Emptied(o, HTTPRoute, be) || (be in a && Emptied(a, TLSRoute, be)) <==> Ownerless(o, be))
            && forall t, k :: Generation(o, be, t, k) == Generation(b, be, t, k)
  {
    var a := CleanedOf(o, HTTPRoute, o.Keys);
    var m := o[be];
    var n := Trimmed(Trimmed(m, HTTPRoute), TLSRoute);
    TrimmedTwice(m);
    hide Trimmed;
    forall t | t in m && m[t] != map[] ensures !Ownerless(o, be) {
      var k :| k in m[t];
      assert Generation(o, be, t, k) != None;
    }
    var t :| t in m;
    assert n == map[] || exists t :: t in n;
  }

  lemma TrimmedTwice(m: map<OwnerType, map<ObjectKey, int>>)
    ensures var a := Trimmed(m, HTTPRoute);
            var n := Trimmed(a, TLSRoute);
            && (forall t :: t in n <==> t in m && m[t] != map[])
            && (forall t :: t in n ==> n[t] == m[t])
            && (HTTPRoute !in m ==> a == m)
            && (TLSRoute !in a ==> n == a)
  {
    var a := Trimmed(m, HTTPRoute);
    var n := Trimmed(a, TLSRoute);
    forall t ensures t in n <==> t in m && m[t] != map[] ensures t in n ==> n[t] == m[t] {
      if t.HTTPRoute? {
        assert t in a <==> t in m && m[t] != map[];
      } else {
        assert t in a <==> t in m;
      }
    }
  }

  // ---- one pass, on the relation

  ghost predicate OneRenewed(naming: Naming, t: OwnerType, k: ObjectKey, route: Route, before: Owners, after: Owners) {
    && (forall be, t', k' :: Generation(after, be, t', k') == OneRenewedAt(naming, t, k, route, before, be, t', k'))
    && before.Keys <= after.Keys
    && (forall be :: be in after && be !in before ==> !Ownerless(after, be))
  }

  ghost function OneRenewedAt(naming: Naming, t: OwnerType, k: ObjectKey, route: Route, before: Owners,
                              be: string, t': OwnerType, k': ObjectKey): Option<int> {
    if t' == t && k' == k then Due(naming, t, route, be, Generation(before, be, t, k)) else Generation(before, be, t', k')
  }

  /** Every processed route owns what is due to it; other routes, and those of the other
      type, own what they did. */
  ghost predicate Renewed(naming: Naming, t: OwnerType, routes: map<ObjectKey, Route>, done: set<ObjectKey>, before: Owners, after: Owners) {
    && (forall be, t', k :: Generation(after, be, t', k) == RenewedAt(naming, t, routes, done, before, be, t', k))
    && (forall be :: be in after && be !in before ==> !Ownerless(after, be))
  }

  ghost function RenewedAt(naming: Naming, t: OwnerType, routes: map<ObjectKey, Route>, done: set<ObjectKey>, before: Owners,
                           be: string, t': OwnerType, k: ObjectKey): Option<int> {
    if t' == t && k in done && k in routes then Due(naming, t, routes[k], be, Generation(before, be, t, k)) else Generation(before, be, t', k)
  }

  /** The backends of the routes that withdrew, whoever else owns them. */
  ghost function GivenUp(before: Owners, t: OwnerType, routes: map<ObjectKey, Route>, done: set<ObjectKey>): set<string> {
    set k, be | k in done && k in routes && Withdraws(routes[k]) && be in OwnedBackends(before, t, k) :: be
  }

  /** The backends that had an owner and have none left. */
  ghost function Orphans(before: Owners, after: Owners): set<string> {
    set be | be in before && Ownerless(after, be)
  }

  lemma PrunedHasNoEmpty(o: Owners)
    requires Pruned(o)
    ensures NoEmptyBackend(o)
  {}

  lemma NoneRenewed(naming: Naming, t: OwnerType, routes: map<ObjectKey, Route>, o: Owners)
    ensures Renewed(naming, t, routes, {}, o, o) && GivenUp(o, t, routes, {}) == {} && QueuedBy(naming, t, routes, {}) == {}
    ensures LeftBy(naming, t, routes, {}, o) == {}
  {}

  lemma OneMoreQueued(naming: Naming, t: OwnerType, routes: map<ObjectKey, Route>, done: set<ObjectKey>, k: ObjectKey)
    requires k in routes
    ensures QueuedBy(naming, t, routes, done + {k}) == QueuedBy(naming, t, routes, done) + QueuedByOne(naming, t, routes[k])
  {
    hide QueuedByOne;
  }

  lemma OneMoreRenewed(naming: Naming, t: OwnerType, routes: map<ObjectKey, Route>, done: set<ObjectKey>, k: ObjectKey,
                       start: Owners, before: Owners, after: Owners)
    requires k in routes && k !in done && Renewed(naming, t, routes, done, start, before)
    requires OneRenewed(naming, t, k, routes[k], before, after)
    ensures Renewed(naming, t, routes, done + {k}, start, after)
    ensures before.Keys <= after.Keys && OwnedBackends(before, t, k) == OwnedBackends(start, t, k)
    ensures GivenUp(start, t, routes, done + {k}) ==
            GivenUp(start, t, routes, done) + if Withdraws(routes[k]) then OwnedBackends(before, t, k) else {}
  {
    hide Due, Withdraws, Ownerless;
    forall be, t', k' ensures Generation(after, be, t', k') == RenewedAt(naming, t, routes, done + {k}, start, be, t', k') {
      assert Generation(after, be, t', k') == OneRenewedAt(naming, t, k, routes[k], before, be, t', k');
      assert Generation(before, be, t', k') == RenewedAt(naming, t, routes, done, start, be, t', k');
    }
    forall be ensures be in OwnedBackends(before, t, k) <==> be in OwnedBackends(start, t, k) {
      assert Generation(before, be, t, k) == RenewedAt(naming, t, routes, done, start, be, t, k);
    }
    forall be | be in after && be !in start ensures !Ownerless(after, be) {
      if be in before {
        StaysOwned(naming, t, k, routes, done, start, before, after, be);
      }
    }
  }

  /** A backend of a route processed earlier stays with that route. */
  lemma StaysOwned(naming: Naming, t: OwnerType, k: ObjectKey, routes: map<ObjectKey, Route>, done: set<ObjectKey>,
                   start: Owners, before: Owners, after: Owners, be: string)
    requires k in routes && k !in done && Renewed(naming, t, routes, done, start, before)
    requires OneRenewed(naming, t, k, routes[k], before, after) && be !in start && !Ownerless(before, be)
    ensures !Ownerless(after, be)
  {
    hide Due;
    var t', k' :| Generation(before, be, t', k') != None;
    assert Generation(before, be, t, k) == RenewedAt(naming, t, routes, done, start, be, t, k);
    assert Generation(after, be, t', k') == OneRenewedAt(naming, t, k, routes[k], before, be, t', k');
  }

  lemma OrphansAfter(naming: Naming, t: OwnerType, routes: map<ObjectKey, Route>, start: Owners, mid: Owners, after: Owners)
    requires Renewed(naming, t, routes, routes.Keys, start, mid) && start.Keys <= mid.Keys
    requires SameOwnership(mid, after) && after.Keys <= mid.Keys
    ensures Renewed(naming, t, routes, routes.Keys, start, after)
    ensures (set be | be in mid && Ownerless(mid, be)) == Orphans(start, after)
  {
    hide Due;
    forall be, t', k ensures Generation(after, be, t', k) == RenewedAt(naming, t, routes, routes.Keys, start, be, t', k) {
      assert Generation(mid, be, t', k) == RenewedAt(naming, t, routes, routes.Keys, start, be, t', k);
    }
    forall be ensures Ownerless(mid, be) <==> Ownerless(after, be) {
      SameOwnershipOwnerless(mid, after, be);
    }
  }

  lemma SameOwnershipOwnerless(a: Owners, b: Owners, be: string)
    requires SameOwnership(a, b)
    ensures Ownerless(a, be) <==> Ownerless(b, be)
  {
    assert forall t, k :: Generation(a, be, t, k) == Generation(b, be, t, k);
  }

  lemma UpsertRenews(naming: Naming, t: OwnerType, k: ObjectKey, route: Route, before: Owners, after: Owners)
    requires route.status == Upserted && route.valid
    requires OwnsExactly(naming, t, k, route, before, after) && KeysCalledFor(naming, t, route, before, after)
    ensures OneRenewed(naming, t, k, route, before, after)
  {
    hide CallsFor;
    forall be, t', k' ensures Generation(after, be, t', k') == OneRenewedAt(naming, t, k, route, before, be, t', k') {
      assert Generation(after, be, t', k') == ExactAt(naming, t, k, route, before, be, t', k');
    }
    forall be | be in after && be !in before ensures !Ownerless(after, be) {
      assert Generation(after, be, t, k) == ExactAt(naming, t, k, route, before, be, t, k);
    }
  }

  ghost predicate Queued(upserted: map<string, map<ObjectKey, BackendRef>>, k: ObjectKey, names: set<string>) {
    forall be :: be in names ==> be in upserted && k in upserted[be]
  }

  lemma AllCalled(naming: Naming, t: OwnerType, route: Route, names: set<string>)
    requires forall j, ref, be :: 0 <= j < |route.rules| && Calls(naming, t, route.ns, route.rules[j], ref, be) ==> be in names
    ensures forall be :: CallsFor(naming, t, route, be) ==> be in names
  {
    hide Calls;
  }

  lemma CalledFor(naming: Naming, t: OwnerType, route: Route, rule: Rule, ref: BackendRef, be: string)
    requires rule in route.rules && Calls(naming, t, route.ns, rule, ref, be)
    ensures CallsFor(naming, t, route, be)
  {}

  /** The route owns exactly what it calls for, at its generation; nothing else changes. */
  ghost predicate OwnsExactly(naming: Naming, t: OwnerType, k: ObjectKey, route: Route, before: Owners, after: Owners) {
    forall be, t', k' :: Generation(after, be, t', k') == ExactAt(naming, t, k, route, before, be, t', k')
  }

  ghost function ExactAt(naming: Naming, t: OwnerType, k: ObjectKey, route: Route, before: Owners,
                         be: string, t': OwnerType, k': ObjectKey): Option<int> {
    if t' != t || k' != k then Generation(before, be, t', k')
    else if CallsFor(naming, t, route, be) then Some(route.generation) else None
  }

  ghost predicate KeysCalledFor(naming: Naming, t: OwnerType, route: Route, before: Owners, after: Owners) {
    before.Keys <= after.Keys && forall be :: be in after && be !in before ==> CallsFor(naming, t, route, be)
  }

  lemma InOwned(o: Owners, t: OwnerType, k: ObjectKey, be: string)
    ensures be in OwnedBackends(o, t, k) <==> Generation(o, be, t, k) != None
  {}

  lemma Replaced(naming: Naming, t: OwnerType, k: ObjectKey, route: Route, before: Owners, mid: Owners, after: Owners, names: set<string>)
    requires forall be :: be in names <==> CallsFor(naming, t, route, be)
    requires Changed(before, mid, t, k, names, Some(route.generation))
    requires Changed(mid, after, t, k, OwnedBackends(mid, t, k) - names, None)
    requires mid.Keys == after.Keys == before.Keys + names
    ensures OwnsExactly(naming, t, k, route, before, after) && KeysCalledFor(naming, t, route, before, after)
    ensures OwnedBackends(mid, t, k) - names == set be | be in OwnedBackends(before, t, k) && !CallsFor(naming, t, route, be)
  {
    hide CallsFor, Generation;
    forall be, t', k' ensures Generation(after, be, t', k') == ExactAt(naming, t, k, route, before, be, t', k') {
      InOwned(mid, t, k, be);
      assert Generation(after, be, t', k') == ChangedAt(mid, t, k, OwnedBackends(mid, t, k) - names, None, be, t', k');
      assert Generation(mid, be, t', k') == ChangedAt(before, t, k, names, Some(route.generation), be, t', k');
    }
    forall be | be !in names
      ensures Generation(mid, be, t, k) == Generation(before, be, t, k)
      ensures be in OwnedBackends(before, t, k) <==> Generation(before, be, t, k) != None
      ensures be in OwnedBackends(mid, t, k) <==> Generation(mid, be, t, k) != None
    {
      InOwned(mid, t, k, be);
      InOwned(before, t, k, be);
      assert Generation(mid, be, t, k) == ChangedAt(before, t, k, names, Some(route.generation), be, t, k);
    }
  }

  lemma Withdrawn(naming: Naming, t: OwnerType, k: ObjectKey, route: Route, before: Owners, after: Owners)
    requires Withdraws(route) && before.Keys == after.Keys
    requires Changed(before, after, t, k, OwnedBackends(before, t, k), None)
    ensures OneRenewed(naming, t, k, route, before, after)
  {
    forall be, t', k' ensures Generation(after, be, t', k') == OneRenewedAt(naming, t, k, route, before, be, t', k') {
      assert Generation(after, be, t', k') == ChangedAt(before, t, k, OwnedBackends(before, t, k), None, be, t', k');
    }
  }
}
