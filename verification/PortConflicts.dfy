/** Listener port conflicts: at most one listener per port, over all managed gateways,
    kept cycle after cycle although only some gateways are rebuilt in each. */
module PortConflicts {
  import opened Wrappers
  import opened Keys
  import opened GatewayApi
  import opened ObjectStores
  import opened Sets

  datatype ConditionType = Accepted | ResolvedRefs | Conflicted | Programmed

  type Conditions = map<ConditionType, string>

  /** The conditions a failed check contributes; none when it passed or did not apply. */
  datatype TreeListener = TreeListener(spec: Listener, routeKinds: Conditions, protocol: Conditions, secret: Conditions,
                                       conflict: Conditions, conditions: Conditions, valid: bool)

  datatype TreeGateway = TreeGateway(resource: Option<Gateway>, status: Status, listeners: map<string, TreeListener>,
                                     paramsValid: bool, classValid: bool, conflictValid: bool, valid: bool)

  type GatewayTree = map<ObjectKey, TreeGateway>

  datatype GatewayListener = GatewayListener(listenerKey: ObjectKey, gatewayKey: ObjectKey)

  /** What the cycle reads besides the gateways: the known gateway classes and whether
      each is valid, which gateways have valid parameters, and which listeners ask for
      unsupported route kinds or unusable certificates. */
  datatype Env = Env(classes: map<string, bool>, validParams: set<ObjectKey>,
                     badKinds: set<(ObjectKey, string)>, badCerts: set<(ObjectKey, string)>)

  // ---- ports in use

  /** The listeners on a port: gateway key and position in its spec. */
  ghost function OnPort(tree: GatewayTree, port: int): set<(ObjectKey, nat)> {
    OnPortIn(tree, tree.Keys, port)
  }

  ghost function OnPortIn(tree: GatewayTree, keys: set<ObjectKey>, port: int): set<(ObjectKey, nat)> {
    set k, i | k in keys && k in tree && tree[k].resource.Some? && 0 <= i < |tree[k].resource.value.listeners|
               && tree[k].resource.value.listeners[i].port == port :: (k, i)
  }

  ghost function OnPortOf(gw: Gateway, k: ObjectKey, n: nat, port: int): set<(ObjectKey, nat)>
    requires n <= |gw.listeners|
  {
    set i | 0 <= i < n && gw.listeners[i].port == port :: (k, i)
  }

  /** The port tables describe the listeners of `tree`. */
  ghost predicate TablesOf(one: set<int>, multiple: map<int, seq<GatewayListener>>, tree: GatewayTree) {
    (forall p :: p in one <==> |OnPort(tree, p)| == 1) && MultipleOf(multiple, tree)
  }

  ghost predicate MultipleOf(multiple: map<int, seq<GatewayListener>>, tree: GatewayTree) {
    && (forall p :: p in multiple <==> |OnPort(tree, p)| > 1)
    && (forall p, x :: p in multiple && x in OnPort(tree, p) ==> Names(multiple[p], x.0))
  }

  ghost predicate Names(gls: seq<GatewayListener>, k: ObjectKey) {
    exists j :: 0 <= j < |gls| && gls[j].gatewayKey == k
  }

  // ---- states of one tree entry

  ghost predicate DeletedEntry(g: TreeGateway) {
    g.status == Deleted && g.resource == None && g.listeners == map[] && !g.valid && !g.classValid
  }

  /** Touched in this cycle, checks run, listeners not built yet. */
  ghost predicate PendingEntry(g: TreeGateway, k: ObjectKey) {
    g.status == Upserted && g.resource.Some? && g.resource.value.key == k && g.listeners == map[]
    && (g.valid <==> g.paramsValid && g.classValid)
  }

  /** The listeners stand for those of the spec, and are marked conflicted exactly when
      their port has several. */
  ghost predicate ListenerSettled(g: TreeGateway, n: string, multiple: map<int, seq<GatewayListener>>)
    requires g.resource.Some? && n in g.listeners
  {
    var l := g.listeners[n];
    && l.spec.name == n && l.spec in g.resource.value.listeners
    && (Conflicted in l.conditions <==> g.paramsValid && l.spec.port in multiple)
    && (l.valid <==> OtherChecksPassed(l) && Conflicted !in l.conditions)
  }

  predicate OtherChecksPassed(l: TreeListener) {
    l.routeKinds == map[] && l.protocol == map[] && l.secret == map[]
  }

  ghost function ListenerNames(gw: Gateway): set<string> {
    set l | l in gw.listeners :: l.name
  }

  /** None of the listeners has a port with several. */
  ghost predicate NoneShared(g: TreeGateway, multiple: map<int, seq<GatewayListener>>) {
    forall n :: n in g.listeners ==> g.listeners[n].spec.port !in multiple
  }

  /** Valid exactly with a valid class and valid parameters, and without a shared port or with
      a free one. */
  ghost predicate ValidExact(g: TreeGateway, one: set<int>, multiple: map<int, seq<GatewayListener>>)
    requires g.resource.Some?
  {
    g.valid <==> g.classValid && g.paramsValid && (NoneShared(g, multiple) || exists l :: l in g.resource.value.listeners && l.port in one)
  }

  /** What a listener has to pass when its gateway is built; all but the protocol is only
      looked at with valid parameters and a valid class. */
  ghost predicate PassesChecks(l: Listener, k: ObjectKey, gwValid: bool, env: Env, shared: bool) {
    && l.protocol in {"HTTP", "HTTPS", "TLS"}
    && (gwValid ==> !(l.protocol in {"HTTP", "HTTPS"} && (k, l.name) in env.badKinds)
                    && !(l.protocol == "HTTPS" && (k, l.name) in env.badCerts) && !shared)
  }

  ghost predicate BuiltIn(g: TreeGateway, k: ObjectKey, env: Env, multiple: map<int, seq<GatewayListener>>) {
    forall n :: n in g.listeners ==>
      (g.listeners[n].valid <==> PassesChecks(g.listeners[n].spec, k, g.paramsValid && g.classValid, env, g.listeners[n].spec.port in multiple))
  }

  ghost predicate SettledEntry(g: TreeGateway, k: ObjectKey, multiple: map<int, seq<GatewayListener>>) {
    && g.resource.Some? && g.resource.value.key == k && g.status != Deleted
    && (g.valid ==> g.paramsValid && g.classValid)
    && (NoneShared(g, multiple) ==> (g.valid <==> g.paramsValid && g.classValid))
    && g.listeners.Keys == (if g.classValid then ListenerNames(g.resource.value) else {})
    && (forall n :: n in g.listeners ==> ListenerSettled(g, n, multiple))
  }

  ghost predicate Settled(tree: GatewayTree, multiple: map<int, seq<GatewayListener>>) {
    forall k :: k in tree ==> DeletedEntry(tree[k]) || SettledEntry(tree[k], k, multiple)
  }

  // ---- the two guarantees

  /** A valid listener of a valid gateway has its port to itself. */
  ghost predicate PortsExclusive(tree: GatewayTree) {
    forall k, n :: k in tree && tree[k].valid && n in tree[k].listeners && tree[k].listeners[n].valid ==>
      |OnPort(tree, tree[k].listeners[n].spec.port)| == 1
  }

  /** For gateways that pass their class and parameter checks, a listener is conflicted
      exactly when the tree the tables were made from has another listener on its port. */
  ghost predicate ConflictsExact(tree: GatewayTree, tabled: GatewayTree) {
    forall k, n :: k in tree && tree[k].classValid && tree[k].paramsValid && n in tree[k].listeners ==>
      (Conflicted in tree[k].listeners[n].conditions <==> |OnPort(tabled, tree[k].listeners[n].spec.port)| > 1)
  }

  /** A live managed gateway of a valid class is valid exactly when its parameters are and
      either none of its listeners shares its port or some port of its spec has one listener. */
  ghost predicate GatewaysExact(tree: GatewayTree, tabled: GatewayTree) {
    forall k :: k in tree && tree[k].status != Deleted && tree[k].resource.Some? ==> GatewayExact(tree[k], tabled)
  }

  ghost predicate GatewayExact(g: TreeGateway, tabled: GatewayTree)
    requires g.resource.Some?
  {
    g.valid <==> g.classValid && g.paramsValid
                 && ((forall n :: n in g.listeners ==> |OnPort(tabled, g.listeners[n].spec.port)| <= 1)
                     || exists l :: l in g.resource.value.listeners && |OnPort(tabled, l.port)| == 1)
  }

  /** A listener of a gateway built in this cycle is valid exactly when it passes its checks. */
  ghost predicate ListenersExact(tree: GatewayTree, tabled: GatewayTree, env: Env) {
    forall k, n :: k in tree && tree[k].status == Upserted && tree[k].classValid && n in tree[k].listeners ==>
      (tree[k].listeners[n].valid
       <==> PassesChecks(tree[k].listeners[n].spec, k, tree[k].paramsValid, env, |OnPort(tabled, tree[k].listeners[n].spec.port)| > 1))
  }

  lemma TabledIsExact(tree: GatewayTree, one: set<int>, multiple: map<int, seq<GatewayListener>>, tabled: GatewayTree, env: Env)
    requires TablesOf(one, multiple, tabled)
    requires forall k :: k in tree && tree[k].status != Deleted && tree[k].resource.Some? ==> ValidExact(tree[k], one, multiple)
    requires forall k :: k in tree && tree[k].status == Upserted && tree[k].classValid ==> BuiltIn(tree[k], k, env, multiple)
    ensures GatewaysExact(tree, tabled) && ListenersExact(tree, tabled, env)
  {
    hide PassesChecks, OnPort, BuiltIn, ValidExact;
    forall k | k in tree && tree[k].status != Deleted && tree[k].resource.Some? ensures GatewayExact(tree[k], tabled) {
      TabledGateway(tree[k], one, multiple, tabled);
    }
    forall k, n | k in tree && tree[k].status == Upserted && tree[k].classValid && n in tree[k].listeners
      ensures tree[k].listeners[n].valid
          <==> PassesChecks(tree[k].listeners[n].spec, k, tree[k].paramsValid, env, |OnPort(tabled, tree[k].listeners[n].spec.port)| > 1)
    {
      TabledListener(tree[k], k, n, env, one, multiple, tabled);
    }
  }

  lemma TabledGateway(g: TreeGateway, one: set<int>, multiple: map<int, seq<GatewayListener>>, tabled: GatewayTree)
    requires TablesOf(one, multiple, tabled) && g.resource.Some? && ValidExact(g, one, multiple)
    ensures GatewayExact(g, tabled)
  {
    hide OnPort;
    forall p: int ensures p in multiple <==> |OnPort(tabled, p)| > 1 ensures p in one <==> |OnPort(tabled, p)| == 1 {}
  }

  lemma TabledListener(g: TreeGateway, k: ObjectKey, n: string, env: Env, one: set<int>, multiple: map<int, seq<GatewayListener>>, tabled: GatewayTree)
    requires TablesOf(one, multiple, tabled) && BuiltIn(g, k, env, multiple) && n in g.listeners && g.classValid
    ensures g.listeners[n].valid <==> PassesChecks(g.listeners[n].spec, k, g.paramsValid, env, |OnPort(tabled, g.listeners[n].spec.port)| > 1)
  {
    hide OnPort;
  }

  ghost predicate SameSpecs(tree: GatewayTree, tabled: GatewayTree) {
    forall k :: k in tree ==> k in tabled && tree[k].resource == tabled[k].resource
  }

  /** The class of a gateway is known and not a valid one. */
  ghost predicate ClassLost(g: TreeGateway, env: Env) {
    g.resource.Some? && g.resource.value.className in env.classes && !env.classes[g.resource.value.className]
  }

  /** The tables count a gateway that is no longer managed only when its class was lost
      while the gateway itself had no update. */
  ghost predicate OnlyLostLeave(keys: set<ObjectKey>, tabled: GatewayTree, updated: set<ObjectKey>, env: Env, was: GatewayTree) {
    forall k :: k in tabled && k !in keys ==> k in was && k !in updated && ClassLost(was[k], env)
  }

  ghost predicate NoneLost(updated: set<ObjectKey>, env: Env, was: GatewayTree) {
    forall k :: k in was && k !in updated ==> !ClassLost(was[k], env)
  }

  /** Without lost classes the tables count the listeners of the managed gateways. */
  lemma NoneLostIsExact(tree: GatewayTree, tabled: GatewayTree, updated: set<ObjectKey>, env: Env, was: GatewayTree)
    requires SameSpecs(tree, tabled) && OnlyLostLeave(tree.Keys, tabled, updated, env, was) && NoneLost(updated, env, was)
    requires ConflictsExact(tree, tabled)
    ensures ConflictsExact(tree, tree)
  {
    forall p ensures OnPort(tree, p) == OnPort(tabled, p) {}
  }

  lemma OnPortShrinks(tree: GatewayTree, tabled: GatewayTree, port: int)
    requires SameSpecs(tree, tabled)
    ensures OnPort(tree, port) <= OnPort(tabled, port) && |OnPort(tree, port)| <= |OnPort(tabled, port)|
  {
    assert OnPort(tree, port) <= OnPort(tabled, port);
    SubsetSize(OnPort(tree, port), OnPort(tabled, port));
  }

  /** The tables of a tree that the current one descends from by dropping gateways are
      enough to keep ports exclusive. */
  lemma SettledIsExclusive(tree: GatewayTree, one: set<int>, multiple: map<int, seq<GatewayListener>>, tabled: GatewayTree)
    requires Settled(tree, multiple) && TablesOf(one, multiple, tabled) && SameSpecs(tree, tabled)
    ensures PortsExclusive(tree) && ConflictsExact(tree, tabled)
  {
    forall k, n | k in tree && tree[k].valid && n in tree[k].listeners && tree[k].listeners[n].valid
      ensures |OnPort(tree, tree[k].listeners[n].spec.port)| == 1
    {
      var l := tree[k].listeners[n];
      assert ListenerSettled(tree[k], n, multiple);
      OnPortShrinks(tree, tabled, l.spec.port);
      var i :| 0 <= i < |tree[k].resource.value.listeners| && tree[k].resource.value.listeners[i] == l.spec;
      assert (k, i) in OnPort(tree, l.spec.port);
    }
    forall k, n | k in tree && tree[k].classValid && tree[k].paramsValid && n in tree[k].listeners
      ensures Conflicted in tree[k].listeners[n].conditions <==> |OnPort(tabled, tree[k].listeners[n].spec.port)| > 1
    {
      assert ListenerSettled(tree[k], n, multiple);
    }
  }

  /** A gateway in neither the previous nor the new conflicts needs no rebuild. */
  lemma UntouchedStaysSettled(g: TreeGateway, k: ObjectKey, previous: map<int, seq<GatewayListener>>, multiple: map<int, seq<GatewayListener>>)
    requires SettledEntry(g, k, previous)
    requires forall i :: 0 <= i < |g.resource.value.listeners| ==>
      g.resource.value.listeners[i].port !in previous && g.resource.value.listeners[i].port !in multiple
    ensures SettledEntry(g, k, multiple) && NoneShared(g, multiple)
  {
    forall n | n in g.listeners ensures ListenerSettled(g, n, multiple) && g.listeners[n].spec.port !in previous && g.listeners[n].spec.port !in multiple {
      assert ListenerSettled(g, n, previous);
    }
  }

  ghost function SomeElement<T>(s: set<T>): (x: T)
    requires s != {}
    ensures x in s
  {
    var x :| x in s;
    x
  }

  lemma SomePort(ports: set<int>)
    requires ports != {}
    ensures exists p: int :: p in ports
  {
    var p := SomeElement(ports);
  }

  // ---- the builder

  class GatewayBuilder {
    var gateTree: GatewayTree
    var unmanaged: GatewayTree
    var portsWithOneListener: set<int>
    var portsWithMultipleListeners: map<int, seq<GatewayListener>>
    var previousPortsWithMultipleListeners: map<int, seq<GatewayListener>>
    /** The managed tree the port tables were computed from. */
    ghost var tabled: GatewayTree

    ghost predicate AllValidExact()
      reads this
    {
      forall k :: k in gateTree && gateTree[k].status != Deleted && gateTree[k].resource.Some? ==>
        ValidExact(gateTree[k], portsWithOneListener, portsWithMultipleListeners)
    }

    ghost predicate AllBuiltIn(env: Env)
      reads this
    {
      forall k :: k in gateTree && gateTree[k].status == Upserted && gateTree[k].classValid ==>
        BuiltIn(gateTree[k], k, env, portsWithMultipleListeners)
    }

    /** What holds between cycles. */
    ghost predicate Valid()
      reads this
    {
      && Settled(gateTree, portsWithMultipleListeners) && AllValidExact()
      && TablesOf(portsWithOneListener, portsWithMultipleListeners, tabled)
      && SameSpecs(gateTree, tabled)
    }

    constructor ()
      ensures Valid() && gateTree == map[] && unmanaged == map[]
    {
      gateTree, unmanaged, tabled := map[], map[], map[];
      portsWithOneListener := {};
      portsWithMultipleListeners, previousPortsWithMultipleListeners := map[], map[];
    }

    /** What a cycle does to the entry of `k`: an update goes to the tree its class check
        says, a deletion marks it, and without either it stays as it was, unless it is checked
        and built again with the spec it had. */
    static ghost predicate AppliedAt(k: ObjectKey, gateTree: GatewayTree, unmanaged: GatewayTree, updates: map<ObjectKey, Update<Gateway>>,
                                     env: Env, was: GatewayTree)
    {
      if k in updates && updates[k].status == Upserted && updates[k].newObject.Some? then
        var gw := updates[k].newObject.value;
        if gw.className !in env.classes then
          (k in gateTree <==> k in was)
          && (k in gateTree ==> gateTree[k].resource == Some(gw) && gateTree[k].status == Upserted && !gateTree[k].classValid)
        else if env.classes[gw.className] then
          k in gateTree && k !in unmanaged && gateTree[k].resource == Some(gw) && gateTree[k].status == Upserted
          && gateTree[k].classValid && (gateTree[k].paramsValid <==> k in env.validParams)
        else
          k !in gateTree && k in unmanaged && unmanaged[k].resource == Some(gw) && !unmanaged[k].classValid
      else if k in updates && updates[k].status == Deleted then
        (k in gateTree <==> k in was) && (k in gateTree ==> DeletedEntry(gateTree[k]))
      else
        && (k in gateTree ==> k in was && gateTree[k].resource == was[k].resource && gateTree[k].status != Deleted
                              && (if gateTree[k].status == Unchanged then gateTree[k] == was[k] else Rechecked(gateTree[k], k, env)))
        && (k in was && k !in gateTree ==> k in unmanaged && unmanaged[k].resource == was[k].resource && !unmanaged[k].classValid)
    }

    /** The checks of this cycle; an unknown class passes none. */
    static ghost predicate Rechecked(g: TreeGateway, k: ObjectKey, env: Env) {
      g.resource.Some?
      && (if g.resource.value.className in env.classes then g.classValid && (g.paramsValid <==> k in env.validParams)
          else !g.classValid && !g.paramsValid)
    }

    /** The live entries, as they enter the next cycle. */
    static ghost function Live(tree: GatewayTree): GatewayTree {
      map k | k in tree && tree[k].status != Deleted :: tree[k].(status := Unchanged)
    }

    /** One cycle. */
    method RunCycle(updates: map<ObjectKey, Update<Gateway>>, env: Env)
      requires Valid() && LegalUpdates(updates)
      modifies this
      ensures Valid() && PortsExclusive(gateTree) && ConflictsExact(gateTree, tabled)
      ensures GatewaysExact(gateTree, tabled) && ListenersExact(gateTree, tabled, env)
      ensures OnlyLostLeave(gateTree.Keys, tabled, updates.Keys, env, Live(old(gateTree)))
      ensures NoneLost(updates.Keys, env, Live(old(gateTree))) ==> ConflictsExact(gateTree, gateTree)
      ensures forall k :: AppliedAt(k, gateTree, unmanaged, updates, env, Live(old(gateTree)))
    {
      hide Settled, TablesOf, PortsExclusive, ConflictsExact, GatewaysExact, ListenersExact, SameSpecs, AppliedAt, ValidExact, BuiltIn;
      CleanTreeUpdates();
      ComputeTreeUpdates(updates, env);
      SettledIsExclusive(gateTree, portsWithOneListener, portsWithMultipleListeners, tabled);
      TabledIsExact(gateTree, portsWithOneListener, portsWithMultipleListeners, tabled, env);
      if NoneLost(updates.Keys, env, Live(old(gateTree))) {
        NoneLostIsExact(gateTree, tabled, updates.Keys, env, Live(old(gateTree)));
      }
    }

    ghost static predicate LegalUpdates(updates: map<ObjectKey, Update<Gateway>>) {
      && (forall k :: k in updates ==> updates[k].status != Unchanged)
      && (forall k :: k in updates && updates[k].status == Upserted ==> updates[k].newObject.Some? && updates[k].newObject.value.key == k)
    }

    method CleanTreeUpdates()
      requires Valid()
      modifies this`gateTree, this`unmanaged
      ensures Valid() && gateTree == Live(old(gateTree))
    {
      hide SettledEntry, ValidExact, TablesOf, DeletedEntry;
      ghost var before := gateTree;
      gateTree := CleanTree(gateTree);
      unmanaged := CleanTree(unmanaged);
      forall k | k in gateTree
        ensures SettledEntry(gateTree[k], k, portsWithMultipleListeners)
        ensures gateTree[k].resource.Some? ==> ValidExact(gateTree[k], portsWithOneListener, portsWithMultipleListeners)
      {
        NotDeleted(before[k]);
        CleanedSettled(before[k], k, portsWithOneListener, portsWithMultipleListeners);
      }
    }

    static lemma NotDeleted(g: TreeGateway)
      ensures g.status != Deleted ==> !DeletedEntry(g)
    {}

    static lemma CleanedSettled(g: TreeGateway, k: ObjectKey, one: set<int>, multiple: map<int, seq<GatewayListener>>)
      requires SettledEntry(g, k, multiple)
      ensures SettledEntry(g.(status := Unchanged), k, multiple)
      ensures g.resource.Some? && (ValidExact(g, one, multiple) ==> ValidExact(g.(status := Unchanged), one, multiple))
    {
      var r := g.(status := Unchanged);
      forall n | n in r.listeners ensures ListenerSettled(r, n, multiple) {
        assert ListenerSettled(g, n, multiple);
      }
      assert NoneShared(r, multiple) <==> NoneShared(g, multiple);
    }

    static method CleanTree(tree: GatewayTree) returns (r: GatewayTree)
      ensures r.Keys == set k | k in tree && tree[k].status != Deleted
      ensures forall k :: k in r ==> r[k] == tree[k].(status := Unchanged)
    {
      r := tree;
      var todo := tree.Keys;
      while todo != {}
        invariant todo <= tree.Keys
        invariant r.Keys == set k | k in tree && (k in todo || tree[k].status != Deleted)
        invariant forall k :: k in r ==> r[k] == if k in todo then tree[k] else tree[k].(status := Unchanged)
      {
        var k :| k in todo;
        todo := todo - {k};
        if r[k].status == Deleted {
          r := r - {k};
        } else {
          r := r[k := r[k].(status := Unchanged)];
        }
      }
    }

    method ComputeTreeUpdates(updates: map<ObjectKey, Update<Gateway>>, env: Env)
      requires Valid() && LegalUpdates(updates) && forall k :: k in gateTree ==> gateTree[k].status == Unchanged
      modifies this
      ensures Valid() && AllBuiltIn(env) && OnlyLostLeave(gateTree.Keys, tabled, updates.Keys, env, old(gateTree))
      ensures forall k :: AppliedAt(k, gateTree, unmanaged, updates, env, old(gateTree))
    {
      ResetListenerConflicts();
      ComputeGateTreeUpdates(updates, env);
    }

    method ResetListenerConflicts()
      modifies this`portsWithOneListener, this`portsWithMultipleListeners, this`previousPortsWithMultipleListeners
      ensures previousPortsWithMultipleListeners == old(portsWithMultipleListeners)
      ensures portsWithOneListener == {} && portsWithMultipleListeners == map[]
    {
      previousPortsWithMultipleListeners := portsWithMultipleListeners;
      portsWithOneListener := {};
      portsWithMultipleListeners := map[];
    }

    /** An entry left alone so far in this cycle, or touched and awaiting its listeners. */
    static ghost predicate InProgress(g: TreeGateway, k: ObjectKey, previous: map<int, seq<GatewayListener>>) {
      DeletedEntry(g) || PendingEntry(g, k) || (g.status == Unchanged && SettledEntry(g, k, previous))
    }

    /** The same for the new tables, in which no port of an entry left alone is shared. */
    static ghost predicate Awaiting(g: TreeGateway, k: ObjectKey, multiple: map<int, seq<GatewayListener>>) {
      InProgress(g, k, multiple) && (g.status == Unchanged ==> NoneShared(g, multiple))
    }

    ghost predicate TreeInProgress(previous: map<int, seq<GatewayListener>>, was: GatewayTree)
      reads this`gateTree
    {
      && (forall k :: k in gateTree ==> InProgress(gateTree[k], k, previous))
      && (forall k :: k in gateTree && gateTree[k].status == Unchanged ==> k in was && gateTree[k] == was[k])
    }

    method ComputeGateTreeUpdates(updates: map<ObjectKey, Update<Gateway>>, env: Env)
      requires LegalUpdates(updates)
      requires forall k :: k in gateTree ==> gateTree[k].status == Unchanged && SettledEntry(gateTree[k], k, previousPortsWithMultipleListeners)
      requires MultipleOf(previousPortsWithMultipleListeners, tabled)
      requires SameSpecs(gateTree, tabled)
      requires portsWithOneListener == {} && portsWithMultipleListeners == map[]
      modifies this`gateTree, this`unmanaged, this`portsWithOneListener, this`portsWithMultipleListeners, this`tabled
      ensures Valid() && AllBuiltIn(env) && OnlyLostLeave(gateTree.Keys, tabled, updates.Keys, env, old(gateTree))
      ensures forall k :: AppliedAt(k, gateTree, unmanaged, updates, env, old(gateTree))
    {
      hide AppliedAt, SettledEntry, DeletedEntry, PendingEntry, InProgress, MultipleOf, SameSpecs, OnlyLostLeave, Settled, TablesOf;
      ApplyUpdates(updates, env);
      CheckListenerConflicts(updates, env, old(gateTree));
      BuildAllListeners(updates, env, old(gateTree));
    }

    method ApplyUpdates(updates: map<ObjectKey, Update<Gateway>>, env: Env)
      requires LegalUpdates(updates)
      requires forall k :: k in gateTree ==> gateTree[k].status == Unchanged && SettledEntry(gateTree[k], k, previousPortsWithMultipleListeners)
      modifies this`gateTree, this`unmanaged
      ensures TreeInProgress(previousPortsWithMultipleListeners, old(gateTree))
      ensures forall k :: AppliedAt(k, gateTree, unmanaged, updates, env, old(gateTree))
    {
      hide AppliedAt, SettledEntry, DeletedEntry, PendingEntry;
      NothingApplied(updates, env);
      var todo := updates.Keys;
      while todo != {}
        invariant todo <= updates.Keys
        invariant TreeInProgress(previousPortsWithMultipleListeners, old(gateTree))
        invariant forall k :: k in todo ==> (k in gateTree <==> k in old(gateTree))
        invariant forall k :: k !in todo ==> AppliedAt(k, gateTree, unmanaged, updates, env, old(gateTree))
      {
        var k :| k in todo;
        todo := todo - {k};
        label Before:
        ComputeTreeGatewayUpdate(k, updates, env, old(gateTree));
        forall k' | k' !in todo ensures AppliedAt(k', gateTree, unmanaged, updates, env, old(gateTree)) {
          if k' != k {
            AppliedElsewhere(k', old@Before(gateTree), old@Before(unmanaged), gateTree, unmanaged, updates, env, old(gateTree));
          }
        }
      }
    }

    lemma NothingApplied(updates: map<ObjectKey, Update<Gateway>>, env: Env)
      requires forall k :: k in gateTree ==> gateTree[k].status == Unchanged
      ensures forall k :: k !in updates ==> AppliedAt(k, gateTree, unmanaged, updates, env, gateTree)
    {}

    static lemma AppliedElsewhere(k: ObjectKey, tree: GatewayTree, unmanaged: GatewayTree, tree': GatewayTree, unmanaged': GatewayTree,
                                  updates: map<ObjectKey, Update<Gateway>>, env: Env, was: GatewayTree)
      requires AppliedAt(k, tree, unmanaged, updates, env, was)
      requires Lookup(tree, k) == Lookup(tree', k) && Lookup(unmanaged, k) == Lookup(unmanaged', k)
      ensures AppliedAt(k, tree', unmanaged', updates, env, was)
    {}

    method ComputeTreeGatewayUpdate(k: ObjectKey, updates: map<ObjectKey, Update<Gateway>>, env: Env, ghost was: GatewayTree)
      requires k in updates && LegalUpdates(updates) && (k in gateTree <==> k in was)
      modifies this`gateTree, this`unmanaged
      ensures forall k' :: k' != k ==> Lookup(gateTree, k') == Lookup(old(gateTree), k') && Lookup(unmanaged, k') == Lookup(old(unmanaged), k')
      ensures forall k' :: k' != k ==> (k' in gateTree <==> k' in old(gateTree))
      ensures forall k' :: k' != k && k' in gateTree ==> k' in old(gateTree) && gateTree[k'] == old(gateTree)[k']
      ensures k in gateTree ==> gateTree[k].status != Unchanged && (DeletedEntry(gateTree[k]) || PendingEntry(gateTree[k], k))
      ensures AppliedAt(k, gateTree, unmanaged, updates, env, was)
    {
      var u := updates[k];
      var treeGw := if k in gateTree then Some(gateTree[k]) else Lookup(unmanaged, k);
      match u.status {
        case Upserted =>
          if treeGw.Some? {
            SetEntry(k, SetAsUpserted(u.newObject.value));
          }
          ProcessManagementChecks(SetAsUpserted(u.newObject.value), env);
        case Deleted =>
          if treeGw.Some? {
            SetEntry(k, TreeGateway(None, Deleted, map[], false, false, false, false));
          }
        case Unchanged =>
      }
    }

    /** An update or a new gateway starts with its checks reset. */
    static function SetAsUpserted(gw: Gateway): TreeGateway {
      TreeGateway(Some(gw), Upserted, map[], false, false, false, false)
    }

    /** Replaces the entry where it is; a key in neither tree stays out. */
    method SetEntry(k: ObjectKey, g: TreeGateway)
      modifies this`gateTree, this`unmanaged
      ensures gateTree == if k in old(gateTree) then old(gateTree)[k := g] else old(gateTree)
      ensures unmanaged == if k !in old(gateTree) && k in old(unmanaged) then old(unmanaged)[k := g] else old(unmanaged)
    {
      if k in gateTree {
        gateTree := gateTree[k := g];
      } else if k in unmanaged {
        unmanaged := unmanaged[k := g];
      }
    }

    method ProcessManagementChecks(treeGw: TreeGateway, env: Env)
      requires treeGw.resource.Some?
      modifies this`gateTree, this`unmanaged
      ensures var gw := treeGw.resource.value;
              && (gw.className !in env.classes ==> gateTree == old(gateTree) && unmanaged == old(unmanaged))
              && (gw.className in env.classes ==>
                    var g := Checked(treeGw, env);
                    && gateTree == (if g.classValid then old(gateTree)[gw.key := g] else old(gateTree) - {gw.key})
                    && unmanaged == (if g.classValid then old(unmanaged) - {gw.key} else old(unmanaged)[gw.key := g]))
    {
      var gw := treeGw.resource.value;
      if gw.className !in env.classes {
        return;
      }
      var g := Checked(treeGw, env);
      if g.classValid {
        gateTree := gateTree[gw.key := g];
        unmanaged := unmanaged - {gw.key};
      } else {
        unmanaged := unmanaged[gw.key := g];
        gateTree := gateTree - {gw.key};
      }
    }

    /** The parameter and class checks. */
    static function Checked(g: TreeGateway, env: Env): TreeGateway
      requires g.resource.Some? && g.resource.value.className in env.classes
    {
      var gw := g.resource.value;
      g.(paramsValid := gw.key in env.validParams, classValid := env.classes[gw.className],
         valid := gw.key in env.validParams && env.classes[gw.className])
    }

    // ---- conflicts

    static method ListenersByPort(tree: GatewayTree) returns (byPort: map<int, seq<GatewayListener>>)
      ensures forall p :: Listed(byPort, p, OnPort(tree, p))
    {
      byPort := map[];
      var todo := tree.Keys;
      while todo != {}
        invariant todo <= tree.Keys
        invariant forall p :: Listed(byPort, p, OnPortIn(tree, tree.Keys - todo, p))
      {
        var k :| k in todo;
        ghost var done := tree.Keys - todo;
        todo := todo - {k};
        assert tree.Keys - todo == done + {k};
        if tree[k].resource == None {
          forall p ensures OnPortIn(tree, done + {k}, p) == OnPortIn(tree, done, p) {}
          continue;
        }
        byPort := AddGatewayListeners(tree, done, k, byPort);
      }
      assert tree.Keys - todo == tree.Keys;
    }

    /** The entry of a port has one element per listener and names their gateways. */
    static ghost predicate Listed(byPort: map<int, seq<GatewayListener>>, p: int, on: set<(ObjectKey, nat)>) {
      && (p in byPort <==> on != {})
      && (p in byPort ==> |byPort[p]| == |on|)
      && (forall x :: x in on ==> p in byPort && Names(byPort[p], x.0))
    }

    static method AddGatewayListeners(tree: GatewayTree, ghost done: set<ObjectKey>, k: ObjectKey, before: map<int, seq<GatewayListener>>)
      returns (byPort: map<int, seq<GatewayListener>>)
      requires k in tree && k !in done && tree[k].resource.Some?
      requires forall p :: Listed(before, p, OnPortIn(tree, done, p))
      ensures forall p :: Listed(byPort, p, OnPortIn(tree, done + {k}, p))
    {
      hide Listed, OnPortIn, OnPortOf;
      var gw := tree[k].resource.value;
      byPort := before;
      forall p ensures OnPortIn(tree, done, p) + OnPortOf(gw, k, 0, p) == OnPortIn(tree, done, p) {
        NoneOnPort(gw, k, p);
      }
      for i := 0 to |gw.listeners|
        invariant forall p :: Listed(byPort, p, OnPortIn(tree, done, p) + OnPortOf(gw, k, i, p))
      {
        var port := gw.listeners[i].port;
        ghost var entry := byPort;
        if port !in byPort {
          byPort := byPort[port := []];
        }
        byPort := byPort[port := byPort[port] + [GatewayListener(ListenerKey(gw.key, gw.listeners[i].name), k)]];
        forall p ensures Listed(byPort, p, OnPortIn(tree, done, p) + OnPortOf(gw, k, i + 1, p)) {
          assert Listed(entry, p, OnPortIn(tree, done, p) + OnPortOf(gw, k, i, p));
          OneMoreOnPort(tree, done, gw, k, i, p);
          ListedMore(entry, byPort, p, OnPortIn(tree, done, p) + OnPortOf(gw, k, i, p), (k, i), port,
                     GatewayListener(ListenerKey(gw.key, gw.listeners[i].name), k));
        }
      }
      forall p ensures Listed(byPort, p, OnPortIn(tree, done + {k}, p)) {
        OneMoreGateway(tree, done, k, p);
        assert Listed(byPort, p, OnPortIn(tree, done, p) + OnPortOf(gw, k, |gw.listeners|, p));
      }
    }

    static lemma OneMoreOnPort(tree: GatewayTree, done: set<ObjectKey>, gw: Gateway, k: ObjectKey, i: nat, p: int)
      requires i < |gw.listeners| && k !in done
      ensures OnPortIn(tree, done, p) + OnPortOf(gw, k, i + 1, p) ==
              OnPortIn(tree, done, p) + OnPortOf(gw, k, i, p) + if gw.listeners[i].port == p then {(k, i)} else {}
      ensures (k, i) !in OnPortIn(tree, done, p) + OnPortOf(gw, k, i, p)
    {}

    static lemma NoneOnPort(gw: Gateway, k: ObjectKey, p: int)
      ensures OnPortOf(gw, k, 0, p) == {}
    {}

    static lemma OneMoreGateway(tree: GatewayTree, done: set<ObjectKey>, k: ObjectKey, p: int)
      requires k in tree && tree[k].resource.Some?
      ensures OnPortIn(tree, done + {k}, p) ==
              OnPortIn(tree, done, p) + OnPortOf(tree[k].resource.value, k, |tree[k].resource.value.listeners|, p)
    {}

    static lemma ListedMore(before: map<int, seq<GatewayListener>>, after: map<int, seq<GatewayListener>>, p: int,
                            on: set<(ObjectKey, nat)>, x: (ObjectKey, nat), port: int, gl: GatewayListener)
      requires Listed(before, p, on) && x !in on && gl.gatewayKey == x.0
      requires after == before[port := (if port in before then before[port] else []) + [gl]]
      ensures Listed(after, p, on + if port == p then {x} else {})
    {
      if port != p {
        assert on + {} == on;
        return;
      }
      forall y | y in on + {x} ensures Names(after[p], y.0) {
        if y in on {
          var j :| 0 <= j < |before[p]| && before[p][j].gatewayKey == y.0;
          assert after[p][j].gatewayKey == y.0;
        } else {
          assert after[p][|after[p]|-1].gatewayKey == y.0;
        }
      }
    }

    static method GatewaysWithPortConflicts(multiple: map<int, seq<GatewayListener>>) returns (keys: set<ObjectKey>)
      ensures forall p, k :: p in multiple && Names(multiple[p], k) ==> k in keys
      ensures forall k :: k in keys ==> exists p :: p in multiple && Names(multiple[p], k)
    {
      keys := {};
      var todo := multiple.Keys;
      while todo != {}
        invariant todo <= multiple.Keys
        invariant forall p, k :: p in multiple && p !in todo && Names(multiple[p], k) ==> k in keys
        invariant forall k :: k in keys ==> exists p :: p in multiple && Names(multiple[p], k)
      {
        SomePort(todo);
        var p :| p in todo;
        todo := todo - {p};
        var gls := multiple[p];
        for j := 0 to |gls|
          invariant forall q, k :: q in multiple && q !in todo && q != p && Names(multiple[q], k) ==> k in keys
          invariant forall i :: 0 <= i < j ==> gls[i].gatewayKey in keys
          invariant forall k :: k in keys ==> exists q :: q in multiple && Names(multiple[q], k)
        {
          assert Names(multiple[p], gls[j].gatewayKey);
          keys := keys + {gls[j].gatewayKey};
        }
      }
    }

    /** Makes the tables, then puts every gateway in the previous or the new conflicts
        back through its checks. */
    method CheckListenerConflicts(ghost updates: map<ObjectKey, Update<Gateway>>, env: Env, ghost was: GatewayTree)
      requires LegalUpdates(updates)
      requires forall k :: AppliedAt(k, gateTree, unmanaged, updates, env, was)
      requires TreeInProgress(previousPortsWithMultipleListeners, was)
      requires MultipleOf(previousPortsWithMultipleListeners, tabled)
      requires SameSpecs(was, tabled)
      requires portsWithOneListener == {} && portsWithMultipleListeners == map[]
      modifies this`gateTree, this`unmanaged, this`portsWithOneListener, this`portsWithMultipleListeners, this`tabled
      ensures forall k :: AppliedAt(k, gateTree, unmanaged, updates, env, was)
      ensures TablesOf(portsWithOneListener, portsWithMultipleListeners, tabled) && SameSpecs(gateTree, tabled)
      ensures OnlyLostLeave(gateTree.Keys, tabled, updates.Keys, env, was)
      ensures forall k :: k in gateTree ==> Awaiting(gateTree[k], k, portsWithMultipleListeners)
    {
      hide AppliedAt, DeletedEntry, PendingEntry, SettledEntry, Listed, OnPort, Names;
      ghost var before := tabled;
      var oldGw := GatewaysWithPortConflicts(previousPortsWithMultipleListeners);
      var byPort := ListenersByPort(gateTree);
      tabled := gateTree;
      MakeTables(byPort);
      var newGw := GatewaysWithPortConflicts(portsWithMultipleListeners);
      Revalidate(oldGw + newGw, updates, env, was);
      AllUntouchedSettled(was, before, oldGw, newGw);
    }

    lemma AllUntouchedSettled(was: GatewayTree, before: GatewayTree, oldGw: set<ObjectKey>, newGw: set<ObjectKey>)
      requires TreeInProgress(previousPortsWithMultipleListeners, was)
      requires forall k :: k in oldGw + newGw && k in gateTree ==> gateTree[k].status != Unchanged
      requires SameSpecs(was, before) && SameSpecs(gateTree, tabled)
      requires MultipleOf(previousPortsWithMultipleListeners, before) && MultipleOf(portsWithMultipleListeners, tabled)
      requires forall p, k' :: p in previousPortsWithMultipleListeners && Names(previousPortsWithMultipleListeners[p], k') ==> k' in oldGw
      requires forall p, k' :: p in portsWithMultipleListeners && Names(portsWithMultipleListeners[p], k') ==> k' in newGw
      ensures forall k :: k in gateTree ==> Awaiting(gateTree[k], k, portsWithMultipleListeners)
    {
      forall k | k in gateTree && gateTree[k].status == Unchanged
        ensures SettledEntry(gateTree[k], k, portsWithMultipleListeners) && NoneShared(gateTree[k], portsWithMultipleListeners)
      {
        UntouchedPortsFree(gateTree[k], k, was, before, oldGw, newGw);
        UntouchedStaysSettled(gateTree[k], k, previousPortsWithMultipleListeners, portsWithMultipleListeners);
      }
    }

    lemma UntouchedPortsFree(g: TreeGateway, k: ObjectKey, was: GatewayTree, before: GatewayTree, oldGw: set<ObjectKey>, newGw: set<ObjectKey>)
      requires k in was && was[k] == g && g.resource.Some? && k !in oldGw && k !in newGw
      requires SameSpecs(was, before) && k in tabled && tabled[k].resource == g.resource
      requires MultipleOf(previousPortsWithMultipleListeners, before)
      requires MultipleOf(portsWithMultipleListeners, tabled)
      requires forall p, k' :: p in previousPortsWithMultipleListeners && Names(previousPortsWithMultipleListeners[p], k') ==> k' in oldGw
      requires forall p, k' :: p in portsWithMultipleListeners && Names(portsWithMultipleListeners[p], k') ==> k' in newGw
      ensures forall i :: 0 <= i < |g.resource.value.listeners| ==>
        g.resource.value.listeners[i].port !in previousPortsWithMultipleListeners
        && g.resource.value.listeners[i].port !in portsWithMultipleListeners
    {
      forall i | 0 <= i < |g.resource.value.listeners|
        ensures g.resource.value.listeners[i].port !in previousPortsWithMultipleListeners
        ensures g.resource.value.listeners[i].port !in portsWithMultipleListeners
      {
        var p := g.resource.value.listeners[i].port;
        assert (k, i) in OnPort(before, p) && (k, i) in OnPort(tabled, p);
        assert (k, i).0 == k;
      }
    }

    method MakeTables(byPort: map<int, seq<GatewayListener>>)
      requires forall p :: Listed(byPort, p, OnPort(tabled, p))
      requires portsWithOneListener == {} && portsWithMultipleListeners == map[]
      modifies this`portsWithOneListener, this`portsWithMultipleListeners
      ensures TablesOf(portsWithOneListener, portsWithMultipleListeners, tabled)
    {
      var todo := byPort.Keys;
      while todo != {}
        invariant todo <= byPort.Keys
        invariant forall p :: p in portsWithOneListener <==> p in byPort && p !in todo && |byPort[p]| <= 1
        invariant forall p :: p in portsWithMultipleListeners <==> p in byPort && p !in todo && |byPort[p]| > 1
        invariant forall p :: p in portsWithMultipleListeners ==> portsWithMultipleListeners[p] == byPort[p]
      {
        SomePort(todo);
        var p :| p in todo;
        todo := todo - {p};
        if |byPort[p]| > 1 {
          portsWithMultipleListeners := portsWithMultipleListeners[p := byPort[p]];
          continue;
        }
        portsWithOneListener := portsWithOneListener + {p};
      }
      forall p ensures Listed(byPort, p, OnPort(tabled, p)) {}
    }

    method Revalidate(keys: set<ObjectKey>, ghost updates: map<ObjectKey, Update<Gateway>>, env: Env, ghost was: GatewayTree)
      requires LegalUpdates(updates) && OnlyLostLeave(gateTree.Keys, tabled, updates.Keys, env, was)
      requires TreeInProgress(previousPortsWithMultipleListeners, was) && SameSpecs(gateTree, tabled)
      requires forall k :: AppliedAt(k, gateTree, unmanaged, updates, env, was)
      modifies this`gateTree, this`unmanaged
      ensures forall k :: AppliedAt(k, gateTree, unmanaged, updates, env, was)
      ensures TreeInProgress(previousPortsWithMultipleListeners, was) && SameSpecs(gateTree, tabled)
      ensures OnlyLostLeave(gateTree.Keys, tabled, updates.Keys, env, was)
      ensures forall k :: k in keys && k in gateTree ==> gateTree[k].status != Unchanged
    {
      hide InProgress, AppliedAt, OnlyLostLeave, LegalUpdates, SameSpecs;
      var todo := keys;
      while todo != {}
        invariant todo <= keys
        invariant forall k :: AppliedAt(k, gateTree, unmanaged, updates, env, was)
        invariant TreeInProgress(previousPortsWithMultipleListeners, was) && SameSpecs(gateTree, tabled)
        invariant OnlyLostLeave(gateTree.Keys, tabled, updates.Keys, env, was)
        invariant forall k :: k in keys && k !in todo && k in gateTree ==> gateTree[k].status != Unchanged
      {
        var k :| k in todo;
        todo := todo - {k};
        RevalidateGateway(k, updates, env, was);
      }
    }

    method RevalidateGateway(k: ObjectKey, ghost updates: map<ObjectKey, Update<Gateway>>, env: Env, ghost was: GatewayTree)
      requires LegalUpdates(updates) && OnlyLostLeave(gateTree.Keys, tabled, updates.Keys, env, was)
      requires TreeInProgress(previousPortsWithMultipleListeners, was) && SameSpecs(gateTree, tabled)
      requires forall k :: AppliedAt(k, gateTree, unmanaged, updates, env, was)
      modifies this`gateTree, this`unmanaged
      ensures forall k :: AppliedAt(k, gateTree, unmanaged, updates, env, was)
      ensures TreeInProgress(previousPortsWithMultipleListeners, was) && SameSpecs(gateTree, tabled)
      ensures OnlyLostLeave(gateTree.Keys, tabled, updates.Keys, env, was)
      ensures gateTree.Keys <= old(gateTree).Keys
      ensures forall k' :: k' in gateTree && gateTree[k'].status == Unchanged ==> k' != k && old(gateTree)[k'].status == Unchanged
    {
      hide SettledEntry, DeletedEntry, AppliedAt, PendingEntry, OnlyLostLeave, ClassLost, LegalUpdates, Checked;
      if k !in gateTree {
        return;
      }
      if gateTree[k].status != Upserted && gateTree[k].status != Deleted {
        UnchangedHasResource(gateTree[k], k, previousPortsWithMultipleListeners);
        UnchangedHasNoUpdate(k, gateTree, unmanaged, updates, env, was);
        ResetAndCheck(k, env);
        OneMoreLeaves(k, old(gateTree).Keys, gateTree.Keys, tabled, updates.Keys, env, was);
        forall k' ensures AppliedAt(k', gateTree, unmanaged, updates, env, was) {
          if k' == k {
            RevalidatedApplied(k, old(gateTree), old(unmanaged), gateTree, unmanaged, updates, env, was);
          } else {
            AppliedElsewhere(k', old(gateTree), old(unmanaged), gateTree, unmanaged, updates, env, was);
          }
        }
      }
    }

    method ResetAndCheck(k: ObjectKey, env: Env)
      requires k in gateTree && gateTree[k].resource.Some? && gateTree[k].resource.value.key == k
      modifies this`gateTree, this`unmanaged
      ensures old(gateTree).Keys - {k} <= gateTree.Keys
      ensures k !in gateTree ==> ClassLost(old(gateTree)[k], env)
      ensures k !in gateTree ==> k in unmanaged && unmanaged[k].resource == old(gateTree)[k].resource && !unmanaged[k].classValid
      ensures k in gateTree ==> PendingEntry(gateTree[k], k) && gateTree[k].status == Upserted && gateTree[k].resource == old(gateTree)[k].resource
      ensures k in gateTree ==> Rechecked(gateTree[k], k, env)
      ensures forall k' :: k' != k ==> Lookup(gateTree, k') == Lookup(old(gateTree), k') && Lookup(unmanaged, k') == Lookup(old(unmanaged), k')
      ensures forall k' :: k' in gateTree ==> k' in old(gateTree) && (k' != k ==> gateTree[k'] == old(gateTree)[k'])
    {
      var g := SetAsUpserted(gateTree[k].resource.value);
      gateTree := gateTree[k := g];
      ProcessManagementChecks(g, env);
    }

    /** A gateway that was left alone so far has no update of its own. */
    static lemma RevalidatedApplied(k: ObjectKey, tree: GatewayTree, unmanaged: GatewayTree, tree': GatewayTree, unmanaged': GatewayTree,
                                    updates: map<ObjectKey, Update<Gateway>>, env: Env, was: GatewayTree)
      requires AppliedAt(k, tree, unmanaged, updates, env, was)
      requires k in tree && tree[k].status != Upserted && tree[k].status != Deleted
      requires k !in tree' ==> k in unmanaged' && unmanaged'[k].resource == tree[k].resource && !unmanaged'[k].classValid
      requires k in tree' ==> tree'[k].resource == tree[k].resource && tree'[k].status == Upserted && Rechecked(tree'[k], k, env)
      ensures AppliedAt(k, tree', unmanaged', updates, env, was)
    {}

    static lemma OneMoreLeaves(k: ObjectKey, keys: set<ObjectKey>, keys': set<ObjectKey>, tabled: GatewayTree,
                               updated: set<ObjectKey>, env: Env, was: GatewayTree)
      requires OnlyLostLeave(keys, tabled, updated, env, was) && keys - {k} <= keys'
      requires k !in keys' ==> k in was && k !in updated && ClassLost(was[k], env)
      ensures OnlyLostLeave(keys', tabled, updated, env, was)
    {}

    static lemma UnchangedHasNoUpdate(k: ObjectKey, tree: GatewayTree, unmanaged: GatewayTree,
                                      updates: map<ObjectKey, Update<Gateway>>, env: Env, was: GatewayTree)
      requires AppliedAt(k, tree, unmanaged, updates, env, was) && LegalUpdates(updates)
      requires k in tree && tree[k].status == Unchanged
      ensures k !in updates
    {}

    static lemma UnchangedHasResource(g: TreeGateway, k: ObjectKey, previous: map<int, seq<GatewayListener>>)
      requires InProgress(g, k, previous) && g.status != Upserted && g.status != Deleted
      ensures g.resource.Some? && g.resource.value.key == k
    {}

    // ---- listeners

    method BuildAllListeners(ghost updates: map<ObjectKey, Update<Gateway>>, env: Env, ghost was: GatewayTree)
      requires forall k :: AppliedAt(k, gateTree, unmanaged, updates, env, was)
      requires TablesOf(portsWithOneListener, portsWithMultipleListeners, tabled) && SameSpecs(gateTree, tabled)
      requires forall k :: k in gateTree ==> Awaiting(gateTree[k], k, portsWithMultipleListeners)
      modifies this`gateTree
      ensures Valid() && AllBuiltIn(env) && gateTree.Keys == old(gateTree).Keys
      ensures forall k :: AppliedAt(k, gateTree, unmanaged, updates, env, was)
    {
      hide AppliedAt, Awaiting, Finished, TablesOf, SameSpecs;
      var todo := gateTree.Keys;
      while todo != {}
        invariant todo <= gateTree.Keys == old(gateTree).Keys && SameSpecs(gateTree, tabled)
        invariant forall k :: AppliedAt(k, gateTree, unmanaged, updates, env, was)
        invariant forall k :: k in gateTree && k !in todo ==> Finished(gateTree[k], k, env)
        invariant forall k :: k in todo ==> Awaiting(gateTree[k], k, portsWithMultipleListeners)
      {
        var k :| k in todo;
        todo := todo - {k};
        BuildEntry(k, updates, env, was);
      }
      AllFinished(env);
    }

    /** An entry at the end of the cycle. */
    ghost predicate Finished(g: TreeGateway, k: ObjectKey, env: Env)
      reads this`portsWithOneListener, this`portsWithMultipleListeners
    {
      DeletedEntry(g)
      || (SettledEntry(g, k, portsWithMultipleListeners) && ValidExact(g, portsWithOneListener, portsWithMultipleListeners)
          && (g.status == Upserted && g.classValid ==> BuiltIn(g, k, env, portsWithMultipleListeners)))
    }

    lemma AllFinished(env: Env)
      requires forall k :: k in gateTree ==> Finished(gateTree[k], k, env)
      ensures Settled(gateTree, portsWithMultipleListeners) && AllValidExact() && AllBuiltIn(env)
    {
      hide SettledEntry, ValidExact, BuiltIn;
    }

    method BuildEntry(k: ObjectKey, ghost updates: map<ObjectKey, Update<Gateway>>, env: Env, ghost was: GatewayTree)
      requires forall k' :: AppliedAt(k', gateTree, unmanaged, updates, env, was)
      requires k in gateTree && Awaiting(gateTree[k], k, portsWithMultipleListeners) && SameSpecs(gateTree, tabled)
      modifies this`gateTree
      ensures gateTree.Keys == old(gateTree).Keys && SameSpecs(gateTree, tabled)
      ensures forall k' :: k' in gateTree && k' != k ==> gateTree[k'] == old(gateTree)[k']
      ensures Finished(gateTree[k], k, env)
      ensures forall k' :: AppliedAt(k', gateTree, unmanaged, updates, env, was)
    {
      hide AppliedAt, InProgress, PendingEntry, DeletedEntry, SettledEntry, ValidExact, BuiltIn, NoneShared;
      UpsertedIsPending(gateTree[k], k, portsWithMultipleListeners);
      if gateTree[k].status != Upserted {
        LeftAloneFinished(gateTree[k], k, env);
        return;
      }
      if gateTree[k].classValid {
        var built := BuildGateway(k, gateTree[k], env);
        ghost var before := gateTree;
        gateTree := gateTree[k := built];
        BuiltApplied(k, before, gateTree, updates, env, was);
      } else {
        UnmanagedSettled(gateTree[k], k, portsWithOneListener, portsWithMultipleListeners);
      }
    }

    lemma LeftAloneFinished(g: TreeGateway, k: ObjectKey, env: Env)
      requires Awaiting(g, k, portsWithMultipleListeners) && g.status != Upserted
      ensures Finished(g, k, env)
    {}

    lemma BuiltApplied(k: ObjectKey, tree: GatewayTree, tree': GatewayTree, updates: map<ObjectKey, Update<Gateway>>, env: Env, was: GatewayTree)
      requires forall k' :: AppliedAt(k', tree, unmanaged, updates, env, was)
      requires k in tree && k in tree' && tree' == tree[k := tree'[k]]
      requires tree[k].status == tree'[k].status == Upserted && tree[k].resource == tree'[k].resource
      requires tree[k].classValid == tree'[k].classValid && tree[k].paramsValid == tree'[k].paramsValid
      ensures forall k' :: AppliedAt(k', tree', unmanaged, updates, env, was)
    {
      hide AppliedAt;
      forall k' ensures AppliedAt(k', tree', unmanaged, updates, env, was) {
        if k' == k {
          BuiltAppliedAt(k, tree, unmanaged, tree', updates, env, was);
        } else {
          AppliedElsewhere(k', tree, unmanaged, tree', unmanaged, updates, env, was);
        }
      }
    }

    static lemma BuiltAppliedAt(k: ObjectKey, tree: GatewayTree, unmanaged: GatewayTree, tree': GatewayTree,
                                updates: map<ObjectKey, Update<Gateway>>, env: Env, was: GatewayTree)
      requires AppliedAt(k, tree, unmanaged, updates, env, was) && k in tree && k in tree'
      requires tree[k].status == tree'[k].status == Upserted && tree[k].resource == tree'[k].resource
      requires tree[k].classValid == tree'[k].classValid && tree[k].paramsValid == tree'[k].paramsValid
      ensures AppliedAt(k, tree', unmanaged, updates, env, was)
    {}

    /** Without a valid class there is nothing to build. */
    static lemma UnmanagedSettled(g: TreeGateway, k: ObjectKey, one: set<int>, multiple: map<int, seq<GatewayListener>>)
      requires PendingEntry(g, k) && !g.classValid
      ensures SettledEntry(g, k, multiple) && ValidExact(g, one, multiple)
    {}

    static lemma UpsertedIsPending(g: TreeGateway, k: ObjectKey, multiple: map<int, seq<GatewayListener>>)
      requires InProgress(g, k, multiple)
      ensures g.status == Upserted ==> PendingEntry(g, k)
      ensures g.status != Upserted ==> DeletedEntry(g) || SettledEntry(g, k, multiple)
    {}

    method BuildGateway(k: ObjectKey, g: TreeGateway, env: Env) returns (r: TreeGateway)
      requires PendingEntry(g, k) && g.classValid
      ensures SettledEntry(r, k, portsWithMultipleListeners) && r.resource == g.resource && r.status == g.status
      ensures r.paramsValid == g.paramsValid && r.classValid
      ensures r.listeners.Keys == ListenerNames(g.resource.value)
      ensures r.valid <==> g.valid && (NoneConflicted(r.listeners) || HasFreePort(g.resource.value))
      ensures ValidExact(r, portsWithOneListener, portsWithMultipleListeners) && BuiltIn(r, k, env, portsWithMultipleListeners)
    {
      var listeners := BuildListeners(k, g, env);
      r := g.(listeners := listeners);
      var conflictValid := CheckGatewayConflicts(r);
      r := r.(conflictValid := conflictValid, valid := r.valid && conflictValid);
      forall n | n in r.listeners ensures ListenerSettled(r, n, portsWithMultipleListeners) {}
    }

    static ghost predicate NoneConflicted(listeners: map<string, TreeListener>) {
      forall n :: n in listeners ==> Conflicted !in listeners[n].conditions
    }

    ghost predicate HasFreePort(gw: Gateway)
      reads this`portsWithOneListener
    {
      exists l :: l in gw.listeners && l.port in portsWithOneListener
    }

    /** Fails when some listener is conflicted and no port of the gateway is free. */
    method CheckGatewayConflicts(g: TreeGateway) returns (valid: bool)
      requires g.resource.Some?
      ensures valid <==> NoneConflicted(g.listeners) || HasFreePort(g.resource.value)
    {
      var specs := g.resource.value.listeners;
      var found := false;
      for i := 0 to |specs|
        invariant !found && forall j :: 0 <= j < i ==> specs[j].port !in portsWithOneListener
      {
        if specs[i].port in portsWithOneListener {
          found := true;
          break;
        }
      }
      var some := false;
      var todo := g.listeners.Keys;
      while todo != {}
        invariant todo <= g.listeners.Keys
        invariant some <==> exists n :: n in g.listeners && n !in todo && Conflicted in g.listeners[n].conditions
      {
        var n :| n in todo;
        todo := todo - {n};
        if Conflicted in g.listeners[n].conditions {
          some := true;
          break;
        }
      }
      valid := !some || found;
    }

    /** What the checks leave a listener with. */
    ghost predicate CheckedListener(l: TreeListener, k: ObjectKey, n: string, g: TreeGateway, env: Env)
      reads this`portsWithMultipleListeners
    {
      && (l.valid <==> PassesChecks(l.spec, k, g.valid, env, l.spec.port in portsWithMultipleListeners))
      && l.spec.name == n
      && (Conflicted in l.conditions <==> g.valid && l.spec.port in portsWithMultipleListeners)
      && (l.valid <==> OtherChecksPassed(l) && Conflicted !in l.conditions)
    }

    static method NewListeners(specs: seq<Listener>) returns (r: map<string, TreeListener>)
      ensures r.Keys == set l | l in specs :: l.name
      ensures forall n :: n in r ==> r[n].spec.name == n && r[n].spec in specs
    {
      r := map[];
      for i := 0 to |specs|
        invariant r.Keys == set l | l in specs[..i] :: l.name
        invariant forall n :: n in r ==> r[n].spec.name == n && r[n].spec in specs
      {
        r := r[specs[i].name := TreeListener(specs[i], map[], map[], map[], map[], map[], false)];
        assert specs[..i+1] == specs[..i] + [specs[i]];
      }
      assert specs[..|specs|] == specs;
    }

    method BuildListeners(k: ObjectKey, g: TreeGateway, env: Env) returns (r: map<string, TreeListener>)
      requires g.resource.Some?
      ensures r.Keys == ListenerNames(g.resource.value)
      ensures forall n :: n in r ==> r[n].spec in g.resource.value.listeners && CheckedListener(r[n], k, n, g, env)
    {
      hide CheckedListener;
      var processed := NewListeners(g.resource.value.listeners);
      r := processed;
      var todo := r.Keys;
      while todo != {}
        invariant todo <= r.Keys == processed.Keys
        invariant forall n :: n in r ==> r[n].spec == processed[n].spec
        invariant forall n :: n in r && n !in todo ==> CheckedListener(r[n], k, n, g, env)
      {
        var n :| n in todo;
        todo := todo - {n};
        var l := ProcessListener(k, n, g, r[n], env);
        r := r[n := l];
      }
    }

    method ProcessListener(k: ObjectKey, n: string, g: TreeGateway, l: TreeListener, env: Env) returns (r: TreeListener)
      requires l.spec.name == n
      ensures r.spec == l.spec && CheckedListener(r, k, n, g, env)
    {
      r := CheckListener(k, g.valid, l, env);
      r := BuildConditions(r);
    }

    /** The checks a listener's protocol calls for, all but the protocol check skipped on
        an invalid gateway. */
    method CheckListener(k: ObjectKey, gwValid: bool, l: TreeListener, env: Env) returns (r: TreeListener)
      ensures r == l.(routeKinds := r.routeKinds, protocol := r.protocol, secret := r.secret, conflict := r.conflict)
      ensures r.conflict == if gwValid && l.spec.port in portsWithMultipleListeners
                            then map[Conflicted := "ProtocolConflict", Accepted := "Invalid"] else map[]
      ensures r.protocol == if l.spec.protocol in {"HTTP", "HTTPS", "TLS"} then map[] else map[Accepted := "UnsupportedProtocol"]
      ensures r.routeKinds == if gwValid && l.spec.protocol in {"HTTP", "HTTPS"} && (k, l.spec.name) in env.badKinds
                              then map[ResolvedRefs := "InvalidRouteKinds"] else map[]
      ensures r.secret == if gwValid && l.spec.protocol == "HTTPS" && (k, l.spec.name) in env.badCerts
                          then map[ResolvedRefs := "ResolvedRefs"] else map[]
    {
      r := l.(routeKinds := map[], protocol := map[], secret := map[], conflict := map[]);
      if gwValid && (l.spec.protocol == "HTTP" || l.spec.protocol == "HTTPS") && (k, l.spec.name) in env.badKinds {
        r := r.(routeKinds := map[ResolvedRefs := "InvalidRouteKinds"]);
      }
      if gwValid && l.spec.protocol == "HTTPS" && (k, l.spec.name) in env.badCerts {
        r := r.(secret := map[ResolvedRefs := "ResolvedRefs"]);
      }
      if l.spec.protocol != "HTTP" && l.spec.protocol != "HTTPS" && l.spec.protocol != "TLS" {
        r := r.(protocol := map[Accepted := "UnsupportedProtocol"]);
      }
      if gwValid && l.spec.port in portsWithMultipleListeners {
        r := r.(conflict := map[Conflicted := "ProtocolConflict", Accepted := "Invalid"]);
      }
    }

    /** A listener is valid exactly when no check contributed a condition. */
    static method BuildConditions(l: TreeListener) returns (r: TreeListener)
      ensures r == l.(conditions := r.conditions, valid := r.valid)
      ensures var failed := l.routeKinds + l.protocol + l.secret + l.conflict;
              && (r.valid <==> Accepted !in failed && ResolvedRefs !in failed && Conflicted !in failed)
              && (Conflicted in r.conditions <==> Conflicted in failed)
              && Accepted in r.conditions && ResolvedRefs in r.conditions && Programmed in r.conditions
              && r.conditions[Accepted] == (if Accepted in failed then failed[Accepted] else "Accepted")
              && r.conditions[ResolvedRefs] == (if ResolvedRefs in failed then failed[ResolvedRefs] else "ResolvedRefs")
              && r.conditions[Programmed] == (if r.valid then "Pending" else "Invalid")
    {
      var c := l.routeKinds + l.protocol + l.secret + l.conflict;
      var shouldProgram := true;
      if Accepted !in c {
        c := c[Accepted := "Accepted"];
      } else {
        c := c[Programmed := "Invalid"];
        shouldProgram := false;
      }
      if ResolvedRefs !in c {
        c := c[ResolvedRefs := "ResolvedRefs"];
      } else {
        c := c[Programmed := "Invalid"];
        shouldProgram := false;
      }
      if Conflicted in c {
        c := c[Programmed := "Invalid"];
        shouldProgram := false;
      }
      if shouldProgram {
        c := c[Programmed := "Pending"];
      }
      r := l.(conditions := c, valid := shouldProgram);
    }
  }
}
