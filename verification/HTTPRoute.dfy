/** How an HTTP route finds its parents, and the conditions its status reports. */
module HTTPRoutes {
  import opened Wrappers
  import opened Keys
  import opened ParentRefs
  import opened RouteStatuses
  import opened Hostnames

  const GATEWAY_GROUP := "gateway.networking.k8s.io"

  datatype RouteKind = RouteKind(group: Option<string>, kind: string)

  /** A listener as far as routes go. */
  datatype ListenerView = ListenerView(valid: bool, hostname: Option<string>, kinds: seq<RouteKind>)

  datatype GatewayView = GatewayView(deleted: bool, listeners: map<string, ListenerView>)

  type Gateways = map<ObjectKey, GatewayView>

  datatype RouteSpec = RouteSpec(ns: string, generation: int, parentRefs: seq<ParentRef>, hostnames: seq<string>)

  // ---- the conditions

  function Accepted(): Conditions {
    map["Accepted" := Condition("Accepted", "True", "Accepted", "Route Accepted", 0)]
  }

  function NotAccepted(reason: string, message: string): Conditions {
    map["Accepted" := Condition("Accepted", "False", reason, message, 0)]
  }

  function NoMatchingParent(): Conditions {
    NotAccepted("NoMatchingParent", "No matching parent found")
  }

  function ResolvedRefs(): Conditions {
    map["ResolvedRefs" := Condition("ResolvedRefs", "True", "ResolvedRefs", "References resolved", 0)]
  }

  /** The outcome for one backend reference, by its key. */
  datatype BackendCheck = Resolved | InvalidKind(key: string) | BackendNotFound(key: string)

  function BackendConditions(check: BackendCheck): Conditions {
    match check
    case Resolved => ResolvedRefs()
    case InvalidKind(key) =>
      map["ResolvedRefs" := Condition("ResolvedRefs", "False", "InvalidKind", "Invalid Kind/Group for backendRef " + key, 0)]
    case BackendNotFound(key) =>
      map["ResolvedRefs" := Condition("ResolvedRefs", "False", "BackendNotFound", "backendRef not found " + key, 0)]
  }

  /** As created: filed under their own type, and of no generation. */
  ghost predicate AsCreated(conds: Conditions) {
    OwnKinds(conds) && "" !in conds && forall k :: k in conds ==> conds[k].generation == 0
  }

  ghost predicate Refuses(conds: Conditions) {
    AsCreated(conds) && conds.Keys <= {"Accepted"} && forall k :: k in conds ==> conds[k].status == "False"
  }

  // ---- one parent reference

  predicate IsParentRefGroupKindSupported(ref: ParentRef): (r: bool)
    ensures r <==> ref.kind in {None, Some("Gateway")} && ref.group in {None, Some("gateway.networking.k8s.io")}
  {
    (ref.kind == None || ref.kind.value == "Gateway") && (ref.group == None || ref.group.value == GATEWAY_GROUP)
  }

  function GatewayKeyOf(ref: ParentRef, routeNs: string): (r: ObjectKey)
    ensures r.name == ref.name
    ensures ref.ns == None ==> r.ns == routeNs
    ensures ref.ns != None ==> Some(r.ns) == ref.ns
  {
    ObjectKey(if ref.ns == None then routeNs else ref.ns.value, ref.name)
  }

  predicate Allows(kind: RouteKind): (r: bool)
    ensures r <==> kind.kind == "HTTPRoute" && kind.group in {None, Some("gateway.networking.k8s.io")}
  {
    kind.kind == "HTTPRoute" && (kind.group == None || kind.group.value == GATEWAY_GROUP)
  }

  ghost predicate AllowsRoutes(l: ListenerView) {
    exists kind :: kind in l.kinds && Allows(kind)
  }

  method IsAllowedRouteKind(l: ListenerView) returns (ok: bool)
    ensures ok <==> AllowsRoutes(l)
  {
    for i := 0 to |l.kinds|
      invariant forall j :: 0 <= j < i ==> !Allows(l.kinds[j])
    {
      var allowed := l.kinds[i];
      assert allowed in l.kinds;
      if allowed.group != None && allowed.group.value == GATEWAY_GROUP {
        if allowed.kind == "HTTPRoute" {
          return true;
        }
      }
      if allowed.group == None && allowed.kind == "HTTPRoute" {
        return true;
      }
    }
    return false;
  }

  ghost predicate AttachesTo(hostnames: seq<string>, l: ListenerView) {
    l.valid && HostnameMatched(hostnames, l.hostname) && AllowsRoutes(l)
  }

  /** Ours to report on: a gateway of the managed tree. */
  ghost predicate Managed(ref: ParentRef, routeNs: string, gateways: Gateways) {
    IsParentRefGroupKindSupported(ref) && GatewayKeyOf(ref, routeNs) in gateways
  }

  /** The listener of the section, or any of the gateway, that the route attaches to. */
  ghost predicate Attached(ref: ParentRef, spec: RouteSpec, gateways: Gateways, n: string) {
    && Managed(ref, spec.ns, gateways)
    && var g := gateways[GatewayKeyOf(ref, spec.ns)];
       !g.deleted && n in g.listeners && (ref.section == None || ref.section.value == n) && AttachesTo(spec.hostnames, g.listeners[n])
  }

  ghost predicate RefValid(ref: ParentRef, spec: RouteSpec, gateways: Gateways) {
    exists n :: Attached(ref, spec, gateways, n)
  }

  /** Why a listener that the route does not attach to refuses it. */
  ghost function ListenerRefusal(l: ListenerView, hostnames: seq<string>): string {
    if !l.valid then "NoMatchingParent"
    else if !HostnameMatched(hostnames, l.hostname) then "NoMatchingListenerHostname"
    else "NotAllowedByListeners"
  }

  /** The condition a refusal is reported with. */
  ghost function Refusal(reason: string): Condition {
    Condition("Accepted", "False", reason,
              if reason == "NoMatchingParent" then "No matching parent found"
              else if reason == "NoMatchingListenerHostname" then "No matching hostname found"
              else "Route kind not allowed by listeners", 0)
  }

  ghost predicate Refusing(hostnames: seq<string>, listeners: map<string, ListenerView>, n: string, reason: string) {
    n in listeners && !AttachesTo(hostnames, listeners[n]) && reason == ListenerRefusal(listeners[n], hostnames)
  }

  /** The gateway is gone, or has no listener of the section. */
  ghost predicate NoParent(ref: ParentRef, g: GatewayView) {
    g.deleted || (ref.section != None && ref.section.value !in g.listeners)
  }

  ghost predicate LookedAt(ref: ParentRef, g: GatewayView, n: string) {
    n in g.listeners && (ref.section == None || ref.section.value == n)
  }

  /** A reason for which the reference is refused: that there is no such parent, or what some
      listener that was looked at gives. */
  ghost predicate RefusedFor(ref: ParentRef, spec: RouteSpec, gateways: Gateways, reason: string) {
    Managed(ref, spec.ns, gateways)
    && var g := gateways[GatewayKeyOf(ref, spec.ns)];
       if NoParent(ref, g) then reason == "NoMatchingParent"
       else exists n :: LookedAt(ref, g, n) && Refusing(spec.hostnames, g.listeners, n, reason)
  }

  /** What is reported for a managed reference: accepted exactly when it attaches somewhere,
      and otherwise refused for a reason there is, if there is one. */
  ghost predicate ReportsParent(conds: Conditions, ref: ParentRef, spec: RouteSpec, gateways: Gateways) {
    if RefValid(ref, spec, gateways) then
      "Accepted" in conds && conds["Accepted"] == Condition("Accepted", "True", "Accepted", "Route Accepted", 0)
    else
      && ("Accepted" in conds <==> exists reason :: RefusedFor(ref, spec, gateways, reason))
      && ("Accepted" in conds ==> conds["Accepted"] == Refusal(conds["Accepted"].reason) && RefusedFor(ref, spec, gateways, conds["Accepted"].reason))
  }

  datatype ParentRefResult = ParentRefResult(managed: bool, valid: bool, conditions: Conditions)

  method CheckParentRef(ref: ParentRef, spec: RouteSpec, gateways: Gateways) returns (r: ParentRefResult, attached: set<string>)
    ensures r.managed <==> Managed(ref, spec.ns, gateways)
    ensures forall n :: n in attached <==> Attached(ref, spec, gateways, n)
    ensures r.valid <==> RefValid(ref, spec, gateways)
    ensures r.valid ==> r.managed
    ensures r.valid ==> r.conditions == Accepted()
    ensures !r.valid ==> Refuses(r.conditions)
    ensures r.managed ==> ReportsParent(r.conditions, ref, spec, gateways)
  {
    hide HostnameMatched, AllowsRoutes, AttachesTo, ListenerRefusal;
    attached := {};
    if !IsParentRefGroupKindSupported(ref) {
      return ParentRefResult(false, false, map[]), attached;
    }
    var gwKey := GatewayKeyOf(ref, spec.ns);
    if gwKey in gateways && gateways[gwKey].deleted {
      assert RefusedFor(ref, spec, gateways, "NoMatchingParent");
      return ParentRefResult(true, false, NoMatchingParent()), attached;
    }
    if gwKey !in gateways {
      return ParentRefResult(false, false, map[]), attached;
    }
    var listeners := gateways[gwKey].listeners;
    var attachable: set<string>;
    if ref.section != None {
      if ref.section.value !in listeners {
        assert RefusedFor(ref, spec, gateways, "NoMatchingParent");
        return ParentRefResult(true, false, NoMatchingParent()), attached;
      }
      attachable := {ref.section.value};
    } else {
      attachable := listeners.Keys;
    }
    var conds: Conditions;
    attached, conds := CheckListeners(attachable, listeners, spec.hostnames);
    forall n
      ensures n in attachable <==> LookedAt(ref, gateways[gwKey], n)
      ensures n in attached <==> Attached(ref, spec, gateways, n)
    {}
    if |attached| == 0 {
      assert attached == {};
      RefusalsReported(ref, spec, gateways, attachable, conds);
      return ParentRefResult(true, false, conds), attached;
    }
    assert attached != {};
    var n :| n in attached;
    assert Attached(ref, spec, gateways, n);
    return ParentRefResult(true, true, Accepted()), attached;
  }

  lemma RefusalsReported(ref: ParentRef, spec: RouteSpec, gateways: Gateways, attachable: set<string>, conds: Conditions)
    requires Managed(ref, spec.ns, gateways) && !RefValid(ref, spec, gateways) && !NoParent(ref, gateways[GatewayKeyOf(ref, spec.ns)])
    requires var g := gateways[GatewayKeyOf(ref, spec.ns)]; forall n :: n in attachable <==> LookedAt(ref, g, n)
    requires var g := gateways[GatewayKeyOf(ref, spec.ns)];
             && attachable <= g.listeners.Keys
             && ("Accepted" in conds <==> exists n :: n in attachable && !AttachesTo(spec.hostnames, g.listeners[n]))
             && ("Accepted" in conds ==> conds["Accepted"] == Refusal(conds["Accepted"].reason))
             && ("Accepted" in conds ==> exists n :: n in attachable && Refusing(spec.hostnames, g.listeners, n, conds["Accepted"].reason))
    requires Refuses(conds)
    ensures ReportsParent(conds, ref, spec, gateways)
  {
    hide HostnameMatched, AllowsRoutes, AttachesTo, ListenerRefusal;
    var g := gateways[GatewayKeyOf(ref, spec.ns)];
    if reason :| RefusedFor(ref, spec, gateways, reason) {
      var n :| LookedAt(ref, g, n) && Refusing(spec.hostnames, g.listeners, n, reason);
      assert n in attachable;
    }
    if "Accepted" in conds {
      var n :| n in attachable && Refusing(spec.hostnames, g.listeners, n, conds["Accepted"].reason);
      assert LookedAt(ref, g, n);
      assert RefusedFor(ref, spec, gateways, conds["Accepted"].reason);
    }
  }

  /** Takes the listeners in any order; the last refusal of each kind is kept. */
  method CheckListeners(attachable: set<string>, listeners: map<string, ListenerView>, hostnames: seq<string>)
    returns (attached: set<string>, conds: Conditions)
    requires attachable <= listeners.Keys
    ensures attached == set n | n in attachable && AttachesTo(hostnames, listeners[n])
    ensures Refuses(conds)
    ensures "Accepted" in conds <==> exists n :: n in attachable && !AttachesTo(hostnames, listeners[n])
    ensures "Accepted" in conds ==> exists n :: n in attachable && Refusing(hostnames, listeners, n, conds["Accepted"].reason)
    ensures "Accepted" in conds ==> conds["Accepted"] == Refusal(conds["Accepted"].reason)
  {
    hide HostnameMatched, AllowsRoutes, Refuses, NotAccepted;
    NothingRefused();
    attached, conds := {}, map[];
    var todo := attachable;
    while todo != {}
      invariant todo <= attachable && Refuses(conds)
      invariant attached == set n | n in attachable - todo && AttachesTo(hostnames, listeners[n])
      invariant "Accepted" in conds <==> exists n :: n in attachable - todo && !AttachesTo(hostnames, listeners[n])
      invariant "Accepted" in conds ==> exists n :: n in attachable - todo && Refusing(hostnames, listeners, n, conds["Accepted"].reason)
      invariant "Accepted" in conds ==> conds["Accepted"] == Refusal(conds["Accepted"].reason)
    {
      var n :| n in todo;
      todo := todo - {n};
      var listener := listeners[n];
      if !listener.valid {
        RefusedMore(conds, "NoMatchingParent", "No matching parent found");
        conds := conds + NoMatchingParent();
        assert n in attachable - todo && Refusing(hostnames, listeners, n, "NoMatchingParent");
        continue;
      }
      var hostnameOk := MatchHostname(hostnames, listener.hostname);
      if !hostnameOk {
        RefusedMore(conds, "NoMatchingListenerHostname", "No matching hostname found");
        conds := conds + NotAccepted("NoMatchingListenerHostname", "No matching hostname found");
        assert n in attachable - todo && Refusing(hostnames, listeners, n, "NoMatchingListenerHostname");
        continue;
      }
      var kindOk := IsAllowedRouteKind(listener);
      if !kindOk {
        RefusedMore(conds, "NotAllowedByListeners", "Route kind not allowed by listeners");
        conds := conds + NotAccepted("NotAllowedByListeners", "Route kind not allowed by listeners");
        assert n in attachable - todo && Refusing(hostnames, listeners, n, "NotAllowedByListeners");
        continue;
      }
      attached := attached + {n};
    }
  }

  lemma NothingRefused()
    ensures Refuses(map[])
  {}

  lemma RefusedMore(conds: Conditions, reason: string, message: string)
    requires Refuses(conds)
    ensures Refuses(conds + NotAccepted(reason, message))
    ensures var c := conds + NotAccepted(reason, message); "Accepted" in c && c["Accepted"] == Condition("Accepted", "False", reason, message, 0)
  {}

  // ---- the route in the tree

  ghost predicate AllAsCreated(rc: RouteConditions) {
    forall key :: key in rc.data ==> AsCreated(rc.data[key])
  }

  ghost function ManagedRefs(refs: seq<ParentRef>, routeNs: string, gateways: Gateways): set<ParentRef> {
    set ref | ref in refs && Managed(ref, routeNs, gateways)
  }

  ghost function ManagedKeys(refs: seq<ParentRef>, routeNs: string, gateways: Gateways): set<string> {
    set ref | ref in refs && Managed(ref, routeNs, gateways) :: ParentRefToKey(ref)
  }

  ghost predicate AnyValid(refs: seq<ParentRef>, spec: RouteSpec, gateways: Gateways) {
    exists ref :: ref in refs && RefValid(ref, spec, gateways)
  }

  class TreeRoute {
    const controllerName: string
    var checks: RouteConditions
    var managed: bool
    var conditions: RouteConditions

    /** What is reported always names readable references, files conditions under their own
        type and is of generation 0; nothing is reported before the route was first managed. */
    ghost predicate Valid()
      reads this
    {
      AllAsCreated(checks) && AllAsCreated(conditions) && Tidy(conditions) && (Built() || conditions.data == map[])
    }

    ghost predicate Built()
      reads this
    {
      conditions.controller == controllerName
    }

    constructor (controllerName: string)
      ensures Valid() && !managed && this.controllerName == controllerName
    {
      this.controllerName := controllerName;
      checks := RouteConditions(map[], controllerName);
      managed := false;
      conditions := RouteConditions(map[], "");
    }

    /** One upsert, from the checks to the reported conditions. They are reported for the
        managed references of the spec exactly when all of these are plain: a port is lost,
        and references that differ in it alone become one. */
    method Upsert(spec: RouteSpec, gateways: Gateways, rules: seq<map<string, BackendCheck>>)
      requires Valid()
      modifies this
      ensures Valid() && (managed || old(Built()) ==> Built())
      ensures managed <==> AnyValid(spec.parentRefs, spec, gateways)
      ensures managed ==> forall key :: key in conditions.data <==>
                key in ManagedKeys(spec.parentRefs, spec.ns, gateways) && KeyToParentRef(key) != None
      ensures managed ==>
                (ReportedRefs(conditions) == ManagedRefs(spec.parentRefs, spec.ns, gateways)
                 <==> forall ref :: ref in ManagedRefs(spec.parentRefs, spec.ns, gateways) ==> Plain(ref))
      ensures managed ==> AllReported(conditions, spec, gateways)
      ensures managed ==> forall key :: key in conditions.data ==> ReportsResolved(conditions.data[key], rules)
    {
      hide Plain, ParentRefToKey, KeyToParentRef, Managed, ReportedRefs, ManagedRefs, ManagedKeys, AnyValid, ParentsReported, AllReported;
      CheckParentRefs(spec, gateways);
      BuildConditions(spec.generation);
      ghost var built := conditions;
      MergeBackendConditions(rules);
      if managed {
        ReportedExactly(spec, gateways, conditions);
        ReportedThrough(checks, built, conditions, spec, gateways);
      }
    }

    method CheckParentRefs(spec: RouteSpec, gateways: Gateways)
      modifies this`checks, this`managed
      ensures AllAsCreated(checks) && checks.controller == controllerName
      ensures ParentsReported(checks, spec.parentRefs, spec, gateways)
      ensures checks.data.Keys == ManagedKeys(spec.parentRefs, spec.ns, gateways)
      ensures managed <==> AnyValid(spec.parentRefs, spec, gateways)
    {
      hide Managed, RefValid, ManagedKeys, AnyValid, Refuses, AsCreated, ParentsReported, ReportsParent;
      NoRefs(spec, gateways);
      var routeConditions := RouteConditions(map[], controllerName);
      var atLeastOneValid := false;
      var refs := spec.parentRefs;
      for i := 0 to |refs|
        invariant AllAsCreated(routeConditions) && routeConditions.controller == controllerName
        invariant ParentsReported(routeConditions, refs[..i], spec, gateways)
        invariant routeConditions.data.Keys == ManagedKeys(refs[..i], spec.ns, gateways)
        invariant atLeastOneValid <==> AnyValid(refs[..i], spec, gateways)
      {
        assert refs[..i + 1] == refs[..i] + [refs[i]];
        OneMoreRef(refs[..i], refs[i], spec, gateways);
        var result, attached := CheckParentRef(refs[i], spec, gateways);
        ReportsAsCreated(result);
        if !result.managed {
          UnmanagedReported(routeConditions, refs[..i], refs[i], spec, gateways);
          continue;
        }
        OneMoreReported(routeConditions, refs[..i], refs[i], spec, gateways, result.conditions);
        MergedAsCreated(routeConditions, ParentRefToKey(refs[i]), result.conditions);
        routeConditions := MergeOverrideConditionsForParentRef(routeConditions, refs[i], result.conditions);
        if !result.valid {
          continue;
        }
        atLeastOneValid := true;
      }
      assert refs[..|refs|] == refs;
      checks := routeConditions;
      managed := atLeastOneValid;
    }

    /** Only a managed route reports; keys that stand for no reference are dropped. The
        generation is set before there are conditions, and so on none. */
    method BuildConditions(generation: int)
      requires Valid()
      modifies this`conditions
      ensures Valid() && (if managed then Built() else conditions == old(conditions))
      ensures managed ==> forall key :: key in conditions.data <==> key in checks.data && KeyToParentRef(key) != None
      ensures managed ==> forall key :: key in conditions.data ==> conditions.data[key] == checks.data[key]
    {
      if !managed {
        return;
      }
      hide ParentRefToKey, KeyToParentRef, AsCreated, ColonFree;
      var built := SetRouteGeneration(RouteConditions(map[], controllerName), generation);
      var todo := checks.data.Keys;
      while todo != {}
        invariant todo <= checks.data.Keys && Tidy(built) && AllAsCreated(built) && built.controller == controllerName
        invariant forall key :: key in built.data <==> key in checks.data.Keys - todo && KeyToParentRef(key) != None
        invariant forall key :: key in built.data ==> built.data[key] == checks.data[key]
      {
        var key :| key in todo;
        todo := todo - {key};
        var ref := KeyToParentRef(key);
        if ref == None {
          continue;
        }
        KeyRoundTrip(key);
        KeyReadable(ref.value);
        CreatedIsOwn(checks.data[key]);
        MergedAsCreated(built, ParentRefToKey(ref.value), checks.data[key]);
        assert map[] + checks.data[key] == checks.data[key];
        built := MergeOverrideConditionsForParentRef(built, ref.value, checks.data[key]);
      }
      conditions := built;
    }

    /** Adds one outcome for all backend references to what every parent reports: any of
        the failures, or that all are resolved. */
    method MergeBackendConditions(rules: seq<map<string, BackendCheck>>)
      requires Valid()
      modifies this`conditions
      ensures Valid() && conditions.data.Keys == old(conditions).data.Keys && conditions.controller == old(conditions).controller
      ensures forall key :: key in conditions.data ==> ReportsResolved(conditions.data[key], rules)
      ensures forall key :: key in conditions.data ==> SameAccepted(old(conditions).data[key], conditions.data[key])
    {
      hide ParentRefToKey, KeyToParentRef, AllResolved, ColonFree, AsCreated, ReportsResolved, SameAccepted;
      AcceptedSame();
      var resolved := ResolvedConditions(rules);
      var keys := conditions.data.Keys;
      var todo := keys;
      while todo != {}
        invariant todo <= keys && conditions.data.Keys == keys && conditions.controller == old(conditions).controller && Valid()
        invariant forall key :: key in keys - todo ==> ReportsResolved(conditions.data[key], rules)
        invariant forall key :: key in keys ==> SameAccepted(old(conditions).data[key], conditions.data[key])
      {
        var key :| key in todo;
        todo := todo - {key};
        var ref := KeyToParentRef(key);
        if ref == None {
          continue;
        }
        KeyRoundTrip(key);
        KeyReadable(ref.value);
        MergedAsCreated(conditions, ParentRefToKey(ref.value), resolved);
        MergedResolved(old(conditions).data[key], conditions.data[key], resolved, rules);
        conditions := MergeOverrideConditionsForParentRef(conditions, ref.value, resolved);
      }
    }

    /** Writes the status unless it is there already. Either way it is there afterwards, so
        the next reconciliation of the same conditions writes nothing. */
    method WriteStatus(route: ClusterRoute, now: int) returns (wrote: bool)
      requires Valid() && Built()
      modifies route
      ensures SameRouteConditions(RouteConditions(FromStatuses(route.parents, controllerName), controllerName), conditions)
      ensures multiset(OfOthers(route.parents, controllerName)) == multiset(OfOthers(old(route.parents), controllerName))
      ensures !wrote ==> route.parents == old(route.parents)
      ensures wrote || OwnPlain(old(route.parents), controllerName) ==> OwnRefs(route.parents, controllerName) == ReportedRefs(conditions)
      ensures wrote ==> NoGenerations(route.parents, controllerName)
      ensures wrote || OwnAsWritten(old(route.parents), controllerName) ==>
                OwnAsWritten(route.parents, controllerName) && EntriesAre(route.parents, conditions, controllerName)
      ensures wrote <==> !SameRouteConditions(RouteConditions(FromStatuses(old(route.parents), controllerName), controllerName), conditions)
    {
      var patcher := new StatusPatcher(controllerName, conditions);
      var upToDate := patcher.StatusEqual(route);
      hide OwnPlain, OwnRefs, ReportedRefs, SameRouteConditions, FromStatuses, AllAsCreated, IsNewStatus, NoGenerations, OwnAsWritten, EntriesAre;
      CreatedAreNamed(conditions);
      if upToDate {
        if OwnAsWritten(route.parents, controllerName) {
          RecognisedEntries(route.parents, conditions, controllerName);
        }
        if OwnPlain(route.parents, controllerName) {
          RecognisedRefs(route.parents, conditions, controllerName);
        }
        return false;
      }
      TidySettles(conditions);
      patcher.SetStatus(route, now);
      WrittenRefs(old(route.parents), conditions, controllerName, route.parents);
      WrittenEntries(old(route.parents), conditions, controllerName, route.parents);
      WrittenGenerations(old(route.parents), conditions, controllerName, route.parents);
      return true;
    }
  }

  lemma CreatedAreNamed(rc: RouteConditions)
    requires AllAsCreated(rc)
    ensures NamedKinds(rc)
  {}

  /** What an entry says of its parent: accepted exactly when the reference attaches
      somewhere, and otherwise refused for a reason there is, if there is one. */
  ghost predicate EntryReports(p: ParentStatus, ref: ParentRef, spec: RouteSpec, gateways: Gateways) {
    && (RefValid(ref, spec, gateways) ==>
          exists c :: c in p.conditions && c.condition == Condition("Accepted", "True", "Accepted", "Route Accepted", 0))
    && (!RefValid(ref, spec, gateways) && (exists reason :: RefusedFor(ref, spec, gateways, reason)) ==>
          exists c :: c in p.conditions && c.condition.kind == "Accepted")
    && (forall c :: c in p.conditions && c.condition.kind == "Accepted" ==>
          if RefValid(ref, spec, gateways) then c.condition.status == "True"
          else c.condition == Refusal(c.condition.reason) && RefusedFor(ref, spec, gateways, c.condition.reason))
  }

  /** Every managed reference whose key reads back has an entry, and all entries of its key
      say what its check says, and whether the backends are resolved. */
  ghost predicate EntriesReport(parents: seq<ParentStatus>, controller: string, spec: RouteSpec, gateways: Gateways, rules: seq<map<string, BackendCheck>>) {
    forall ref :: ref in spec.parentRefs && Managed(ref, spec.ns, gateways) && Agreed(ref, spec, gateways)
                  && KeyToParentRef(ParentRefToKey(ref)) != None ==>
      && (exists p :: p in parents && p.controller == controller && ParentRefToKey(p.ref) == ParentRefToKey(ref))
      && forall p :: p in parents && p.controller == controller && ParentRefToKey(p.ref) == ParentRefToKey(ref) ==>
           EntryReports(p, ref, spec, gateways) && EntryResolves(p, rules)
  }

  ghost predicate EntryResolves(p: ParentStatus, rules: seq<map<string, BackendCheck>>) {
    exists c :: c in p.conditions && c.condition.kind == "ResolvedRefs"
      && if AllResolved(rules) then c.condition.status == "True" else FailsFor(rules, c.condition)
  }

  lemma EntryReportsIt(p: ParentStatus, conds: Conditions, ref: ParentRef, spec: RouteSpec, gateways: Gateways, rules: seq<map<string, BackendCheck>>)
    requires EntryIs(p, conds) && OwnKinds(conds) && ReportsParent(conds, ref, spec, gateways) && ReportsResolved(conds, rules)
    ensures EntryReports(p, ref, spec, gateways) && EntryResolves(p, rules)
  {
    hide RefValid, RefusedFor, AllResolved, FailsFor;
    if "Accepted" in conds {
      var c :| c in p.conditions && c.condition == conds["Accepted"];
    }
    var c :| c in p.conditions && c.condition == conds["ResolvedRefs"];
  }

  lemma ReportedInEntries(parents: seq<ParentStatus>, rc: RouteConditions, controller: string, spec: RouteSpec, gateways: Gateways,
                          rules: seq<map<string, BackendCheck>>)
    requires EntriesAre(parents, rc, controller) && NamedKinds(rc) && AllReported(rc, spec, gateways)
    requires OwnRefs(parents, controller) == ReportedRefs(rc)
    requires forall key :: key in rc.data ==> ReportsResolved(rc.data[key], rules)
    ensures EntriesReport(parents, controller, spec, gateways, rules)
  {
    hide Managed, Agreed, ReportsParent, ReportsResolved, ParentRefToKey, KeyToParentRef, OwnKinds, EntryIs, EntryReports, EntryResolves;
    forall ref | ref in spec.parentRefs && Managed(ref, spec.ns, gateways) && Agreed(ref, spec, gateways) && KeyToParentRef(ParentRefToKey(ref)) != None
      ensures exists p :: p in parents && p.controller == controller && ParentRefToKey(p.ref) == ParentRefToKey(ref)
      ensures forall p :: p in parents && p.controller == controller && ParentRefToKey(p.ref) == ParentRefToKey(ref) ==>
                EntryReports(p, ref, spec, gateways) && EntryResolves(p, rules)
    {
      var key := ParentRefToKey(ref);
      var seen := KeyToParentRef(key).value;
      KeyRoundTrip(key);
      assert seen in ReportedRefs(rc) && seen in OwnRefs(parents, controller);
      forall p | p in parents && p.controller == controller && ParentRefToKey(p.ref) == key
        ensures EntryReports(p, ref, spec, gateways) && EntryResolves(p, rules)
      {
        EntryReportsIt(p, rc.data[key], ref, spec, gateways, rules);
      }
    }
  }

  /** A managed route from its spec to its status. Our entries then name the managed
      references of the spec if and only if all of these are plain, and say of each what its
      check says. */
  method ReportRoute(t: TreeRoute, spec: RouteSpec, gateways: Gateways, rules: seq<map<string, BackendCheck>>, route: ClusterRoute, now: int)
    requires t.Valid() && OwnPlain(route.parents, t.controllerName)
    modifies t, route
    ensures t.Valid() && OwnPlain(route.parents, t.controllerName)
    ensures t.managed <==> AnyValid(spec.parentRefs, spec, gateways)
    ensures t.managed ==>
              (OwnRefs(route.parents, t.controllerName) == ManagedRefs(spec.parentRefs, spec.ns, gateways)
               <==> forall ref :: ref in ManagedRefs(spec.parentRefs, spec.ns, gateways) ==> Plain(ref))
    ensures !t.managed ==> route.parents == old(route.parents)
    ensures old(OwnAsWritten(route.parents, t.controllerName)) ==> OwnAsWritten(route.parents, t.controllerName)
    ensures t.managed && old(OwnAsWritten(route.parents, t.controllerName)) ==> EntriesReport(route.parents, t.controllerName, spec, gateways, rules)
  {
    hide OwnAsWritten, EntriesAre, EntriesReport, AllReported, ReportsResolved, AllAsCreated;
    hide AnyValid, ManagedRefs, ManagedKeys, ReportedRefs, OwnRefs, Plain, KeyToParentRef, ParentRefToKey, SameRouteConditions, FromStatuses, NoGenerations;
    t.Upsert(spec, gateways, rules);
    if t.managed {
      var wrote := t.WriteStatus(route, now);
      forall ref ensures ref in ReportedRefs(t.conditions) ==> Plain(ref) {
        ReportedAt(t.conditions, ref);
      }
      CreatedAreNamed(t.conditions);
      if old(OwnAsWritten(route.parents, t.controllerName)) {
        ReportedInEntries(route.parents, t.conditions, t.controllerName, spec, gateways, rules);
      }
    }
  }

  lemma ReportedExactly(spec: RouteSpec, gateways: Gateways, rc: RouteConditions)
    requires forall key :: key in rc.data <==> key in ManagedKeys(spec.parentRefs, spec.ns, gateways) && KeyToParentRef(key) != None
    ensures ReportedRefs(rc) == ManagedRefs(spec.parentRefs, spec.ns, gateways)
       <==> forall ref :: ref in ManagedRefs(spec.parentRefs, spec.ns, gateways) ==> Plain(ref)
  {
    hide Plain, ParentRefToKey, KeyToParentRef, Managed, ReportedRefs;
    var managed := ManagedRefs(spec.parentRefs, spec.ns, gateways);
    forall ref ensures ref in ReportedRefs(rc) <==> Plain(ref) && ParentRefToKey(ref) in rc.data {
      ReportedAt(rc, ref);
    }
    if forall ref :: ref in managed ==> Plain(ref) {
      forall ref ensures ref in ReportedRefs(rc) <==> ref in managed {
        if ref in managed {
          RefRoundTrip(ref);
        } else if ref in ReportedRefs(rc) {
          var ref' :| ref' in spec.parentRefs && Managed(ref', spec.ns, gateways) && ParentRefToKey(ref') == ParentRefToKey(ref);
          assert ref' in managed;
          SamePlainKey(ref, ref');
        }
      }
    }
  }

  /** A reference with a port is reported without it, one that differs only in the port
      not at all. */
  lemma PortIsLost(spec: RouteSpec, gateways: Gateways, rc: RouteConditions, ref: ParentRef)
    requires forall key :: key in rc.data <==> key in ManagedKeys(spec.parentRefs, spec.ns, gateways) && KeyToParentRef(key) != None
    requires ref in spec.parentRefs && Managed(ref, spec.ns, gateways)
    requires Plain(ref.(port := None)) && ref.port == Some(80)
    ensures ref !in ReportedRefs(rc) && ref.(port := None) in ReportedRefs(rc)
  {
    var seen := ref.(port := None);
    assert Parts(seen) == Parts(ref);
    RefRoundTrip(seen);
    ReportedAt(rc, seen);
    ReportedAt(rc, ref);
    assert ParentRefToKey(ref) in ManagedKeys(spec.parentRefs, spec.ns, gateways);
  }

  const SEEN := ParentRef(None, None, None, "gw", None, None)
  const PORTS := RouteSpec("default", 1, [SEEN.(port := Some(80)), SEEN.(port := Some(81))], [])
  const GATEWAY: Gateways := map[ObjectKey("default", "gw") := GatewayView(false, map["web" := ListenerView(true, None, [RouteKind(None, "HTTPRoute")])])]

  /** Two references to ports of one gateway: the status names neither, and has one entry. */
  method PortExample(now: int) returns (route: ClusterRoute)
    ensures ManagedRefs(PORTS.parentRefs, PORTS.ns, GATEWAY) == {SEEN.(port := Some(80)), SEEN.(port := Some(81))}
    ensures OwnRefs(route.parents, "hug") == {SEEN}
  {
    hide AnyValid, ManagedRefs, ManagedKeys, ReportedRefs, OwnRefs, KeyToParentRef, ParentRefToKey, SameRouteConditions, FromStatuses, NoGenerations, OwnPlain;
    PortsAttached();
    var t := new TreeRoute("hug");
    route := new ClusterRoute([]);
    t.Upsert(PORTS, GATEWAY, []);
    PortsReported(t.conditions);
    NoneOwn();
    var wrote := t.WriteStatus(route, now);
  }

  lemma NoneOwn()
    ensures OwnPlain([], "hug")
  {}

  lemma PortsAttached()
    ensures AnyValid(PORTS.parentRefs, PORTS, GATEWAY)
    ensures ManagedRefs(PORTS.parentRefs, PORTS.ns, GATEWAY) == {SEEN.(port := Some(80)), SEEN.(port := Some(81))}
  {
    var ref := PORTS.parentRefs[0];
    var listener := GATEWAY[ObjectKey("default", "gw")].listeners["web"];
    assert listener.kinds[0] in listener.kinds && Allows(listener.kinds[0]);
    assert Attached(ref, PORTS, GATEWAY, "web");
    assert ref in PORTS.parentRefs && PORTS.parentRefs[1] in PORTS.parentRefs;
  }

  lemma PortsReported(rc: RouteConditions)
    requires forall key :: key in rc.data <==> key in ManagedKeys(PORTS.parentRefs, PORTS.ns, GATEWAY) && KeyToParentRef(key) != None
    ensures ReportedRefs(rc) == {SEEN}
  {
    hide KeyToParentRef, ParentRefToKey, ReportedRefs;
    PortsAttached();
    PortIsLost(PORTS, GATEWAY, rc, PORTS.parentRefs[0]);
    assert Parts(PORTS.parentRefs[1]) == Parts(SEEN) == Parts(PORTS.parentRefs[0]);
    forall ref | ref in ReportedRefs(rc) ensures ref == SEEN {
      ReportedAt(rc, ref);
      assert ParentRefToKey(ref) in ManagedKeys(PORTS.parentRefs, PORTS.ns, GATEWAY);
      SameParts(PORTS.parentRefs[0], SEEN);
      SameParts(PORTS.parentRefs[1], SEEN);
      SamePlainKey(ref, SEEN);
    }
  }

  lemma SameParts(a: ParentRef, b: ParentRef)
    requires Parts(a) == Parts(b)
    ensures ParentRefToKey(a) == ParentRefToKey(b)
  {}

  ghost predicate NoGenerations(parents: seq<ParentStatus>, controller: string) {
    forall p, c :: p in parents && p.controller == controller && c in p.conditions ==> c.condition.generation == 0
  }

  lemma WrittenGenerations(before: seq<ParentStatus>, rc: RouteConditions, controller: string, after: seq<ParentStatus>)
    requires IsNewStatus(before, rc, controller, after) && rc.controller == controller && AllAsCreated(rc)
    ensures NoGenerations(after, controller)
  {
    var ours, order :| IsMerge(before, rc, controller, after, ours, order);
    MergedHoldsOurs(before, rc, controller, after, ours, order);
    hide KeyToParentRef, IsListOf, OneEach, AsCreated, IsMerge;
    assert ListsStatuses(ours, rc, order) by { UnfoldMerge(before, rc, controller, after, ours, order); }
    forall p, c | p in after && p.controller == controller && c in p.conditions ensures c.condition.generation == 0 {
      var i :| 0 <= i < |ours| && ours[i] == p;
      assert IsStatusOf(ours[i], rc, order[i]);
      ListedAsCreated(p.conditions, rc.data[order[i]], c);
    }
  }

  lemma UnfoldMerge(before: seq<ParentStatus>, rc: RouteConditions, controller: string, after: seq<ParentStatus>,
                    ours: seq<ParentStatus>, order: seq<string>)
    requires IsMerge(before, rc, controller, after, ours, order)
    ensures ListsStatuses(ours, rc, order)
  {}

  lemma ListedAsCreated(metas: seq<MetaCondition>, m: Conditions, c: MetaCondition)
    requires IsListOf(metas, m) && AsCreated(m) && c in metas
    ensures c.condition.generation == 0
  {
    var order :| Lists(metas, m, order);
    var i :| 0 <= i < |metas| && metas[i] == c;
    assert order[i] in order;
  }

  lemma NoRefs(spec: RouteSpec, gateways: Gateways)
    ensures ManagedKeys([], spec.ns, gateways) == {} && !AnyValid([], spec, gateways)
    ensures forall rc :: ParentsReported(rc, [], spec, gateways)
  {}

  /** Each managed reference whose key reads back is reported for as its check says. */
  ghost predicate AllReported(rc: RouteConditions, spec: RouteSpec, gateways: Gateways) {
    forall ref :: ref in spec.parentRefs && Managed(ref, spec.ns, gateways) && Agreed(ref, spec, gateways)
                  && KeyToParentRef(ParentRefToKey(ref)) != None ==>
      ParentRefToKey(ref) in rc.data && ReportsParent(rc.data[ParentRefToKey(ref)], ref, spec, gateways)
  }

  lemma ReportedThrough(checks: RouteConditions, built: RouteConditions, rc: RouteConditions, spec: RouteSpec, gateways: Gateways)
    requires ParentsReported(checks, spec.parentRefs, spec, gateways)
    requires forall key :: key in built.data <==> key in checks.data && KeyToParentRef(key) != None
    requires forall key :: key in built.data ==> built.data[key] == checks.data[key]
    requires rc.data.Keys == built.data.Keys && forall key :: key in rc.data ==> SameAccepted(built.data[key], rc.data[key])
    ensures AllReported(rc, spec, gateways)
  {
    hide Managed, Agreed, ReportsParent, ParentRefToKey, KeyToParentRef, SameAccepted;
    forall ref | ref in spec.parentRefs && Managed(ref, spec.ns, gateways) && Agreed(ref, spec, gateways) && KeyToParentRef(ParentRefToKey(ref)) != None
      ensures ParentRefToKey(ref) in rc.data && ReportsParent(rc.data[ParentRefToKey(ref)], ref, spec, gateways)
    {
      var key := ParentRefToKey(ref);
      assert key in built.data;
      SameReport(built.data[key], rc.data[key], ref, spec, gateways);
    }
  }

  /** The managed references of its key differ at most in the port. */
  ghost predicate Agreed(ref: ParentRef, spec: RouteSpec, gateways: Gateways) {
    forall r :: r in spec.parentRefs && Managed(r, spec.ns, gateways) && ParentRefToKey(r) == ParentRefToKey(ref) ==>
      r.(port := None) == ref.(port := None)
  }

  /** Every managed reference of `refs` is reported for, under its key. */
  ghost predicate ParentsReported(rc: RouteConditions, refs: seq<ParentRef>, spec: RouteSpec, gateways: Gateways) {
    refs <= spec.parentRefs ==>
      forall ref :: ref in refs && Managed(ref, spec.ns, gateways) && Agreed(ref, spec, gateways) ==>
        ParentRefToKey(ref) in rc.data && ReportsParent(rc.data[ParentRefToKey(ref)], ref, spec, gateways)
  }

  lemma PortDoesNotMatter(conds: Conditions, a: ParentRef, b: ParentRef, spec: RouteSpec, gateways: Gateways)
    requires a.(port := None) == b.(port := None)
    ensures ReportsParent(conds, a, spec, gateways) <==> ReportsParent(conds, b, spec, gateways)
  {
    hide AttachesTo, ListenerRefusal;
    forall n ensures Attached(a, spec, gateways, n) <==> Attached(b, spec, gateways, n) {}
    forall reason ensures RefusedFor(a, spec, gateways, reason) <==> RefusedFor(b, spec, gateways, reason) {
      var g := GatewayKeyOf(a, spec.ns);
      if g in gateways {
        forall n ensures LookedAt(a, gateways[g], n) <==> LookedAt(b, gateways[g], n) {}
      }
    }
  }

  lemma ReportedAgain(before: Conditions, conds: Conditions, ref: ParentRef, spec: RouteSpec, gateways: Gateways)
    requires ReportsParent(conds, ref, spec, gateways) && (before == map[] || ReportsParent(before, ref, spec, gateways))
    ensures ReportsParent(before + conds, ref, spec, gateways)
  {
    hide RefValid, RefusedFor;
  }

  lemma UnmanagedReported(rc: RouteConditions, refs: seq<ParentRef>, ref: ParentRef, spec: RouteSpec, gateways: Gateways)
    requires ParentsReported(rc, refs, spec, gateways) && !Managed(ref, spec.ns, gateways)
    ensures ParentsReported(rc, refs + [ref], spec, gateways)
  {
    hide Managed, Agreed, ReportsParent, ParentRefToKey;
    if refs + [ref] <= spec.parentRefs {
      assert refs <= refs + [ref];
      forall r | r in refs + [ref] ensures r in refs || r == ref {}
    }
  }

  lemma OneMoreReported(rc: RouteConditions, refs: seq<ParentRef>, ref: ParentRef, spec: RouteSpec, gateways: Gateways, conds: Conditions)
    requires ParentsReported(rc, refs, spec, gateways) && rc.data.Keys == ManagedKeys(refs, spec.ns, gateways)
    requires Managed(ref, spec.ns, gateways) && ReportsParent(conds, ref, spec, gateways)
    ensures var key := ParentRefToKey(ref);
            ParentsReported(rc.(data := rc.data[key := (if key in rc.data then rc.data[key] else map[]) + conds]), refs + [ref], spec, gateways)
  {
    hide Managed, ReportsParent, ParentRefToKey;
    var key := ParentRefToKey(ref);
    var before := if key in rc.data then rc.data[key] else map[];
    if refs + [ref] <= spec.parentRefs {
      assert refs <= refs + [ref];
      assert ref in refs + [ref] && ref in spec.parentRefs;
      forall r | r in refs + [ref] && Managed(r, spec.ns, gateways) && Agreed(r, spec, gateways) && ParentRefToKey(r) == key
        ensures ReportsParent(before + conds, r, spec, gateways)
      {
        PortDoesNotMatter(conds, ref, r, spec, gateways);
        if key in rc.data {
          var r' :| r' in refs && Managed(r', spec.ns, gateways) && ParentRefToKey(r') == key;
          assert r' in spec.parentRefs;
          assert Agreed(r', spec, gateways);
          PortDoesNotMatter(before, r', r, spec, gateways);
        }
        ReportedAgain(before, conds, r, spec, gateways);
      }
      forall r | r in refs + [ref] ensures r in refs || r == ref {}
    }
  }

  lemma ReportsAsCreated(r: ParentRefResult)
    requires if r.valid then r.conditions == Accepted() else Refuses(r.conditions)
    ensures AsCreated(r.conditions)
  {}

  lemma CreatedIsOwn(conds: Conditions)
    requires AsCreated(conds)
    ensures OwnKinds(conds)
  {}

  lemma MergedAsCreated(rc: RouteConditions, key: string, conds: Conditions)
    requires AllAsCreated(rc) && AsCreated(conds)
    ensures AllAsCreated(rc.(data := rc.data[key := (if key in rc.data then rc.data[key] else map[]) + conds]))
  {}

  lemma OneMoreRef(refs: seq<ParentRef>, ref: ParentRef, spec: RouteSpec, gateways: Gateways)
    ensures ManagedKeys(refs + [ref], spec.ns, gateways) ==
            ManagedKeys(refs, spec.ns, gateways) + if Managed(ref, spec.ns, gateways) then {ParentRefToKey(ref)} else {}
    ensures AnyValid(refs + [ref], spec, gateways) <==> AnyValid(refs, spec, gateways) || RefValid(ref, spec, gateways)
  {
    hide Managed, RefValid, ParentRefToKey;
    assert ref in refs + [ref];
    forall r ensures r in refs + [ref] <==> r in refs || r == ref {}
  }

  ghost predicate SameAccepted(a: Conditions, b: Conditions) {
    ("Accepted" in a <==> "Accepted" in b) && ("Accepted" in a ==> a["Accepted"] == b["Accepted"])
  }

  lemma AcceptedSame()
    ensures forall conds :: SameAccepted(conds, conds)
  {}

  lemma MergedResolved(start: Conditions, before: Conditions, resolved: Conditions, rules: seq<map<string, BackendCheck>>)
    requires SameAccepted(start, before) && resolved.Keys == {"ResolvedRefs"} && ReportsResolved(resolved, rules)
    ensures SameAccepted(start, before + resolved) && ReportsResolved(before + resolved, rules)
  {}

  lemma SameReport(a: Conditions, b: Conditions, ref: ParentRef, spec: RouteSpec, gateways: Gateways)
    requires SameAccepted(a, b) && ReportsParent(a, ref, spec, gateways)
    ensures ReportsParent(b, ref, spec, gateways)
  {}

  /** Resolved when all references of all rules are, and otherwise not, for a reason that
      holds for one of them. */
  ghost predicate ReportsResolved(conds: Conditions, rules: seq<map<string, BackendCheck>>) {
    && "ResolvedRefs" in conds
    && (if AllResolved(rules) then conds["ResolvedRefs"] == Condition("ResolvedRefs", "True", "ResolvedRefs", "References resolved", 0)
        else FailsFor(rules, conds["ResolvedRefs"]))
  }

  ghost predicate FailsFor(rules: seq<map<string, BackendCheck>>, c: Condition) {
    exists i, key :: 0 <= i < |rules| && key in rules[i] && Gives(rules[i][key], c)
  }

  ghost predicate Gives(check: BackendCheck, c: Condition) {
    || (check.InvalidKind? && c == Condition("ResolvedRefs", "False", "InvalidKind", "Invalid Kind/Group for backendRef " + check.key, 0))
    || (check.BackendNotFound? && c == Condition("ResolvedRefs", "False", "BackendNotFound", "backendRef not found " + check.key, 0))
  }

  ghost predicate AllResolved(rules: seq<map<string, BackendCheck>>) {
    forall i, key :: 0 <= i < |rules| && key in rules[i] ==> rules[i][key] == Resolved
  }

  method ResolvedConditions(rules: seq<map<string, BackendCheck>>) returns (resolved: Conditions)
    ensures AsCreated(resolved) && OwnKinds(resolved) && resolved.Keys == {"ResolvedRefs"}
    ensures ReportsResolved(resolved, rules)
  {
    var failing: Conditions := map[];
    for i := 0 to |rules|
      invariant Failing(failing) && (failing == map[] <==> AllResolved(rules[..i]))
      invariant "ResolvedRefs" in failing ==> FailsFor(rules[..i], failing["ResolvedRefs"])
    {
      hide AllResolved, Failing, FailsFor, Gives;
      OneMoreRule(rules, i);
      failing := MergeFailing(rules, i, failing);
    }
    assert rules[..|rules|] == rules;
    if |failing| > 0 {
      assert failing != map[];
      FailingHas(failing);
      resolved := failing;
    } else {
      assert failing == map[];
      resolved := ResolvedRefs();
    }
  }

  ghost predicate Failing(conds: Conditions) {
    AsCreated(conds) && conds.Keys <= {"ResolvedRefs"} && forall k :: k in conds ==> conds[k].status == "False"
  }

  lemma FailingHas(conds: Conditions)
    requires Failing(conds) && conds != map[]
    ensures conds.Keys == {"ResolvedRefs"} && conds["ResolvedRefs"].status == "False"
  {
    var k :| k in conds;
  }

  method MergeFailing(rules: seq<map<string, BackendCheck>>, i: nat, before: Conditions) returns (failing: Conditions)
    requires i < |rules| && Failing(before)
    requires "ResolvedRefs" in before ==> FailsFor(rules[..i], before["ResolvedRefs"])
    ensures Failing(failing) && (failing == map[] <==> before == map[] && forall key :: key in rules[i] ==> rules[i][key] == Resolved)
    ensures "ResolvedRefs" in failing ==> FailsFor(rules[..i + 1], failing["ResolvedRefs"])
  {
    hide Failing, FailsFor;
    var rule := rules[i];
    if "ResolvedRefs" in before { StillFails(rules, i, before["ResolvedRefs"]); }
    failing := before;
    var todo := rule.Keys;
    while todo != {}
      invariant todo <= rule.Keys && Failing(failing)
      invariant "ResolvedRefs" in failing ==> FailsFor(rules[..i + 1], failing["ResolvedRefs"])
      invariant failing == map[] <==> before == map[] && forall key :: key in rule.Keys - todo ==> rule[key] == Resolved
    {
      var key :| key in todo;
      todo := todo - {key};
      if rule[key] != Resolved {
        OneMoreFailing(failing, rule[key]);
        FailsForOne(rules, i, key);
        failing := failing + BackendConditions(rule[key]);
      }
    }
  }

  lemma StillFails(rules: seq<map<string, BackendCheck>>, i: nat, c: Condition)
    requires i < |rules| && FailsFor(rules[..i], c)
    ensures FailsFor(rules[..i + 1], c)
  {
    var j, key :| 0 <= j < i && key in rules[..i][j] && Gives(rules[..i][j][key], c);
    assert rules[..i + 1][j] == rules[..i][j];
  }

  lemma FailsForOne(rules: seq<map<string, BackendCheck>>, i: nat, key: string)
    requires i < |rules| && key in rules[i] && rules[i][key] != Resolved
    ensures FailsFor(rules[..i + 1], BackendConditions(rules[i][key])["ResolvedRefs"])
  {
    assert rules[..i + 1][i] == rules[i] && Gives(rules[i][key], BackendConditions(rules[i][key])["ResolvedRefs"]);
  }

  lemma OneMoreFailing(conds: Conditions, check: BackendCheck)
    requires Failing(conds) && check != Resolved
    ensures Failing(conds + BackendConditions(check)) && conds + BackendConditions(check) != map[]
  {
    assert "ResolvedRefs" in conds + BackendConditions(check);
  }

  lemma OneMoreRule(rules: seq<map<string, BackendCheck>>, i: nat)
    requires i < |rules|
    ensures AllResolved(rules[..i + 1]) <==> AllResolved(rules[..i]) && forall key :: key in rules[i] ==> rules[i][key] == Resolved
  {
    assert rules[..i + 1] == rules[..i] + [rules[i]];
  }
}
