/** Writing a route's status next to those of other controllers, and recognising that it
    is already written. */
module RouteStatuses {
  import opened Wrappers
  import opened Text
  import opened ParentRefs
  import opened Sets

  datatype Condition = Condition(kind: string, status: string, reason: string, message: string, generation: int)

  /** What an absent map entry reads as. */
  const ZERO := Condition("", "", "", "", 0)

  /** Conditions by type. */
  type Conditions = map<string, Condition>

  datatype MetaCondition = MetaCondition(condition: Condition, lastTransitionTime: int)

  datatype ParentStatus = ParentStatus(ref: ParentRef, controller: string, conditions: seq<MetaCondition>)

  /** `data` maps parent-reference keys to conditions. */
  datatype RouteConditions = RouteConditions(data: map<string, Conditions>, controller: string)

  // ---- conditions against their list form

  ghost function Read(m: Conditions, k: string): Condition {
    if k in m then m[k] else ZERO
  }

  ghost predicate SameConditions(a: Conditions, b: Conditions) {
    |a| == |b| && forall k :: k in a ==> Read(b, k) == a[k]
  }

  method ConditionsEqual(a: Conditions, b: Conditions) returns (equal: bool)
    ensures equal <==> SameConditions(a, b)
  {
    if |a| != |b| {
      return false;
    }
    var todo := a.Keys;
    while todo != {}
      invariant todo <= a.Keys
      invariant forall k :: k in a.Keys - todo ==> Read(b, k) == a[k]
    {
      var k :| k in todo;
      todo := todo - {k};
      var v := if k in b then b[k] else ZERO;
      if v != a[k] {
        return false;
      }
    }
    return true;
  }

  /** The list form, in whatever order. */
  ghost predicate Lists(metas: seq<MetaCondition>, m: Conditions, order: seq<string>) {
    && Distinct(order) && (forall k :: k in order <==> k in m) && |metas| == |order|
    && forall i :: 0 <= i < |order| ==> metas[i].condition == m[order[i]]
  }

  ghost predicate IsListOf(metas: seq<MetaCondition>, m: Conditions) {
    exists order :: Lists(metas, m, order)
  }

  method ToMetav1Conditions(m: Conditions, now: int) returns (metas: seq<MetaCondition>)
    ensures IsListOf(metas, m)
  {
    metas := [];
    ghost var order: seq<string> := [];
    var todo := m.Keys;
    while todo != {}
      invariant todo <= m.Keys && Distinct(order) && |metas| == |order|
      invariant forall k :: k in order <==> k in m.Keys - todo
      invariant forall i :: 0 <= i < |order| ==> order[i] in m && metas[i].condition == m[order[i]]
    {
      var k :| k in todo;
      assert forall i :: 0 <= i < |order| ==> order[i] in m.Keys - todo;
      todo := todo - {k};
      metas := metas + [MetaCondition(m[k], now)];
      order := order + [k];
    }
    assert Lists(metas, m, order);
  }

  /** Reading the list form back: each condition is filed under its own type. */
  ghost function FromMetas(start: Conditions, metas: seq<MetaCondition>): Conditions
    decreases |metas|
  {
    if metas == [] then start
    else
      var last := metas[|metas| - 1].condition;
      FromMetas(start, metas[..|metas| - 1])[last.kind := last]
  }

  ghost function Kinds(metas: seq<MetaCondition>): set<string> {
    set i | 0 <= i < |metas| :: metas[i].condition.kind
  }

  lemma {:induction false} FromMetasKinds(metas: seq<MetaCondition>)
    ensures FromMetas(map[], metas).Keys == Kinds(metas)
    ensures forall k :: k in FromMetas(map[], metas) ==>
              exists i :: 0 <= i < |metas| && metas[i].condition == FromMetas(map[], metas)[k] && metas[i].condition.kind == k
    decreases |metas|
  {
    if metas != [] {
      var n := |metas| - 1;
      FromMetasKinds(metas[..n]);
      forall k ensures k in Kinds(metas) <==> k in Kinds(metas[..n]) || k == metas[n].condition.kind {
        if k in Kinds(metas[..n]) {
          var i :| 0 <= i < n && metas[..n][i].condition.kind == k;
          assert metas[i].condition.kind == k;
        }
      }
      forall k | k in FromMetas(map[], metas)
        ensures exists i :: 0 <= i < |metas| && metas[i].condition == FromMetas(map[], metas)[k] && metas[i].condition.kind == k
      {
        if k != metas[n].condition.kind {
          var i :| 0 <= i < n && metas[..n][i].condition == FromMetas(map[], metas[..n])[k] && metas[..n][i].condition.kind == k;
          assert metas[i].condition == FromMetas(map[], metas)[k];
        }
      }
    }
  }

  /** Every condition is filed under its own type; at most one blank one may be misfiled,
      since a missing entry reads as blank. */
  ghost predicate FiledByKind(m: Conditions) {
    && (forall k :: k in m ==> m[k].kind == k || (m[k] == ZERO && "" !in m))
    && (forall k, k' :: k in m && k' in m && m[k] == ZERO && m[k'] == ZERO ==> k == k')
  }

  ghost predicate DistinctKinds(m: Conditions) {
    forall k, k' :: k in m && k' in m && m[k].kind == m[k'].kind ==> k == k'
  }

  ghost function KindsOf(m: Conditions, keys: set<string>): set<string> {
    set k | k in keys && k in m :: m[k].kind
  }

  lemma {:induction false} KindsCount(m: Conditions, keys: set<string>)
    requires keys <= m.Keys
    ensures |KindsOf(m, keys)| <= |keys|
    ensures |KindsOf(m, keys)| == |keys| <==> forall k, k' :: k in keys && k' in keys && m[k].kind == m[k'].kind ==> k == k'
    decreases |keys|
  {
    if keys != {} {
      var k0 :| k0 in keys;
      var rest := keys - {k0};
      KindsCount(m, rest);
      assert KindsOf(m, keys) == KindsOf(m, rest) + {m[k0].kind};
      if m[k0].kind in KindsOf(m, rest) {
        var k1 :| k1 in rest && m[k1].kind == m[k0].kind;
        assert KindsOf(m, keys) == KindsOf(m, rest);
      } else {
        assert |KindsOf(m, keys)| == |KindsOf(m, rest)| + 1;
        assert forall k :: k in rest ==> m[k].kind in KindsOf(m, rest);
      }
    }
  }

  lemma ListedKinds(metas: seq<MetaCondition>, m: Conditions, order: seq<string>)
    requires Lists(metas, m, order)
    ensures Kinds(metas) == KindsOf(m, m.Keys)
    ensures forall i :: 0 <= i < |metas| ==> order[i] in m && metas[i].condition == m[order[i]]
  {
    forall i | 0 <= i < |metas| ensures order[i] in m {
      assert order[i] in order;
    }
    forall k | k in m ensures m[k].kind in Kinds(metas) {
      var i :| 0 <= i < |order| && order[i] == k;
      assert metas[i].condition.kind == m[k].kind;
    }
  }

  /** What comes back from the list form compares equal exactly when it was well filed. */
  lemma RefiledSame(metas: seq<MetaCondition>, m: Conditions, order: seq<string>)
    requires Lists(metas, m, order)
    ensures SameConditions(FromMetas(map[], metas), m) <==> FiledByKind(m)
  {
    var back := FromMetas(map[], metas);
    FromMetasKinds(metas);
    ListedKinds(metas, m, order);
    KindsCount(m, m.Keys);
    assert |back| == |back.Keys| && |m| == |m.Keys|;
    hide FromMetas, Kinds;
    forall kind | kind in back ensures exists k :: k in m && m[k] == back[kind] && m[k].kind == kind {
      var i :| 0 <= i < |metas| && metas[i].condition == back[kind] && metas[i].condition.kind == kind;
      assert order[i] in m && m[order[i]] == back[kind];
    }
    if DistinctKinds(m) {
      forall k | k in m ensures m[k].kind in back && back[m[k].kind] == m[k] {
        assert m[k].kind in KindsOf(m, m.Keys);
      }
      DistinctlyFiled(m, back);
    } else {
      if FiledByKind(m) { FiledIsDistinct(m); }
    }
  }

  lemma FiledIsDistinct(m: Conditions)
    requires FiledByKind(m)
    ensures DistinctKinds(m)
  {}

  lemma DistinctlyFiled(m: Conditions, back: Conditions)
    requires DistinctKinds(m) && |back| == |m|
    requires forall k :: k in m ==> m[k].kind in back && back[m[k].kind] == m[k]
    requires forall kind :: kind in back ==> exists k :: k in m && m[k] == back[kind] && m[k].kind == kind
    ensures SameConditions(back, m) <==> FiledByKind(m)
  {
    if SameConditions(back, m) {
      forall k | k in m ensures m[k].kind == k || (m[k] == ZERO && "" !in m) {
        var kind := m[k].kind;
        assert Read(m, kind) == m[k];
      }
      assert FiledByKind(m);
    }
    if FiledByKind(m) {
      forall kind | kind in back ensures Read(m, kind) == back[kind] {
        var k :| k in m && m[k] == back[kind] && m[k].kind == kind;
      }
    }
  }

  // ---- route conditions against the status list

  ghost function FromStatuses(parents: seq<ParentStatus>, controller: string): map<string, Conditions>
    decreases |parents|
  {
    if parents == [] then map[]
    else AddStatus(FromStatuses(parents[..|parents| - 1], controller), parents[|parents| - 1], controller)
  }

  ghost function AddStatus(data: map<string, Conditions>, p: ParentStatus, controller: string): map<string, Conditions> {
    var key := ParentRefToKey(p.ref);
    if p.controller != controller then data else data[key := FromMetas(if key in data then data[key] else map[], p.conditions)]
  }

  method NewRouteConditions(parents: seq<ParentStatus>, controller: string) returns (rc: RouteConditions)
    ensures rc == RouteConditions(FromStatuses(parents, controller), controller)
  {
    var data: map<string, Conditions> := map[];
    for i := 0 to |parents|
      invariant data == FromStatuses(parents[..i], controller)
    {
      hide FromMetas;
      assert parents[..i + 1][..i] == parents[..i];
      var p := parents[i];
      if p.controller != controller {
        continue;
      }
      var key := ParentRefToKey(p.ref);
      var conds := ReadMetas(if key in data then data[key] else map[], p.conditions);
      data := data[key := conds];
    }
    assert parents[..|parents|] == parents;
    return RouteConditions(data, controller);
  }

  method ReadMetas(start: Conditions, metas: seq<MetaCondition>) returns (conds: Conditions)
    ensures conds == FromMetas(start, metas)
  {
    conds := start;
    for i := 0 to |metas|
      invariant conds == FromMetas(start, metas[..i])
    {
      assert metas[..i + 1][..i] == metas[..i];
      conds := conds[metas[i].condition.kind := metas[i].condition];
    }
    assert metas[..|metas|] == metas;
  }

  ghost predicate SameAt(a: RouteConditions, b: RouteConditions, key: string)
    requires key in a.data
  {
    var ref := KeyToParentRef(key);
    ref != None && ParentRefToKey(ref.value) in b.data && SameConditions(a.data[key], b.data[ParentRefToKey(ref.value)])
  }

  ghost predicate SameRouteConditions(a: RouteConditions, b: RouteConditions) {
    a.controller == b.controller && |a.data| == |b.data| && forall key :: key in a.data ==> SameAt(a, b, key)
  }

  method RouteConditionsEqual(a: RouteConditions, b: RouteConditions) returns (equal: bool)
    ensures equal <==> SameRouteConditions(a, b)
  {
    if a.controller != b.controller {
      return false;
    }
    if |a.data| != |b.data| {
      return false;
    }
    var todo := a.data.Keys;
    while todo != {}
      invariant todo <= a.data.Keys
      invariant forall key :: key in a.data.Keys - todo ==> SameAt(a, b, key)
    {
      var key :| key in todo;
      todo := todo - {key};
      var ref := KeyToParentRef(key);
      if ref == None {
        return false;
      }
      if ParentRefToKey(ref.value) !in b.data {
        return false;
      }
      var same := ConditionsEqual(a.data[key], b.data[ParentRefToKey(ref.value)]);
      if !same {
        return false;
      }
    }
    return true;
  }

  /** One entry per key that stands for a reference, in whatever order. */
  ghost predicate ListsStatuses(ours: seq<ParentStatus>, rc: RouteConditions, order: seq<string>) {
    && Distinct(order) && (forall key :: key in order <==> key in rc.data && KeyToParentRef(key) != None)
    && |ours| == |order| && forall i :: 0 <= i < |order| ==> IsStatusOf(ours[i], rc, order[i])
  }

  ghost predicate IsStatusOf(p: ParentStatus, rc: RouteConditions, key: string) {
    && key in rc.data && Some(p.ref) == KeyToParentRef(key) && p.controller == rc.controller
    && IsListOf(p.conditions, rc.data[key])
  }

  method ToV1RouteConditions(rc: RouteConditions, now: int) returns (ours: seq<ParentStatus>)
    ensures exists order :: ListsStatuses(ours, rc, order)
  {
    hide IsListOf;
    ours := [];
    ghost var order: seq<string> := [];
    var todo := rc.data.Keys;
    while todo != {}
      invariant todo <= rc.data.Keys && Distinct(order) && |ours| == |order|
      invariant forall key :: key in order <==> key in rc.data.Keys - todo && KeyToParentRef(key) != None
      invariant forall i :: 0 <= i < |order| ==> IsStatusOf(ours[i], rc, order[i])
    {
      var key :| key in todo;
      assert forall i :: 0 <= i < |order| ==> order[i] in rc.data.Keys - todo;
      todo := todo - {key};
      var ref := KeyToParentRef(key);
      if ref == None {
        continue;
      }
      var metas := ToMetav1Conditions(rc.data[key], now);
      ours := ours + [ParentStatus(ref.value, rc.controller, metas)];
      order := order + [key];
    }
    assert ListsStatuses(ours, rc, order);
  }

  // ---- the status list

  ghost predicate SortedByRef(parents: seq<ParentStatus>) {
    forall i, j :: 0 <= i < j < |parents| ==> !RefLess(parents[j].ref, parents[i].ref)
  }

  function OfOthers(parents: seq<ParentStatus>, controller: string): seq<ParentStatus> {
    if parents == [] then []
    else
      var n := |parents| - 1;
      OfOthers(parents[..n], controller) + if parents[n].controller != controller then [parents[n]] else []
  }

  lemma CountSnoc(s: seq<ParentStatus>, last: ParentStatus, p: ParentStatus)
    ensures multiset(s + [last])[p] == multiset(s)[p] + if p == last then 1 else 0
  {}

  lemma {:induction false} OthersCount(parents: seq<ParentStatus>, controller: string, p: ParentStatus)
    ensures multiset(OfOthers(parents, controller))[p] == if p.controller != controller then multiset(parents)[p] else 0
  {
    if parents != [] {
      var init, last := parents[..|parents| - 1], parents[|parents| - 1];
      OthersCount(init, controller, p);
      assert parents == init + [last];
      CountSnoc(init, last, p);
      if last.controller != controller {
        CountSnoc(OfOthers(init, controller), last, p);
      }
    }
  }

  /** The library sort: any arrangement of the entries that the comparator accepts. */
  method SortByParentRef(parents: seq<ParentStatus>) returns (sorted: seq<ParentStatus>)
    ensures SortedByRef(sorted) && multiset(sorted) == multiset(parents)
  {
    sorted := [];
    for i := 0 to |parents|
      invariant SortedByRef(sorted) && multiset(sorted) == multiset(parents[..i])
    {
      assert parents[..i + 1] == parents[..i] + [parents[i]];
      sorted := InsertByParentRef(sorted, parents[i]);
    }
    assert parents[..|parents|] == parents;
  }

  method InsertByParentRef(parents: seq<ParentStatus>, p: ParentStatus) returns (sorted: seq<ParentStatus>)
    requires SortedByRef(parents)
    ensures SortedByRef(sorted) && multiset(sorted) == multiset(parents) + multiset{p}
  {
    hide RefLess;
    var at := 0;
    while at < |parents| && !RefLess(p.ref, parents[at].ref)
      invariant 0 <= at <= |parents|
      invariant forall i :: 0 <= i < at ==> !RefLess(p.ref, parents[i].ref)
    {
      at := at + 1;
    }
    sorted := parents[..at] + [p] + parents[at..];
    assert parents == parents[..at] + parents[at..];
    forall i | at <= i < |parents| ensures !RefLess(parents[i].ref, p.ref) {
      RefLessStrictTotal(p.ref, parents[at].ref);
      RefLessTransitive(p.ref, parents[at].ref, parents[i].ref);
    }
  }

  /** The new list: the entries of others and one for each of ours, sorted. */
  ghost predicate IsNewStatus(before: seq<ParentStatus>, rc: RouteConditions, controller: string, after: seq<ParentStatus>) {
    SortedByRef(after) && exists ours, order :: IsMerge(before, rc, controller, after, ours, order)
  }

  ghost predicate IsMerge(before: seq<ParentStatus>, rc: RouteConditions, controller: string, after: seq<ParentStatus>,
                          ours: seq<ParentStatus>, order: seq<string>) {
    ListsStatuses(ours, rc, order) && multiset(after) == multiset(OfOthers(before, controller)) + multiset(ours)
  }

  /** When writing the status makes it recognised: our own name on it, keys that stand for
      references, conditions under their own type. */
  ghost predicate Settles(rc: RouteConditions, controller: string) {
    rc.controller == controller && forall key :: key in rc.data ==> KeyToParentRef(key) != None && FiledByKind(rc.data[key])
  }

  /** What the controller builds up keeps to: references without colons, and conditions
      under their own type. */
  ghost predicate Tidy(rc: RouteConditions) {
    forall key :: key in rc.data ==> KeyToParentRef(key) != None && OwnKinds(rc.data[key])
  }

  ghost predicate OwnKinds(m: Conditions) {
    forall k :: k in m ==> m[k].kind == k
  }

  lemma TidySettles(rc: RouteConditions)
    requires Tidy(rc)
    ensures Settles(rc, rc.controller)
  {}

  method MergeOverrideConditionsForParentRef(rc: RouteConditions, ref: ParentRef, conds: Conditions) returns (merged: RouteConditions)
    ensures var key := ParentRefToKey(ref);
            merged == rc.(data := rc.data[key := (if key in rc.data then rc.data[key] else map[]) + conds])
    ensures Tidy(rc) && OwnKinds(conds) ==> (Tidy(merged) <==> ColonFree(ref))
  {
    var key := ParentRefToKey(ref);
    var parentConds := if key in rc.data then rc.data[key] else map[];
    merged := rc.(data := rc.data[key := parentConds + conds]);
    KeyReadable(ref);
    hide KeyToParentRef, ParentRefToKey, ColonFree;
    assert key in merged.data;
  }

  method SetGeneration(m: Conditions, generation: int) returns (r: Conditions)
    ensures OwnKinds(m) ==> r == map k | k in m :: m[k].(generation := generation)
    ensures OwnKinds(m) ==> OwnKinds(r)
  {
    r := m;
    var todo := m.Keys;
    while todo != {}
      invariant todo <= m.Keys
      invariant OwnKinds(m) ==> r.Keys == m.Keys
      invariant OwnKinds(m) ==> forall k :: k in m ==> r[k] == if k in todo then m[k] else m[k].(generation := generation)
    {
      var k :| k in todo;
      todo := todo - {k};
      var condition := (if k in r then r[k] else m[k]).(generation := generation);
      r := r[condition.kind := condition];
    }
  }

  /** The generation of every condition of every parent, as far as there are any. */
  method SetRouteGeneration(rc: RouteConditions, generation: int) returns (r: RouteConditions)
    ensures r.controller == rc.controller && r.data.Keys == rc.data.Keys
    ensures forall key :: key in rc.data && OwnKinds(rc.data[key]) ==>
              r.data[key] == map k | k in rc.data[key] :: rc.data[key][k].(generation := generation)
  {
    r := rc;
    var todo := rc.data.Keys;
    while todo != {}
      invariant todo <= rc.data.Keys && r.controller == rc.controller && r.data.Keys == rc.data.Keys
      invariant forall key :: key in todo ==> r.data[key] == rc.data[key]
      invariant forall key :: key in rc.data.Keys - todo && OwnKinds(rc.data[key]) ==>
                  r.data[key] == map k | k in rc.data[key] :: rc.data[key][k].(generation := generation)
    {
      hide OwnKinds;
      var key :| key in todo;
      todo := todo - {key};
      var conds := SetGeneration(r.data[key], generation);
      r := r.(data := r.data[key := conds]);
    }
  }

  /** The route as the cluster holds it. */
  class ClusterRoute {
    var parents: seq<ParentStatus>

    constructor (parents: seq<ParentStatus>)
      ensures this.parents == parents
    {
      this.parents := parents;
    }
  }

  class StatusPatcher {
    const controller: string
    const conditions: RouteConditions

    constructor (controller: string, conditions: RouteConditions)
      ensures this.controller == controller && this.conditions == conditions
    {
      this.controller, this.conditions := controller, conditions;
    }

    ghost predicate Recognises(parents: seq<ParentStatus>) {
      SameRouteConditions(RouteConditions(FromStatuses(parents, controller), controller), conditions)
    }

    method FilterStatusByControllerName(parents: seq<ParentStatus>) returns (filtered: seq<ParentStatus>)
      ensures FromStatuses(filtered, controller) == FromStatuses(parents, controller)
    {
      hide AddStatus;
      filtered := [];
      for i := 0 to |parents|
        invariant FromStatuses(filtered, controller) == FromStatuses(parents[..i], controller)
      {
        assert parents[..i + 1][..i] == parents[..i];
        if parents[i].controller == controller {
          assert (filtered + [parents[i]])[..|filtered|] == filtered;
          filtered := filtered + [parents[i]];
        } else {
          Foreign(FromStatuses(parents[..i], controller), parents[i], controller);
        }
      }
      assert parents[..|parents|] == parents;
    }

    method StatusEqual(route: ClusterRoute) returns (equal: bool)
      ensures equal <==> Recognises(route.parents)
    {
      var filtered := FilterStatusByControllerName(route.parents);
      var clusterConds := NewRouteConditions(filtered, controller);
      equal := RouteConditionsEqual(clusterConds, conditions);
    }

    /** Whatever the status was, the new one keeps the entries of other controllers, is
        sorted, and is recognised from then on exactly when the conditions settle. */
    method SetStatus(route: ClusterRoute, now: int)
      modifies route
      ensures IsNewStatus(old(route.parents), conditions, controller, route.parents)
      ensures conditions.controller == controller ==>
                multiset(OfOthers(route.parents, controller)) == multiset(OfOthers(old(route.parents), controller))
      ensures Recognises(route.parents) <==> Settles(conditions, controller)
    {
      ghost var before := route.parents;
      var preserved: seq<ParentStatus> := [];
      for i := 0 to |route.parents|
        invariant preserved == OfOthers(route.parents[..i], controller)
        invariant route.parents == before
      {
        assert route.parents[..i + 1][..i] == route.parents[..i];
        if route.parents[i].controller != controller {
          preserved := preserved + [route.parents[i]];
        }
      }
      assert route.parents[..|route.parents|] == route.parents;
      var ours := ToV1RouteConditions(conditions, now);
      ghost var order :| ListsStatuses(ours, conditions, order);
      var sorted := SortByParentRef(preserved + ours);
      route.parents := sorted;
      assert IsMerge(before, conditions, controller, sorted, ours, order);
      NewStatusSettles(before, conditions, controller, sorted);
      if conditions.controller == controller { OthersKept(before, conditions, controller, sorted); }
    }
  }

  lemma Foreign(data: map<string, Conditions>, p: ParentStatus, controller: string)
    requires p.controller != controller
    ensures AddStatus(data, p, controller) == data
  {}

  lemma OursAreOurs(ours: seq<ParentStatus>, rc: RouteConditions, order: seq<string>)
    requires ListsStatuses(ours, rc, order)
    ensures forall i :: 0 <= i < |ours| ==> order[i] in rc.data && ParentRefToKey(ours[i].ref) == order[i] && ours[i].controller == rc.controller
    ensures forall p :: p in ours ==> p.controller == rc.controller && multiset(ours)[p] == 1
  {
    hide IsListOf;
    forall i | 0 <= i < |ours| ensures order[i] in rc.data && ParentRefToKey(ours[i].ref) == order[i] && ours[i].controller == rc.controller {
      assert IsStatusOf(ours[i], rc, order[i]);
      KeyRoundTrip(order[i]);
    }
    var all := set p | p in ours;
    DistinctMultiset(ours, all);
    assert forall p :: p in ours ==> multiset(all)[p] == 1;
  }

  lemma OthersKept(before: seq<ParentStatus>, rc: RouteConditions, controller: string, after: seq<ParentStatus>)
    requires IsNewStatus(before, rc, controller, after) && rc.controller == controller
    ensures multiset(OfOthers(after, controller)) == multiset(OfOthers(before, controller))
  {
    var ours, order :| IsMerge(before, rc, controller, after, ours, order);
    OursAreOurs(ours, rc, order);
    forall p ensures multiset(OfOthers(after, controller))[p] == multiset(OfOthers(before, controller))[p] {
      OthersCount(after, controller, p);
      OthersCount(before, controller, p);
      assert multiset(after)[p] == multiset(OfOthers(before, controller))[p] + multiset(ours)[p];
      assert multiset(ours)[p] != 0 <==> p in ours;
    }
  }

  /** No two entries of the controller for one key. */
  ghost predicate OneEach(parents: seq<ParentStatus>, controller: string) {
    forall i, j :: 0 <= i < j < |parents| && parents[i].controller == controller && parents[j].controller == controller ==>
      ParentRefToKey(parents[i].ref) != ParentRefToKey(parents[j].ref)
  }

  ghost predicate HoldsKey(parents: seq<ParentStatus>, controller: string, i: nat, key: string)
    requires i < |parents|
  {
    parents[i].controller == controller && ParentRefToKey(parents[i].ref) == key
  }

  /** `data` has a key for each entry of the controller, holding its conditions refiled. */
  ghost predicate ReadsAs(parents: seq<ParentStatus>, controller: string, data: map<string, Conditions>) {
    && (forall key :: key in data ==> exists i :: 0 <= i < |parents| && HoldsKey(parents, controller, i, key))
    && (forall i, key :: 0 <= i < |parents| && HoldsKey(parents, controller, i, key) ==>
          key in data && data[key] == FromMetas(map[], parents[i].conditions))
  }

  lemma {:induction false} FromStatusesOneEach(parents: seq<ParentStatus>, controller: string)
    requires OneEach(parents, controller)
    ensures ReadsAs(parents, controller, FromStatuses(parents, controller))
    decreases |parents|
  {
    if parents != [] {
      FromStatusesOneEach(parents[..|parents| - 1], controller);
      hide AddStatus, ReadsAs, OneEach;
      OneMoreStatus(parents, controller, FromStatuses(parents[..|parents| - 1], controller));
    }
  }

  lemma OneMoreStatus(parents: seq<ParentStatus>, controller: string, before: map<string, Conditions>)
    requires parents != [] && OneEach(parents, controller) && ReadsAs(parents[..|parents| - 1], controller, before)
    ensures ReadsAs(parents, controller, AddStatus(before, parents[|parents| - 1], controller))
  {
    hide FromMetas, ParentRefToKey;
    var n := |parents| - 1;
    var init, p := parents[..n], parents[n];
    var own := ParentRefToKey(p.ref);
    var data := AddStatus(before, p, controller);
    forall i, key | 0 <= i < n ensures HoldsKey(init, controller, i, key) <==> HoldsKey(parents, controller, i, key) {
      assert init[i] == parents[i];
    }
    assert HoldsKey(parents, controller, n, own) ==> own !in before;
    forall key | key in data ensures exists i :: 0 <= i < |parents| && HoldsKey(parents, controller, i, key) {
      if key in before {
        var i :| 0 <= i < n && HoldsKey(init, controller, i, key);
        assert HoldsKey(parents, controller, i, key);
      } else {
        assert HoldsKey(parents, controller, n, own);
      }
    }
    forall i, key | 0 <= i < |parents| && HoldsKey(parents, controller, i, key)
      ensures key in data && data[key] == FromMetas(map[], parents[i].conditions)
    {
      if i < n {
        assert HoldsKey(init, controller, i, key) && init[i] == parents[i];
      }
    }
  }

  lemma MergedHoldsOurs(before: seq<ParentStatus>, rc: RouteConditions, controller: string, after: seq<ParentStatus>,
                        ours: seq<ParentStatus>, order: seq<string>)
    requires IsMerge(before, rc, controller, after, ours, order) && rc.controller == controller
    ensures forall p :: p in after && p.controller == controller <==> p in ours
    ensures OneEach(after, controller)
  {
    OursAreOurs(ours, rc, order);
    hide ListsStatuses;
    forall p
      ensures p in after && p.controller == controller <==> p in ours
      ensures p in ours ==> multiset(after)[p] == 1
    {
      OthersCount(before, controller, p);
      assert multiset(after)[p] == multiset(OfOthers(before, controller))[p] + multiset(ours)[p];
      assert (multiset(ours)[p] != 0 <==> p in ours) && (multiset(after)[p] != 0 <==> p in after);
    }
    forall i, j | 0 <= i < j < |after| && after[i].controller == controller && after[j].controller == controller
      ensures ParentRefToKey(after[i].ref) != ParentRefToKey(after[j].ref)
    {
      assert after[i] in ours && after[j] in ours;
      var a :| 0 <= a < |ours| && ours[a] == after[i];
      var b :| 0 <= b < |ours| && ours[b] == after[j];
      if after[i] == after[j] { DuplicateCount(after, i, j); }
      assert a != b;
      KeysDiffer(ours, rc, order, a, b);
    }
  }

  lemma KeysDiffer(ours: seq<ParentStatus>, rc: RouteConditions, order: seq<string>, a: nat, b: nat)
    requires ListsStatuses(ours, rc, order) && a < |ours| && b < |ours| && a != b
    ensures ParentRefToKey(ours[a].ref) != ParentRefToKey(ours[b].ref)
  {
    OursAreOurs(ours, rc, order);
  }

  /** What the cluster's list reads back as: the keys that stand for references, each with
      its conditions refiled. */
  lemma MergedData(rc: RouteConditions, controller: string, after: seq<ParentStatus>, ours: seq<ParentStatus>, order: seq<string>)
    requires ListsStatuses(ours, rc, order) && OneEach(after, controller) && rc.controller == controller
    requires forall p :: p in after && p.controller == controller <==> p in ours
    ensures var data := FromStatuses(after, controller);
            forall key :: key in data <==> key in rc.data && KeyToParentRef(key) != None
    ensures var data := FromStatuses(after, controller);
            forall key :: key in data ==> (SameConditions(data[key], rc.data[key]) <==> FiledByKind(rc.data[key]))
  {
    OursAreOurs(ours, rc, order);
    FromStatusesOneEach(after, controller);
    var data := FromStatuses(after, controller);
    hide FromStatuses, FromMetas, OneEach, SameConditions, FiledByKind, IsListOf, KeyToParentRef, ParentRefToKey;
    forall key | key in data ensures key in order {
      var i :| 0 <= i < |after| && HoldsKey(after, controller, i, key);
      assert after[i] in ours;
      var a :| 0 <= a < |ours| && ours[a] == after[i];
    }
    forall a | 0 <= a < |order|
      ensures order[a] in data && order[a] in rc.data
      ensures SameConditions(data[order[a]], rc.data[order[a]]) <==> FiledByKind(rc.data[order[a]])
    {
      assert ours[a] in ours;
      var i :| 0 <= i < |after| && after[i] == ours[a];
      assert HoldsKey(after, controller, i, ParentRefToKey(after[i].ref));
      assert IsStatusOf(ours[a], rc, order[a]);
      RefiledListSame(ours[a].conditions, rc.data[order[a]]);
    }
  }

  lemma RefiledListSame(metas: seq<MetaCondition>, m: Conditions)
    requires IsListOf(metas, m)
    ensures SameConditions(FromMetas(map[], metas), m) <==> FiledByKind(m)
  {
    var order :| Lists(metas, m, order);
    RefiledSame(metas, m, order);
  }

  lemma MergedSettles(rc: RouteConditions, controller: string, after: seq<ParentStatus>, ours: seq<ParentStatus>, order: seq<string>)
    requires ListsStatuses(ours, rc, order) && OneEach(after, controller) && rc.controller == controller
    requires forall p :: p in after && p.controller == controller <==> p in ours
    ensures SameRouteConditions(RouteConditions(FromStatuses(after, controller), controller), rc) <==> Settles(rc, controller)
  {
    MergedData(rc, controller, after, ours, order);
    var back := RouteConditions(FromStatuses(after, controller), controller);
    hide FromStatuses, ListsStatuses, OneEach, SameRouteConditions, Settles;
    ReadBackSettles(back, rc, controller);
  }

  /** `back` is `rc` without the keys that stand for nothing, refiled. */
  ghost predicate RefiledFrom(back: RouteConditions, rc: RouteConditions) {
    && (forall key :: key in back.data <==> key in rc.data && KeyToParentRef(key) != None)
    && (forall key :: key in back.data ==> (SameConditions(back.data[key], rc.data[key]) <==> FiledByKind(rc.data[key])))
  }

  lemma ReadBackSettles(back: RouteConditions, rc: RouteConditions, controller: string)
    requires back.controller == rc.controller == controller && RefiledFrom(back, rc)
    ensures SameRouteConditions(back, rc) <==> Settles(rc, controller)
  {
    if SameRouteConditions(back, rc) {
      SameSettles(back, rc, controller);
    }
    if Settles(rc, controller) {
      SettlesSame(back, rc, controller);
    }
  }

  lemma SameSettles(back: RouteConditions, rc: RouteConditions, controller: string)
    requires back.controller == rc.controller == controller && RefiledFrom(back, rc) && SameRouteConditions(back, rc)
    ensures Settles(rc, controller)
  {
    hide FiledByKind, KeyToParentRef, SameConditions, SameAt;
    SubsetSize(back.data.Keys, rc.data.Keys);
    assert |back.data| == |back.data.Keys| && |rc.data| == |rc.data.Keys|;
    forall key | key in rc.data ensures KeyToParentRef(key) != None && FiledByKind(rc.data[key]) {
      assert key in back.data.Keys;
      assert SameAt(back, rc, key);
      SameAtKey(back, rc, key);
    }
  }

  lemma SettlesSame(back: RouteConditions, rc: RouteConditions, controller: string)
    requires back.controller == rc.controller == controller && RefiledFrom(back, rc) && Settles(rc, controller)
    ensures SameRouteConditions(back, rc)
  {
    hide FiledByKind, KeyToParentRef, SameConditions, SameAt;
    assert back.data.Keys == rc.data.Keys;
    assert |back.data| == |back.data.Keys| && |rc.data| == |rc.data.Keys|;
    forall key | key in back.data ensures SameAt(back, rc, key) {
      SameAtKey(back, rc, key);
    }
  }

  lemma SameAtKey(a: RouteConditions, b: RouteConditions, key: string)
    requires key in a.data && key in b.data && KeyToParentRef(key) != None
    ensures SameAt(a, b, key) <==> SameConditions(a.data[key], b.data[key])
  {
    hide KeyToParentRef;
    KeyRoundTrip(key);
  }

  // ---- the references a status names

  ghost function OwnRefs(parents: seq<ParentStatus>, controller: string): set<ParentRef> {
    set p | p in parents && p.controller == controller :: p.ref
  }

  /** The references the conditions are reported for. */
  ghost function ReportedRefs(rc: RouteConditions): set<ParentRef> {
    set key | key in rc.data && KeyToParentRef(key) != None :: KeyToParentRef(key).value
  }

  ghost predicate OwnPlain(parents: seq<ParentStatus>, controller: string) {
    forall ref :: ref in OwnRefs(parents, controller) ==> Plain(ref)
  }

  /** They are the plain references among those with a reported key. */
  lemma ReportedAt(rc: RouteConditions, ref: ParentRef)
    ensures ref in ReportedRefs(rc) <==> Plain(ref) && ParentRefToKey(ref) in rc.data
  {
    RefRoundTrip(ref);
    hide ParentRefToKey, Plain;
    if ref in ReportedRefs(rc) {
      var key :| key in rc.data && KeyToParentRef(key) == Some(ref);
      hide KeyToParentRef;
      KeyRoundTrip(key);
    }
  }

  lemma WrittenRefs(before: seq<ParentStatus>, rc: RouteConditions, controller: string, after: seq<ParentStatus>)
    requires IsNewStatus(before, rc, controller, after) && rc.controller == controller
    ensures OwnRefs(after, controller) == ReportedRefs(rc)
  {
    var ours, order :| IsMerge(before, rc, controller, after, ours, order);
    MergedHoldsOurs(before, rc, controller, after, ours, order);
    hide KeyToParentRef, IsListOf, OneEach;
    forall ref ensures ref in OwnRefs(after, controller) <==> ref in ReportedRefs(rc) {
      if ref in OwnRefs(after, controller) {
        var p :| p in after && p.controller == controller && p.ref == ref;
        assert p in ours;
        var i :| 0 <= i < |ours| && ours[i] == p;
        assert IsStatusOf(ours[i], rc, order[i]);
      }
      if ref in ReportedRefs(rc) {
        var key :| key in rc.data && KeyToParentRef(key) == Some(ref);
        assert key in order;
        var i :| 0 <= i < |order| && order[i] == key;
        assert IsStatusOf(ours[i], rc, order[i]) && ours[i] in ours;
      }
    }
  }

  lemma {:induction false} FromStatusesKeys(parents: seq<ParentStatus>, controller: string)
    ensures FromStatuses(parents, controller).Keys == set ref | ref in OwnRefs(parents, controller) :: ParentRefToKey(ref)
    decreases |parents|
  {
    hide FromMetas, ParentRefToKey;
    if parents != [] {
      var n := |parents| - 1;
      FromStatusesKeys(parents[..n], controller);
      assert parents == parents[..n] + [parents[n]];
      assert OwnRefs(parents, controller) == OwnRefs(parents[..n], controller) + if parents[n].controller == controller then {parents[n].ref} else {};
    }
  }

  lemma SameKeys(a: RouteConditions, b: RouteConditions)
    requires SameRouteConditions(a, b)
    ensures a.data.Keys == b.data.Keys
  {
    hide KeyToParentRef, ParentRefToKey, SameConditions;
    forall key | key in a.data ensures key in b.data {
      assert SameAt(a, b, key);
      KeyRoundTrip(key);
    }
    SubsetSize(a.data.Keys, b.data.Keys);
    assert |a.data| == |a.data.Keys| && |b.data| == |b.data.Keys|;
  }

  /** A status that is recognised, with plain references as the controller writes them,
      names the references reported. */
  lemma RecognisedRefs(parents: seq<ParentStatus>, rc: RouteConditions, controller: string)
    requires SameRouteConditions(RouteConditions(FromStatuses(parents, controller), controller), rc)
    requires OwnPlain(parents, controller)
    ensures OwnRefs(parents, controller) == ReportedRefs(rc)
  {
    hide KeyToParentRef, ParentRefToKey, Plain, SameRouteConditions, FromStatuses, OwnRefs, ReportedRefs;
    FromStatusesKeys(parents, controller);
    SameKeys(RouteConditions(FromStatuses(parents, controller), controller), rc);
    KeysDetermine(OwnRefs(parents, controller), rc);
  }

  lemma KeysDetermine(own: set<ParentRef>, rc: RouteConditions)
    requires forall ref :: ref in own ==> Plain(ref)
    requires rc.data.Keys == set ref | ref in own :: ParentRefToKey(ref)
    ensures own == ReportedRefs(rc)
  {
    hide ParentRefToKey, Plain, ReportedRefs;
    forall ref ensures ref in own <==> ref in ReportedRefs(rc) {
      ReportedAt(rc, ref);
      if ref in ReportedRefs(rc) {
        var ref' :| ref' in own && ParentRefToKey(ref') == ParentRefToKey(ref);
        SamePlainKey(ref, ref');
      }
    }
  }

  lemma SamePlainKey(a: ParentRef, b: ParentRef)
    requires Plain(a) && Plain(b) && ParentRefToKey(a) == ParentRefToKey(b)
    ensures a == b
  {
    RefRoundTrip(a);
    RefRoundTrip(b);
  }

  lemma NewStatusSettles(before: seq<ParentStatus>, rc: RouteConditions, controller: string, after: seq<ParentStatus>)
    requires IsNewStatus(before, rc, controller, after)
    ensures SameRouteConditions(RouteConditions(FromStatuses(after, controller), controller), rc) <==> Settles(rc, controller)
  {
    if rc.controller == controller {
      var ours, order :| IsMerge(before, rc, controller, after, ours, order);
      MergedHoldsOurs(before, rc, controller, after, ours, order);
      MergedSettles(rc, controller, after, ours, order);
    }
  }

  // ---- the entries a status holds

  /** The entry lists exactly these conditions. */
  ghost predicate EntryIs(p: ParentStatus, conds: Conditions) {
    && (forall c :: c in p.conditions ==> c.condition.kind in conds && conds[c.condition.kind] == c.condition)
    && (forall kind :: kind in conds ==> exists c :: c in p.conditions && c.condition == conds[kind])
  }

  ghost predicate EntriesAre(parents: seq<ParentStatus>, rc: RouteConditions, controller: string) {
    forall p :: p in parents && p.controller == controller ==>
      ParentRefToKey(p.ref) in rc.data && EntryIs(p, rc.data[ParentRefToKey(p.ref)])
  }

  /** Every condition has a type, and a type of its own. */
  ghost predicate NamedOnce(metas: seq<MetaCondition>) {
    && (forall i :: 0 <= i < |metas| ==> metas[i].condition.kind != "")
    && (forall i, j :: 0 <= i < j < |metas| ==> metas[i].condition.kind != metas[j].condition.kind)
  }

  /** What the controller leaves in a status: plain references, one entry for each, and one
      condition of each type in it. */
  ghost predicate OwnAsWritten(parents: seq<ParentStatus>, controller: string) {
    && OwnPlain(parents, controller) && OneEach(parents, controller)
    && forall p :: p in parents && p.controller == controller ==> NamedOnce(p.conditions)
  }

  ghost predicate NamedKinds(rc: RouteConditions) {
    forall key :: key in rc.data ==> OwnKinds(rc.data[key]) && "" !in rc.data[key]
  }

  lemma ListIsEntry(p: ParentStatus, conds: Conditions)
    requires IsListOf(p.conditions, conds) && OwnKinds(conds) && "" !in conds
    ensures EntryIs(p, conds) && NamedOnce(p.conditions)
  {
    var order :| Lists(p.conditions, conds, order);
    ListedKinds(p.conditions, conds, order);
    forall kind | kind in conds ensures exists c :: c in p.conditions && c.condition == conds[kind] {
      var i :| 0 <= i < |order| && order[i] == kind;
      assert p.conditions[i] in p.conditions;
    }
    forall i, j | 0 <= i < j < |order| ensures order[i] != order[j] { Different(order, i, j); }
  }

  lemma Different(order: seq<string>, i: nat, j: nat)
    requires Distinct(order) && i < j < |order|
    ensures order[i] != order[j]
  {}

  lemma WrittenEntries(before: seq<ParentStatus>, rc: RouteConditions, controller: string, after: seq<ParentStatus>)
    requires IsNewStatus(before, rc, controller, after) && rc.controller == controller && NamedKinds(rc)
    ensures EntriesAre(after, rc, controller) && OwnAsWritten(after, controller)
  {
    var ours, order :| IsMerge(before, rc, controller, after, ours, order);
    MergedHoldsOurs(before, rc, controller, after, ours, order);
    WrittenRefs(before, rc, controller, after);
    OursAreOurs(ours, rc, order);
    hide KeyToParentRef, ParentRefToKey, IsListOf, OneEach, OwnKinds, Plain, ReportedRefs, OwnRefs, IsNewStatus;
    forall ref | ref in OwnRefs(after, controller) ensures Plain(ref) {
      ReportedAt(rc, ref);
    }
    forall p | p in after && p.controller == controller
      ensures ParentRefToKey(p.ref) in rc.data && EntryIs(p, rc.data[ParentRefToKey(p.ref)]) && NamedOnce(p.conditions)
    {
      var i :| 0 <= i < |ours| && ours[i] == p;
      assert IsStatusOf(ours[i], rc, order[i]);
      ListIsEntry(p, rc.data[order[i]]);
    }
  }

  /** `m` has each condition of the list under its type, and nothing else. */
  ghost predicate ReadsBack(m: Conditions, metas: seq<MetaCondition>) {
    && (forall i :: 0 <= i < |metas| ==> metas[i].condition.kind in m && m[metas[i].condition.kind] == metas[i].condition)
    && (forall kind :: kind in m ==> kind != "" && m[kind].kind == kind && exists i :: 0 <= i < |metas| && metas[i].condition == m[kind])
  }

  lemma {:induction false} ReadNamedOnce(metas: seq<MetaCondition>)
    requires NamedOnce(metas)
    ensures ReadsBack(FromMetas(map[], metas), metas)
    decreases |metas|
  {
    if metas != [] {
      var n := |metas| - 1;
      ReadNamedOnce(metas[..n]);
      var before := FromMetas(map[], metas[..n]);
      assert FromMetas(map[], metas) == before[metas[n].condition.kind := metas[n].condition];
      hide FromMetas;
      OneMoreRead(before, metas);
    }
  }

  lemma OneMoreRead(before: Conditions, metas: seq<MetaCondition>)
    requires metas != [] && NamedOnce(metas) && ReadsBack(before, metas[..|metas| - 1])
    ensures var last := metas[|metas| - 1].condition; ReadsBack(before[last.kind := last], metas)
  {
    var n := |metas| - 1;
    var last := metas[n].condition;
    var m := before[last.kind := last];
    forall i | 0 <= i < |metas| ensures metas[i].condition.kind in m && m[metas[i].condition.kind] == metas[i].condition {
      if i < n { assert metas[..n][i] == metas[i]; }
    }
    forall kind | kind in m ensures kind != "" && m[kind].kind == kind && exists i :: 0 <= i < |metas| && metas[i].condition == m[kind] {
      if kind == last.kind {
        assert metas[n].condition == m[kind];
      } else {
        var i :| 0 <= i < n && metas[..n][i].condition == before[kind];
        assert metas[i].condition == m[kind];
      }
    }
  }

  lemma SameIsEntry(p: ParentStatus, conds: Conditions)
    requires NamedOnce(p.conditions) && OwnKinds(conds) && SameConditions(FromMetas(map[], p.conditions), conds)
    ensures EntryIs(p, conds)
  {
    ReadNamedOnce(p.conditions);
    var m := FromMetas(map[], p.conditions);
    hide FromMetas;
    forall kind | kind in m ensures kind in conds && conds[kind] == m[kind] {
      assert Read(conds, kind) == m[kind] && m[kind].kind == kind;
    }
    SubsetSize(m.Keys, conds.Keys);
    assert |m| == |m.Keys| && |conds| == |conds.Keys|;
    forall c | c in p.conditions ensures c.condition.kind in conds && conds[c.condition.kind] == c.condition {
      var i :| 0 <= i < |p.conditions| && p.conditions[i] == c;
    }
    forall kind | kind in conds ensures exists c :: c in p.conditions && c.condition == conds[kind] {
      assert kind in m.Keys;
      var i :| 0 <= i < |p.conditions| && p.conditions[i].condition == m[kind];
      assert p.conditions[i] in p.conditions;
    }
  }

  lemma RecognisedEntries(parents: seq<ParentStatus>, rc: RouteConditions, controller: string)
    requires SameRouteConditions(RouteConditions(FromStatuses(parents, controller), controller), rc)
    requires OwnAsWritten(parents, controller) && NamedKinds(rc)
    ensures EntriesAre(parents, rc, controller)
  {
    hide KeyToParentRef, ParentRefToKey, FromStatuses, FromMetas, OneEach, OwnKinds, Plain, SameConditions, SameRouteConditions, NamedOnce, EntryIs;
    forall p | p in parents && p.controller == controller
      ensures ParentRefToKey(p.ref) in rc.data && EntryIs(p, rc.data[ParentRefToKey(p.ref)])
    {
      var i :| 0 <= i < |parents| && parents[i] == p;
      ReadsEntry(parents, controller, i);
      assert p.ref in OwnRefs(parents, controller);
      RefRoundTrip(p.ref);
      SameAtEach(RouteConditions(FromStatuses(parents, controller), controller), rc, ParentRefToKey(p.ref));
      SameIsEntry(p, rc.data[ParentRefToKey(p.ref)]);
    }
  }

  lemma ReadsEntry(parents: seq<ParentStatus>, controller: string, i: nat)
    requires OneEach(parents, controller) && i < |parents| && parents[i].controller == controller
    ensures var data, key := FromStatuses(parents, controller), ParentRefToKey(parents[i].ref);
            key in data && data[key] == FromMetas(map[], parents[i].conditions)
  {
    hide ParentRefToKey, FromStatuses, FromMetas, OneEach;
    FromStatusesOneEach(parents, controller);
    assert HoldsKey(parents, controller, i, ParentRefToKey(parents[i].ref));
  }

  lemma SameAtEach(a: RouteConditions, b: RouteConditions, key: string)
    requires SameRouteConditions(a, b) && key in a.data && KeyToParentRef(key) != None
    ensures key in b.data && SameConditions(a.data[key], b.data[key])
  {
    hide KeyToParentRef, ParentRefToKey, SameConditions;
    assert SameAt(a, b, key);
    KeyRoundTrip(key);
  }
}
