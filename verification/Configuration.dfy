/** The controller's configuration, the diffs it sends each cycle, and the receiver
    that replays them. */
module Configurations {
  import ServerCommands

  // ---- one kind of section, as values

  datatype Section<V> = Section(current: map<string, V>, created: map<string, V>, updated: map<string, V>, deleted: set<string>)

  /** `Put` writes unless the value is the same; `Overwrite` writes whatever exists. */
  datatype Op<V> = Put(name: string, value: V) | Overwrite(name: string, value: V) | Remove(name: string)

  function Apply<V(==)>(s: Section<V>, op: Op<V>): Section<V> {
    match op
    case Put(n, v) =>
      if n !in s.current then s.(current := s.current[n := v], created := s.created[n := v])
      else if s.current[n] == v then s
      else s.(current := s.current[n := v], updated := s.updated[n := v])
    case Overwrite(n, v) =>
      if n in s.current then s.(current := s.current[n := v], updated := s.updated[n := v]) else s
    case Remove(n) =>
      if n in s.current then s.(current := s.current - {n}, deleted := s.deleted + {n}) else s
  }

  function ResetDiffs<V>(current: map<string, V>): Section<V> {
    Section(current, map[], map[], {})
  }

  function ApplyAll<V(==)>(s: Section<V>, ops: seq<Op<V>>): Section<V>
    decreases |ops|
  {
    if ops == [] then s else Apply(ApplyAll(s, ops[..|ops|-1]), ops[|ops|-1])
  }

  /** Create, then edit, then delete. */
  ghost function Replay<V>(start: map<string, V>, s: Section<V>): map<string, V> {
    start + s.created + s.updated - s.deleted
  }

  /** Every edit and delete names something that exists; a create of what exists edits it. */
  ghost predicate Hits<V>(start: map<string, V>, s: Section<V>) {
    s.updated.Keys <= (start + s.created).Keys
    && s.deleted <= (start + s.created + s.updated).Keys
  }

  ghost predicate Consistent<V>(start: map<string, V>, s: Section<V>) {
    forall n :: ConsistentAt(start, s, n)
  }

  ghost predicate ConsistentAt<V>(start: map<string, V>, s: Section<V>, n: string) {
    var made := start + s.created + s.updated;
    && (n !in s.deleted ==> (n in made <==> n in s.current) && (n in made ==> made[n] == s.current[n]))
    && (n in s.deleted ==> n in made)
    && (n in s.updated ==> n in start || n in s.created)
    && (n in s.created && n in start ==> n in s.deleted)
  }

  lemma {:induction false} OpsConsistent<V>(start: map<string, V>, ops: seq<Op<V>>)
    ensures Consistent(start, ApplyAll(ResetDiffs(start), ops))
    decreases |ops|
  {
    if ops != [] {
      OpsConsistent(start, ops[..|ops|-1]);
      var s := ApplyAll(ResetDiffs(start), ops[..|ops|-1]);
      var s' := Apply(s, ops[|ops|-1]);
      hide ConsistentAt, Apply, ApplyAll;
      forall n ensures ConsistentAt(start, s', n) {
        StepConsistent(start, s, ops[|ops|-1], n);
      }
    }
  }

  lemma StepConsistent<V>(start: map<string, V>, s: Section<V>, op: Op<V>, n: string)
    requires ConsistentAt(start, s, n) && ConsistentAt(start, s, op.name)
    ensures ConsistentAt(start, Apply(s, op), n)
  {}

  /** Replaying a cycle's diffs gives the controller's configuration exactly when no
      name it deleted is present again; and edits and deletes always hit. */
  lemma ReplayExact<V>(start: map<string, V>, ops: seq<Op<V>>)
    ensures var s := ApplyAll(ResetDiffs(start), ops);
            (Replay(start, s) == s.current <==> Replayable(s)) && Hits(start, s)
  {
    OpsConsistent(start, ops);
    ConsistentExact(start, ApplyAll(ResetDiffs(start), ops));
  }

  lemma ConsistentExact<V>(start: map<string, V>, s: Section<V>)
    requires Consistent(start, s)
    ensures (Replay(start, s) == s.current <==> Replayable(s)) && Hits(start, s)
  {
    var made := start + s.created + s.updated;
    forall n
      ensures n in Replay(start, s) <==> n in s.current && n !in s.deleted
      ensures n in Replay(start, s) ==> Replay(start, s)[n] == s.current[n]
      ensures n in s.updated ==> n in start + s.created
      ensures n in s.deleted ==> n in made
    {
      assert ConsistentAt(start, s, n);
    }
    assert s.updated.Keys <= (start + s.created).Keys && s.deleted <= made.Keys;
    if Replay(start, s) == s.current {
      assert s.deleted !! s.current.Keys;
    }
    if s.deleted !! s.current.Keys {
      assert Replay(start, s) == s.current;
    }
  }

  /** An existing name deleted and created again hits, but replaying drops it. */
  lemma ExistingIsDropped<V>(start: map<string, V>, name: string, v: V)
    requires name in start
    ensures var s := ApplyAll(ResetDiffs(start), [Remove(name), Put(name, v)]);
            s.current == start[name := v] && Hits(start, s) && Replay(start, s) == start - {name}
  {
    FewOps(ResetDiffs(start), Remove(name), Put(name, v), Put(name, v));
  }

  lemma FewOps<V>(s: Section<V>, a: Op<V>, b: Op<V>, c: Op<V>)
    ensures ApplyAll(s, [a, b]) == Apply(Apply(s, a), b)
    ensures ApplyAll(s, [a, b, c]) == Apply(Apply(Apply(s, a), b), c)
  {
    hide Apply;
    assert [a, b, c][..2] == [a, b] && [a, b][..1] == [a] && [a][..0] == [];
    assert ApplyAll(s, [a]) == Apply(s, a);
    assert ApplyAll(s, [a, b]) == Apply(ApplyAll(s, [a]), b);
  }

  /** A new name created, deleted and created again hits, but replaying drops it. */
  lemma RecreatedIsDropped<V>(start: map<string, V>, name: string, u: V, v: V)
    requires name !in start
    ensures var s := ApplyAll(ResetDiffs(start), [Put(name, u), Remove(name), Put(name, v)]);
            s.current == start[name := v] && Hits(start, s) && Replay(start, s) == start
  {
    FewOps(ResetDiffs(start), Put(name, u), Remove(name), Put(name, v));
  }

  /** A cycle is replayable when nothing that its diffs delete remains. */
  ghost predicate Replayable<V>(s: Section<V>) {
    s.deleted !! s.current.Keys
  }

  /** The state of a cycle so far: consistent diffs that replay to the configuration. */
  ghost predicate Followed<V>(start: map<string, V>, s: Section<V>) {
    Consistent(start, s) && Replayable(s)
  }

  lemma ResetFollowed<V>(start: map<string, V>)
    ensures Followed(start, ResetDiffs(start))
  {}

  lemma FollowedIsReceived<V>(start: map<string, V>, s: Section<V>)
    requires Followed(start, s)
    ensures Hits(start, s) && Replay(start, s) == s.current
  {
    ConsistentExact(start, s);
  }

  /** A name the receiver never got, because the transaction that created it failed: as soon
      as a cycle drops or changes it without creating it anew, that cycle is refused. */
  lemma LostNameRefuses<V>(start: map<string, V>, received: map<string, V>, s: Section<V>, n: string)
    requires Followed(start, s) && n in start && n !in received && n !in s.created
    requires n in s.current ==> s.current[n] != start[n]
    ensures !Hits(received, s)
  {
    assert ConsistentAt(start, s, n);
    assert n in s.updated || n in s.deleted;
    assert n !in (received + s.created).Keys;
  }

  /** Anything but creating what was deleted in the same cycle keeps it so. */
  lemma StepFollowed<V>(start: map<string, V>, s: Section<V>, op: Op<V>)
    requires Followed(start, s) && (op.Put? ==> op.name !in s.deleted)
    ensures Followed(start, Apply(s, op))
  {
    hide ConsistentAt;
    forall n ensures ConsistentAt(start, Apply(s, op), n) {
      StepConsistent(start, s, op, n);
    }
  }

  /** No name is created again after its deletion in the same cycle. */
  ghost predicate NoResurrection<V>(start: map<string, V>, ops: seq<Op<V>>) {
    forall i :: 0 <= i < |ops| && ops[i].Put? ==>
      var s := ApplyAll(ResetDiffs(start), ops[..i]);
      ops[i].name !in s.current ==> ops[i].name !in s.deleted
  }

  lemma {:induction false} NoResurrectionReplayable<V>(start: map<string, V>, ops: seq<Op<V>>)
    requires NoResurrection(start, ops)
    ensures Replayable(ApplyAll(ResetDiffs(start), ops))
    decreases |ops|
  {
    if ops != [] {
      var init := ops[..|ops|-1];
      forall i | 0 <= i < |init| && init[i].Put?
        ensures var s := ApplyAll(ResetDiffs(start), init[..i]); init[i].name !in s.current ==> init[i].name !in s.deleted
      {
        assert init[..i] == ops[..i] && ops[i].Put?;
      }
      NoResurrectionReplayable(start, init);
    }
  }

  // ---- the cycle of the backends: upserts, then deletions, twice over the same queues

  ghost predicate OnlyPuts<V>(ops: seq<Op<V>>) {
    forall i :: 0 <= i < |ops| ==> ops[i].Put?
  }

  ghost predicate NoPuts<V>(ops: seq<Op<V>>) {
    forall i :: 0 <= i < |ops| ==> !ops[i].Put?
  }

  ghost function Names<V>(ops: seq<Op<V>>): set<string> {
    set i | 0 <= i < |ops| :: ops[i].name
  }

  ghost function Removed<V>(ops: seq<Op<V>>): set<string> {
    set i | 0 <= i < |ops| && ops[i].Remove? :: ops[i].name
  }

  lemma {:induction false} ApplyAllConcat<V>(s: Section<V>, a: seq<Op<V>>, b: seq<Op<V>>)
    ensures ApplyAll(s, a + b) == ApplyAll(ApplyAll(s, a), b)
    decreases |b|
  {
    hide Apply;
    if b == [] {
      assert a + b == a;
    } else {
      var n := |b| - 1;
      ApplyAllConcat(s, a, b[..n]);
      assert (a + b)[..|a + b| - 1] == a + b[..n];
    }
  }

  lemma {:induction false} PutsEffect<V>(s: Section<V>, ops: seq<Op<V>>)
    requires OnlyPuts(ops)
    ensures var s' := ApplyAll(s, ops);
            && s'.current.Keys == s.current.Keys + Names(ops)
            && s'.created.Keys == s.created.Keys + (Names(ops) - s.current.Keys)
            && s'.deleted == s.deleted
    decreases |ops|
  {
    if ops != [] {
      var n := |ops| - 1;
      PutsEffect(s, ops[..n]);
      NamesSnoc(ops[..n], ops[n]);
      assert ops == ops[..n] + [ops[n]];
      hide Names, ApplyAll, Apply;
      LastOp(s, ops);
      PutEffect(ApplyAll(s, ops[..n]), ops[n].name, ops[n].value);
    }
  }

  lemma PutEffect<V>(s: Section<V>, name: string, v: V)
    ensures var s' := Apply(s, Put(name, v));
            && s'.current.Keys == s.current.Keys + {name}
            && s'.created.Keys == s.created.Keys + ({name} - s.current.Keys)
            && s'.deleted == s.deleted
  {}

  /** What an operation leaves under its name, and that it leaves the others alone. */
  lemma OpValue<V>(s: Section<V>, name: string, v: V)
    ensures Apply(s, Put(name, v)).current == s.current[name := v]
    ensures Apply(s, Overwrite(name, v)).current == (if name in s.current then s.current[name := v] else s.current)
    ensures Apply(s, Overwrite(name, v)).updated == (if name in s.current then s.updated[name := v] else s.updated)
    ensures Apply(s, Remove(name)).current == s.current - {name}
  {}

  lemma LastOp<V>(s: Section<V>, ops: seq<Op<V>>)
    requires ops != []
    ensures ApplyAll(s, ops) == Apply(ApplyAll(s, ops[..|ops| - 1]), ops[|ops| - 1])
  {}

  lemma NamesSnoc<V>(ops: seq<Op<V>>, op: Op<V>)
    ensures Names(ops + [op]) == Names(ops) + {op.name}
    ensures Removed(ops + [op]) == Removed(ops) + if op.Remove? then {op.name} else {}
  {
    var all := ops + [op];
    forall n | n in Names(ops) ensures n in Names(all) {
      var i :| 0 <= i < |ops| && ops[i].name == n;
      assert all[i].name == n;
    }
    forall n | n in Removed(ops) ensures n in Removed(all) {
      var i :| 0 <= i < |ops| && ops[i].Remove? && ops[i].name == n;
      assert all[i].name == n;
    }
    assert all[|ops|].name == op.name;
  }

  lemma {:induction false} DeletesEffect<V>(s: Section<V>, ops: seq<Op<V>>)
    requires NoPuts(ops)
    ensures var s' := ApplyAll(s, ops);
            && s'.current.Keys == s.current.Keys - Removed(ops)
            && s'.created == s.created
            && s.deleted <= s'.deleted <= s.deleted + Removed(ops)
    decreases |ops|
  {
    if ops != [] {
      var n := |ops| - 1;
      DeletesEffect(s, ops[..n]);
      NamesSnoc(ops[..n], ops[n]);
      assert ops == ops[..n] + [ops[n]];
      hide Removed, ApplyAll;
      assert ApplyAll(s, ops) == Apply(ApplyAll(s, ops[..n]), ops[n]) by { LastOp(s, ops); }
    }
  }

  /** Backends are upserted and then deleted twice in a cycle, once after the HTTP and once
      after the TLS routes, from queues that only grow in between. What the first pass deletes
      and the second creates again is deleted again, so nothing deleted remains. */
  lemma TwoPassesReplayable<V>(start: map<string, V>, u1: seq<Op<V>>, w1: seq<Op<V>>, u2: seq<Op<V>>, w2: seq<Op<V>>)
    requires OnlyPuts(u1) && NoPuts(w1) && OnlyPuts(u2) && NoPuts(w2) && Removed(w1) <= Removed(w2)
    ensures var s := ApplyAll(ResetDiffs(start), u1 + w1 + u2 + w2);
            Replayable(s) && s.current.Keys == start.Keys + Names(u1) + Names(u2) - Removed(w2)
  {
    var s0 := ResetDiffs(start);
    ApplyAllConcat(s0, u1 + w1 + u2, w2);
    ApplyAllConcat(s0, u1 + w1, u2);
    ApplyAllConcat(s0, u1, w1);
    var s1 := ApplyAll(s0, u1);
    var s2 := ApplyAll(s1, w1);
    var s3 := ApplyAll(s2, u2);
    PutsEffect(s0, u1);
    DeletesEffect(s1, w1);
    PutsEffect(s2, u2);
    DeletesEffect(s3, w2);
  }

  /** The states of the controller after each cycle. */
  function AfterCycles<V(==)>(start: map<string, V>, cycles: seq<seq<Op<V>>>): map<string, V>
    decreases |cycles|
  {
    if cycles == [] then start
    else ApplyAll(ResetDiffs(AfterCycles(start, cycles[..|cycles|-1])), cycles[|cycles|-1]).current
  }

  /** What a receiver that replays every cycle's diffs holds. */
  ghost function Received<V>(start: map<string, V>, cycles: seq<seq<Op<V>>>): map<string, V>
    decreases |cycles|
  {
    if cycles == [] then start
    else
      var init := cycles[..|cycles|-1];
      Replay(Received(start, init), ApplyAll(ResetDiffs(AfterCycles(start, init)), cycles[|cycles|-1]))
  }

  /** The section at the end of cycle i. */
  ghost function CycleSection<V>(start: map<string, V>, cycles: seq<seq<Op<V>>>, i: nat): Section<V>
    requires i < |cycles|
  {
    ApplyAll(ResetDiffs(AfterCycles(start, cycles[..i])), cycles[i])
  }

  ghost predicate TrackedAt<V>(start: map<string, V>, cycles: seq<seq<Op<V>>>, n: nat)
    requires n <= |cycles|
  {
    Received(start, cycles[..n]) == AfterCycles(start, cycles[..n])
  }

  /** The receiver has the controller's configuration after every cycle of a run if and only
      if every cycle is replayable. */
  lemma ReceiverTracks<V>(start: map<string, V>, cycles: seq<seq<Op<V>>>)
    ensures (forall n :: 0 <= n <= |cycles| ==> TrackedAt(start, cycles, n))
       <==> (forall i :: 0 <= i < |cycles| ==> Replayable(CycleSection(start, cycles, i)))
  {
    hide CycleSection, Replayable, TrackedAt;
    if forall i :: 0 <= i < |cycles| ==> Replayable(CycleSection(start, cycles, i)) {
      forall n | 0 <= n <= |cycles| ensures TrackedAt(start, cycles, n) {
        TrackedUpTo(start, cycles, n);
      }
    }
    if forall n :: 0 <= n <= |cycles| ==> TrackedAt(start, cycles, n) {
      forall i | 0 <= i < |cycles| ensures Replayable(CycleSection(start, cycles, i)) {
        assert TrackedAt(start, cycles, i) && TrackedAt(start, cycles, i + 1);
        TrackedStep(start, cycles, i);
      }
    }
  }

  lemma {:induction false} TrackedUpTo<V>(start: map<string, V>, cycles: seq<seq<Op<V>>>, n: nat)
    requires n <= |cycles| && forall i :: 0 <= i < |cycles| ==> Replayable(CycleSection(start, cycles, i))
    ensures TrackedAt(start, cycles, n)
  {
    hide CycleSection, Replayable;
    if n > 0 {
      hide TrackedAt;
      TrackedUpTo(start, cycles, n - 1);
      TrackedStep(start, cycles, n - 1);
    }
  }

  lemma TrackedStep<V>(start: map<string, V>, cycles: seq<seq<Op<V>>>, i: nat)
    requires i < |cycles| && TrackedAt(start, cycles, i)
    ensures TrackedAt(start, cycles, i + 1) <==> Replayable(CycleSection(start, cycles, i))
  {
    hide ApplyAll, Replay, Hits;
    assert cycles[..i + 1][..i] == cycles[..i];
    ReplayExact(AfterCycles(start, cycles[..i]), cycles[i]);
  }

  // ---- the controller's configuration

  datatype Frontend = Frontend(name: string, settings: string)

  datatype Server = Server(address: string, port: int)

  datatype Backend = Backend(name: string, settings: string, metadata: string, servers: map<string, Server>)

  class Configuration {
    var frontends: map<string, Frontend>
    var createdFrontends: map<string, Frontend>
    var updatedFrontends: map<string, Frontend>
    var deletedFrontends: set<string>
    var backends: map<string, Backend>
    var createdBackends: map<string, Backend>
    var updatedBackends: map<string, Backend>
    var deletedBackends: set<string>

    ghost function Frontends(): Section<Frontend>
      reads this
    {
      Section(frontends, createdFrontends, updatedFrontends, deletedFrontends)
    }

    ghost function Backends(): Section<Backend>
      reads this
    {
      Section(backends, createdBackends, updatedBackends, deletedBackends)
    }

    constructor (frontends: map<string, Frontend>, backends: map<string, Backend>)
      ensures Frontends() == ResetDiffs(frontends) && Backends() == ResetDiffs(backends)
    {
      this.frontends, this.backends := frontends, backends;
      createdFrontends, updatedFrontends, deletedFrontends := map[], map[], {};
      createdBackends, updatedBackends, deletedBackends := map[], map[], {};
    }

    method ResetAllDiffs()
      modifies this
      ensures Frontends() == ResetDiffs(old(frontends)) && Backends() == ResetDiffs(old(backends))
    {
      createdFrontends, updatedFrontends, deletedFrontends := map[], map[], {};
      createdBackends, updatedBackends, deletedBackends := map[], map[], {};
    }

    method UpsertFrontend(fe: Frontend)
      modifies this
      ensures Frontends() == Apply(old(Frontends()), Put(fe.name, fe)) && Backends() == old(Backends())
    {
      if fe.name in frontends {
        if frontends[fe.name] == fe {
          return;
        }
        updatedFrontends := updatedFrontends[fe.name := fe];
        frontends := frontends[fe.name := fe];
      } else {
        frontends := frontends[fe.name := fe];
        createdFrontends := createdFrontends[fe.name := fe];
      }
    }

    method DeleteFrontend(name: string)
      requires name in frontends ==> frontends[name].name == name
      modifies this
      ensures Frontends() == Apply(old(Frontends()), Remove(name)) && Backends() == old(Backends())
    {
      if name !in frontends {
        return;
      }
      deletedFrontends := deletedFrontends + {frontends[name].name};
      frontends := frontends - {name};
    }

    /** Servers are managed apart: the comparison ignores them and an update keeps those
        the backend has. */
    method UpsertBackend(be: Backend)
      modifies this
      ensures Frontends() == old(Frontends())
      ensures Backends() == Apply(old(Backends()),
                Put(be.name, if be.name in old(backends) then be.(servers := old(backends)[be.name].servers) else be))
    {
      if be.name in backends {
        var previous := backends[be.name];
        if previous == be.(servers := previous.servers) {
          return;
        }
        var kept := be.(servers := previous.servers);
        updatedBackends := updatedBackends[be.name := kept];
        backends := backends[be.name := kept];
      } else {
        backends := backends[be.name := be];
        createdBackends := createdBackends[be.name := be];
      }
    }

    /** Servers that disappear are put in maintenance at runtime. */
    method UpsertBackendWithServers(name: string, servers: map<string, Server>) returns (maintenance: seq<ServerCommands.ServerState>, err: bool)
      requires name in backends ==> backends[name].name == name
      modifies this
      ensures Frontends() == old(Frontends())
      ensures err <==> name !in old(backends)
      ensures Backends() == if err then old(Backends())
                            else Apply(old(Backends()), Put(name, old(backends)[name].(servers := servers)))
      ensures err ==> maintenance == []
      ensures !err ==> forall st :: st in maintenance <==>
        st == ServerCommands.ServerState(name, st.server, "127.0.0.1", "maint", 1) && st.server in old(backends)[name].servers.Keys - servers.Keys
    {
      maintenance, err := [], name !in backends;
      if err {
        return;
      }
      var backup := backends[name];
      var be := backup.(servers := servers);
      if backup.servers == be.servers {
        return;
      }
      updatedBackends := updatedBackends[be.name := be];
      backends := backends[be.name := be];
      var deletedServers := backup.servers.Keys - servers.Keys;
      var todo := deletedServers;
      while todo != {}
        invariant todo <= deletedServers
        invariant forall st :: st in maintenance <==>
          st == ServerCommands.ServerState(name, st.server, "127.0.0.1", "maint", 1) && st.server in deletedServers - todo
      {
        var s :| s in todo;
        maintenance := maintenance + [ServerCommands.ServerState(be.name, s, "127.0.0.1", "maint", 1)];
        todo := todo - {s};
      }
    }

    method UpsertBackendMetadata(name: string, md: string)
      modifies this
      ensures Frontends() == old(Frontends())
      ensures Backends() == if name in old(backends)
                            then Apply(old(Backends()), Overwrite(name, old(backends)[name].(metadata := md)))
                            else old(Backends())
    {
      if name in backends {
        var be := backends[name].(metadata := md);
        updatedBackends := updatedBackends[name := be];
        backends := backends[name := be];
      }
    }

    method DeleteBackend(name: string)
      requires name in backends ==> backends[name].name == name
      modifies this
      ensures Backends() == Apply(old(Backends()), Remove(name)) && Frontends() == old(Frontends())
    {
      if name !in backends {
        return;
      }
      deletedBackends := deletedBackends + {backends[name].name};
      backends := backends - {name};
    }
  }

  // ---- the receiver

  class Receiver {
    var frontends: map<string, Frontend>
    var backends: map<string, Backend>
    /** The last transaction could not be started or committed, or the library failed in
        between. */
    var failed: bool

    constructor (frontends: map<string, Frontend>, backends: map<string, Backend>)
      ensures this.frontends == frontends && this.backends == backends && !failed
    {
      this.frontends, this.backends, failed := frontends, backends, false;
    }

    /** All in one transaction: committed as a whole, or nothing changes. */
    method ApplyCfgUpdates(fe: Section<Frontend>, be: Section<Backend>) returns (err: bool)
      modifies this
      ensures err <==> failed || !(Hits(old(frontends), fe) && Hits(old(backends), be))
      ensures err ==> frontends == old(frontends) && backends == old(backends)
      ensures !err ==> frontends == Replay(old(frontends), fe) && backends == Replay(old(backends), be)
    {
      failed := *;
      if failed { return true; }
      var f, errF := CreateAll(frontends, fe.created);
      var b, errB := CreateAll(backends, be.created);
      if errF || errB { return true; }
      f, errF := EditAll(f, fe.updated);
      b, errB := EditAll(b, be.updated);
      if errF || errB { return true; }
      f, errF := DeleteAll(f, fe.deleted);
      b, errB := DeleteAll(b, be.deleted);
      if errF || errB { return true; }
      failed := *;
      if failed { return true; }
      frontends, backends := f, b;
      err := false;
    }

    /** The library creates only what does not exist and edits only what does. */
    static method CreateSection<V>(config: map<string, V>, name: string, v: V) returns (r: map<string, V>, err: bool)
      ensures err <==> name in config
      ensures r == if err then config else config[name := v]
    {
      err := name in config;
      r := if err then config else config[name := v];
    }

    static method EditSection<V>(config: map<string, V>, name: string, v: V) returns (r: map<string, V>, err: bool)
      ensures err <==> name !in config
      ensures r == if err then config else config[name := v]
    {
      err := name !in config;
      r := if err then config else config[name := v];
    }

    /** A create that fails is tried as an edit, and so it never is an error that the name
        exists. */
    static method Create<V>(config: map<string, V>, name: string, v: V) returns (r: map<string, V>, err: bool)
      ensures !err && r == config[name := v]
    {
      var errCreate;
      r, errCreate := CreateSection(config, name, v);
      err := false;
      if errCreate {
        r, err := EditSection(config, name, v);
      }
    }

    static method CreateAll<V>(config: map<string, V>, created: map<string, V>) returns (r: map<string, V>, err: bool)
      ensures !err && r == config + created
    {
      r, err := config, false;
      var todo := created.Keys;
      while todo != {}
        invariant todo <= created.Keys && !err
        invariant r == config + map n | n in created && n !in todo :: created[n]
      {
        var n :| n in todo;
        todo := todo - {n};
        var errN;
        r, errN := Create(r, n, created[n]);
        err := err || errN;
      }
    }

    /** A name that is missing is skipped and reported. */
    static method EditAll<V>(config: map<string, V>, updated: map<string, V>) returns (r: map<string, V>, err: bool)
      ensures err <==> !(updated.Keys <= config.Keys)
      ensures !err ==> r == config + updated
    {
      r, err := config, false;
      var todo := updated.Keys;
      while todo != {}
        invariant todo <= updated.Keys && r.Keys == config.Keys
        invariant err <==> !(updated.Keys - todo <= config.Keys)
        invariant !err ==> r == config + map n | n in updated && n !in todo :: updated[n]
      {
        var n :| n in todo;
        todo := todo - {n};
        var errN;
        r, errN := EditSection(r, n, updated[n]);
        if errN {
          err := true;
          assert n in updated.Keys - todo && n !in config.Keys;
        }
      }
      assert updated.Keys - todo == updated.Keys;
    }

    static method DeleteAll<V>(config: map<string, V>, deleted: set<string>) returns (r: map<string, V>, err: bool)
      ensures err <==> !(deleted <= config.Keys)
      ensures !err ==> r == config - deleted
    {
      r, err := config, false;
      var todo := deleted;
      while todo != {}
        invariant todo <= deleted && r.Keys == config.Keys - (deleted - todo)
        invariant err <==> !(deleted - todo <= config.Keys)
        invariant !err ==> r == config - (deleted - todo)
      {
        var n :| n in todo;
        todo := todo - {n};
        if n !in r {
          err := true;
          assert n in deleted - todo && n !in config.Keys;
          continue;
        }
        r := r - {n};
      }
      assert deleted - todo == deleted;
    }
  }

  /** The controller and its receiver after one cycle of arbitrary calls: accepted unless the
      transaction fails, and then equal exactly when the cycle is replayable. */
  method SendCycle(c: Configuration, r: Receiver, ghost startF: map<string, Frontend>, ghost startB: map<string, Backend>,
                   ghost opsF: seq<Op<Frontend>>, ghost opsB: seq<Op<Backend>>) returns (err: bool)
    requires r.frontends == startF && r.backends == startB
    requires c.Frontends() == ApplyAll(ResetDiffs(startF), opsF) && c.Backends() == ApplyAll(ResetDiffs(startB), opsB)
    modifies r
    ensures err <==> r.failed
    ensures !err ==> (r.frontends == c.frontends && r.backends == c.backends <==> Replayable(c.Frontends()) && Replayable(c.Backends()))
    ensures err ==> r.frontends == startF && r.backends == startB
  {
    ReplayExact(startF, opsF);
    ReplayExact(startB, opsB);
    err := r.ApplyCfgUpdates(Section(c.frontends, c.createdFrontends, c.updatedFrontends, c.deletedFrontends),
                             Section(c.backends, c.createdBackends, c.updatedBackends, c.deletedBackends));
  }

  /** A backend the receiver has, deleted and upserted in one cycle: accepted, and absent at
      the receiver although the controller has it. */
  method RecreateExisting(r: Receiver, be: Backend) returns (err: bool, c: Configuration)
    requires be.name in r.backends && r.backends[be.name].name == be.name
    modifies r
    ensures err <==> r.failed
    ensures be.name in c.backends && (!err ==> be.name !in r.backends)
  {
    c := new Configuration(r.frontends, r.backends);
    c.DeleteBackend(be.name);
    c.UpsertBackend(be);
    FewOps(ResetDiffs(r.backends), Remove(be.name), Put(be.name, be), Put(be.name, be));
    ExistingIsDropped(r.backends, be.name, be);
    err := r.ApplyCfgUpdates(Section(c.frontends, c.createdFrontends, c.updatedFrontends, c.deletedFrontends),
                             Section(c.backends, c.createdBackends, c.updatedBackends, c.deletedBackends));
  }

  /** A backend the receiver does not have, upserted, deleted and upserted again: accepted,
      and absent at the receiver although the controller has it. */
  method RecreateNew(r: Receiver, be: Backend) returns (err: bool, c: Configuration)
    requires be.name !in r.backends
    modifies r
    ensures err <==> r.failed
    ensures be.name in c.backends && be.name !in r.backends
  {
    c := new Configuration(r.frontends, r.backends);
    c.UpsertBackend(be);
    c.DeleteBackend(be.name);
    c.UpsertBackend(be);
    hide Apply;
    FewOps(ResetDiffs(r.backends), Put(be.name, be), Remove(be.name), Put(be.name, be));
    RecreatedIsDropped(r.backends, be.name, be, be);
    err := r.ApplyCfgUpdates(Section(c.frontends, c.createdFrontends, c.updatedFrontends, c.deletedFrontends),
                             Section(c.backends, c.createdBackends, c.updatedBackends, c.deletedBackends));
  }
}
