/** The builders of the secret tree and of the certificate diffs. Every loop picks the
    next map entry arbitrarily, as Go's map iteration does. */
module CertificateBuilders {
  import opened Wrappers
  import opened Keys
  import opened GatewayApi
  import opened ObjectStores
  import opened References
  import opened CertificateSpec
  import opened CertificateStorages
  import opened Sets

  /** Objects are stored under their own key. */
  ghost predicate LegalSecret(s: Secret, k: ObjectKey) {
    s.key == k && !HasBundle(s)
  }

  ghost predicate LegalUpdates(updates: SecretUpdates) {
    forall k :: k in updates ==>
      && updates[k].status != Unchanged
      && (updates[k].status == Upserted <==> updates[k].newObject.Some?)
      && (updates[k].newObject.Some? ==> LegalSecret(updates[k].newObject.value, k))
  }

  ghost predicate LegalTree(tree: Tree) {
    forall k :: Live(tree, k) ==> tree[k].resource.Some? && LegalSecret(tree[k].resource.value, k)
  }

  ghost predicate LegalRefs(refs: set<Ref>) {
    forall p :: p in refs ==> LegalSecretKey(p.0) && LegalListenerKey(p.1)
  }

  class SecretBuilder {
    var secrets: Tree

    constructor ()
      ensures secrets == map[]
    {
      secrets := map[];
    }

    method CleanTreeUpdates()
      modifies this
      ensures secrets == CleanTree(old(secrets))
    {
      var todo := secrets.Keys;
      ghost var before := secrets;
      while todo != {}
        invariant todo <= before.Keys
        invariant forall k :: k in todo ==> k in secrets && secrets[k] == before[k]
        invariant forall k :: k !in todo ==> Lookup(secrets, k) == Lookup(CleanTree(before), k)
      {
        var k :| k in todo;
        todo := todo - {k};
        if secrets[k].status == Deleted {
          secrets := secrets - {k};
        } else {
          secrets := secrets[k := secrets[k].(status := Unchanged, previous := None)];
        }
      }
      SameLookups(secrets, CleanTree(before));
    }

    method ComputeTreeUpdates(updates: SecretUpdates)
      requires LegalUpdates(updates)
      modifies this
      ensures secrets == UpdateTree(old(secrets), updates)
    {
      var todo := updates.Keys;
      ghost var before := secrets;
      while todo != {}
        invariant todo <= updates.Keys
        invariant forall k :: k in todo ==> Lookup(secrets, k) == Lookup(before, k)
        invariant forall k :: k !in todo ==> Lookup(secrets, k) == Lookup(UpdateTree(before, updates), k)
      {
        var k :| k in todo;
        ComputeTreeSecretUpdate(k, updates[k]);
        todo := todo - {k};
      }
      SameLookups(secrets, UpdateTree(before, updates));
    }

    method ComputeTreeSecretUpdate(k: ObjectKey, u: Update<Secret>)
      requires u.status == Upserted ==> u.newObject.Some? && u.newObject.value.key == k
      modifies this
      ensures Lookup(secrets, k) == UpdateEntry(Lookup(old(secrets), k), u)
      ensures forall k' :: k' != k ==> Lookup(secrets, k') == Lookup(old(secrets), k')
    {
      var treeSecret := Lookup(secrets, k);
      match u.status {
        case Upserted =>
          if treeSecret.Some? {
            treeSecret := Some(TreeSecret(u.newObject, Upserted, treeSecret.value.resource));
          } else {
            treeSecret := Some(TreeSecret(u.newObject, Upserted, None));
          }
          secrets := secrets[u.newObject.value.key := treeSecret.value];
        case Deleted =>
          if treeSecret.Some? {
            secrets := secrets[k := TreeSecret(None, Deleted, treeSecret.value.resource)];
          }
        case Unchanged =>
      }
    }
  }

  /** The crt-list contents for sets of secrets. */
  ghost function Rendered(base: string, m: map<ObjectKey, set<ObjectKey>>): map<ObjectKey, seq<string>> {
    map l | l in m :: CrtListContent(base, m[l])
  }

  lemma RenderedAll(base: string, m: map<ObjectKey, set<ObjectKey>>)
    ensures Rendered(base, m).Keys == m.Keys && forall l :: l in m ==> Rendered(base, m)[l] == CrtListContent(base, m[l])
  {
    hide CrtListContent;
  }

  ghost predicate LegalSecretKeys(keys: set<ObjectKey>) {
    forall k :: k in keys ==> LegalSecretKey(k)
  }

  ghost predicate LegalListeners(m: map<ObjectKey, set<ObjectKey>>) {
    forall l :: l in m ==> LegalListenerKey(l) && LegalSecretKeys(m[l])
  }

  lemma LegalSecretsOf(m: map<ObjectKey, set<ObjectKey>>, l: ObjectKey)
    requires LegalListeners(m) && l in m
    ensures LegalSecretKeys(m[l])
  {}

  class CertificateBuilder {
    const storage: CertificateStorage
    var created: map<ObjectKey, bytes>
    var updated: map<ObjectKey, bytes>
    var deleted: set<ObjectKey>
    var createdLists: map<ObjectKey, seq<string>>
    var updatedLists: map<ObjectKey, seq<string>>
    var deletedLists: set<ObjectKey>

    constructor (storage: CertificateStorage)
      ensures this.storage == storage && Empty()
    {
      this.storage := storage;
      created, updated, deleted := map[], map[], {};
      createdLists, updatedLists, deletedLists := map[], map[], {};
    }

    ghost predicate Empty()
      reads this
    {
      created == map[] && updated == map[] && deleted == {} && createdLists == map[] && updatedLists == map[] && deletedLists == {}
    }

    method ResetUpdates()
      modifies this
      ensures Empty()
    {
      created, updated, deleted := map[], map[], {};
      createdLists, updatedLists, deletedLists := map[], map[], {};
    }

    // ---- certificates

    method HandleNewReferencedSecretsStorage(prev: set<ObjectKey>, cur: set<ObjectKey>, tree: Tree)
      requires LegalTree(tree) && LegalSecretKeys(cur)
      modifies this`created
      ensures created == old(created) + NewRefCerts(tree, cur - prev)
    {
      hide CertPath, NewRefCerts, TlsContent, HasBundle;
      assert NewRefCerts(tree, {}) == map[] by { NoNewRefs(tree); }
      var newlyReferenced := SetDifference(cur, prev);
      var todo := newlyReferenced;
      assert newlyReferenced - todo == {};
      while todo != {}
        invariant todo <= newlyReferenced
        invariant created == old(created) + NewRefCerts(tree, newlyReferenced - todo)
      {
        var k :| k in todo;
        OneMoreNewRef(tree, newlyReferenced - todo, k);
        assert newlyReferenced - (todo - {k}) == (newlyReferenced - todo) + {k};
        todo := todo - {k};
        if k !in tree {
          continue;
        }
        if tree[k].status == Deleted {
          continue;
        }
        var certData := storage.NewTlsCertificateData(tree[k].resource.value);
        if certData == None {
          continue;
        }
        created := created[k := certData.value.data];
      }
      assert newlyReferenced - todo == newlyReferenced;
    }

    static lemma NoNewRefs(tree: Tree)
      ensures NewRefCerts(tree, {}) == map[]
    {}

    static lemma OneMoreNewRef(tree: Tree, done: set<ObjectKey>, k: ObjectKey)
      requires LegalTree(tree)
      ensures NewRefCerts(tree, done + {k}) ==
              if Live(tree, k) && TlsContent(tree[k].resource.value).Some?
              then NewRefCerts(tree, done)[k := TlsContent(tree[k].resource.value).value]
              else NewRefCerts(tree, done)
    {}

    method HandleDeReferencedSecretsStorage(prev: set<ObjectKey>, cur: set<ObjectKey>)
      modifies this`deleted
      ensures deleted == old(deleted) + (prev - cur)
    {
      var deReferenced := SetDifference(prev, cur);
      var todo := deReferenced;
      while todo != {}
        invariant todo <= deReferenced
        invariant deleted == old(deleted) + (deReferenced - todo)
      {
        var k :| k in todo;
        deleted := deleted + {k};
        todo := todo - {k};
      }
    }

    method HandleUpdatedSecretsStorage(prev: set<ObjectKey>, cur: set<ObjectKey>, updates: SecretUpdates)
      requires LegalUpdates(updates) && LegalSecretKeys(cur)
      modifies this`created, this`updated, this`deleted
      ensures created == old(created) + UpsertedCerts(updates, prev * cur, true)
      ensures updated == old(updated) + UpsertedCerts(updates, prev * cur, false)
      ensures deleted == old(deleted) + DeletedSecrets(updates, prev * cur)
    {
      hide TlsContent, UpsertedCerts, DeletedSecrets;
      NoUpdates(updates);
      var both := SetIntersection(prev, cur);
      var todo := both;
      assert both - todo == {};
      while todo != {}
        invariant todo <= both
        invariant Handled(updates, both - todo, old(created), old(updated), old(deleted))
      {
        var k :| k in todo;
        ghost var done := both - todo;
        todo := todo - {k};
        assert both - todo == done + {k};
        HandleUpdateOf(k, updates, done, old(created), old(updated), old(deleted));
      }
      assert both - todo == both;
    }

    method HandleUpdateOf(k: ObjectKey, updates: SecretUpdates, ghost done: set<ObjectKey>, ghost created0: map<ObjectKey, bytes>,
                          ghost updated0: map<ObjectKey, bytes>, ghost deleted0: set<ObjectKey>)
      requires LegalSecretKey(k) && LegalUpdates(updates) && Handled(updates, done, created0, updated0, deleted0)
      modifies this`created, this`updated, this`deleted
      ensures Handled(updates, done + {k}, created0, updated0, deleted0)
    {
      hide TlsContent, UpsertedCerts, DeletedSecrets, LegalSecret;
      OneMoreUpdate(updates, done, k);
      if k in updates {
        HandleUpdatedSecret(k, updates[k]);
      }
    }

    ghost predicate Handled(updates: SecretUpdates, keys: set<ObjectKey>, created0: map<ObjectKey, bytes>, updated0: map<ObjectKey, bytes>,
                            deleted0: set<ObjectKey>)
      reads this
    {
      && created == created0 + UpsertedCerts(updates, keys, true)
      && updated == updated0 + UpsertedCerts(updates, keys, false)
      && deleted == deleted0 + DeletedSecrets(updates, keys)
    }

    method HandleUpdatedSecret(k: ObjectKey, u: Update<Secret>)
      requires LegalSecretKey(k) && (u.status == Upserted ==> u.newObject.Some? && LegalSecret(u.newObject.value, k))
      modifies this`created, this`updated, this`deleted
      ensures created == if u.status == Upserted && TlsContent(u.newObject.value).Some? && u.oldObject == None
                         then old(created)[k := TlsContent(u.newObject.value).value] else old(created)
      ensures updated == if u.status == Upserted && TlsContent(u.newObject.value).Some? && u.oldObject != None
                         then old(updated)[k := TlsContent(u.newObject.value).value] else old(updated)
      ensures deleted == if u.status == Deleted then old(deleted) + {k} else old(deleted)
    {
      match u.status {
        case Upserted =>
          var certData := storage.NewTlsCertificateData(u.newObject.value);
          if certData == None {
            return;
          }
          if u.oldObject == None {
            created := created[k := certData.value.data];
            return;
          }
          updated := updated[k := certData.value.data];
        case Deleted =>
          deleted := deleted + {k};
        case Unchanged =>
      }
    }

    static lemma NoUpdates(updates: SecretUpdates)
      ensures UpsertedCerts(updates, {}, true) == map[] && UpsertedCerts(updates, {}, false) == map[]
      ensures DeletedSecrets(updates, {}) == {}
    {}

    static lemma OneMoreUpdate(updates: SecretUpdates, done: set<ObjectKey>, k: ObjectKey)
      ensures forall isNew ::
        UpsertedCerts(updates, done + {k}, isNew) ==
          if UpsertsPair(updates, k) && (updates[k].oldObject == None) == isNew
          then UpsertedCerts(updates, done, isNew)[k := TlsContent(updates[k].newObject.value).value]
          else UpsertedCerts(updates, done, isNew)
      ensures DeletedSecrets(updates, done + {k}) ==
          DeletedSecrets(updates, done) + if k in updates && updates[k].status == Deleted then {k} else {}
    {}

    // ---- crt-lists

    static method SecretsPerGatewayListener(bySecret: map<ObjectKey, set<ObjectKey>>, ghost refs: set<Ref>)
      returns (r: map<ObjectKey, set<ObjectKey>>)
      requires bySecret == BySecret(refs)
      ensures r == ByListener(refs)
    {
      r := map[];
      var todo := bySecret.Keys;
      while todo != {}
        invariant todo <= bySecret.Keys
        invariant forall s, l :: Names(r, l, s) <==> s in bySecret && s !in todo && l in bySecret[s]
        invariant forall l :: l in r ==> r[l] != {}
      {
        var s :| s in todo;
        todo := todo - {s};
        r := AddSecretToListeners(s, bySecret[s], r);
      }
      forall s, l ensures (s, l) in refs <==> l in r && s in r[l] {
        assert Names(r, l, s) <==> s in bySecret && l in bySecret[s];
        if (s, l) in refs { assert (s, l).0 in Secrets(refs) && (s, l).1 == l; }
      }
      ByListenerIs(refs, r);
    }

    static predicate Names(m: map<ObjectKey, set<ObjectKey>>, l: ObjectKey, s: ObjectKey) {
      l in m && s in m[l]
    }

    static method AddSecretToListeners(s: ObjectKey, listeners: set<ObjectKey>, m: map<ObjectKey, set<ObjectKey>>)
      returns (r: map<ObjectKey, set<ObjectKey>>)
      requires forall l :: l in m ==> m[l] != {}
      ensures forall s', l :: Names(r, l, s') <==> Names(m, l, s') || (s' == s && l in listeners)
      ensures forall l :: l in r ==> r[l] != {}
    {
      r := m;
      var todo := listeners;
      while todo != {}
        invariant todo <= listeners
        invariant forall s', l :: Names(r, l, s') <==> Names(m, l, s') || (s' == s && l in listeners && l !in todo)
        invariant forall l :: l in r ==> r[l] != {}
      {
        var l :| l in todo;
        ghost var before := r;
        todo := todo - {l};
        if l !in r {
          r := r[l := {}];
        }
        r := r[l := r[l] + {s}];
        forall s', l' ensures Names(r, l', s') <==> Names(before, l', s') || (s' == s && l' == l) {}
      }
    }

    /** Returns the keys of live secrets; `left` is what the caller's set becomes, since
        the others are deleted from it along the way. */
    static method KeepOnlyExistingSecrets(tree: Tree, secretKeys: set<ObjectKey>) returns (res: set<ObjectKey>, left: set<ObjectKey>)
      ensures res == left == Existing(tree, secretKeys)
    {
      res, left := {}, secretKeys;
      var todo := secretKeys;
      while todo != {}
        invariant todo <= secretKeys
        invariant res == Existing(tree, secretKeys - todo) && left == res + todo
      {
        var k :| k in todo;
        OneMoreExisting(tree, secretKeys - todo, k);
        assert secretKeys - (todo - {k}) == (secretKeys - todo) + {k};
        todo := todo - {k};
        if k !in tree {
          left := left - {k};
          continue;
        }
        if tree[k].status == Deleted {
          left := left - {k};
          continue;
        }
        res := res + {k};
      }
    }

    static lemma OneMoreExisting(tree: Tree, done: set<ObjectKey>, k: ObjectKey)
      ensures Existing(tree, done + {k}) == Existing(tree, done) + if Live(tree, k) then {k} else {}
    {}

    static ghost function NewLists(cur: map<ObjectKey, set<ObjectKey>>, tree: Tree, keys: set<ObjectKey>): map<ObjectKey, set<ObjectKey>> {
      map l | l in keys && l in cur :: Existing(tree, cur[l])
    }

    static lemma ExistingSubset(tree: Tree, keys: set<ObjectKey>)
      ensures Existing(tree, keys) <= keys
    {}

    static lemma NoNewLists(base: string, cur: map<ObjectKey, set<ObjectKey>>, tree: Tree)
      ensures Rendered(base, NewLists(cur, tree, {})) == map[]
    {}

    static lemma OneMoreNewList(base: string, cur: map<ObjectKey, set<ObjectKey>>, tree: Tree, done: set<ObjectKey>, l: ObjectKey)
      requires l in cur
      ensures Rendered(base, NewLists(cur, tree, done + {l})) ==
              Rendered(base, NewLists(cur, tree, done))[l := CrtListContent(base, Existing(tree, cur[l]))]
    {
      hide CrtListContent;
      assert NewLists(cur, tree, done + {l}) == NewLists(cur, tree, done)[l := Existing(tree, cur[l])];
    }

    /** `cur'` is `cur` after the filtering above has shrunk the entries of new listeners. */
    method HandleNewReferencedCrtList(prev: map<ObjectKey, set<ObjectKey>>, cur: map<ObjectKey, set<ObjectKey>>, tree: Tree)
      returns (cur': map<ObjectKey, set<ObjectKey>>)
      requires LegalListeners(cur)
      modifies this`createdLists
      ensures createdLists == old(createdLists) + Rendered(storage.certsBaseDir, NewLists(cur, tree, cur.Keys - prev.Keys))
      ensures cur'.Keys == cur.Keys && forall l :: l in cur && l in prev ==> cur'[l] == cur[l]
    {
      hide CrtListContent, Rendered, NewLists, Existing, LegalListeners, LegalSecretKeys;
      NoNewLists(storage.certsBaseDir, cur, tree);
      cur' := cur;
      var newReferenced := SetDifference(cur.Keys, prev.Keys);
      var todo := newReferenced;
      assert newReferenced - todo == {};
      while todo != {}
        invariant todo <= newReferenced
        invariant createdLists == old(createdLists) + Rendered(storage.certsBaseDir, NewLists(cur, tree, newReferenced - todo))
        invariant cur'.Keys == cur.Keys && forall l :: l in cur && l in prev ==> cur'[l] == cur[l]
      {
        var l :| l in todo;
        ghost var done := newReferenced - todo;
        todo := todo - {l};
        LegalSecretsOf(cur, l);
        var left := CreateCrtListOf(l, cur[l], tree);
        cur' := cur'[l := left];
        assert newReferenced - todo == done + {l};
        OneMoreNewList(storage.certsBaseDir, cur, tree, done, l);
      }
      assert newReferenced - todo == newReferenced;
    }

    /** `left` is what the listener's set becomes. */
    method CreateCrtListOf(l: ObjectKey, secretKeys: set<ObjectKey>, tree: Tree) returns (left: set<ObjectKey>)
      requires LegalSecretKeys(secretKeys)
      modifies this`createdLists
      ensures createdLists == old(createdLists)[l := CrtListContent(storage.certsBaseDir, Existing(tree, secretKeys))]
    {
      hide CrtListContent, Existing;
      var filtered;
      filtered, left := KeepOnlyExistingSecrets(tree, secretKeys);
      ExistingSubset(tree, secretKeys);
      var content := storage.NewCrtListContent(filtered);
      createdLists := createdLists[l := content];
    }

    method HandleDeReferencedCrtList(prev: set<ObjectKey>, cur: set<ObjectKey>)
      modifies this`deletedLists
      ensures deletedLists == old(deletedLists) + (prev - cur)
    {
      var deReferenced := SetDifference(prev, cur);
      var todo := deReferenced;
      while todo != {}
        invariant todo <= deReferenced
        invariant deletedLists == old(deletedLists) + (deReferenced - todo)
      {
        var l :| l in todo;
        todo := todo - {l};
        deletedLists := deletedLists + {l};
      }
    }

    static ghost predicate SomeTouched(tree: Tree, keys: set<ObjectKey>) {
      exists k :: k in keys && TouchedInTree(tree, k)
    }

    /** The new content of one listener's crt-list, and whether it must be rewritten. */
    static method UpdatedContent(prev: set<ObjectKey>, cur: set<ObjectKey>, tree: Tree) returns (rewrite: bool, secretKeys: set<ObjectKey>)
      ensures rewrite <==> Flagged(tree, prev, cur)
      ensures secretKeys == Existing(tree, cur)
    {
      var added := SetDifference(cur, prev);
      var kept := SetIntersection(cur, prev);
      var removed := SetDifference(prev, cur);
      rewrite := false;
      var left;
      secretKeys, left := KeepOnlyExistingSecrets(tree, added);
      if |secretKeys| != 0 {
        rewrite := true;
      }
      ghost var addedLive := rewrite;
      var touched, keptKeys := KeptContent(kept, tree);
      rewrite := rewrite || touched;
      secretKeys := secretKeys + keptKeys;
      assert added + kept == cur;
      assert Existing(tree, added + kept) == Existing(tree, added) + Existing(tree, kept);
      if |removed| != 0 {
        rewrite := true;
      }
      AddedLive(tree, added);
      assert SomeTouched(tree, kept) <==> exists k :: k in cur * prev && TouchedInTree(tree, k);
    }

    static lemma AddedLive(tree: Tree, added: set<ObjectKey>)
      ensures Existing(tree, added) != {} <==> exists k :: k in added && Live(tree, k)
    {
      if Existing(tree, added) != {} {
        var k :| k in Existing(tree, added);
      }
      if k :| k in added && Live(tree, k) { assert k in Existing(tree, added); }
    }

    /** The part of the above that walks the secrets referenced before and after. */
    static method KeptContent(kept: set<ObjectKey>, tree: Tree) returns (rewrite: bool, secretKeys: set<ObjectKey>)
      ensures rewrite <==> SomeTouched(tree, kept)
      ensures secretKeys == Existing(tree, kept)
    {
      rewrite, secretKeys := false, {};
      var todo := kept;
      while todo != {}
        invariant todo <= kept
        invariant secretKeys == Existing(tree, kept - todo)
        invariant rewrite <==> SomeTouched(tree, kept - todo)
      {
        var k :| k in todo;
        OneMoreExisting(tree, kept - todo, k);
        OneMoreTouched(tree, kept - todo, k);
        assert kept - (todo - {k}) == (kept - todo) + {k};
        todo := todo - {k};
        if k !in tree {
          continue;
        }
        if tree[k].status == Upserted {
          if tree[k].previous == None {
            secretKeys := secretKeys + {k};
            rewrite := true;
            continue;
          }
          rewrite := true;
          secretKeys := secretKeys + {k};
        }
        if tree[k].status == Deleted {
          rewrite := true;
          continue;
        }
        secretKeys := secretKeys + {k};
      }
    }

    static lemma OneMoreTouched(tree: Tree, done: set<ObjectKey>, k: ObjectKey)
      ensures SomeTouched(tree, done + {k}) <==> SomeTouched(tree, done) || TouchedInTree(tree, k)
    {
      if TouchedInTree(tree, k) { assert k in done + {k}; }
      if k' :| k' in done && TouchedInTree(tree, k') { assert k' in done + {k}; }
    }

    static ghost function RewrittenLists(prev: map<ObjectKey, set<ObjectKey>>, cur: map<ObjectKey, set<ObjectKey>>, tree: Tree, keys: set<ObjectKey>)
      : map<ObjectKey, set<ObjectKey>>
    {
      map l | l in keys && l in prev && l in cur && Flagged(tree, prev[l], cur[l]) && Existing(tree, cur[l]) != {} :: Existing(tree, cur[l])
    }

    static ghost function EmptiedLists(prev: map<ObjectKey, set<ObjectKey>>, cur: map<ObjectKey, set<ObjectKey>>, tree: Tree, keys: set<ObjectKey>)
      : set<ObjectKey>
    {
      set l | l in keys && l in prev && l in cur && Flagged(tree, prev[l], cur[l]) && Existing(tree, cur[l]) == {}
    }

    method HandleUpdatedCrtList(prev: map<ObjectKey, set<ObjectKey>>, cur: map<ObjectKey, set<ObjectKey>>, tree: Tree)
      requires forall l :: l in prev && l in cur ==> LegalSecretKeys(cur[l])
      modifies this`updatedLists, this`deletedLists
      ensures updatedLists == old(updatedLists) + Rendered(storage.certsBaseDir, RewrittenLists(prev, cur, tree, prev.Keys * cur.Keys))
      ensures deletedLists == old(deletedLists) + EmptiedLists(prev, cur, tree, prev.Keys * cur.Keys)
    {
      hide CrtListContent, Rendered, RewrittenLists, EmptiedLists, Existing, Flagged;
      NoListeners(storage.certsBaseDir, prev, cur, tree);
      var both := SetIntersection(prev.Keys, cur.Keys);
      var todo := both;
      assert both - todo == {};
      while todo != {}
        invariant todo <= both
        invariant updatedLists == old(updatedLists) + Rendered(storage.certsBaseDir, RewrittenLists(prev, cur, tree, both - todo))
        invariant deletedLists == old(deletedLists) + EmptiedLists(prev, cur, tree, both - todo)
      {
        var l :| l in todo;
        OneMoreListener(storage.certsBaseDir, prev, cur, tree, both - todo, l);
        assert both - (todo - {l}) == (both - todo) + {l};
        todo := todo - {l};
        UpdateCrtListOf(l, prev[l], cur[l], tree);
      }
      assert both - todo == both;
    }

    method UpdateCrtListOf(l: ObjectKey, prev: set<ObjectKey>, cur: set<ObjectKey>, tree: Tree)
      requires LegalSecretKeys(cur)
      modifies this`updatedLists, this`deletedLists
      ensures updatedLists == if Flagged(tree, prev, cur) && Existing(tree, cur) != {}
                              then old(updatedLists)[l := CrtListContent(storage.certsBaseDir, Existing(tree, cur))]
                              else old(updatedLists)
      ensures deletedLists == old(deletedLists) + if Flagged(tree, prev, cur) && Existing(tree, cur) == {} then {l} else {}
    {
      hide CrtListContent, Existing, Flagged;
      var rewrite, secretKeys := UpdatedContent(prev, cur, tree);
      ExistingSubset(tree, cur);
      if rewrite {
        if |secretKeys| != 0 {
          var content := storage.NewCrtListContent(secretKeys);
          updatedLists := updatedLists[l := content];
        } else {
          deletedLists := deletedLists + {l};
        }
      }
    }

    static lemma NoListeners(base: string, prev: map<ObjectKey, set<ObjectKey>>, cur: map<ObjectKey, set<ObjectKey>>, tree: Tree)
      ensures Rendered(base, RewrittenLists(prev, cur, tree, {})) == map[]
      ensures EmptiedLists(prev, cur, tree, {}) == {}
    {}

    static lemma OneMoreListener(base: string, prev: map<ObjectKey, set<ObjectKey>>, cur: map<ObjectKey, set<ObjectKey>>, tree: Tree,
                                 done: set<ObjectKey>, l: ObjectKey)
      requires l in prev && l in cur
      ensures Rendered(base, RewrittenLists(prev, cur, tree, done + {l})) ==
              if Flagged(tree, prev[l], cur[l]) && Existing(tree, cur[l]) != {}
              then Rendered(base, RewrittenLists(prev, cur, tree, done))[l := CrtListContent(base, Existing(tree, cur[l]))]
              else Rendered(base, RewrittenLists(prev, cur, tree, done))
      ensures EmptiedLists(prev, cur, tree, done + {l}) ==
              EmptiedLists(prev, cur, tree, done) +
              if Flagged(tree, prev[l], cur[l]) && Existing(tree, cur[l]) == {} then {l} else {}
    {
      hide Flagged, Existing, CrtListContent;
    }

    // ---- one cycle

    ghost predicate CertsAre(d: CertDiffs)
      reads this
    {
      created == d.created && updated == d.updated && deleted == d.deleted
    }

    ghost predicate ListsAre(d: ListDiffs)
      reads this
    {
      && createdLists == Rendered(storage.certsBaseDir, d.created)
      && updatedLists == Rendered(storage.certsBaseDir, d.updated)
      && deletedLists == d.deleted
    }

    /** From the reference indexes of the previous and of this cycle. */
    method ComputeCertificateDiffs(rm: ReferenceManager, tree: Tree, updates: SecretUpdates)
      requires Empty() && rm.Valid() && LegalTree(tree) && LegalUpdates(updates)
      requires LegalRefs(rm.referencedSecrets.Pairs(GATEWAY_GVK)) && LegalRefs(rm.previousReferencedSecrets.Pairs(GATEWAY_GVK))
      modifies this
      ensures var refs, refs' := rm.previousReferencedSecrets.Pairs(GATEWAY_GVK), rm.referencedSecrets.Pairs(GATEWAY_GVK);
              CertsAre(CertDiffsOf(Secrets(refs), Secrets(refs'), tree, updates)) && ListsAre(ListDiffsOf(refs, refs', tree))
    {
      hide NewRefCerts, UpsertedCerts, DeletedSecrets, TlsContent, ListDiffsOf, BySecret, ByListener, LegalTree, LegalUpdates;
      hide PairsIn, NoEmptyEntry, LegalRefs, LegalSecretKeys, LegalListeners, Secrets, SecretsOf, Listeners, Rendered;
      ghost var refs, refs' := rm.previousReferencedSecrets.Pairs(GATEWAY_GVK), rm.referencedSecrets.Pairs(GATEWAY_GVK);
      var cur := rm.referencedSecrets.AllReferenced(GATEWAY_GVK);
      var prev := rm.previousReferencedSecrets.AllReferenced(GATEWAY_GVK);
      ByListenerLegal(refs);
      ByListenerLegal(refs');
      HandleNewReferencedSecretsStorage(prev.Keys, cur.Keys, tree);
      assert created == NewRefCerts(tree, cur.Keys - prev.Keys);
      HandleDeReferencedSecretsStorage(prev.Keys, cur.Keys);
      assert deleted == prev.Keys - cur.Keys;
      HandleUpdatedSecretsStorage(prev.Keys, cur.Keys, updates);
      assert updated == UpsertedCerts(updates, prev.Keys * cur.Keys, false);
      HandleCrtList(prev, cur, tree, refs, refs');
    }

    method HandleCrtList(prev: map<ObjectKey, set<ObjectKey>>, cur: map<ObjectKey, set<ObjectKey>>, tree: Tree, ghost refs: set<Ref>, ghost refs': set<Ref>)
      requires createdLists == map[] && updatedLists == map[] && deletedLists == {}
      requires prev == BySecret(refs) && cur == BySecret(refs') && LegalRefs(refs) && LegalRefs(refs')
      modifies this`createdLists, this`updatedLists, this`deletedLists
      ensures ListsAre(ListDiffsOf(refs, refs', tree))
    {
      hide BySecret, ByListener, Rendered, Flagged, Existing, NewLists, RewrittenLists, EmptiedLists;
      hide LegalRefs, LegalSecretKeys, LegalSecretKey, LegalListenerKey, Listeners, SecretsOf, ListDiffsOf;
      ByListenerLegal(refs);
      ByListenerLegal(refs');
      var prevByListener := SecretsPerGatewayListener(prev, refs);
      var curByListener := SecretsPerGatewayListener(cur, refs');
      var cur' := HandleNewReferencedCrtList(prevByListener, curByListener, tree);
      HandleDeReferencedCrtList(prevByListener.Keys, cur'.Keys);
      HandleUpdatedCrtList(prevByListener, cur', tree);
      DiffsAreListDiffs(refs, refs', tree, cur');
    }

    static lemma ByListenerLegal(refs: set<Ref>)
      requires LegalRefs(refs)
      ensures LegalListeners(ByListener(refs)) && ByListener(refs).Keys == Listeners(refs)
      ensures forall l :: l in Listeners(refs) ==> ByListener(refs)[l] == SecretsOf(refs, l)
      ensures BySecret(refs).Keys == Secrets(refs) && LegalSecretKeys(Secrets(refs))
    {}

    static lemma ByListenerAt(refs: set<Ref>)
      ensures ByListener(refs).Keys == Listeners(refs) && forall l :: l in Listeners(refs) ==> ByListener(refs)[l] == SecretsOf(refs, l)
    {}

    static lemma DiffsAreListDiffs(refs: set<Ref>, refs': set<Ref>, tree: Tree, cur': map<ObjectKey, set<ObjectKey>>)
      requires cur'.Keys == Listeners(refs')
      requires forall l :: l in cur' && l in Listeners(refs) ==> cur'[l] == SecretsOf(refs', l)
      ensures var prev, cur, d := ByListener(refs), ByListener(refs'), ListDiffsOf(refs, refs', tree);
              && d.created == NewLists(cur, tree, cur.Keys - prev.Keys)
              && d.updated == RewrittenLists(prev, cur', tree, prev.Keys * cur'.Keys)
              && d.deleted == (prev.Keys - cur'.Keys) + EmptiedLists(prev, cur', tree, prev.Keys * cur'.Keys)
    {
      hide Flagged, Existing, ByListener;
      var prev, cur, d := ByListener(refs), ByListener(refs'), ListDiffsOf(refs, refs', tree);
      ByListenerAt(refs);
      ByListenerAt(refs');
      assert d.created == NewLists(cur, tree, cur.Keys - prev.Keys);
      assert d.updated == RewrittenLists(prev, cur', tree, prev.Keys * cur'.Keys);
      assert d.deleted == (prev.Keys - cur'.Keys) + EmptiedLists(prev, cur', tree, prev.Keys * cur'.Keys);
    }

    /** Writes first, deletes last, certificates before crt-lists. */
    method EnsureCertificatesStorage(ghost c: CertDiffs, ghost d: ListDiffs)
      requires storage.Valid() && CertsAre(c) && ListsAre(d)
      requires LegalSecretKeys(c.created.Keys + c.updated.Keys + c.deleted)
      requires LegalListeners(d.created) && LegalListeners(d.updated) && forall l :: l in d.deleted ==> LegalListenerKey(l)
      modifies storage
      ensures storage.Valid()
      ensures storage.certs == WriteCerts(old(storage.certs), c)
      ensures storage.lists == WriteLists(old(storage.lists), d)
    {
      hide CertFilesAre, ListFilesAre, Rendered, LegalSecretKey, LegalListenerKey;
      WriteCertificates(created);
      WriteCertificates(updated);
      DeleteCertificates(deleted);
      WriteCrtLists(createdLists, d.created);
      WriteCrtLists(updatedLists, d.updated);
      DeleteCrtLists(deletedLists);
    }

    method WriteCertificates(m: map<ObjectKey, bytes>)
      requires storage.Valid() && LegalSecretKeys(m.Keys)
      modifies storage
      ensures storage.Valid() && storage.certs == old(storage.certs) + m && storage.lists == old(storage.lists)
    {
      hide CertFilesAre, ListFilesAre;
      var todo := m.Keys;
      while todo != {}
        invariant todo <= m.Keys && storage.Valid() && storage.lists == old(storage.lists)
        invariant storage.certs == old(storage.certs) + map k | k in m && k !in todo :: m[k]
      {
        var k :| k in todo;
        storage.WriteOnDisk(k, m[k]);
        todo := todo - {k};
      }
    }

    method DeleteCertificates(keys: set<ObjectKey>)
      requires storage.Valid() && LegalSecretKeys(keys)
      modifies storage
      ensures storage.Valid() && storage.certs == old(storage.certs) - keys && storage.lists == old(storage.lists)
    {
      hide CertFilesAre, ListFilesAre;
      var todo := keys;
      while todo != {}
        invariant todo <= keys && storage.Valid() && storage.lists == old(storage.lists)
        invariant storage.certs == old(storage.certs) - (keys - todo)
      {
        var k :| k in todo;
        storage.DeleteFromDisk(k);
        todo := todo - {k};
      }
    }

    method WriteCrtLists(contents: map<ObjectKey, seq<string>>, ghost m: map<ObjectKey, set<ObjectKey>>)
      requires storage.Valid() && LegalListeners(m) && contents == Rendered(storage.certsBaseDir, m)
      modifies storage
      ensures storage.Valid() && storage.lists == old(storage.lists) + m && storage.certs == old(storage.certs)
    {
      hide CertFilesAre, ListFilesAre, Rendered, CrtListContent, LegalListenerKey, LegalSecretKey;
      RenderedAll(storage.certsBaseDir, m);
      var todo := contents.Keys;
      while todo != {}
        invariant todo <= m.Keys && storage.Valid() && storage.certs == old(storage.certs)
        invariant storage.lists == old(storage.lists) + (m - todo)
      {
        var l :| l in todo;
        assert m - (todo - {l}) == (m - todo)[l := m[l]];
        storage.WriteCrtListOnDisk(l, contents[l], m[l]);
        todo := todo - {l};
      }
    }

    method DeleteCrtLists(listeners: set<ObjectKey>)
      requires storage.Valid() && forall l :: l in listeners ==> LegalListenerKey(l)
      modifies storage
      ensures storage.Valid() && storage.lists == old(storage.lists) - listeners && storage.certs == old(storage.certs)
    {
      hide CertFilesAre, ListFilesAre;
      var todo := listeners;
      while todo != {}
        invariant todo <= listeners && storage.Valid() && storage.certs == old(storage.certs)
        invariant storage.lists == old(storage.lists) - (listeners - todo)
      {
        var l :| l in todo;
        storage.DeleteCrtListFromDisk(l);
        todo := todo - {l};
      }
    }
  }
}
