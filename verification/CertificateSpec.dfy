/** What one controller cycle does to the certificate files and crt-lists, as
    functions on values keyed by object keys; and what holds after every cycle. */
module CertificateSpec {
  import opened Wrappers
  import opened Keys
  import opened GatewayApi
  import opened ObjectStores
  import opened References

  // ---- certificate contents

  const NEWLINE: bv8 := 10

  /** Private key, a line break unless it ends with one, certificate. */
  function CertContent(key: bytes, crt: bytes): bytes {
    key + (if |key| > 0 && key[|key|-1] != NEWLINE then [NEWLINE] else []) + crt
  }

  /** What stands between line breaks; a text that ends with one has no empty last line. */
  ghost function LinesOf(b: bytes): (r: seq<bytes>)
    ensures r == [] <==> b == []
  {
    if b == [] then []
    else if b[0] == 10 then [[]] + LinesOf(b[1..])
    else if |b| == 1 then [b]
    else var rest := LinesOf(b[1..]); [[b[0]] + rest[0]] + rest[1..]
  }

  /** The key, whole and first, and the certificate, whole and last, with no line that has
      something of both. */
  ghost predicate KeyThenCert(content: bytes, key: bytes, crt: bytes) {
    && |key| + |crt| <= |content| && content[..|key|] == key && content[|content| - |crt|..] == crt
    && LinesOf(content) == LinesOf(key) + LinesOf(crt)
  }

  lemma ContentIsKeyThenCert(key: bytes, crt: bytes)
    ensures KeyThenCert(CertContent(key, crt), key, crt)
  {
    if key == [] {
      assert CertContent(key, crt) == crt;
      assert LinesOf(key) + LinesOf(crt) == LinesOf(crt);
    } else if key[|key| - 1] == 10 {
      assert CertContent(key, crt) == key + crt;
      LinesConcat(key, crt);
    } else {
      assert CertContent(key, crt) == key + [10] + crt;
      LinesConcat(key + [10], crt);
      LastBreak(key);
    }
  }

  lemma {:induction false} LinesConcat(a: bytes, b: bytes)
    requires a != [] && a[|a| - 1] == 10
    ensures LinesOf(a + b) == LinesOf(a) + LinesOf(b)
  {
    assert (a + b)[1..] == a[1..] + b;
    if |a| == 1 {
      assert a[1..] == [] && a[1..] + b == b;
    } else {
      LinesConcat(a[1..], b);
    }
  }

  lemma {:induction false} LastBreak(a: bytes)
    requires a != [] && a[|a| - 1] != 10
    ensures LinesOf(a + [10]) == LinesOf(a)
  {
    var c := a + [10];
    assert c[1..] == a[1..] + [10];
    if |a| == 1 {
      assert c[1..] == [10] && [10][1..] == [];
      assert LinesOf(c[1..]) == [[]];
      assert [a[0]] + [] == a;
    } else {
      LastBreak(a[1..]);
    }
  }

  predicate HasPair(s: Secret, kind: string) {
    kind + ".key" in s.data && kind + ".crt" in s.data
  }

  /** HAProxy certificate bundles; their files are not named after the secret alone. */
  predicate HasBundle(s: Secret) {
    HasPair(s, "rsa") || HasPair(s, "ecdsa") || HasPair(s, "dsa")
  }

  function TlsContent(s: Secret): Option<bytes> {
    if HasPair(s, "tls") then Some(CertContent(s.data["tls" + ".key"], s.data["tls" + ".crt"])) else None
  }

  // ---- the tree of secrets

  /** `previous` is the version the entry had when this cycle touched it. */
  datatype TreeSecret = TreeSecret(resource: Option<Secret>, status: Status, previous: Option<Secret>)

  type Tree = map<ObjectKey, TreeSecret>
  type SecretUpdates = map<ObjectKey, Update<Secret>>

  ghost function CleanTree(tree: Tree): Tree {
    map k | k in tree && tree[k].status != Deleted :: tree[k].(status := Unchanged, previous := None)
  }

  ghost function UpdateEntry(entry: Option<TreeSecret>, u: Update<Secret>): Option<TreeSecret> {
    match u.status
    case Upserted =>
      Some(TreeSecret(u.newObject, Upserted, if entry.Some? then entry.value.resource else None))
    case Deleted =>
      if entry.Some? then Some(TreeSecret(None, Deleted, entry.value.resource)) else None
    case Unchanged => entry
  }

  ghost function UpdateTree(tree: Tree, updates: SecretUpdates): Tree {
    map k | k in tree.Keys + updates.Keys
            && (k in updates ==> UpdateEntry(Lookup(tree, k), updates[k]).Some?) ::
      if k in updates then UpdateEntry(Lookup(tree, k), updates[k]).value else tree[k]
  }

  predicate Live(tree: Tree, k: ObjectKey) {
    k in tree && tree[k].status != Deleted
  }

  /** The live entries are the stored secrets. */
  ghost predicate Mirrors(tree: Tree, secrets: map<ObjectKey, Secret>) {
    && (forall k :: Live(tree, k) <==> k in secrets)
    && (forall k :: k in secrets ==> tree[k].resource == Some(secrets[k]))
  }

  /** The tree records what this cycle changed. */
  ghost predicate Records(tree: Tree, before: map<ObjectKey, Secret>, updates: SecretUpdates) {
    && (forall k :: k in before && k in updates && updates[k].status == Deleted ==> k in tree && tree[k].status == Deleted)
    && forall k :: k in tree ==>
      && (tree[k].status == Upserted <==> k in updates && updates[k].status == Upserted)
      && (tree[k].status == Deleted <==> k in before && k in updates && updates[k].status == Deleted)
      && (tree[k].status == Upserted ==> (tree[k].previous == None <==> k !in before))
  }

  lemma TreeFollowsStore(tree: Tree, before: map<ObjectKey, Secret>, s: StoreState<Secret>)
    requires Mirrors(tree, before) && Coalesced(before, s)
    ensures var t := UpdateTree(CleanTree(tree), s.updates);
            Mirrors(t, s.objects) && Records(t, before, s.updates)
  {
    var clean := CleanTree(tree);
    assert clean.Keys == before.Keys;
    var t := UpdateTree(clean, s.updates);
    forall k
      ensures Live(t, k) <==> k in s.objects
      ensures k in s.objects ==> t[k].resource == Some(s.objects[k])
    {
      assert Lookup(before, k) == (if k in before then Some(before[k]) else None);
      if k in s.updates {
        assert s.updates[k].newObject == Lookup(s.objects, k);
      } else {
        assert Lookup(before, k) == Lookup(s.objects, k);
      }
    }
  }

  // ---- certificate diffs of one cycle

  datatype CertDiffs = CertDiffs(created: map<ObjectKey, bytes>, updated: map<ObjectKey, bytes>, deleted: set<ObjectKey>)

  ghost function NewRefCerts(tree: Tree, keys: set<ObjectKey>): map<ObjectKey, bytes> {
    map k | k in keys && Live(tree, k) && tree[k].resource.Some? && TlsContent(tree[k].resource.value).Some? ::
      TlsContent(tree[k].resource.value).value
  }

  ghost predicate UpsertsPair(updates: SecretUpdates, k: ObjectKey) {
    k in updates && updates[k].status == Upserted && updates[k].newObject.Some?
    && TlsContent(updates[k].newObject.value).Some?
  }

  ghost function UpsertedCerts(updates: SecretUpdates, keys: set<ObjectKey>, isNew: bool): map<ObjectKey, bytes> {
    map k | k in keys && UpsertsPair(updates, k) && (updates[k].oldObject == None) == isNew ::
      TlsContent(updates[k].newObject.value).value
  }

  ghost function DeletedSecrets(updates: SecretUpdates, keys: set<ObjectKey>): set<ObjectKey> {
    set k | k in keys && k in updates && updates[k].status == Deleted
  }

  /** `prev` and `cur` are the secrets referenced before and after. */
  ghost function CertDiffsOf(prev: set<ObjectKey>, cur: set<ObjectKey>, tree: Tree, updates: SecretUpdates): CertDiffs {
    CertDiffs(NewRefCerts(tree, cur - prev) + UpsertedCerts(updates, prev * cur, true),
              UpsertedCerts(updates, prev * cur, false),
              (prev - cur) + DeletedSecrets(updates, prev * cur))
  }

  ghost function WriteCerts(certs: map<ObjectKey, bytes>, d: CertDiffs): map<ObjectKey, bytes> {
    certs + d.created + d.updated - d.deleted
  }

  /** From scratch: one file for each secret that is referenced, stored and has a pair. */
  ghost function WantedCerts(secrets: map<ObjectKey, Secret>, refs: set<Ref>): map<ObjectKey, bytes> {
    map k | k in Secrets(refs) && k in secrets && TlsContent(secrets[k]).Some? :: TlsContent(secrets[k]).value
  }

  /** A secret referenced before and after whose pair disappears in this batch. */
  predicate LosesPair(updates: SecretUpdates, k: ObjectKey) {
    k in updates && updates[k].status == Upserted
    && updates[k].newObject.Some? && TlsContent(updates[k].newObject.value) == None
    && updates[k].oldObject.Some? && TlsContent(updates[k].oldObject.value).Some?
  }

  /** One cycle makes the files exact, except when a still-referenced secret loses its
      key pair: its update is skipped and the previous file stays behind. */
  lemma CertsExact(before: map<ObjectKey, Secret>, s: StoreState<Secret>, refs: set<Ref>, refs': set<Ref>, tree: Tree)
    requires Coalesced(before, s) && Mirrors(tree, s.objects)
    ensures var prev, cur := Secrets(refs), Secrets(refs');
            WriteCerts(WantedCerts(before, refs), CertDiffsOf(prev, cur, tree, s.updates)) == WantedCerts(s.objects, refs')
            <==> !(exists k :: k in prev * cur && LosesPair(s.updates, k))
  {
    var prev, cur := Secrets(refs), Secrets(refs');
    var d := CertDiffsOf(prev, cur, tree, s.updates);
    var certs := WriteCerts(WantedCerts(before, refs), d);
    var wanted := WantedCerts(s.objects, refs');
    forall k ensures Lookup(certs, k) == Lookup(wanted, k) <==> !(k in prev * cur && LosesPair(s.updates, k)) {
      CertExactAt(WantedCerts(before, refs), before, s, refs, refs', tree, k);
    }
    if forall k :: Lookup(certs, k) == Lookup(wanted, k) {
      SameLookups(certs, wanted);
    }
  }

  lemma SameLookups<V>(a: map<ObjectKey, V>, b: map<ObjectKey, V>)
    requires forall k :: Lookup(a, k) == Lookup(b, k)
    ensures a == b
  {
    assert forall k :: k in a <==> Lookup(a, k).Some?;
    assert forall k :: k in b <==> Lookup(b, k).Some?;
    assert forall k :: k in a ==> Some(a[k]) == Lookup(a, k);
    assert forall k :: k in b ==> Some(b[k]) == Lookup(b, k);
  }

  /** The same for the file of one secret, whatever became of the others. */
  lemma CertExactAt(certs: map<ObjectKey, bytes>, before: map<ObjectKey, Secret>, s: StoreState<Secret>,
                    refs: set<Ref>, refs': set<Ref>, tree: Tree, k: ObjectKey)
    requires Coalesced(before, s) && Mirrors(tree, s.objects)
    requires Lookup(certs, k) == Lookup(WantedCerts(before, refs), k)
    ensures var prev, cur := Secrets(refs), Secrets(refs');
            Lookup(WriteCerts(certs, CertDiffsOf(prev, cur, tree, s.updates)), k) == Lookup(WantedCerts(s.objects, refs'), k)
            <==> !(k in prev * cur && LosesPair(s.updates, k))
  {
    WrittenAt(certs, CertDiffsOf(Secrets(refs), Secrets(refs'), tree, s.updates), k);
    hide WriteCerts, TlsContent;
    assert Lookup(before, k) == (if k in before then Some(before[k]) else None);
    if k in s.updates {
      assert s.updates[k].newObject == Lookup(s.objects, k);
      assert s.updates[k].oldObject == Lookup(before, k);
    } else {
      assert Lookup(before, k) == Lookup(s.objects, k);
    }
  }

  lemma WrittenAt(certs: map<ObjectKey, bytes>, d: CertDiffs, k: ObjectKey)
    ensures Lookup(WriteCerts(certs, d), k) ==
            if k in d.deleted then None
            else if k in d.updated then Some(d.updated[k])
            else if k in d.created then Some(d.created[k])
            else Lookup(certs, k)
  {}

  /** When every version of every secret has a pair, the three diffs are those of the
      two wanted sets computed from scratch. */
  lemma DiffsFromScratch(before: map<ObjectKey, Secret>, s: StoreState<Secret>, refs: set<Ref>, refs': set<Ref>, tree: Tree)
    requires Coalesced(before, s) && Mirrors(tree, s.objects)
    requires forall k :: k in before ==> HasPair(before[k], "tls")
    requires forall k :: k in s.objects ==> HasPair(s.objects[k], "tls")
    ensures var d := CertDiffsOf(Secrets(refs), Secrets(refs'), tree, s.updates);
            var w, w' := WantedCerts(before, refs), WantedCerts(s.objects, refs');
            && d.created.Keys == w'.Keys - w.Keys
            && d.updated.Keys <= w.Keys * w'.Keys
            && (forall k :: k in w.Keys * w'.Keys && w[k] != w'[k] ==> k in d.updated)
            && (forall k :: k in d.created ==> d.created[k] == w'[k])
            && (forall k :: k in d.updated ==> d.updated[k] == w'[k])
            && w.Keys - w'.Keys <= d.deleted && d.deleted !! w'.Keys
  {
    hide CertDiffsOf, WantedCerts;
    var d := CertDiffsOf(Secrets(refs), Secrets(refs'), tree, s.updates);
    var w, w' := WantedCerts(before, refs), WantedCerts(s.objects, refs');
    forall k
      ensures k in d.created <==> k in w' && k !in w
      ensures k in d.created ==> d.created[k] == w'[k]
      ensures k in d.updated ==> k in w && k in w' && d.updated[k] == w'[k]
      ensures k in w && k in w' && w[k] != w'[k] ==> k in d.updated
      ensures k in w && k !in w' ==> k in d.deleted
      ensures k in d.deleted ==> k !in w'
    {
      DiffAt(before, s, refs, refs', tree, k);
    }
  }

  lemma DiffAt(before: map<ObjectKey, Secret>, s: StoreState<Secret>, refs: set<Ref>, refs': set<Ref>, tree: Tree, k: ObjectKey)
    requires Coalesced(before, s) && Mirrors(tree, s.objects)
    requires k in before ==> HasPair(before[k], "tls")
    requires k in s.objects ==> HasPair(s.objects[k], "tls")
    ensures var d := CertDiffsOf(Secrets(refs), Secrets(refs'), tree, s.updates);
            var w, w' := WantedCerts(before, refs), WantedCerts(s.objects, refs');
            && (k in d.created <==> k in w' && k !in w)
            && (k in d.created ==> d.created[k] == w'[k])
            && (k in d.updated ==> k in w && k in w' && d.updated[k] == w'[k])
            && (k in w && k in w' && w[k] != w'[k] ==> k in d.updated)
            && (k in w && k !in w' ==> k in d.deleted)
            && (k in d.deleted ==> k !in w')
  {
    assert Lookup(before, k) == (if k in before then Some(before[k]) else None);
    if k in s.updates {
      assert s.updates[k].newObject == Lookup(s.objects, k);
      assert s.updates[k].oldObject == Lookup(before, k);
    } else {
      assert Lookup(before, k) == Lookup(s.objects, k);
    }
  }

  // ---- crt-list diffs of one cycle

  datatype ListDiffs = ListDiffs(created: map<ObjectKey, set<ObjectKey>>, updated: map<ObjectKey, set<ObjectKey>>, deleted: set<ObjectKey>)

  ghost function Existing(tree: Tree, keys: set<ObjectKey>): set<ObjectKey> {
    set k | k in keys && Live(tree, k)
  }

  predicate TouchedInTree(tree: Tree, k: ObjectKey) {
    k in tree && (tree[k].status == Upserted || tree[k].status == Deleted)
  }

  /** The code's test for rewriting a listener's crt-list. */
  predicate Flagged(tree: Tree, prev: set<ObjectKey>, cur: set<ObjectKey>) {
    (exists k :: k in cur - prev && Live(tree, k)) || (exists k :: k in cur * prev && TouchedInTree(tree, k)) || prev - cur != {}
  }

  /** In terms of the stores: some secret newly named is stored, some secret named before and
      after arrived or went in this batch, or some is named no more. */
  lemma FlaggedMeans(before: map<ObjectKey, Secret>, s: StoreState<Secret>, tree: Tree, prev: set<ObjectKey>, cur: set<ObjectKey>)
    requires Coalesced(before, s) && Mirrors(tree, s.objects) && Records(tree, before, s.updates)
    ensures Flagged(tree, prev, cur) <==>
              || (exists k :: k in cur && k !in prev && k in s.objects)
              || (exists k :: k in cur && k in prev && k in s.updates && (k in s.objects || k in before))
              || (exists k :: k in prev && k !in cur)
  {
    forall k ensures TouchedInTree(tree, k) <==> k in s.updates && (k in s.objects || k in before) {
      TouchedAt(before, s, tree, k);
    }
    hide TouchedInTree, Coalesced, Records;
    if k :| k in cur - prev && Live(tree, k) { assert k in cur && k !in prev && k in s.objects; }
    if k :| k in cur * prev && TouchedInTree(tree, k) { assert k in cur && k in prev && k in s.updates; }
    if k :| k in cur && k !in prev && k in s.objects { assert k in cur - prev && Live(tree, k); }
    if k :| k in cur && k in prev && k in s.updates && (k in s.objects || k in before) { assert k in cur * prev && TouchedInTree(tree, k); }
    if k :| k in prev && k !in cur { assert k in prev - cur; }
    if prev - cur != {} { var k :| k in prev - cur; }
  }

  lemma TouchedAt(before: map<ObjectKey, Secret>, s: StoreState<Secret>, tree: Tree, k: ObjectKey)
    requires Coalesced(before, s) && Mirrors(tree, s.objects) && Records(tree, before, s.updates)
    ensures TouchedInTree(tree, k) <==> k in s.updates && (k in s.objects || k in before)
  {
    if k in s.updates {
      assert s.updates[k].newObject == Lookup(s.objects, k);
      assert k in s.objects ==> Live(tree, k);
    }
  }

  ghost function ListDiffsOf(refs: set<Ref>, refs': set<Ref>, tree: Tree): ListDiffs {
    var prev, cur := Listeners(refs), Listeners(refs');
    ListDiffs(map l | l in cur - prev :: Existing(tree, SecretsOf(refs', l)),
              map l | l in prev * cur && Flagged(tree, SecretsOf(refs, l), SecretsOf(refs', l))
                      && Existing(tree, SecretsOf(refs', l)) != {} :: Existing(tree, SecretsOf(refs', l)),
              (prev - cur) + set l | l in prev * cur && Flagged(tree, SecretsOf(refs, l), SecretsOf(refs', l))
                                     && Existing(tree, SecretsOf(refs', l)) == {})
  }

  ghost function WriteLists(lists: map<ObjectKey, set<ObjectKey>>, d: ListDiffs): map<ObjectKey, set<ObjectKey>> {
    lists + d.created + d.updated - d.deleted
  }

  /** The secrets a listener's crt-list should name. */
  ghost function Desired(secrets: map<ObjectKey, Secret>, refs: set<Ref>, l: ObjectKey): set<ObjectKey> {
    SecretsOf(refs, l) * secrets.Keys
  }

  /** The list of `l` is exact, or absent because there is nothing to list. */
  ghost predicate ListExactAt(lists: map<ObjectKey, set<ObjectKey>>, secrets: map<ObjectKey, Secret>, refs: set<Ref>, l: ObjectKey) {
    && (l in lists ==> l in Listeners(refs) && lists[l] == Desired(secrets, refs, l))
    && (l !in lists ==> Desired(secrets, refs, l) == {})
  }

  ghost predicate ListsExact(lists: map<ObjectKey, set<ObjectKey>>, secrets: map<ObjectKey, Secret>, refs: set<Ref>) {
    forall l :: ListExactAt(lists, secrets, refs, l)
  }

  /** Not flagging a listener is right: its desired set is the one it had. */
  lemma UnflaggedUnchanged(before: map<ObjectKey, Secret>, s: StoreState<Secret>, refs: set<Ref>, refs': set<Ref>, tree: Tree, l: ObjectKey)
    requires Coalesced(before, s) && Mirrors(tree, s.objects) && Records(tree, before, s.updates)
    requires !Flagged(tree, SecretsOf(refs, l), SecretsOf(refs', l))
    ensures Desired(before, refs, l) == Desired(s.objects, refs', l)
  {
    var prev, cur := SecretsOf(refs, l), SecretsOf(refs', l);
    forall k ensures k in prev && k in before <==> k in cur && k in s.objects {
      assert k in prev && k !in cur ==> k in prev - cur;
      assert Lookup(before, k) == (if k in before then Some(before[k]) else None);
      assert k !in s.updates ==> Lookup(before, k) == Lookup(s.objects, k);
      if k in prev && k in cur {
        assert k in cur * prev;
      } else if k in cur {
        assert k in cur - prev;
      }
    }
  }

  lemma ListsStayExact(before: map<ObjectKey, Secret>, s: StoreState<Secret>, refs: set<Ref>, refs': set<Ref>, tree: Tree,
                       lists: map<ObjectKey, set<ObjectKey>>)
    requires Coalesced(before, s) && Mirrors(tree, s.objects) && Records(tree, before, s.updates)
    requires ListsExact(lists, before, refs)
    ensures ListsExact(WriteLists(lists, ListDiffsOf(refs, refs', tree)), s.objects, refs')
  {
    hide ListExactAt;
    forall l ensures ListExactAt(WriteLists(lists, ListDiffsOf(refs, refs', tree)), s.objects, refs', l) {
      ListStaysExact(before, s, refs, refs', tree, lists, l);
    }
  }

  lemma ListStaysExact(before: map<ObjectKey, Secret>, s: StoreState<Secret>, refs: set<Ref>, refs': set<Ref>, tree: Tree,
                       lists: map<ObjectKey, set<ObjectKey>>, l: ObjectKey)
    requires Coalesced(before, s) && Mirrors(tree, s.objects) && Records(tree, before, s.updates)
    requires ListExactAt(lists, before, refs, l)
    ensures ListExactAt(WriteLists(lists, ListDiffsOf(refs, refs', tree)), s.objects, refs', l)
  {
    hide Coalesced, Records, Flagged;
    assert Existing(tree, SecretsOf(refs', l)) == Desired(s.objects, refs', l);
    if l in Listeners(refs) && l in Listeners(refs') {
      if !Flagged(tree, SecretsOf(refs, l), SecretsOf(refs', l)) {
        UnflaggedUnchanged(before, s, refs, refs', tree, l);
      }
    } else if l !in Listeners(refs') {
      assert SecretsOf(refs', l) == {};
    }
  }
}
