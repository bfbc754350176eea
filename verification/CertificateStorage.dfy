/** Certificate files and crt-list files on disk. The maps from paths are the disk;
    the ghost maps say which secret or listener each file belongs to. */
module CertificateStorages {
  import opened Wrappers
  import opened Text
  import opened Keys
  import opened GatewayApi
  import opened ObjectStores
  import opened References
  import opened CertificateSpec

  datatype CertificateData = CertificateData(path: FilePath, data: bytes)

  const KINDS := ["tls", "rsa", "ecdsa", "dsa"]

  /** The file of the i-th kind of pair: a plain `tls` pair under the secret's own path,
      a bundle under a name that repeats the whole path. */
  ghost predicate IsDataOfKind(base: string, secret: Secret, i: nat, d: CertificateData)
    requires i < |KINDS| && |secret.key.name| >= 2
  {
    var path := CertPath(base, secret.key);
    && HasPair(secret, KINDS[i])
    && d.data == CertContent(secret.data[KINDS[i] + ".key"], secret.data[KINDS[i] + ".crt"])
    && KeyThenCert(d.data, secret.data[KINDS[i] + ".key"], secret.data[KINDS[i] + ".crt"])
    && d.path == if i == 0 then path else path.(fileName := path.FullPath() + "." + KINDS[i])
  }

  ghost function Paths(base: string, keys: set<ObjectKey>): set<string> {
    set k | k in keys && LegalSecretKey(k) :: CertPath(base, k).FullPath()
  }

  /** `files` holds one file per entry of `certs`, and nothing else. */
  ghost predicate CertFilesAre(files: map<string, bytes>, base: string, certs: map<ObjectKey, bytes>) {
    && (forall k :: k in certs ==>
          LegalSecretKey(k) && CertPath(base, k).FullPath() in files && files[CertPath(base, k).FullPath()] == certs[k])
    && (forall p :: p in files ==> exists k :: k in certs && LegalSecretKey(k) && p == CertPath(base, k).FullPath())
  }

  /** Every listed path is that of a secret of the listener, once, in order. */
  ghost predicate IsCrtList(content: seq<string>, base: string, keys: set<ObjectKey>) {
    (forall k :: k in keys ==> LegalSecretKey(k)) && SortedListOf(content, Paths(base, keys))
  }

  /** That list as a value: the path order leaves no choice. */
  ghost function CrtListContent(base: string, keys: set<ObjectKey>): (r: seq<string>)
    ensures (forall k :: k in keys ==> LegalSecretKey(k)) ==> IsCrtList(r, base, keys)
  {
    SortedListExists(Paths(base, keys));
    var r :| SortedListOf(r, Paths(base, keys));
    r
  }

  ghost predicate ListFilesAre(files: map<string, seq<string>>, certsBase: string, listsBase: string, lists: map<ObjectKey, set<ObjectKey>>) {
    && (forall l :: l in lists ==>
          LegalListenerKey(l) && CrtListPath(listsBase, l).FullPath() in files
          && IsCrtList(files[CrtListPath(listsBase, l).FullPath()], certsBase, lists[l]))
    && (forall p :: p in files ==> exists l :: l in lists && LegalListenerKey(l) && p == CrtListPath(listsBase, l).FullPath())
  }

  /** The file of every legal key is there exactly when the key is wanted, with its content. */
  ghost predicate CertFilesOnDisk(files: map<string, bytes>, base: string, certs: map<ObjectKey, bytes>) {
    forall k :: LegalSecretKey(k) ==> CertFileOnDisk(files, base, certs, k)
  }

  ghost predicate CertFileOnDisk(files: map<string, bytes>, base: string, certs: map<ObjectKey, bytes>, k: ObjectKey)
    requires |k.name| >= 2
  {
    var path := CertPath(base, k).FullPath();
    (path in files <==> k in certs) && (k in certs ==> files[path] == certs[k])
  }

  lemma CertFilesRead(files: map<string, bytes>, base: string, certs: map<ObjectKey, bytes>)
    requires CertFilesAre(files, base, certs)
    ensures CertFilesOnDisk(files, base, certs)
  {
    forall k | LegalSecretKey(k) ensures CertFileOnDisk(files, base, certs, k) {
      if CertPath(base, k).FullPath() in files {
        var k' :| k' in certs && LegalSecretKey(k') && CertPath(base, k).FullPath() == CertPath(base, k').FullPath();
        CertPathInjective(base, k, k');
      }
    }
  }

  /** The list file of every legal listener names its desired certificates, or is absent
      because there are none. */
  ghost predicate ListFilesOnDisk(files: map<string, seq<string>>, certsBase: string, listsBase: string,
                                  secrets: map<ObjectKey, Secret>, refs: set<Ref>) {
    forall l :: LegalListenerKey(l) ==> ListFileOnDisk(files, certsBase, listsBase, secrets, refs, l)
  }

  ghost predicate ListFileOnDisk(files: map<string, seq<string>>, certsBase: string, listsBase: string,
                                 secrets: map<ObjectKey, Secret>, refs: set<Ref>, l: ObjectKey) {
    var path := CrtListPathSpelled(listsBase, l);
    if path in files then IsCrtList(files[path], certsBase, Desired(secrets, refs, l)) && ListsPaths(files[path], certsBase, Desired(secrets, refs, l))
    else Desired(secrets, refs, l) == {}
  }

  ghost predicate ListsPaths(content: seq<string>, base: string, keys: set<ObjectKey>) {
    forall p :: p in content <==> exists k :: k in keys && LegalSecretKey(k) && p == CertPathSpelled(base, k)
  }

  lemma CrtListListsPaths(content: seq<string>, base: string, keys: set<ObjectKey>)
    requires IsCrtList(content, base, keys)
    ensures ListsPaths(content, base, keys)
  {
    hide CertPath, CertPathSpelled;
    forall k | LegalSecretKey(k) ensures CertPath(base, k).FullPath() == CertPathSpelled(base, k) {
      CertPathIsSpelled(base, k);
    }
    forall p ensures p in content <==> p in Paths(base, keys) {}
  }

  lemma ListFilesRead(files: map<string, seq<string>>, certsBase: string, listsBase: string, lists: map<ObjectKey, set<ObjectKey>>,
                      secrets: map<ObjectKey, Secret>, refs: set<Ref>)
    requires ListFilesAre(files, certsBase, listsBase, lists) && ListsExact(lists, secrets, refs)
    ensures ListFilesOnDisk(files, certsBase, listsBase, secrets, refs)
  {
    hide IsCrtList, Desired, ListsPaths, CrtListPath, CrtListPathSpelled;
    forall l | LegalListenerKey(l) ensures ListFileOnDisk(files, certsBase, listsBase, secrets, refs, l) {
      assert ListExactAt(lists, secrets, refs, l);
      CrtListPathIsSpelled(listsBase, l);
      if CrtListPath(listsBase, l).FullPath() in files {
        var l' :| l' in lists && LegalListenerKey(l') && CrtListPath(listsBase, l).FullPath() == CrtListPath(listsBase, l').FullPath();
        CrtListPathInjective(listsBase, l, l');
        CrtListListsPaths(files[CrtListPath(listsBase, l).FullPath()], certsBase, Desired(secrets, refs, l));
      }
    }
  }

  // ---- the same, spelled out

  /** Namespace, two characters of the name, and both again. */
  ghost function CertPathSpelled(base: string, k: ObjectKey): string
    requires |k.name| >= 2
  {
    base + "/" + k.ns + "/" + [k.name[0], k.name[1]] + "/" + k.ns + "_" + k.name + ".pem"
  }

  lemma CertPathIsSpelled(base: string, k: ObjectKey)
    requires |k.name| >= 2
    ensures CertPath(base, k).FullPath() == CertPathSpelled(base, k)
  {
    var dir := base + "/" + k.ns + "/" + [k.name[0], k.name[1]];
    assert k.name[..2] == [k.name[0], k.name[1]];
    assert dir + "/" + (k.ns + "_" + k.name + ".pem") == dir + "/" + k.ns + "_" + k.name + ".pem";
  }

  ghost function CrtListPathSpelled(base: string, l: ObjectKey): string {
    base + "/" + l.ns + "_" + l.name + ".list"
  }

  lemma CrtListPathIsSpelled(base: string, l: ObjectKey)
    ensures CrtListPath(base, l).FullPath() == CrtListPathSpelled(base, l)
  {
    assert base + "/" + (l.ns + "_" + l.name + ".list") == base + "/" + l.ns + "_" + l.name + ".list";
  }

  /** A file is there exactly when the secret is referenced, stored and has both parts; it
      holds the key and then the certificate. */
  ghost predicate KeyFileOnDisk(files: map<string, bytes>, base: string, secrets: map<ObjectKey, Secret>, refs: set<Ref>, k: ObjectKey)
    requires |k.name| >= 2
  {
    var path := CertPathSpelled(base, k);
    if k in Secrets(refs) && k in secrets && "tls.key" in secrets[k].data && "tls.crt" in secrets[k].data then
      path in files && KeyThenCert(files[path], secrets[k].data["tls.key"], secrets[k].data["tls.crt"])
    else path !in files
  }

  lemma KeyFileRead(files: map<string, bytes>, base: string, certs: map<ObjectKey, bytes>,
                    secrets: map<ObjectKey, Secret>, refs: set<Ref>, k: ObjectKey)
    requires LegalSecretKey(k) && CertFilesOnDisk(files, base, certs)
    requires Lookup(certs, k) == Lookup(WantedCerts(secrets, refs), k)
    ensures KeyFileOnDisk(files, base, secrets, refs, k)
  {
    hide KeyThenCert, CertContent, CertPath, CertPathSpelled;
    CertPathIsSpelled(base, k);
    assert CertFileOnDisk(files, base, certs, k);
    assert "tls" + ".key" == "tls.key" && "tls" + ".crt" == "tls.crt";
    if k in secrets && "tls.key" in secrets[k].data && "tls.crt" in secrets[k].data {
      ContentIsKeyThenCert(secrets[k].data["tls.key"], secrets[k].data["tls.crt"]);
    }
    assert Lookup(certs, k) == (if k in certs then Some(certs[k]) else None);
  }

  lemma CertFileWritten(files: map<string, bytes>, base: string, certs: map<ObjectKey, bytes>, k: ObjectKey, data: bytes)
    requires CertFilesAre(files, base, certs) && LegalSecretKey(k)
    ensures CertFilesAre(files[CertPath(base, k).FullPath() := data], base, certs[k := data])
  {
    hide CertPath;
    var files', certs' := files[CertPath(base, k).FullPath() := data], certs[k := data];
    forall k' | k' in certs' && k' != k ensures CertPath(base, k').FullPath() != CertPath(base, k).FullPath() {
      if CertPath(base, k').FullPath() == CertPath(base, k).FullPath() { CertPathInjective(base, k, k'); }
    }
    forall p | p in files' ensures exists k' :: k' in certs' && LegalSecretKey(k') && p == CertPath(base, k').FullPath() {
      if p in files {
        var k' :| k' in certs && LegalSecretKey(k') && p == CertPath(base, k').FullPath();
        assert k' in certs';
      } else {
        assert k in certs';
      }
    }
  }

  lemma CertFileDeleted(files: map<string, bytes>, base: string, certs: map<ObjectKey, bytes>, k: ObjectKey)
    requires CertFilesAre(files, base, certs) && LegalSecretKey(k)
    ensures CertFilesAre(files - {CertPath(base, k).FullPath()}, base, certs - {k})
  {
    hide CertPath;
    var files', certs' := files - {CertPath(base, k).FullPath()}, certs - {k};
    forall k' | k' in certs' ensures CertPath(base, k').FullPath() != CertPath(base, k).FullPath() {
      if CertPath(base, k').FullPath() == CertPath(base, k).FullPath() { CertPathInjective(base, k, k'); }
    }
    forall p | p in files' ensures exists k' :: k' in certs' && LegalSecretKey(k') && p == CertPath(base, k').FullPath() {
      var k' :| k' in certs && LegalSecretKey(k') && p == CertPath(base, k').FullPath();
      assert k' in certs';
    }
  }

  lemma ListFileWritten(files: map<string, seq<string>>, cb: string, lb: string, lists: map<ObjectKey, set<ObjectKey>>,
                        l: ObjectKey, content: seq<string>, keys: set<ObjectKey>)
    requires ListFilesAre(files, cb, lb, lists) && LegalListenerKey(l) && IsCrtList(content, cb, keys)
    ensures ListFilesAre(files[CrtListPath(lb, l).FullPath() := content], cb, lb, lists[l := keys])
  {
    hide CrtListPath, IsCrtList, LegalListenerKey;
    var files', lists' := files[CrtListPath(lb, l).FullPath() := content], lists[l := keys];
    forall l' | l' in lists' && l' != l ensures CrtListPath(lb, l').FullPath() != CrtListPath(lb, l).FullPath() {
      if CrtListPath(lb, l').FullPath() == CrtListPath(lb, l).FullPath() { CrtListPathInjective(lb, l, l'); }
    }
    forall p | p in files' ensures exists l' :: l' in lists' && LegalListenerKey(l') && p == CrtListPath(lb, l').FullPath() {
      if p in files {
        var l' :| l' in lists && LegalListenerKey(l') && p == CrtListPath(lb, l').FullPath();
        assert l' in lists';
      } else {
        assert l in lists';
      }
    }
  }

  lemma ListFileDeleted(files: map<string, seq<string>>, cb: string, lb: string, lists: map<ObjectKey, set<ObjectKey>>, l: ObjectKey)
    requires ListFilesAre(files, cb, lb, lists) && LegalListenerKey(l)
    ensures ListFilesAre(files - {CrtListPath(lb, l).FullPath()}, cb, lb, lists - {l})
  {
    hide CrtListPath, IsCrtList, LegalListenerKey;
    var files', lists' := files - {CrtListPath(lb, l).FullPath()}, lists - {l};
    forall l' | l' in lists' ensures CrtListPath(lb, l').FullPath() != CrtListPath(lb, l).FullPath() {
      if CrtListPath(lb, l').FullPath() == CrtListPath(lb, l).FullPath() { CrtListPathInjective(lb, l, l'); }
    }
    forall p | p in files' ensures exists l' :: l' in lists' && LegalListenerKey(l') && p == CrtListPath(lb, l').FullPath() {
      var l' :| l' in lists && LegalListenerKey(l') && p == CrtListPath(lb, l').FullPath();
      assert l' in lists';
    }
  }

  class CertificateStorage {
    const certsBaseDir: string
    const certFilesBaseDir: string
    var certFiles: map<string, bytes>
    var listFiles: map<string, seq<string>>
    ghost var certs: map<ObjectKey, bytes>
    ghost var lists: map<ObjectKey, set<ObjectKey>>

    ghost predicate Valid()
      reads this
    {
      && CertFilesAre(certFiles, certsBaseDir, certs)
      && ListFilesAre(listFiles, certsBaseDir, certFilesBaseDir, lists)
    }

    /** Both directories are emptied at start. */
    constructor (certsBaseDir: string, certFilesBaseDir: string)
      ensures Valid() && certs == map[] && lists == map[]
      ensures this.certsBaseDir == certsBaseDir && this.certFilesBaseDir == certFilesBaseDir
    {
      this.certsBaseDir, this.certFilesBaseDir := certsBaseDir, certFilesBaseDir;
      certFiles, listFiles := map[], map[];
      certs, lists := map[], map[];
    }

    /** The last kind of key pair present decides; without any there is no certificate. */
    method NewCertificateData(secret: Secret) returns (r: Option<CertificateData>)
      requires |secret.key.name| >= 2 || forall kind :: kind in KINDS ==> !HasPair(secret, kind)
      ensures r == None <==> forall kind :: kind in KINDS ==> !HasPair(secret, kind)
      ensures r.Some? ==> exists i :: 0 <= i < |KINDS| && IsDataOfKind(certsBaseDir, secret, i, r.value)
                                      && forall j :: i < j < |KINDS| ==> !HasPair(secret, KINDS[j])
    {
      hide CertContent, KeyThenCert, CertPath;
      r := None;
      for n := 0 to |KINDS|
        invariant r == None <==> forall j :: 0 <= j < n ==> !HasPair(secret, KINDS[j])
        invariant r.Some? ==> exists i :: 0 <= i < n && IsDataOfKind(certsBaseDir, secret, i, r.value)
                                          && forall j :: i < j < n ==> !HasPair(secret, KINDS[j])
      {
        var k := KINDS[n];
        if k + ".key" in secret.data && k + ".crt" in secret.data {
          assert k in KINDS && HasPair(secret, k);
          var certFilePath := CertPath(certsBaseDir, secret.key);
          var certPath := certFilePath.FullPath();
          if k != "tls" {
            certFilePath := certFilePath.(fileName := certPath + "." + k);
          }
          var content := CertContent(secret.data[k + ".key"], secret.data[k + ".crt"]);
          ContentIsKeyThenCert(secret.data[k + ".key"], secret.data[k + ".crt"]);
          r := Some(CertificateData(certFilePath, content));
          assert KINDS[0] == "tls" && KINDS[1] == "rsa" && KINDS[2] == "ecdsa" && KINDS[3] == "dsa";
          assert IsDataOfKind(certsBaseDir, secret, n, r.value);
        }
      }
    }

    method NewTlsCertificateData(secret: Secret) returns (r: Option<CertificateData>)
      requires (|secret.key.name| >= 2 || !HasPair(secret, "tls")) && !HasBundle(secret)
      ensures r == if TlsContent(secret) == None then None
                   else Some(CertificateData(CertPath(certsBaseDir, secret.key), TlsContent(secret).value))
    {
      r := NewCertificateData(secret);
      assert KINDS[0] == "tls" && KINDS[1] == "rsa" && KINDS[2] == "ecdsa" && KINDS[3] == "dsa";
    }

    method NewCrtListContent(secretKeys: set<ObjectKey>) returns (content: seq<string>)
      requires forall k :: k in secretKeys ==> LegalSecretKey(k)
      ensures content == CrtListContent(certsBaseDir, secretKeys)
    {
      var certFullPaths: seq<string> := [];
      var todo := secretKeys;
      while todo != {}
        invariant todo <= secretKeys
        invariant Distinct(certFullPaths)
        invariant forall x :: x in certFullPaths <==> x in Paths(certsBaseDir, secretKeys - todo)
      {
        var k :| k in todo;
        var path := CertPath(certsBaseDir, k).FullPath();
        assert path !in certFullPaths by {
          if path in Paths(certsBaseDir, secretKeys - todo) {
            var k' :| k' in secretKeys - todo && path == CertPath(certsBaseDir, k').FullPath();
            CertPathInjective(certsBaseDir, k, k');
          }
        }
        certFullPaths := certFullPaths + [path];
        todo := todo - {k};
        assert Paths(certsBaseDir, secretKeys - todo) == Paths(certsBaseDir, secretKeys - (todo + {k})) + {path};
      }
      SortStringsOfSet(certFullPaths, Paths(certsBaseDir, secretKeys));
      content := SortStrings(certFullPaths);
      SortedListUnique(content, CrtListContent(certsBaseDir, secretKeys), Paths(certsBaseDir, secretKeys));
    }

    method WriteOnDisk(k: ObjectKey, data: bytes)
      requires Valid() && LegalSecretKey(k)
      modifies this
      ensures Valid() && certs == old(certs)[k := data] && lists == old(lists)
    {
      hide CertFilesAre, ListFilesAre, CertPath;
      CertFileWritten(certFiles, certsBaseDir, certs, k, data);
      certFiles := certFiles[CertPath(certsBaseDir, k).FullPath() := data];
      certs := certs[k := data];
    }

    /** Deleting a file that is not there is not an error. */
    method DeleteFromDisk(k: ObjectKey)
      requires Valid() && LegalSecretKey(k)
      modifies this
      ensures Valid() && certs == old(certs) - {k} && lists == old(lists)
    {
      hide CertFilesAre, ListFilesAre, CertPath;
      CertFileDeleted(certFiles, certsBaseDir, certs, k);
      certFiles := certFiles - {CertPath(certsBaseDir, k).FullPath()};
      certs := certs - {k};
    }

    method WriteCrtListOnDisk(l: ObjectKey, content: seq<string>, ghost keys: set<ObjectKey>)
      requires Valid() && LegalListenerKey(l)
      requires forall k :: k in keys ==> LegalSecretKey(k)
      requires content == CrtListContent(certsBaseDir, keys)
      modifies this
      ensures Valid() && lists == old(lists)[l := keys] && certs == old(certs)
    {
      SortStringsOfSet(content, Paths(certsBaseDir, keys));
      ListFileWritten(listFiles, certsBaseDir, certFilesBaseDir, lists, l, SortStrings(content), keys);
      listFiles := listFiles[CrtListPath(certFilesBaseDir, l).FullPath() := SortStrings(content)];
      lists := lists[l := keys];
    }

    method DeleteCrtListFromDisk(l: ObjectKey)
      requires Valid() && LegalListenerKey(l)
      modifies this
      ensures Valid() && lists == old(lists) - {l} && certs == old(certs)
    {
      hide CertFilesAre, ListFilesAre, CrtListPath;
      ListFileDeleted(listFiles, certsBaseDir, certFilesBaseDir, lists, l);
      listFiles := listFiles - {CrtListPath(certFilesBaseDir, l).FullPath()};
      lists := lists - {l};
    }
  }
}
