/** Object keys and the string names derived from them: listener keys, certificate
    file paths and crt-list file paths, with the decoders the controller has. */
module Keys {
  import opened Wrappers
  import opened Text

  datatype ObjectKey = ObjectKey(ns: string, name: string)

  datatype FilePath = FilePath(dir: string, fileName: string) {
    /** `filepath.Join` of two clean, non-empty elements. */
    function FullPath(): string {
      dir + "/" + fileName
    }
  }

  // ---- listener keys

  function ListenerKey(gw: ObjectKey, listenerName: string): ObjectKey {
    ObjectKey(gw.ns, gw.name + "_" + listenerName)
  }

  function GatewayKeyAndListenerName(key: ObjectKey): Option<(ObjectKey, string)> {
    var parts := Split(key.name, '_');
    if |parts| != 2 then None
    else Some((ObjectKey(key.ns, parts[0]), parts[1]))
  }

  /** The decoder inverts the encoder exactly on names without the separator. */
  lemma ListenerKeyRoundTrip(gw: ObjectKey, listenerName: string)
    ensures GatewayKeyAndListenerName(ListenerKey(gw, listenerName)) == Some((gw, listenerName))
        <==> '_' !in gw.name && '_' !in listenerName
  {
    var parts := [gw.name, listenerName];
    assert Join(parts, '_') == gw.name + "_" + listenerName by {
      assert Join(parts[1..], '_') == listenerName;
    }
    SplitJoin(parts, '_');
    assert (forall i :: 0 <= i < |parts| ==> '_' !in parts[i]) <==>
           ('_' !in parts[0] && '_' !in parts[1]);
  }

  lemma ListenerKeyDecoded(key: ObjectKey)
    requires GatewayKeyAndListenerName(key).Some?
    ensures var (gw, name) := GatewayKeyAndListenerName(key).value; ListenerKey(gw, name) == key
  {
    var parts := Split(key.name, '_');
    SplitParts(key.name, '_');
    assert Join(parts, '_') == parts[0] + "_" + parts[1] by {
      assert Join(parts[1..], '_') == parts[1];
    }
  }

  lemma ListenerKeyInjective(g: ObjectKey, l: string, g': ObjectKey, l': string)
    requires '_' !in g.name && '_' !in g'.name
    requires ListenerKey(g, l) == ListenerKey(g', l')
    ensures g == g' && l == l'
  {
    PrefixInjective(g.name, l, g'.name, l');
  }

  lemma PrefixInjective(p: string, s: string, p': string, s': string)
    requires '_' !in p && '_' !in p'
    requires p + "_" + s == p' + "_" + s'
    ensures p == p' && s == s'
  {
    SplitPrefix(p, s, '_');
    SplitPrefix(p', s', '_');
    assert p + ['_'] + s == p + "_" + s && p' + ['_'] + s' == p' + "_" + s';
    var whole := Split(p + "_" + s, '_');
    assert whole[0] == p == p';
    assert whole[1..] == Split(s, '_') == Split(s', '_');
    SplitParts(s, '_');
    SplitParts(s', '_');
  }

  // ---- certificate files

  /** The names for which every path below is defined and distinct: what the
      Kubernetes name rules give, plus two characters for the directory. */
  predicate LegalSecretKey(k: ObjectKey) {
    |k.name| >= 2 && '_' !in k.ns && '_' !in k.name && '/' !in k.ns && '/' !in k.name
  }

  predicate LegalListenerKey(k: ObjectKey) {
    '_' !in k.ns
  }

  /** Slicing the first two characters needs a name of at least two. */
  function CertPath(base: string, k: ObjectKey): FilePath
    requires |k.name| >= 2
  {
    FilePath(base + "/" + k.ns + "/" + k.name[..2], k.ns + "_" + k.name + ".pem")
  }

  function CrtListPath(base: string, l: ObjectKey): FilePath {
    FilePath(base, l.ns + "_" + l.name + ".list")
  }

  /** The part of `filepath.Ext` and `strings.TrimSuffix` used here: cut at the last
      dot of the last path element, if it has one. */
  function RemoveFileExtension(path: string): string {
    if path == "" || path[|path|-1] == '/' then path
    else match LastDot(path, |path|)
      case Some(i) => path[..i]
      case None => path
  }

  function LastDot(path: string, n: nat): (r: Option<nat>)
    requires n <= |path|
    ensures r.Some? ==> r.value < n
  {
    if n == 0 || path[n-1] == '/' then None
    else if path[n-1] == '.' then Some(n - 1)
    else LastDot(path, n - 1)
  }

  function TrimTrailingSlashes(path: string): (r: string)
    ensures r == "" || r[|r|-1] != '/'
  {
    if path != "" && path[|path|-1] == '/' then TrimTrailingSlashes(path[..|path|-1]) else path
  }

  function AfterLastSlash(path: string): (r: string)
    ensures '/' !in r && HasSuffix(path, r)
  {
    if path == "" || path[|path|-1] == '/' then ""
    else AfterLastSlash(path[..|path|-1]) + [path[|path|-1]]
  }

  /** `filepath.Base`. */
  function Base(path: string): string {
    if path == "" then "."
    else
      var trimmed := TrimTrailingSlashes(path);
      if trimmed == "" then "/" else AfterLastSlash(trimmed)
  }

  function SecretKeyFromCertificateFullPath(path: string): Option<ObjectKey> {
    var parts := Split(Base(RemoveFileExtension(path)), '_');
    if |parts| != 2 then None else Some(ObjectKey(parts[0], parts[1]))
  }

  lemma {:induction false} AfterLastSlashOfJoin(dir: string, file: string)
    requires '/' !in file
    ensures AfterLastSlash(dir + "/" + file) == file
  {
    var path := dir + "/" + file;
    if file != "" {
      assert path[..|path|-1] == dir + "/" + file[..|file|-1];
      AfterLastSlashOfJoin(dir, file[..|file|-1]);
      assert file == file[..|file|-1] + [file[|file|-1]];
    }
  }

  lemma PemRemoved(stem: string)
    ensures RemoveFileExtension(stem + ".pem") == stem
  {
    var path := stem + ".pem";
    assert path[|stem|] == '.' && path[|stem|+1] == 'p' && path[|stem|+2] == 'e' && path[|stem|+3] == 'm';
    assert LastDot(path, |path|) == LastDot(path, |stem| + 3) == LastDot(path, |stem| + 2)
        == LastDot(path, |stem| + 1) == Some(|stem|);
    assert path[..|stem|] == stem;
  }

  /** The path decoder inverts the path encoder exactly on names without the two
      separators. */
  lemma CertPathRoundTrip(base: string, k: ObjectKey)
    requires |k.name| >= 2
    ensures SecretKeyFromCertificateFullPath(CertPath(base, k).FullPath()) == Some(k)
        <==> LegalSecretKey(k)
  {
    var dir := base + "/" + k.ns + "/" + k.name[..2];
    var file := k.ns + "_" + k.name;
    var stem := dir + "/" + file;
    assert CertPath(base, k).FullPath() == stem + ".pem";
    PemRemoved(stem);
    if LegalSecretKey(k) {
      assert '/' !in file;
      assert stem[|stem|-1] == k.name[|k.name|-1];
      assert TrimTrailingSlashes(stem) == stem;
      AfterLastSlashOfJoin(dir, file);
      SplitJoinClean([k.ns, k.name], '_');
      assert Join([k.ns, k.name], '_') == file by {
        assert Join([k.ns, k.name][1..], '_') == k.name;
      }
    } else if SecretKeyFromCertificateFullPath(stem + ".pem") == Some(k) {
      CertPathDecoded(stem + ".pem", k);
    }
  }

  lemma CertPathDecoded(path: string, k: ObjectKey)
    requires SecretKeyFromCertificateFullPath(path) == Some(k)
    ensures '_' !in k.ns && '_' !in k.name && '/' !in k.ns && '/' !in k.name
  {
    var b := Base(RemoveFileExtension(path));
    SplitParts(b, '_');
    var parts := Split(b, '_');
    assert b == parts[0] + "_" + parts[1] by {
      assert Join(parts[1..], '_') == parts[1];
    }
    assert b != "/";
  }

  lemma CertPathInjective(base: string, k: ObjectKey, k': ObjectKey)
    requires LegalSecretKey(k) && LegalSecretKey(k')
    requires CertPath(base, k).FullPath() == CertPath(base, k').FullPath()
          || CertPath(base, k).fileName == CertPath(base, k').fileName
    ensures k == k'
  {
    if CertPath(base, k).fileName == CertPath(base, k').fileName {
      var f, f' := k.ns + "_" + k.name, k'.ns + "_" + k'.name;
      assert f + ".pem" == f' + ".pem";
      assert (f + ".pem")[..|f|] == f && (f' + ".pem")[..|f'|] == f';
      PrefixInjective(k.ns, k.name, k'.ns, k'.name);
    } else {
      CertPathRoundTrip(base, k);
      CertPathRoundTrip(base, k');
    }
  }

  lemma CrtListPathInjective(base: string, l: ObjectKey, l': ObjectKey)
    requires LegalListenerKey(l) && LegalListenerKey(l')
    requires CrtListPath(base, l).FullPath() == CrtListPath(base, l').FullPath()
          || CrtListPath(base, l).fileName == CrtListPath(base, l').fileName
    ensures l == l'
  {
    var f, f' := l.ns + "_" + l.name, l'.ns + "_" + l'.name;
    if CrtListPath(base, l).FullPath() == CrtListPath(base, l').FullPath() {
      var p := base + "/";
      assert (p + (f + ".list"))[|p|..] == f + ".list";
      assert (p + (f' + ".list"))[|p|..] == f' + ".list";
    }
    assert f + ".list" == f' + ".list";
    assert (f + ".list")[..|f|] == f && (f' + ".list")[..|f'|] == f';
    PrefixInjective(l.ns, l.name, l'.ns, l'.name);
  }
}
