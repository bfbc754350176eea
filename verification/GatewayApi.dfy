/** The parts of the Gateway API and of Secrets that the controller reads. */
module GatewayApi {
  import opened Wrappers
  import opened Keys

  type bytes = seq<bv8>

  datatype CertRef = CertRef(group: Option<string>, kind: Option<string>, ns: Option<string>, name: string)

  /** `tls` holds the certificate references of a listener with a TLS section. */
  datatype Listener = Listener(name: string, port: int, protocol: string, tls: Option<seq<CertRef>>)

  datatype Gateway = Gateway(key: ObjectKey, className: string, listeners: seq<Listener>)

  datatype Secret = Secret(key: ObjectKey, data: map<string, bytes>)

  /** Only core Secrets are accepted as certificate references. */
  predicate IsSecretGroupKindSupported(ref: CertRef): (r: bool)
    ensures r <==> ref.kind in {None, Some("Secret")} && ref.group in {None, Some("")}
  {
    (ref.kind == None || ref.kind.value == "Secret") && (ref.group == None || ref.group.value == "")
  }

  /** The namespace of the gateway is the default. */
  function CertRefKey(ref: CertRef, gw: Gateway): (r: ObjectKey)
    ensures r.name == ref.name
    ensures ref.ns == None ==> r.ns == gw.key.ns
    ensures ref.ns != None ==> Some(r.ns) == ref.ns
  {
    ObjectKey(if ref.ns == None then gw.key.ns else ref.ns.value, ref.name)
  }
}
