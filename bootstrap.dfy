/** The identity bootstrap at the top of src/index.js: read the three
    credential files and the panel file, and either generate and persist a
    fresh self-signed identity (and stop there) or start serving with the
    credentials on disk. */
module Bootstrap {
  import opened Wrappers
  import opened Gateway

  /** A credential triple: the node's private key, the CA key and the
      node's certificate. */
  datatype Identity = Identity(nodeKey: string, caKey: string, nodeCert: string)

  /** The `keys` directory: each file's text, or `None` when the file does
      not exist. */
  datatype KeyDir = KeyDir(
    nodeKey: Option<string>,
    caKey: Option<string>,
    nodeCert: Option<string>,
    panel: Option<string>)

  /** JavaScript truthiness of the value read for a file: `null` for a
      missing file and "" for an empty one are both falsy. */
  predicate Present(f: Option<string>) {
    f.Some? && f.value != ""
  }

  /** What a start of the process does. */
  datatype Action = Generate | Serve(identity: Identity)

  /** The credential check: serve with the three files only when every one
      of them is present and non-empty; any missing or empty one (partial
      presence included) regenerates all three. */
  function StartupAction(nodeKey: Option<string>, caKey: Option<string>, nodeCert: Option<string>): (a: Action)
    ensures a.Generate? <==> !Present(nodeKey) || !Present(caKey) || !Present(nodeCert)
    ensures a.Serve? ==>
              && nodeKey == Some(a.identity.nodeKey)
              && caKey == Some(a.identity.caKey)
              && nodeCert == Some(a.identity.nodeCert)
              && a.identity.nodeKey != "" && a.identity.caKey != "" && a.identity.nodeCert != ""
  {
    if Present(nodeKey) && Present(caKey) && Present(nodeCert) then
      Serve(Identity(nodeKey.value, caKey.value, nodeCert.value))
    else
      Generate
  }

  /** How one start of the process ends: either it wrote a new identity to
      `keys` and never created the server, or it serves requests starting
      from the gateway state read from disk. */
  datatype Outcome =
    | Generated(keys: KeyDir)
    | Serving(identity: Identity, gateway: State)

  /** One start of the process. `generated` is the triple the certificate
      library hands to its callback (its service key, client key and
      certificate); it is only used when the credentials need generating. */
  function Boot(keys: KeyDir, files: Store, generated: Identity): (r: Outcome)
    ensures r.Generated? <==> StartupAction(keys.nodeKey, keys.caKey, keys.nodeCert).Generate?
    ensures r.Generated? ==>
              && r.keys.nodeKey == Some(generated.nodeKey)
              && r.keys.caKey == Some(generated.caKey)
              && r.keys.nodeCert == Some(generated.nodeCert)
              && r.keys.panel == keys.panel
    ensures r.Serving? ==>
              && Some(r.identity.nodeKey) == keys.nodeKey
              && Some(r.identity.caKey) == keys.caKey
              && Some(r.identity.nodeCert) == keys.nodeCert
              && r.gateway.files == files
              && r.gateway.panelFile == keys.panel
              && Mirrored(r.gateway)
              && (Paired(r.gateway) <==> Present(keys.panel))
  {
    match StartupAction(keys.nodeKey, keys.caKey, keys.nodeCert)
    case Generate =>
      Generated(keys.(nodeKey := Some(generated.nodeKey),
                      caKey := Some(generated.caKey),
                      nodeCert := Some(generated.nodeCert)))
    case Serve(identity) =>
      Serving(identity, State(keys.panel.GetOr(""), keys.panel, files))
  }
}
