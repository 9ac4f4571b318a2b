/** Properties of the gateway and the bootstrap that relate several
    requests or several starts of the process. */
module Properties {
  import opened Wrappers
  import opened Protocol
  import opened Gateway
  import opened Bootstrap

  /** A key that `/init` accepted anywhere in a run is the key the node is
      paired with at the end of it. */
  lemma {:induction false} AcceptedKeyIsFinal(s: State, reqs: seq<Request>, i: nat)
    requires i < |reqs| && reqs[i].PostInit?
    requires Run(s, reqs).0[i] == Ok()
    ensures Run(s, reqs).1.panelKey == reqs[i].key
    decreases |reqs|
  {
    var (resp, next) := Step(s, reqs[0]);
    if i == 0 {
      assert resp == Ok();
      assert Paired(next);
    } else {
      AcceptedKeyIsFinal(next, reqs[1..], i - 1);
    }
  }

  /** At most one panel key is ever accepted: any two `/init` requests that
      succeed in one run carry the same key. */
  lemma AtMostOneKeyAccepted(s: State, reqs: seq<Request>, i: nat, j: nat)
    requires i < |reqs| && j < |reqs| && reqs[i].PostInit? && reqs[j].PostInit?
    requires Run(s, reqs).0[i] == Ok() && Run(s, reqs).0[j] == Ok()
    ensures reqs[i].key == reqs[j].key
  {
    AcceptedKeyIsFinal(s, reqs, i);
    AcceptedKeyIsFinal(s, reqs, j);
  }

  /** Before pairing, every file request is answered NOT_CONNECTED with
      `reconnect: true`, whatever its body, and the node stays unpaired. */
  lemma {:induction false} UnpairedRunIsGated(s: State, reqs: seq<Request>)
    requires !Paired(s)
    requires forall k :: 0 <= k < |reqs| ==> !reqs[k].PostInit?
    ensures forall k :: 0 <= k < |reqs| ==> Run(s, reqs).0[k] == NotPaired()
    ensures Run(s, reqs).1.panelKey == s.panelKey && Run(s, reqs).1.panelFile == s.panelFile
    decreases |reqs|
  {
    if reqs != [] {
      var (resp, next) := Step(s, reqs[0]);
      UnpairedRunIsGated(next, reqs[1..]);
      var rest := Run(next, reqs[1..]).0;
      assert Run(s, reqs).0 == [resp] + rest;
      forall k | 0 <= k < |reqs| ensures Run(s, reqs).0[k] == NotPaired() {
        if k > 0 {
          assert Run(s, reqs).0[k] == rest[k - 1];
        }
      }
    }
  }

  /** Pairing twice with the same key succeeds both times, and the second
      call changes nothing. */
  lemma InitIsIdempotent(s: State, key: string)
    requires InitStep(s, key).0 == Ok()
    ensures InitStep(InitStep(s, key).1, key) == (Ok(), InitStep(s, key).1)
  {
  }

  /** Once `/init` has accepted `a` (first pairing or a repeat), `/init`
      with a different `b` is refused with 403
      and the key stays `a`. */
  lemma InitConflict(s: State, a: string, b: string)
    requires InitStep(s, a).0 == Ok() && b != "" && a != b
    ensures InitStep(InitStep(s, a).1, b) == (AlreadyPaired(), InitStep(s, a).1)
    ensures InitStep(InitStep(s, a).1, b).1.panelKey == a
  {
  }

  /** Once paired, uploading a file and downloading it by the same name
      gives back exactly the uploaded bytes. */
  lemma UploadThenDownload(s: State, name: string, bytes: Bytes)
    requires Paired(s) && name != ""
    ensures UploadStep(s, Some(FilePart(name, bytes))).0 == Ok()
    ensures DownloadStep(UploadStep(s, Some(FilePart(name, bytes))).1, name) == Stream(bytes)
  {
  }

  /** A file that was deleted can no longer be downloaded. */
  lemma DeleteThenDownload(s: State, id: string)
    requires DeleteStep(s, id).0 == Ok()
    ensures DownloadStep(DeleteStep(s, id).1, id) == NoSuchFile()
  {
  }

  /** An upload refused because the node is not paired still leaves its
      file in the store: after a later successful pairing it can be
      downloaded. */
  lemma RefusedUploadIsKept(s: State, name: string, bytes: Bytes, key: string)
    requires !Paired(s) && name != ""
    requires InitStep(UploadStep(s, Some(FilePart(name, bytes))).1, key).0 == Ok()
    ensures UploadStep(s, Some(FilePart(name, bytes))).0 == NotPaired()
    ensures DownloadStep(InitStep(UploadStep(s, Some(FilePart(name, bytes))).1, key).1, name) == Stream(bytes)
  {
  }

  /** The pairing and the files survive a restart: a node that served any
      run of requests and is started again on the same disk comes up with
      the same identity and exactly the state it stopped in. */
  lemma RestartKeepsState(keys: KeyDir, files: Store, g: Identity, reqs: seq<Request>, g': Identity)
    requires Boot(keys, files, g).Serving?
    ensures var out := Boot(keys, files, g);
            var last := Run(out.gateway, reqs).1;
            Boot(keys.(panel := last.panelFile), last.files, g') == Serving(out.identity, last)
  {
    var out := Boot(keys, files, g);
    var last := Run(out.gateway, reqs).1;
    assert Mirrored(last);
  }

  /** A start that generates credentials is followed by one that serves
      with them, provided the library produced non-empty strings; the
      pairing file is left as it was. */
  lemma GeneratedIdentityIsReused(keys: KeyDir, files: Store, g: Identity, g': Identity)
    requires Boot(keys, files, g).Generated?
    requires g.nodeKey != "" && g.caKey != "" && g.nodeCert != ""
    ensures Boot(Boot(keys, files, g).keys, files, g').Serving?
    ensures Boot(Boot(keys, files, g).keys, files, g').identity == g
    ensures Boot(Boot(keys, files, g).keys, files, g').gateway.panelFile == keys.panel
  {
  }
}
