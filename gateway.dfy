/** The pairing and transfer gateway of src/index.js as pure functions over
    the node's state: the `/init`, `/files/delete`, `/files/upload` and
    `/files/download` handlers, and a sequence of requests served one after
    another. The class in NodeServer updates its fields exactly as these
    functions say. */
module Gateway {
  import opened Wrappers
  import opened Protocol

  /** The flat file directory: file name to contents. */
  type Store = map<string, Bytes>

  /** What multer decoded from the `file` field of a multipart upload: the
      client's original file name and the bytes. */
  datatype FilePart = FilePart(originalName: string, bytes: Bytes)

  /** The node's mutable state: the in-memory `PANEL_KEY` ("" when unset,
      standing for both `null` and the empty string), the `keys/panel` file
      (`None` when it does not exist), and the file directory. */
  datatype State = State(panelKey: string, panelFile: Option<string>, files: Store)

  /** One request to one of the four routes. A missing `key` or `id` field
      is the empty string. `part` is `None` when the upload carried no file. */
  datatype Request =
    | PostInit(key: string)
    | PostDelete(id: string)
    | PostUpload(part: Option<FilePart>)
    | PostDownload(id: string)

  /** The node has accepted a panel key. */
  predicate Paired(s: State) {
    s.panelKey != ""
  }

  /** The in-memory key is what a restart would read back from `keys/panel`. */
  predicate Mirrored(s: State) {
    s.panelKey == s.panelFile.GetOr("")
  }

  /** The store after multer has written `part`, if there is one. */
  function WriteUpload(files: Store, part: Option<FilePart>): (r: Store)
    ensures part.None? ==> r == files
    ensures part.Some? ==>
              r.Keys == files.Keys + {part.value.originalName} && r[part.value.originalName] == part.value.bytes
    ensures forall n :: n in files && (part.None? || n != part.value.originalName) ==> n in r && r[n] == files[n]
  {
    match part
    case None => files
    case Some(p) => files[p.originalName := p.bytes]
  }

  /** POST /init: validate the key, refuse a different key once paired,
      otherwise pair (first time only, persisting the key) and succeed. */
  function InitStep(s: State, key: string): (r: (Response, State))
    ensures r.1.files == s.files
    ensures key == "" ==> r == (BadBody(), s)
    ensures r.0 == Ok() <==> key != "" && (s.panelKey == "" || s.panelKey == key)
    ensures r.0 != Ok() ==> r.1 == s
    ensures key != "" && Paired(s) && s.panelKey != key ==> r.0 == AlreadyPaired()
    ensures r.0 == Ok() ==> r.1.panelKey == key
    ensures r.0 == Ok() && Mirrored(s) ==> r.1.panelFile == Some(key)
    ensures Paired(s) ==> r.1 == s
    ensures Mirrored(s) ==> Mirrored(r.1)
  {
    if key == "" then (BadBody(), s)
    else if s.panelKey != "" && s.panelKey != key then (AlreadyPaired(), s)
    else if s.panelKey == "" then (Ok(), s.(panelKey := key, panelFile := Some(key)))
    else (Ok(), s)
  }

  /** POST /files/delete: pairing guard, then `id` guard, then existence
      guard, then unlink. */
  function DeleteStep(s: State, id: string): (r: (Response, State))
    ensures r.1.panelKey == s.panelKey && r.1.panelFile == s.panelFile
    ensures !Paired(s) ==> r.0 == NotPaired()
    ensures Paired(s) && id == "" ==> r.0 == BadBody()
    ensures Paired(s) && id != "" && id !in s.files ==> r.0 == NoSuchFile()
    ensures r.0 == Ok() <==> Paired(s) && id != "" && id in s.files
    ensures r.0 != Ok() ==> r.1 == s
    ensures r.0 == Ok() ==> r.1.files.Keys == s.files.Keys - {id}
    ensures forall n :: n in r.1.files ==> n in s.files && r.1.files[n] == s.files[n]
  {
    if s.panelKey == "" then (NotPaired(), s)
    else if id == "" then (BadBody(), s)
    else if id !in s.files then (NoSuchFile(), s)
    else (Ok(), s.(files := s.files - {id}))
  }

  /** POST /files/upload: multer stores the file before the handler runs,
      so the write happens whether or not the node is paired; only the
      reply depends on pairing. */
  function UploadStep(s: State, part: Option<FilePart>): (r: (Response, State))
    ensures r.1.panelKey == s.panelKey && r.1.panelFile == s.panelFile
    ensures r.1.files == WriteUpload(s.files, part)
    ensures r.0 == (if Paired(s) then Ok() else NotPaired())
  {
    var written := s.(files := WriteUpload(s.files, part));
    if s.panelKey == "" then (NotPaired(), written)
    else (Ok(), written)
  }

  /** POST /files/download: the same three guards as delete, then the file's
      bytes as a stream. Nothing changes. */
  function DownloadStep(s: State, id: string): (r: Response)
    ensures !Paired(s) ==> r == NotPaired()
    ensures Paired(s) && id == "" ==> r == BadBody()
    ensures Paired(s) && id != "" && id !in s.files ==> r == NoSuchFile()
    ensures r.Stream? <==> Paired(s) && id != "" && id in s.files
    ensures r.Stream? ==> r.bytes == s.files[id] && r.Status() == 200
    ensures r.Succeeded() == r.Stream?
  {
    if s.panelKey == "" then NotPaired()
    else if id == "" then BadBody()
    else if id !in s.files then NoSuchFile()
    else Stream(s.files[id])
  }

  /** One request, routed to its handler. */
  function Step(s: State, req: Request): (r: (Response, State))
    ensures !Paired(s) && !req.PostInit? ==> r.0 == NotPaired()
    ensures Paired(s) ==> r.1.panelKey == s.panelKey && r.1.panelFile == s.panelFile
    ensures !req.PostInit? ==> r.1.panelKey == s.panelKey && r.1.panelFile == s.panelFile
    ensures req.PostInit? || req.PostDownload? ==> r.1.files == s.files
    ensures Mirrored(s) ==> Mirrored(r.1)
  {
    match req
    case PostInit(key) => InitStep(s, key)
    case PostDelete(id) => DeleteStep(s, id)
    case PostUpload(part) => UploadStep(s, part)
    case PostDownload(id) => (DownloadStep(s, id), s)
  }

  /** Requests served one after another from `s`: the responses in order
      and the final state. */
  function Run(s: State, reqs: seq<Request>): (r: (seq<Response>, State))
    ensures |r.0| == |reqs|
    ensures Paired(s) ==> r.1.panelKey == s.panelKey && r.1.panelFile == s.panelFile
    ensures Mirrored(s) ==> Mirrored(r.1)
    decreases |reqs|
  {
    if reqs == [] then ([], s)
    else
      var (resp, next) := Step(s, reqs[0]);
      var (rest, last) := Run(next, reqs[1..]);
      ([resp] + rest, last)
  }
}
