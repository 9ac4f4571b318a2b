# rstorage-node: pairing, file gateway and identity bootstrap

rstorage-node is a small remote file agent. A controlling panel pairs with a
node once by sending it a key on `POST /init`. After that the panel uploads,
downloads and deletes files in the node's flat `files` directory over HTTPS.
On its first start the node generates a self-signed credential triple
(`node.key`, `ca.key`, `node.cert`) and writes it to its `keys` directory.

This project models the decision logic of `src/index.js` in Dafny and proves
properties of it:

- `Wrappers`: an `Option` datatype.
- `Protocol`: the reply vocabulary. The message constants are enum tags,
  because their text comes from `responses.json`, which is not part of this
  model. A reply is a JSON object (status, message, success, reconnect) or a
  raw byte stream.
- `Gateway`: the node state as a value. It holds `PANEL_KEY`, the
  `keys/panel` file that mirrors it, and the file directory as
  `map<string, seq<bv8>>`. Each handler is a pure step function. `Run`
  serves a sequence of requests one after another.
- `NodeServer`: class `Node`. Its fields are updated in place by the
  methods `Init`, `Delete`, `Upload` and `Download`. Each method is proved
  to produce exactly the reply and new state of its `Gateway` step function.
- `Bootstrap`: the startup credential check (`StartupAction`). One start of
  the process (`Boot`) either generates and persists credentials without
  ever creating the server, or serves from the state on disk.
- `Properties`: lemmas that relate several requests or several starts.

Conventions. An unset `PANEL_KEY` is the empty string, because the code
tests it for truthiness, so `null` and `""` behave alike. A missing `key`
or `id` field is the empty string. A file that does not exist is `None`.

Three behaviours of src/index.js are easy to miss; the model reproduces
them:

- Upload: the multer disk write runs before the pairing check
  (src/index.js:86). So an upload to an unpaired node is answered 400
  NOT_CONNECTED, but the file is still stored (`UploadStep`,
  `RefusedUploadIsKept`).
- Missing `id`: `/files/delete` and `/files/download` check pairing first.
  An unpaired node answers NOT_CONNECTED even when `id` is missing, not
  INVALID_BODY.
- Credentials: they are tested for truthiness, not existence. An existing
  but empty credential file also triggers full regeneration.

## Model

| member | source | states |
|---|---|---|
| Gateway.WriteUpload | src/index.js:10-17 | multer stores the part under its original name; this overwrites an existing entry and leaves every other file untouched; with no part the store is unchanged |
| Gateway.InitStep | src/index.js:62-74 | an empty key gives 400 INVALID_BODY with nothing changed, whatever the pairing state; success happens exactly when the key is non-empty and the node is unpaired or paired with that same key; success leaves the node paired with that key and persisted to the panel file; a different key on a paired node gives 403 and no change; a paired node's state never changes; the store is never touched |
| Gateway.DeleteStep | src/index.js:75-85 | guards in order (unpaired gives 400 NOT_CONNECTED with reconnect, then an empty id gives INVALID_BODY, then an absent id gives NO_SUCH_FILE_OR_DIR); success happens exactly when paired and id is present; on success exactly that key is removed and the other entries are untouched; on error nothing changes; pairing is never affected |
| Gateway.UploadStep | src/index.js:86-93 | the store always becomes the multer write of the part, paired or not; the reply is 200 SUCCESS if paired and 400 NOT_CONNECTED with reconnect otherwise; pairing is unaffected |
| Gateway.DownloadStep | src/index.js:94-102 | the same three guards as delete; the reply is a stream exactly when paired and id is present, and then it holds exactly the stored bytes with the default status 200 |
| Gateway.Step | src/index.js:62-102 | every request other than /init on an unpaired node is answered NOT_CONNECTED; only /init can change pairing and only while unpaired; /init and download leave the store alone; the panel-file mirror is preserved |
| Gateway.Run | src/index.js:62-102 | one response per request; once paired, the key and its file never change in any run; the panel-file mirror holds after any run |
| NodeServer.Node.constructor | src/index.js:34 | `PANEL_KEY` is the panel file's text, or unset when the file is missing; the object starts consistent with its panel file |
| NodeServer.Node.Init | src/index.js:62-74 | the reply and new fields are exactly `InitStep` of the old state; a set key is never changed; files untouched |
| NodeServer.Node.Delete | src/index.js:75-85 | the reply and new fields are exactly `DeleteStep` of the old state; pairing untouched |
| NodeServer.Node.Upload | src/index.js:86-93 | the disk write and then the handler's reply are exactly `UploadStep` of the old state; pairing untouched |
| NodeServer.Node.Download | src/index.js:94-102 | the reply is exactly `DownloadStep` of the current state; nothing is modified |
| Bootstrap.StartupAction | src/index.js:31-36 | the node generates if and only if any of node.key, ca.key or node.cert is missing or empty; it serves only when all three are non-empty, and then with exactly those three texts |
| Bootstrap.Boot | src/index.js:31-53 | a generating start persists the three generated strings, keeps the panel file, and never yields a serving gateway; a serving start uses the stored triple and starts from the files and the panel file on disk, paired exactly when that file is non-empty |
| Properties.AcceptedKeyIsFinal | src/index.js:66-71 | a key accepted by /init anywhere in a run is the key the node holds at the end of the run |
| Properties.AtMostOneKeyAccepted | src/index.js:66-71 | any two successful /init requests in one run carry the same key |
| Properties.UnpairedRunIsGated | src/index.js:76 | on an unpaired node, every request of a run without /init is answered NOT_CONNECTED with reconnect, and the node stays unpaired |
| Properties.InitIsIdempotent | src/index.js:66-73 | a repeated /init with the accepted key succeeds again and changes nothing |
| Properties.InitConflict | src/index.js:66 | once /init has accepted a (first pairing or a repeat), /init with a different non-empty b gets 403, nothing changes and the key stays a |
| Properties.UploadThenDownload | src/index.js:86-101 | on a paired node, an upload followed by a download of the same name returns exactly the uploaded bytes |
| Properties.DeleteThenDownload | src/index.js:75-99 | after a successful delete, a download of the same id gets NO_SUCH_FILE_OR_DIR |
| Properties.RefusedUploadIsKept | src/index.js:86-87 | an upload refused for lack of pairing still stores its file, which can be downloaded once a later pairing succeeds |
| Properties.RestartKeepsState | src/index.js:31-34 | a node that served any run and then starts again on the same disk comes back with the same identity, the same pairing and the same files |
| Properties.GeneratedIdentityIsReused | src/index.js:36-46 | if the generated strings are non-empty, the start after a generating start serves with that identity instead of generating again; the panel file is kept |

## Left out

- Express routing, JSON and urlencoded body parsing with their 2000mb limit, and the `GET *` fallback text: framework glue (src/index.js:57-61, 103-105).
- Multipart decoding: the upload arrives as an already-decoded optional (original name, bytes) pair. Multer errors, such as a field not named `file`, are not modelled.
- The certificate library call and its error path: the generated triple is a parameter of `Boot`. A generation failure, which throws, is not modelled.
- The HTTPS server, the port setting (`NODE_PORT` or 3001), dotenv, and all `console.log` output, including the printed certificate: I/O and configuration.
- Creation of the `keys` and `files` directories at startup (src/index.js:29-30).
- Real filesystem semantics: the path `${dir}/${id}` and path traversal, directories versus files, empty or unusual file names (including how multer treats an uploaded part whose original name is empty: the model stores it under the key ""), and exceptions thrown by `unlinkSync`, `writeFileSync` or `readFileSync`. Streaming and backpressure are also left out. The store is a map from name to bytes.
- Concurrency between simultaneous requests: requests are sequential method calls.
- JavaScript truthiness of non-string JSON values (numbers, booleans, objects) for `key` and `id`: both are strings, and the empty string stands for missing.
- RestartKeepsState and Mirrored: keys are Dafny strings of Unicode scalar values, and the utf8 write of `keys/panel` (src/index.js:70) and its read at startup (src/index.js:34) are assumed lossless. A JSON key holding a lone surrogate breaks this: it is written as U+FFFD, so after a restart the original panel would be refused with 403. The model cannot represent such a key.
