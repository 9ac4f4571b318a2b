/** The running node: the module-level `PANEL_KEY` with the `keys/panel`
    file it is mirrored to, and the file directory, updated in place by the
    four request handlers of src/index.js. Each handler is proved to do
    exactly what the matching function of Gateway says. */
module NodeServer {
  import opened Wrappers
  import opened Protocol
  import opened Gateway

  class Node {
    /** `PANEL_KEY`; "" while no panel is paired. */
    var panelKey: string
    /** The `keys/panel` file; `None` while it does not exist. */
    var panelFile: Option<string>
    /** The `files` directory. */
    var files: Store

    /** The node's state as a value. */
    function Snapshot(): State
      reads this
    {
      State(panelKey, panelFile, files)
    }

    /** The in-memory key agrees with the file a restart would read. */
    ghost predicate Valid()
      reads this
    {
      Mirrored(Snapshot())
    }

    /** The state once startup reached the server: `PANEL_KEY` is the text
        of `keys/panel` if that file exists, and the directory is as found. */
    constructor (panel: Option<string>, stored: Store)
      ensures Valid()
      ensures panelKey == panel.GetOr("") && panelFile == panel && files == stored
    {
      panelKey := if panel.Some? then panel.value else "";
      panelFile := panel;
      files := stored;
    }

    /** POST /init. */
    method Init(key: string) returns (r: Response)
      requires Valid()
      modifies this
      ensures Valid()
      ensures (r, Snapshot()) == InitStep(old(Snapshot()), key)
      ensures old(panelKey) != "" ==> panelKey == old(panelKey)
      ensures files == old(files)
    {
      if key == "" {
        return BadBody();
      }
      if panelKey != "" && panelKey != key {
        return AlreadyPaired();
      }
      if panelKey == "" {
        panelKey := key;
        panelFile := Some(key);
      }
      r := Ok();
    }

    /** POST /files/delete. */
    method Delete(id: string) returns (r: Response)
      requires Valid()
      modifies this
      ensures Valid()
      ensures (r, Snapshot()) == DeleteStep(old(Snapshot()), id)
      ensures panelKey == old(panelKey) && panelFile == old(panelFile)
    {
      if panelKey == "" {
        return NotPaired();
      }
      if id == "" {
        return BadBody();
      }
      if id !in files {
        return NoSuchFile();
      }
      files := files - {id};
      r := Ok();
    }

    /** POST /files/upload, with the multer disk write that runs before
        the handler. */
    method Upload(part: Option<FilePart>) returns (r: Response)
      requires Valid()
      modifies this
      ensures Valid()
      ensures (r, Snapshot()) == UploadStep(old(Snapshot()), part)
      ensures panelKey == old(panelKey) && panelFile == old(panelFile)
    {
      if part.Some? {
        files := files[part.value.originalName := part.value.bytes];
      }
      if panelKey == "" {
        return NotPaired();
      }
      r := Ok();
    }

    /** POST /files/download; reads the state and changes nothing. */
    method Download(id: string) returns (r: Response)
      ensures r == DownloadStep(Snapshot(), id)
    {
      if panelKey == "" {
        return NotPaired();
      }
      if id == "" {
        return BadBody();
      }
      if id !in files {
        return NoSuchFile();
      }
      r := Stream(files[id]);
    }
  }
}
