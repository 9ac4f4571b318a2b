/** The wire vocabulary of the node: the message tags it answers with and
    the two shapes of response (a JSON object or a raw byte stream). */
module Protocol {

  /** File contents, byte for byte. */
  type Bytes = seq<bv8>

  /** The message constants the handlers reply with. Their text lives in
      responses.json, which is not part of this model; only their identity
      matters here. */
  datatype Message =
    | Success
    | InvalidBody
    | AlreadyConnectedToPanel
    | NotConnectedToPanel
    | NoSuchFileOrDir

  /** A reply. `Json` is `res.status(status).json({ message, success,
      reconnect })`, where `reconnect == false` stands for the field being
      absent; `Stream` is a file piped to the response with the default
      status 200. */
  datatype Response =
    | Json(status: int, message: Message, success: bool, reconnect: bool)
    | Stream(bytes: Bytes)
  {
    /** The HTTP status code the client sees. */
    function Status(): int {
      match this
      case Json(status, _, _, _) => status
      case Stream(_) => 200
    }

    /** True of the replies that report success to the client. */
    predicate Succeeded() {
      Stream? || success
    }
  }

  /** 200 `{ message: SUCCESS, success: true }`. */
  function Ok(): Response {
    Json(200, Success, true, false)
  }

  /** 400 `{ message: INVALID_BODY, success: false }`. */
  function BadBody(): Response {
    Json(400, InvalidBody, false, false)
  }

  /** 403 `{ message: ALREADY_CONNECTED_TO_PANEL, success: false }`. */
  function AlreadyPaired(): Response {
    Json(403, AlreadyConnectedToPanel, false, false)
  }

  /** 400 `{ message: NOT_CONNECTED_TO_PANEL, success: false, reconnect: true }`. */
  function NotPaired(): Response {
    Json(400, NotConnectedToPanel, false, true)
  }

  /** 400 `{ message: NO_SUCH_FILE_OR_DIR, success: false }`. */
  function NoSuchFile(): Response {
    Json(400, NoSuchFileOrDir, false, false)
  }
}
