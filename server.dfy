/**
 * Request handling: `LabServerTCPHandler.handle` and the `send_*` methods
 * that write a response to the connection's output stream.
 *
 * The decision `handle` makes is specified by the function `Respond`; what
 * each decision writes is specified by `Render`; the class `Handler` is the
 * request handler itself, whose methods append to `output` one line at a
 * time and are proved to write exactly `Render(Respond(...))`.
 */
module Server {
  import opened Wrappers
  import opened Strings
  import opened Paths

  type Byte = b: int | 0 <= b < 256

  /** What the filesystem holds at a path. */
  datatype Node = Dir | File(content: seq<Byte>)

  type FileSystem = map<Path, Node>

  predicate IsDir(fs: FileSystem, p: Path) { p in fs && fs[p].Dir? }

  predicate IsFile(fs: FileSystem, p: Path) { p in fs && fs[p].File? }

  const LineEnding := "\r\n"
  const Http11 := "HTTP/1.1"
  const StatusOk := "200 OK"
  const StatusMoved := "301 Moved Permanently"
  const StatusNotFound := "404 Not Found"
  const StatusNotAllowed := "405 Method Not Allowed"
  const IndexFile := "index.html"

  /** One write to the output stream: an encoded line, or the raw bytes of a file. */
  datatype Chunk = Text(text: string) | Bytes(bytes: seq<Byte>)

  /** What one call of `send_line` writes. */
  function LineOut(line: string): Chunk {
    Text(line + LineEnding)
  }

  /** What `send_headers(status, contentType, contentLength)` writes. */
  function HeaderBlock(status: string, contentType: string, contentLength: nat): seq<Chunk> {
    [ LineOut(Http11 + " " + status),
      LineOut("Content-Type: " + contentType),
      LineOut("Content-Length: " + NatToString(contentLength)),
      LineOut("Connection: close"),
      LineOut("") ]
  }

  /** What `send_redirect(location, status)` writes. */
  function RedirectBlock(location: string, status: string): seq<Chunk> {
    [ LineOut(Http11 + " " + status),
      LineOut("Location: " + location),
      LineOut("Connection: close"),
      LineOut("") ]
  }

  /** The one response `handle` produces for a request. */
  datatype Response =
    | Dropped                                      // an exception ended `handle` before anything was written
    | Empty(status: string)                        // headers only: text/html, Content-Length 0
    | Redirect(location: string)                   // 301 Moved Permanently
    | Served(contentType: string, body: seq<Byte>) // 200 OK and the file's bytes

  /** Everything a response writes to the output stream, in order. */
  function Render(r: Response): seq<Chunk> {
    match r
    case Dropped => []
    case Empty(status) => HeaderBlock(status, "text/html", 0)
    case Redirect(location) => RedirectBlock(location, StatusMoved)
    case Served(contentType, body) => HeaderBlock(StatusOk, contentType, |body|) + [Bytes(body)]
  }

  /** The content type chosen from the suffix of a served file's path string. */
  function ContentType(pathString: string): string {
    if EndsWith(pathString, ".html") then "text/html"
    else if EndsWith(pathString, ".css") then "text/css"
    else ""
  }

  /** The answer to a GET of the request target `path`, serving from `root`. */
  function GetResponse(root: Path, path: string, fs: FileSystem): Response {
    match SecurePath(root, path)
    case None => Empty(StatusNotFound)
    case Some(p) =>
      if IsDir(fs, p) && !EndsWith(path, "/") then Redirect(path + "/")
      else if IsDir(fs, p) then
        var index := p + [IndexFile];
        if index !in fs then Empty(StatusNotFound)
        else if fs[index].File? then Served("text/html", fs[index].content)
        else Dropped  // `open` of a directory raises before anything is written
      else if IsFile(fs, p) then Served(ContentType(PathString(p)), fs[p].content)
      else Empty(StatusNotFound)
  }

  /**
   * The decision `handle` makes for a decoded start line against the
   * filesystem, serving from `root`.
   */
  function Respond(root: Path, startLine: string, fs: FileSystem): Response {
    var tokens := Words(startLine);
    if |tokens| < 2 then Dropped  // `start_line_split[1]` raises IndexError
    else if tokens[0] != "GET" then Empty(StatusNotAllowed)
    else GetResponse(root, tokens[1], fs)
  }

  // ---------------------------------------------------------------------
  // The request handler
  // ---------------------------------------------------------------------

  class Handler {
    /** The resolved document root, `serve_path`. */
    const servePath: Path
    /** Everything written to the connection so far, `wfile`. */
    var output: seq<Chunk>

    constructor (servePath: Path)
      requires Normal(servePath)
      ensures this.servePath == servePath && output == []
    {
      this.servePath := servePath;
      output := [];
    }

    /** `send_line`: the line and its line ending. */
    method SendLine(line: string)
      modifies this
      ensures output == old(output) + [LineOut(line)]
    {
      output := output + [Text(line + LineEnding)];
    }

    /** `send_redirect`: status line, Location, Connection: close, blank line. */
    method SendRedirect(newPath: string, status: string)
      modifies this
      ensures output == old(output) + RedirectBlock(newPath, status)
    {
      SendLine(Http11 + " " + status);
      SendLine("Location: " + newPath);
      SendLine("Connection: close");
      SendLine("");
    }

    /** `send_headers`: status line, Content-Type, Content-Length, Connection: close, blank line. */
    method SendHeaders(status: string, contentType: string, contentLength: nat)
      modifies this
      ensures output == old(output) + HeaderBlock(status, contentType, contentLength)
    {
      SendLine(Http11 + " " + status);
      SendLine("Content-Type: " + contentType);
      SendLine("Content-Length: " + NatToString(contentLength));
      SendLine("Connection: close");
      SendLine("");
    }

    /** `send_file_content`: 200 headers with the file's length, then the file's bytes. */
    method SendFileContent(fs: FileSystem, filePath: Path, contentType: string)
      requires IsFile(fs, filePath)
      modifies this
      ensures output == old(output) + Render(Served(contentType, fs[filePath].content))
    {
      var content := fs[filePath].content;
      var contentLength := |content|;
      SendHeaders(StatusOk, contentType, contentLength);
      output := output + [Bytes(content)];
    }

    /** `handle`: answer one request whose start line has been read and decoded. */
    method Handle(startLine: string, fs: FileSystem)
      modifies this
      ensures output == old(output) + Render(Respond(servePath, startLine, fs))
    {
      var startLineSplit := Words(startLine);
      if |startLineSplit| < 2 {
        return;
      }
      var verb, path := startLineSplit[0], startLineSplit[1];

      if verb != "GET" {
        SendHeaders(StatusNotAllowed, "text/html", 0);
        return;
      }

      ghost var response := GetResponse(servePath, path, fs);
      assert Respond(servePath, startLine, fs) == response;
      var securePath := SecurePath(servePath, path);
      if securePath.None? {
        assert response == Empty(StatusNotFound);
        SendHeaders(StatusNotFound, "text/html", 0);
        return;
      }
      var p := securePath.value;

      if IsDir(fs, p) && !EndsWith(path, "/") {
        assert response == Redirect(path + "/");
        SendRedirect(path + "/", StatusMoved);
        return;
      }

      if IsDir(fs, p) {
        var indexPath := p + [IndexFile];
        if indexPath in fs {
          if fs[indexPath].File? {
            assert response == Served("text/html", fs[indexPath].content);
            SendFileContent(fs, indexPath, "text/html");
          } else {
            // `open` raises on the directory and nothing is written
            assert response == Dropped;
          }
        } else {
          assert response == Empty(StatusNotFound);
          SendHeaders(StatusNotFound, "text/html", 0);
        }
      } else if IsFile(fs, p) {
        var contentType := "";
        if EndsWith(PathString(p), ".html") {
          contentType := "text/html";
        } else if EndsWith(PathString(p), ".css") {
          contentType := "text/css";
        }
        assert response == Served(contentType, fs[p].content);
        SendFileContent(fs, p, contentType);
      } else {
        assert response == Empty(StatusNotFound);
        SendHeaders(StatusNotFound, "text/html", 0);
      }
    }
  }
}
