# A verified model of a minimal HTTP/1.1 static file server

The server answers one request per connection. It reads the start line,
splits it into words, and answers every method but `GET` with
`405 Method Not Allowed`. For a `GET` it strips the slashes off the request
target, joins it onto the document root (`www`, resolved), resolves the
result, and rejects anything that does not land at or below the root with
`404 Not Found`. A directory named without its trailing slash is redirected
(`301 Moved Permanently`) to the same target plus `/`. A directory named with
the slash serves its `index.html` as `text/html`, or gets 404 when there is
none. A regular file is served with a content type chosen from its suffix:
`.html` gives `text/html`, `.css` gives `text/css`, anything else gives the
empty string. Anything else gets 404. Every response is a status line,
header lines, `Connection: close` and a blank line, each ending in CRLF,
followed by the file's raw bytes when one is served. The request line has the form
given in section 3 of RFC 9112. The status codes are those of sections
15.3.1, 15.4.2, 15.5.5 and 15.5.6 of RFC 9110. `Connection: close` ends the
connection after each response, as section 9.6 of RFC 9112 describes.

The project is organised as follows:

- `wrappers.dfy`: `Option`.
- `strings.dfy`: Python's `str.split()` and pathlib's part splitting, both
  given by one tokeniser, `Tokens`. Also `endswith`/`startswith`, and the
  decimal numeral that `Content-Length` is written as, with its parser.
- `paths.dfy`: `secure_path`. Paths are sequences of segments below `/`.
  `str.strip('/')`, the pathlib join (where a leading `/` makes a path
  absolute) and `resolve()` are modelled lexically. The file also gives an
  independent reference definition of containment: a base-free normal form
  `RelPath(ups, names)` of the request path, and the predicate `Reenters`.
  `SecurePathReference` proves that `secure_path` accepts a path exactly when
  its normal form re-enters the root.
- `server.dfy`: the request handler.
  - `Respond` is the decision `handle` makes, and `Render` is what each
    decision writes.
  - The class `Handler` holds `servePath` and `output`, the sequence of
    writes to the connection.
  - Its methods `SendLine`, `SendRedirect`, `SendHeaders`,
    `SendFileContent` and `Handle` mirror the source method by method. Each
    is proved to append exactly the right writes.
- `wire.dfy`: the response as a client reads it back: status, header
  fields up to the blank line, and the body. Each kind of response reads
  back as the status, fields and body it was meant to have.
- `dispatch.dfy`: `handle` request by request:
  - the method check comes first;
  - an escape from the root is indistinguishable from a missing path;
  - the redirect, the directory index and the content-type rule;
  - the answer never depends on anything outside the root;
  - every byte served comes from a file inside the root.
- `scenario.dfy`: the site the companion tests build (`index.html`,
  `base.css`, `deep/index.html`, `deep/deep.css`) and each request those
  tests send. This includes the `../../…/etc/os-release` probe and the
  `POST`.

The filesystem is a parameter: a map from resolved paths to `Dir` or
`File(bytes)`.

Three points where the model states what the code does, rather than
what a reader might expect:

- `send_redirect` (server.py:85-99) writes no Content-Type line. The 301
  response has only the status line, `Location`, `Connection: close` and
  the blank line, and `Wire.ReadRedirect` proves that no Content-Type is read
  back.
- `resolve()` (server.py:151) follows symbolic links. The model resolves
  lexically (see "Left out").
- `handle` tests `index.html` with `exists()` (server.py:67). So an
  `index.html` that is itself a directory passes the test, and `open`
  (server.py:128) then raises before anything is written. The model
  answers such a request with `Dropped`, which writes nothing.

## Model

| member | source | states |
|---|---|---|
| Strings.Tokens | server.py:42 | every token produced is nonempty and contains no separator (no whitespace for `split()`, no `/` for path parts) |
| Strings.Words | server.py:42 | `start_line.split()`: the tokens of the line over Python's whitespace set; its properties are stated by `Strings.Tokens` and `Strings.TokensOfJoin` |
| Strings.TokensOfJoin | server.py:42-44 | splitting tokens joined by one separator gives back exactly those tokens, so a start line `METHOD TARGET VERSION` splits into its three words |
| Strings.TokensLeadingSep | server.py:151 | a separator at the start of a string adds no token |
| Strings.TokensTrailingSep | server.py:151 | a separator at the end of a string adds no token |
| Strings.NatToString | server.py:114 | the Content-Length numeral is nonempty, all decimal digits and has no leading zero |
| Strings.ParseNatToString | server.py:131-133 | reading back the written Content-Length numeral gives exactly the length |
| Paths.Strip | server.py:151 | `strip('/')` leaves no leading and no trailing slash |
| Paths.Segments | server.py:151 | the parts of a path string, the runs between slashes; `Paths.StripSegments` and `Paths.ClimbingRequestSegments` state its properties |
| Paths.JoinPath | server.py:151 | `serve_path / rel` before resolution, where a `rel` starting with `/` replaces the base; `Paths.JoinStripped` proves the stripped target always joins below the root |
| Paths.WalkStep | server.py:151 | one resolution step: `.` vanishes, `..` drops the last segment and stays at `/`, a name is appended; `Paths.StepCommutes` relates it to the normal form |
| Paths.Resolve | server.py:151 | lexical `resolve()` of a joined path; `Paths.WalkNormal`, `Paths.WalkNames` and `Paths.ResolveJoined` state its properties |
| Paths.StripSegments | server.py:151 | stripping slashes leaves the path segments unchanged |
| Paths.JoinStripped | server.py:151 | once stripped, the request path always joins below the root, never replacing it |
| Paths.WalkNormal | server.py:151 | resolving path parts from a resolved path yields a resolved path |
| Paths.WalkNames | server.py:151 | resolving plain names only appends them |
| Paths.StepCommutes | server.py:151 | one resolution step on a path equals one step on the base-free normal form, applied to the base |
| Paths.WalkApply | server.py:151 | resolution from any base factors through the base-free normal form |
| Paths.ResolveJoined | server.py:151 | the joined and resolved request path is the root with the request's normal form applied |
| Paths.SecurePath | server.py:137-156 | an accepted path is the root or lies below it, and is itself resolved |
| Paths.AncestorOrSelf | server.py:152 | `root in p.parents or p == root` holds exactly when the root is a prefix of `p` |
| Paths.ApplyWithin | server.py:152 | applying a normal form to the root stays within the root exactly when that normal form re-enters the root |
| Paths.SecurePathReference | server.py:151-156 | `secure_path` returns `Some(Apply(root, normal form))` when the normal form re-enters the root, and `None` otherwise |
| Paths.NoClimbAccepted | server.py:151-154 | a request path with no `..` part is accepted, and names the root followed by its names |
| Paths.NormFromNoClimb | server.py:151 | without `..`, normalisation never climbs and only extends the names |
| Paths.NormFromAppend | server.py:151 | normalising a concatenation normalises the parts in turn |
| Paths.NormFromNames | server.py:151 | normalising plain names appends them |
| Paths.NormFromClimbs | server.py:151 | `n` parts `..` from an empty normal form climb `n` levels |
| Paths.NormalizeClimbThenNames | server.py:151 | `n` times `..` then names normalises to exactly `n` climbs then those names |
| Paths.ClimbingRequestSegments | server.py:151 | the path parts of `/../..(n)/names` are `n` times `..` followed by the names |
| Paths.TraversalRejected | server.py:151-156 | a target that climbs at least as far as the root is deep, then names something not under the root, is rejected |
| Paths.SiblingRejected | server.py:152 | a sibling of the root whose name extends the root's name is rejected, although the root's string is a prefix of the sibling's string |
| Paths.SiblingString | server.py:152 | the root's path string is a prefix of the path string of a sibling that extends its name |
| Paths.EndsWithLastSegment | server.py:75-77 | `str(path).endswith(suffix)` for a suffix without `/` holds exactly when the last segment ends with it |
| Paths.SlashBeforeName | server.py:75-77 | a slash-free suffix longer than the name after the last slash is not a suffix of the path string |
| Server.LineOut | server.py:29-30 | what one `send_line` call writes, the line followed by CRLF; `Wire.LineOutEnds` proves it ends in CRLF and is blank only for the empty line |
| Server.HeaderBlock | server.py:101-118 | the five lines `send_headers` writes; `Wire.ReadHeaderBlock` and `Wire.HeaderBlockFramed` state how they read back and that they are framed |
| Server.RedirectBlock | server.py:85-99 | the four lines `send_redirect` writes; `Wire.ReadRedirectBlock` and `Wire.RedirectBlockFramed` state how they read back and that they are framed |
| Server.Render | server.py:48-83 | everything a response writes: nothing when `handle` raises, a header block, a redirect block, or a 200 header block and the file's bytes; `Wire.ReadServed`, `Wire.ReadEmpty`, `Wire.ReadRedirect` and `Wire.RenderFramed` state its properties |
| Server.ContentType | server.py:74-78 | the content type chosen from the suffix of `str(path)`; `Dispatch.ContentTypeByName` proves its three cases are decided by the file's own name |
| Server.GetResponse | server.py:51-83 | the answer to a GET: 404 for a rejected or missing path, a redirect, the directory index or 404, or the file; the Dispatch lemmas `EscapeNotFound`, `TraversalNotFound`, `DirectoryRedirected`, `DirectoryIndex`, `FileServed` and `MissingNotFound` state each case |
| Server.Respond | server.py:42-83 | the decision `handle` makes: nothing for a line of fewer than two words, 405 for a method other than GET, otherwise the GET answer; `Dispatch.OneTokenDropped`, `Dispatch.NonGetNotAllowed`, `Dispatch.GetDispatched`, `Dispatch.RootSubtreeOnly` and `Dispatch.ServedFromInsideRoot` state its properties |
| Server.Handler.constructor | server.py:21-24 | the handler starts with the given resolved serve path and nothing written |
| Server.Handler.SendLine | server.py:29-30 | exactly the line followed by CRLF is appended to the output |
| Server.Handler.SendRedirect | server.py:85-99 | exactly the status line, `Location`, `Connection: close` and the blank line are appended |
| Server.Handler.SendHeaders | server.py:101-118 | exactly the status line, `Content-Type`, `Content-Length`, `Connection: close` and the blank line are appended |
| Server.Handler.SendFileContent | server.py:120-135 | exactly the 200 header block with the file's length, then the file's bytes, are appended |
| Server.Handler.Handle | server.py:32-83 | exactly `Render(Respond(servePath, startLine, fs))` is appended: the output of the decision the source makes, branch by branch |
| Dispatch.RequestLineWords | server.py:42-44 | a start line of three words separated by spaces splits into those words |
| Dispatch.GetDispatched | server.py:42-52 | a well-formed GET is answered from its target alone, whatever the version |
| Dispatch.OneTokenDropped | server.py:42-44 | a start line with a single word writes nothing, whatever that word is |
| Dispatch.NonGetNotAllowed | server.py:46-49 | any method other than GET gets 405, whatever the target and the filesystem |
| Dispatch.EscapeNotFound | server.py:51-57 | a GET whose normal form does not re-enter the root gets 404, whatever the filesystem holds |
| Dispatch.ClimbingRequestWord | server.py:42-44 | a climbing request target is one word when its names contain no whitespace |
| Dispatch.TraversalNotFound | server.py:51-57 | a GET that climbs out of the root and names something outside it gets 404, as a missing path does |
| Dispatch.DirectoryRedirected | server.py:59-62 | a GET for a directory without the trailing slash is redirected to the target plus `/` |
| Dispatch.DirectoryIndex | server.py:64-70 | a GET for a directory with the trailing slash serves its `index.html` as text/html, or gets 404 when there is none |
| Dispatch.FileServed | server.py:72-80 | a GET for a regular file serves its bytes with the content type its path string selects |
| Dispatch.MissingNotFound | server.py:81-83 | a GET for an accepted path that does not exist gets 404 |
| Dispatch.ContentTypeByName | server.py:74-78 | the content type is text/html exactly when the file name ends in `.html`, is text/css exactly when it ends in `.css` and not `.html`, and is empty otherwise |
| Dispatch.SlashesNoSegments | server.py:151 | a target made only of slashes has no path parts |
| Dispatch.SlashesAccepted | server.py:151-154 | a target made only of slashes is the root itself, and ends in `/` |
| Dispatch.RootServesIndex | server.py:64-70 | GET `/` (or `//`, …) serves the root's `index.html`, or gets 404 when there is none |
| Dispatch.RootSubtreeOnly | server.py:51-83 | the response against the whole filesystem equals the response against the root's subtree |
| Dispatch.ServedFromInsideRoot | server.py:64-80 | every served body is the content of a file that lies at or below the root |
| Wire.FieldValueOf | server.py:95 | a written line `name: value` reads back as that field's value |
| Wire.FieldMismatch | server.py:95 | a line that differs from `name: ` at some position is not that field |
| Wire.OtherField | server.py:112-116 | a written field line whose name differs from `name` is not that field |
| Wire.FieldAt | server.py:101-118 | the first header line holding a field gives its value |
| Wire.FieldAbsent | server.py:85-118 | a field on no line before the blank line is absent |
| Wire.AfterBlank | server.py:99 | what follows the first blank line is everything after it |
| Wire.HeaderBlockLines | server.py:101-118 | the header block is five lines, the last of which is the only blank one |
| Wire.ReadHeaderBlock | server.py:101-118 | the header block reads back as its status, Content-Type, Content-Length and `Connection: close`, with no Location, and is followed by exactly what was written after it |
| Wire.RedirectBlockLines | server.py:85-99 | the redirect block is four lines, the last of which is the only blank one |
| Wire.ReadRedirectBlock | server.py:85-99 | the redirect block reads back as its status, Location and `Connection: close`, with no Content-Type or Content-Length and nothing after it |
| Wire.ReadServed | server.py:120-135 | a served file reads back as 200 OK with its content type, a Content-Length that parses to its exact byte count, `Connection: close`, and exactly its bytes as the body |
| Wire.ReadEmpty | server.py:48 | a header-only response reads back as its status, text/html, Content-Length 0 and an empty body |
| Wire.ReadRedirect | server.py:61 | a redirect reads back as 301 with the Location, with no Content-Type, Content-Length or body |
| Wire.HeaderBlockFramed | server.py:101-118 | the header block is framed: every line ends in CRLF, it ends with `Connection: close` and a blank line that appears nowhere earlier, and only raw bytes follow |
| Wire.RedirectBlockFramed | server.py:85-99 | the redirect block is framed the same way, with nothing after it |
| Wire.LineOutEnds | server.py:29-30 | every line `send_line` writes ends in CRLF, and only the empty line is the bare CRLF |
| Wire.RenderFramed | server.py:85-135 | every response that is written is framed, and after its headers comes exactly the file's bytes for a served file, and nothing otherwise |
| Scenario.TargetSegments | server.py:151 | the path parts of `/a/b/…` (with or without a trailing slash) are its names |
| Scenario.TargetNoTrailingSlash | server.py:60 | `/a/b` without a trailing slash does not end with `/` |
| Scenario.TargetAccepted | server.py:151-154 | a target of names below the root is accepted and names the root followed by those names |
| Scenario.SiteLayout | free-tests.py:190-213 | the site holds the root and `deep` as directories, the four files with their contents, and no `doesnt_exist.html` |
| Scenario.SiteRoot | free-tests.py:305-315 | GET `/` serves the root's `index.html` as text/html |
| Scenario.SiteIndex | free-tests.py:293-303 | GET `/index.html` serves the same file as text/html |
| Scenario.SiteBaseCss | free-tests.py:317-327 | GET `/base.css` serves the stylesheet as text/css |
| Scenario.SiteMissing | free-tests.py:329-335 | GET `/doesnt_exist.html` gets 404 |
| Scenario.SiteDeepRedirect | free-tests.py:338-343 | GET `/deep` is redirected to `/deep/` |
| Scenario.SiteDeepIndex | free-tests.py:345-349 | GET `/deep/` serves `deep/index.html` as text/html |
| Scenario.SiteDeepCss | free-tests.py:351-352 | GET `/deep/deep.css` serves that stylesheet as text/css |
| Scenario.SiteTraversal | free-tests.py:354-356 | GET `/../../../../../../../../../../etc/os-release` gets 404 |
| Scenario.SitePost | free-tests.py:358-360 | POST `/` gets 405 |
| Scenario.SiteAnswersTop | free-tests.py:293-360 | a filesystem laid out as the site answers the requests for the top of the site as the tests expect |
| Scenario.SiteAnswersDeep | free-tests.py:337-352 | a filesystem laid out as the site answers the requests for `deep` as the tests expect |

## Left out

- `main` and `LabServer`: the socket accept loop is outside the model. `Handle` receives the decoded start line and the filesystem as parameters.
- Reading the start line (`recieve_line`): `readline`, `strip` and UTF-8 decoding with `'ignore'` are left out. `Handle` starts from the decoded string. Stripping the line's ends does not change its words.
- Encoding: `send_line` encodes each line as UTF-8 with `'ignore'`. The model keeps each line as the string written, without encoding it to bytes.
- The debug `print` of the start line is left out, because it writes to the console and not to the connection.
- Symbolic links: `resolve()` is modelled lexically. `.` parts vanish and `..` removes the last segment, stopping at `/`. A link inside the root that points outside it is not modelled.
- NUL bytes, invalid names and other errors pathlib raises while resolving are not modelled.
- Failures of `open` and `read` are not modelled: a file that cannot be read, or that changes between the check and the read. The one failure the model keeps is `open` on an `index.html` that is a directory.
- Exceptions: a start line with fewer than two words raises `IndexError`, and an `index.html` that is a directory makes `open` raise. Both are modelled as the response `Dropped`, which writes nothing. The model does not say what the server does with the connection after the exception.
- The type of the length: `send_file_content` passes the length to `send_headers` as a string, and the model passes it as a number. Both are written as the same decimal numeral.
