/**
 * The response as a client reads it off the connection: the status line,
 * the header fields up to the blank line, and the body after it. The lemmas
 * here say that what `Render` writes is framed as HTTP/1.1 requires and
 * reads back as the response that was decided.
 */
module Wire {
  import opened Wrappers
  import opened Strings
  import opened Server

  /** The value of `line` when it is the header field `name: value` followed by the line ending. */
  function FieldValue(line: string, name: string): Option<string> {
    var prefix := name + ": ";
    if |prefix| + |LineEnding| <= |line| && StartsWith(line, prefix) && EndsWith(line, LineEnding)
    then Some(line[|prefix|..|line| - |LineEnding|])
    else None
  }

  /** The status a client reads from the first line, `HTTP/1.1 <status>`. */
  function StatusOf(cs: seq<Chunk>): Option<string> {
    var prefix := Http11 + " ";
    if cs != [] && cs[0].Text? && |prefix| + |LineEnding| <= |cs[0].text|
       && StartsWith(cs[0].text, prefix) && EndsWith(cs[0].text, LineEnding)
    then Some(cs[0].text[|prefix|..|cs[0].text| - |LineEnding|])
    else None
  }

  /** The first field named `name` among the header lines `hs`, up to the blank line. */
  function FieldIn(hs: seq<Chunk>, name: string): Option<string>
    decreases |hs|
  {
    if hs == [] || !hs[0].Text? || hs[0].text == LineEnding then None
    else if FieldValue(hs[0].text, name).Some? then FieldValue(hs[0].text, name)
    else FieldIn(hs[1..], name)
  }

  /** The header field `name` of a response. */
  function HeaderOf(cs: seq<Chunk>, name: string): Option<string> {
    if cs == [] then None else FieldIn(cs[1..], name)
  }

  /** What follows the first blank line. */
  function AfterHeaders(cs: seq<Chunk>): seq<Chunk>
    decreases |cs|
  {
    if cs == [] then []
    else if cs[0] == Text(LineEnding) then cs[1..]
    else AfterHeaders(cs[1..])
  }

  /** The bytes of the raw chunks among `cs`, in order. */
  function Payload(cs: seq<Chunk>): seq<Byte> {
    if cs == [] then []
    else (if cs[0].Bytes? then cs[0].bytes else []) + Payload(cs[1..])
  }

  /** The body a client reads: everything after the blank line. */
  function BodyOf(cs: seq<Chunk>): seq<Byte> {
    Payload(AfterHeaders(cs))
  }

  lemma FieldValueOf(name: string, value: string)
    ensures FieldValue(name + ": " + value + LineEnding, name) == Some(value)
  {
    var prefix, line := name + ": ", name + ": " + value + LineEnding;
    assert line == prefix + value + LineEnding;
    assert line[..|prefix|] == prefix;
    assert line[|line| - |LineEnding|..] == LineEnding;
    assert line[|prefix|..|line| - |LineEnding|] == value;
  }

  /** A line that differs from `name: ` at some position is not that field. */
  lemma FieldMismatch(line: string, name: string, i: nat)
    requires i < |name| + 2 && i < |line|
    requires line[i] != (name + ": ")[i]
    ensures FieldValue(line, name) == None
  {
    if |name + ": "| <= |line| {
      assert line[..|name + ": "|][i] == line[i];
    }
  }

  /** A written field line `field: value` is not the field `name` when the names differ at `i`. */
  lemma OtherField(field: string, value: string, name: string, i: nat)
    requires i < |field| && i < |name| && field[i] != name[i]
    ensures FieldValue(LineOut(field + ": " + value).text, name) == None
  {
    var line := LineOut(field + ": " + value).text;
    assert line == field + (": " + value + LineEnding);
    assert line[i] == field[i];
    assert (name + ": ")[i] == name[i];
    FieldMismatch(line, name, i);
  }

  /** A field found on line `k`, with no earlier line holding it or ending the block. */
  lemma {:induction false} FieldAt(hs: seq<Chunk>, name: string, k: nat)
    requires k < |hs|
    requires forall i :: 0 <= i <= k ==> hs[i].Text? && hs[i].text != LineEnding
    requires forall i :: 0 <= i < k ==> FieldValue(hs[i].text, name) == None
    requires FieldValue(hs[k].text, name).Some?
    ensures FieldIn(hs, name) == FieldValue(hs[k].text, name)
    decreases k
  {
    if k > 0 {
      FieldAt(hs[1..], name, k - 1);
    }
  }

  /** A field on no line before the blank line `k` is absent. */
  lemma {:induction false} FieldAbsent(hs: seq<Chunk>, name: string, k: nat)
    requires k < |hs| && hs[k] == Text(LineEnding)
    requires forall i :: 0 <= i < k ==> hs[i].Text? && hs[i].text != LineEnding
    requires forall i :: 0 <= i < k ==> FieldValue(hs[i].text, name) == None
    ensures FieldIn(hs, name) == None
    decreases k
  {
    if k > 0 {
      FieldAbsent(hs[1..], name, k - 1);
    }
  }

  /** What follows the first blank line, when that is line `k`. */
  lemma {:induction false} AfterBlank(cs: seq<Chunk>, k: nat)
    requires k < |cs| && cs[k] == Text(LineEnding)
    requires forall i :: 0 <= i < k ==> cs[i] != Text(LineEnding)
    ensures AfterHeaders(cs) == cs[k + 1..]
    decreases k
  {
    if k > 0 {
      AfterBlank(cs[1..], k - 1);
      assert cs[1..][k..] == cs[k + 1..];
    }
  }

  lemma LineOutText(line: string)
    ensures LineOut(line).Text?
    ensures line != [] ==> LineOut(line).text != LineEnding
  {
  }

  /** The header lines of `send_headers`, after its status line. */
  function HeaderFields(contentType: string, n: nat): seq<string> {
    ["Content-Type: " + contentType, "Content-Length: " + NatToString(n), "Connection: close"]
  }

  lemma HeaderBlockLines(status: string, contentType: string, n: nat, tail: seq<Chunk>)
    ensures var cs := HeaderBlock(status, contentType, n) + tail;
      && |cs| == 5 + |tail|
      && cs[0] == LineOut(Http11 + " " + status)
      && (forall i :: 0 <= i < 3 ==> cs[1..][i] == LineOut(HeaderFields(contentType, n)[i]))
      && cs[1..][3] == Text(LineEnding)
      && (forall i :: 0 <= i < 4 ==> cs[i] != Text(LineEnding))
      && cs[4] == Text(LineEnding)
      && cs[5..] == tail
  {
    var cs := HeaderBlock(status, contentType, n) + tail;
    assert cs[4] == LineOut("");
    forall i | 0 <= i < 4 ensures cs[i] != Text(LineEnding) {
      if i == 0 {
        LineOutText(Http11 + " " + status);
      } else {
        LineOutText(HeaderFields(contentType, n)[i - 1]);
      }
    }
  }

  lemma ReadHeaderBlockStatus(status: string, contentType: string, n: nat, tail: seq<Chunk>)
    ensures StatusOf(HeaderBlock(status, contentType, n) + tail) == Some(status)
  {
    HeaderBlockLines(status, contentType, n, tail);
    FieldValueOf(Http11, status);
  }

  /** The field lines of `send_headers` are text lines other than the blank line. */
  lemma HeaderFieldLines(status: string, contentType: string, n: nat, tail: seq<Chunk>)
    ensures var hs := (HeaderBlock(status, contentType, n) + tail)[1..];
      && hs[3] == Text(LineEnding)
      && (forall i :: 0 <= i < 3 ==> hs[i] == LineOut(HeaderFields(contentType, n)[i]))
      && (forall i :: 0 <= i < 3 ==> hs[i].Text? && hs[i].text != LineEnding)
  {
    var hs := (HeaderBlock(status, contentType, n) + tail)[1..];
    HeaderBlockLines(status, contentType, n, tail);
    forall i | 0 <= i < 3 ensures hs[i].Text? && hs[i].text != LineEnding {
      LineOutText(HeaderFields(contentType, n)[i]);
    }
  }

  lemma ReadHeaderBlockContentType(status: string, contentType: string, n: nat, tail: seq<Chunk>)
    ensures HeaderOf(HeaderBlock(status, contentType, n) + tail, "Content-Type") == Some(contentType)
  {
    var hs := (HeaderBlock(status, contentType, n) + tail)[1..];
    HeaderFieldLines(status, contentType, n, tail);
    FieldValueOf("Content-Type", contentType);
    FieldAt(hs, "Content-Type", 0);
  }

  lemma HeaderFieldsNotContentLength(contentType: string, n: nat)
    ensures forall i :: 0 <= i < 1 ==> FieldValue(LineOut(HeaderFields(contentType, n)[i]).text, "Content-Length") == None
  {
    OtherField("Content-Type", contentType, "Content-Length", 8);
  }

  lemma ReadHeaderBlockContentLength(status: string, contentType: string, n: nat, tail: seq<Chunk>)
    ensures HeaderOf(HeaderBlock(status, contentType, n) + tail, "Content-Length") == Some(NatToString(n))
  {
    var hs := (HeaderBlock(status, contentType, n) + tail)[1..];
    HeaderFieldLines(status, contentType, n, tail);
    FieldValueOf("Content-Length", NatToString(n));
    HeaderFieldsNotContentLength(contentType, n);
    FieldAt(hs, "Content-Length", 1);
  }

  lemma HeaderFieldsNotConnection(contentType: string, n: nat)
    ensures forall i :: 0 <= i < 2 ==> FieldValue(LineOut(HeaderFields(contentType, n)[i]).text, "Connection") == None
  {
    OtherField("Content-Type", contentType, "Connection", 3);
    OtherField("Content-Length", NatToString(n), "Connection", 3);
  }

  lemma ReadHeaderBlockConnection(status: string, contentType: string, n: nat, tail: seq<Chunk>)
    ensures HeaderOf(HeaderBlock(status, contentType, n) + tail, "Connection") == Some("close")
  {
    var hs := (HeaderBlock(status, contentType, n) + tail)[1..];
    HeaderFieldLines(status, contentType, n, tail);
    FieldValueOf("Connection", "close");
    HeaderFieldsNotConnection(contentType, n);
    FieldAt(hs, "Connection", 2);
  }

  lemma ReadHeaderBlockNoLocation(status: string, contentType: string, n: nat, tail: seq<Chunk>)
    ensures HeaderOf(HeaderBlock(status, contentType, n) + tail, "Location") == None
  {
    var cs := HeaderBlock(status, contentType, n) + tail;
    var hs := cs[1..];
    HeaderBlockLines(status, contentType, n, tail);
    var fields := HeaderFields(contentType, n);
    forall i | 0 <= i < 3 ensures hs[i].Text? && hs[i].text != LineEnding
      ensures FieldValue(hs[i].text, "Location") == None
    {
      LineOutText(fields[i]);
      FieldMismatch(hs[i].text, "Location", 0);
    }
    FieldAbsent(hs, "Location", 3);
  }

  /** The lines `send_headers` writes, as a client reads them. */
  lemma ReadHeaderBlock(status: string, contentType: string, n: nat, tail: seq<Chunk>)
    ensures var cs := HeaderBlock(status, contentType, n) + tail;
      && StatusOf(cs) == Some(status)
      && HeaderOf(cs, "Content-Type") == Some(contentType)
      && HeaderOf(cs, "Content-Length") == Some(NatToString(n))
      && HeaderOf(cs, "Connection") == Some("close")
      && HeaderOf(cs, "Location") == None
      && AfterHeaders(cs) == tail
  {
    ReadHeaderBlockStatus(status, contentType, n, tail);
    ReadHeaderBlockContentType(status, contentType, n, tail);
    ReadHeaderBlockContentLength(status, contentType, n, tail);
    ReadHeaderBlockConnection(status, contentType, n, tail);
    ReadHeaderBlockNoLocation(status, contentType, n, tail);
    HeaderBlockLines(status, contentType, n, tail);
    AfterBlank(HeaderBlock(status, contentType, n) + tail, 4);
  }

  /** The header lines of `send_redirect`, after its status line. */
  function RedirectFields(location: string): seq<string> {
    ["Location: " + location, "Connection: close"]
  }

  lemma RedirectBlockLines(location: string, status: string)
    ensures var cs := RedirectBlock(location, status);
      && |cs| == 4
      && cs[0] == LineOut(Http11 + " " + status)
      && (forall i :: 0 <= i < 2 ==> cs[1..][i] == LineOut(RedirectFields(location)[i]))
      && cs[1..][2] == Text(LineEnding)
      && (forall i :: 0 <= i < 3 ==> cs[i] != Text(LineEnding))
      && cs[3] == Text(LineEnding)
  {
    var cs := RedirectBlock(location, status);
    assert cs[3] == LineOut("");
    forall i | 0 <= i < 3 ensures cs[i] != Text(LineEnding) {
      if i == 0 {
        LineOutText(Http11 + " " + status);
      } else {
        LineOutText(RedirectFields(location)[i - 1]);
      }
    }
  }

  /** The field lines of `send_redirect` are text lines other than the blank line. */
  lemma RedirectFieldLines(location: string, status: string)
    ensures var hs := RedirectBlock(location, status)[1..];
      && hs[2] == Text(LineEnding)
      && (forall i :: 0 <= i < 2 ==> hs[i] == LineOut(RedirectFields(location)[i]))
      && (forall i :: 0 <= i < 2 ==> hs[i].Text? && hs[i].text != LineEnding)
  {
    var hs := RedirectBlock(location, status)[1..];
    RedirectBlockLines(location, status);
    forall i | 0 <= i < 2 ensures hs[i].Text? && hs[i].text != LineEnding {
      LineOutText(RedirectFields(location)[i]);
    }
  }

  lemma ReadRedirectLocation(location: string, status: string)
    ensures HeaderOf(RedirectBlock(location, status), "Location") == Some(location)
  {
    var hs := RedirectBlock(location, status)[1..];
    RedirectFieldLines(location, status);
    FieldValueOf("Location", location);
    FieldAt(hs, "Location", 0);
  }

  lemma ReadRedirectConnection(location: string, status: string)
    ensures HeaderOf(RedirectBlock(location, status), "Connection") == Some("close")
  {
    var hs := RedirectBlock(location, status)[1..];
    RedirectFieldLines(location, status);
    FieldValueOf("Connection", "close");
    OtherField("Location", location, "Connection", 0);
    FieldAt(hs, "Connection", 1);
  }

  lemma ReadRedirectNoContent(location: string, status: string)
    ensures var cs := RedirectBlock(location, status);
      && HeaderOf(cs, "Content-Type") == None
      && HeaderOf(cs, "Content-Length") == None
  {
    var hs := RedirectBlock(location, status)[1..];
    RedirectFieldLines(location, status);
    forall i | 0 <= i < 2
      ensures FieldValue(hs[i].text, "Content-Type") == None
      ensures FieldValue(hs[i].text, "Content-Length") == None
    {
      var j := if i == 0 then 0 else 3;
      FieldMismatch(hs[i].text, "Content-Type", j);
      FieldMismatch(hs[i].text, "Content-Length", j);
    }
    FieldAbsent(hs, "Content-Type", 2);
    FieldAbsent(hs, "Content-Length", 2);
  }

  /** The lines `send_redirect` writes, as a client reads them. */
  lemma ReadRedirectBlock(location: string, status: string)
    ensures var cs := RedirectBlock(location, status);
      && StatusOf(cs) == Some(status)
      && HeaderOf(cs, "Location") == Some(location)
      && HeaderOf(cs, "Connection") == Some("close")
      && HeaderOf(cs, "Content-Type") == None
      && HeaderOf(cs, "Content-Length") == None
      && AfterHeaders(cs) == []
  {
    RedirectBlockLines(location, status);
    FieldValueOf(Http11, status);
    ReadRedirectLocation(location, status);
    ReadRedirectConnection(location, status);
    ReadRedirectNoContent(location, status);
    AfterBlank(RedirectBlock(location, status), 3);
  }

  /** A served file reads back as 200 OK with its content type, its exact length and its bytes. */
  lemma ReadServed(contentType: string, body: seq<Byte>)
    ensures var cs := Render(Served(contentType, body));
      && StatusOf(cs) == Some(StatusOk)
      && HeaderOf(cs, "Content-Type") == Some(contentType)
      && HeaderOf(cs, "Content-Length").Some?
      && ParseNat(HeaderOf(cs, "Content-Length").value) == Some(|body|)
      && HeaderOf(cs, "Connection") == Some("close")
      && BodyOf(cs) == body
  {
    ReadHeaderBlock(StatusOk, contentType, |body|, [Bytes(body)]);
    ParseNatToString(|body|);
    assert Payload([Bytes(body)]) == body + [];
  }

  /** A header-only response reads back as its status, text/html and Content-Length 0, with no body. */
  lemma ReadEmpty(status: string)
    ensures var cs := Render(Empty(status));
      && StatusOf(cs) == Some(status)
      && HeaderOf(cs, "Content-Type") == Some("text/html")
      && HeaderOf(cs, "Content-Length").Some?
      && ParseNat(HeaderOf(cs, "Content-Length").value) == Some(0)
      && HeaderOf(cs, "Connection") == Some("close")
      && BodyOf(cs) == []
  {
    ReadHeaderBlock(status, "text/html", 0, []);
    ParseNatToString(0);
    assert HeaderBlock(status, "text/html", 0) + [] == HeaderBlock(status, "text/html", 0);
  }

  /** A redirect reads back as 301 with the Location, and no content type, length or body. */
  lemma ReadRedirect(location: string)
    ensures var cs := Render(Redirect(location));
      && StatusOf(cs) == Some(StatusMoved)
      && HeaderOf(cs, "Location") == Some(location)
      && HeaderOf(cs, "Content-Type") == None
      && HeaderOf(cs, "Content-Length") == None
      && HeaderOf(cs, "Connection") == Some("close")
      && BodyOf(cs) == []
  {
    ReadRedirectBlock(location, StatusMoved);
  }

  /** The number of header lines, blank line included, a response writes. */
  function HeaderLines(r: Response): nat {
    if r.Redirect? then 4 else 5
  }

  /**
   * Every header line ends with the line ending, the block ends with
   * `Connection: close` and a blank line that appears nowhere earlier, and
   * nothing follows it except the body of a served file.
   */
  predicate Framed(cs: seq<Chunk>, n: nat) {
    && 2 <= n <= |cs|
    && (forall i :: 0 <= i < n ==> cs[i].Text? && EndsWith(cs[i].text, LineEnding))
    && (forall i :: 0 <= i < n - 1 ==> cs[i] != Text(LineEnding))
    && cs[n - 2] == LineOut("Connection: close")
    && cs[n - 1] == Text(LineEnding)
    && (forall i :: n <= i < |cs| ==> cs[i].Bytes?)
  }

  lemma LineOutEnds(line: string)
    ensures LineOut(line).Text? && EndsWith(LineOut(line).text, LineEnding)
    ensures line != [] ==> LineOut(line) != Text(LineEnding)
  {
    var t := line + LineEnding;
    assert t[|t| - |LineEnding|..] == LineEnding;
  }

  /** The header lines `send_headers` writes, whatever bytes follow them, are framed. */
  lemma HeaderBlockFramed(status: string, contentType: string, n: nat, tail: seq<Chunk>)
    requires forall i :: 0 <= i < |tail| ==> tail[i].Bytes?
    ensures Framed(HeaderBlock(status, contentType, n) + tail, 5)
  {
    var cs := HeaderBlock(status, contentType, n) + tail;
    HeaderBlockLines(status, contentType, n, tail);
    forall i | 0 <= i < 5 ensures cs[i].Text? && EndsWith(cs[i].text, LineEnding) {
      if i == 0 {
        LineOutEnds(Http11 + " " + status);
      } else if i < 4 {
        LineOutEnds(HeaderFields(contentType, n)[i - 1]);
      } else {
        LineOutEnds("");
      }
    }
    forall i | 5 <= i < |cs| ensures cs[i].Bytes? {
      assert cs[i] == tail[i - 5];
    }
  }

  /** The lines `send_redirect` writes are framed. */
  lemma RedirectBlockFramed(location: string, status: string)
    ensures Framed(RedirectBlock(location, status), 4)
  {
    var cs := RedirectBlock(location, status);
    RedirectBlockLines(location, status);
    forall i | 0 <= i < 4 ensures cs[i].Text? && EndsWith(cs[i].text, LineEnding) {
      if i == 0 {
        LineOutEnds(Http11 + " " + status);
      } else if i < 3 {
        LineOutEnds(RedirectFields(location)[i - 1]);
      } else {
        LineOutEnds("");
      }
    }
  }

  lemma RenderFramed(r: Response)
    requires !r.Dropped?
    ensures Framed(Render(r), HeaderLines(r))
    ensures Render(r)[HeaderLines(r)..] == if r.Served? then [Bytes(r.body)] else []
  {
    match r
    case Empty(status) =>
      HeaderBlockFramed(status, "text/html", 0, []);
      assert HeaderBlock(status, "text/html", 0) + [] == Render(r);
    case Redirect(location) =>
      RedirectBlockFramed(location, StatusMoved);
    case Served(contentType, body) =>
      HeaderBlockFramed(StatusOk, contentType, |body|, [Bytes(body)]);
  }
}
