// The proxy's request parser, and the request it rebuilds for the origin server.
module ProxyParse {

  import opened CString
  import opened Common

  const MAXLINE := 8192
  const HOSTNAME_MAX_LEN := 63
  const PORT_MAX_LEN := 10
  const HEADER_NAME_MAX_LEN := 32
  const HEADER_VALUE_MAX_LEN := 64

  const SCHEME := "http://"
  const BLANK := "\r\n"

  // ---- what is parsed ----

  predicate Found(text: string, pat: string)
    requires pat != []
  {
    FindFrom(text, 0, pat) < |text|
  }

  // The text before and behind the first occurrence of pat.
  function Head(text: string, pat: string): string
    requires pat != [] && Found(text, pat)
  {
    text[..FindFrom(text, 0, pat)]
  }

  function Tail(text: string, pat: string): string
    requires pat != [] && Found(text, pat)
  {
    text[FindFrom(text, 0, pat) + |pat|..]
  }

  lemma SplitRoundTrip(text: string, pat: string)
    requires pat != [] && Found(text, pat)
    ensures Head(text, pat) + pat + Tail(text, pat) == text
  {
    var d := FindFrom(text, 0, pat);
    assert MatchesAt(text, d, pat);
    assert text[d..d + |pat|] == pat;
    assert text == text[..d] + text[d..d + |pat|] + text[d + |pat|..];
  }

  lemma FoundIff(text: string, pat: string)
    requires pat != []
    ensures Found(text, pat) <==> exists i :: 0 <= i < |text| && MatchesAt(text, i, pat)
  {
  }

  lemma NoneInHead(text: string, pat: string)
    requires |pat| == 1 && Found(text, pat)
    ensures pat[0] !in Head(text, pat)
  {
    var head := Head(text, pat);
    forall i | 0 <= i < |head| ensures head[i] != pat[0] {
      assert !MatchesAt(text, i, pat);
    }
  }

  datatype ReqHeader = ReqHeader(name: string, value: string) {
    function Shown(): string { name + ": " + value }
  }

  function ParsedHeader(line: string): Option<ReqHeader> {
    if Found(line, ": ") then Some(ReqHeader(Head(line, ": "), Tail(line, ": "))) else None
  }

  // A header line with ": " in it is given back whole by its parts, the name ending where the first
  // ": " begins.
  lemma HeaderRoundTrip(line: string)
    ensures ParsedHeader(line).Some? <==> exists i :: 0 <= i < |line| && MatchesAt(line, i, ": ")
    ensures ParsedHeader(line).Some? ==> ParsedHeader(line).value.Shown() == line
    ensures ParsedHeader(line).Some? ==>
      forall i :: 0 <= i < |ParsedHeader(line).value.name| ==> !MatchesAt(line, i, ": ")
  {
    FoundIff(line, ": ");
    if Found(line, ": ") {
      SplitRoundTrip(line, ": ");
    }
  }

  // The parts of a uri.
  datatype Target = Target(host: string, port: string, path: string) {
    function Shown(): string { SCHEME + host + ":" + port + path }
  }

  // What stands behind the scheme has a ':' and a '/' behind that.
  predicate Complete(rest: string) { Found(rest, ":") && Found(Tail(rest, ":"), "/") }

  function ParsedTarget(rest: string): Target
    requires Complete(rest)
  {
    var tail := Tail(rest, ":");
    Target(Head(rest, ":"), Head(tail, "/"), "/" + Tail(tail, "/"))
  }

  // A uri is given back whole by its parts; the host has no ':', the port no '/', and the path begins
  // with one.
  lemma UriRoundTrip(rest: string)
    requires Complete(rest)
    ensures var t := ParsedTarget(rest);
      && t.Shown() == SCHEME + rest
      && ':' !in t.host && '/' !in t.port && t.path != [] && t.path[0] == '/'
  {
    var tail := Tail(rest, ":");
    SplitRoundTrip(rest, ":");
    SplitRoundTrip(tail, "/");
    Reassociate(SCHEME, Head(rest, ":"), Head(tail, "/"), Tail(tail, "/"), tail, rest);
    NoneInHead(rest, ":");
    NoneInHead(tail, "/");
  }

  // Text is split in one way only at the first of a character.
  lemma SplitIs(text: string, pat: string, head: string, tail: string)
    requires |pat| == 1 && text == head + pat + tail && pat[0] !in head
    ensures Found(text, pat) && Head(text, pat) == head && Tail(text, pat) == tail
  {
    var d := |head|;
    assert text[d..d + 1] == pat && MatchesAt(text, d, pat);
    forall i | 0 <= i < d ensures !MatchesAt(text, i, pat) {
      assert text[i] == head[i] && text[i..i + 1][0] == text[i];
    }
    FoundIff(text, pat);
  }

  // And no other parts of that kind give it back.
  lemma UriPartsAreUnique(rest: string, t: Target)
    requires t.Shown() == SCHEME + rest
    requires ':' !in t.host && '/' !in t.port && t.path != [] && t.path[0] == '/'
    ensures Complete(rest) && ParsedTarget(rest) == t
  {
    var tail := t.port + t.path;
    assert rest == (SCHEME + rest)[|SCHEME|..] == t.host + ":" + tail;
    SplitIs(rest, ":", t.host, tail);
    assert t.path == "/" + t.path[1..];
    assert tail == t.port + "/" + t.path[1..];
    SplitIs(tail, "/", t.port, t.path[1..]);
  }

  lemma Reassociate(scheme: string, host: string, port: string, path: string, tail: string, rest: string)
    requires tail == port + "/" + path && rest == host + ":" + tail
    ensures scheme + host + ":" + port + ("/" + path) == scheme + rest
  {
  }

  // ---- what fits the source's fields ----

  predicate HeaderFits(line: string) {
    ParsedHeader(line).Some? ==>
      |ParsedHeader(line).value.name| < HEADER_NAME_MAX_LEN && |ParsedHeader(line).value.value| < HEADER_VALUE_MAX_LEN
  }

  predicate Readable(line: string) { |line| < MAXLINE && NUL !in line && HeaderFits(line) }

  predicate TargetFits(t: Target) {
    |t.host| < HOSTNAME_MAX_LEN && |t.port| < PORT_MAX_LEN && |t.path| < MAXLINE
  }

  // ---- the request sent on ----

  function Shown(headers: seq<ReqHeader>): string {
    if headers == [] then [] else Shown(headers[..|headers| - 1]) + headers[|headers| - 1].Shown()
  }

  function Joined(lines: seq<string>): string {
    if lines == [] then [] else Joined(lines[..|lines| - 1]) + lines[|lines| - 1]
  }

  function RequestLine(path: string): string { "GET " + path + " HTTP/1.0\r\n" }

  // Split at its spaces, the request line gives the method, the path and the version with the line's end.
  lemma RequestLineFields(path: string)
    requires ' ' !in path
    ensures var line := RequestLine(path);
      && Found(line, " ") && Head(line, " ") == "GET"
      && Found(Tail(line, " "), " ") && Head(Tail(line, " "), " ") == path
      && Tail(Tail(line, " "), " ") == "HTTP/1.0\r\n"
  {
    var version := "HTTP/1.0\r\n";
    assert RequestLine(path) == "GET" + " " + (path + " " + version);
    SplitIs(RequestLine(path), " ", "GET", path + " " + version);
    SplitIs(path + " " + version, " ", path, version);
  }

  // The request with its header lines as they were received.
  function Rebuilt(path: string, lines: seq<string>): string { RequestLine(path) + Joined(lines) + BLANK }

  lemma {:induction false} JoinedConcat(xs: seq<string>, ys: seq<string>)
    ensures Joined(xs + ys) == Joined(xs) + Joined(ys)
  {
    if ys == [] {
      assert xs + ys == xs;
    } else {
      var n := |ys| - 1;
      JoinedConcat(xs, ys[..n]);
      assert (xs + ys)[..|xs + ys| - 1] == xs + ys[..n];
    }
  }

  // Parsed headers are shown as the lines they were parsed from, byte for byte and in order.
  lemma {:induction false} HeadersRoundTrip(lines: seq<string>, headers: seq<ReqHeader>)
    requires |headers| == |lines|
    requires forall i :: 0 <= i < |lines| ==> ParsedHeader(lines[i]) == Some(headers[i])
    ensures Shown(headers) == Joined(lines)
  {
    if lines != [] {
      var n := |lines| - 1;
      HeadersRoundTrip(lines[..n], headers[..n]);
      HeaderRoundTrip(lines[n]);
    }
  }

  // Where the blank line is that ends the headers.
  function BlankAt(lines: seq<string>): (n: nat)
    ensures n <= |lines| && (n < |lines| ==> lines[n] == BLANK)
    ensures forall i :: 0 <= i < n ==> lines[i] != BLANK
  {
    if lines == [] then 0
    else
      var n := BlankAt(lines[..|lines| - 1]);
      if n == |lines| - 1 && lines[n] != BLANK then |lines| else n
  }

  // ---- the code ----

  // c = strstr(buf + i, pat); *c = NUL; and strcpy of what then stands at i.
  method Take(buf: array<char>, i: nat, ghost text: string, pat: string) returns (c: int, head: string)
    requires HasString(buf[..], i, text) && pat != [] && NUL !in pat
    modifies buf
    ensures c == NULL <==> !Found(text, pat)
    ensures c != NULL ==> head == Head(text, pat) && c == i + |head| && HasString(buf[..], c + |pat|, Tail(text, pat))
  {
    head := "";
    c := Strstr(buf, i, text, pat);
    if c != NULL {
      ghost var before, d := buf[..], c - i;
      assert MatchesAt(text, d, pat);
      CutString(before, i, text, d);
      buf[c] := NUL;
      assert buf[..] == before[c := NUL];
      Suffix(buf[..], c + 1, text[d + 1..], |pat| - 1);
      assert text[d + 1..][|pat| - 1..] == text[d + |pat|..];
      head := Copy(buf, i, text[..d]);
    }
  }

  // parse_header, which cuts the line in place; None where the source exits.
  method ParseHeader(line: array<char>, ghost text: string) returns (h: Option<ReqHeader>)
    requires HasString(line[..], 0, text) && HeaderFits(text)
    modifies line
    ensures h == ParsedHeader(text)
  {
    var c, name := Take(line, 0, text, ": ");
    if c == NULL {
      h := None;
    } else {
      var value := Copy(line, c + 2, Tail(text, ": "));
      h := Some(ReqHeader(name, value));
    }
  }

  class ReqLine {
    var host: string
    var port: string
    var path: string

    constructor ()
    {
      host, port, path := "", "", "";
    }

    ghost function Contents(): Target
      reads this
    {
      Target.Target(host, port, path)
    }
  }

  lemma Mend(buf: seq<char>, k: nat, tail: string)
    requires HasString(buf, k + 1, tail)
    ensures HasString(buf[k := '/'], k, "/" + tail)
  {
  }

  // The end of parse_uri, behind the scheme. It mends the second cut to keep the path's '/'.
  method ParseTarget(uri: array<char>, i: nat, ghost rest: string, linep: ReqLine)
    requires HasString(uri[..], i, rest) && Complete(rest) && TargetFits(ParsedTarget(rest))
    modifies uri, linep
    ensures linep.Contents() == ParsedTarget(rest)
  {
    ghost var tail := Tail(rest, ":");
    var c, host := Take(uri, i, rest, ":");
    var s, port := Take(uri, c + 1, tail, "/");
    ghost var before, path := uri[..], Tail(tail, "/");
    uri[s] := '/';
    assert uri[..] == before[s := '/'];
    Mend(before, s, path);
    linep.host, linep.port := host, port;
    linep.path := Copy(uri, s, "/" + path);
  }

  // parse_uri; false where the source exits.
  method ParseUri(uri: array<char>, ghost text: string, linep: ReqLine) returns (ok: bool)
    requires HasString(uri[..], 0, text)
    requires SCHEME <= text ==> Complete(text[|SCHEME|..]) && TargetFits(ParsedTarget(text[|SCHEME|..]))
    modifies uri, linep
    ensures ok <==> SCHEME <= text
    ensures ok ==> linep.Contents() == ParsedTarget(text[|SCHEME|..])
    ensures ok ==> linep.Contents().Shown() == text && ':' !in linep.host && '/' !in linep.port
    ensures ok ==> linep.path != [] && linep.path[0] == '/'
  {
    var at := Strstr(uri, 0, text, SCHEME);
    if at != 0 {
      assert text == [] || !MatchesAt(text, 0, SCHEME);
      ok := false;
    } else {
      assert MatchesAt(text, 0, SCHEME);
      Suffix(uri[..], 0, text, |SCHEME|);
      UriRoundTrip(text[|SCHEME|..]);
      ParseTarget(uri, |SCHEME|, text[|SCHEME|..], linep);
      ok := true;
    }
  }

  // A line read into buf, and parsed there.
  method ParseLine(buf: array<char>, line: string) returns (h: Option<ReqHeader>)
    requires buf.Length == MAXLINE && Readable(line)
    modifies buf
    ensures h == ParsedHeader(line)
  {
    Store(buf, 0, line);
    h := ParseHeader(buf, line);
  }

  // The header loop of parse_request, on the lines that rio_readlineb delivers.
  method ParseHeaders(lines: seq<string>, headers: array<ReqHeader>) returns (ok: bool, count: nat)
    requires BlankAt(lines) < |lines| && BlankAt(lines) <= headers.Length
    requires forall i :: 0 <= i < BlankAt(lines) ==> Readable(lines[i])
    modifies headers
    ensures ok <==> forall i :: 0 <= i < BlankAt(lines) ==> ParsedHeader(lines[i]).Some?
    ensures ok ==> count == BlankAt(lines) && forall i :: 0 <= i < count ==> ParsedHeader(lines[i]) == Some(headers[i])
  {
    count := 0;
    var buf := new char[MAXLINE];
    while lines[count] != BLANK
      invariant 0 <= count <= BlankAt(lines)
      invariant forall i :: 0 <= i < count ==> ParsedHeader(lines[i]) == Some(headers[i])
      decreases BlankAt(lines) - count
    {
      var h := ParseLine(buf, lines[count]);
      if h.None? {
        return false, count;
      }
      headers[count] := h.value;
      count := count + 1;
    }
    ok := true;
  }

  // sprintf at *head, and the new end of the string.
  method Append(buf: array<char>, head: nat, ghost before: string, s: string) returns (end: nat)
    requires HasString(buf[..], 0, before) && head == |before| && head + |s| < buf.Length && NUL !in s
    modifies buf
    ensures HasString(buf[..], 0, before + s) && end == |before + s|
  {
    ghost var was := buf[..];
    Store(buf, head, s);
    forall j | 0 <= j < head ensures buf[j] == was[j] {
      assert buf[..head][j] == was[..head][j];
    }
    end := head + |s|;
  }

  // The block send_to_server builds.
  method BuildRequest(path: string, headers: array<ReqHeader>, count: nat) returns (buf: array<char>)
    requires count <= headers.Length && NUL !in path
    requires forall i :: 0 <= i < count ==> NUL !in headers[i].Shown()
    requires |RequestLine(path)| + |Shown(headers[..count])| + |BLANK| < MAXLINE
    ensures fresh(buf) && HasString(buf[..], 0, RequestLine(path) + Shown(headers[..count]) + BLANK)
  {
    buf := new char[MAXLINE](_ => NUL);
    var head := Append(buf, 0, "", RequestLine(path));
    ghost var hs, text := headers[..count], RequestLine(path);
    assert "" + text == text == text + Shown(hs[..0]);
    var i := 0;
    while i < count
      invariant 0 <= i <= count && fresh(buf) && buf.Length == MAXLINE && headers[..count] == hs
      invariant text == RequestLine(path) + Shown(hs[..i]) && HasString(buf[..], 0, text) && head == |text|
    {
      OneMoreHeader(RequestLine(path), hs, i);
      head := Append(buf, head, text, headers[i].Shown());
      text := text + headers[i].Shown();
      i := i + 1;
    }
    assert hs[..count] == hs;
    head := Append(buf, head, text, BLANK);
  }

  lemma OneMoreHeader(line: string, headers: seq<ReqHeader>, i: nat)
    requires i < |headers|
    ensures line + Shown(headers[..i]) + headers[i].Shown() == line + Shown(headers[..i + 1])
    ensures |Shown(headers[..i + 1])| <= |Shown(headers)|
  {
    assert headers[..i + 1][..i] == headers[..i];
    ShownPrefix(headers, i + 1);
  }

  lemma {:induction false} ShownPrefix(headers: seq<ReqHeader>, i: nat)
    requires i <= |headers|
    ensures |Shown(headers[..i])| <= |Shown(headers)|
  {
    if i < |headers| {
      var n := |headers| - 1;
      ShownPrefix(headers[..n], i);
      assert headers[..n][..i] == headers[..i];
    } else {
      assert headers[..i] == headers;
    }
  }

  // A request that passes through the proxy: the parts of its uri, and the block sent on, which has the
  // received header lines byte for byte.
  method Forward(uri: string, lines: seq<string>, headers: array<ReqHeader>) returns (ok: bool, linep: ReqLine, buf: array<char>)
    requires |uri| < MAXLINE && NUL !in uri && BlankAt(lines) < |lines| && BlankAt(lines) <= headers.Length
    requires SCHEME <= uri ==> Complete(uri[|SCHEME|..]) && TargetFits(ParsedTarget(uri[|SCHEME|..]))
    requires forall i :: 0 <= i < BlankAt(lines) ==> Readable(lines[i])
    requires SCHEME <= uri ==>
      |Rebuilt(ParsedTarget(uri[|SCHEME|..]).path, lines[..BlankAt(lines)])| < MAXLINE
    modifies headers
    ensures ok <==> SCHEME <= uri && forall i :: 0 <= i < BlankAt(lines) ==> ParsedHeader(lines[i]).Some?
    ensures ok ==> linep.Contents().Shown() == uri && ':' !in linep.host && '/' !in linep.port
    ensures ok ==> linep.path != [] && linep.path[0] == '/'
    ensures ok ==> HasString(buf[..], 0, Rebuilt(linep.path, lines[..BlankAt(lines)]))
  {
    linep := new ReqLine();
    buf := new char[MAXLINE];
    Store(buf, 0, uri);
    ok := ParseUri(buf, uri, linep);
    if ok {
      var count;
      ok, count := ParseHeaders(lines, headers);
      if ok {
        HeadersRoundTrip(lines[..count], headers[..count]);
        forall i | 0 <= i < count ensures NUL !in headers[i].Shown() {
          HeaderRoundTrip(lines[i]);
        }
        NoNulInPath(linep.Contents(), uri);
        buf := BuildRequest(linep.path, headers, count);
      }
    }
  }

  lemma NoNulInPath(t: Target, uri: string)
    requires t.Shown() == uri && NUL !in uri
    ensures NUL !in t.path
  {
    var front := SCHEME + t.host + ":" + t.port;
    forall i | 0 <= i < |t.path| ensures t.path[i] != NUL {
      assert uri[|front| + i] == t.path[i];
    }
  }
}
