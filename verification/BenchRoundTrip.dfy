/** Everything build_request prints for HTTP/1.1 is understood by the server: any accepted url of
    plain characters reaches GET_REQUEST with its own path and host, however the request is cut
    into reads. */
module BenchRoundTrip {
  import opened Common
  import opened CString
  import opened RequestParser
  import opened Observation
  import opened ChunkedRuns
  import opened Reference
  import opened BodyScan
  import opened WebBench

  /** The path the server is to serve. */
  function ServedPath(url: seq<char>): seq<char>
    requires Delimiter(url, 0) < |url|
  {
    if |PathOf(url)| == 1 then "/judge.html" else PathOf(url)
  }

  /** An HTTP/1.1 GET that the server can take: to the server itself, or an http or https url
      through a proxy. */
  predicate Servable(o: Options, url: seq<char>) {
    && Check(o, url) == Built && o.verb == MethodGet && o.http10 == 2 && Plain(url)
    && (o.proxyHost.Some? ==> HasPrefixCI(url, "http://") || HasPrefixCI(url, "https://"))
  }

  // ----------------------------------------------------------------- the url

  lemma {:induction false} SchemeEnds(url: seq<char>, scheme: seq<char>)
    requires scheme == "http://" || scheme == "https://"
    requires HasPrefixCI(url, scheme)
    ensures Delimiter(url, 0) == |scheme| - 3
  {
    var n := |scheme| - 3;
    assert forall j :: 0 <= j < |scheme| ==>
      Lower(url[..|scheme|][j]) == Lower(scheme[j]) && url[..|scheme|][j] == url[j];
    assert forall j :: 0 <= j < n ==> 'a' <= scheme[j] <= 'z';
    LowerKeeps(url, scheme, n);
    assert url[n] == ':' && url[n + 1] == '/' && url[n + 2] == '/';
    assert url[n..n + 3] == "://";
    FirstDelimiter(url, 0, n);
  }

  lemma LowerKeeps(url: seq<char>, scheme: seq<char>, n: nat)
    requires n + 3 == |scheme| <= |url|
    requires forall j :: 0 <= j < |scheme| ==> Lower(url[j]) == Lower(scheme[j])
    requires forall j :: 0 <= j < n ==> 'a' <= scheme[j] <= 'z'
    requires scheme[n] == ':' && scheme[n + 1] == '/' && scheme[n + 2] == '/'
    ensures forall j :: 0 <= j < n ==> url[j] != ':'
    ensures url[n] == ':' && url[n + 1] == '/' && url[n + 2] == '/'
  {
  }

  lemma {:induction false} PathBegins(o: Options, url: seq<char>)
    requires Servable(o, url)
    ensures Delimiter(url, 0) < |url| && PathOf(url) != [] && PathOf(url)[0] == '/'
  {
    hide Delimiter, Scan;
    assert url[PathStart(url)] == '/';
  }

  lemma {:induction false} PathOfPath(path: seq<char>)
    requires path != [] && path[0] == '/'
    ensures Path(path) == (NoRequest, if |path| == 1 then "/judge.html" else path)
  {
    DiffersAt(path, "http://", 0);
    DiffersAt(path, "https://", 0);
  }

  lemma {:induction false} PathOfAbsolute(url: seq<char>, scheme: seq<char>)
    requires scheme == "http://" || scheme == "https://"
    requires HasPrefixCI(url, scheme) && Delimiter(url, 0) < |url| && PathStart(url) < |url|
    requires PathOf(url)[0] == '/'
    ensures Path(url) == Path(PathOf(url))
  {
    SchemeEnds(url, scheme);
    DiffersAt(PathOf(url), "http://", 0);
    DiffersAt(PathOf(url), "https://", 0);
    if scheme == "https://" {
      assert Lower(url[..8][4]) == Lower("https://"[4]) && url[..8][4] == url[4];
      DiffersAt(url, "http://", 4);
    }
  }

  /** The target the bench prints leads the server to the path of the url. */
  lemma {:induction false} TargetPath(o: Options, url: seq<char>)
    requires Servable(o, url)
    ensures Delimiter(url, 0) < |url| && Path(Target(o, url)) == (NoRequest, ServedPath(url))
  {
    hide Delimiter, Scan, HasPrefixCI, Path;
    PathBegins(o, url);
    PathOfPath(PathOf(url));
    if o.proxyHost.Some? {
      if HasPrefixCI(url, "http://") {
        PathOfAbsolute(url, "http://");
      } else {
        PathOfAbsolute(url, "https://");
      }
    }
  }

  // ----------------------------------------------------------------- the lines

  lemma {:induction false} RequestLineText(target: seq<char>)
    requires Plain(target)
    ensures var line := "GET" + " " + target + " HTTP/1.1"; NoBreak(line) && NoNul(line)
  {
    LiteralsArePlain();
    var line := "GET" + " " + target + " HTTP/1.1";
    assert line == "GET " + target + " HTTP/1.1";
    assert NoBreak("GET " + target) && NoNul("GET " + target);
  }

  lemma {:induction false} RequestLineMeaning(target: seq<char>)
    requires Plain(target)
    ensures MeaningOfRequestLine("GET" + " " + target + " HTTP/1.1") == (Path(target).0, Get, Path(target).1)
  {
    hide Path, MeaningOfTarget;
    var line := "GET" + " " + target + " HTTP/1.1";
    var rest := target + " HTTP/1.1";
    assert line == "GET " + rest;
    ScanIs(line, 0, BlankOrNul, 3);
    assert line[..3] == "GET" && line[4..] == rest;
    TargetMeaning(target);
  }

  lemma {:induction false} TargetMeaning(target: seq<char>)
    requires Plain(target)
    ensures MeaningOfTarget(target + " HTTP/1.1", Get) == (Path(target).0, Get, Path(target).1)
  {
    hide Path;
    var rest := target + " HTTP/1.1";
    assert forall i :: 0 <= i < |target| ==> rest[i] == target[i];
    ScanIs(rest, 0, BlankOrNul, |target|);
    assert rest[..|target|] == target && rest[|target| + 1..] == "HTTP/1.1";
  }

  lemma LiteralsArePlain()
    ensures NoBreak("GET ") && NoNul("GET ") && NoBreak(" HTTP/1.1") && NoNul(" HTTP/1.1")
  {
  }

  lemma {:induction false} LastStep(at: nat, v: View)
    requires v.clen == 0
    ensures MeaningOfHeaders("" + "\r\n" + [], at, v) == Accepted(v)
  {
    hide FirstLine, Str;
    FirstLineIs("", []);
    WholeStr("");
  }

  lemma {:induction false} AgentMeaning(v: View)
    ensures NoBreak(AGENT) && NoNul(AGENT) && MeaningOfHeader(AGENT, v) == v
  {
    hide EqCI, Skip, HasPrefixCI;
    DiffersAt(AGENT, "Connection:", 0);
    DiffersAt(AGENT, "Content-Length:", 0);
    DiffersAt(AGENT, "Host:", 0);
  }

  lemma {:induction false} PragmaMeaning(v: View)
    ensures NoBreak(PRAGMA) && NoNul(PRAGMA) && MeaningOfHeader(PRAGMA, v) == v
  {
    DiffersAt(PRAGMA, "Connection:", 0);
    DiffersAt(PRAGMA, "Content-Length:", 0);
    DiffersAt(PRAGMA, "Host:", 0);
  }

  lemma {:induction false} CloseMeaning(v: View)
    ensures NoBreak(CLOSE) && NoNul(CLOSE) && MeaningOfHeader(CLOSE, v) == v
  {
    assert CLOSE == "Connection:" + " close";
    ClassifyConnection(" close");
    SkipIs(CLOSE, 11, Blank, 12);
    assert CLOSE[12..] == "close";
  }

  lemma {:induction false} HostMeaning(host: seq<char>, v: View)
    requires Plain(host)
    ensures var line := "Host: " + host;
      NoBreak(line) && NoNul(line) && MeaningOfHeader(line, v) == v.(host := Some(host))
  {
    var line := "Host: " + host;
    assert line == "Host:" + (" " + host);
    ClassifyHost(" " + host);
    assert forall i :: 0 <= i < |host| ==> line[6 + i] == host[i];
    assert forall i :: 0 <= i < 6 ==> line[i] == "Host: "[i];
    SkipIs(line, 5, Blank, 6);
    assert line[6..] == host;
  }

  // ----------------------------------------------------------------- the request

  /** The headers behind the request line, as the server meets them. */
  function HeaderText(o: Options, host: seq<char>): seq<char> {
    var end := CLOSE + "\r\n" + ("" + "\r\n" + []);
    var middle :=
      if o.proxyHost == None then ("Host: " + host) + "\r\n" + end
      else if o.forceReload then PRAGMA + "\r\n" + end
      else end;
    AGENT + "\r\n" + middle
  }

  lemma {:induction false} IdentityIs(o: Options, host: seq<char>)
    requires o.http10 == 2
    ensures Identity(o, host) == AGENT + "\r\n" + if o.proxyHost == None then "Host: " + host + "\r\n" else []
  {
  }

  lemma {:induction false} ClosingIs(o: Options)
    requires o.http10 == 2
    ensures Closing(o)
         == (if o.forceReload && o.proxyHost.Some? then PRAGMA + "\r\n" else []) + (CLOSE + "\r\n" + ("\r\n" + []))
  {
  }

  lemma {:induction false} TailIs(o: Options, host: seq<char>)
    requires o.http10 == 2
    ensures Tail(o, host) == " HTTP/1.1" + ("\r\n" + HeaderText(o, host))
  {
    hide Identity, Closing;
    IdentityIs(o, host);
    ClosingIs(o);
    var end := CLOSE + "\r\n" + ("" + "\r\n" + []);
    assert Closing(o) == (if o.forceReload && o.proxyHost.Some? then PRAGMA + "\r\n" else []) + end;
    assert Identity(o, host) + Closing(o) == HeaderText(o, host);
  }

  lemma {:induction false} HeaderTextMeaning(o: Options, host: seq<char>, at: nat, v: View)
    requires Plain(host) && v.clen == 0 && v.host == None
    ensures MeaningOfHeaders(HeaderText(o, host), at, v)
         == Accepted(v.(host := if o.proxyHost == None then Some(host) else None))
  {
    hide MeaningOfHeader, MeaningOfHeaders, NoBreak, NoNul;
    var w := v.(host := if o.proxyHost == None then Some(host) else None);
    var last := "" + "\r\n" + [];
    var end := CLOSE + "\r\n" + last;
    AgentMeaning(v);
    CloseMeaning(w);
    var middle :=
      if o.proxyHost == None then ("Host: " + host) + "\r\n" + end
      else if o.forceReload then PRAGMA + "\r\n" + end
      else end;
    HeaderStep(AGENT, middle, at, v, v);
    var at1 := at + |AGENT| + 2;
    var at2 := at1;
    if o.proxyHost == None {
      HostMeaning(host, v);
      HeaderStep("Host: " + host, end, at1, v, w);
      at2 := at1 + |"Host: " + host| + 2;
    } else if o.forceReload {
      PragmaMeaning(v);
      HeaderStep(PRAGMA, end, at1, v, w);
      at2 := at1 + |PRAGMA| + 2;
    }
    HeaderStep(CLOSE, last, at2, w, w);
    LastStep(at2 + |CLOSE| + 2, w);
  }

  /** What the server makes of a request of the bench. */
  lemma {:induction false} RequestMeaning(o: Options, url: seq<char>)
    requires Servable(o, url)
    ensures Delimiter(url, 0) < |url|
    ensures Meaning(Request(o, url)) == Accepted(
      View(Get, false, Some(ServedPath(url)), if o.proxyHost == None then Some(HostOf(url)) else None, false, 0, None))
  {
    hide Path, MeaningOfRequestLine, MeaningOfHeaders, FirstLine, HeaderText, Tail;
    hide NoBreak, NoNul, Delimiter, Scan, Str;
    TargetPath(o, url);
    var target := Target(o, url);
    var host := if o.proxyHost == None then HostOf(url) else [];
    var line := "GET" + " " + target + " HTTP/1.1";
    var rest := HeaderText(o, host);
    RequestLineFirst(o, url);
    PlainParts(o, url);
    RequestLineText(target);
    RequestLineMeaning(target);
    FirstLineIs(line, rest);
    WholeStr(line);
    HeaderTextMeaning(o, host, |line| + 2, View(Get, false, Some(ServedPath(url)), None, false, 0, None));
  }

  lemma {:induction false} RequestLineFirst(o: Options, url: seq<char>)
    requires Servable(o, url)
    ensures var host := if o.proxyHost == None then HostOf(url) else [];
      Request(o, url) == "GET" + " " + Target(o, url) + " HTTP/1.1" + "\r\n" + HeaderText(o, host)
  {
    hide HeaderText, Tail, Delimiter, Scan, Str, Target;
    var host := if o.proxyHost == None then HostOf(url) else [];
    var rest := HeaderText(o, host);
    TailIs(o, host);
    assert o.(http10 := Protocol(o)) == o;
    assert Request(o, url) == "GET" + " " + Target(o, url) + (" HTTP/1.1" + ("\r\n" + rest));
  }

  lemma {:induction false} PlainParts(o: Options, url: seq<char>)
    requires Servable(o, url) && Delimiter(url, 0) < |url|
    ensures Plain(Target(o, url)) && Plain(HostOf(url))
  {
    hide Delimiter, Scan;
  }

  /** A request that is accepted without a body has no body to be cut. */
  lemma {:induction false} AcceptedWithoutBody(r: seq<char>, at: nat, v: View, w: View)
    requires MeaningOfHeaders(r, at, v) == Accepted(w) && w.clen == 0
    ensures BodyIn(r, v) == None
    decreases |r|
  {
    hide FirstLine, MeaningOfHeader, Str;
    if FirstLine(r).Some? {
      var (line, rest) := FirstLine(r).value;
      var t := Str(line, 0);
      RestIsShorter(r);
      if t != [] {
        AcceptedWithoutBody(rest, at + |line| + 2, MeaningOfHeader(t, v), w);
      }
    }
  }

  lemma RestIsShorter(r: seq<char>)
    ensures FirstLine(r).Some? ==> |FirstLine(r).value.1| < |r|
  {
  }

  lemma {:induction false} NoBodyOf(s: seq<char>, w: View)
    requires Meaning(s) == Accepted(w) && w.clen == 0
    ensures BodyOf(s) == None
  {
    hide FirstLine, MeaningOfRequestLine, MeaningOfHeaders, BodyIn;
    if FirstLine(s).Some? {
      var (line, rest) := FirstLine(s).value;
      var (c, m, u) := MeaningOfRequestLine(Str(line, 0));
      AcceptedWithoutBody(rest, |line| + 2, View(m, m == Post, Some(u), None, false, 0, None), w);
    }
  }

  /** End to end: however the printed request is cut into reads, the server reaches GET_REQUEST
      with the path and, in direct mode, the host of the url, and closes the connection after it. */
  lemma {:induction false} BenchRequestServed(o: Options, url: seq<char>, chunks: seq<seq<char>>)
    requires Servable(o, url) && Delimiter(url, 0) < |url|
    requires |chunks| > 0 && Flatten(chunks) == Request(o, url)
    ensures WF(Init())
    ensures var (c, q) := Run(Init(), chunks, AsWritten);
      && c == GetRequest
      && Observe(q) == View(Get, false, Some(ServedPath(url)),
                            if o.proxyHost == None then Some(HostOf(url)) else None, false, 0, None)
  {
    hide Meaning, Run, Request, Check, WF, Loop, Observe, BodyOf;
    RequestFits(o, url) by {
      assert Check(o, url) == Built;
    }
    RequestMeaning(o, url);
    NoBodyOf(Request(o, url), Meaning(Request(o, url)).view);
    ReadsComputeMeaning(chunks);
  }
}
