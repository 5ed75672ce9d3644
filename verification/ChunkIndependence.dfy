/** How a request arrives in pieces must not matter: the parser is run after every read, and the
    outcome is compared with one run on everything that was read. */
module ChunkIndependence {
  import opened CString
  import opened RequestParser
  import opened Observation

  // ------------------------------------- every step ignores bytes that arrive later

  lemma {:induction false} AppendWF(p: Parser, e: seq<char>)
    requires WF(p)
    ensures WF(Append(p, e))
  {
    hide Scan;
    var a := Append(p, e);
    assert a.buf[..p.start] == p.buf[..p.start];
    SettledFrame(p.buf, a.buf, p.url, p.start, p.start);
    SettledFrame(p.buf, a.buf, p.host, p.start, p.start);
  }

  /** A delivered or a bad line stays what it is; an open one is taken up where it stopped. */
  lemma {:induction false} LineAppend(p: Parser, e: seq<char>)
    requires WF(p)
    ensures var (s, q) := ParseLine(p);
      && (s != LineOpen ==> ParseLine(Append(p, e)) == (s, Append(q, e)))
      && (s != LineOk ==> WF(q) && ParseLine(Append(p, e)) == ParseLine(Append(q, e)))
  {
    hide ParseLine, WF;
    LineWF(p);
    AppendWF(p, e);
    if ParseLine(p).0 != LineOpen {
      CompleteLineAppend(p, e);
    }
    if ParseLine(p).0 != LineOk {
      OpenLineAppend(p, e);
    }
  }

  lemma {:induction false} OpenLineAppend(p: Parser, e: seq<char>)
    requires WF(p)
    requires ParseLine(p).0 != LineOk
    ensures ParseLine(Append(p, e)) == ParseLine(Append(ParseLine(p).1, e))
  {
    hide WF, Scan;
    Ordered(p);
    ParseLineStop(p);
    var k := Scan(p.buf, p.check, Break);
    assert forall j :: p.check <= j < k ==> (p.buf + e)[j] == p.buf[j];
    ScanResume(p.buf + e, p.check, Break, k);
  }

  lemma {:induction false} ParseLineStop(p: Parser)
    requires WF(p) && ParseLine(p).0 != LineOk
    ensures p.check <= |p.buf| && ParseLine(p).1 == p.(check := Scan(p.buf, p.check, Break))
  {
    hide Scan;
    LineShape(p);
  }

  lemma {:induction false} CompleteLineAppend(p: Parser, e: seq<char>)
    requires WF(p) && WF(Append(p, e))
    requires ParseLine(p).0 != LineOpen
    ensures ParseLine(Append(p, e)) == (ParseLine(p).0, Append(ParseLine(p).1, e))
  {
    hide Scan, WF;
    LineShape(p);
    LineShape(Append(p, e));
    var k := Scan(p.buf, p.check, Break);
    ScanPrefix(p.buf, p.buf + e, p.check, Break);
    if ParseLine(p).0 == LineOk {
      assert (p.buf + e)[k := NUL][k + 1 := NUL] == p.buf[k := NUL][k + 1 := NUL] + e;
    }
  }

  lemma {:induction false} ScanResume(s: seq<char>, i: nat, stop: Bytes, k: nat)
    requires i <= k <= |s|
    requires forall j :: i <= j < k ==> !stop.Has(s[j])
    ensures Scan(s, i, stop) == Scan(s, k, stop)
    decreases k - i
  {
    if i < k {
      ScanResume(s, i + 1, stop, k);
    }
  }

  lemma {:induction false} StripSchemeAppend(buf: seq<char>, url: nat, scheme: seq<char>, e: seq<char>)
    requires url <= |buf| && Scan(buf, url, Nul) < |buf|
    ensures Scan(buf + e, url, Nul) == Scan(buf, url, Nul)
    ensures StripScheme(buf + e, url, scheme) == StripScheme(buf, url, scheme)
  {
    hide HasPrefixCI, Scan;
    ScanPrefix(buf, buf + e, url, Nul);
    StrPrefix(buf, buf + e, url);
    if HasPrefixCI(Str(buf, url), scheme) {
      assert |scheme| <= |Str(buf, url)| by {
        assert HasPrefixCI(Str(buf, url), scheme);
        PrefixIsShorter(Str(buf, url), scheme);
      }
      ScanStopsBy(buf, url + |scheme|, SlashOrNul, Scan(buf, url, Nul));
      ScanPrefix(buf, buf + e, url + |scheme|, SlashOrNul);
    }
  }

  lemma PrefixIsShorter(s: seq<char>, t: seq<char>)
    requires HasPrefixCI(s, t)
    ensures |t| <= |s|
  {
  }

  lemma {:induction false} FindPathAppend(buf: seq<char>, url: nat, e: seq<char>)
    requires url <= |buf| && Scan(buf, url, Nul) < |buf|
    ensures Scan(buf + e, url, Nul) == Scan(buf, url, Nul)
    ensures FindPath(buf + e, url) == FindPath(buf, url)
  {
    hide Scan, StripScheme;
    StripSchemeAppend(buf, url, "http://", e);
    var u := StripScheme(buf, url, "http://");
    if u != NULL {
      StripSchemeAppend(buf, u, "https://", e);
    }
  }

  lemma {:induction false} WelcomePageAppend(p: Parser, e: seq<char>)
    requires Cut(p) && Cut(Append(p, e))
    ensures WelcomePage(Append(p, e)) == Append(WelcomePage(p), e)
  {
    hide Scan, EqCI, HasPrefixCI;
    StrPrefix(p.buf, p.buf + e, p.url);
    if |Str(p.buf, p.url)| == 1 {
      RewriteFits(p);
      assert Overwrite(p.buf + e, p.url + 1, JUDGE) == Overwrite(p.buf, p.url + 1, JUDGE) + e;
    }
  }

  lemma {:induction false} CutAppend(p: Parser, e: seq<char>)
    requires Cut(p)
    ensures Cut(Append(p, e))
  {
    hide Scan, EqCI, Str;
    ScanPrefix(p.buf, p.buf + e, p.url, Nul);
    ScanStopsBy(p.buf, p.version, Nul, p.check - 1);
    StrPrefix(p.buf, p.buf + e, p.version);
  }

  lemma {:induction false} ParseUrlAppend(p: Parser, e: seq<char>)
    requires Cut(p) && Cut(Append(p, e))
    ensures var (c, q) := ParseUrl(p); ParseUrl(Append(p, e)) == (c, Append(q, e))
  {
    hide Scan, EqCI, FindPath, WelcomePage, Str;
    FindPathAppend(p.buf, p.url, e);
    var (c, v) := FindPath(p.buf, p.url);
    CutMoves(p);
    CutMoves(Append(p, e));
    if c == NoRequest {
      WelcomePageAppend(p.(url := v), e);
      assert Append(p, e).(url := v) == Append(p.(url := v), e);
    }
  }

  lemma {:induction false} SplitVersionAppend(p: Parser, j: nat, e: seq<char>)
    requires 0 < p.url && LineAt(p, p.url)
    requires j == Scan(p.buf, p.url, BlankOrNul) < p.check - 2 && p.buf[j] != NUL
    ensures LineAt(Append(p, e), p.url) && Scan(p.buf + e, p.url, BlankOrNul) == j
    ensures var q := SplitVersion(p, j);
      && SplitVersion(Append(p, e), j) == Append(q, e)
      && Str(q.buf + e, j + 1) == Str(q.buf, j + 1)
  {
    hide Scan, Str;
    ScanPrefix(p.buf, p.buf + e, p.url, BlankOrNul);
    var q := SplitVersion(p, j);
    assert (p.buf + e)[j := NUL] == q.buf + e;
    ScanStopsBy(q.buf, j + 1, Nul, p.check - 1);
    StrPrefix(q.buf, q.buf + e, j + 1);
  }

  lemma {:induction false} ParseVersionAppend(p: Parser, e: seq<char>)
    requires 0 < p.url && LineAt(p, p.url)
    ensures LineAt(Append(p, e), p.url)
    ensures var (c, q) := ParseVersion(p); ParseVersion(Append(p, e)) == (c, Append(q, e))
  {
    hide Scan, EqCI, ParseUrl, Str, SplitVersion;
    ScanStopsBy(p.buf, p.url, BlankOrNul, p.check - 2);
    ScanPrefix(p.buf, p.buf + e, p.url, BlankOrNul);
    var j := Scan(p.buf, p.url, BlankOrNul);
    if p.buf[j] != NUL {
      SplitVersionAppend(p, j, e);
      var q := SplitVersion(p, j);
      if EqCI(Str(q.buf, j + 1), "HTTP/1.1") {
        CutAppend(q, e);
        ParseUrlAppend(q, e);
      }
    }
  }

  /** The method is cut off in the same place. */
  lemma {:induction false} NameAppend(p: Parser, text: nat, e: seq<char>)
    requires LineAt(p, text)
    ensures var i := Scan(p.buf, text, BlankOrNul);
      && i <= p.check - 2 && Scan(p.buf + e, text, BlankOrNul) == i && (p.buf + e)[i] == p.buf[i]
      && (p.buf + e)[text..i] == p.buf[text..i]
      && (p.buf + e)[i := NUL] == p.buf[i := NUL] + e
  {
    hide Scan;
    ScanStopsBy(p.buf, text, BlankOrNul, p.check - 2);
    ScanPrefix(p.buf, p.buf + e, text, BlankOrNul);
  }

  lemma {:induction false} RequestLineAppend(p: Parser, text: nat, e: seq<char>)
    requires LineAt(p, text)
    ensures LineAt(Append(p, e), text)
    ensures var (c, q) := ParseRequestLine(p, text); ParseRequestLine(Append(p, e), text) == (c, Append(q, e))
  {
    hide Scan, EqCI, ParseVersion, Str;
    NameAppend(p, text, e);
    var i := Scan(p.buf, text, BlankOrNul);
    if p.buf[i] != NUL {
      var q := p.(buf := p.buf[i := NUL], url := i + 1);
      ParseVersionAppend(q.(meth := Get), e);
      ParseVersionAppend(q.(meth := Post, cgi := true), e);
    }
  }

  /** The value of a header starts at the first byte behind the name that is not blank. */
  lemma {:induction false} ValueAppend(p: Parser, at: nat, e: seq<char>)
    requires at < p.check <= |p.buf| && p.buf[p.check - 1] == NUL
    ensures var v := Skip(p.buf, at, Blank);
      && v < p.check
      && Skip(p.buf + e, at, Blank) == v
      && Str(p.buf + e, v) == Str(p.buf, v)
  {
    hide Skip, Scan, Str;
    SkipStopsBy(p.buf, at, Blank, p.check - 1);
    SkipPrefix(p.buf, p.buf + e, at, Blank);
    var v := Skip(p.buf, at, Blank);
    ScanStopsBy(p.buf, v, Nul, p.check - 1);
    StrPrefix(p.buf, p.buf + e, v);
  }

  /** A line that has been split off stays the same string. */
  lemma {:induction false} LineText(p: Parser, text: nat, e: seq<char>)
    requires LineAt(p, text)
    ensures text + |Str(p.buf, text)| <= p.check - 2 && Str(p.buf + e, text) == Str(p.buf, text)
  {
    hide Scan;
    ScanStopsBy(p.buf, text, Nul, p.check - 2);
    StrPrefix(p.buf, p.buf + e, text);
  }

  lemma {:induction false} HeaderAppend(p: Parser, text: nat, e: seq<char>)
    requires LineAt(p, text)
    ensures LineAt(Append(p, e), text)
    ensures var (c, q) := ParseHeader(p, text); ParseHeader(Append(p, e), text) == (c, Append(q, e))
  {
    hide Skip, Scan, EqCI, Atol, Classify, ParseHeader, Str;
    LineText(p, text, e);
    ValueAppend(p, text + NameLength(Classify(Str(p.buf, text))), e);
    SameHeader(p, text, e);
  }

  /** A header is parsed alike where its line and its value are the same. */
  lemma {:induction false} SameHeader(p: Parser, text: nat, e: seq<char>)
    requires LineAt(p, text) && LineAt(Append(p, e), text) && Str(p.buf + e, text) == Str(p.buf, text)
    requires
      var at := text + NameLength(Classify(Str(p.buf, text)));
      && at <= |p.buf|
      && Skip(p.buf + e, at, Blank) == Skip(p.buf, at, Blank)
      && Str(p.buf + e, Skip(p.buf, at, Blank)) == Str(p.buf, Skip(p.buf, at, Blank))
    ensures var (c, q) := ParseHeader(p, text); ParseHeader(Append(p, e), text) == (c, Append(q, e))
  {
    hide Skip, Scan, EqCI, Atol, Classify, Str, ToInt32;
  }

  lemma {:induction false} DispatchAppend(p: Parser, text: nat, e: seq<char>)
    requires p.state != Content && LineAt(p, text)
    ensures LineAt(Append(p, e), text)
    ensures var (c, q) := Dispatch(p, text); Dispatch(Append(p, e), text) == (c, Append(q, e))
  {
    hide ParseRequestLine, ParseHeader;
    RequestLineAppend(p, text, e);
    HeaderAppend(p, text, e);
  }

  // ------------------------------------------------------------ what is observed

  /** A C string that ends inside the buffer is not changed by later bytes. */
  lemma {:induction false} TextAppend(buf: seq<char>, ptr: int, limit: nat, e: seq<char>)
    requires limit <= |buf| && Settled(buf, ptr, limit)
    ensures Text(buf + e, ptr) == Text(buf, ptr)
  {
    if ptr != NULL {
      StrPrefix(buf, buf + e, ptr);
    }
  }

  lemma {:induction false} ObserveAppend(p: Parser, e: seq<char>)
    requires WF(p)
    ensures Observe(Append(p, e)) == Observe(p)
  {
    TextAppend(p.buf, p.url, p.start, e);
    TextAppend(p.buf, p.host, p.start, e);
  }

  /** The outcome of a line that ends the request is not changed by later bytes. */
  lemma {:induction false} DispatchObserveAppend(p: Parser, text: nat, e: seq<char>)
    requires WF(p) && p.start == p.check && p.state != Content && LineAt(p, text)
    ensures Observe(Append(Dispatch(p, text).1, e)) == Observe(Dispatch(p, text).1)
  {
    hide ParseRequestLine, ParseHeader, Scan;
    var (c, q) := Dispatch(p, text);
    if p.state == RequestLine {
      ParseRequestLineKeeps(p, text);
      if q.url != NULL {
        SettledByNul(q.buf, q.url, q.check);
      }
      if q.host != NULL {
        SettledByNul(q.buf, q.host, q.check);
      }
      TextAppend(q.buf, q.url, q.check, e);
      TextAppend(q.buf, q.host, q.check, e);
    } else {
      HeaderWF(p, text);
      ObserveAppend(q, e);
    }
  }

  /** A complete body is the same body when more bytes follow it. */
  lemma {:induction false} ContentAppend(p: Parser, text: nat, e: seq<char>)
    requires WF(p) && p.state == Content && text <= p.check
    requires ParseContent(p, text).0 != NoRequest
    ensures SameOutcome(ParseContent(Append(p, e), text), ParseContent(p, text))
  {
    hide Scan, Settled, Text, Str;
    var (c, q) := ParseContent(p, text);
    var (c', q') := ParseContent(Append(p, e), text);
    if c == GetRequest {
      var k := text + p.clen;
      PointerKeepsTerminator(p, k, p.url, e);
      PointerKeepsTerminator(p, k, p.host, e);
      if p.clen >= 0 {
        BodyText(p.buf, text, k, e);
      }
    }
  }

  function Terminate(buf: seq<char>, k: nat): seq<char> {
    if k < |buf| then buf[k := NUL] else buf
  }

  lemma {:induction false} PointerKeepsTerminator(p: Parser, k: nat, ptr: int, e: seq<char>)
    requires p.start <= |p.buf| && Settled(p.buf, ptr, p.start)
    requires k <= |p.buf|
    ensures Text(Terminate(p.buf + e, k), ptr) == Text(Terminate(p.buf, k), ptr)
  {
    if ptr != NULL {
      var b := Terminate(p.buf, k);
      var m := Scan(p.buf, ptr, Nul);
      ScanStopsBy(b, ptr, Nul, m);
      var t := Terminate(p.buf + e, k);
      assert forall i :: 0 <= i < |p.buf| ==> t[i] == b[i];
      var n := Scan(b, ptr, Nul);
      ScanIs(t, ptr, Nul, n);
      assert t[ptr..n] == b[ptr..n];
    }
  }

  lemma {:induction false} BodyText(buf: seq<char>, text: nat, k: nat, e: seq<char>)
    requires text <= k <= |buf|
    ensures Text(Terminate(buf + e, k), text) == Text(Terminate(buf, k), text)
  {
    var b, t := Terminate(buf, k), Terminate(buf + e, k);
    var n := Scan(b, text, Nul);
    assert n <= k by {
      if k < |buf| {
        ScanStopsBy(b, text, Nul, k);
      }
    }
    assert forall i :: 0 <= i < k ==> t[i] == b[i];
    assert k < |t| ==> t[k] == NUL;
    assert n < k ==> b[n] == NUL;
    ScanIs(t, text, Nul, n);
    assert t[text..n] == b[text..n];
  }
}
