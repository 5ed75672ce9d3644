/** The request printer of webbench and the proof that the server understands what it prints. */
module WebBench {
  import opened Common
  import opened CString
  import opened Reference

  const REQUEST_SIZE := 2048
  const MAXHOSTNAMELEN := 64
  const PORT_SIZE := 10

  datatype Verb = MethodGet | MethodHead | MethodOptions | MethodTrace

  /** `Overflow`: the host or the port does not fit its array. */
  datatype Status = Built | Exit2 | Overflow

  /** The options and globals build_request reads and writes; `http10` is 0, 1 or 2 for
      HTTP/0.9, 1.0 and 1.1. */
  datatype Options = Options(verb: Verb, http10: int, forceReload: bool, proxyHost: Option<seq<char>>)

  function Name(v: Verb): seq<char> {
    match v
    case MethodGet => "GET"
    case MethodHead => "HEAD"
    case MethodOptions => "OPTIONS"
    case MethodTrace => "TRACE"
  }

  /** The protocol version is raised where the options need it. */
  function Protocol(o: Options): int {
    var h := if o.forceReload && o.proxyHost.Some? && o.http10 < 1 then 1 else o.http10;
    var h := if o.verb == MethodHead && h < 1 then 1 else h;
    if (o.verb == MethodOptions || o.verb == MethodTrace) && h < 2 then 2 else h
  }

  /** strstr(url, "://"), as a position; the length of the url stands for NULL. */
  function Delimiter(url: seq<char>, i: nat): (k: nat)
    requires i <= |url|
    ensures i <= k <= |url|
    ensures k < |url| ==> k + 3 <= |url| && url[k..k + 3] == "://"
    decreases |url| - i
  {
    if i == |url| then i
    else if i + 3 <= |url| && url[i..i + 3] == "://" then i
    else Delimiter(url, i + 1)
  }

  /** Where the host starts, and the first '/' behind it. */
  function HostStart(url: seq<char>): (i: nat)
    requires Delimiter(url, 0) < |url|
    ensures i <= |url|
  {
    Delimiter(url, 0) + 3
  }

  function PathStart(url: seq<char>): (k: nat)
    requires Delimiter(url, 0) < |url|
    ensures HostStart(url) <= k <= |url|
  {
    Scan(url, HostStart(url), SlashOrNul)
  }

  /** The host ends at the first ':' or '/'. */
  function HostEnd(url: seq<char>): (k: nat)
    requires Delimiter(url, 0) < |url|
    ensures HostStart(url) <= k <= PathStart(url)
  {
    var colon := Scan(url, HostStart(url), ColonOrNul);
    if colon < PathStart(url) then colon else PathStart(url)
  }

  /** Why a url is refused, if it is. */
  function Check(o: Options, url: seq<char>): Status {
    if Delimiter(url, 0) == |url| || |url| > 1500 then Exit2
    else if o.proxyHost == None && !HasPrefixCI(url, "http://") then Exit2
    else if PathStart(url) == |url| then Exit2
    else if o.proxyHost == None && !FitsArrays(url) then Overflow
    else Built
  }

  /** The host and the port leave room for a terminating NUL in their arrays. */
  predicate FitsArrays(url: seq<char>)
    requires Delimiter(url, 0) < |url|
  {
    && HostEnd(url) - HostStart(url) < MAXHOSTNAMELEN
    && (HostEnd(url) < PathStart(url) ==> PathStart(url) - HostEnd(url) - 1 < PORT_SIZE)
  }

  function HostOf(url: seq<char>): seq<char>
    requires Delimiter(url, 0) < |url|
  {
    url[HostStart(url)..HostEnd(url)]
  }

  function PathOf(url: seq<char>): seq<char>
    requires Delimiter(url, 0) < |url|
  {
    url[PathStart(url)..]
  }

  /** The port between the host and the path, if there is one; 0 and what is no number count as 80. */
  function PortOf(url: seq<char>): Option<int>
    requires Delimiter(url, 0) < |url|
  {
    if HostEnd(url) == PathStart(url) then None
    else
      var port := ToInt32(Atol(url[HostEnd(url) + 1..PathStart(url)]));
      Some(if port == 0 then 80 else port)
  }

  /** The port the bench connects to, for an accepted url. */
  function PortAfter(o: Options, url: seq<char>, before: int): int
    requires Delimiter(url, 0) < |url|
  {
    if o.proxyHost == None && PortOf(url).Some? then PortOf(url).value else before
  }

  /** The request target: the path, or the whole url for a proxy. */
  function Target(o: Options, url: seq<char>): seq<char>
    requires Delimiter(url, 0) < |url|
  {
    if o.proxyHost == None then PathOf(url) else url
  }

  function VersionText(h: int): seq<char> {
    if h == 1 then " HTTP/1.0" else if h == 2 then " HTTP/1.1" else ""
  }

  const AGENT: seq<char> := "User-Agent: WebBench 1.5"
  const PRAGMA: seq<char> := "Pragma: no-cache"
  const CLOSE: seq<char> := "Connection: close"

  function Line(on: bool, line: seq<char>): seq<char> {
    if on then line + "\r\n" else []
  }

  /** Who asks, and whom. */
  function Identity(o: Options, host: seq<char>): seq<char> {
    Line(o.http10 > 0, AGENT) + Line(o.proxyHost == None && o.http10 > 0, "Host: " + host)
  }

  function Closing(o: Options): seq<char> {
    Line(o.forceReload && o.proxyHost.Some?, PRAGMA) + Line(o.http10 > 1, CLOSE) + Line(o.http10 > 0, "")
  }

  /** Everything behind the request target, for the raised protocol version. */
  function Tail(o: Options, host: seq<char>): seq<char> {
    VersionText(o.http10) + "\r\n" + Identity(o, host) + Closing(o)
  }

  /** The text of an accepted request. */
  function Request(o: Options, url: seq<char>): seq<char>
    requires Delimiter(url, 0) < |url|
  {
    Name(o.verb) + " " + Target(o, url)
    + Tail(o.(http10 := Protocol(o)), if o.proxyHost == None then HostOf(url) else [])
  }

  /** The request always fits its array, with the terminating NUL. */
  lemma {:induction false} RequestFits(o: Options, url: seq<char>)
    requires Check(o, url) == Built
    ensures |Request(o, url)| < REQUEST_SIZE
  {
    hide Identity, Closing, VersionText, Delimiter, Scan;
    var p := o.(http10 := Protocol(o));
    NameFits(o.verb);
    PartLengths(p, if o.proxyHost == None then HostOf(url) else []);
  }

  lemma CheckCases(o: Options, url: seq<char>)
    ensures Delimiter(url, 0) == |url| || |url| > 1500 ==> Check(o, url) == Exit2
    ensures Delimiter(url, 0) < |url| <= 1500 ==>
      && (o.proxyHost == None && !HasPrefixCI(url, "http://") ==> Check(o, url) == Exit2)
      && (PathStart(url) == |url| ==> Check(o, url) == Exit2)
      && (o.proxyHost.Some? && PathStart(url) < |url| ==> Check(o, url) == Built)
      && (o.proxyHost == None && HasPrefixCI(url, "http://") && PathStart(url) < |url| ==>
            Check(o, url) == if !FitsArrays(url) then Overflow else Built)
  {
  }

  class Bench {
    var options: Options
    var request: seq<char>
    var host: seq<char>
    var proxyPort: int

    constructor (o: Options)
      ensures options == o && request == [] && host == [] && proxyPort == 80
    {
      options, request, host, proxyPort := o, [], [], 80;
    }

    /** strcat(request, s) */
    method Append(s: seq<char>)
      requires |request| + |s| < REQUEST_SIZE
      modifies `request
      ensures request == old(request) + s
    {
      request := request + s;
    }

    /** build_request */
    method BuildRequest(url: seq<char>) returns (r: Status)
      requires NoNul(url)
      modifies this
      ensures r == Check(old(options), url)
      ensures r == Built ==> request == Request(old(options), url)
      ensures r == Built && old(options).proxyHost == None ==> host == HostOf(url)
      ensures options == old(options).(http10 := Protocol(old(options)))
      ensures r == Built ==> proxyPort == PortAfter(old(options), url, old(proxyPort))
    {
      hide PortOf, Tail, Name, Protocol, HasPrefixCI, Delimiter, Scan, Check, HostOf, HostEnd, FitsArrays;
      ghost var o := options;
      CheckCases(o, url);
      host, request := [], [];
      RaiseProtocol();
      NameFits(options.verb);
      Append(Name(options.verb));
      Append(" ");
      var delimiter := Delimiter(url, 0);
      if delimiter == |url| || |url| > 1500 {
        return Exit2;
      }
      if options.proxyHost == None && !HasPrefixCI(url, "http://") {
        return Exit2;
      }
      var i := delimiter + 3;
      var slash := Scan(url, i, SlashOrNul);
      if slash == |url| {
        return Exit2;
      }
      if options.proxyHost == None {
        r := SplitAuthority(url, i, slash);
        if r == Overflow {
          return;
        }
        Append(url[slash..]);
      } else {
        Append(url);
      }
      AppendTail();
      return Built;
    }

    /** The protocol version the options need */
    method RaiseProtocol()
      modifies `options
      ensures options == old(options).(http10 := Protocol(old(options)))
    {
      if options.forceReload && options.proxyHost.Some? && options.http10 < 1 {
        options := options.(http10 := 1);
      }
      if options.verb == MethodHead && options.http10 < 1 {
        options := options.(http10 := 1);
      }
      if options.verb == MethodOptions && options.http10 < 2 {
        options := options.(http10 := 2);
      }
      if options.verb == MethodTrace && options.http10 < 2 {
        options := options.(http10 := 2);
      }
    }

    /** Host and port between the scheme and the path */
    method SplitAuthority(url: seq<char>, i: nat, slash: nat) returns (r: Status)
      requires NoNul(url) && Delimiter(url, 0) < |url| && i == HostStart(url) && slash == PathStart(url)
      modifies `host, `proxyPort
      ensures r in {Built, Overflow}
      ensures r == Overflow <==> !FitsArrays(url)
      ensures r == Built ==> |host| < MAXHOSTNAMELEN
      ensures r == Built ==> host == HostOf(url)
      ensures r == Built ==> proxyPort == if PortOf(url).Some? then PortOf(url).value else old(proxyPort)
    {
      var colon := Scan(url, i, ColonOrNul);
      if colon < |url| && colon < slash {
        if colon - i >= MAXHOSTNAMELEN || slash - colon - 1 >= PORT_SIZE {
          return Overflow;
        }
        host := url[i..colon];
        proxyPort := ToInt32(Atol(url[colon + 1..slash]));
        if proxyPort == 0 {
          proxyPort := 80;
        }
      } else {
        if slash - i >= MAXHOSTNAMELEN {
          return Overflow;
        }
        host := url[i..slash];
      }
      return Built;
    }

    /** Everything behind the request target */
    method AppendTail()
      requires |request| + |host| + 120 < REQUEST_SIZE
      modifies `request
      ensures request == old(request) + Tail(options, if options.proxyHost == None then host else [])
    {
      hide Identity, Closing, VersionText;
      ghost var before, h := request, if options.proxyHost == None then host else [];
      PartLengths(options, h);
      Append(VersionText(options.http10));
      Append("\r\n");
      AppendIdentity();
      AppendClosing();
      assert request == before + Tail(options, h);
    }

    method AppendIdentity()
      requires |request| + |host| + 36 < REQUEST_SIZE
      modifies `request
      ensures request == old(request) + Identity(options, if options.proxyHost == None then host else [])
    {
      AppendLine(options.http10 > 0, AGENT);
      AppendLine(options.proxyHost == None && options.http10 > 0, "Host: " + host);
    }

    method AppendClosing()
      requires |request| + 41 < REQUEST_SIZE
      modifies `request
      ensures request == old(request) + Closing(options)
    {
      hide Line;
      LineLengths();
      AppendLine(options.forceReload && options.proxyHost.Some?, PRAGMA);
      AppendLine(options.http10 > 1, CLOSE);
      AppendLine(options.http10 > 0, "");
    }

    method AppendLine(on: bool, line: seq<char>)
      requires |request| + |line| + 2 < REQUEST_SIZE
      modifies `request
      ensures request == old(request) + Line(on, line)
    {
      if on {
        Append(line);
        Append("\r\n");
      }
    }
  }

  lemma NameFits(v: Verb)
    ensures |Name(v)| <= 7
  {
  }

  lemma LineLengths()
    ensures forall on, line :: |Line(on, line)| <= |line| + 2
  {
  }

  lemma PartLengths(o: Options, host: seq<char>)
    ensures |VersionText(o.http10)| <= 9 && |Identity(o, host)| <= 34 + |host| && |Closing(o)| <= 39
  {
    hide Line;
    LineLengths();
  }

  // --------------------------------------------------------------- on the text of a url

  /** No ':', '/' or NUL */
  predicate HostName(s: seq<char>) {
    forall i :: 0 <= i < |s| ==> s[i] != ':' && s[i] != '/' && s[i] != NUL
  }

  /** A scheme with its "://" */
  predicate Scheme(s: seq<char>) {
    |s| >= 3 && s[|s| - 3..] == "://" && forall i :: 0 <= i < |s| - 3 ==> s[i] != ':'
  }

  lemma {:induction false} SpelledScheme(s: seq<char>, scheme: seq<char>)
    requires scheme in ["http://", "https://"] && Spells(s, scheme)
    ensures Scheme(s)
  {
    var n := |s| - 3;
    forall i | 0 <= i < n ensures s[i] != ':' {
      assert SameLetter(s[i], scheme[i]) && 'a' <= scheme[i] <= 'z';
    }
    assert SameLetter(s[n], scheme[n]) && SameLetter(s[n + 1], scheme[n + 1]) && SameLetter(s[n + 2], scheme[n + 2]);
  }

  /** The scheme and what follows it are found at the first "://". */
  lemma {:induction false} SchemeIs(s: seq<char>, rest: seq<char>)
    requires Scheme(s)
    ensures Delimiter(s + rest, 0) == |s| - 3 && |s| - 3 < |s + rest|
    ensures HasPrefixCI(s + rest, "http://") <==> Spells(s, "http://")
  {
    var n := |s| - 3;
    var url := s + rest;
    assert forall i :: 0 <= i < |s| ==> url[i] == s[i];
    assert url[n..n + 3] == s[n..] == "://";
    FirstDelimiter(url, 0, n);
    PrefixCIIff(url, "http://");
    assert s[n] == s[n..][0] == ':';
    if HasPrefixCI(url, "http://") {
      assert SameLetter(url[4], ':');
    }
  }

  predicate DelimiterAt(url: seq<char>, j: nat) {
    j + 3 <= |url| && url[j..j + 3] == "://"
  }

  /** Without "://" there is no delimiter. */
  lemma {:induction false} NoDelimiter(url: seq<char>, i: nat)
    requires i <= |url| && forall j :: i <= j ==> !DelimiterAt(url, j)
    ensures Delimiter(url, i) == |url|
    decreases |url| - i
  {
    if i < |url| {
      assert !DelimiterAt(url, i);
      NoDelimiter(url, i + 1);
    }
  }

  lemma {:induction false} FirstDelimiter(url: seq<char>, i: nat, k: nat)
    requires i <= k && k + 3 <= |url| && url[k..k + 3] == "://"
    requires forall j :: i <= j < k ==> url[j] != ':'
    ensures Delimiter(url, i) == k
    decreases k - i
  {
    if i < k {
      if i + 3 <= |url| {
        assert url[i..i + 3][0] == url[i];
      }
      FirstDelimiter(url, i + 1, k);
    }
  }

  /** Where the first '/' and the first ':' are, behind a host that ends at a and a port that ends at b. */
  lemma {:induction false} HostAndPort(url: seq<char>, i: nat, a: nat, b: nat)
    requires i <= a <= b < |url| && url[b] == '/' && (a < b ==> url[a] == ':')
    requires forall j :: i <= j < a ==> url[j] != ':' && url[j] != '/' && url[j] != NUL
    requires forall j :: a <= j < b ==> url[j] != '/' && url[j] != NUL
    ensures Scan(url, i, SlashOrNul) == b
    ensures a < b ==> Scan(url, i, ColonOrNul) == a
    ensures a == b ==> b < Scan(url, i, ColonOrNul)
  {
    hide Scan;
    ScanIs(url, i, SlashOrNul, b);
    if a < b {
      ScanIs(url, i, ColonOrNul, a);
    } else {
      ColonBehind(url, i, b);
    }
  }

  /** The bytes of four parts, one behind the other */
  lemma {:induction false} FourParts(s: seq<char>, host: seq<char>, port: seq<char>, path: seq<char>)
    ensures var url := s + (host + (port + path)); var i := |s|; var a := i + |host|; var b := a + |port|;
      && url[i..a] == host && url[a..b] == port && url[b..] == path && url[..i] == s
      && (forall j :: i <= j < a ==> url[j] == host[j - i])
      && (forall j :: a <= j < b ==> url[j] == port[j - a])
      && (port != [] ==> url[a] == port[0]) && (path != [] ==> url[b] == path[0])
  {
  }

  predicate PortPart(port: seq<char>) {
    port == [] || (port[0] == ':' && forall i :: 0 <= i < |port| ==> port[i] != '/' && port[i] != NUL)
  }

  /** Where host, port and path are: behind a host that is followed by ':' and a port, or by the path. */
  lemma {:induction false} PartsOf(s: seq<char>, host: seq<char>, port: seq<char>, path: seq<char>)
    requires Scheme(s)
    requires HostName(host) && path != [] && path[0] == '/' && PortPart(port)
    ensures var url := s + (host + (port + path));
      && Delimiter(url, 0) == |s| - 3 && HostStart(url) == |s| && HostEnd(url) == |s| + |host|
      && PathStart(url) == |s| + |host| + |port| < |url|
      && HostOf(url) == host && PathOf(url) == path && url[HostEnd(url)..PathStart(url)] == port
  {
    hide Scan, Delimiter, HostStart, PathStart, HostEnd, HostOf, PathOf;
    var url := s + (host + (port + path));
    var i, a, b := |s|, |s| + |host|, |s| + |host| + |port|;
    SchemeIs(s, host + (port + path));
    FourParts(s, host, port, path);
    HostBytes(url, host, port, i, a, b);
    HostAndPort(url, i, a, b);
    Places(url, i, a, b);
  }

  lemma HostBytes(url: seq<char>, host: seq<char>, port: seq<char>, i: nat, a: nat, b: nat)
    requires HostName(host) && PortPart(port) && i + |host| == a && a + |port| == b <= |url|
    requires forall j :: i <= j < a ==> url[j] == host[j - i]
    requires forall j :: a <= j < b ==> url[j] == port[j - a]
    ensures forall j :: i <= j < a ==> url[j] != ':' && url[j] != '/' && url[j] != NUL
    ensures forall j :: a <= j < b ==> url[j] != '/' && url[j] != NUL
    ensures a < b ==> url[a] == ':'
  {
  }

  lemma Places(url: seq<char>, i: nat, a: nat, b: nat)
    requires Delimiter(url, 0) < |url| && Delimiter(url, 0) + 3 == i <= a <= b < |url|
    requires Scan(url, i, SlashOrNul) == b
    requires if a < b then Scan(url, i, ColonOrNul) == a else b < Scan(url, i, ColonOrNul)
    ensures HostStart(url) == i && PathStart(url) == b && HostEnd(url) == a
    ensures HostOf(url) == url[i..a] && PathOf(url) == url[b..]
  {
    hide Scan, Delimiter;
  }

  lemma {:induction false} ColonBehind(url: seq<char>, i: nat, b: nat)
    requires i <= b < |url| && url[b] == '/' && forall j :: i <= j < b ==> url[j] != ':' && url[j] != NUL
    ensures b < Scan(url, i, ColonOrNul)
  {
  }

  /** Which urls are accepted, on their text: not longer than 1500 bytes, http unless there is a proxy, a
      host of at most 63 bytes and a port of at most 9. */
  lemma {:induction false} AcceptedIff(o: Options, s: seq<char>, host: seq<char>, port: seq<char>, path: seq<char>)
    requires Scheme(s)
    requires HostName(host) && path != [] && path[0] == '/' && PortPart(port)
    ensures var url := s + (host + (port + path));
      Check(o, url) ==
        if |url| > 1500 then Exit2
        else if o.proxyHost == None && !Spells(s, "http://") then Exit2
        else if o.proxyHost == None && (|host| > 63 || |port| > 10) then Overflow
        else Built
  {
    hide Scan, Delimiter, Spells, HasPrefixCI;
    PartsOf(s, host, port, path);
    SchemeIs(s, host + (port + path));
  }

  /** A url without "://" is refused. */
  lemma {:induction false} NoSchemeRefused(o: Options, url: seq<char>)
    requires forall j :: 0 <= j ==> !DelimiterAt(url, j)
    ensures Check(o, url) == Exit2
  {
    NoDelimiter(url, 0);
  }

  /** So is one without a '/' behind the host. */
  lemma {:induction false} RefusedText(o: Options, s: seq<char>, host: seq<char>)
    requires Scheme(s)
    requires forall i :: 0 <= i < |host| ==> host[i] != '/' && host[i] != NUL
    ensures Check(o, s + host) == Exit2
  {
    hide Delimiter, Spells, HasPrefixCI;
    var url := s + host;
    SchemeIs(s, host);
    assert forall i :: |s| <= i < |url| ==> url[i] == host[i - |s|];
    ScanIs(url, |s|, SlashOrNul, |url|);
  }

  lemma {:induction false} PortDigits(n: nat)
    ensures var port := ":" + Decimal(n);
      PortPart(port) && port[1..] == Decimal(n)
  {
    var port := ":" + Decimal(n);
    DecimalRoundTrip(n);
    forall i | 0 <= i < |port| ensures port[i] != '/' && port[i] != NUL {
      if i > 0 {
        assert port[i] == Decimal(n)[i - 1] && IsDigit(port[i]);
      }
    }
  }

  /** The port on the text of a url: the number behind the ':', and 80 for 0 ... */
  lemma {:induction false} PortText(o: Options, s: seq<char>, host: seq<char>, n: nat, path: seq<char>, before: int)
    requires Spells(s, "http://") && HostName(host) && path != [] && path[0] == '/' && o.proxyHost == None
    requires n <= INT_MAX
    ensures var url := s + (host + (":" + Decimal(n) + path));
      Delimiter(url, 0) < |url| && PortAfter(o, url, before) == if n == 0 then 80 else n
  {
    hide Scan, Delimiter, Spells, Atol, Decimal, HostOf, PathOf, HostName, HostEnd, PathStart, ToInt32;
    var port := ":" + Decimal(n);
    PortDigits(n);
    SpelledScheme(s, "http://");
    PartsOf(s, host, port, path);
    var url := s + (host + (port + path));
    SliceTail(url, HostEnd(url), PathStart(url));
    AtolFormatInt(n);
    SmallInt(n);
  }

  lemma SliceTail(s: seq<char>, i: nat, j: nat)
    requires i < j <= |s|
    ensures s[i + 1..j] == s[i..j][1..]
  {
  }

  lemma SmallInt(n: nat)
    requires n <= INT_MAX
    ensures ToInt32(n) == n && FormatInt(n) == Decimal(n)
  {
  }

  /** ... and it stays as it was without one, and with a proxy. */
  lemma {:induction false} NoPortText(o: Options, s: seq<char>, host: seq<char>, path: seq<char>, before: int)
    requires Scheme(s) && HostName(host) && path != [] && path[0] == '/'
    ensures var url := s + (host + ([] + path)); Delimiter(url, 0) < |url| && PortAfter(o, url, before) == before
  {
    hide Scan, Delimiter, Spells, Atol, Decimal;
    PartsOf(s, host, [], path);
  }

  lemma {:induction false} JoinedConcat(a: seq<seq<char>>, b: seq<seq<char>>)
    ensures Flatten(a + b) == Flatten(a) + Flatten(b)
    decreases |a|
  {
    if a == [] {
      assert a + b == b;
    } else {
      assert (a + b)[1..] == a[1..] + b;
      JoinedConcat(a[1..], b);
    }
  }

  lemma JoinedOne(x: seq<char>)
    ensures Flatten([x]) == x
  {
    assert [x][1..] == [];
  }

  lemma {:induction false} JoinedTwo(x: seq<char>, y: seq<char>)
    ensures Flatten([x, y]) == x + y
  {
    assert [x, y][1..] == [y];
    JoinedOne(y);
  }

  function LineParts(on: bool, line: seq<char>): seq<seq<char>> {
    if on then [line, "\r\n"] else []
  }

  lemma {:induction false} LineJoined(on: bool, line: seq<char>)
    ensures Line(on, line) == Flatten(LineParts(on, line))
  {
    JoinedTwo(line, "\r\n");
  }

  /** The lines behind the request line: the agent from HTTP/1.0 on, the host unless there is a proxy, the
      reload for a proxy, the closing of an HTTP/1.1 connection, and from HTTP/1.0 on a blank line. */
  function HeaderParts(h: int, proxy: bool, reload: bool, host: seq<char>): seq<seq<char>> {
    LineParts(h >= 1, "User-Agent: WebBench 1.5") + LineParts(!proxy && h >= 1, "Host: " + host)
    + (LineParts(reload && proxy, "Pragma: no-cache") + LineParts(h >= 2, "Connection: close") + LineParts(h >= 1, ""))
  }

  lemma {:induction false} IdentityJoined(o: Options, host: seq<char>)
    ensures Identity(o, host)
         == Flatten(LineParts(o.http10 >= 1, "User-Agent: WebBench 1.5")
                   + LineParts(o.proxyHost == None && o.http10 >= 1, "Host: " + host))
  {
    hide Line, LineParts;
    LineJoined(o.http10 > 0, AGENT);
    LineJoined(o.proxyHost == None && o.http10 > 0, "Host: " + host);
    JoinedConcat(LineParts(o.http10 >= 1, AGENT), LineParts(o.proxyHost == None && o.http10 >= 1, "Host: " + host));
  }

  lemma {:induction false} ClosingJoined(o: Options)
    ensures Closing(o)
         == Flatten(LineParts(o.forceReload && o.proxyHost.Some?, "Pragma: no-cache")
                   + LineParts(o.http10 >= 2, "Connection: close") + LineParts(o.http10 >= 1, ""))
  {
    hide Line, LineParts;
    var a := LineParts(o.forceReload && o.proxyHost.Some?, PRAGMA);
    var b, c := LineParts(o.http10 >= 2, CLOSE), LineParts(o.http10 >= 1, "");
    LineJoined(o.forceReload && o.proxyHost.Some?, PRAGMA);
    LineJoined(o.http10 > 1, CLOSE);
    LineJoined(o.http10 > 0, "");
    JoinedConcat(a, b);
    JoinedConcat(a + b, c);
  }

  /** Every printed request: method, target, version as the protocol says, and the lines it calls for. */
  lemma {:induction false} RequestText(o: Options, url: seq<char>)
    requires Delimiter(url, 0) < |url| && 0 <= Protocol(o) <= 2
    ensures
      var h, proxy := Protocol(o), o.proxyHost.Some?;
      var version := if h == 0 then "" else if h == 1 then " HTTP/1.0" else " HTTP/1.1";
      Request(o, url) == Flatten([Name(o.verb), " ", if proxy then url else PathOf(url), version, "\r\n"]
                                + HeaderParts(h, proxy, o.forceReload, if proxy then [] else HostOf(url)))
  {
    hide Name, PathOf, HostOf, Protocol, Delimiter, Identity, Closing, LineParts, Flatten;
    var p := o.(http10 := Protocol(o));
    var host := if o.proxyHost == None then HostOf(url) else [];
    IdentityJoined(p, host);
    ClosingJoined(p);
    var a := LineParts(p.http10 >= 1, "User-Agent: WebBench 1.5")
           + LineParts(p.proxyHost == None && p.http10 >= 1, "Host: " + host);
    var b := LineParts(p.forceReload && p.proxyHost.Some?, "Pragma: no-cache")
           + LineParts(p.http10 >= 2, "Connection: close") + LineParts(p.http10 >= 1, "");
    JoinedConcat(a, b);
    var version := VersionText(p.http10);
    FiveParts(Name(o.verb), " ", Target(o, url), version, "\r\n");
    JoinedConcat([Name(o.verb), " ", Target(o, url), version, "\r\n"], a + b);
    assert a + b == HeaderParts(p.http10, o.proxyHost.Some?, o.forceReload, host);
    Regroup(Name(o.verb) + " " + Target(o, url), version + "\r\n", Identity(p, host), Closing(p));
  }

  lemma Regroup(a: seq<char>, b: seq<char>, c: seq<char>, d: seq<char>)
    ensures a + (b + c + d) == (a + b) + (c + d)
  {
  }

  lemma {:induction false} FiveParts(a: seq<char>, b: seq<char>, c: seq<char>, d: seq<char>, e: seq<char>)
    ensures Flatten([a, b, c, d, e]) == a + b + c + (d + e)
  {
    assert [a, b, c, d, e] == [a, b] + ([c] + [d, e]);
    JoinedConcat([a, b], [c] + [d, e]);
    JoinedConcat([c], [d, e]);
    JoinedTwo(a, b);
    JoinedTwo(d, e);
    JoinedOne(c);
  }

  /** Which version a request gets: what was asked for, but at least 1.0 for HEAD and for a reload through
      a proxy, and 1.1 for OPTIONS and TRACE. */
  lemma ProtocolIs(o: Options)
    requires 0 <= o.http10 <= 2
    ensures o.http10 <= Protocol(o) <= 2
    ensures o.verb == MethodGet && !(o.forceReload && o.proxyHost.Some?) ==> Protocol(o) == o.http10
    ensures o.verb == MethodGet && o.forceReload && o.proxyHost.Some? && o.http10 == 0 ==> Protocol(o) == 1
    ensures o.verb == MethodHead && o.http10 == 0 ==> Protocol(o) == 1
    ensures o.verb in {MethodGet, MethodHead} && o.http10 > 0 ==> Protocol(o) == o.http10
    ensures o.verb in {MethodOptions, MethodTrace} ==> Protocol(o) == 2
    ensures Name(MethodGet) == "GET" && Name(MethodHead) == "HEAD"
    ensures Name(MethodOptions) == "OPTIONS" && Name(MethodTrace) == "TRACE"
  {
  }
}
