/** What the text of a request means, for every spelling: letters in any case, any mix of spaces and
    tabs where blanks may stand, and every line that is not well formed. */
module Spelling {
  import opened Common
  import opened CString
  import opened RequestParser
  import opened Observation
  import opened Reference

  /** Spaces and tabs */
  predicate Blanks(ws: seq<char>) {
    forall i :: 0 <= i < |ws| ==> ws[i] == ' ' || ws[i] == '\t'
  }

  /** No space, tab or NUL */
  predicate Word(s: seq<char>) {
    forall i :: 0 <= i < |s| ==> s[i] != ' ' && s[i] != '\t' && s[i] != NUL
  }

  // ----------------------------------------------------------- the request line

  lemma {:induction false} WordEnds(w: seq<char>, b: char, rest: seq<char>)
    requires Word(w) && (b == ' ' || b == '\t')
    ensures var t := w + ([b] + rest);
      Scan(t, 0, BlankOrNul) == |w| && t[..|w|] == w && t[|w| + 1..] == rest && |w| < |t|
  {
    var t := w + ([b] + rest);
    assert forall i :: 0 <= i < |w| ==> t[i] == w[i];
    assert t[|w|] == b;
    ScanIs(t, 0, BlankOrNul, |w|);
  }

  lemma {:induction false} OnlyWord(w: seq<char>)
    requires Word(w)
    ensures Scan(w, 0, BlankOrNul) == |w|
  {
    ScanIs(w, 0, BlankOrNul, |w|);
  }

  /** The method, if the word is one that is served */
  function MethodOf(w: seq<char>): Option<Method> {
    if Spells(w, "GET") then Some(Get) else if Spells(w, "POST") then Some(Post) else None
  }

  /** Every request line of three parts: served are GET and POST with HTTP/1.1, in any spelling, with
      one space or tab between the parts. */
  lemma {:induction false} ThreeParts(m: seq<char>, b: char, target: seq<char>, d: char, version: seq<char>)
    requires Word(m) && Word(target) && {b, d} <= {' ', '\t'}
    ensures
      var r := MeaningOfRequestLine(m + ([b] + (target + ([d] + version))));
      if MethodOf(m) == None || !Spells(version, "HTTP/1.1") then r.0 == BadRequest
      else r == (Path(target).0, MethodOf(m).value, Path(target).1)
  {
    hide Path, Scan;
    var rest := target + ([d] + version);
    WordEnds(m, b, rest);
    WordEnds(target, d, version);
    EqCIIff(m, "GET");
    EqCIIff(m, "POST");
    EqCIIff(version, "HTTP/1.1");
  }

  /** A line of two parts or one is no request line. */
  lemma {:induction false} FewParts(m: seq<char>, b: char, target: seq<char>)
    requires Word(m) && Word(target) && (b == ' ' || b == '\t')
    ensures MeaningOfRequestLine(m + ([b] + target)).0 == BadRequest
    ensures MeaningOfRequestLine(m).0 == BadRequest
  {
    hide Path, Scan;
    WordEnds(m, b, target);
    OnlyWord(target);
    OnlyWord(m);
  }

  // --------------------------------------------------------------- the target

  predicate NoSlash(s: seq<char>) {
    forall i :: 0 <= i < |s| ==> s[i] != '/' && s[i] != NUL
  }

  lemma {:induction false} Spelled(t: seq<char>, scheme: seq<char>)
    requires HasPrefixCI(t, scheme)
    ensures |scheme| <= |t| && Spells(t[..|scheme|], scheme)
  {
    PrefixCIIff(t, scheme);
    assert forall i :: 0 <= i < |scheme| ==> t[..|scheme|][i] == t[i];
  }

  lemma {:induction false} SpelledPrefix(s: seq<char>, scheme: seq<char>, rest: seq<char>)
    requires Spells(s, scheme)
    ensures HasPrefixCI(s + rest, scheme)
  {
    PrefixCIIff(s + rest, scheme);
    assert forall i :: 0 <= i < |s| ==> (s + rest)[i] == s[i];
  }

  /** In place of "/" stands the welcome page. */
  function Page(path: seq<char>): seq<char> {
    if path == "/" then "/judge.html" else path
  }

  lemma {:induction false} HostSkipped(s: seq<char>, scheme: seq<char>, host: seq<char>, path: seq<char>)
    requires Spells(s, scheme) && NoSlash(host) && (path == [] || path[0] == '/')
    ensures StripOne(s + host + path, scheme) == if path == [] then None else Some(path)
  {
    hide HasPrefixCI;
    var t := s + host + path;
    assert t == s + (host + path);
    SpelledPrefix(s, scheme, host + path);
    var k := |s| + |host|;
    assert forall i :: |s| <= i < k ==> t[i] == host[i - |s|];
    assert path != [] ==> t[k] == path[0];
    ScanIs(t, |s|, SlashOrNul, k);
    assert t[k..] == path;
  }

  /** Every path in origin form */
  lemma {:induction false} OriginForm(path: seq<char>)
    requires path != [] && path[0] == '/'
    ensures Path(path) == (NoRequest, Page(path))
  {
    DiffersAt(path, "http://", 0);
    DiffersAt(path, "https://", 0);
    assert |path| == 1 ==> path == "/";
  }

  /** Every absolute form, with the scheme in any spelling: its path; without one, undefined behind
      http and refused behind https. */
  lemma {:induction false} AbsoluteForm(s: seq<char>, host: seq<char>, path: seq<char>)
    requires NoSlash(host) && (path == [] || path[0] == '/')
    ensures Spells(s, "http://") ==>
      Path(s + host + path) == if path == [] then (Undefined, []) else (NoRequest, Page(path))
    ensures Spells(s, "https://") ==>
      Path(s + host + path) == if path == [] then (BadRequest, []) else (NoRequest, Page(path))
  {
    hide StripOne, HasPrefixCI;
    var t := s + host + path;
    NothingToStrip(path);
    if Spells(s, "http://") {
      HostSkipped(s, "http://", host, path);
    } else if Spells(s, "https://") {
      HostSkipped(s, "https://", host, path);
      assert t[4] == s[4] && SameLetter(s[4], 's');
      NotHttp(t);
    }
    assert |path| == 1 ==> path == [path[0]];
  }

  lemma {:induction false} NothingToStrip(path: seq<char>)
    requires path == [] || path[0] == '/'
    ensures StripOne(path, "https://") == Some(path) && StripOne(path, "http://") == Some(path)
  {
    DiffersAt(path, "http://", 0);
    DiffersAt(path, "https://", 0);
  }

  lemma {:induction false} NotHttp(t: seq<char>)
    requires |t| > 4 && SameLetter(t[4], 's')
    ensures StripOne(t, "http://") == Some(t)
  {
    PrefixCIIff(t, "http://");
  }

  /** Every other target is refused. */
  lemma {:induction false} OtherForm(t: seq<char>)
    requires t == [] || t[0] != '/'
    requires |t| >= 7 ==> !Spells(t[..7], "http://")
    requires |t| >= 8 ==> !Spells(t[..8], "https://")
    ensures Path(t) == (BadRequest, [])
  {
    hide HasPrefixCI;
    if HasPrefixCI(t, "http://") {
      Spelled(t, "http://");
    }
    if HasPrefixCI(t, "https://") {
      Spelled(t, "https://");
    }
  }

  // ---------------------------------------------------------------- the headers

  lemma {:induction false} ValueBehind(name: seq<char>, ws: seq<char>, value: seq<char>)
    requires Blanks(ws) && (value == [] || (value[0] != ' ' && value[0] != '\t'))
    ensures var t := name + ws + value; Skip(t, |name|, Blank) == |name| + |ws| && t[|name| + |ws|..] == value
  {
    var t := name + ws + value;
    var k := |name| + |ws|;
    assert forall i :: |name| <= i < k ==> t[i] == ws[i - |name|];
    assert value != [] ==> t[k] == value[0];
    SkipIs(t, |name|, Blank, k);
    assert t[k..] == value;
  }

  lemma {:induction false} NotNamed(t: seq<char>, name: seq<char>, other: seq<char>, k: nat)
    requires |name| <= |t| && Spells(t[..|name|], name) && k < |name| && k < |other|
    requires !SameLetter(name[k], other[k]) && !IsUpper(name[k]) && !IsUpper(other[k])
    ensures !HasPrefixCI(t, other)
  {
    PrefixCIIff(t, other);
    assert t[..|name|][k] == t[k];
  }

  predicate IsUpper(c: char) {
    'A' <= c <= 'Z'
  }

  lemma {:induction false} NamedConnection(name: seq<char>, rest: seq<char>)
    requires Spells(name, "Connection:")
    ensures Classify(name + rest) == Connection
  {
    SpelledPrefix(name, "Connection:", rest);
  }

  lemma {:induction false} NamedLength(name: seq<char>, rest: seq<char>)
    requires Spells(name, "Content-Length:")
    ensures Classify(name + rest) == ContentLength
  {
    hide HasPrefixCI;
    var t := name + rest;
    SpelledPrefix(name, "Content-Length:", rest);
    assert t[..15] == name;
    NotNamed(t, "Content-Length:", "Connection:", 3);
  }

  lemma {:induction false} NamedHost(name: seq<char>, rest: seq<char>)
    requires Spells(name, "Host:")
    ensures Classify(name + rest) == Host
  {
    hide HasPrefixCI;
    var t := name + rest;
    SpelledPrefix(name, "Host:", rest);
    assert t[..5] == name;
    NotNamed(t, "Host:", "Connection:", 2);
    NotNamed(t, "Host:", "Content-Length:", 2);
  }

  /** Every header of the three kinds, with the name in any spelling, any blanks, and any value:
      keep-alive in any spelling sets the linger flag and nothing clears it; the length is the number
      that atol reads, as an int; the host is the value. */
  lemma {:induction false} NamedHeader(name: seq<char>, ws: seq<char>, value: seq<char>, v: View)
    requires Blanks(ws) && (value == [] || (value[0] != ' ' && value[0] != '\t'))
    ensures var m := MeaningOfHeader(name + ws + value, v);
      && (Spells(name, "Connection:") ==> m == if Spells(value, "keep-alive") then v.(linger := true) else v)
      && (Spells(name, "Content-Length:") ==> m == v.(clen := ToInt32(Atol(value))))
      && (Spells(name, "Host:") ==> m == v.(host := Some(value)))
  {
    hide Classify, Skip, Atol, EqCI;
    var t := name + ws + value;
    assert t == name + (ws + value);
    ValueBehind(name, ws, value);
    EqCIIff(value, "keep-alive");
    if Spells(name, "Connection:") {
      NamedConnection(name, ws + value);
    } else if Spells(name, "Content-Length:") {
      NamedLength(name, ws + value);
    } else if Spells(name, "Host:") {
      NamedHost(name, ws + value);
    }
  }

  /** A line that starts with none of the three names changes nothing. */
  lemma {:induction false} OtherHeader(t: seq<char>, v: View)
    requires |t| >= 11 ==> !Spells(t[..11], "Connection:")
    requires |t| >= 15 ==> !Spells(t[..15], "Content-Length:")
    requires |t| >= 5 ==> !Spells(t[..5], "Host:")
    ensures MeaningOfHeader(t, v) == v
  {
    hide HasPrefixCI, Skip, Atol, EqCI;
    if HasPrefixCI(t, "Connection:") {
      Spelled(t, "Connection:");
    }
    if HasPrefixCI(t, "Content-Length:") {
      Spelled(t, "Content-Length:");
    }
    if HasPrefixCI(t, "Host:") {
      Spelled(t, "Host:");
    }
  }

  // ------------------------------------------------------------ a whole request

  lemma {:induction false} SpelledPlain(s: seq<char>, t: seq<char>)
    requires Spells(s, t) && NoBreak(t) && NoNul(t)
    ensures NoBreak(s) && NoNul(s) && |s| == |t|
  {
    forall i | 0 <= i < |s| ensures !Break.Has(s[i]) && s[i] != NUL {
      assert SameLetter(s[i], t[i]);
    }
  }

  lemma LiteralsPlain()
    ensures forall t :: t in ["GET", "POST", "HTTP/1.1", "Host:", "Connection:", "Content-Length:", "keep-alive"] ==>
      NoBreak(t) && NoNul(t)
  {
  }

  lemma {:induction false} BlanksPlain(ws: seq<char>)
    requires Blanks(ws)
    ensures NoBreak(ws) && NoNul(ws)
  {
  }

  lemma {:induction false} SpelledWord(s: seq<char>, t: seq<char>)
    requires Spells(s, t) && t in ["GET", "POST"]
    ensures Word(s)
  {
    forall i | 0 <= i < |s| ensures s[i] != ' ' && s[i] != '\t' && s[i] != NUL {
      assert SameLetter(s[i], t[i]);
    }
  }

  /** A header line as it is spelled */
  lemma {:induction false} HeaderLine(name: seq<char>, literal: seq<char>, ws: seq<char>, value: seq<char>,
                                      rest: seq<char>, at: nat, v: View)
    requires literal in ["Host:", "Connection:", "Content-Length:"] && Spells(name, literal) && Blanks(ws)
    requires NoBreak(value) && NoNul(value) && (value == [] || (value[0] != ' ' && value[0] != '\t'))
    ensures var line := name + ws + value;
      MeaningOfHeaders(line + "\r\n" + rest, at, v)
      == MeaningOfHeaders(rest, at + |line| + 2, MeaningOfHeader(line, v))
  {
    hide MeaningOfHeaders, MeaningOfHeader, NoBreak, NoNul, Spells;
    LiteralsPlain();
    SpelledPlain(name, literal);
    BlanksPlain(ws);
    JoinPlain(name, ws);
    JoinPlain(name + ws, value);
    HeaderStep(name + ws + value, rest, at, v, MeaningOfHeader(name + ws + value, v));
  }

  /** A request line, as it is spelled, in front of its headers */
  lemma {:induction false} RequestLineStep(m: seq<char>, b: char, path: seq<char>, d: char, version: seq<char>,
                                           rest: seq<char>)
    requires MethodOf(m).Some? && Spells(version, "HTTP/1.1") && {b, d} <= {' ', '\t'}
    requires Plain(path) && path != [] && path[0] == '/'
    ensures var line := m + ([b] + (path + ([d] + version))); var k := MethodOf(m).value;
      Meaning(line + "\r\n" + rest)
      == MeaningOfHeaders(rest, |line| + 2, View(k, k == Post, Some(Page(path)), None, false, 0, None))
  {
    hide FirstLine, MeaningOfRequestLine, MeaningOfHeaders, Path, Str, NoBreak, NoNul, Spells, Page;
    var word := if Spells(m, "GET") then "GET" else "POST";
    LiteralsPlain();
    SpelledPlain(m, word);
    SpelledWord(m, word);
    SpelledPlain(version, "HTTP/1.1");
    BlanksPlain([b]) by {
      assert [b][0] == b;
    }
    BlanksPlain([d]) by {
      assert [d][0] == d;
    }
    PlainParts(path);
    JoinPlain([d], version);
    JoinPlain(path, [d] + version);
    JoinPlain([b], path + ([d] + version));
    var line := m + ([b] + (path + ([d] + version)));
    JoinPlain(m, [b] + (path + ([d] + version)));
    FirstLineIs(line, rest);
    WholeStr(line);
    ThreeParts(m, b, path, d, version);
    OriginForm(path);
  }

  lemma PlainParts(s: seq<char>)
    requires Plain(s)
    ensures NoBreak(s) && NoNul(s) && Word(s)
  {
  }

  /** The end of the headers, and the body */
  lemma {:induction false} BodyStep(body: seq<char>, at: nat, v: View)
    requires v.clen == |body| > 0 && at + 2 + |body| <= INT_MAX
    ensures MeaningOfHeaders("" + "\r\n" + body, at, v) == Accepted(v.(body := Some(Str(body, 0))))
  {
    hide FirstLine, Str;
    FirstLineIs("", body);
    WholeStr("");
    assert body[..|body|] == body;
  }

  /** A whole request in any spelling: whatever the case of its letters and the blanks between its
      parts, it means its path, host, linger flag, length and body. */
  lemma {:induction false} SpelledRequest(m: seq<char>, b: char, path: seq<char>, d: char, version: seq<char>,
                                          hn: seq<char>, hw: seq<char>, host: seq<char>,
                                          cn: seq<char>, cw: seq<char>, keep: seq<char>,
                                          ln: seq<char>, lw: seq<char>, body: seq<char>)
    requires MethodOf(m).Some? && Spells(version, "HTTP/1.1") && {b, d} <= {' ', '\t'}
    requires Plain(path) && path != [] && path[0] == '/'
    requires Spells(hn, "Host:") && Spells(cn, "Connection:") && Spells(ln, "Content-Length:")
    requires Blanks(hw) && Blanks(cw) && Blanks(lw) && Plain(host) && Spells(keep, "keep-alive")
    requires body != []
    ensures
      var line := m + ([b] + (path + ([d] + version)));
      var h1, h2, h3 := hn + hw + host, cn + cw + keep, ln + lw + FormatInt(|body|);
      var s := line + "\r\n" + (h1 + "\r\n" + (h2 + "\r\n" + (h3 + "\r\n" + ("" + "\r\n" + body))));
      |s| <= INT_MAX ==>
        Meaning(s) == Accepted(View(MethodOf(m).value, MethodOf(m) == Some(Post), Some(Page(path)), Some(host), true,
                                    |body|, Some(Str(body, 0))))
  {
    hide Meaning, MeaningOfHeaders, MeaningOfHeader, FormatInt, Atol, Spells, Page, MethodOf, Str, NoBreak, NoNul;
    var line := m + ([b] + (path + ([d] + version)));
    var h1, h2, h3 := hn + hw + host, cn + cw + keep, ln + lw + FormatInt(|body|);
    var r4 := "" + "\r\n" + body;
    var r3 := h3 + "\r\n" + r4;
    var r2 := h2 + "\r\n" + r3;
    var r1 := h1 + "\r\n" + r2;
    var s := line + "\r\n" + r1;
    if |s| <= INT_MAX {
      var k := MethodOf(m).value;
      var v0 := View(k, k == Post, Some(Page(path)), None, false, 0, None);
      RequestLineStep(m, b, path, d, version, r1);
      PlainParts(host);
      HostStart(host);
      HeaderLine(hn, "Host:", hw, host, r2, |line| + 2, v0);
      NamedHeader(hn, hw, host, v0);
      var v1 := v0.(host := Some(host));
      KeepPlain(keep);
      HeaderLine(cn, "Connection:", cw, keep, r3, |line| + 2 + |h1| + 2, v1);
      NamedHeader(cn, cw, keep, v1);
      var v2 := v1.(linger := true);
      NumberText(|body|);
      HeaderLine(ln, "Content-Length:", lw, FormatInt(|body|), r4, |line| + 2 + |h1| + 2 + |h2| + 2, v2);
      NamedHeader(ln, lw, FormatInt(|body|), v2);
      BodyStep(body, |line| + 2 + |h1| + 2 + |h2| + 2 + |h3| + 2, v2.(clen := |body|));
    }
  }

  lemma HostStart(host: seq<char>)
    requires Plain(host)
    ensures host == [] || (host[0] != ' ' && host[0] != '\t')
  {
  }

  lemma KeepPlain(keep: seq<char>)
    requires Spells(keep, "keep-alive")
    ensures NoBreak(keep) && NoNul(keep) && |keep| == 10 && keep[0] != ' ' && keep[0] != '\t'
  {
    LiteralsPlain();
    SpelledPlain(keep, "keep-alive");
    assert SameLetter(keep[0], 'k');
  }

  lemma {:induction false} NumberText(n: nat)
    requires n <= INT_MAX
    ensures var t := FormatInt(n); t != [] && NoBreak(t) && NoNul(t) && t[0] != ' ' && t[0] != '\t' && Atol(t) == n
  {
    hide FormatInt, Atol;
    AtolFormatInt(n);
  }
}
