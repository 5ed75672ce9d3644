/** What the rest of the server sees of a parsed request. */
module Observation {
  import opened Common
  import opened CString
  import opened RequestParser

  datatype View = View(
    meth: Method, cgi: bool, url: Option<seq<char>>, host: Option<seq<char>>,
    linger: bool, clen: int, body: Option<seq<char>>)

  function Text(buf: seq<char>, ptr: int): Option<seq<char>> {
    if 0 <= ptr <= |buf| then Some(Str(buf, ptr)) else None
  }

  /** What do_request and process_write see.  With a negative content length nothing ends
      m_string, so it is left out there. */
  function Observe(p: Parser): View {
    View(p.meth, p.cgi, Text(p.buf, p.url), Text(p.buf, p.host), p.linger, p.clen,
         if p.clen < 0 then None else Text(p.buf, p.body))
  }

  /** Same code, and the same method, url, host, linger, content length and body. */
  predicate SameOutcome(a: (Code, Parser), b: (Code, Parser)) {
    a.0 == b.0 && (a.0 != Undefined ==> Observe(a.1) == Observe(b.1))
  }
}
