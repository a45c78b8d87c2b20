/** Request headers and what redirects strip from them. */
module RedirectHeaders {
  import opened Text

  datatype Header = Header(name: string, value: string)

  const SENSITIVE: set<string> := {"authorization", "cookie", "proxy-authorization"}

  const BODY_HEADERS: set<string> :=
    {"content-encoding", "content-language", "content-length", "content-location", "content-type"}

  function StripSensitive(headers: seq<Header>): seq<Header> {
    if headers == [] then []
    else (if Lower(headers[0].name) in SENSITIVE then [] else [headers[0]]) + StripSensitive(headers[1..])
  }

  function StripBody(headers: seq<Header>): seq<Header> {
    if headers == [] then []
    else (if Lower(headers[0].name) in BODY_HEADERS then [] else [headers[0]]) + StripBody(headers[1..])
  }

  /** Whether a header survives, given what has happened so far. */
  predicate Survives(header: Header, crossed: bool, rewritten: bool) {
    && !(crossed && Lower(header.name) in SENSITIVE)
    && !(rewritten && Lower(header.name) in BODY_HEADERS)
  }

  /** The headers that survive, in their original order. */
  function Kept(headers: seq<Header>, crossed: bool, rewritten: bool): seq<Header> {
    if headers == [] then []
    else (if Survives(headers[0], crossed, rewritten) then [headers[0]] else []) + Kept(headers[1..], crossed, rewritten)
  }

  lemma {:induction false} NothingStripped(headers: seq<Header>)
    ensures Kept(headers, false, false) == headers
  {
    if headers != [] { NothingStripped(headers[1..]); }
  }

  /** Stripping is remembered: stripping again, or in the other order, comes to the same. */
  lemma {:induction false} StrippedIsKept(headers: seq<Header>, crossed: bool, rewritten: bool)
    ensures StripSensitive(Kept(headers, crossed, rewritten)) == Kept(headers, true, rewritten)
    ensures StripBody(Kept(headers, crossed, rewritten)) == Kept(headers, crossed, true)
  {
    if headers != [] {
      var first, kept := headers[0], Kept(headers[1..], crossed, rewritten);
      StrippedIsKept(headers[1..], crossed, rewritten);
      StripFirst(first, kept);
      assert [] + kept == kept && [] + StripSensitive(kept) == StripSensitive(kept) && [] + StripBody(kept) == StripBody(kept);
      assert [] + Kept(headers[1..], true, rewritten) == Kept(headers[1..], true, rewritten);
      assert [] + Kept(headers[1..], crossed, true) == Kept(headers[1..], crossed, true);
    }
  }

  lemma StripFirst(first: Header, rest: seq<Header>)
    ensures StripSensitive([first] + rest) == (if Lower(first.name) in SENSITIVE then [] else [first]) + StripSensitive(rest)
    ensures StripBody([first] + rest) == (if Lower(first.name) in BODY_HEADERS then [] else [first]) + StripBody(rest)
  {
    assert ([first] + rest)[1..] == rest;
  }

  /** After a cross-origin hop the credentials are gone and after a rewrite what describes a body, in any
      spelling; everything else is kept. */
  lemma {:induction false} KeptExactly(headers: seq<Header>, crossed: bool, rewritten: bool)
    ensures forall header :: header in Kept(headers, crossed, rewritten) <==>
              && header in headers
              && (crossed ==> Lower(header.name) !in {"authorization", "cookie", "proxy-authorization"})
              && !(rewritten && Lower(header.name) in
                     {"content-encoding", "content-language", "content-length", "content-location", "content-type"})
  {
    if headers != [] {
      assert headers == [headers[0]] + headers[1..];
      KeptExactly(headers[1..], crossed, rewritten);
    }
  }
}
