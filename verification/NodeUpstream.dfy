/** The redirect loop of the Node adapter. The network, the resolver and the policy are functions of what
    they are asked and of the hop. */
module NodeUpstream {
  import opened Options
  import opened RedirectHeaders
  import opened Text

  datatype Url = Url(origin: string, hostname: string, rest: string)

  type Address = string

  datatype Response = Response(status: int, location: Option<string>)

  datatype RedirectMode = Follow | Manual | Disallowed

  datatype Input = Input(
    target: Url, verb: string, headers: seq<Header>, bodySize: nat, initialAddress: Address, mode: RedirectMode)

  /** A request as it goes out: `body` says whether the spooled body is streamed with it. */
  datatype Sent = Sent(url: Url, verb: string, headers: seq<Header>, body: bool, address: Address)

  datatype World = World(
    respond: (nat, Sent) -> Option<Response>,
    resolveUrl: (string, Url) -> Option<Url>,
    lookup: (nat, string) -> Option<seq<Address>>,
    approve: (Url, seq<Header>, nat, Address, string) -> bool)

  datatype Failure = NetworkFailure | RedirectDisallowed | LimitExceeded | InvalidLocation | PolicyDenied

  datatype Outcome = Returned(response: Response, redirects: nat, url: Url) | Failed(why: Failure)

  const MAX_REDIRECTS := 20

  predicate RedirectStatus(status: int) { status in {301, 302, 303, 307, 308} }

  predicate IsRedirect(response: Response) {
    RedirectStatus(response.status) && response.location.Some? && response.location.value != ""
  }

  /** A followed redirect. */
  datatype Hop = Hop(status: int, next: Url)

  predicate Rewrites(status: int, verb: string) {
    status == 303 || ((status == 301 || status == 302) && Upper(verb) == "POST")
  }

  // ----- what the next request is, one hop at a time

  function FirstRequest(input: Input): Sent {
    Sent(input.target, input.verb, input.headers, input.bodySize > 0, input.initialAddress)
  }

  function AfterHop(sent: Sent, hop: Hop, address: Address): Sent {
    var stripped := if hop.next.origin != sent.url.origin then StripSensitive(sent.headers) else sent.headers;
    if Rewrites(hop.status, sent.verb) then Sent(hop.next, "GET", StripBody(stripped), false, address)
    else Sent(hop.next, sent.verb, stripped, sent.body, address)
  }

  /** The first address of a host that policy approves together with the rest of the request. */
  function FirstApproved(
    world: World, url: Url, headers: seq<Header>, hops: nat, verb: string, addresses: seq<Address>): Option<Address>
  {
    if addresses == [] then None
    else if world.approve(url, headers, hops, addresses[0], verb) then Some(addresses[0])
    else FirstApproved(world, url, headers, hops, verb, addresses[1..])
  }

  method ResolveApprovedTarget(world: World, url: Url, headers: seq<Header>, hops: nat, verb: string)
    returns (address: Option<Address>)
    ensures address == match world.lookup(hops, url.hostname)
                       case None => None
                       case Some(addresses) => FirstApproved(world, url, headers, hops, verb, addresses)
  {
    var found := world.lookup(hops, url.hostname);
    if found.None? {
      return None;
    }
    var addresses := found.value;
    var index := 0;
    while index < |addresses|
      invariant 0 <= index <= |addresses|
      invariant FirstApproved(world, url, headers, hops, verb, addresses)
             == FirstApproved(world, url, headers, hops, verb, addresses[index..])
    {
      if world.approve(url, headers, hops, addresses[index], verb) {
        return Some(addresses[index]);
      }
      index := index + 1;
    }
    address := None;
  }

  /** Each request is the one before it taken over one followed redirect, to an address that policy approved
      with exactly this URL, these headers, this method and this hop count. */
  predicate Follows(input: Input, world: World, sent: seq<Sent>, hops: seq<Hop>) {
    && |sent| == |hops| + 1 && sent[0] == FirstRequest(input)
    && forall i | 0 <= i < |hops| :: FollowsAt(input, world, sent, hops, i)
  }

  predicate FollowsAt(input: Input, world: World, sent: seq<Sent>, hops: seq<Hop>, i: int)
    requires |sent| == |hops| + 1 && 0 <= i < |hops|
  {
    var response, next := world.respond(i, sent[i]), sent[i + 1];
    && input.mode.Follow?
    && response.Some? && IsRedirect(response.value) && response.value.status == hops[i].status
    && world.resolveUrl(response.value.location.value, sent[i].url) == Some(hops[i].next)
    && next == AfterHop(sent[i], hops[i], next.address)
    && var found := world.lookup(i + 1, next.url.hostname);
       && found.Some?
       && FirstApproved(world, next.url, next.headers, i + 1, next.verb, found.value) == Some(next.address)
  }

  lemma FollowsFurther(input: Input, world: World, sent: seq<Sent>, hops: seq<Hop>, request: Sent, hop: Hop)
    requires Follows(input, world, sent, hops) && FollowsAt(input, world, sent + [request], hops + [hop], |hops|)
    ensures Follows(input, world, sent + [request], hops + [hop])
  {
    hide Rewrites, IsRedirect, FirstApproved, AfterHop;
    var longer, more := sent + [request], hops + [hop];
    forall i | 0 <= i < |more| ensures FollowsAt(input, world, longer, more, i) {
      if i < |hops| { assert FollowsAt(input, world, sent, hops, i); }
    }
  }

  /** How the loop ends after its last request. */
  predicate EndsWith(input: Input, world: World, sent: seq<Sent>, outcome: Outcome)
    requires sent != []
  {
    var n := |sent| - 1;
    var last := sent[n];
    match world.respond(n, last)
    case None => outcome == Failed(NetworkFailure)
    case Some(response) =>
      if !IsRedirect(response) || input.mode.Manual? then outcome == Returned(response, n, last.url)
      else if input.mode.Disallowed? then outcome == Failed(RedirectDisallowed)
      else if n == MAX_REDIRECTS then outcome == Failed(LimitExceeded)
      else
        match world.resolveUrl(response.location.value, last.url)
        case None => outcome == Failed(InvalidLocation)
        case Some(next) =>
          var request := AfterHop(last, Hop(response.status, next), "");
          && outcome == Failed(PolicyDenied)
          && match world.lookup(n + 1, next.hostname)
             case None => true
             case Some(addresses) =>
               FirstApproved(world, request.url, request.headers, n + 1, request.verb, addresses).None?
  }

  /** Each request goes to the target of the input or to the place the answer before it named. */
  predicate Travels(input: Input, world: World, sent: seq<Sent>) {
    && sent != [] && sent[0].url == input.target
    && forall i | 0 < i < |sent| :: LedTo(world, sent[i - 1], i - 1, sent[i].url)
  }

  predicate LedTo(world: World, sent: Sent, n: nat, url: Url) {
    var response := world.respond(n, sent);
    && response.Some? && response.value.location.Some? && response.value.status in {301, 302, 303, 307, 308}
    && world.resolveUrl(response.value.location.value, sent.url) == Some(url)
  }

  lemma RequestsTravel(input: Input, world: World, sent: seq<Sent>, hops: seq<Hop>)
    requires Follows(input, world, sent, hops)
    ensures Travels(input, world, sent) && forall i | 0 <= i < |hops| :: sent[i + 1].url == hops[i].next
  {
    hide FirstApproved;
    forall i | 0 <= i < |hops| ensures LedTo(world, sent[i], i, sent[i + 1].url) && sent[i + 1].url == hops[i].next {
      assert FollowsAt(input, world, sent, hops, i);
    }
    forall i | 0 < i < |sent| ensures LedTo(world, sent[i - 1], i - 1, sent[i].url) {
      assert LedTo(world, sent[i - 1], i - 1, sent[i - 1 + 1].url);
    }
  }

  /** Follows redirects, twenty at most. */
  method ExecuteUpstream(input: Input, world: World) returns (outcome: Outcome, sent: seq<Sent>, hops: seq<Hop>)
    ensures Follows(input, world, sent, hops) && |sent| <= 21
    ensures EndsWith(input, world, sent, outcome)
  {
    var current, verb, headers := input.target, input.verb, input.headers;
    var redirects: nat := 0;
    var sendBody, resolution := input.bodySize > 0, input.initialAddress;
    var before: seq<Sent> := [];
    hops := [];
    while true
      invariant redirects == |hops| == |before| <= MAX_REDIRECTS
      invariant Follows(input, world, before + [Sent(current, verb, headers, sendBody, resolution)], hops)
      decreases MAX_REDIRECTS - redirects
    {
      var request := Sent(current, verb, headers, sendBody, resolution);
      sent := before + [request];
      var result := world.respond(redirects, request);
      if result.None? {
        return Failed(NetworkFailure), sent, hops;
      }
      var response := result.value;
      if !IsRedirect(response) || input.mode.Manual? {
        return Returned(response, redirects, current), sent, hops;
      }
      if input.mode.Disallowed? {
        return Failed(RedirectDisallowed), sent, hops;
      }
      redirects := redirects + 1;
      if redirects > MAX_REDIRECTS {
        return Failed(LimitExceeded), sent, hops;
      }
      var location := world.resolveUrl(response.location.value, current);
      if location.None? {
        return Failed(InvalidLocation), sent, hops;
      }
      var next := location.value;
      if next.origin != current.origin {
        headers := StripSensitive(headers);
      }
      if response.status == 303 || ((response.status == 301 || response.status == 302) && Upper(verb) == "POST") {
        verb := "GET";
        headers := StripBody(headers);
        sendBody := false;
      }
      var approved := ResolveApprovedTarget(world, next, headers, redirects, verb);
      if approved.None? {
        return Failed(PolicyDenied), sent, hops;
      }
      resolution := approved.value;
      FollowsFurther(input, world, sent, hops, Sent(next, verb, headers, sendBody, resolution), Hop(response.status, next));
      before, hops, current := sent, hops + [Hop(response.status, next)], next;
    }
  }

  // ----- whole runs

  /** Whether the first hops have left an origin, and whether they have rewritten the request to a GET. */
  ghost predicate Crossed(input: Input, hops: seq<Hop>) {
    exists i :: 0 <= i < |hops| && CrossesAt(input, hops, i)
  }

  predicate CrossesAt(input: Input, hops: seq<Hop>, i: int)
    requires 0 <= i < |hops|
  {
    hops[i].next.origin != TargetAt(input, hops, i).origin
  }

  function TargetAt(input: Input, hops: seq<Hop>, i: int): Url
    requires 0 <= i <= |hops|
  {
    if i == 0 then input.target else hops[i - 1].next
  }

  ghost predicate Rewritten(input: Input, hops: seq<Hop>) {
    exists i :: 0 <= i < |hops| && RewritesAt(input, hops, i)
  }

  predicate RewritesAt(input: Input, hops: seq<Hop>, i: int)
    requires 0 <= i < |hops|
  {
    hops[i].status == 303 || (Upper(input.verb) == "POST" && 301 <= hops[i].status <= 302)
  }

  lemma CrossedByThen(input: Input, hops: seq<Hop>, n: nat)
    requires n < |hops|
    ensures Crossed(input, hops[..n + 1]) <==> Crossed(input, hops[..n]) || CrossesAt(input, hops, n)
  {
    var shorter, longer := hops[..n], hops[..n + 1];
    forall i | 0 <= i < n ensures CrossesAt(input, longer, i) == CrossesAt(input, shorter, i) {
      assert longer[i] == shorter[i] && (i > 0 ==> longer[i - 1] == shorter[i - 1]);
    }
    assert CrossesAt(input, longer, n) == CrossesAt(input, hops, n);
    hide CrossesAt;
  }

  lemma RewrittenByThen(input: Input, hops: seq<Hop>, n: nat)
    requires n < |hops|
    ensures Rewritten(input, hops[..n + 1]) <==> Rewritten(input, hops[..n]) || Rewrites(hops[n].status, input.verb)
  {
    var shorter, longer := hops[..n], hops[..n + 1];
    assert forall i | 0 <= i < n :: RewritesAt(input, longer, i) == RewritesAt(input, shorter, i);
    assert RewritesAt(input, longer, n) <==> Rewrites(hops[n].status, input.verb);
    hide RewritesAt;
  }

  /** A request that is what the input has become. */
  predicate Became(input: Input, sent: Sent, crossed: bool, rewritten: bool) {
    && sent.headers == Kept(input.headers, crossed, rewritten)
    && sent.verb == (if rewritten then "GET" else input.verb)
    && sent.body == (input.bodySize > 0 && !rewritten)
  }

  lemma HopStaysClosed(input: Input, sent: Sent, hop: Hop, address: Address, crossed: bool, rewritten: bool)
    requires Became(input, sent, crossed, rewritten)
    ensures Became(input, AfterHop(sent, hop, address), crossed || hop.next.origin != sent.url.origin,
                   rewritten || Rewrites(hop.status, input.verb))
  {
    hide StripSensitive, StripBody, Kept;
    StrippedIsKept(input.headers, crossed, rewritten);
    StrippedIsKept(input.headers, true, rewritten);
    assert Upper("GET") == "GET";
  }

  /** Every request of a run in closed form: the headers are the original ones in their order, without
      credentials for good from the first cross-origin hop on, and without body headers and body for good
      from the first rewrite to GET on. */
  lemma {:induction false} RequestInClosedForm(input: Input, world: World, sent: seq<Sent>, hops: seq<Hop>, n: nat)
    requires Follows(input, world, sent, hops) && n < |sent|
    ensures Became(input, sent[n], Crossed(input, hops[..n]), Rewritten(input, hops[..n]))
    ensures sent[n].url == TargetAt(input, hops, n)
    decreases n
  {
    if n == 0 {
      NothingStripped(input.headers);
    } else {
      RequestInClosedForm(input, world, sent, hops, n - 1);
      CrossedByThen(input, hops, n - 1);
      RewrittenByThen(input, hops, n - 1);
      assert FollowsAt(input, world, sent, hops, n - 1);
      HopStaysClosed(
        input, sent[n - 1], hops[n - 1], sent[n].address, Crossed(input, hops[..n - 1]), Rewritten(input, hops[..n - 1]));
      hide Crossed, Rewritten, Became;
    }
  }

  /** No credential header goes out once any hop has left an origin. */
  lemma CredentialsStayStripped(input: Input, world: World, sent: seq<Sent>, hops: seq<Hop>, m: nat, n: nat)
    requires Follows(input, world, sent, hops) && m < n < |sent| && CrossesAt(input, hops, m)
    ensures forall header | header in sent[n].headers ::
              header in input.headers && Lower(header.name) !in {"authorization", "cookie", "proxy-authorization"}
  {
    RequestInClosedForm(input, world, sent, hops, n);
    assert CrossesAt(input, hops[..n], m);
    KeptExactly(input.headers, true, Rewritten(input, hops[..n]));
  }

  /** No body and no body header goes out once any hop has rewritten the request. */
  lemma BodyStaysDropped(input: Input, world: World, sent: seq<Sent>, hops: seq<Hop>, m: nat, n: nat)
    requires Follows(input, world, sent, hops) && m < n < |sent| && Rewrites(hops[m].status, sent[m].verb)
    ensures sent[n].verb == "GET" && !sent[n].body
    ensures forall header | header in sent[n].headers :: Lower(header.name) !in BODY_HEADERS && header in input.headers
  {
    RequestInClosedForm(input, world, sent, hops, m);
    RequestInClosedForm(input, world, sent, hops, n);
    if Rewritten(input, hops[..m]) {
      var k :| 0 <= k < m && RewritesAt(input, hops[..m], k);
      assert RewritesAt(input, hops[..n], k);
    } else {
      assert RewritesAt(input, hops[..n], m);
    }
    assert Rewritten(input, hops[..n]);
    KeptExactly(input.headers, Crossed(input, hops[..n]), true);
  }

  lemma {:induction false} FirstApprovedIsApproved(
    world: World, url: Url, headers: seq<Header>, hops: nat, verb: string, addresses: seq<Address>)
    ensures var found := FirstApproved(world, url, headers, hops, verb, addresses);
            && (found.Some? ==>
                  exists k :: 0 <= k < |addresses| && addresses[k] == found.value
                    && world.approve(url, headers, hops, addresses[k], verb)
                    && forall j | 0 <= j < k :: !world.approve(url, headers, hops, addresses[j], verb))
            && (found.None? ==> forall address | address in addresses :: !world.approve(url, headers, hops, address, verb))
  {
    if addresses != [] { FirstApprovedIsApproved(world, url, headers, hops, verb, addresses[1..]); }
  }

  /** The first request as the gateway makes it: its address comes from the same routine, asked with the
      same URL, headers and method and no hops. */
  predicate FirstResolved(input: Input, world: World) {
    match world.lookup(0, input.target.hostname)
    case None => false
    case Some(addresses) =>
      FirstApproved(world, input.target, input.headers, 0, input.verb, addresses) == Some(input.initialAddress)
  }

  /** What goes out, first or on a redirect, was approved together: the URL, the headers, the method, the hop
      count and the pinned address. */
  lemma SentAsApproved(input: Input, world: World, sent: seq<Sent>, hops: seq<Hop>, n: nat)
    requires Follows(input, world, sent, hops) && FirstResolved(input, world) && n < |sent|
    ensures world.approve(sent[n].url, sent[n].headers, n, sent[n].address, sent[n].verb)
  {
    if n > 0 { assert FollowsAt(input, world, sent, hops, n - 1); }
    var next := sent[n];
    FirstApprovedIsApproved(world, next.url, next.headers, n, next.verb, world.lookup(n, next.url.hostname).value);
  }

  /** The caller gets an answer exactly when the last one is no redirect to some place or redirects are left to
      the caller: the last answer, with where it came from and how many redirects there were. A redirect past
      the twentieth is an error of its own. */
  lemma ReturnedExactly(input: Input, world: World, sent: seq<Sent>, outcome: Outcome)
    requires sent != [] && EndsWith(input, world, sent, outcome)
    ensures var n, last := |sent| - 1, sent[|sent| - 1];
            match world.respond(n, last)
            case None => outcome == Failed(NetworkFailure)
            case Some(response) =>
              var followed := response.status in {301, 302, 303, 307, 308} && response.location.Some? && response.location.value != "";
              && (outcome.Returned? <==> !followed || input.mode.Manual?)
              && (outcome.Returned? ==> outcome == Returned(response, n, last.url))
              && (outcome == Failed(LimitExceeded) <==> followed && input.mode.Follow? && n == 20)
              && (outcome == Failed(RedirectDisallowed) <==> followed && input.mode.Disallowed?)
  {
    hide FirstApproved, AfterHop;
  }
}
