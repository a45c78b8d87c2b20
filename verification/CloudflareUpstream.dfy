/** The redirect loop of the Cloudflare adapter, whose request body is a stream that can be sent only
    once. Headers are a map from lower-case names. */
module CloudflareUpstream {
  import opened Options
  import opened RedirectHeaders

  datatype Url = Url(origin: string, https: bool, rest: string)

  type Headers = map<string, string>

  type Stream = nat

  datatype Response = Response(status: int, location: Option<string>)

  datatype RedirectMode = Follow | Manual | Disallowed

  datatype Input = Input(
    target: Url, verb: string, headers: Headers, body: Option<Stream>, mode: RedirectMode, maxRedirects: nat)

  datatype Fetch = Fetch(target: Url, verb: string, headers: Headers, body: Option<Stream>)

  /** What policy is asked about a redirect: method, target, hop count, whether the body is dropped and
      whether the origin changes. */
  datatype PolicyQuestion = PolicyQuestion(verb: string, target: Url, hops: nat, bodyDropped: bool, crossOrigin: bool)

  datatype World = World(
    respond: (nat, Fetch) -> Option<Response>,
    resolveUrl: (string, Url) -> Option<Url>,
    checkTarget: (nat, Url) -> bool,
    policyAllows: PolicyQuestion -> bool)

  datatype Failure =
    NetworkFailure | RedirectDisallowed | LimitExceeded | InvalidLocation | NotHttps | TargetDenied | PolicyDenied

  /** `removed` lists the credential headers that were stripped, for the notices of the answer. */
  datatype Outcome = Returned(response: Response, redirects: nat, removed: seq<string>, target: Url) | Failed(why: Failure)

  predicate IsRedirect(status: int) { status in {301, 302, 303, 307, 308} }

  const CREDENTIALS: set<string> := {"authorization", "cookie"}

  function RemovedNames(headers: Headers): seq<string> {
    (if "authorization" in headers then ["authorization"] else []) + if "cookie" in headers then ["cookie"] else []
  }

  predicate Rewrites(status: int, verb: string) {
    status == 303 || ((status == 301 || status == 302) && verb == "POST")
  }

  lemma RewritesExactly(status: int, verb: string)
    ensures Rewrites(status, verb) <==> status == 303 || ((status == 301 || status == 302) && verb == "POST")
  {
  }

  /** The variables of the loop between two fetches. */
  datatype Loop = Loop(target: Url, verb: string, headers: Headers, body: Option<Stream>, removed: seq<string>)

  datatype Hop = Hop(status: int, next: Url)

  function Start(input: Input): Loop {
    Loop(input.target, input.verb, input.headers, input.body, [])
  }

  function Fetched(loop: Loop): Fetch {
    Fetch(loop.target, loop.verb, loop.headers, if loop.verb == "GET" || loop.verb == "HEAD" then None else loop.body)
  }

  function AfterHop(loop: Loop, hop: Hop): Loop {
    var crossed := loop.target.origin != hop.next.origin;
    var headers := if crossed then loop.headers - CREDENTIALS else loop.headers;
    var removed := loop.removed + if crossed then RemovedNames(loop.headers) else [];
    if Rewrites(hop.status, loop.verb) then Loop(hop.next, "GET", headers - BODY_HEADERS, None, removed)
    else Loop(hop.next, loop.verb, headers, loop.body, removed)
  }

  function AfterHops(loop: Loop, hops: seq<Hop>): Loop {
    if hops == [] then loop else AfterHop(AfterHops(loop, hops[..|hops| - 1]), hops[|hops| - 1])
  }

  /** The conditions under which a redirect is followed, after so many before it. */
  predicate FollowsNext(input: Input, world: World, loop: Loop, n: nat, hop: Hop) {
    var response := world.respond(n, Fetched(loop));
    var rewrites := Rewrites(hop.status, loop.verb);
    && n < input.maxRedirects && input.mode.Follow?
    && response.Some? && response.value.status == hop.status && IsRedirect(hop.status)
    && response.value.location.Some? && response.value.location.value != ""
    && world.resolveUrl(response.value.location.value, loop.target) == Some(hop.next) && hop.next.https
    && (loop.body.Some? ==> rewrites)
    && world.checkTarget(n, hop.next)
    && world.policyAllows(PolicyQuestion(
         if rewrites then "GET" else loop.verb, hop.next, n + 1, rewrites, loop.target.origin != hop.next.origin))
  }

  predicate MayFollow(input: Input, world: World, hops: seq<Hop>, i: int)
    requires 0 <= i < |hops|
  {
    FollowsNext(input, world, AfterHops(Start(input), hops[..i]), i, hops[i])
  }

  predicate Follows(input: Input, world: World, hops: seq<Hop>) {
    forall i | 0 <= i < |hops| :: MayFollow(input, world, hops, i)
  }

  predicate EndsWith(input: Input, world: World, hops: seq<Hop>, outcome: Outcome) {
    EndsAfter(input, world, |hops|, AfterHops(Start(input), hops), outcome)
  }

  predicate EndsAfter(input: Input, world: World, n: nat, loop: Loop, outcome: Outcome) {
    match world.respond(n, Fetched(loop))
    case None => outcome == Failed(NetworkFailure)
    case Some(response) =>
      var returned := Returned(response, n, loop.removed, loop.target);
      if !IsRedirect(response.status) || input.mode.Manual? then outcome == returned
      else if input.mode.Disallowed? then outcome == Failed(RedirectDisallowed)
      else if n >= input.maxRedirects then outcome == Failed(LimitExceeded)
      else if response.location.None? || response.location.value == "" then outcome == returned
      else
        match world.resolveUrl(response.location.value, loop.target)
        case None => outcome == Failed(InvalidLocation)
        case Some(next) =>
          var rewrites := Rewrites(response.status, loop.verb);
          if !next.https then outcome == Failed(NotHttps)
          else if loop.body.Some? && !rewrites then outcome == returned
          else if !world.checkTarget(n, next) then outcome == Failed(TargetDenied)
          else
            && outcome == Failed(PolicyDenied)
            && !world.policyAllows(PolicyQuestion(
                 if rewrites then "GET" else loop.verb, next, n + 1, rewrites, loop.target.origin != next.origin))
  }

  method StripCrossOriginCredentials(headers: Headers) returns (left: Headers, mutations: seq<string>)
    ensures left == headers - CREDENTIALS && mutations == RemovedNames(headers)
  {
    left, mutations := headers, [];
    if "authorization" in left {
      left, mutations := left - {"authorization"}, mutations + ["authorization"];
    }
    if "cookie" in left {
      left, mutations := left - {"cookie"}, mutations + ["cookie"];
    }
  }

  /** The fetches are those of the loop after each prefix of the hops. */
  predicate FetchedAlong(input: Input, fetches: seq<Fetch>, hops: seq<Hop>) {
    |fetches| <= |hops| + 1 && forall i | 0 <= i < |fetches| :: fetches[i] == Fetched(AfterHops(Start(input), hops[..i]))
  }

  /** Where the fetch after so many hops goes: first to the target of the input, then wherever the last redirect led. */
  function TargetAt(input: Input, hops: seq<Hop>, i: int): Url
    requires 0 <= i <= |hops|
  {
    if i == 0 then input.target else hops[i - 1].next
  }

  lemma GoesWhereSent(input: Input, hops: seq<Hop>)
    ensures AfterHops(Start(input), hops).target == TargetAt(input, hops, |hops|)
  {
  }

  /** Each fetch goes to the target of the input or of the redirect before it. */
  predicate Travels(input: Input, fetches: seq<Fetch>, hops: seq<Hop>) {
    |fetches| <= |hops| + 1 && forall i | 0 <= i < |fetches| :: fetches[i].target == TargetAt(input, hops, i)
  }

  lemma FetchesTravel(input: Input, fetches: seq<Fetch>, hops: seq<Hop>)
    requires FetchedAlong(input, fetches, hops)
    ensures Travels(input, fetches, hops)
  {
    hide AfterHops;
    forall i | 0 <= i < |fetches| ensures fetches[i].target == TargetAt(input, hops, i) { GoesWhereSent(input, hops[..i]); }
  }

  lemma FetchedNext(input: Input, fetches: seq<Fetch>, hops: seq<Hop>, next: Fetch)
    requires FetchedAlong(input, fetches, hops) && |fetches| == |hops| && next == Fetched(AfterHops(Start(input), hops))
    ensures FetchedAlong(input, fetches + [next], hops) && Travels(input, fetches + [next], hops)
  {
    hide AfterHops, Fetched;
    assert hops[..|hops|] == hops;
    FetchesTravel(input, fetches + [next], hops);
  }

  lemma FetchedFurther(input: Input, fetches: seq<Fetch>, hops: seq<Hop>, hop: Hop)
    requires FetchedAlong(input, fetches, hops)
    ensures FetchedAlong(input, fetches, hops + [hop])
    ensures AfterHops(Start(input), hops + [hop]) == AfterHop(AfterHops(Start(input), hops), hop)
  {
    hide Fetched;
    assert forall i | 0 <= i < |fetches| :: (hops + [hop])[..i] == hops[..i];
    assert (hops + [hop])[..|hops|] == hops;
  }

  lemma FollowedFurther(input: Input, world: World, hops: seq<Hop>, hop: Hop)
    requires Follows(input, world, hops)
    requires var loop := AfterHops(Start(input), hops); FollowsNext(input, world, loop, |hops|, hop)
    ensures Follows(input, world, hops + [hop])
  {
    hide FollowsNext, AfterHops;
    var followed := hops + [hop];
    assert followed[..|hops|] == hops;
    forall i | 0 <= i < |followed| ensures MayFollow(input, world, followed, i) {
      if i < |hops| { assert MayFollow(input, world, hops, i) && followed[..i] == hops[..i]; }
    }
  }

  method FetchUpstream(input: Input, world: World) returns (outcome: Outcome, fetches: seq<Fetch>, hops: seq<Hop>)
    ensures Follows(input, world, hops) && |hops| <= input.maxRedirects
    ensures |fetches| == |hops| + 1
    ensures FetchedAlong(input, fetches, hops) && Travels(input, fetches, hops)
    ensures EndsWith(input, world, hops, outcome)
  {
    var target, verb, body, headers := input.target, input.verb, input.body, input.headers;
    var redirects: nat, mutations: seq<string> := 0, [];
    fetches, hops := [], [];
    while true
      invariant redirects == |hops| == |fetches| <= input.maxRedirects
      invariant AfterHops(Start(input), hops) == Loop(target, verb, headers, body, mutations)
      invariant Follows(input, world, hops)
      invariant FetchedAlong(input, fetches, hops)
      decreases input.maxRedirects - redirects
    {
      hide Follows, MayFollow, FetchedAlong, Travels, AfterHops, IsRedirect, Rewrites, RemovedNames;
      var request := Fetch(target, verb, headers, if verb == "GET" || verb == "HEAD" then None else body);
      FetchedNext(input, fetches, hops, request);
      fetches := fetches + [request];
      var result := world.respond(redirects, request);
      if result.None? {
        return Failed(NetworkFailure), fetches, hops;
      }
      var response := result.value;
      if !IsRedirect(response.status) || input.mode.Manual? {
        return Returned(response, redirects, mutations, target), fetches, hops;
      }
      if input.mode.Disallowed? {
        return Failed(RedirectDisallowed), fetches, hops;
      }
      if redirects >= input.maxRedirects {
        return Failed(LimitExceeded), fetches, hops;
      }
      if response.location.None? || response.location.value == "" {
        return Returned(response, redirects, mutations, target), fetches, hops;
      }
      var location := world.resolveUrl(response.location.value, target);
      if location.None? {
        return Failed(InvalidLocation), fetches, hops;
      }
      var next := location.value;
      if !next.https {
        return Failed(NotHttps), fetches, hops;
      }
      RewritesExactly(response.status, verb);
      var bodyCanSwitchToGet :=
        response.status == 303 || ((response.status == 301 || response.status == 302) && verb == "POST");
      if body.Some? && !bodyCanSwitchToGet {
        return Returned(response, redirects, mutations, target), fetches, hops;
      }
      if !world.checkTarget(redirects, next) {
        return Failed(TargetDenied), fetches, hops;
      }
      var crossOrigin := target.origin != next.origin;
      var question := PolicyQuestion(if bodyCanSwitchToGet then "GET" else verb, next, redirects + 1, bodyCanSwitchToGet, crossOrigin);
      if !world.policyAllows(question) {
        return Failed(PolicyDenied), fetches, hops;
      }
      ghost var hop := Hop(response.status, next);
      FollowedFurther(input, world, hops, hop);
      FetchedFurther(input, fetches, hops, hop);
      if crossOrigin {
        var stripped, removed := StripCrossOriginCredentials(headers);
        headers, mutations := stripped, mutations + removed;
      }
      if bodyCanSwitchToGet {
        verb, body, headers := "GET", None, headers - BODY_HEADERS;
      }
      target, redirects, hops := next, redirects + 1, hops + [Hop(response.status, next)];
    }
  }

  // ----- whole runs

  /** Whether the hops have left an origin. */
  ghost predicate Crossed(input: Input, hops: seq<Hop>) {
    exists i :: 0 <= i < |hops| && CrossesAt(input, hops, i)
  }

  predicate CrossesAt(input: Input, hops: seq<Hop>, i: int)
    requires 0 <= i < |hops|
  {
    hops[i].next.origin != TargetAt(input, hops, i).origin
  }

  /** Whether the hops have turned the request into a GET: after a 303, or a 301 or 302 to a POST. */
  ghost predicate Rewritten(input: Input, hops: seq<Hop>) {
    exists i :: 0 <= i < |hops| && RewritesAt(input, hops, i)
  }

  predicate RewritesAt(input: Input, hops: seq<Hop>, i: int)
    requires 0 <= i < |hops|
  {
    hops[i].status == 303 || (input.verb == "POST" && 301 <= hops[i].status <= 302)
  }

  function Kept(headers: Headers, crossed: bool, rewritten: bool): Headers {
    headers - (if crossed then CREDENTIALS else {}) - if rewritten then BODY_HEADERS else {}
  }

  lemma KeptExactly(headers: Headers, crossed: bool, rewritten: bool)
    ensures forall name :: name in Kept(headers, crossed, rewritten) <==>
              && name in headers && (crossed ==> name !in {"authorization", "cookie"})
              && !(rewritten && name in
                     {"content-encoding", "content-language", "content-length", "content-location", "content-type"})
    ensures forall name | name in Kept(headers, crossed, rewritten) :: Kept(headers, crossed, rewritten)[name] == headers[name]
  {
  }

  /** The loop is what the input has become. */
  predicate Became(input: Input, loop: Loop, crossed: bool, rewritten: bool) {
    && loop.headers == Kept(input.headers, crossed, rewritten)
    && loop.removed == (if crossed then RemovedNames(input.headers) else [])
    && loop.verb == (if rewritten then "GET" else input.verb)
    && loop.body == (if rewritten then None else input.body)
  }

  lemma CrossedByThen(input: Input, hops: seq<Hop>, hop: Hop)
    ensures Crossed(input, hops + [hop])
       <==> Crossed(input, hops) || AfterHops(Start(input), hops).target.origin != hop.next.origin
  {
    GoesWhereSent(input, hops);
    var longer := hops + [hop];
    forall i | 0 <= i < |hops| ensures CrossesAt(input, longer, i) == CrossesAt(input, hops, i) {
      assert longer[i] == hops[i] && (i > 0 ==> longer[i - 1] == hops[i - 1]);
    }
    assert CrossesAt(input, longer, |hops|) <==> AfterHops(Start(input), hops).target.origin != hop.next.origin;
    hide CrossesAt;
  }

  lemma RewrittenByThen(input: Input, hops: seq<Hop>, hop: Hop)
    ensures Rewritten(input, hops + [hop]) <==> Rewritten(input, hops) || Rewrites(hop.status, input.verb)
  {
    var longer := hops + [hop];
    assert forall i | 0 <= i < |hops| :: RewritesAt(input, longer, i) == RewritesAt(input, hops, i);
    assert RewritesAt(input, longer, |hops|) <==> Rewrites(hop.status, input.verb);
    hide RewritesAt;
  }

  /** The loop in closed form: credentials leave for good at the first cross-origin hop and are reported
      exactly once, body and body headers leave for good at the first rewrite to GET. */
  lemma {:induction false} LoopInClosedForm(input: Input, hops: seq<Hop>)
    ensures Became(input, AfterHops(Start(input), hops), Crossed(input, hops), Rewritten(input, hops))
    decreases |hops|
  {
    if hops != [] {
      var before, hop := hops[..|hops| - 1], hops[|hops| - 1];
      assert hops == before + [hop];
      LoopInClosedForm(input, before);
      CrossedByThen(input, before, hop);
      RewrittenByThen(input, before, hop);
      hide Crossed, Rewritten, Became, AfterHop;
      StepInClosedForm(input, AfterHops(Start(input), before), hop, Crossed(input, before), Rewritten(input, before));
    }
  }

  lemma StepInClosedForm(input: Input, loop: Loop, hop: Hop, crossed: bool, rewritten: bool)
    requires Became(input, loop, crossed, rewritten)
    ensures Became(input, AfterHop(loop, hop), crossed || loop.target.origin != hop.next.origin,
                   rewritten || Rewrites(hop.status, input.verb))
  {
    assert "authorization" !in BODY_HEADERS && "cookie" !in BODY_HEADERS;
    assert RemovedNames(loop.headers) == if crossed then [] else RemovedNames(input.headers);
  }

  /** The body stream goes out with at most one fetch, the first: a redirect is followed with a body still
      in hand only when it turns the request into a GET. */
  lemma BodySentOnce(input: Input, world: World, hops: seq<Hop>, i: nat)
    requires Follows(input, world, hops) && 0 < i <= |hops|
    ensures Fetched(AfterHops(Start(input), hops[..i])).body.None?
  {
    assert MayFollow(input, world, hops, 0);
    assert hops[..0] == [];
    LoopInClosedForm(input, hops[..i]);
    if input.body.Some? {
      assert RewritesAt(input, hops[..i], 0);
    }
  }

  /** What goes out after so many hops, in terms of the input and the hops alone. */
  lemma FetchInClosedForm(input: Input, fetches: seq<Fetch>, hops: seq<Hop>, i: nat)
    requires FetchedAlong(input, fetches, hops) && i < |fetches|
    ensures var crossed, rewritten := Crossed(input, hops[..i]), Rewritten(input, hops[..i]);
            var verb := if rewritten then "GET" else input.verb;
            fetches[i] == Fetch(TargetAt(input, hops, i), verb, Kept(input.headers, crossed, rewritten),
                                if rewritten || verb == "GET" || verb == "HEAD" then None else input.body)
  {
    hide Crossed, Rewritten;
    FetchesTravel(input, fetches, hops);
    LoopInClosedForm(input, hops[..i]);
  }

  /** A redirect that is followed leads where its response said, within HTTPS, and was asked of the target
      check and of policy with the method and target that then go out. */
  predicate AskedAndSent(world: World, fetches: seq<Fetch>, i: int)
    requires 0 <= i && i + 1 < |fetches|
  {
    var response, next := world.respond(i, fetches[i]), fetches[i + 1];
    && response.Some? && response.value.location.Some?
    && world.resolveUrl(response.value.location.value, fetches[i].target) == Some(next.target) && next.target.https
    && world.checkTarget(i, next.target)
    && world.policyAllows(
         PolicyQuestion(next.verb, next.target, i + 1, Rewrites(response.value.status, fetches[i].verb),
                        fetches[i].target.origin != next.target.origin))
  }

  lemma FollowedAsAsked(input: Input, world: World, fetches: seq<Fetch>, hops: seq<Hop>, i: nat)
    requires Follows(input, world, hops) && FetchedAlong(input, fetches, hops) && |fetches| == |hops| + 1 && i < |hops|
    ensures AskedAndSent(world, fetches, i)
  {
    assert MayFollow(input, world, hops, i);
    assert hops[..i + 1] == hops[..i] + [hops[i]];
    FetchedFurther(input, [], hops[..i], hops[i]);
    hide AfterHops, Rewrites;
  }

  lemma LastFetched(input: Input, fetches: seq<Fetch>, hops: seq<Hop>)
    requires FetchedAlong(input, fetches, hops) && |fetches| == |hops| + 1
    ensures fetches[|hops|] == Fetched(AfterHops(Start(input), hops))
  {
    hide AfterHops;
    assert fetches[|hops|] == Fetched(AfterHops(Start(input), hops[..|hops|]));
    assert hops[..|hops|] == hops;
  }

  /** An answer that names a place to go to, where the loop might follow it. */
  predicate Leads(world: World, response: Response, target: Url) {
    response.location.Some? && response.location.value != "" && world.resolveUrl(response.location.value, target).Some?
    && world.resolveUrl(response.location.value, target).value.https
  }

  /** An answer that is handed to the caller: it is no redirect, redirects are left to the caller, or it is one
      that may be followed but names no place or would need the body again. */
  predicate HandedOn(input: Input, world: World, n: nat, fetch: Fetch, hasBody: bool, response: Response) {
    var status, named := response.status, response.location.Some? && response.location.value != "";
    || status !in {301, 302, 303, 307, 308} || input.mode.Manual?
    || (input.mode.Follow? && n < input.maxRedirects && !named)
    || (input.mode.Follow? && n < input.maxRedirects && Leads(world, response, fetch.target)
        && hasBody && status != 303 && !(fetch.verb == "POST" && 301 <= status <= 302))
  }

  lemma EndsExactly(input: Input, world: World, n: nat, loop: Loop, outcome: Outcome)
    requires EndsAfter(input, world, n, loop, outcome)
    ensures world.respond(n, Fetched(loop)).None? ==> outcome == Failed(NetworkFailure)
    ensures world.respond(n, Fetched(loop)).Some? ==>
      (outcome.Returned?
       <==> HandedOn(input, world, n, Fetched(loop), loop.body.Some?, world.respond(n, Fetched(loop)).value))
  {
  }

  /** The caller gets an answer exactly when the last fetch brought one that is to be handed on. */
  lemma ReturnedExactly(input: Input, world: World, fetches: seq<Fetch>, hops: seq<Hop>, outcome: Outcome)
    requires FetchedAlong(input, fetches, hops) && |fetches| == |hops| + 1 && EndsWith(input, world, hops, outcome)
    ensures var n, answer := |hops|, world.respond(|hops|, fetches[|hops|]);
            && (answer.None? ==> outcome == Failed(NetworkFailure))
            && (answer.Some? ==>
                  (outcome.Returned?
                   <==> HandedOn(input, world, n, fetches[n], input.body.Some? && !Rewritten(input, hops), answer.value)))
  {
    LastFetched(input, fetches, hops);
    LoopInClosedForm(input, hops);
    hide AfterHops, FetchedAlong, EndsAfter, HandedOn, Rewritten, Crossed;
    EndsExactly(input, world, |hops|, AfterHops(Start(input), hops), outcome);
  }

  /** The answer is that of the last fetch, with where that went and how many redirects there were. */
  lemma ReturnedFromLast(input: Input, world: World, fetches: seq<Fetch>, hops: seq<Hop>, outcome: Outcome)
    requires FetchedAlong(input, fetches, hops) && |fetches| == |hops| + 1 && EndsWith(input, world, hops, outcome)
    requires outcome.Returned?
    ensures Some(outcome.response) == world.respond(|hops|, fetches[|hops|])
    ensures outcome.redirects == |hops| && outcome.target == fetches[|hops|].target
    ensures outcome.removed == if Crossed(input, hops) then RemovedNames(input.headers) else []
  {
    LoopInClosedForm(input, hops);
    LastFetched(input, fetches, hops);
    hide AfterHops, FetchedAlong, Crossed, Rewritten;
  }
}
