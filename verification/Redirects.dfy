/** One `networkRequest`: authorization by the current plan, checks on the request, then redirects
    followed against any transport. */
module Redirects {
  import opened Wrappers
  import opened Strings
  import opened Domains
  import opened Sequences
  import opened ControlPlane
  import G = RendererGate

  const MAX_URL_BYTES := 16 * 1024
  const MAX_REDIRECTS := 5
  const MAX_REQUEST_BODY_BYTES := 1024 * 1024
  const MAX_RESPONSE_BODY_BYTES := 1024 * 1024
  const MAX_REQUEST_HEADERS := 64
  const MAX_RESPONSE_HEADERS := 128
  const MAX_HEADER_NAME_BYTES := 128
  const MAX_HEADER_VALUE_BYTES := 8192
  const INVALID_PARAMS := -32602
  const FORBIDDEN := -32003
  const FAILED := -32004
  const INTERNAL := -32603
  const NETWORK_ACCESS := "network.access"

  datatype UrlHost = Name(text: string) | Ipv6(text: string)

  /** A parsed absolute URL; `rest` is path, query and fragment. */
  datatype Url = Url(
    scheme: string, username: string, password: Option<string>, host: Option<UrlHost>, port: Option<nat>, rest: string)

  type Header = (string, string)

  datatype Params = Params(
    pluginId: string, url: string, verb: Option<string>, headers: seq<Header>, body: Option<string>)

  /** The next request: its URL with the host and port that were checked, and what it carries. */
  datatype Hop = Hop(url: Url, host: string, port: nat, verb: string, headers: seq<Header>, body: string)

  datatype Reply = Unanswered | Answered(status: nat, headers: seq<Header>, body: Bytes)

  /** The answer to the plugin, and the host, status and size audited, if any. */
  datatype Outcome = Rejected(code: int, audit: Option<(string, nat, nat)>)
                   | Delivered(reply: Reply, audit: Option<(string, nat, nat)>)

  // ---- Authorization ----

  function GrantFor(plan: seq<G.PluginGrant>, id: string): Option<G.PluginGrant> {
    if plan == [] then None
    else if plan[0].id == id then Some(plan[0])
    else GrantFor(plan[1..], id)
  }

  /** The plugin's whitelist, if the current plan grants it the network; `domains` are the manifests'
      whitelists, None when the installed plugins cannot be read. */
  function Authorize(plan: Option<seq<G.PluginGrant>>, domains: Option<map<string, seq<string>>>, id: string)
    : Result<seq<string>, int>
  {
    if plan.None? then Err(INTERNAL)
    else
      var grant := GrantFor(plan.value, id);
      if grant.None? || NETWORK_ACCESS !in grant.value.granted then Err(FORBIDDEN)
      else if domains.None? || id !in domains.value then Err(INTERNAL)
      else if domains.value[id] == [] then Err(FORBIDDEN)
      else Ok(domains.value[id])
  }

  lemma {:induction false} GrantForIs(plan: seq<G.PluginGrant>, id: string)
    requires GrantFor(plan, id).Some?
    ensures GrantFor(plan, id).value in plan && GrantFor(plan, id).value.id == id
  {
    if plan[0].id != id {
      GrantForIs(plan[1..], id);
    }
  }

  /** A request is authorized only for a plugin that the application's stored policy enables and grants
      the network, whose manifest asks for it, in an application of Level 2. */
  lemma AuthorizedIsGranted(
    st: DaemonState, app: string, plugins: seq<G.PluginFiles>, domains: Option<map<string, seq<string>>>, id: string)
    requires Authorize(G.PlanOf(G.Plan(st, app, Some(plugins))), domains, id).Ok?
    ensures app in st.applications && st.applications[app].supportLevel == 2
    ensures id in st.applications[app].plugins
    ensures var policy := st.applications[app].plugins[id];
            policy.enabled && NETWORK_ACCESS in policy.grants
    ensures exists i :: 0 <= i < |plugins| && plugins[i].id == id && NETWORK_ACCESS in plugins[i].permissions
  {
    var plan := G.PlanOf(G.Plan(st, app, Some(plugins))).value;
    GrantForIs(plan, id);
    G.PlanIsAuthorized(st, app, plugins, |plugins|, GrantFor(plan, id).value);
  }

  lemma {:induction false} GrantForFinds(plan: seq<G.PluginGrant>, k: nat)
    requires k < |plan|
    ensures GrantFor(plan, plan[k].id).Some?
  {
    if k > 0 && plan[0].id != plan[k].id {
      GrantForFinds(plan[1..], k - 1);
    }
  }

  /** The plugin's entry in the plan holds its effective grants; without any it has no entry. */
  lemma GrantForHolds(g: G.Grants, plugins: seq<G.PluginFiles>, i: nat)
    requires i < |plugins| && G.DistinctIds(plugins)
    ensures var grant := GrantFor(G.PlanUpTo(g, plugins, |plugins|), plugins[i].id);
            if g(plugins[i]) == [] then grant.None? else grant.Some? && grant.value.granted == g(plugins[i])
  {
    var plan := G.PlanUpTo(g, plugins, |plugins|);
    var from := G.Sources(g, plugins, |plugins|);
    G.SourcesAre(g, plugins, |plugins|, i);
    if i in from {
      var k :| 0 <= k < |from| && from[k] == i;
      G.EntryOf(g, plugins, i, k);
      GrantForFinds(plan, k);
    }
    if GrantFor(plan, plugins[i].id).Some? {
      GrantForIs(plan, plugins[i].id);
      var k :| 0 <= k < |plan| && plan[k] == GrantFor(plan, plugins[i].id).value;
      G.EntryOf(g, plugins, i, k);
    }
  }

  /** Authorization of an installed plugin, both ways and with its error codes: it gets its whitelist
      exactly when the network is in force for it and the whitelist can be read and is not empty. */
  lemma AuthorizedExactlyWhen(
    st: DaemonState, app: string, plugins: seq<G.PluginFiles>, domains: Option<map<string, seq<string>>>, i: nat)
    requires i < |plugins| && G.DistinctIds(plugins)
    ensures var id := plugins[i].id;
            Authorize(G.PlanOf(G.Plan(st, app, Some(plugins))), domains, id) ==
            if !G.InForce(st, app, plugins[i], "network.access") then Err(-32003)
            else if domains.None? || id !in domains.value then Err(-32603)
            else if domains.value[id] == [] then Err(-32003)
            else Ok(domains.value[id])
  {
    GrantForHolds(G.GrantsOf(st, app), plugins, i);
    G.GrantedIsInForce(st, app, plugins[i]);
  }

  /** A plugin that is not installed is forbidden, and without the installed plugins nobody is served. */
  lemma OthersAreRefused(
    st: DaemonState, app: string, installed: Option<seq<G.PluginFiles>>, domains: Option<map<string, seq<string>>>,
    id: string)
    requires installed.Some? ==> forall i :: 0 <= i < |installed.value| ==> installed.value[i].id != id
    ensures Authorize(G.PlanOf(G.Plan(st, app, installed)), domains, id) ==
            Err(if G.Serves(st, app) && installed.None? then -32603 else -32003)
  {
    var plan := G.PlanOf(G.Plan(st, app, installed));
    if plan.Some? && GrantFor(plan.value, id).Some? {
      GrantForIs(plan.value, id);
      var k :| 0 <= k < |plan.value| && plan.value[k] == GrantFor(plan.value, id).value;
      G.SourceAt(G.GrantsOf(st, app), installed.value, |installed.value|, k);
    }
  }

  // ---- Checks on the first request ----

  function DefaultPort(scheme: string): Option<nat> {
    if scheme == "http" then Some(80) else if scheme == "https" then Some(443) else None
  }

  function TrimDots(s: string): string {
    if s != "" && s[|s| - 1] == '.' then TrimDots(s[..|s| - 1]) else s
  }

  function ValidateUrl(url: Url): Option<(string, nat)> {
    if url.scheme != "http" && url.scheme != "https" then None
    else if url.username != "" || url.password.Some? then None
    else if url.host.None? || url.host.value.Ipv6? then None
    else
      var port := if url.port.Some? then url.port else DefaultPort(url.scheme);
      var host := Lower(TrimDots(url.host.value.text));
      if port.None? || host == "" then None else Some((host, port.value))
  }

  predicate Whitelisted(url: Url, host: string, port: nat, whitelist: seq<string>) {
    ValidateUrl(url) == Some((host, port)) && DomainAllows(host, port, whitelist)
  }

  predicate AllowedVerb(verb: string) {
    verb in {"GET", "HEAD", "POST", "PUT", "PATCH", "DELETE"}
  }

  predicate Bodiless(verb: string) {
    verb == "GET" || verb == "HEAD"
  }

  predicate TokenChar(c: char) {
    IsAlphanumeric(c) || c in "!#$%&'*+-.^_`|~"
  }

  predicate HeaderAccepted(header: Header) {
    && header.0 != "" && Utf8Size(header.0) <= MAX_HEADER_NAME_BYTES
    && (forall i :: 0 <= i < |header.0| ==> TokenChar(header.0[i]))
    && Lower(header.0) !in {"host", "content-length", "transfer-encoding", "connection"}
    && Utf8Size(header.1) <= MAX_HEADER_VALUE_BYTES
    && '\r' !in header.1 && '\n' !in header.1
  }

  predicate HeadersAccepted(headers: seq<Header>) {
    headers == [] || (HeaderAccepted(headers[0]) && HeadersAccepted(headers[1..]))
  }

  /** The first hop, or the code of the first check that fails. */
  function Prepare(parse: string -> Option<Url>, whitelist: seq<string>, params: Params): Result<Hop, int> {
    var url := parse(params.url);
    if Utf8Size(params.url) > MAX_URL_BYTES || url.None? then Err(INVALID_PARAMS)
    else
      var place := ValidateUrl(url.value);
      if place.None? || !DomainAllows(place.value.0, place.value.1, whitelist) then Err(FORBIDDEN)
      else
        var verb := Upper(if params.verb.Some? then params.verb.value else "GET");
        var body := if params.body.Some? then params.body.value else "";
        if !AllowedVerb(verb) || Utf8Size(body) > MAX_REQUEST_BODY_BYTES || (Bodiless(verb) && body != "")
           || |params.headers| > MAX_REQUEST_HEADERS || !HeadersAccepted(params.headers)
        then Err(INVALID_PARAMS)
        else Ok(Hop(url.value, place.value.0, place.value.1, verb, params.headers, body))
  }

  // ---- What the checks accept ----

  lemma {:induction false} TrimDotsIs(s: string)
    ensures var t := TrimDots(s);
            && |t| <= |s| && t == s[..|t|]
            && (t != "" ==> t[|t| - 1] != '.')
            && forall i :: |t| <= i < |s| ==> s[i] == '.'
  {
    if s != "" && s[|s| - 1] == '.' {
      TrimDotsIs(s[..|s| - 1]);
    }
  }

  /** The place a URL leads to: a name without trailing dots in lower case, on the port given, else on
      80 or 443. A URL with another scheme, credentials, an IPv6 host or no host leads nowhere. */
  lemma ValidatedExactlyWhen(url: Url, host: string, port: nat)
    ensures ValidateUrl(url) == Some((host, port)) <==>
            && (url.scheme == "http" || url.scheme == "https") && url.username == "" && url.password.None?
            && url.host.Some? && url.host.value.Name?
            && var text := url.host.value.text;
            && 0 < |host| <= |text| && text[|host| - 1] != '.' && host == Lower(text[..|host|])
            && (forall i :: |host| <= i < |text| ==> text[i] == '.')
            && port == if url.port.Some? then url.port.value else if url.scheme == "http" then 80 else 443
  {
    if url.host.Some? {
      var text := url.host.value.text;
      TrimDotsIs(text);
      if 0 < |host| <= |text| && text[|host| - 1] != '.' && forall i :: |host| <= i < |text| ==> text[i] == '.' {
        assert |TrimDots(text)| == |host|;
      }
    }
  }

  /** A header name is a token as section 3.2.6 of RFC 7230 has it, visible ASCII without delimiters,
      and none that the transport owns; a value has no line break. */
  predicate Sendable(header: Header) {
    && header.0 != "" && Utf8Size(header.0) <= 128
    && (forall i :: 0 <= i < |header.0| ==>
          33 <= header.0[i] as int <= 126 && header.0[i] !in "\"(),/:;<=>?@[\\]{}")
    && Lower(header.0) !in {"host", "content-length", "transfer-encoding", "connection"}
    && Utf8Size(header.1) <= 8192
    && forall i :: 0 <= i < |header.1| ==> header.1[i] != '\r' && header.1[i] != '\n'
  }

  lemma TokenCharIs(c: char)
    ensures TokenChar(c) <==> 33 <= c as int <= 126 && c !in "\"(),/:;<=>?@[\\]{}"
  {
  }

  lemma {:induction false} HeadersAcceptedExactlyWhen(headers: seq<Header>)
    ensures HeadersAccepted(headers) <==> forall i :: 0 <= i < |headers| ==> Sendable(headers[i])
  {
    if headers != [] {
      forall i | 0 <= i < |headers[0].0|
        ensures TokenChar(headers[0].0[i]) <==>
                33 <= headers[0].0[i] as int <= 126 && headers[0].0[i] !in "\"(),/:;<=>?@[\\]{}"
      {
        TokenCharIs(headers[0].0[i]);
      }
      HeadersAcceptedExactlyWhen(headers[1..]);
      assert forall i :: 1 <= i < |headers| ==> headers[i] == headers[1..][i - 1];
    }
  }

  /** The request the parameters describe. */
  ghost predicate Acceptable(params: Params, hop: Hop) {
    && hop.verb == Upper(if params.verb.Some? then params.verb.value else "GET")
    && hop.verb in {"GET", "HEAD", "POST", "PUT", "PATCH", "DELETE"}
    && hop.headers == params.headers && |hop.headers| <= 64
    && (forall i :: 0 <= i < |hop.headers| ==> Sendable(hop.headers[i]))
    && hop.body == (if params.body.Some? then params.body.value else "")
    && Utf8Size(hop.body) <= 1048576 && (hop.verb == "GET" || hop.verb == "HEAD" ==> hop.body == "")
  }

  /** What is sent first, and which requests are rejected. A request is accepted exactly when its URL
      has at most 16 KiB, parses and leads to a whitelisted place and the rest is acceptable; what is
      sent is then the parsed URL and the given method in upper case, GET if none, with exactly the
      plugin's headers in order and its body. */
  lemma PreparedExactlyWhen(parse: string -> Option<Url>, whitelist: seq<string>, params: Params, hop: Hop)
    ensures Prepare(parse, whitelist, params) == Ok(hop) <==>
            && Utf8Size(params.url) <= 16384 && parse(params.url) == Some(hop.url)
            && Whitelisted(hop.url, hop.host, hop.port, whitelist)
            && Acceptable(params, hop)
  {
    HeadersAcceptedExactlyWhen(params.headers);
  }

  /** The others are rejected: for the URL's place as forbidden, for anything else as invalid. */
  lemma RejectedExactlyWhen(parse: string -> Option<Url>, whitelist: seq<string>, params: Params, code: int)
    ensures Prepare(parse, whitelist, params) == Err(code) <==>
            && (forall hop :: Prepare(parse, whitelist, params) != Ok(hop))
            && var url := parse(params.url);
            code == if Utf8Size(params.url) <= 16384 && url.Some? &&
                       (forall host, port :: !Whitelisted(url.value, host, port, whitelist))
                    then -32003 else -32602
  {
    var url := parse(params.url);
    if Utf8Size(params.url) <= 16384 && url.Some? && ValidateUrl(url.value).Some? {
      var place := ValidateUrl(url.value).value;
      assert Whitelisted(url.value, place.0, place.1, whitelist) <==> DomainAllows(place.0, place.1, whitelist);
    }
    assert Prepare(parse, whitelist, params).Ok? ==>
             Prepare(parse, whitelist, params) == Ok(Prepare(parse, whitelist, params).value);
  }

  /** What the checks give the loop: the assumptions of the lemmas below. */
  lemma PreparedHop(parse: string -> Option<Url>, whitelist: seq<string>, params: Params)
    requires Prepare(parse, whitelist, params).Ok?
    ensures var hop := Prepare(parse, whitelist, params).value;
            && Whitelisted(hop.url, hop.host, hop.port, whitelist) && Acceptable(params, hop)
            && (Bodiless(hop.verb) ==> hop.body == "")
  {
    PreparedExactlyWhen(parse, whitelist, params, Prepare(parse, whitelist, params).value);
  }

  // ---- Following ----

  predicate IsRedirect(reply: Reply) {
    reply.Answered? && 300 <= reply.status < 400
  }

  predicate IsLocation(header: Header) {
    Lower(header.0) == "location"
  }

  function LocationOf(headers: seq<Header>): Option<string> {
    if headers == [] then None
    else if IsLocation(headers[0]) then Some(headers[0].1)
    else LocationOf(headers[1..])
  }

  predicate IsCredential(header: Header) {
    Lower(header.0) == "authorization" || Lower(header.0) == "cookie"
  }

  function WithoutCredentials(headers: seq<Header>): seq<Header> {
    if headers == [] then []
    else (if IsCredential(headers[0]) then [] else [headers[0]]) + WithoutCredentials(headers[1..])
  }

  /** The hop to a checked redirect target. */
  function Redirected(hop: Hop, status: nat, url: Url, host: string, port: nat): Hop {
    var (verb, body) :=
      if status == 303 then (if hop.verb != "HEAD" then "GET" else hop.verb, "")
      else if (status == 301 || status == 302) && !Bodiless(hop.verb) then ("GET", "")
      else (hop.verb, hop.body);
    Hop(url, host, port, verb, if host != hop.host then WithoutCredentials(hop.headers) else hop.headers, body)
  }

  datatype Decision = Stop(outcome: Outcome) | Follow(next: Hop)

  predicate SmallHeaders(headers: seq<Header>) {
    headers == [] ||
    (&& Utf8Size(headers[0].0) <= MAX_HEADER_NAME_BYTES && Utf8Size(headers[0].1) <= MAX_HEADER_VALUE_BYTES
     && SmallHeaders(headers[1..]))
  }

  function Deliver(hop: Hop, reply: Reply): Outcome
    requires reply.Answered?
  {
    if |reply.headers| > MAX_RESPONSE_HEADERS || !SmallHeaders(reply.headers) || |reply.body| > MAX_RESPONSE_BODY_BYTES
    then Rejected(FAILED, None)
    else Delivered(reply, Some((hop.host, reply.status, |reply.body|)))
  }

  function Decide(
    join: (Url, string) -> Option<Url>, whitelist: seq<string>, hop: Hop, reply: Reply, followed: nat): Decision
  {
    if reply.Unanswered? then Stop(Rejected(FAILED, Some((hop.host, 0, 0))))
    else
      var location := LocationOf(reply.headers);
      if !IsRedirect(reply) || location.None? then Stop(Deliver(hop, reply))
      else if followed >= MAX_REDIRECTS then Stop(Rejected(FAILED, Some((hop.host, 0, 0))))
      else
        var url := join(hop.url, location.value);
        if url.None? then Stop(Rejected(FAILED, None))
        else
          var place := ValidateUrl(url.value);
          if place.None? || !DomainAllows(place.value.0, place.value.1, whitelist) then Stop(Rejected(FORBIDDEN, None))
          else Follow(Redirected(hop, reply.status, url.value, place.value.0, place.value.1))
  }

  /** One request sent and what came back. */
  datatype Visit = Visit(hop: Hop, reply: Reply)

  /** A transport may answer each request in any way; each answer is then judged. */
  datatype Course = Course(transport: (nat, Hop) -> Reply, judge: (Hop, Reply, nat) -> Decision)

  ghost predicate Ends(c: Course) {
    forall hop: Hop, reply: Reply :: c.judge(hop, reply, MAX_REDIRECTS).Stop?
  }

  /** A transport, a URL resolver and a whitelist. */
  datatype World = World(transport: (nat, Hop) -> Reply, join: (Url, string) -> Option<Url>, whitelist: seq<string>)

  function CourseOf(w: World): (c: Course)
    ensures Ends(c)
  {
    Course(w.transport, (hop: Hop, reply: Reply, followed: nat) => Decide(w.join, w.whitelist, hop, reply, followed))
  }

  /** Every request sent from a hop on, in order. */
  function Visits(c: Course, hop: Hop, followed: nat): (visits: seq<Visit>)
    requires followed <= MAX_REDIRECTS && Ends(c)
    ensures visits != [] && visits[0].hop == hop
    decreases MAX_REDIRECTS - followed
  {
    var reply := c.transport(followed, hop);
    match c.judge(hop, reply, followed)
    case Stop(_) => [Visit(hop, reply)]
    case Follow(next) => [Visit(hop, reply)] + Visits(c, next, followed + 1)
  }

  function Ending(c: Course, hop: Hop, followed: nat): Outcome
    requires followed <= MAX_REDIRECTS && Ends(c)
    decreases MAX_REDIRECTS - followed
  {
    match c.judge(hop, c.transport(followed, hop), followed)
    case Stop(outcome) => outcome
    case Follow(next) => Ending(c, next, followed + 1)
  }

  function Sent(w: World, first: Hop): seq<Visit> {
    Visits(CourseOf(w), first, 0)
  }

  lemma VisitsStep(c: Course, hop: Hop, followed: nat)
    requires followed <= MAX_REDIRECTS && Ends(c)
    ensures var reply := c.transport(followed, hop);
            match c.judge(hop, reply, followed)
            case Stop(outcome) => Visits(c, hop, followed) == [Visit(hop, reply)] && Ending(c, hop, followed) == outcome
            case Follow(next) =>
              && followed < MAX_REDIRECTS
              && Visits(c, hop, followed) == [Visit(hop, reply)] + Visits(c, next, followed + 1)
              && Ending(c, hop, followed) == Ending(c, next, followed + 1)
  {
  }

  method NetworkRequest(
    parse: string -> Option<Url>, transport: (nat, Hop) -> Reply, join: (Url, string) -> Option<Url>,
    plan: Option<seq<G.PluginGrant>>, domains: Option<map<string, seq<string>>>, params: Params)
    returns (sent: seq<Visit>, outcome: Outcome)
    ensures match Authorize(plan, domains, params.pluginId)
            case Err(code) => sent == [] && outcome == Rejected(code, None)
            case Ok(whitelist) =>
              match Prepare(parse, whitelist, params)
              case Err(code) => sent == [] && outcome == Rejected(code, None)
              case Ok(hop) =>
                var w := World(transport, join, whitelist);
                sent == Sent(w, hop) && outcome == Ending(CourseOf(w), hop, 0)
  {
    match Authorize(plan, domains, params.pluginId)
    case Err(code) => return [], Rejected(code, None);
    case Ok(whitelist) =>
      match Prepare(parse, whitelist, params)
      case Err(code) => return [], Rejected(code, None);
      case Ok(hop) => sent, outcome := FollowRedirects(CourseOf(World(transport, join, whitelist)), hop);
  }

  lemma SentGrows(c: Course, sent: seq<Visit>, hop: Hop, next: Hop, followed: nat)
    requires followed < MAX_REDIRECTS && Ends(c)
    requires c.judge(hop, c.transport(followed, hop), followed) == Follow(next)
    ensures sent + Visits(c, hop, followed) ==
            (sent + [Visit(hop, c.transport(followed, hop))]) + Visits(c, next, followed + 1)
  {
    VisitsStep(c, hop, followed);
    Assoc(sent, [Visit(hop, c.transport(followed, hop))], Visits(c, next, followed + 1));
  }

  method FollowRedirects(c: Course, first: Hop) returns (sent: seq<Visit>, outcome: Outcome)
    requires Ends(c)
    ensures sent == Visits(c, first, 0) && outcome == Ending(c, first, 0)
  {
    var hop := first;
    var redirectsFollowed := 0;
    sent := [];
    while true
      invariant redirectsFollowed <= MAX_REDIRECTS
      invariant sent + Visits(c, hop, redirectsFollowed) == Visits(c, first, 0)
      invariant Ending(c, hop, redirectsFollowed) == Ending(c, first, 0)
      decreases MAX_REDIRECTS - redirectsFollowed
    {
      var reply := c.transport(redirectsFollowed, hop);
      VisitsStep(c, hop, redirectsFollowed);
      match c.judge(hop, reply, redirectsFollowed)
      case Stop(o) =>
        return sent + [Visit(hop, reply)], o;
      case Follow(next) =>
        SentGrows(c, sent, hop, next, redirectsFollowed);
        sent := sent + [Visit(hop, reply)];
        hop := next;
        redirectsFollowed := redirectsFollowed + 1;
    }
  }

  // ---- Where requests go ----

  /** A hop to a whitelisted target that carries what the redirect lets it carry. */
  predicate Linked(whitelist: seq<string>, v: Visit, next: Hop) {
    && IsRedirect(v.reply)
    && Whitelisted(next.url, next.host, next.port, whitelist)
    && next == Redirected(v.hop, v.reply.status, next.url, next.host, next.port)
  }

  type Link = (Visit, Hop) -> bool

  function LinkedBy(whitelist: seq<string>): Link {
    (v: Visit, next: Hop) => Linked(whitelist, v, next)
  }

  predicate Chained(link: Link, visits: seq<Visit>) {
    |visits| <= 1 || (link(visits[0], visits[1].hop) && Chained(link, visits[1..]))
  }

  lemma FollowedIsLinked(w: World, hop: Hop, reply: Reply, followed: nat)
    ensures match Decide(w.join, w.whitelist, hop, reply, followed)
            case Stop(_) => true
            case Follow(next) => Linked(w.whitelist, Visit(hop, reply), next)
  {
  }

  lemma ChainExtends(link: Link, v: Visit, rest: seq<Visit>)
    requires rest != [] && link(v, rest[0].hop) && Chained(link, rest)
    ensures Chained(link, [v] + rest)
  {
    assert ([v] + rest)[1..] == rest;
  }

  predicate LinksAt(c: Course, link: Link, hop: Hop, reply: Reply, followed: nat) {
    match c.judge(hop, reply, followed)
    case Stop(_) => true
    case Follow(next) => link(Visit(hop, reply), next)
  }

  ghost predicate Links(c: Course, link: Link) {
    forall hop: Hop, reply: Reply, followed: nat :: LinksAt(c, link, hop, reply, followed)
  }

  /** At most six requests are sent, each after the first to a redirect target. */
  lemma {:induction false} VisitsAreChained(c: Course, link: Link, hop: Hop, followed: nat)
    requires followed <= MAX_REDIRECTS && Ends(c) && Links(c, link)
    ensures Chained(link, Visits(c, hop, followed))
    ensures 1 <= |Visits(c, hop, followed)| <= MAX_REDIRECTS + 1 - followed
    decreases MAX_REDIRECTS - followed
  {
    var reply := c.transport(followed, hop);
    VisitsStep(c, hop, followed);
    assert LinksAt(c, link, hop, reply, followed);
    match c.judge(hop, reply, followed)
    case Stop(_) =>
    case Follow(next) =>
      VisitsAreChained(c, link, next, followed + 1);
      ChainExtends(link, Visit(hop, reply), Visits(c, next, followed + 1));
  }

  lemma SentIsChained(w: World, first: Hop)
    ensures Chained(LinkedBy(w.whitelist), Sent(w, first))
    ensures 1 <= |Sent(w, first)| <= 6 && Sent(w, first)[0].hop == first
  {
    forall hop: Hop, reply: Reply, followed: nat
      ensures LinksAt(CourseOf(w), LinkedBy(w.whitelist), hop, reply, followed)
    {
      FollowedIsLinked(w, hop, reply, followed);
    }
    VisitsAreChained(CourseOf(w), LinkedBy(w.whitelist), first, 0);
  }

  lemma {:induction false} ChainIsWhitelisted(whitelist: seq<string>, visits: seq<Visit>, k: nat)
    requires k < |visits| && Chained(LinkedBy(whitelist), visits)
    requires var to := visits[0].hop; Whitelisted(to.url, to.host, to.port, whitelist)
    ensures var to := visits[k].hop; Whitelisted(to.url, to.host, to.port, whitelist)
  {
    if k > 0 {
      ChainIsWhitelisted(whitelist, visits[1..], k - 1);
    }
  }

  /** At most six requests are sent, and every one goes to a valid URL whose host and port the
      whitelist allows. */
  lemma EveryRequestIsWhitelisted(parse: string -> Option<Url>, w: World, params: Params, k: nat)
    requires Prepare(parse, w.whitelist, params).Ok?
    ensures var visits := Sent(w, Prepare(parse, w.whitelist, params).value);
            && |visits| <= 6
            && (k < |visits| ==> Whitelisted(visits[k].hop.url, visits[k].hop.host, visits[k].hop.port, w.whitelist))
  {
    var hop := Prepare(parse, w.whitelist, params).value;
    PreparedHop(parse, w.whitelist, params);
    SentIsChained(w, hop);
    if k < |Sent(w, hop)| {
      ChainIsWhitelisted(w.whitelist, Sent(w, hop), k);
    }
  }

  // ---- What requests carry ----

  predicate IsDowngrade(reply: Reply) {
    reply.Answered? && (reply.status == 301 || reply.status == 302 || reply.status == 303)
  }

  predicate Downgraded(visits: seq<Visit>) {
    visits != [] && (IsDowngrade(visits[0].reply) || Downgraded(visits[1..]))
  }

  lemma {:induction false} DowngradedIs(visits: seq<Visit>)
    ensures Downgraded(visits) <==> exists j :: 0 <= j < |visits| && IsDowngrade(visits[j].reply)
  {
    if visits != [] {
      DowngradedIs(visits[1..]);
      assert forall j :: 1 <= j < |visits| ==> visits[j] == visits[1..][j - 1];
    }
  }

  lemma LinkCarries(whitelist: seq<string>, v: Visit, next: Hop)
    requires Linked(whitelist, v, next) && (Bodiless(v.hop.verb) ==> v.hop.body == "")
    ensures next.verb == if IsDowngrade(v.reply) && v.hop.verb != "HEAD" then "GET" else v.hop.verb
    ensures next.body == if IsDowngrade(v.reply) then "" else v.hop.body
  {
  }

  lemma LinkHeaders(whitelist: seq<string>, v: Visit, next: Hop)
    requires Linked(whitelist, v, next)
    ensures next.headers == if next.host != v.hop.host then WithoutCredentials(v.hop.headers) else v.hop.headers
  {
  }

  /** Section 6.4 of RFC 7231 over the whole chain: HEAD stays HEAD; any other method and its body
      are resent unchanged until the first 301, 302 or 303, and from there on it is GET without body. */
  lemma {:induction false} MethodAndBodyAt(whitelist: seq<string>, visits: seq<Visit>, k: nat)
    requires k < |visits| && Chained(LinkedBy(whitelist), visits)
    requires Bodiless(visits[0].hop.verb) ==> visits[0].hop.body == ""
    ensures var first := visits[0].hop;
            var downgraded := Downgraded(visits[..k]);
            && visits[k].hop.verb == (if downgraded && first.verb != "HEAD" then "GET" else first.verb)
            && visits[k].hop.body == (if downgraded then "" else first.body)
  {
    if k > 0 {
      LinkCarries(whitelist, visits[0], visits[1].hop);
      MethodAndBodyAt(whitelist, visits[1..], k - 1);
      TailOfPrefix(visits, k);
    }
  }

  /** A GET or HEAD never carries a body, and a body once cleared never returns. */
  lemma BodiesOnlyShrink(w: World, hop: Hop, i: nat, k: nat)
    requires i <= k < |Sent(w, hop)| && (Bodiless(hop.verb) ==> hop.body == "")
    ensures var visits := Sent(w, hop);
            && (Bodiless(visits[k].hop.verb) ==> visits[k].hop.body == "")
            && visits[k].hop.body in {"", hop.body}
            && (visits[i].hop.body == "" ==> visits[k].hop.body == "")
  {
    var visits := Sent(w, hop);
    SentIsChained(w, hop);
    MethodAndBodyAt(w.whitelist, visits, i);
    MethodAndBodyAt(w.whitelist, visits, k);
    DowngradedIs(visits[..i]);
    DowngradedIs(visits[..k]);
    assert forall j :: 0 <= j < i ==> visits[..i][j] == visits[..k][j];
  }

  predicate LeftHost(visits: seq<Visit>, host: string) {
    visits != [] && (visits[0].hop.host != host || LeftHost(visits[1..], host))
  }

  lemma {:induction false} LeftHostIs(visits: seq<Visit>, host: string)
    ensures LeftHost(visits, host) <==> exists j :: 0 <= j < |visits| && visits[j].hop.host != host
  {
    if visits != [] {
      LeftHostIs(visits[1..], host);
      assert forall j :: 1 <= j < |visits| ==> visits[j] == visits[1..][j - 1];
    }
  }

  lemma {:induction false} CredentialsGone(headers: seq<Header>)
    ensures WithoutCredentials(WithoutCredentials(headers)) == WithoutCredentials(headers)
    ensures forall h :: h in WithoutCredentials(headers) <==> h in headers && !IsCredential(h)
  {
    if headers != [] {
      CredentialsGone(headers[1..]);
      var rest := WithoutCredentials(headers[1..]);
      if IsCredential(headers[0]) {
        assert WithoutCredentials(headers) == rest;
      } else {
        assert WithoutCredentials(headers) == [headers[0]] + rest;
        assert WithoutCredentials(headers)[1..] == rest;
      }
    }
  }

  /** The headers of a request: the plugin's own while every hop so far was on the first host, and
      from the first other host on the same without credentials, in the same order. */
  lemma {:induction false} HeadersAt(whitelist: seq<string>, visits: seq<Visit>, k: nat)
    requires k < |visits| && Chained(LinkedBy(whitelist), visits)
    ensures var first := visits[0].hop;
            visits[k].hop.headers ==
              if LeftHost(visits[..k + 1], first.host) then WithoutCredentials(first.headers) else first.headers
  {
    TailOfPrefix(visits, k + 1);
    if k > 0 {
      LinkHeaders(whitelist, visits[0], visits[1].hop);
      HeadersAt(whitelist, visits[1..], k - 1);
      CredentialsGone(visits[0].hop.headers);
    }
  }

  /** Main theorem: a credential header travels only while every hop so far used the first host. */
  lemma CredentialsStayOnTheirHost(w: World, hop: Hop, k: nat, header: Header)
    requires k < |Sent(w, hop)| && Lower(header.0) in {"authorization", "cookie"}
    ensures var visits := Sent(w, hop);
            header in visits[k].hop.headers <==>
            header in hop.headers && forall j :: 0 <= j <= k ==> visits[j].hop.host == hop.host
  {
    var visits := Sent(w, hop);
    SentIsChained(w, hop);
    HeadersAt(w.whitelist, Sent(w, hop), k);
    LeftHostIs(visits[..k + 1], hop.host);
    CredentialsGone(hop.headers);
    assert forall j :: 0 <= j <= k ==> visits[..k + 1][j] == visits[j];
  }

  /** Everything but credentials is resent with every request. */
  lemma OtherHeadersAreKept(w: World, hop: Hop, k: nat, header: Header)
    requires k < |Sent(w, hop)| && Lower(header.0) !in {"authorization", "cookie"}
    ensures header in Sent(w, hop)[k].hop.headers <==> header in hop.headers
  {
    SentIsChained(w, hop);
    HeadersAt(w.whitelist, Sent(w, hop), k);
    CredentialsGone(hop.headers);
  }

  lemma {:induction false} EndingIsJudged(c: Course, hop: Hop, followed: nat)
    requires followed <= MAX_REDIRECTS && Ends(c)
    ensures var visits := Visits(c, hop, followed);
            var last := visits[|visits| - 1];
            |visits| <= MAX_REDIRECTS + 1 - followed &&
            c.judge(last.hop, last.reply, followed + |visits| - 1) == Stop(Ending(c, hop, followed))
    decreases MAX_REDIRECTS - followed
  {
    VisitsStep(c, hop, followed);
    match c.judge(hop, c.transport(followed, hop), followed)
    case Stop(_) =>
    case Follow(next) => EndingIsJudged(c, next, followed + 1);
  }

  /** The first header called `location`, in any case of letters. */
  ghost predicate Locates(headers: seq<Header>, location: string) {
    exists i :: 0 <= i < |headers| && Lower(headers[i].0) == "location" && headers[i].1 == location &&
                forall j :: 0 <= j < i ==> Lower(headers[j].0) != "location"
  }

  lemma {:induction false} LocationExactlyWhen(headers: seq<Header>)
    ensures LocationOf(headers).Some? ==> Locates(headers, LocationOf(headers).value)
    ensures LocationOf(headers).None? ==> forall i :: 0 <= i < |headers| ==> Lower(headers[i].0) != "location"
  {
    if headers != [] {
      var rest := headers[1..];
      LocationExactlyWhen(rest);
      assert forall i :: 0 <= i < |rest| ==> rest[i] == headers[i + 1];
      if IsLocation(headers[0]) {
        assert Lower(headers[0].0) == "location";
      } else if LocationOf(rest).Some? {
        var i :| 0 <= i < |rest| && Lower(rest[i].0) == "location" && rest[i].1 == LocationOf(rest).value &&
                 forall j :: 0 <= j < i ==> Lower(rest[j].0) != "location";
        assert Lower(headers[i + 1].0) == "location";
        forall j | 0 <= j < i + 1 ensures Lower(headers[j].0) != "location" {
          assert j > 0 ==> headers[j] == rest[j - 1];
        }
      }
    }
  }

  lemma {:induction false} SmallExactlyWhen(headers: seq<Header>)
    ensures SmallHeaders(headers) <==>
            forall i :: 0 <= i < |headers| ==> Utf8Size(headers[i].0) <= 128 && Utf8Size(headers[i].1) <= 8192
  {
    if headers != [] {
      SmallExactlyWhen(headers[1..]);
      assert forall i :: 1 <= i < |headers| ==> headers[i] == headers[1..][i - 1];
    }
  }

  /** An answer that asks to go elsewhere. */
  ghost predicate Redirecting(reply: Reply, location: string) {
    reply.Answered? && 300 <= reply.status <= 399 && Locates(reply.headers, location)
  }

  /** An answer within the limits on what is handed to the plugin. */
  ghost predicate Deliverable(reply: Reply) {
    && reply.Answered? && |reply.headers| <= 128 && |reply.body| <= 1048576
    && forall i :: 0 <= i < |reply.headers| ==>
         Utf8Size(reply.headers[i].0) <= 128 && Utf8Size(reply.headers[i].1) <= 8192
  }

  lemma RedirectingExactlyWhen(reply: Reply, location: string)
    ensures Redirecting(reply, location) <==> IsRedirect(reply) && LocationOf(reply.headers) == Some(location)
  {
    if reply.Answered? {
      LocationExactlyWhen(reply.headers);
    }
  }

  lemma DeliveredExactlyWhen(hop: Hop, reply: Reply)
    requires reply.Answered?
    ensures Deliver(hop, reply) ==
            if Deliverable(reply) then Delivered(reply, Some((hop.host, reply.status, |reply.body|)))
            else Rejected(-32004, None)
  {
    SmallExactlyWhen(reply.headers);
  }

  /** The place a redirect names. */
  ghost predicate LeadsTo(w: World, v: Visit, url: Url) {
    exists location :: Redirecting(v.reply, location) && w.join(v.hop.url, location) == Some(url)
  }

  /** A redirect is followed exactly when fewer than five were and its target resolves to a whitelisted
      place. */
  lemma FollowedExactlyWhen(w: World, hop: Hop, reply: Reply, followed: nat, next: Hop)
    ensures Decide(w.join, w.whitelist, hop, reply, followed) == Follow(next) <==>
            followed < 5 && LeadsTo(w, Visit(hop, reply), next.url) && Linked(w.whitelist, Visit(hop, reply), next)
  {
    forall location
      ensures Redirecting(reply, location) <==> IsRedirect(reply) && LocationOf(reply.headers) == Some(location)
    {
      RedirectingExactlyWhen(reply, location);
    }
  }

  /** How a request ends at an answer that is not followed. */
  ghost predicate EndsAt(w: World, hop: Hop, reply: Reply, followed: nat, outcome: Outcome) {
    if reply.Unanswered? then outcome == Rejected(-32004, Some((hop.host, 0, 0)))
    else if forall location :: !Redirecting(reply, location) then
      outcome == if Deliverable(reply) then Delivered(reply, Some((hop.host, reply.status, |reply.body|)))
                 else Rejected(-32004, None)
    else if followed >= 5 then outcome == Rejected(-32004, Some((hop.host, 0, 0)))
    else forall location :: Redirecting(reply, location) ==>
           outcome == Rejected(if w.join(hop.url, location).None? then -32004 else -32003, None)
  }

  lemma StoppedAs(w: World, hop: Hop, reply: Reply, followed: nat)
    requires Decide(w.join, w.whitelist, hop, reply, followed).Stop?
    ensures EndsAt(w, hop, reply, followed, Decide(w.join, w.whitelist, hop, reply, followed).outcome)
  {
    forall location
      ensures Redirecting(reply, location) <==> IsRedirect(reply) && LocationOf(reply.headers) == Some(location)
    {
      RedirectingExactlyWhen(reply, location);
    }
    if reply.Answered? {
      DeliveredExactlyWhen(hop, reply);
      assert IsRedirect(reply) && LocationOf(reply.headers).Some? ==>
               Redirecting(reply, LocationOf(reply.headers).value);
    }
  }

  lemma {:induction false} VisitAt(c: Course, hop: Hop, followed: nat, k: nat)
    requires followed <= MAX_REDIRECTS && Ends(c) && k < |Visits(c, hop, followed)|
    ensures var visits := Visits(c, hop, followed);
            && visits[k].reply == c.transport(followed + k, visits[k].hop)
            && match c.judge(visits[k].hop, visits[k].reply, followed + k)
               case Stop(outcome) => k == |visits| - 1 && outcome == Ending(c, hop, followed)
               case Follow(next) => k < |visits| - 1 && visits[k + 1].hop == next
    decreases k
  {
    VisitsStep(c, hop, followed);
    match c.judge(hop, c.transport(followed, hop), followed)
    case Stop(_) =>
    case Follow(next) =>
      if k > 0 {
        VisitAt(c, next, followed + 1, k - 1);
      }
  }

  /** Main theorem on the course of a request: every answer is the transport's to that request. It is
      followed exactly when it redirects, fewer than five did before and its target resolves to a
      whitelisted place, and then the next request goes there; otherwise it is the last one, and decides
      the outcome. */
  lemma CourseIsExact(w: World, first: Hop, k: nat)
    requires k < |Sent(w, first)|
    ensures var visits := Sent(w, first); var v := visits[k];
            && v.reply == w.transport(k, v.hop)
            && (k < |visits| - 1 ==>
                  var to := visits[k + 1].hop;
                  k < 5 && LeadsTo(w, v, to.url) && Whitelisted(to.url, to.host, to.port, w.whitelist))
            && (k == |visits| - 1 ==>
                  && EndsAt(w, v.hop, v.reply, k, Ending(CourseOf(w), first, 0))
                  && (k < 5 ==> forall url, host, port ::
                        LeadsTo(w, v, url) ==> !Whitelisted(url, host, port, w.whitelist)))
  {
    VisitAt(CourseOf(w), first, 0, k);
    var v := Sent(w, first)[k];
    if k < |Sent(w, first)| - 1 {
      FollowedExactlyWhen(w, v.hop, v.reply, k, Sent(w, first)[k + 1].hop);
    } else {
      StoppedAs(w, v.hop, v.reply, k);
      NowhereToGo(w, v, k);
    }
  }

  lemma NowhereToGo(w: World, v: Visit, followed: nat)
    requires followed < 5 ==> Decide(w.join, w.whitelist, v.hop, v.reply, followed).Stop?
    ensures followed < 5 ==>
              forall url, host, port :: LeadsTo(w, v, url) ==> !Whitelisted(url, host, port, w.whitelist)
  {
    forall url, host, port | followed < 5 && LeadsTo(w, v, url)
      ensures !Whitelisted(url, host, port, w.whitelist)
    {
      FollowedExactlyWhen(w, v.hop, v.reply, followed, Redirected(v.hop, v.reply.status, url, host, port));
    }
  }

  /** A sixth answer that still redirects ends the request without an answer, and is audited as failed. */
  lemma SixthRedirectIsRefused(w: World, hop: Hop)
    requires |Sent(w, hop)| == 6
    ensures var last := Sent(w, hop)[5];
            IsRedirect(last.reply) && LocationOf(last.reply.headers).Some? ==>
              Ending(CourseOf(w), hop, 0) == Rejected(FAILED, Some((last.hop.host, 0, 0)))
  {
    EndingIsJudged(CourseOf(w), hop, 0);
  }
}
