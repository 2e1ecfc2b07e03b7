/** The client side of the council (campaign) service: the requests the
    site's hooks build, the order of their guards, how each response is
    read, and which cached queries each successful change marks stale. */
module CouncilClient {
  import opened Results
  import opened Text
  import opened Http
  import opened Campaigns
  import JsParse

  /** The service's base URL and the key sent with every request; both come
      from the site's build configuration. */
  datatype Config = Config(apiUrl: string, apiKey: string)

  /** The part of the sign-in session the client reads. */
  datatype Session = Session(accessToken: Option<string>)

  /** `getAuthToken`: the session's access token, or "Not authenticated"
      without a session or with an empty token. */
  function AuthToken(session: Option<Session>): (r: Result<string, string>)
    ensures r.Ok? <==> session.Some? && session.value.accessToken.Some? && session.value.accessToken.value != ""
    ensures r.Ok? ==> r.value == session.value.accessToken.value && r.value != ""
    ensures r.Err? ==> r.error == "Not authenticated"
  {
    match session
    case None => Err("Not authenticated")
    case Some(s) =>
      match s.accessToken
      case Some(t) => if t != "" then Ok(t) else Err("Not authenticated")
      case None => Err("Not authenticated")
  }

  // ---------------------------------------------------------------------
  // Requests

  /** A campaign id as a query hook receives it: `number | null`. The hook
      refuses, and does not even run while, the id is missing or zero. */
  predicate HasCampaign(id: Option<int>) {
    id.Some? && id.value != 0
  }

  /** The JSON body of a request. */
  datatype Body = CreateBody(payload: CreatePayload) | PatchBody(patch: CampaignPatch) | NomineeBody(nomineeDiscordId: string)

  /** Everything the client decides about a request. `bearer` is the
      `Authorization: Bearer` token, when one is sent. */
  datatype Request = Request(verb: Method, url: string, apiKey: string, bearer: Option<string>, body: Option<Body>)

  /** The service calls the site makes. */
  datatype Call =
    | ListCampaigns(status: Option<string>, includeClosed: bool)
    | GetCampaign(campaignId: Option<int>)
    | GetNominees(campaignId: Option<int>)
    | GetMyNomination(campaignId: Option<int>)
    | GetMyVote(campaignId: Option<int>)
    | CreateCampaign(payload: CreatePayload)
    | UpdateCampaign(id: int, patch: CampaignPatch)
    | DeleteCampaign(id: int)
    | Nominate(id: int, nomineeDiscordId: string)
    | CastVote(id: int, nomineeDiscordId: string)

  /** The reads that refuse to run without a campaign id. */
  predicate NeedsCampaignId(c: Call) {
    c.GetCampaign? || c.GetNominees? || c.GetMyNomination? || c.GetMyVote?
  }

  /** The calls made on behalf of the signed-in member. */
  predicate NeedsToken(c: Call) {
    !(c.ListCampaigns? || c.GetCampaign? || c.GetNominees?)
  }

  /** A status filter is sent only when it is a non-empty string. */
  predicate HasStatus(status: Option<string>) {
    status.Some? && status.value != ""
  }

  /** `?status=…&include_closed=true`, each part only when asked for. */
  function QueryParts(status: Option<string>, includeClosed: bool): (r: seq<string>)
    ensures |r| == (if HasStatus(status) then 1 else 0) + (if includeClosed then 1 else 0)
    ensures HasStatus(status) ==> r[0] == "status=" + FormEncode(status.value)
    ensures includeClosed ==> r[|r| - 1] == "include_closed=true"
    ensures forall k :: 0 <= k < |r| ==> '&' !in r[k] && |r[k]| > 0
  {
    ClosedPairPlain();
    (if HasStatus(status) then [StatusPair(status.value)] else [])
    + (if includeClosed then ["include_closed=true"] else [])
  }

  /** The `status` pair of a query string. */
  function StatusPair(v: string): (r: string)
    ensures r == "status=" + FormEncode(v)
    ensures '&' !in r && |r| > 0
  {
    "status=" + FormEncodeNoAmpersand(v)
  }

  lemma ClosedPairPlain()
    ensures '&' !in "include_closed=true" && |"include_closed=true"| > 0
  {
  }

  /** A serialised value never holds the `&` that separates query pairs. */
  function FormEncodeNoAmpersand(s: string): (r: string)
    ensures r == FormEncode(s)
    ensures '&' !in r
  {
    var r := FormEncode(s);
    assert forall k :: 0 <= k < |r| ==> r[k] != '&';
    r
  }

  lemma JoinPair(x: string, y: string, sep: char)
    ensures Join([x, y], sep) == x + [sep] + y
  {
    assert [x, y][1..] == [y];
  }

  /** The list query string: the status pair before `include_closed`,
      each only when asked for. */
  lemma ListQueryShape(status: Option<string>, includeClosed: bool)
    ensures HasStatus(status) && includeClosed ==>
              Join(QueryParts(status, includeClosed), '&') == "status=" + FormEncode(status.value) + "&" + "include_closed=true"
    ensures HasStatus(status) && !includeClosed ==>
              Join(QueryParts(status, includeClosed), '&') == "status=" + FormEncode(status.value)
    ensures !HasStatus(status) && includeClosed ==> Join(QueryParts(status, includeClosed), '&') == "include_closed=true"
    ensures !HasStatus(status) && !includeClosed ==> Join(QueryParts(status, includeClosed), '&') == ""
  {
    if HasStatus(status) && includeClosed {
      var x := "status=" + FormEncode(status.value);
      assert QueryParts(status, includeClosed) == [x, "include_closed=true"];
      JoinPair(x, "include_closed=true", '&');
    }
  }

  /** The campaign list URL. */
  function ListUrl(apiUrl: string, status: Option<string>, includeClosed: bool): (r: string)
    ensures HasStatus(status) && includeClosed ==>
              r == apiUrl + "/council/campaigns" + ("?" + ("status=" + FormEncode(status.value) + "&" + "include_closed=true"))
    ensures HasStatus(status) && !includeClosed ==>
              r == apiUrl + "/council/campaigns" + ("?" + ("status=" + FormEncode(status.value)))
    ensures !HasStatus(status) && includeClosed ==> r == apiUrl + "/council/campaigns" + ("?" + "include_closed=true")
    ensures !HasStatus(status) && !includeClosed ==> r == apiUrl + "/council/campaigns"
  {
    var q := Join(QueryParts(status, includeClosed), '&');
    ListQueryShape(status, includeClosed);
    apiUrl + "/council/campaigns" + (if q != "" then "?" + q else "")
  }

  /** The query string splits back on `&` into exactly the pairs that were
      asked for, so a status value can never smuggle in another
      parameter. */
  lemma ListQueryParses(status: Option<string>, includeClosed: bool)
    requires |QueryParts(status, includeClosed)| > 0
    ensures Split(Join(QueryParts(status, includeClosed), '&'), '&') == QueryParts(status, includeClosed)
  {
    SplitJoin(QueryParts(status, includeClosed), '&');
  }

  /** A filter on one of the four phases travels verbatim. */
  lemma StatusFilterVerbatim(apiUrl: string, s: Status)
    ensures ListUrl(apiUrl, Some(StatusName(s)), false) == apiUrl + "/council/campaigns" + ("?" + ("status=" + StatusName(s)))
  {
    FormEncodeUnreserved(StatusName(s));
  }

  /** `/council/campaigns/<id>` followed by `tail`. */
  function CampaignUrl(apiUrl: string, id: int, tail: string): string {
    apiUrl + "/council/campaigns/" + (ShowInt(id) + tail)
  }

  /** The calls whose URL names one campaign. */
  predicate NamesCampaign(c: Call) {
    NeedsCampaignId(c) || c.UpdateCampaign? || c.DeleteCampaign? || c.Nominate? || c.CastVote?
  }

  /** The campaign a call names. */
  function TargetOf(c: Call): int
    requires NamesCampaign(c) && (NeedsCampaignId(c) ==> HasCampaign(c.campaignId))
  {
    if NeedsCampaignId(c) then c.campaignId.value else c.id
  }

  /** The path after the campaign id: empty for the campaign itself, else
      a `/`-prefixed endpoint. */
  function TailOf(c: Call): (r: string)
    ensures r == "" || r[0] == '/'
  {
    match c
    case GetNominees(_) => "/nominees"
    case GetMyNomination(_) => "/my-nomination"
    case GetMyVote(_) => "/my-vote"
    case Nominate(_, _) => "/nominate"
    case CastVote(_, _) => "/vote"
    case _ => ""
  }

  function MethodOf(c: Call): (r: Method)
    ensures r == Get <==> !NeedsToken(c) || c.GetMyNomination? || c.GetMyVote?
  {
    match c
    case CreateCampaign(_) => Post
    case UpdateCampaign(_, _) => Patch
    case DeleteCampaign(_) => Delete
    case Nominate(_, _) => Post
    case CastVote(_, _) => Post
    case _ => Get
  }

  /** The request URL; only called once a needed campaign id is known.
      Every URL lies under `/council/campaigns`: the list and create calls
      use it bare (the list with its query), the others add the campaign id
      and the endpoint. */
  function UrlOf(apiUrl: string, c: Call): (r: string)
    requires NeedsCampaignId(c) ==> HasCampaign(c.campaignId)
    ensures c.ListCampaigns? ==> r == ListUrl(apiUrl, c.status, c.includeClosed)
    ensures c.CreateCampaign? ==> r == apiUrl + "/council/campaigns"
    ensures NamesCampaign(c) ==> r == CampaignUrl(apiUrl, TargetOf(c), TailOf(c))
  {
    match c
    case ListCampaigns(status, includeClosed) => ListUrl(apiUrl, status, includeClosed)
    case GetCampaign(id) => CampaignUrl(apiUrl, id.value, "")
    case GetNominees(id) => CampaignUrl(apiUrl, id.value, "/nominees")
    case GetMyNomination(id) => CampaignUrl(apiUrl, id.value, "/my-nomination")
    case GetMyVote(id) => CampaignUrl(apiUrl, id.value, "/my-vote")
    case CreateCampaign(_) => apiUrl + "/council/campaigns"
    case UpdateCampaign(id, _) => CampaignUrl(apiUrl, id, "")
    case DeleteCampaign(id) => CampaignUrl(apiUrl, id, "")
    case Nominate(id, _) => CampaignUrl(apiUrl, id, "/nominate")
    case CastVote(id, _) => CampaignUrl(apiUrl, id, "/vote")
  }

  /** The longest prefix of `s` without a `/`. */
  function UpToSlash(s: string): (r: string)
    ensures '/' !in r
  {
    if |s| == 0 || s[0] == '/' then "" else [s[0]] + UpToSlash(s[1..])
  }

  lemma {:induction false} UpToSlashOf(x: string, t: string)
    requires '/' !in x && (t == "" || t[0] == '/')
    ensures UpToSlash(x + t) == x
  {
    if |x| == 0 {
      assert x + t == t;
    } else {
      assert (x + t)[0] == x[0];
      assert (x + t)[1..] == x[1..] + t;
      UpToSlashOf(x[1..], t);
    }
  }

  /** The decimal rendering of an id never holds a `/`. */
  lemma NoSlashInId(n: int)
    ensures '/' !in ShowInt(n)
  {
    var d := ShowNat(if n < 0 then -n else n);
    assert forall i :: 0 <= i < |d| ==> d[i] != '/';
  }

  /** An id followed by an endpoint splits back into the two. */
  lemma SlashSplit(x: string, s: string, y: string, t: string)
    requires '/' !in x && '/' !in y
    requires s == "" || s[0] == '/'
    requires t == "" || t[0] == '/'
    requires x + s == y + t
    ensures x == y && s == t
  {
    UpToSlashOf(x, s);
    UpToSlashOf(y, t);
    assert s == (x + s)[|x|..];
    assert t == (y + t)[|y|..];
  }

  /** An id and endpoint after a common prefix read back uniquely. */
  lemma PrefixedIdIdentifies(p: string, a: int, s: string, b: int, t: string)
    requires s == "" || s[0] == '/'
    requires t == "" || t[0] == '/'
    requires p + (ShowInt(a) + s) == p + (ShowInt(b) + t)
    ensures a == b && s == t
  {
    var u, v := ShowInt(a) + s, ShowInt(b) + t;
    assert u == (p + u)[|p|..] == (p + v)[|p|..] == v;
    NoSlashInId(a);
    NoSlashInId(b);
    SlashSplit(ShowInt(a), s, ShowInt(b), t);
    JsParse.ShowIntInjective(a, b);
  }

  /** A campaign URL names its campaign and endpoint: two of them agree
      exactly when they carry the same id and the same endpoint, so the
      service reads back the id the call was made for. */
  lemma CampaignUrlIdentifies(apiUrl: string, a: int, s: string, b: int, t: string)
    requires s == "" || s[0] == '/'
    requires t == "" || t[0] == '/'
    ensures CampaignUrl(apiUrl, a, s) == CampaignUrl(apiUrl, b, t) <==> a == b && s == t
  {
    if CampaignUrl(apiUrl, a, s) == CampaignUrl(apiUrl, b, t) {
      PrefixedIdIdentifies(apiUrl + "/council/campaigns/", a, s, b, t);
    }
  }

  /** Two calls that name a campaign go to the same method and URL exactly
      when they are the same kind of call on the same campaign. */
  lemma UrlIdentifiesCall(apiUrl: string, c: Call, d: Call)
    requires NamesCampaign(c) && (NeedsCampaignId(c) ==> HasCampaign(c.campaignId))
    requires NamesCampaign(d) && (NeedsCampaignId(d) ==> HasCampaign(d.campaignId))
    ensures MethodOf(c) == MethodOf(d) && UrlOf(apiUrl, c) == UrlOf(apiUrl, d) <==>
              SameKind(c, d) && TargetOf(c) == TargetOf(d)
  {
    CampaignUrlIdentifies(apiUrl, TargetOf(c), TailOf(c), TargetOf(d), TailOf(d));
    EndpointNamesKind(c, d);
  }

  /** Method and endpoint together tell the campaign calls apart. */
  lemma EndpointNamesKind(c: Call, d: Call)
    requires NamesCampaign(c) && NamesCampaign(d)
    ensures MethodOf(c) == MethodOf(d) && TailOf(c) == TailOf(d) <==> SameKind(c, d)
  {
    if MethodOf(c) == MethodOf(d) && TailOf(c) == TailOf(d) {
      assert |TailOf(c)| == |TailOf(d)|;
    }
  }

  /** `c` and `d` are built by the same constructor. */
  predicate SameKind(c: Call, d: Call) {
    && c.ListCampaigns? == d.ListCampaigns? && c.GetCampaign? == d.GetCampaign?
    && c.GetNominees? == d.GetNominees? && c.GetMyNomination? == d.GetMyNomination?
    && c.GetMyVote? == d.GetMyVote? && c.CreateCampaign? == d.CreateCampaign?
    && c.UpdateCampaign? == d.UpdateCampaign? && c.DeleteCampaign? == d.DeleteCampaign?
    && c.Nominate? == d.Nominate? && c.CastVote? == d.CastVote?
  }

  function BodyOf(c: Call): (r: Option<Body>)
    ensures r.Some? <==> c.CreateCampaign? || c.UpdateCampaign? || c.Nominate? || c.CastVote?
  {
    match c
    case CreateCampaign(p) => Some(CreateBody(p))
    case UpdateCampaign(_, p) => Some(PatchBody(p))
    case Nominate(_, n) => Some(NomineeBody(n))
    case CastVote(_, n) => Some(NomineeBody(n))
    case _ => None
  }

  /** Everything a hook does before `fetch`: first the campaign id check,
      then the token, then the request itself. */
  function Prepare(cfg: Config, session: Option<Session>, c: Call): (r: Result<Request, string>)
    ensures NeedsCampaignId(c) && !HasCampaign(c.campaignId) ==> r == Err("No campaign ID")
    ensures (!NeedsCampaignId(c) || HasCampaign(c.campaignId)) && NeedsToken(c) && AuthToken(session).Err? ==>
              r == Err("Not authenticated")
    ensures r.Err? ==> (NeedsCampaignId(c) && !HasCampaign(c.campaignId))
                       || (NeedsToken(c) && AuthToken(session).Err?)
    ensures r.Ok? ==> && r.value.url == UrlOf(cfg.apiUrl, c)
                      && r.value.apiKey == cfg.apiKey
                      && r.value.verb == MethodOf(c)
                      && r.value.body == BodyOf(c)
                      && (r.value.bearer.Some? <==> NeedsToken(c))
                      && (r.value.bearer.Some? ==> r.value.bearer == Some(AuthToken(session).value))
  {
    if NeedsCampaignId(c) && !HasCampaign(c.campaignId) then Err("No campaign ID")
    else if NeedsToken(c) then
      match AuthToken(session)
      case Err(e) => Err(e)
      case Ok(token) => Ok(Request(MethodOf(c), UrlOf(cfg.apiUrl, c), cfg.apiKey, Some(token), BodyOf(c)))
    else Ok(Request(MethodOf(c), UrlOf(cfg.apiUrl, c), cfg.apiKey, None, BodyOf(c)))
  }

  /** The `enabled` flag of a query hook: the campaign list always runs,
      and a per-campaign query runs only once its id is known and non-zero. */
  function QueryEnabled(c: Call): (r: bool)
    requires !NeedsToken(c) || c.GetMyNomination? || c.GetMyVote?
    ensures c.ListCampaigns? ==> r
    ensures NeedsCampaignId(c) ==> (r <==> c.campaignId.Some? && c.campaignId.value != 0)
  {
    !NeedsCampaignId(c) || HasCampaign(c.campaignId)
  }

  /** A disabled query would only fail with "No campaign ID"; an enabled
      one fails only for want of a session, and public reads never fail
      before the request. */
  lemma EnabledQueriesReachService(cfg: Config, session: Option<Session>, c: Call)
    requires !NeedsToken(c) || c.GetMyNomination? || c.GetMyVote?
    ensures !QueryEnabled(c) ==> Prepare(cfg, session, c) == Err("No campaign ID")
    ensures QueryEnabled(c) && !NeedsToken(c) ==> Prepare(cfg, session, c).Ok?
    ensures QueryEnabled(c) && NeedsToken(c) ==> (Prepare(cfg, session, c).Ok? <==> AuthToken(session).Ok?)
  {
  }

  /** The public reads never depend on who is signed in. */
  lemma PublicReadsIgnoreSession(cfg: Config, s1: Option<Session>, s2: Option<Session>, c: Call)
    requires !NeedsToken(c)
    ensures Prepare(cfg, s1, c) == Prepare(cfg, s2, c)
  {
  }

  /** A member call with a campaign id reaches the service exactly when the
      member is signed in, and then carries their token. */
  lemma MemberCallsCarryToken(cfg: Config, session: Option<Session>, c: Call)
    requires NeedsToken(c) && (NeedsCampaignId(c) ==> HasCampaign(c.campaignId))
    ensures Prepare(cfg, session, c).Ok? <==> AuthToken(session).Ok?
    ensures Prepare(cfg, session, c).Ok? ==>
              Prepare(cfg, session, c).value.bearer == Some(session.value.accessToken.value)
  {
  }

  // ---------------------------------------------------------------------
  // Responses

  /** A failed read of a public resource: "Failed to fetch <what>: <status>". */
  function ReadResponse<B>(what: string, response: Response<B>): (r: Result<B, string>)
    ensures r.Ok? <==> IsOk(response.status)
    ensures r.Ok? ==> r.value == response.body
    ensures r.Err? ==> r.error == "Failed to fetch " + what + ": " + ShowInt(response.status)
  {
    if IsOk(response.status) then Ok(response.body)
    else Err("Failed to fetch " + what + ": " + ShowInt(response.status))
  }

  /** Reading the member's own nomination or vote (`what` is "nomination"
      or "vote"): a 404 means there is none, any other failure is an
      error. */
  function ReadOwnRecord<B>(what: string, response: Response<Option<B>>): (r: Result<Option<B>, string>)
    ensures response.status == 404 ==> r == Ok(None)
    ensures IsOk(response.status) ==> r == Ok(response.body)
    ensures r.Err? <==> !IsOk(response.status) && response.status != 404
    ensures r.Err? ==> r.error == "Failed to fetch " + what + ": " + ShowInt(response.status)
  {
    if IsOk(response.status) then Ok(response.body)
    else if response.status == 404 then Ok(None)
    else Err("Failed to fetch " + what + ": " + ShowInt(response.status))
  }

  /** The body of a failed change request: JSON with an optional string
      `message`, or text that is not JSON. */
  datatype ErrorBody = Json(message: Option<string>) | NotJson(text: string)

  /** Why a change request failed: a message for the user, or the parse
      error `response.json()` throws on an error body that is not JSON. */
  datatype ChangeError = Failed(message: string) | UnreadableErrorBody

  /** The calls that change something on the service. */
  predicate IsChange(c: Call) {
    c.CreateCampaign? || c.UpdateCampaign? || c.DeleteCampaign? || c.Nominate? || c.CastVote?
  }

  /** The verb that names a change in its fallback message. */
  function FallbackMessage(c: Call, status: nat): string
    requires IsChange(c)
  {
    var what := match c
      case CreateCampaign(_) => "create campaign"
      case UpdateCampaign(_, _) => "update campaign"
      case DeleteCampaign(_) => "delete campaign"
      case Nominate(_, _) => "nominate user"
      case CastVote(_, _) => "vote";
    "Failed to " + what + ": " + ShowInt(status)
  }

  /** A change request that failed with `status` and `body`. Creating
      reads the body as text and treats text that is not JSON as the
      message itself; the other changes parse JSON directly. Either way a
      missing or empty message gives way to the fallback. */
  function ChangeFailure(c: Call, status: nat, body: ErrorBody): (r: ChangeError)
    requires IsChange(c)
    ensures r.UnreadableErrorBody? <==> body.NotJson? && !c.CreateCampaign?
    ensures body.Json? && body.message.Some? && body.message.value != "" ==> r == Failed(body.message.value)
    ensures body.Json? && (body.message.None? || body.message.value == "") ==> r == Failed(FallbackMessage(c, status))
    ensures c.CreateCampaign? && body.NotJson? ==>
              r == Failed(if body.text != "" then body.text else FallbackMessage(c, status))
    ensures r.Failed? ==> r.message != ""
  {
    var message := match body
      case Json(m) => m
      case NotJson(t) => Some(t);
    if body.NotJson? && !c.CreateCampaign? then UnreadableErrorBody
    else if message.Some? && message.value != "" then Failed(message.value)
    else Failed(FallbackMessage(c, status))
  }

  // ---------------------------------------------------------------------
  // Cached queries

  /** The first element of each query key; `Spelling` gives the string the
      hooks use. */
  datatype Family = CouncilCampaigns | CouncilCampaign | CouncilNominees | MyNominationFamily | MyVoteFamily

  function Spelling(f: Family): (r: string)
    ensures |r| > 0
  {
    match f
    case CouncilCampaigns => "council-campaigns"
    case CouncilCampaign => "council-campaign"
    case CouncilNominees => "council-nominees"
    case MyNominationFamily => "my-nomination"
    case MyVoteFamily => "my-vote"
  }

  /** Distinct families are spelled differently, so modelling them as
      constructors loses nothing. */
  lemma SpellingsDistinct(f: Family, g: Family)
    ensures Spelling(f) == Spelling(g) <==> f == g
  {
    if f != g {
      assert Spelling(f)[|Spelling(f)| - 1] != Spelling(g)[|Spelling(g)| - 1]
          || Spelling(f)[3] != Spelling(g)[3] || |Spelling(f)| != |Spelling(g)|;
    }
  }

  /** One element of a query key. */
  datatype KeyPart = Name(family: Family) | Id(id: int) | Null | Options(status: Option<string>, includeClosed: bool) | NoOptions

  /** The key each hook caches its result under. */
  function KeyOf(c: Call): (r: seq<KeyPart>)
    requires !NeedsToken(c) || c.GetMyNomination? || c.GetMyVote?
    ensures |r| == 2 && r[0].Name?
  {
    match c
    case ListCampaigns(status, includeClosed) =>
      [Name(CouncilCampaigns), if status.None? && !includeClosed then NoOptions else Options(status, includeClosed)]
    case GetCampaign(id) => [Name(CouncilCampaign), IdPart(id)]
    case GetNominees(id) => [Name(CouncilNominees), IdPart(id)]
    case GetMyNomination(id) => [Name(MyNominationFamily), IdPart(id)]
    case GetMyVote(id) => [Name(MyVoteFamily), IdPart(id)]
  }

  function IdPart(id: Option<int>): KeyPart {
    match id case Some(n) => Id(n) case None => Null
  }

  /** The keys a successful change invalidates, as prefixes. Only the five
      changes invalidate anything, and every prefix starts with a family
      name and has at most the id after it. */
  function InvalidatedPrefixes(c: Call): (r: seq<seq<KeyPart>>)
    ensures |r| > 0 <==> IsChange(c)
    ensures forall k :: 0 <= k < |r| ==> 1 <= |r[k]| <= 2 && r[k][0].Name?
  {
    match c
    case CreateCampaign(_) => [[Name(CouncilCampaigns)]]
    case UpdateCampaign(id, _) => [[Name(CouncilCampaigns)], [Name(CouncilCampaign), Id(id)]]
    case DeleteCampaign(_) => [[Name(CouncilCampaigns)]]
    case Nominate(id, _) => [[Name(CouncilNominees), Id(id)], [Name(MyNominationFamily), Id(id)]]
    case CastVote(id, _) => [[Name(CouncilNominees), Id(id)], [Name(MyVoteFamily), Id(id)]]
    case _ => []
  }

  /** React Query's partial key match: every element of the filter equals
      the key's element at the same position. */
  predicate KeyMatches(filter: seq<KeyPart>, key: seq<KeyPart>) {
    |filter| == 0 || (|key| > 0 && filter[0] == key[0] && KeyMatches(filter[1..], key[1..]))
  }

  /** Some filter in the list matches the key. */
  predicate AnyMatches(filters: seq<seq<KeyPart>>, key: seq<KeyPart>) {
    |filters| > 0 && (KeyMatches(filters[0], key) || AnyMatches(filters[1..], key))
  }

  /** A cached query is marked stale when one of the change's filters
      matches its key. */
  predicate Invalidates(change: Call, query: Call)
    requires !NeedsToken(query) || query.GetMyNomination? || query.GetMyVote?
  {
    AnyMatches(InvalidatedPrefixes(change), KeyOf(query))
  }

  /** Against a two-element key, a filter of one element matches on the
      family alone and a filter of two elements must equal the key. */
  lemma KeyMatchesTwo(filter: seq<KeyPart>, key: seq<KeyPart>)
    requires |key| == 2 && 1 <= |filter| <= 2
    ensures KeyMatches(filter, key) <==> if |filter| == 1 then filter[0] == key[0] else filter == key
  {
    assert KeyMatches(filter[1..], key[1..]) <==> |filter| == 1 || (filter[1] == key[1] && KeyMatches(filter[2..], key[2..]));
    if |filter| == 2 && filter[0] == key[0] && filter[1] == key[1] {
      assert filter == [filter[0], filter[1]] && key == [key[0], key[1]];
    }
  }

  /** Whether a filter of one or two elements matches a two-element key. */
  predicate Hits(filter: seq<KeyPart>, key: seq<KeyPart>) {
    if |filter| == 1 then |key| > 0 && filter[0] == key[0] else filter == key
  }

  /** What a change invalidates, filter by filter. */
  lemma InvalidatesUnfold(change: Call, query: Call)
    requires !NeedsToken(query) || query.GetMyNomination? || query.GetMyVote?
    ensures var ps := InvalidatedPrefixes(change);
            && (|ps| == 0 ==> !Invalidates(change, query))
            && (|ps| == 1 ==> (Invalidates(change, query) <==> Hits(ps[0], KeyOf(query))))
            && (|ps| == 2 ==> (Invalidates(change, query) <==> Hits(ps[0], KeyOf(query)) || Hits(ps[1], KeyOf(query))))
  {
    var ps := InvalidatedPrefixes(change);
    var key := KeyOf(query);
    if |ps| >= 1 {
      KeyMatchesTwo(ps[0], key);
      assert AnyMatches(ps, key) <==> KeyMatches(ps[0], key) || AnyMatches(ps[1..], key);
      if |ps| == 2 {
        KeyMatchesTwo(ps[1], key);
        assert ps[1..][0] == ps[1] && ps[1..][1..] == [];
        assert AnyMatches(ps[1..], key) <==> KeyMatches(ps[1], key);
      } else {
        assert ps[1..] == [];
      }
    }
  }

  /** Creating or deleting a campaign refreshes every campaign list,
      whatever its filters, and nothing else. */
  lemma CreateDeleteRefreshLists(change: Call, query: Call)
    requires change.CreateCampaign? || change.DeleteCampaign?
    requires !NeedsToken(query) || query.GetMyNomination? || query.GetMyVote?
    ensures Invalidates(change, query) <==> query.ListCampaigns?
  {
    InvalidatesUnfold(change, query);
  }

  /** Updating a campaign refreshes the lists and that campaign's own
      details, and nothing else. */
  lemma UpdateRefreshes(id: int, patch: CampaignPatch, query: Call)
    requires !NeedsToken(query) || query.GetMyNomination? || query.GetMyVote?
    ensures Invalidates(UpdateCampaign(id, patch), query) <==>
              query.ListCampaigns? || query == GetCampaign(Some(id))
  {
    InvalidatesUnfold(UpdateCampaign(id, patch), query);
  }

  /** A nomination refreshes the nominee tally and the member's own
      nomination of that campaign, and nothing else. */
  lemma NominateRefreshes(id: int, nominee: string, query: Call)
    requires !NeedsToken(query) || query.GetMyNomination? || query.GetMyVote?
    ensures Invalidates(Nominate(id, nominee), query) <==>
              query == GetNominees(Some(id)) || query == GetMyNomination(Some(id))
  {
    InvalidatesUnfold(Nominate(id, nominee), query);
  }

  /** A vote refreshes the nominee tally and the member's own vote of that
      campaign, and nothing else. */
  lemma VoteRefreshes(id: int, nominee: string, query: Call)
    requires !NeedsToken(query) || query.GetMyNomination? || query.GetMyVote?
    ensures Invalidates(CastVote(id, nominee), query) <==>
              query == GetNominees(Some(id)) || query == GetMyVote(Some(id))
  {
    InvalidatesUnfold(CastVote(id, nominee), query);
  }
}
