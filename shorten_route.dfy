/**
 * The decisions of `POST` and `GET` in app/api/shorten/route.ts. The
 * platform's `URL` constructor is the parameter `isUrl` (true when it
 * accepts the string); the deployment's base URL setting is `env` and the
 * request's origin is `origin`.
 */
module ShortenRoute {
  import opened Wrappers
  import opened Links
  import opened ShortCode
  import opened Registry
  import opened Storage

  /** The request body: its `url` and `alias` fields, or the message of the error that parsing it threw. */
  datatype Body = Unparsable(message: string) | Body(url: Option<string>, alias: Option<string>)

  datatype Response =
    | Failure(status: nat, error: string)
    | Shortened(shortUrl: string, shortCode: string, originalUrl: string, alias: Option<string>,
                createdAt: nat, baseUrl: string)
    | Listing(links: seq<LinkData>)

  const UrlRequired: string := "URL is required"
  const InvalidUrl: string := "Invalid URL format"
  const AliasLength: string := "Alias must be between 3 and 20 characters"
  const AliasCharset: string := "Alias can only contain letters, numbers, hyphens, and underscores"
  const CreateFailed: string := "Failed to create short link"

  predicate IsAliasChar(c: char)
  {
    IsAlphanumeric(c) || c == '_' || c == '-'
  }

  /** `/^[a-zA-Z0-9_-]+$/.test(s)`. */
  predicate MatchesAliasPattern(s: string)
  {
    |s| > 0 && forall i :: 0 <= i < |s| ==> IsAliasChar(s[i])
  }

  /** An alias the route lets through: none, or 3 to 20 characters of [a-zA-Z0-9_-]. */
  predicate AcceptableAlias(alias: Option<string>)
  {
    Given(alias) ==> 3 <= |alias.value| <= 20 && MatchesAliasPattern(alias.value)
  }

  /** The checks before `createLink`, in their order: the rejection, or None to go on. */
  function Validate(url: Option<string>, alias: Option<string>, isUrl: string -> bool): (r: Option<Response>)
    ensures r.None? <==> Given(url) && isUrl(url.value) && AcceptableAlias(alias)
    ensures r.Some? ==> r.value.Failure? && r.value.status == 400
  {
    if !Given(url) then Some(Failure(400, UrlRequired))
    else if !isUrl(url.value) then Some(Failure(400, InvalidUrl))
    else if Given(alias) && (|alias.value| < 3 || |alias.value| > 20) then Some(Failure(400, AliasLength))
    else if Given(alias) && !MatchesAliasPattern(alias.value) then Some(Failure(400, AliasCharset))
    else None
  }

  /** The `catch` block: the alias conflict is 409 with its message, anything else 500. */
  function ErrorResponse(message: string): Response
  {
    if message == AliasExistsMessage then Failure(409, message) else Failure(500, CreateFailed)
  }

  /** `process.env.NEXT_PUBLIC_BASE_URL || request.nextUrl.origin`. */
  function BaseUrl(env: Option<string>, origin: string): string
  {
    if Given(env) then env.value else origin
  }

  /** What the random source must supply for a request that reaches `createLink` without an alias. */
  predicate CanServe(st: Store, body: Body, isUrl: string -> bool, attempts: seq<seq<real>>)
  {
    && RandomSource(attempts)
    && (body.Body? && Validate(body.url, body.alias, isUrl).None? ==> CanCreate(st, body.alias, attempts))
  }

  /** The store after a `POST` and its response. */
  function PostOutcome(st: Store, body: Body, isUrl: string -> bool, env: Option<string>, origin: string,
                       now: nat, attempts: seq<seq<real>>): (out: (Store, Response))
    requires CanServe(st, body, isUrl, attempts)
    ensures out.1.Failure? || out.1.Shortened?
    ensures out.1.Shortened? <==>
      body.Body? && Validate(body.url, body.alias, isUrl).None? && !(Given(body.alias) && body.alias.value in st.aliasMap)
    ensures out.1.Failure? ==> out.0 == st
    ensures out.1.Failure? && out.1.status == 400 ==>
      body.Body? && Validate(body.url, body.alias, isUrl) == Some(out.1)
    ensures out.1.Shortened? ==>
      var r := out.1;
      && body.Body? && Given(body.url) && isUrl(body.url.value) && AcceptableAlias(body.alias)
      && r.baseUrl == BaseUrl(env, origin)
      && r.shortUrl == r.baseUrl + "/" + r.shortCode
      && r.originalUrl == body.url.value && r.alias == body.alias && r.createdAt == now
      && r.shortCode in out.0.links
      && out.0.links[r.shortCode].originalUrl == r.originalUrl
      && out.0.links[r.shortCode].createdAt == now
      && out.0.links[r.shortCode].clicks == 0
  {
    match body
    case Unparsable(message) => (st, ErrorResponse(message))
    case Body(url, alias) =>
      match Validate(url, alias, isUrl)
      case Some(rejection) => (st, rejection)
      case None =>
        var (st', created) := Create(st, url.value, alias, now, attempts);
        match created
        case Err(e) => (st', ErrorResponse(Message(e)))
        case Ok(linkData) =>
          var baseUrl := BaseUrl(env, origin);
          (st', Shortened(baseUrl + "/" + linkData.shortCode, linkData.shortCode, linkData.originalUrl,
                          linkData.alias, linkData.createdAt, baseUrl))
  }

  /** `POST /api/shorten`. */
  method Post(storage: LinkStorage, body: Body, isUrl: string -> bool, env: Option<string>, origin: string,
              now: nat, attempts: seq<seq<real>>) returns (response: Response)
    requires storage.Valid() && CanServe(storage.State(), body, isUrl, attempts)
    modifies storage
    ensures (storage.State(), response) == PostOutcome(old(storage.State()), body, isUrl, env, origin, now, attempts)
    ensures storage.Valid()
  {
    if body.Unparsable? {
      return ErrorResponse(body.message);
    }
    var url, alias := body.url, body.alias;
    if !Given(url) {
      return Failure(400, UrlRequired);
    }
    if !isUrl(url.value) {
      return Failure(400, InvalidUrl);
    }
    if Given(alias) {
      if |alias.value| < 3 || |alias.value| > 20 {
        return Failure(400, AliasLength);
      }
      if !MatchesAliasPattern(alias.value) {
        return Failure(400, AliasCharset);
      }
    }
    var created := storage.CreateLink(url.value, alias, now, attempts);
    if created.Err? {
      return ErrorResponse(Message(created.error));
    }
    var linkData := created.value;
    var baseUrl := BaseUrl(env, origin);
    var shortUrl := baseUrl + "/" + linkData.shortCode;
    response := Shortened(shortUrl, linkData.shortCode, linkData.originalUrl, linkData.alias, linkData.createdAt, baseUrl);
  }

  /** `GET /api/shorten`: every stored record, newest first. */
  method Get(storage: LinkStorage) returns (response: Response)
    requires storage.Valid()
    ensures response == Listing(AllLinks(storage.State()))
  {
    var links := storage.GetAllLinks();
    response := Listing(links);
  }

  /** A missing or empty `url` is refused first, whatever the alias. */
  lemma MissingUrlRejectedFirst(st: Store, url: Option<string>, alias: Option<string>, isUrl: string -> bool,
                                env: Option<string>, origin: string, now: nat, attempts: seq<seq<real>>)
    requires !Given(url) && RandomSource(attempts)
    ensures PostOutcome(st, Body(url, alias), isUrl, env, origin, now, attempts) == (st, Failure(400, UrlRequired))
  {
  }

  /** A `url` the URL parser refuses is rejected before the alias is looked at. */
  lemma MalformedUrlRejected(st: Store, url: string, alias: Option<string>, isUrl: string -> bool,
                             env: Option<string>, origin: string, now: nat, attempts: seq<seq<real>>)
    requires url != "" && !isUrl(url) && RandomSource(attempts)
    ensures PostOutcome(st, Body(Some(url), alias), isUrl, env, origin, now, attempts) == (st, Failure(400, InvalidUrl))
  {
  }

  /** The length of the alias is checked before its characters. */
  lemma AliasLengthCheckedFirst(st: Store, url: string, alias: string, isUrl: string -> bool,
                                env: Option<string>, origin: string, now: nat, attempts: seq<seq<real>>)
    requires url != "" && isUrl(url) && alias != "" && (|alias| < 3 || |alias| > 20) && RandomSource(attempts)
    ensures PostOutcome(st, Body(Some(url), Some(alias)), isUrl, env, origin, now, attempts)
      == (st, Failure(400, AliasLength))
  {
  }

  /** An alias of the right length with a character outside [a-zA-Z0-9_-] is rejected. */
  lemma AliasCharsetRejected(st: Store, url: string, alias: string, i: nat, isUrl: string -> bool,
                             env: Option<string>, origin: string, now: nat, attempts: seq<seq<real>>)
    requires url != "" && isUrl(url) && 3 <= |alias| <= 20 && i < |alias| && !IsAliasChar(alias[i])
    requires RandomSource(attempts)
    ensures PostOutcome(st, Body(Some(url), Some(alias)), isUrl, env, origin, now, attempts)
      == (st, Failure(400, AliasCharset))
  {
  }

  /** An acceptable alias that is already reserved gives 409 with the registry's message, and no change. */
  lemma TakenAliasIsConflict(st: Store, url: string, alias: string, isUrl: string -> bool,
                             env: Option<string>, origin: string, now: nat, attempts: seq<seq<real>>)
    requires url != "" && isUrl(url) && alias != "" && AcceptableAlias(Some(alias)) && alias in st.aliasMap
    requires RandomSource(attempts)
    ensures PostOutcome(st, Body(Some(url), Some(alias)), isUrl, env, origin, now, attempts)
      == (st, Failure(409, "Alias already exists"))
  {
  }

  /** A body that `request.json()` cannot parse reaches the `catch` block: 500, and no change. */
  lemma UnparsableBodyIsServerError(st: Store, m: string, isUrl: string -> bool,
                                    env: Option<string>, origin: string, now: nat, attempts: seq<seq<real>>)
    requires m != AliasExistsMessage && RandomSource(attempts)
    ensures PostOutcome(st, Unparsable(m), isUrl, env, origin, now, attempts) == (st, Failure(500, CreateFailed))
  {
  }

  /**
   * Every generated code passes the alias checks, and the registry checks
   * aliases against `aliasMap` only: a request that names the code of a
   * link created without an alias succeeds and points that short link at
   * its own URL.
   */
  lemma GeneratedCodeCanBeClaimed(st: Store, c: string, url: string, isUrl: string -> bool,
                                  env: Option<string>, origin: string, now: nat, attempts: seq<seq<real>>)
    requires Valid(st) && c in st.links && !Given(st.links[c].alias)
    requires url != "" && isUrl(url) && RandomSource(attempts)
    ensures var (st', r) := PostOutcome(st, Body(Some(url), Some(c)), isUrl, env, origin, now, attempts);
      && r.Shortened? && r.shortCode == c
      && st'.links[c].originalUrl == url && st'.links.Keys == st.links.Keys
  {
    assert IsShortCode(c);
    forall i | 0 <= i < |c| ensures IsAliasChar(c[i]) {
      assert IsAlphanumeric(c[i]);
    }
    assert AcceptableAlias(Some(c));
  }
}
