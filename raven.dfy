/**
 * The Raven (Cambridge Web Login Service) client: `Raven#authenticate` and
 * its three stages, in the order it tries them:
 *   1. a cached, unexpired principal in the session;
 *   2. verification of a `WLS-Response` the provider sent back;
 *   3. a new authentication request, issued as a redirect.
 * The session is a string-to-string store with the keys `principal`,
 * `expires`, `request_id` and `stored_parameters`. The clock, the random
 * request id and the library calls (Time.gm, URL escaping, base64, RSA/SHA-1
 * verification, YAML) are inputs.
 */
module Raven {
  import opened Wrappers
  import opened RubyString
  import opened Rfc3339
  import opened WlsResponse

  const DefaultPublicKeyId := "2"
  const DefaultMaxSkew := 90
  const ResponseParam := "WLS-Response"
  const Yes := "yes"
  const Success := "200"
  /** `rand(999999)` draws a request id below this bound. */
  const RequestIdBound := 999999

  const PrincipalKey := "principal"
  const ExpiresKey := "expires"
  const RequestIdKey := "request_id"
  const StoredParametersKey := "stored_parameters"

  /** A public key of the provider; only `Externals.verify` looks inside it. */
  datatype PublicKey = PublicKey(material: string)

  /** The request parameters of a CGI request: every name maps to its values. */
  type Params = map<string, seq<string>>

  /** Library code and the calendar, none of which this model interprets. */
  datatype Externals = Externals(
    gm: CivilTime -> Option<int>,               // Time.gm in seconds; None when it raises
    escape: string -> string,                   // CGI.escape
    unescape: string -> string,                 // CGI.unescape
    decode64: string -> string,                 // Base64::decode64
    verify: (PublicKey, string, string) -> bool, // key.verify(SHA1, signature, signed text)
    dumpParams: Params -> string,               // params.to_yaml
    loadParams: Option<string> -> Option<Params>) // YAML::load, None when it raises

  /** The attributes of a `Raven` object. */
  datatype Settings = Settings(
    ravenUrl: string,
    ravenVersion: string,
    maxSkew: int,
    publicKey: map<string, PublicKey>,
    returnUrl: string,
    description: string,
    message: string,
    aauth: seq<string>,
    iact: string,
    matchResponseAndRequest: bool,
    fail: string)

  /**
   * The attributes `initialize` sets. `loadedKey` is the key read from the
   * default key file, None when loading it failed; `returnUrl` is the
   * application's own address.
   */
  function Defaults(loadedKey: Option<PublicKey>, returnUrl: string): (s: Settings)
    ensures s.publicKey.Keys <= {DefaultPublicKeyId}
    ensures DefaultPublicKeyId in s.publicKey <==> loadedKey.Some?
    ensures loadedKey.Some? ==> s.publicKey[DefaultPublicKeyId] == loadedKey.value
    ensures s.ravenUrl == "https://raven.cam.ac.uk/auth/authenticate.html" && s.returnUrl == returnUrl
    ensures s.description == "There is no description for this website" && s.message == "No reason has been given"
    ensures s.ravenVersion == "1" && s.maxSkew == DefaultMaxSkew
    ensures s.matchResponseAndRequest && s.iact == "" && s.fail == "" && s.aauth == []
  {
    Settings(
      ravenUrl := "https://raven.cam.ac.uk/auth/authenticate.html",
      ravenVersion := "1",
      maxSkew := DefaultMaxSkew,
      publicKey := if loadedKey.Some? then map[DefaultPublicKeyId := loadedKey.value] else map[],
      returnUrl := returnUrl,
      description := "There is no description for this website",
      message := "No reason has been given",
      aauth := [],
      iact := "",
      matchResponseAndRequest := true,
      fail := "")
  }

  /** What `authenticate` hands back: a principal, an error code, nil after a redirect, or an exception. */
  datatype Outcome =
    | Principal(name: string)
    | Code(code: int)
    | Redirect(location: string)
    | Raised

  /** The result of checking a signed response. */
  datatype Verdict =
    | Accept(principal: string, expires: int)
    | Reject(code: int)
    | Raise

  function OutcomeOf(v: Verdict): (o: Outcome)
    ensures !o.Redirect?
  {
    match v
    case Accept(p, _) => Principal(p)
    case Reject(c) => Code(c)
    case Raise => Raised
  }

  function Lookup(data: map<string, string>, key: string): Option<string>
  {
    if key in data then Some(data[key]) else None
  }

  function Abs(n: int): nat
  {
    if n < 0 then -n else n
  }

  /** `cgi[name]`: the first value of a parameter, "" when there is none. */
  function FirstValue(params: Params, name: string): string
  {
    if name in params && |params[name]| > 0 then params[name][0] else ""
  }

  function Concat(values: seq<string>): string
  {
    if |values| == 0 then "" else values[0] + Concat(values[1..])
  }

  /** `cgi.params['WLS-Response'].to_s`: Ruby 1.8 joins all the values. */
  function ResponseText(params: Params): string
  {
    if ResponseParam in params then Concat(params[ResponseParam]) else ""
  }

  /** Stage 1, `check_session`: the cached principal while it has not expired. */
  function CheckSession(data: map<string, string>, iact: string, now: int): Option<string>
  {
    if iact == Yes then None
    else if PrincipalKey in data && ExpiresKey in data && ToI(data[ExpiresKey]) > now then Some(data[PrincipalKey])
    else None
  }

  /** The request parameters after stage 2 tried to restore the stored ones. */
  function Restored(x: Externals, data: map<string, string>, params: Params): Params
  {
    match x.loadParams(Lookup(data, StoredParametersKey))
    case Some(p) => p
    case None => params
  }

  /**
   * Stage 2, `check_response_from_raven`, on a present response `raw`: the
   * checks in the source's order, the first failing one deciding the code.
   */
  function Decide(s: Settings, x: Externals, data: map<string, string>, r: Parsed, raw: string, iact: string,
                  now: int): Verdict
  {
    if r.ver != Some(s.ravenVersion) then Reject(520)
    else if r.url != Some(s.returnUrl) then Reject(570)
    else if r.issue.None? then Raise
    else match x.gm(TimeFields(r.issue.value))
      case None => Raise
      case Some(issued) => DecideIssued(s, x, data, r, raw, iact, now, issued)
  }

  /** The checks of stage 2 that follow reading the issue time `issued`. */
  function DecideIssued(s: Settings, x: Externals, data: map<string, string>, r: Parsed, raw: string,
                        iact: string, now: int, issued: int): Verdict
  {
    if Abs(issued - now) >= s.maxSkew then Reject(550)
    else if iact == Yes && r.auth == Some("") then Reject(540)
    else if s.matchResponseAndRequest && r.params.None? then Raise
    else if s.matchResponseAndRequest && Lookup(data, RequestIdKey) != Some(x.unescape(r.params.value)) then Reject(570)
    else if r.status != Some(Success) then Reject(NilToI(r.status))
    else SignatureVerdict(s, x, r, raw, now)
  }

  /** The `status == '200'` branch: key lookup, signature check, then the principal. */
  function SignatureVerdict(s: Settings, x: Externals, r: Parsed, raw: string, now: int): Verdict
  {
    if r.kid.None? then Raise
    else if x.unescape(r.kid.value) !in s.publicKey then Reject(560)
    else if r.sig.None? then Raise
    else if !x.verify(s.publicKey[x.unescape(r.kid.value)],
                      x.decode64(SignatureToBase64(r.sig.value)),
                      SignedPart(raw, r.kid.value, r.sig.value)) then Reject(560)
    else Accept(r.principal.value, now + ToI(r.life.value))
  }

  /** The session after stage 2: only an accepted response writes to it. */
  function Commit(data: map<string, string>, v: Verdict): map<string, string>
  {
    match v
    case Accept(p, e) => data[PrincipalKey := p][ExpiresKey := IntToS(e)]
    case _ => data
  }

  /** The session after stage 3 stored the parameters and the request id. */
  function IssueRequest(x: Externals, data: map<string, string>, params: Params, nonce: int): map<string, string>
  {
    data[StoredParametersKey := x.dumpParams(params)][RequestIdKey := IntToS(nonce)]
  }

  /** The query names of a request to the provider, in the order they are sent. */
  const QueryNames := ["ver", "url", "desc", "msg", "iact", "aauth", "params", "fail"]

  /** The unescaped values of the query, one for each name of `QueryNames`. */
  function QueryValues(s: Settings, message: string, iact: string, requestId: string): (v: seq<string>)
    ensures |v| == |QueryNames|
  {
    [s.ravenVersion, s.returnUrl, s.description, message, iact, Join(s.aauth, ','), requestId, s.fail]
  }

  /** The `name=value` pairs of the redirect query, in the order the provider expects. */
  function QueryPairs(s: Settings, x: Externals, message: string, iact: string, requestId: string): (q: seq<string>)
    ensures |q| == |QueryNames|
  {
    var v := QueryValues(s, message, iact, requestId);
    seq(|QueryNames|, i requires 0 <= i < |QueryNames| => QueryNames[i] + "=" + x.escape(v[i]))
  }

  /** The address stage 3 redirects to. */
  function RedirectLocation(s: Settings, x: Externals, message: string, iact: string, requestId: string): string
  {
    s.ravenUrl + "?ver=" + x.escape(s.ravenVersion) + ";url=" + x.escape(s.returnUrl) +
    ";desc=" + x.escape(s.description) + ";msg=" + x.escape(message) +
    ";iact=" + x.escape(iact) + ";aauth=" + x.escape(Join(s.aauth, ',')) +
    ";params=" + x.escape(requestId) + ";fail=" + x.escape(s.fail)
  }

  /** What one call of `authenticate` returns and leaves behind. */
  datatype Effect = Effect(outcome: Outcome, session: map<string, string>, params: Params)

  /** `authenticate`: the first stage with something to say decides. */
  function Authentication(s: Settings, x: Externals, params: Params, data: map<string, string>,
                          message: string, iact: string, now: int, nonce: int): Effect
  {
    match CheckSession(data, iact, now)
    case Some(p) => Effect(Principal(p), data, params)
    case None =>
      if FirstValue(params, ResponseParam) != "" then
        var raw := ResponseText(params);
        var v := Decide(s, x, data, Parse(raw), raw, iact, now);
        Effect(OutcomeOf(v), Commit(data, v), Restored(x, data, params))
      else
        Effect(Redirect(RedirectLocation(s, x, message, iact, IntToS(nonce))),
               IssueRequest(x, data, params, nonce), params)
  }

  /** The user's session, a hash the web layer persists between requests. */
  class Session {
    var data: map<string, string>

    constructor (data: map<string, string>)
      ensures this.data == data
    {
      this.data := data;
    }

    method Set(key: string, value: string)
      modifies this
      ensures data == old(data)[key := value]
    {
      data := data[key := value];
    }
  }

  /** The parts of the CGI request object the client uses. */
  class Cgi {
    var params: Params

    constructor (params: Params)
      ensures this.params == params
    {
      this.params := params;
    }
  }

  class Raven {
    var settings: Settings

    /** `initialize`, with the outcome of loading the default key as an input. */
    constructor (loadedKey: Option<PublicKey>, returnUrl: string)
      ensures settings == Defaults(loadedKey, returnUrl)
    {
      settings := Defaults(loadedKey, returnUrl);
    }

    /**
     * `authenticate(cgi, message, iact)`; an omitted `message` or `iact`
     * falls back to the attribute of the same name.
     */
    method Authenticate(x: Externals, cgi: Cgi, session: Session, message: Option<string>,
                        iact: Option<string>, now: int, nonce: int) returns (o: Outcome)
      requires 0 <= nonce < RequestIdBound
      modifies cgi, session
      ensures var e := Authentication(settings, x, old(cgi.params), old(session.data),
                                      message.GetOr(settings.message), iact.GetOr(settings.iact), now, nonce);
              o == e.outcome && session.data == e.session && cgi.params == e.params
    {
      var msg := message.GetOr(settings.message);
      var ia := iact.GetOr(settings.iact);
      var cached := CheckSession(session.data, ia, now);
      if cached.Some? {
        return Principal(cached.value);
      }
      var checked := CheckResponseFromRaven(x, cgi, session, ia, now);
      if checked.Some? {
        return checked.value;
      }
      var location := SendRequestToRaven(x, cgi, session, msg, ia, nonce);
      return Redirect(location);
    }

    /** Stage 2: nil when there is no response; otherwise the verdict on it. */
    method CheckResponseFromRaven(x: Externals, cgi: Cgi, session: Session, iact: string, now: int)
      returns (result: Option<Outcome>)
      modifies cgi, session
      ensures FirstValue(old(cgi.params), ResponseParam) == "" ==>
        result.None? && cgi.params == old(cgi.params) && session.data == old(session.data)
      ensures FirstValue(old(cgi.params), ResponseParam) != "" ==>
        var raw := ResponseText(old(cgi.params));
        var v := Decide(settings, x, old(session.data), Parse(raw), raw, iact, now);
        result == Some(OutcomeOf(v)) && session.data == Commit(old(session.data), v) &&
        cgi.params == Restored(x, old(session.data), old(cgi.params))
    {
      if FirstValue(cgi.params, ResponseParam) == "" {
        return None;
      }
      var raw := ResponseText(cgi.params);
      var restored := x.loadParams(Lookup(session.data, StoredParametersKey));
      if restored.Some? {
        cgi.params := restored.value;
      }
      var o := CheckResponse(x, session, raw, iact, now);
      return Some(o);
    }

    /** The checks of stage 2 on the response text `raw`, in the source's order. */
    method CheckResponse(x: Externals, session: Session, raw: string, iact: string, now: int)
      returns (o: Outcome)
      modifies session
      ensures o == OutcomeOf(Decide(settings, x, old(session.data), Parse(raw), raw, iact, now))
      ensures session.data == Commit(old(session.data), Decide(settings, x, old(session.data), Parse(raw), raw, iact, now))
    {
      var r := Parse(raw);
      if r.ver != Some(settings.ravenVersion) {
        return Code(520);
      }
      if r.url != Some(settings.returnUrl) {
        return Code(570);
      }
      if r.issue.None? {
        return Raised;
      }
      var issued := x.gm(TimeFields(r.issue.value));
      if issued.None? {
        return Raised;
      }
      o := CheckIssued(x, session, r, raw, iact, now, issued.value);
    }

    /** The checks of stage 2 from the clock skew on, once the issue time is known. */
    method CheckIssued(x: Externals, session: Session, r: Parsed, raw: string, iact: string, now: int, issued: int)
      returns (o: Outcome)
      modifies session
      ensures o == OutcomeOf(DecideIssued(settings, x, old(session.data), r, raw, iact, now, issued))
      ensures session.data == Commit(old(session.data), DecideIssued(settings, x, old(session.data), r, raw, iact, now, issued))
    {
      if !(Abs(issued - now) < settings.maxSkew) {
        return Code(550);
      }
      if iact == Yes && r.auth == Some("") {
        return Code(540);
      }
      if settings.matchResponseAndRequest {
        if r.params.None? {
          return Raised;
        }
        var responseId := x.unescape(r.params.value);
        var requestId := Lookup(session.data, RequestIdKey);
        if requestId != Some(responseId) {
          return Code(570);
        }
      }
      if r.status == Some(Success) {
        o := CheckSignature(x, session, r, raw, now);
        return;
      }
      return Code(NilToI(r.status));
    }

    /** The `status == '200'` branch of stage 2: the key, the signature, then the session. */
    method CheckSignature(x: Externals, session: Session, r: Parsed, raw: string, now: int) returns (o: Outcome)
      modifies session
      ensures o == OutcomeOf(SignatureVerdict(settings, x, r, raw, now))
      ensures session.data == Commit(old(session.data), SignatureVerdict(settings, x, r, raw, now))
    {
      if r.kid.None? {
        return Raised;
      }
      var kid := x.unescape(r.kid.value);
      if kid !in settings.publicKey {
        return Code(560);
      }
      if r.sig.None? {
        return Raised;
      }
      var signed := SignedPart(raw, r.kid.value, r.sig.value);
      if !x.verify(settings.publicKey[kid], x.decode64(SignatureToBase64(r.sig.value)), signed) {
        return Code(560);
      }
      session.Set(PrincipalKey, r.principal.value);
      session.Set(ExpiresKey, IntToS(now + ToI(r.life.value)));
      return Principal(r.principal.value);
    }

    /** Stage 3: stores the parameters and a fresh request id, and redirects to the provider. */
    method SendRequestToRaven(x: Externals, cgi: Cgi, session: Session, message: string, iact: string, nonce: int)
      returns (location: string)
      requires 0 <= nonce < RequestIdBound
      modifies session
      ensures session.data == IssueRequest(x, old(session.data), cgi.params, nonce)
      ensures location == RedirectLocation(settings, x, message, iact, IntToS(nonce))
    {
      session.Set(StoredParametersKey, x.dumpParams(cgi.params));
      var params := IntToS(nonce);
      session.Set(RequestIdKey, params);
      location := RedirectLocation(settings, x, message, iact, params);
    }
  }
}
