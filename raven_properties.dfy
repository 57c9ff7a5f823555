/**
 * What the Raven client promises about its decisions: the order of the
 * checks, the strict skew bound, which session keys each stage writes, and
 * the round trip from an issued request to an accepted response.
 */
module RavenProperties {
  import opened Wrappers
  import opened RubyString
  import opened Rfc3339
  import opened WlsResponse
  import opened Raven

  // ---------------------------------------------------------------- stage 1

  /** With interaction required, stage 1 says nothing, whatever the session holds. */
  lemma InteractiveSkipsSession(data: map<string, string>, now: int)
    ensures CheckSession(data, Yes, now) == None
  {
  }

  /** Otherwise it returns the stored principal exactly while the stored expiry is in the future. */
  lemma CachedPrincipalExactly(data: map<string, string>, iact: string, now: int, p: string)
    requires iact != Yes
    ensures CheckSession(data, iact, now) == Some(p) <==>
      Lookup(data, PrincipalKey) == Some(p) && ExpiresKey in data && ToI(data[ExpiresKey]) > now
  {
  }

  // ---------------------------------------------------------------- stage 2

  /** Every check up to the status test passes, none of them raising. */
  predicate ChecksPass(s: Settings, x: Externals, data: map<string, string>, r: Parsed, iact: string, now: int)
  {
    && r.ver == Some(s.ravenVersion)
    && r.url == Some(s.returnUrl)
    && r.issue.Some?
    && x.gm(TimeFields(r.issue.value)).Some?
    && Abs(x.gm(TimeFields(r.issue.value)).value - now) < s.maxSkew
    && !(iact == Yes && r.auth == Some(""))
    && (s.matchResponseAndRequest ==>
          r.params.Some? && Lookup(data, RequestIdKey) == Some(x.unescape(r.params.value)))
  }

  /** A version mismatch is reported first, before anything else is looked at. */
  lemma VersionCheckedFirst(s: Settings, x: Externals, data: map<string, string>, r: Parsed, raw: string, iact: string, now: int)
    requires r.ver != Some(s.ravenVersion)
    ensures Decide(s, x, data, r, raw, iact, now) == Reject(520)
  {
  }

  /** Then a return-URL mismatch. */
  lemma UrlCheckedSecond(s: Settings, x: Externals, data: map<string, string>, r: Parsed, raw: string, iact: string, now: int)
    requires r.ver == Some(s.ravenVersion) && r.url != Some(s.returnUrl)
    ensures Decide(s, x, data, r, raw, iact, now) == Reject(570)
  {
  }

  /**
   * Then the clock skew, which must be strictly below `maxSkew`: a skew equal
   * to the bound or above it is rejected with 550, and a smaller one moves on
   * to the later checks, `DecideIssued`.
   */
  lemma SkewIsStrict(s: Settings, x: Externals, data: map<string, string>, r: Parsed, raw: string, iact: string, now: int, issued: int)
    requires r.ver == Some(s.ravenVersion) && r.url == Some(s.returnUrl)
    requires r.issue.Some? && x.gm(TimeFields(r.issue.value)) == Some(issued)
    ensures Abs(issued - now) >= s.maxSkew ==> Decide(s, x, data, r, raw, iact, now) == Reject(550)
    ensures Abs(issued - now) < s.maxSkew ==>
              Decide(s, x, data, r, raw, iact, now) == DecideIssued(s, x, data, r, raw, iact, now, issued)
  {
  }

  /** Then interaction: required but not performed gives 540. */
  lemma InteractionCheckedFourth(s: Settings, x: Externals, data: map<string, string>, r: Parsed, raw: string, now: int, issued: int)
    requires r.ver == Some(s.ravenVersion) && r.url == Some(s.returnUrl)
    requires r.issue.Some? && x.gm(TimeFields(r.issue.value)) == Some(issued)
    requires Abs(issued - now) < s.maxSkew
    requires r.auth == Some("")
    ensures Decide(s, x, data, r, raw, Yes, now) == Reject(540)
  {
  }

  /** Then, when matching is on, a response that does not echo the stored request id gives 570. */
  lemma RequestMatchedFifth(s: Settings, x: Externals, data: map<string, string>, r: Parsed, raw: string, iact: string, now: int, issued: int)
    requires r.ver == Some(s.ravenVersion) && r.url == Some(s.returnUrl)
    requires r.issue.Some? && x.gm(TimeFields(r.issue.value)) == Some(issued)
    requires Abs(issued - now) < s.maxSkew && !(iact == Yes && r.auth == Some(""))
    requires s.matchResponseAndRequest && r.params.Some?
    requires Lookup(data, RequestIdKey) != Some(x.unescape(r.params.value))
    ensures Decide(s, x, data, r, raw, iact, now) == Reject(570)
  {
  }

  /** When matching is off, the stored request id plays no part at all. */
  lemma MatchingOffIgnoresRequestId(s: Settings, x: Externals, d1: map<string, string>, d2: map<string, string>,
                                    r: Parsed, raw: string, iact: string, now: int)
    requires !s.matchResponseAndRequest
    ensures Decide(s, x, d1, r, raw, iact, now) == Decide(s, x, d2, r, raw, iact, now)
  {
    if r.ver == Some(s.ravenVersion) && r.url == Some(s.returnUrl) && r.issue.Some? &&
       x.gm(TimeFields(r.issue.value)).Some? {
      var issued := x.gm(TimeFields(r.issue.value)).value;
      assert Decide(s, x, d1, r, raw, iact, now) == DecideIssued(s, x, d1, r, raw, iact, now, issued);
      assert Decide(s, x, d2, r, raw, iact, now) == DecideIssued(s, x, d2, r, raw, iact, now, issued);
    }
  }

  /** A response is accepted exactly when every check passes, the status is 200, the key is known and the signature verifies. */
  lemma AcceptedExactly(s: Settings, x: Externals, data: map<string, string>, r: Parsed, raw: string, iact: string, now: int)
    ensures Decide(s, x, data, r, raw, iact, now).Accept? <==>
      && ChecksPass(s, x, data, r, iact, now)
      && r.status == Some(Success)
      && r.sig.Some?
      && x.unescape(r.kid.value) in s.publicKey
      && x.verify(s.publicKey[x.unescape(r.kid.value)],
                  x.decode64(SignatureToBase64(r.sig.value)),
                  SignedPart(raw, r.kid.value, r.sig.value))
    ensures Decide(s, x, data, r, raw, iact, now).Accept? ==>
      Decide(s, x, data, r, raw, iact, now) == Accept(r.principal.value, now + ToI(r.life.value))
  {
    if r.ver == Some(s.ravenVersion) && r.url == Some(s.returnUrl) && r.issue.Some? &&
       x.gm(TimeFields(r.issue.value)).Some? {
      var issued := x.gm(TimeFields(r.issue.value)).value;
      assert Decide(s, x, data, r, raw, iact, now) == DecideIssued(s, x, data, r, raw, iact, now, issued);
      IssuedAcceptedExactly(s, x, data, r, raw, iact, now, issued);
      SignatureAcceptedExactly(s, x, r, raw, now);
    }
  }

  /** The part of `AcceptedExactly` after the issue time is read. */
  lemma IssuedAcceptedExactly(s: Settings, x: Externals, data: map<string, string>, r: Parsed, raw: string, iact: string,
                              now: int, issued: int)
    ensures DecideIssued(s, x, data, r, raw, iact, now, issued).Accept? <==>
      && Abs(issued - now) < s.maxSkew
      && !(iact == Yes && r.auth == Some(""))
      && (s.matchResponseAndRequest ==>
            r.params.Some? && Lookup(data, RequestIdKey) == Some(x.unescape(r.params.value)))
      && r.status == Some(Success)
      && SignatureVerdict(s, x, r, raw, now).Accept?
    ensures DecideIssued(s, x, data, r, raw, iact, now, issued).Accept? ==>
      DecideIssued(s, x, data, r, raw, iact, now, issued) == SignatureVerdict(s, x, r, raw, now)
  {
  }

  /** The signature stage accepts exactly a known key and a verifying signature. */
  lemma SignatureAcceptedExactly(s: Settings, x: Externals, r: Parsed, raw: string, now: int)
    ensures SignatureVerdict(s, x, r, raw, now).Accept? <==>
      && r.sig.Some?
      && x.unescape(r.kid.value) in s.publicKey
      && x.verify(s.publicKey[x.unescape(r.kid.value)],
                  x.decode64(SignatureToBase64(r.sig.value)),
                  SignedPart(raw, r.kid.value, r.sig.value))
    ensures SignatureVerdict(s, x, r, raw, now).Accept? ==>
      SignatureVerdict(s, x, r, raw, now) == Accept(r.principal.value, now + ToI(r.life.value))
  {
  }

  /** A response that passes the checks with another status is answered with that status as a number. */
  lemma StatusPassedThrough(s: Settings, x: Externals, data: map<string, string>, r: Parsed, raw: string, iact: string, now: int)
    requires ChecksPass(s, x, data, r, iact, now) && r.status != Some(Success)
    ensures Decide(s, x, data, r, raw, iact, now) == Reject(NilToI(r.status))
  {
  }

  /** An unknown key id gives 560 whatever the verifier would have said. */
  lemma UnknownKeyNeverVerified(s: Settings, x: Externals, data: map<string, string>, r: Parsed, raw: string, iact: string, now: int,
                                otherVerify: (PublicKey, string, string) -> bool)
    requires ChecksPass(s, x, data, r, iact, now) && r.status == Some(Success)
    requires r.kid.Some? && x.unescape(r.kid.value) !in s.publicKey
    ensures Decide(s, x, data, r, raw, iact, now) == Reject(560)
    ensures Decide(s, x.(verify := otherVerify), data, r, raw, iact, now) == Reject(560)
  {
  }

  /** A trusted key id whose signature the verifier refuses gives 560. */
  lemma BadSignatureRejected(s: Settings, x: Externals, data: map<string, string>, r: Parsed, raw: string, iact: string, now: int)
    requires ChecksPass(s, x, data, r, iact, now) && r.status == Some(Success)
    requires r.kid.Some? && r.sig.Some? && x.unescape(r.kid.value) in s.publicKey
    requires !x.verify(s.publicKey[x.unescape(r.kid.value)], x.decode64(SignatureToBase64(r.sig.value)),
                       SignedPart(raw, r.kid.value, r.sig.value))
    ensures Decide(s, x, data, r, raw, iact, now) == Reject(560)
  {
    var issued := x.gm(TimeFields(r.issue.value)).value;
    assert Decide(s, x, data, r, raw, iact, now) == DecideIssued(s, x, data, r, raw, iact, now, issued);
  }

  /**
   * A response too short to carry an `issue` field has no `url` either, so it
   * is refused with 520 or 570 before the issue time is read.
   */
  lemma MissingIssueRejected(s: Settings, x: Externals, data: map<string, string>, raw: string, iact: string, now: int)
    requires Parse(raw).issue.None?
    ensures Decide(s, x, data, Parse(raw), raw, iact, now) in {Reject(520), Reject(570)}
  {
  }

  /** The default settings trust only key id 2, so any other key id gives 560. */
  lemma DefaultsTrustOnlyKeyTwo(loadedKey: Option<PublicKey>, returnUrl: string, x: Externals,
                                data: map<string, string>, r: Parsed, raw: string, iact: string, now: int)
    requires ChecksPass(Defaults(loadedKey, returnUrl), x, data, r, iact, now)
    requires r.status == Some(Success)
    requires r.kid.Some? && x.unescape(r.kid.value) != DefaultPublicKeyId
    ensures Decide(Defaults(loadedKey, returnUrl), x, data, r, raw, iact, now) == Reject(560)
  {
    UnknownKeyNeverVerified(Defaults(loadedKey, returnUrl), x, data, r, raw, iact, now, x.verify);
  }

  /** Every code stage 2 produces is one of its own or the provider's status passed through. */
  lemma RejectionCauses(s: Settings, x: Externals, data: map<string, string>, r: Parsed, raw: string, iact: string, now: int, c: int)
    requires Decide(s, x, data, r, raw, iact, now) == Reject(c)
    ensures c in {520, 570, 550, 540, 560} ||
            (ChecksPass(s, x, data, r, iact, now) && r.status != Some(Success) &&
             c == NilToI(r.status))
  {
  }

  /** Only an accepted response writes the session, and then exactly `principal` and `expires` together. */
  lemma CommitWritesPrincipalAndExpires(data: map<string, string>, v: Verdict)
    ensures !v.Accept? ==> Commit(data, v) == data
    ensures v.Accept? ==>
      Lookup(Commit(data, v), PrincipalKey) == Some(v.principal) &&
      Lookup(Commit(data, v), ExpiresKey) == Some(IntToS(v.expires)) &&
      forall k | k != PrincipalKey && k != ExpiresKey :: Lookup(Commit(data, v), k) == Lookup(data, k)
  {
  }

  /** After an accepted response, stage 1 returns the principal until the expiry time. */
  lemma AcceptedIsCachedUntilExpiry(data: map<string, string>, principal: string, expires: int, iact: string, later: int)
    requires iact != Yes && later < expires
    ensures CheckSession(Commit(data, Accept(principal, expires)), iact, later) == Some(principal)
  {
    var d := Commit(data, Accept(principal, expires));
    assert d[PrincipalKey] == principal && d[ExpiresKey] == IntToS(expires);
    ToIIntToS(expires);
  }

  /** ... and not from the expiry time on. */
  lemma AcceptedExpires(data: map<string, string>, principal: string, expires: int, iact: string, later: int)
    requires expires <= later
    ensures CheckSession(Commit(data, Accept(principal, expires)), iact, later) == None
  {
    var d := Commit(data, Accept(principal, expires));
    assert d[ExpiresKey] == IntToS(expires);
    ToIIntToS(expires);
  }

  /** Stage 2 reads the session only at `request_id`. */
  lemma DecideReadsOnlyRequestId(s: Settings, x: Externals, d1: map<string, string>, d2: map<string, string>,
                                 r: Parsed, raw: string, iact: string, now: int)
    requires Lookup(d1, RequestIdKey) == Lookup(d2, RequestIdKey)
    ensures Decide(s, x, d1, r, raw, iact, now) == Decide(s, x, d2, r, raw, iact, now)
  {
    if r.ver == Some(s.ravenVersion) && r.url == Some(s.returnUrl) && r.issue.Some? &&
       x.gm(TimeFields(r.issue.value)).Some? {
      var issued := x.gm(TimeFields(r.issue.value)).value;
      assert Decide(s, x, d1, r, raw, iact, now) == DecideIssued(s, x, d1, r, raw, iact, now, issued);
      assert Decide(s, x, d2, r, raw, iact, now) == DecideIssued(s, x, d2, r, raw, iact, now, issued);
      IssuedReadsOnlyRequestId(s, x, d1, d2, r, raw, iact, now, issued);
    }
  }

  lemma IssuedReadsOnlyRequestId(s: Settings, x: Externals, d1: map<string, string>, d2: map<string, string>,
                                 r: Parsed, raw: string, iact: string, now: int, issued: int)
    requires Lookup(d1, RequestIdKey) == Lookup(d2, RequestIdKey)
    ensures DecideIssued(s, x, d1, r, raw, iact, now, issued) == DecideIssued(s, x, d2, r, raw, iact, now, issued)
  {
  }

  /**
   * Accepting a response does not consume the request id: the same response,
   * presented again at the same time against the session it produced, is
   * accepted again.
   */
  lemma AcceptedResponseReplayable(s: Settings, x: Externals, data: map<string, string>, r: Parsed, raw: string,
                                   iact: string, now: int)
    requires Decide(s, x, data, r, raw, iact, now).Accept?
    ensures var v := Decide(s, x, data, r, raw, iact, now);
      Lookup(Commit(data, v), RequestIdKey) == Lookup(data, RequestIdKey) &&
      Decide(s, x, Commit(data, v), r, raw, iact, now) == v
  {
    var v := Decide(s, x, data, r, raw, iact, now);
    DecideReadsOnlyRequestId(s, x, data, Commit(data, v), r, raw, iact, now);
  }

  // ---------------------------------------------------------------- stage 3

  /** The request id is the decimal form of a number below 999999: at most six digits, read back exactly. */
  lemma RequestIdShape(nonce: int)
    requires 0 <= nonce < RequestIdBound
    ensures AllDigits(IntToS(nonce)) && 1 <= |IntToS(nonce)| <= 6
    ensures ToI(IntToS(nonce)) == nonce
  {
    NatToSLength(nonce, 6);
    ToIIntToS(nonce);
  }

  /**
   * The redirect is the provider URL, `?`, then the eight pairs joined by `;`;
   * when no escaped value holds a `;`, splitting the query on `;` gives the
   * pairs back in order, with the request id in the `params` pair.
   */
  lemma RedirectQuery(s: Settings, x: Externals, message: string, iact: string, requestId: string)
    requires NoSeparator(QueryPairs(s, x, message, iact, requestId), ';')
    ensures var loc := RedirectLocation(s, x, message, iact, requestId);
            var q := QueryPairs(s, x, message, iact, requestId);
      && loc == s.ravenUrl + "?" + Join(q, ';')
      && SplitAll(loc[|s.ravenUrl| + 1..], ';') == q
      && q[6] == "params=" + x.escape(requestId)
  {
    var q := QueryPairs(s, x, message, iact, requestId);
    var loc := RedirectLocation(s, x, message, iact, requestId);
    QueryPairsListed(s, x, message, iact, requestId);
    RedirectJoinsPairs(s, x, message, iact, requestId, q);
    assert loc[|s.ravenUrl| + 1..] == Join(q, ';');
    SplitAllJoin(q, ';');
  }

  /** The location is the provider URL, `?` and the pairs `q` joined by `;`. */
  lemma RedirectJoinsPairs(s: Settings, x: Externals, message: string, iact: string, requestId: string,
                           q: seq<string>)
    requires q ==
      ["ver=" + x.escape(s.ravenVersion), "url=" + x.escape(s.returnUrl),
       "desc=" + x.escape(s.description), "msg=" + x.escape(message),
       "iact=" + x.escape(iact), "aauth=" + x.escape(Join(s.aauth, ',')),
       "params=" + x.escape(requestId), "fail=" + x.escape(s.fail)]
    ensures RedirectLocation(s, x, message, iact, requestId) == s.ravenUrl + "?" + Join(q, ';')
  {
    InterpolatedQuery(s.ravenUrl, x.escape(s.ravenVersion), x.escape(s.returnUrl), x.escape(s.description),
                      x.escape(message), x.escape(iact), x.escape(Join(s.aauth, ',')), x.escape(requestId),
                      x.escape(s.fail));
  }

  /** The interpolation of raven.rb's redirect, over any eight escaped values. */
  lemma InterpolatedQuery(url: string, ver: string, ret: string, desc: string, msg: string, iact: string,
                          aauth: string, params: string, fail: string)
    ensures url + "?ver=" + ver + ";url=" + ret + ";desc=" + desc + ";msg=" + msg + ";iact=" + iact +
            ";aauth=" + aauth + ";params=" + params + ";fail=" + fail ==
            url + "?" + Join(["ver=" + ver, "url=" + ret, "desc=" + desc, "msg=" + msg, "iact=" + iact,
                              "aauth=" + aauth, "params=" + params, "fail=" + fail], ';')
  {
    var q := ["ver=" + ver, "url=" + ret, "desc=" + desc, "msg=" + msg, "iact=" + iact,
              "aauth=" + aauth, "params=" + params, "fail=" + fail];
    var head := url + "?";
    // Each step appends one more ";name=value" pair to the query built so far.
    var p1 := url + "?ver=" + ver;
    assert p1 == head + Join(q[..1], ';');
    var p2 := p1 + ";url=" + ret;
    QueryStep(head, q, 1, p1, ";url=", "url", ret);
    var p3 := p2 + ";desc=" + desc;
    QueryStep(head, q, 2, p2, ";desc=", "desc", desc);
    var p4 := p3 + ";msg=" + msg;
    QueryStep(head, q, 3, p3, ";msg=", "msg", msg);
    var p5 := p4 + ";iact=" + iact;
    QueryStep(head, q, 4, p4, ";iact=", "iact", iact);
    var p6 := p5 + ";aauth=" + aauth;
    QueryStep(head, q, 5, p5, ";aauth=", "aauth", aauth);
    var p7 := p6 + ";params=" + params;
    QueryStep(head, q, 6, p6, ";params=", "params", params);
    var p8 := p7 + ";fail=" + fail;
    QueryStep(head, q, 7, p7, ";fail=", "fail", fail);
    assert q[..8] == q;
  }

  /** The pairs, written out one by one. */
  lemma QueryPairsListed(s: Settings, x: Externals, message: string, iact: string, requestId: string)
    ensures QueryPairs(s, x, message, iact, requestId) ==
      ["ver=" + x.escape(s.ravenVersion), "url=" + x.escape(s.returnUrl),
       "desc=" + x.escape(s.description), "msg=" + x.escape(message),
       "iact=" + x.escape(iact), "aauth=" + x.escape(Join(s.aauth, ',')),
       "params=" + x.escape(requestId), "fail=" + x.escape(s.fail)]
  {
    var q := QueryPairs(s, x, message, iact, requestId);
    var v := QueryValues(s, message, iact, requestId);
    assert q[0] == "ver=" + x.escape(v[0]) && q[1] == "url=" + x.escape(v[1]);
    assert q[2] == "desc=" + x.escape(v[2]) && q[3] == "msg=" + x.escape(v[3]);
    assert q[4] == "iact=" + x.escape(v[4]) && q[5] == "aauth=" + x.escape(v[5]);
    assert q[6] == "params=" + x.escape(v[6]) && q[7] == "fail=" + x.escape(v[7]);
  }

  lemma QueryStep(head: string, q: seq<string>, k: nat, prefix: string, separator: string, name: string, value: string)
    requires 0 < k < |q| && q[k] == name + "=" + value && separator == ";" + name + "="
    requires prefix == head + Join(q[..k], ';')
    ensures prefix + separator + value == head + Join(q[..k + 1], ';')
  {
    assert q[..k + 1] == q[..k] + [q[k]];
    JoinAppend(q[..k], [q[k]], ';');
  }

  // ---------------------------------------------------------------- authenticate

  /** Stage 1 wins when it finds a principal; nothing is written. */
  lemma CachedSessionWins(s: Settings, x: Externals, params: Params, data: map<string, string>,
                          message: string, iact: string, now: int, nonce: int, p: string)
    requires CheckSession(data, iact, now) == Some(p)
    ensures Authentication(s, x, params, data, message, iact, now, nonce) == Effect(Principal(p), data, params)
  {
  }

  /**
   * `authenticate` redirects exactly when stage 1 finds nothing and no
   * response was sent; with a response present no new request is issued and
   * the request id and stored parameters are left alone.
   */
  lemma RedirectOnlyWithoutResponse(s: Settings, x: Externals, params: Params, data: map<string, string>,
                                    message: string, iact: string, now: int, nonce: int)
    ensures var e := Authentication(s, x, params, data, message, iact, now, nonce);
      e.outcome.Redirect? <==> CheckSession(data, iact, now).None? && FirstValue(params, ResponseParam) == ""
    ensures var e := Authentication(s, x, params, data, message, iact, now, nonce);
      FirstValue(params, ResponseParam) != "" ==>
        Lookup(e.session, RequestIdKey) == Lookup(data, RequestIdKey) &&
        Lookup(e.session, StoredParametersKey) == Lookup(data, StoredParametersKey)
  {
  }

  /** A redirect stores the parameters and request id, sends that same id as `params`, and writes nothing else. */
  lemma RedirectStoresRequestId(s: Settings, x: Externals, params: Params, data: map<string, string>,
                                message: string, iact: string, now: int, nonce: int)
    requires CheckSession(data, iact, now).None? && FirstValue(params, ResponseParam) == ""
    ensures var e := Authentication(s, x, params, data, message, iact, now, nonce);
      && e.outcome == Redirect(RedirectLocation(s, x, message, iact, IntToS(nonce)))
      && Lookup(e.session, RequestIdKey) == Some(IntToS(nonce))
      && Lookup(e.session, StoredParametersKey) == Some(x.dumpParams(params))
      && (forall k | k != RequestIdKey && k != StoredParametersKey :: Lookup(e.session, k) == Lookup(data, k))
      && e.params == params
  {
  }

  /** No call writes any key outside the four the client owns. */
  lemma OnlyClientKeysWritten(s: Settings, x: Externals, params: Params, data: map<string, string>,
                              message: string, iact: string, now: int, nonce: int, k: string)
    requires k !in {PrincipalKey, ExpiresKey, RequestIdKey, StoredParametersKey}
    ensures Lookup(Authentication(s, x, params, data, message, iact, now, nonce).session, k) == Lookup(data, k)
  {
  }

  /** An exception or an error code leaves the session as it was. */
  lemma FailureLeavesSession(s: Settings, x: Externals, params: Params, data: map<string, string>,
                             message: string, iact: string, now: int, nonce: int)
    ensures var e := Authentication(s, x, params, data, message, iact, now, nonce);
      e.outcome.Raised? || e.outcome.Code? ==> e.session == data
  {
  }

  /** What a response must carry to be accepted against request id `nonce`. */
  predicate AcceptableReply(s: Settings, x: Externals, iact: string, now: int, nonce: int, f: seq<string>)
  {
    WellFormed(f) && HeaderMatches(s, iact, f) && IssuedInTime(s, x, now, f) && EchoesRequest(x, nonce, f) &&
    SignedByTrustedKey(s, x, f)
  }

  /** Version and return URL as configured, status 200, and interaction if it was required. */
  predicate HeaderMatches(s: Settings, iact: string, f: seq<string>)
  {
    |f| == FieldCount && f[0] == s.ravenVersion && f[5] == s.returnUrl && f[1] == Success &&
    !(iact == Yes && f[7] == "")
  }

  /** The issue time reads as a time strictly within `maxSkew` of now. */
  predicate IssuedInTime(s: Settings, x: Externals, now: int, f: seq<string>)
  {
    |f| == FieldCount && x.gm(TimeFields(f[3])).Some? && Abs(x.gm(TimeFields(f[3])).value - now) < s.maxSkew
  }

  /** The `params` field unescapes to the decimal request id `nonce`. */
  predicate EchoesRequest(x: Externals, nonce: int, f: seq<string>)
  {
    |f| == FieldCount && x.unescape(f[10]) == IntToS(nonce)
  }

  /** The key id is trusted and the signature verifies over the first eleven fields. */
  predicate SignedByTrustedKey(s: Settings, x: Externals, f: seq<string>)
  {
    |f| == FieldCount && x.unescape(f[11]) in s.publicKey &&
    x.verify(s.publicKey[x.unescape(f[11])], x.decode64(SignatureToBase64(f[12])), Join(f[..11], Separator))
  }

  /** A response that echoes the stored request id and verifies is accepted, with expiry `now + life`. */
  lemma AcceptableReplyAccepted(s: Settings, x: Externals, data: map<string, string>, iact: string, now: int,
                                nonce: int, f: seq<string>)
    requires AcceptableReply(s, x, iact, now, nonce, f)
    requires Lookup(data, RequestIdKey) == Some(IntToS(nonce))
    ensures Decide(s, x, data, Parse(Format(f)), Format(f), iact, now) == Accept(f[6], now + ToI(f[9]))
  {
    ParseFormat(f);
    SignedPartOfFormat(f);
    FieldsAccepted(s, x, data, iact, now, nonce, f, Parse(Format(f)), Format(f));
  }

  /** `AcceptableReplyAccepted` for any response read as the fields `f`, with `raw` signing the first eleven. */
  lemma FieldsAccepted(s: Settings, x: Externals, data: map<string, string>, iact: string, now: int,
                       nonce: int, f: seq<string>, r: Parsed, raw: string)
    requires AcceptableReply(s, x, iact, now, nonce, f)
    requires Lookup(data, RequestIdKey) == Some(IntToS(nonce))
    requires r == Response(Some(f[0]), Some(f[1]), Some(f[2]), Some(f[3]), Some(f[4]), Some(f[5]),
                           Some(f[6]), Some(f[7]), Some(f[8]), Some(f[9]), Some(f[10]), Some(f[11]), Some(f[12]))
    requires SignedPart(raw, f[11], f[12]) == Join(f[..11], Separator)
    ensures Decide(s, x, data, r, raw, iact, now) == Accept(f[6], now + ToI(f[9]))
  {
    var issued := x.gm(TimeFields(f[3])).value;
    assert Decide(s, x, data, r, raw, iact, now) == DecideIssued(s, x, data, r, raw, iact, now, issued);
    assert DecideIssued(s, x, data, r, raw, iact, now, issued) == SignatureVerdict(s, x, r, raw, now);
  }

  /** With no cached principal and no response, `authenticate` issues a request and leaves stage 1 as it was. */
  lemma IssuingKeepsCache(s: Settings, x: Externals, params: Params, data: map<string, string>,
                          message: string, iact: string, now: int, nonce: int, later: int)
    requires CheckSession(data, iact, now).None? && FirstValue(params, ResponseParam) == ""
    ensures var e := Authentication(s, x, params, data, message, iact, now, nonce);
      && e.outcome.Redirect?
      && Lookup(e.session, RequestIdKey) == Some(IntToS(nonce))
      && CheckSession(e.session, iact, later) == CheckSession(data, iact, later)
  {
    var e := Authentication(s, x, params, data, message, iact, now, nonce);
    assert e.session == IssueRequest(x, data, params, nonce);
    assert Lookup(e.session, PrincipalKey) == Lookup(data, PrincipalKey);
    assert Lookup(e.session, ExpiresKey) == Lookup(data, ExpiresKey);
  }

  /** With no cached principal and a response present, `authenticate` reports and commits stage 2's verdict. */
  lemma AuthenticationDecides(s: Settings, x: Externals, params: Params, data: map<string, string>,
                              message: string, iact: string, now: int, nonce: int)
    requires CheckSession(data, iact, now).None? && FirstValue(params, ResponseParam) != ""
    ensures var e := Authentication(s, x, params, data, message, iact, now, nonce);
            var v := Decide(s, x, data, Parse(ResponseText(params)), ResponseText(params), iact, now);
      e.outcome == OutcomeOf(v) && e.session == Commit(data, v)
  {
  }

  /**
   * The round trip: a redirect stores request id N; a well-formed response
   * that echoes N, carries the configured version and return URL, was issued
   * within the skew, has status 200 and verifies under a known key is then
   * accepted, and the principal is cached until `now + life`.
   */
  lemma IssuedRequestThenAcceptedResponse(
    s: Settings, x: Externals, params: Params, data: map<string, string>, message: string,
    iact: string, now: int, nonce: int, f: seq<string>, later: int, reply: Params)
    requires 0 <= nonce < RequestIdBound
    requires CheckSession(data, iact, now).None? && FirstValue(params, ResponseParam) == ""
    requires AcceptableReply(s, x, iact, now, nonce, f)
    requires FirstValue(reply, ResponseParam) != "" && ResponseText(reply) == Format(f)
    requires iact != Yes && now <= later < now + ToI(f[9])
    ensures var first := Authentication(s, x, params, data, message, iact, now, nonce);
            var second := Authentication(s, x, reply, first.session, message, iact, now, nonce);
      && first.outcome.Redirect?
      && second.outcome == Principal(f[6])
      && CheckSession(second.session, iact, later) == Some(f[6])
  {
    var first := Authentication(s, x, params, data, message, iact, now, nonce);
    IssuingKeepsCache(s, x, params, data, message, iact, now, nonce, now);
    AcceptableReplyAccepted(s, x, first.session, iact, now, nonce, f);
    VerdictThenCached(s, x, params, data, message, iact, now, nonce, Format(f), f[6], now + ToI(f[9]), later, reply);
  }

  /** The round trip, once the reply is known to be accepted against the session the redirect left. */
  lemma VerdictThenCached(
    s: Settings, x: Externals, params: Params, data: map<string, string>, message: string,
    iact: string, now: int, nonce: int, raw: string, principal: string, expires: int, later: int, reply: Params)
    requires CheckSession(data, iact, now).None? && FirstValue(params, ResponseParam) == ""
    requires FirstValue(reply, ResponseParam) != "" && ResponseText(reply) == raw
    requires iact != Yes && later < expires
    requires var first := Authentication(s, x, params, data, message, iact, now, nonce);
      Decide(s, x, first.session, Parse(raw), raw, iact, now) == Accept(principal, expires)
    ensures var first := Authentication(s, x, params, data, message, iact, now, nonce);
            var second := Authentication(s, x, reply, first.session, message, iact, now, nonce);
      && first.outcome.Redirect?
      && second.outcome == Principal(principal)
      && CheckSession(second.session, iact, later) == Some(principal)
  {
    var first := Authentication(s, x, params, data, message, iact, now, nonce);
    IssuingKeepsCache(s, x, params, data, message, iact, now, nonce, now);
    AcceptedThenCached(s, x, reply, raw, first.session, message, iact, now, nonce, principal, expires, later);
  }

  /** A call whose response is accepted returns the principal, and stage 1 then finds it until the expiry. */
  lemma AcceptedThenCached(s: Settings, x: Externals, params: Params, raw: string, data: map<string, string>,
                           message: string, iact: string, now: int, nonce: int, principal: string, expires: int,
                           later: int)
    requires CheckSession(data, iact, now).None? && FirstValue(params, ResponseParam) != ""
    requires ResponseText(params) == raw && Decide(s, x, data, Parse(raw), raw, iact, now) == Accept(principal, expires)
    requires iact != Yes && later < expires
    ensures var e := Authentication(s, x, params, data, message, iact, now, nonce);
      e.outcome == Principal(principal) && CheckSession(e.session, iact, later) == Some(principal)
  {
    AuthenticationDecides(s, x, params, data, message, iact, now, nonce);
    AcceptedIsCachedUntilExpiry(data, principal, expires, iact, later);
  }

  /** With matching on, a response echoing any other value than the stored request id is refused with 570. */
  lemma StaleResponseRefused(
    s: Settings, x: Externals, data: map<string, string>, iact: string, now: int, nonce: int,
    f: seq<string>, issued: int)
    requires s.matchResponseAndRequest && WellFormed(f)
    requires f[0] == s.ravenVersion && f[5] == s.returnUrl
    requires x.gm(TimeFields(f[3])) == Some(issued) && Abs(issued - now) < s.maxSkew
    requires !(iact == Yes && f[7] == "")
    requires x.unescape(f[10]) != IntToS(nonce)
    ensures Decide(s, x, data[RequestIdKey := IntToS(nonce)], Parse(Format(f)), Format(f), iact, now) == Reject(570)
  {
    ParseFormat(f);
    RequestMatchedFifth(s, x, data[RequestIdKey := IntToS(nonce)], Parse(Format(f)), Format(f), iact, now, issued);
  }
}
