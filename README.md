# RubyRaven authentication client, modelled in Dafny

RubyRaven is a Ruby 1.8 client for Raven, the University of Cambridge Web
Login Service (WLS). A CGI script calls `Raven#authenticate(cgi, message, iact)`.
That method tries three stages in turn and returns the first answer that is
not nil:

1. **`check_session`.** A principal cached in the session is returned while
   its `expires` time lies in the future. This stage is skipped when
   interaction is required (`iact == 'yes'`).
2. **`check_response_from_raven`.** When the request carries a
   `WLS-Response` parameter, the response is split on `!` into thirteen
   fields and checked in a fixed order:
   - the protocol version (error 520);
   - the return URL (570);
   - the clock skew between the issue time and now (550);
   - interaction, when it was required (540);
   - optionally, that the response echoes the request id stored in the
     session (570);
   - for status 200, the key id and the RSA/SHA-1 signature over the signed
     part of the response (560).
   On success the principal and its expiry are written to the session and
   the principal is returned. Any other status is returned as a number.
3. **`send_request_to_raven`.** The request parameters and a fresh random
   request id are stored in the session, and the browser is redirected to
   the provider with a `;`-separated query.

`CGI#timeforRFC3339` reads the six calendar fields of the compact
`YYYYMMDDTHHMMSSZ` timestamp at fixed offsets.

The Dafny modules follow that structure:

- `Wrappers`: `Option`.
- `RubyString`: the Ruby 1.8 string operations the client relies on.
  - `String#to_i`: leading white space, a sign, digits and single underscores.
  - `Integer#to_s`.
  - `s[a..b]`, which is nil past the end.
  - `split`, which drops trailing empty fields.
  - `Array#join`.
- `Rfc3339`: `timeforRFC3339`, and a formatter as its partner.
- `WlsResponse`: the thirteen-field response.
  - Multiple assignment from `split('!')`, where missing fields are nil.
  - The signed part.
  - The `tr('-._', '+/=')` alphabet change back to the base64 alphabet of
    RFC 4648 section 4.
- `Raven`: the settings, the session and the CGI object, with the
  specification functions below.
  - `CheckSession`, for stage 1.
  - `Decide`, `DecideIssued` and `SignatureVerdict`, for stage 2.
  - `Commit`, the session after stage 2.
  - `IssueRequest` and `RedirectLocation`, for stage 3.
  - `Authentication`, the whole call.

  It also holds the `Raven` class. The class's methods `Authenticate`,
  `CheckResponseFromRaven`, `CheckResponse`, `CheckIssued`, `CheckSignature`
  and `SendRequestToRaven` update a `Session` object and a `Cgi` object in
  place. Each method's postcondition ties the new state and its result to
  those functions.
- `RavenProperties`: what the client promises, as lemmas over the
  specification functions.

Library code is carried as the fields of one value, `Externals`:
`Time.gm`, `CGI.escape` and `CGI.unescape`, `Base64.decode64`, the RSA
`verify`, and YAML dump/load. The model does not interpret these. The clock
reading `now` and the random request id `nonce` are inputs. A Ruby exception
(a method called on a nil field, `Time.gm` failing) is the outcome `Raised`.

Where the code and the protocol description differ, the model follows the
code:

- The number of `!`-separated fields is not checked. Missing fields are nil
  and extra fields are ignored.
- An accepted response with an empty principal is returned as that empty
  string.
- The request id is never consumed. `AcceptedResponseReplayable` shows that
  an accepted response, presented again against the session it produced, is
  accepted again.
- A malformed response does not always produce an error code.
  - A missing `ver` or `url` gives 520 or 570.
  - With matching off, a response of six to twelve fields whose status is
    not 200 gives `status.to_i`.
  - A response too short to carry an `issue` has no `url` either, so it
    gives 520 or 570 (`MissingIssueRejected`).
  - These cases raise a Ruby exception instead:
    - `Time.gm` failing on the issue time, an empty `issue` included;
    - a missing `params` while matching is on;
    - a missing `kid`, or a missing `sig` under a trusted key id, on status 200.

## Model

| member | source | states |
|---|---|---|
| RubyString.ToIOfDigits | raven.rb:38-43 | `to_i` of a non-empty digit string is its decimal value |
| RubyString.ToIIntToS | raven.rb:224 | `to_i` reads back what `Integer#to_s` wrote, for every integer, negative ones included |
| RubyString.IntToSInjective | raven.rb:240 | two numbers with the same decimal form are equal |
| RubyString.NatToS | raven.rb:240 | the decimal form of a natural number is non-empty, all digits, with no leading zero |
| RubyString.Slice | raven.rb:38-43 | `s[first..last]` is nil exactly when `first` is past the end, and has at most `last - first + 1` characters |
| RubyString.Split | raven.rb:178 | no field of `split` holds the separator, and the last field is never empty |
| RubyString.SplitAllSound | raven.rb:178 | the fields between separators hold no separator, and joining them gives back the string |
| RubyString.DropTrailingEmptyPrefix | raven.rb:178 | `split` keeps a prefix of the fields and drops only empty ones at the end |
| RubyString.ToI | raven.rb:167 | `String#to_i`, no contract of its own; pinned down by `ToIOfDigits`, `ToIIntToS` and `Rfc3339.ToIPad` |
| RubyString.NilToI | raven.rb:231 | `to_i` of a field that may be nil (`nil.to_i` is 0), no contract of its own; used by `StatusPassedThrough` and `TimeFields` |
| RubyString.IntToS | raven.rb:224 | `Integer#to_s`, no contract of its own; pinned down by `ToIIntToS`, `IntToSInjective` and `NatToS` |
| RubyString.Join | raven.rb:243 | `Array#join`, no contract of its own; pinned down by `SplitAllSound` and `SplitJoin` |
| RubyString.SplitJoin | raven.rb:178 | `split` undoes `join` when no field holds the separator and the last field is not empty |
| Rfc3339.ToIPad | raven.rb:38-43 | `to_i` reads back a zero-padded field of any width that holds the number |
| Rfc3339.DateFieldsFormat | raven.rb:38-40 | year, month and day are read back from offsets 0-3, 4-5 and 6-7 of a written timestamp |
| Rfc3339.ClockFieldsFormat | raven.rb:41-43 | hour, minute and second are read back from offsets 9-10, 11-12 and 13-14 |
| Rfc3339.TimeFields | raven.rb:37-45 | the six `s[a..b].to_i` reads of `timeforRFC3339`, no contract of its own; pinned down by `TimeFieldsFormat` and `TimeFieldsIgnoreSeparators` |
| Rfc3339.TimeFieldsFormat | raven.rb:37-45 | reading the fields of the compact form of any calendar time whose fields fit gives that time back |
| Rfc3339.TimeFieldsIgnoreSeparators | raven.rb:37-45 | two timestamps of at least fifteen characters, of equal or different lengths, that agree on characters 0-7 and 9-14 read the same; the `T`, the `Z` and anything after offset 14 are never checked |
| WlsResponse.Assign | raven.rb:178 | the signature field is present exactly when there are at least thirteen fields, and is then the thirteenth; a present signature implies every earlier field is present |
| WlsResponse.Parse | raven.rb:177-178 | a present signature is non-empty unless the response has more than thirteen fields |
| WlsResponse.ParseFormat | raven.rb:178 | parsing the `!`-joined form of thirteen well-formed fields gives back each field |
| WlsResponse.SignedPart | raven.rb:218-219 | the signed part is a prefix of the response, `|kid| + |sig| + 2` characters shorter, or empty when the response is shorter than that |
| WlsResponse.SignedPartDropsTrailer | raven.rb:218-219 | with `!kid!sig` at the end, the signed part is exactly what precedes it |
| WlsResponse.SignedPartOfFormat | raven.rb:218-219 | on a thirteen-field response the signed part is the first eleven fields joined, through `params` |
| WlsResponse.SignatureToBase64 | raven.rb:220 | each character of the signature is mapped by `-`→`+`, `.`→`/`, `_`→`=`, and the length is kept |
| WlsResponse.SignatureRoundTrip | raven.rb:220 | the client recovers exactly the base64 text the provider encoded |
| WlsResponse.SignatureRoundTripBack | raven.rb:220 | every transport-safe signature maps into the base64 alphabet and back to itself, so each is the encoding of some base64 text; with `SignatureRoundTrip`, of exactly one |
| Raven.Defaults | raven.rb:117-136 | provider URL, version "1", skew 90, description and message texts, matching on, empty `iact`, `fail` and `aauth`, the given return URL; key id "2" is trusted exactly when the key file loaded, then with the loaded key, and no other id is |
| Raven.Raven.constructor | raven.rb:117-136 | a new client holds the default settings |
| Raven.FirstValue | raven.rb:175 | `cgi['WLS-Response']`, the first value or "" on an urlencoded request, no contract of its own; decides stage 2 against stage 3 in `RedirectOnlyWithoutResponse` |
| Raven.ResponseText | raven.rb:177 | `cgi.params['WLS-Response'].to_s`, all values concatenated as in Ruby 1.8, no contract of its own; fed to `Decide` as `AuthenticationDecides` states |
| Raven.Restored | raven.rb:181-186 | the parameters after `YAML::load` of `stored_parameters`, left as they were when the load raises, no contract of its own |
| Raven.CheckSession | raven.rb:163-172 | stage 1, no contract of its own; characterised both ways by `InteractiveSkipsSession` and `CachedPrincipalExactly` |
| Raven.Decide | raven.rb:188-197 | stage 2's checks up to reading the issue time, no contract of its own; characterised by `VersionCheckedFirst`, `UrlCheckedSecond`, `SkewIsStrict`, `AcceptedExactly` and `RejectionCauses` |
| Raven.DecideIssued | raven.rb:195-231 | the checks after the issue time, no contract of its own; characterised by `InteractionCheckedFourth`, `RequestMatchedFifth`, `StatusPassedThrough` and `IssuedAcceptedExactly` |
| Raven.SignatureVerdict | raven.rb:212-228 | the status-200 branch, no contract of its own; characterised by `SignatureAcceptedExactly`, `UnknownKeyNeverVerified` and `BadSignatureRejected` |
| Raven.Commit | raven.rb:223-224 | the session stage 2 leaves, no contract of its own; characterised by `CommitWritesPrincipalAndExpires`, `AcceptedIsCachedUntilExpiry` and `AcceptedExpires` |
| Raven.IssueRequest | raven.rb:237-240 | the session stage 3 leaves, no contract of its own; characterised by `RedirectStoresRequestId` and `IssuingKeepsCache` |
| Raven.QueryPairs | raven.rb:243 | the `name=value` pairs, one per `QueryNames` entry, in order |
| Raven.RedirectLocation | raven.rb:243 | the interpolated redirect address, no contract of its own; characterised by `RedirectQuery` |
| Raven.Authentication | raven.rb:144-159 | the whole call, no contract of its own; characterised by `CachedSessionWins`, `RedirectOnlyWithoutResponse`, `AuthenticationDecides`, `OnlyClientKeysWritten`, `FailureLeavesSession` and `IssuedRequestThenAcceptedResponse` |
| Raven.Session.Set | raven.rb:223-224 | storing a key changes that key and nothing else |
| Raven.Raven.Authenticate | raven.rb:144-159 | result, session and request parameters are those of `Authentication`, with `message` and `iact` defaulting to the attributes |
| Raven.Raven.CheckResponseFromRaven | raven.rb:174-186 | nil and no change without a response; otherwise the verdict of `Decide` on the joined response, the session `Commit` leaves and the restored parameters |
| Raven.Raven.CheckResponse | raven.rb:188-197 | result and session are those `Decide` gives for the response |
| Raven.Raven.CheckIssued | raven.rb:195-231 | result and session are those `DecideIssued` gives once the issue time is known |
| Raven.Raven.CheckSignature | raven.rb:212-228 | result and session are those `SignatureVerdict` gives; the session changes only on acceptance |
| Raven.Raven.SendRequestToRaven | raven.rb:235-247 | stores the parameters and the decimal request id, and returns the redirect location |
| RavenProperties.InteractiveSkipsSession | raven.rb:165 | with `iact == 'yes'` stage 1 answers nil, whatever the session holds |
| RavenProperties.CachedPrincipalExactly | raven.rb:167-171 | otherwise stage 1 returns `p` exactly when `p` is stored and the stored expiry reads as a time after now |
| RavenProperties.VersionCheckedFirst | raven.rb:189 | a version mismatch gives 520, whatever else the response holds |
| RavenProperties.UrlCheckedSecond | raven.rb:192 | with the version right, a return-URL mismatch gives 570 |
| RavenProperties.SkewIsStrict | raven.rb:195-197 | a skew of `maxSkew` or more, the bound itself included, gives 550; a smaller one hands the response to the later checks, `DecideIssued`, whatever the settings |
| RavenProperties.InteractionCheckedFourth | raven.rb:200 | required interaction with an empty `auth` field gives 540 once the earlier checks pass |
| RavenProperties.RequestMatchedFifth | raven.rb:203-208 | with matching on, a response that does not echo the stored request id gives 570 |
| RavenProperties.MatchingOffIgnoresRequestId | raven.rb:203-208 | with matching off, the verdict is the same for any two sessions |
| RavenProperties.AcceptedExactly | raven.rb:188-228 | a response is accepted if and only if every check passes, the status is 200, the key id is trusted and the signature verifies; then the principal expires at `now + life.to_i` |
| RavenProperties.IssuedAcceptedExactly | raven.rb:195-228 | the same, for the checks after the issue time is read |
| RavenProperties.SignatureAcceptedExactly | raven.rb:212-228 | the status-200 branch accepts if and only if the key id is trusted and the signature over the signed part verifies |
| RavenProperties.StatusPassedThrough | raven.rb:231 | a response that passes the checks with another status gives `status.to_i` |
| RavenProperties.UnknownKeyNeverVerified | raven.rb:214-215 | an untrusted key id gives 560 whatever the signature verifier would answer |
| RavenProperties.BadSignatureRejected | raven.rb:218-220 | a trusted key id whose signature over the signed part the verifier refuses gives 560 |
| RavenProperties.MissingIssueRejected | raven.rb:178-192 | a response too short to have an `issue` field is refused with 520 or 570, never reaching the issue time |
| RavenProperties.DefaultsTrustOnlyKeyTwo | raven.rb:122-124 | under the default settings any key id other than "2" gives 560 |
| RavenProperties.RejectionCauses | raven.rb:188-231 | every error code is 520, 570, 550, 540 or 560, or else the provider's own status passed through after every check passed |
| RavenProperties.CommitWritesPrincipalAndExpires | raven.rb:223-224 | only acceptance writes the session, and then `principal` and `expires` together and no other key |
| RavenProperties.AcceptedIsCachedUntilExpiry | raven.rb:223-224 | after acceptance, stage 1 returns the principal at every time before the expiry |
| RavenProperties.AcceptedExpires | raven.rb:167 | from the expiry time on, stage 1 no longer returns it |
| RavenProperties.DecideReadsOnlyRequestId | raven.rb:203-208 | the checks of stage 2 (`Decide`) read the session only at `request_id`; restoring the parameters (`Restored`) also reads `stored_parameters` |
| RavenProperties.IssuedReadsOnlyRequestId | raven.rb:203-208 | the same for the checks after the issue time |
| RavenProperties.AcceptedResponseReplayable | raven.rb:203-224 | acceptance leaves `request_id` in place, so the same response is accepted again against the session it produced |
| RavenProperties.RequestIdShape | raven.rb:240 | the request id is one to six digits and reads back as the number drawn |
| RavenProperties.RedirectQuery | raven.rb:243 | the redirect is the provider URL, `?`, then the eight `name=value` pairs in order; when no escaped value holds `;`, splitting the query gives the pairs back, with the request id in `params` |
| RavenProperties.RedirectJoinsPairs | raven.rb:243 | the interpolated location equals the provider URL, `?` and the `QueryNames` pairs joined by `;` |
| RavenProperties.InterpolatedQuery | raven.rb:243 | for any eight escaped values, the interpolated string equals the URL, `?` and the eight `name=value` pairs joined by `;` |
| RavenProperties.CachedSessionWins | raven.rb:152 | when stage 1 finds a principal, it is returned and nothing is written |
| RavenProperties.RedirectOnlyWithoutResponse | raven.rb:152 | `authenticate` redirects exactly when stage 1 finds nothing and no response was sent; with a response present the request id and stored parameters are left alone |
| RavenProperties.RedirectStoresRequestId | raven.rb:235-247 | a redirect stores the parameters and the request id, sends that same id as `params`, and writes no other key |
| RavenProperties.OnlyClientKeysWritten | raven.rb:152 | no call writes a session key other than `principal`, `expires`, `request_id` and `stored_parameters` |
| RavenProperties.FailureLeavesSession | raven.rb:174-231 | an exception or an error code leaves the session as it was |
| RavenProperties.AuthenticationDecides | raven.rb:152 | with no cached principal and a response present, the call returns and commits the verdict of stage 2 |
| RavenProperties.IssuingKeepsCache | raven.rb:235-247 | issuing a request stores the request id and leaves what stage 1 sees unchanged |
| RavenProperties.FieldsAccepted | raven.rb:188-228 | a response read as acceptable fields, whose text signs the first eleven, is accepted with expiry `now + life` |
| RavenProperties.AcceptableReplyAccepted | raven.rb:174-228 | a well-formed response with the right version, URL, skew and interaction, echoing the stored request id, with status 200 and a signature that verifies under a trusted key, is accepted |
| RavenProperties.AcceptedThenCached | raven.rb:152-228 | a call whose response is accepted returns the principal, and stage 1 then finds it until the expiry |
| RavenProperties.VerdictThenCached | raven.rb:144-247 | once the reply is accepted against the session the redirect left, the second call returns its principal and stage 1 finds it until the expiry |
| RavenProperties.IssuedRequestThenAcceptedResponse | raven.rb:144-247 | round trip: a first call redirects and stores request id N; a second call carrying an acceptable response that echoes N returns its principal, which stage 1 then returns until `now + life` |
| RavenProperties.StaleResponseRefused | raven.rb:203-208 | with matching on, a response echoing anything other than the stored request id gives 570 |

## Left out

- Raven.CheckSession: never raises. In Ruby 1.8, `Time.at` converts `expires.to_i` to a C `long` and raises `RangeError` when the value does not fit (raven.rb:167). That is 2^63 on a 64-bit build and 2^31 where `long` is 32 bits. The value comes from `now + life.to_i`, and the provider chooses `life` (raven.rb:224). The model answers for every integer, so a cached principal with an out-of-range expiry is returned instead of raising.
- Raven.FirstValue: models only urlencoded requests. On a multipart/form-data request, Ruby 1.8's `CGI#[]` returns an IO object, `StringIO.new("")` when the parameter is absent, and never `""`. So raven.rb:175 never skips stage 2 there: such a request without a response gets 520 instead of a redirect. The model always takes the urlencoded reading.
- `CGI#redirect` (raven.rb:31-33) prints the 302 header. The model returns the location as `Redirect(location)` instead of printing it.
- Opening and closing the session (raven.rb:149, 155) and `de_authenticate` (raven.rb:139-141) belong to the session store. The session is a string-to-string map held by a `Session` object.
- Loading the key file (raven.rb:123-128) is file I/O. Its outcome is the `loadedKey` input of `Defaults`, and the error messages are left out.
- The return-URL guess `@return_url ||= …` (raven.rb:146) reads the web server's headers. The return URL is an input of `Defaults` and a field of the settings.
- `Time.gm`, `CGI.escape`/`CGI.unescape`, `Base64.decode64`, the RSA/SHA-1 `verify`, and YAML `to_yaml`/`load` are library code. They are uninterpreted functions in `Externals`.
- `Time.now` is read several times in one call and has fractional seconds. The model reads one integer clock value `now` per call, used for the skew, the expiry check and the expiry written.
- `rand(999999)` is the input `nonce`, with `0 <= nonce < 999999`.
- `$stderr` logging (raven.rb:184-185, 206) is left out.
- Raven.Raven.CheckResponseFromRaven: when `YAML::load` fails the parameters are left as they were. The model does not capture Ruby leaving them partly assigned.
- RubyString.ToI: models `String#to_i` for white space, sign, digits and single underscores. The `0d` radix prefix is not modelled.
- Raven.Raven.CheckSignature: `expires` is written as the decimal string of the Integer. This matches what a file-backed session stores. In memory Ruby holds an Integer, and `ToIIntToS` shows that both read back the same.
- The Ruby 1.9 meaning of `Array#to_s` is out of scope. The model follows Ruby 1.8, where the values of a repeated `WLS-Response` are concatenated.
- Characters are Dafny `char`. Multibyte strings, where Ruby 1.8 counts bytes, are not modelled.
- Concurrent requests sharing one session are not modelled. Each call runs alone.
- `ravenexample.rb` is an example application and is not part of this model.
