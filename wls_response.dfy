/**
 * The identity provider's signed response, the `WLS-Response` value: thirteen
 * `!`-separated fields, the last two of which are the key id and the
 * signature over everything before them.
 */
module WlsResponse {
  import opened Wrappers
  import opened RubyString

  const Separator := '!'
  const FieldCount := 13

  /**
   * The fields as Ruby's multiple assignment from `split('!')` leaves them:
   * a field past the end of the split is nil.
   */
  datatype Response = Response(
    ver: Option<string>, status: Option<string>, msg: Option<string>,
    issue: Option<string>, id: Option<string>, url: Option<string>,
    principal: Option<string>, auth: Option<string>, sso: Option<string>,
    life: Option<string>, params: Option<string>, kid: Option<string>,
    sig: Option<string>)

  /**
   * A response as parsing leaves it: fields are filled from the front, so a
   * present signature means every earlier field is present.
   */
  type Parsed = r: Response | r.sig.Some? ==>
      r.ver.Some? && r.status.Some? && r.msg.Some? && r.issue.Some? && r.id.Some? &&
      r.url.Some? && r.principal.Some? && r.auth.Some? && r.sso.Some? &&
      r.life.Some? && r.params.Some? && r.kid.Some?
    witness Response(None, None, None, None, None, None, None, None, None, None, None, None, None)

  function Field(parts: seq<string>, i: nat): Option<string>
  {
    if i < |parts| then Some(parts[i]) else None
  }

  /**
   * Ruby's multiple assignment of a field list to the thirteen names: the
   * first thirteen fields in order, nil past the end, extra ones ignored.
   */
  function Assign(parts: seq<string>): (r: Parsed)
    ensures r.sig.Some? <==> |parts| >= FieldCount
    ensures r.sig.Some? ==> r.sig.value == parts[FieldCount - 1]
  {
    Response(Field(parts, 0), Field(parts, 1), Field(parts, 2), Field(parts, 3), Field(parts, 4),
             Field(parts, 5), Field(parts, 6), Field(parts, 7), Field(parts, 8), Field(parts, 9),
             Field(parts, 10), Field(parts, 11), Field(parts, 12))
  }

  /**
   * Splits the response on `!`. The number of fields is not checked: missing
   * ones (including empty ones at the end, which `split` drops) are nil and
   * extra ones are ignored.
   */
  function Parse(raw: string): (r: Parsed)
    ensures r.sig.Some? ==> r.sig.value != "" || |Split(raw, Separator)| > FieldCount
  {
    Assign(Split(raw, Separator))
  }

  /** The wire form of thirteen fields, as the provider writes it. */
  function Format(fields: seq<string>): string
    requires |fields| == FieldCount
  {
    Join(fields, Separator)
  }

  /** A field list the provider can send so that it reads back field by field. */
  predicate WellFormed(fields: seq<string>)
  {
    |fields| == FieldCount && NoSeparator(fields, Separator) && fields[FieldCount - 1] != ""
  }

  /** Parsing the wire form of well-formed fields gives back each field. */
  lemma ParseFormat(f: seq<string>)
    requires WellFormed(f)
    ensures Parse(Format(f)) == Response(
      Some(f[0]), Some(f[1]), Some(f[2]), Some(f[3]), Some(f[4]), Some(f[5]),
      Some(f[6]), Some(f[7]), Some(f[8]), Some(f[9]), Some(f[10]), Some(f[11]),
      Some(f[12]))
  {
    SplitJoin(f, Separator);
  }

  /**
   * The signed part of the response: `raw[0 .. -(|sig| + |kid| + 3)]`, the
   * prefix of length `|raw| - |kid| - |sig| - 2`, or empty when that is negative.
   */
  function SignedPart(raw: string, kid: string, sig: string): (m: string)
    ensures m <= raw
    ensures |m| == if |raw| >= |kid| + |sig| + 2 then |raw| - |kid| - |sig| - 2 else 0
  {
    var keep := |raw| - (|sig| + |kid| + 3) + 1;
    if keep <= 0 then "" else raw[..keep]
  }

  /** With `!kid!sig` at the end, the signed part is exactly what comes before it. */
  lemma SignedPartDropsTrailer(m: string, kid: string, sig: string)
    ensures SignedPart(m + [Separator] + kid + [Separator] + sig, kid, sig) == m
  {
    var raw := m + [Separator] + kid + [Separator] + sig;
    assert raw[..|m|] == m;
  }

  /** On a well-formed response the signed part is the first eleven fields, through `params`. */
  lemma SignedPartOfFormat(f: seq<string>)
    requires |f| == FieldCount
    ensures SignedPart(Format(f), f[11], f[12]) == Join(f[..11], Separator)
  {
    JoinAppend(f[..11], f[11..], Separator);
    assert f[..11] + f[11..] == f;
    JoinAppend([f[11]], [f[12]], Separator);
    assert f[11..] == [f[11]] + [f[12]];
    SignedPartDropsTrailer(Join(f[..11], Separator), f[11], f[12]);
  }

  /** `tr('-._', '+/=')` on one character. */
  function ToStandardChar(c: char): char
  {
    if c == '-' then '+' else if c == '.' then '/' else if c == '_' then '=' else c
  }

  /** The provider's substitution, the inverse of `ToStandardChar`. */
  function ToUrlSafeChar(c: char): char
  {
    if c == '+' then '-' else if c == '/' then '.' else if c == '=' then '_' else c
  }

  /**
   * `sig.tr('-._', '+/=')`: maps the signature from the transport-safe
   * alphabet back to the standard base64 alphabet of RFC 4648 section 4.
   */
  function SignatureToBase64(sig: string): (b: string)
    ensures |b| == |sig|
    ensures forall i | 0 <= i < |sig| :: b[i] == ToStandardChar(sig[i])
  {
    if |sig| == 0 then "" else [ToStandardChar(sig[0])] + SignatureToBase64(sig[1..])
  }

  /** How the provider writes standard base64 text into the signature field. */
  function Base64ToUrlSafe(b: string): (sig: string)
    ensures |sig| == |b|
    ensures forall i | 0 <= i < |b| :: sig[i] == ToUrlSafeChar(b[i])
  {
    if |b| == 0 then "" else [ToUrlSafeChar(b[0])] + Base64ToUrlSafe(b[1..])
  }

  /** A character of the standard base64 alphabet of RFC 4648 section 4, or padding. */
  predicate IsBase64Char(c: char)
  {
    'A' <= c <= 'Z' || 'a' <= c <= 'z' || '0' <= c <= '9' || c == '+' || c == '/' || c == '='
  }

  /** A character of the transport-safe alphabet the signature field uses. */
  predicate IsUrlSafeChar(c: char)
  {
    'A' <= c <= 'Z' || 'a' <= c <= 'z' || '0' <= c <= '9' || c == '-' || c == '.' || c == '_'
  }

  /** The client recovers the provider's base64 text exactly. */
  lemma SignatureRoundTrip(b: string)
    requires forall i | 0 <= i < |b| :: IsBase64Char(b[i])
    ensures SignatureToBase64(Base64ToUrlSafe(b)) == b
  {
    var back := SignatureToBase64(Base64ToUrlSafe(b));
    forall i | 0 <= i < |b| ensures back[i] == b[i] {
      StandardCharRoundTrip(b[i]);
    }
  }

  lemma StandardCharRoundTrip(c: char)
    requires IsBase64Char(c)
    ensures ToStandardChar(ToUrlSafeChar(c)) == c
  {
  }

  /**
   * Every transport-safe signature maps into the base64 alphabet and back to
   * itself; with `SignatureRoundTrip` this makes the two mappings inverse
   * bijections between the two alphabets.
   */
  lemma SignatureRoundTripBack(sig: string)
    requires forall i | 0 <= i < |sig| :: IsUrlSafeChar(sig[i])
    ensures Base64ToUrlSafe(SignatureToBase64(sig)) == sig
    ensures forall i | 0 <= i < |sig| :: IsBase64Char(SignatureToBase64(sig)[i])
  {
    var b := SignatureToBase64(sig);
    var back := Base64ToUrlSafe(b);
    forall i | 0 <= i < |sig| ensures back[i] == sig[i] && IsBase64Char(b[i]) {
      assert b[i] == ToStandardChar(sig[i]);
      assert back[i] == ToUrlSafeChar(b[i]);
    }
  }
}
