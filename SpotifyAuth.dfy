// Client-credentials authentication against the Spotify accounts service
// (utils/spotify/auth.py, repeated verbatim in utils/spotify_utils.py): the
// Basic credentials of section 2 of RFC 7617, the token request of section
// 4.4.2 of RFC 6749 and the Bearer header of section 2.1 of RFC 6750.

module SpotifyAuth {
  import opened Wrappers
  import opened Strings
  import opened Py
  import opened Bytes
  import opened Base64

  /** The characters of `token68` (section 2.1 of RFC 7235), which is also the
      `b64token` of section 2.1 of RFC 6750. */
  predicate IsToken68Char(c: char) {
    'A' <= c <= 'Z' || 'a' <= c <= 'z' || '0' <= c <= '9' ||
    c == '-' || c == '.' || c == '_' || c == '~' || c == '+' || c == '/'
  }

  /** `s` without its trailing run of `=`. */
  function Unpadded(s: string): (r: string)
    ensures |r| <= |s| && r == s[..|r|]
    ensures forall i :: |r| <= i < |s| ==> s[i] == '='
    ensures |r| == 0 || s[|r| - 1] != '='
    decreases |s|
  {
    if |s| == 0 || s[|s| - 1] != '=' then s else Unpadded(s[..|s| - 1])
  }

  /** `token68 = 1*( ALPHA / DIGIT / "-" / "." / "_" / "~" / "+" / "/" ) *"="`. */
  predicate IsToken68(s: string) {
    var body := Unpadded(s);
    |body| >= 1 && forall i :: 0 <= i < |body| ==> IsToken68Char(body[i])
  }

  /** Every non-empty Base64 text is a `token68`. */
  lemma Base64IsToken68(bytes: seq<Byte>)
    requires |bytes| > 0
    ensures IsToken68(Encode(bytes))
  {
    EncodeIsPadded(bytes);
    PaddedIsToken68(Encode(bytes));
  }

  lemma PaddedIsToken68(s: string)
    requires IsPaddedBase64(s) && |s| > 0 && IsAlphabetChar(s[0])
    ensures IsToken68(s)
  {
    var body := Unpadded(s);
    assert s[0] != '=';
    assert |body| >= 1;
    forall i | 0 <= i < |body| ensures IsToken68Char(body[i]) {
      var last := |body| - 1;
      assert s[last] != '=';
      assert s[i] != '=';
      assert body[i] == s[i];
    }
  }

  // ---- Bearer (section 2.1 of RFC 6750) ----

  /** `get_auth_header(token)`: a single `Authorization` header carrying the token. */
  function GetAuthHeader(token: string): (h: Headers)
    ensures h.Keys == {"Authorization"}
    ensures BearerToken(h["Authorization"]) == Some(token)
  {
    map["Authorization" := "Bearer " + token]
  }

  /** The token a `Bearer` credentials value carries, the reading a resource
      server applies to the header. */
  function BearerToken(value: string): Option<string> {
    if StartsWith(value, "Bearer ") then Some(value[7..]) else None
  }

  /** `credentials = "Bearer" SP b64token`, with the single space the header uses. */
  predicate IsBearerCredentials(value: string) {
    StartsWith(value, "Bearer ") && IsToken68(value[7..])
  }

  /** The header is well-formed Bearer credentials exactly when the token is a `b64token`. */
  lemma GetAuthHeaderWellFormed(token: string)
    ensures IsBearerCredentials(GetAuthHeader(token)["Authorization"]) <==> IsToken68(token)
  {
    var v := "Bearer " + token;
    assert v[..7] == "Bearer " && v[7..] == token;
  }

  // ---- Basic (section 2 of RFC 7617) ----

  /** The value of the `Authorization` header `get_token` sends: `Basic `
      followed by the Base64 of the UTF-8 bytes of `client_id:client_secret`. */
  function BasicCredentials(clientId: string, clientSecret: string): (v: string)
    ensures StartsWith(v, "Basic ")
  {
    "Basic " + Encode(Utf8(clientId + ":" + clientSecret))
  }

  /** The user-id and password bytes of a Basic credentials value, split at the
      first colon as section 2 of RFC 7617 prescribes; `None` when the value is
      not `Basic ` followed by Base64 text holding a colon. */
  function BasicUserPass(value: string): Option<(seq<Byte>, seq<Byte>)> {
    if !StartsWith(value, "Basic ") then None
    else
      match Decode(value[6..])
      case None => None
      case Some(bs) => if Colon in bs then Some(SplitAtByte(bs, Colon)) else None
  }

  const Colon: Byte := 0x3A

  /** The bytes before the first `b` and the bytes after it. */
  function SplitAtByte(bs: seq<Byte>, b: Byte): (seq<Byte>, seq<Byte>)
    requires b in bs
    decreases |bs|
  {
    if bs[0] == b then ([], bs[1..])
    else
      var (before, after) := SplitAtByte(bs[1..], b);
      ([bs[0]] + before, after)
  }

  lemma {:induction false} SplitAtFirstByte(a: seq<Byte>, c: seq<Byte>, b: Byte)
    requires b !in a
    ensures b in a + [b] + c
    ensures SplitAtByte(a + [b] + c, b) == (a, c)
    decreases |a|
  {
    var s := a + [b] + c;
    assert s[|a|] == b;
    if |a| == 0 {
      assert s[1..] == c;
    } else {
      assert s[0] == a[0] && a[0] != b;
      assert s[1..] == a[1..] + [b] + c;
      SplitAtFirstByte(a[1..], c, b);
      assert [a[0]] + a[1..] == a;
    }
  }

  /** The Basic value is `Basic ` followed by Base64 text `e` of the UTF-8 bytes
      of `client_id:client_secret`: the alphabet of section 4 of RFC 4648 with `=` padding, a
      `token68`, four characters per started group of three bytes, and decoding
      it gives back those bytes. */
  lemma BasicCredentialsEncoding(clientId: string, clientSecret: string)
    ensures var bytes := Utf8(clientId + ":" + clientSecret);
            var e := Encode(bytes);
            BasicCredentials(clientId, clientSecret) == "Basic " + e &&
            IsPaddedBase64(e) && IsToken68(e) && |e| == 4 * ((|bytes| + 2) / 3) && Decode(e) == Some(bytes)
  {
    var text := clientId + ":" + clientSecret;
    assert |text| > 0;
    EncodingFacts(Utf8(text));
  }

  lemma EncodingFacts(bytes: seq<Byte>)
    requires |bytes| > 0
    ensures var e := Encode(bytes);
            IsPaddedBase64(e) && IsToken68(e) && |e| == 4 * ((|bytes| + 2) / 3) && Decode(e) == Some(bytes)
  {
    EncodeIsPadded(bytes);
    Base64IsToken68(bytes);
    DecodeEncode(bytes);
  }

  /** The UTF-8 bytes of `id:secret` are those of the id, a colon byte and those of the secret. */
  lemma CredentialBytes(clientId: string, clientSecret: string)
    ensures Utf8(clientId + ":" + clientSecret) == Utf8(clientId) + [Colon] + Utf8(clientSecret)
  {
    assert clientId + ":" + clientSecret == clientId + (":" + clientSecret);
    Utf8Append(clientId, ":" + clientSecret);
    Utf8Append(":", clientSecret);
    assert Utf8(":") == [Colon];
  }

  /** A receiver that splits the decoded credentials at the first colon gets
      the client id and the client secret back, provided the id has no colon
      (section 2 of RFC 7617 forbids one in a user-id). */
  lemma BasicCredentialsRecoverable(clientId: string, clientSecret: string)
    requires ':' !in clientId
    ensures BasicUserPass(BasicCredentials(clientId, clientSecret)) == Some((Utf8(clientId), Utf8(clientSecret)))
  {
    var v := BasicCredentials(clientId, clientSecret);
    var bytes := Utf8(clientId + ":" + clientSecret);
    assert v[6..] == Encode(bytes);
    DecodeEncode(bytes);
    CredentialBytes(clientId, clientSecret);
    Utf8AsciiByte(clientId, ':');
    SplitAtFirstByte(Utf8(clientId), Utf8(clientSecret), Colon);
  }

  // ---- The token request (section 4.4.2 of RFC 6749) ----

  const TokenUrl := "https://accounts.spotify.com/api/token"

  /** The POST `get_token` makes: URL, headers and the form fields of its body. */
  datatype TokenRequest = TokenRequest(url: string, headers: Headers, form: seq<(string, string)>)

  /** `application/x-www-form-urlencoded` serialisation of form fields whose
      names and values need no percent-encoding. */
  function FormBody(form: seq<(string, string)>): string
    decreases |form|
  {
    if |form| == 0 then ""
    else if |form| == 1 then form[0].0 + "=" + form[0].1
    else form[0].0 + "=" + form[0].1 + "&" + FormBody(form[1..])
  }

  /** The single form field of a client-credentials grant. */
  const GrantForm: seq<(string, string)> := [("grant_type", "client_credentials")]

  lemma GrantFormBody()
    ensures FormBody(GrantForm) == "grant_type=client_credentials"
  {
    assert "grant_type" + "=" + "client_credentials" == "grant_type=client_credentials";
  }

  function TokenRequestFor(clientId: string, clientSecret: string): (r: TokenRequest)
    ensures r.url == TokenUrl
    ensures r.headers.Keys == {"Authorization", "Content-Type"}
    ensures r.headers["Authorization"] == BasicCredentials(clientId, clientSecret)
    ensures r.headers["Content-Type"] == "application/x-www-form-urlencoded"
    ensures FormBody(r.form) == "grant_type=client_credentials"
  {
    var r := TokenRequest(
      TokenUrl,
      map["Authorization" := BasicCredentials(clientId, clientSecret),
          "Content-Type" := "application/x-www-form-urlencoded"],
      GrantForm);
    GrantFormBody();
    r
  }

  /** `get_token()`: POST the request, then `json_result["access_token"]`. The
      network and the JSON decoding are the `post` collaborator. */
  function GetToken(clientId: string, clientSecret: string, post: TokenRequest -> Result<JValue>): (r: Result<JValue>)
    ensures var response := post(TokenRequestFor(clientId, clientSecret));
            && (response.Err? ==> r == Err(response.exc))
            && (response.Ok? && response.value.JObj? && "access_token" in response.value.fields ==>
                  r == Ok(response.value.fields["access_token"]))
            && (response.Ok? && response.value.JObj? && "access_token" !in response.value.fields ==>
                  r == Err(KeyError(JStr("access_token"))))
            && (response.Ok? && !response.value.JObj? ==> r == Err(TypeError))
  {
    var response :- post(TokenRequestFor(clientId, clientSecret));
    Subscript(response, "access_token")
  }
}
