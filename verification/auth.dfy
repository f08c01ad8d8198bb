/** The request gate that runs before every route: exempt paths and pre-flight
    requests pass untouched, every other request needs an `Authorization: Bearer …`
    header whose token decodes to a payload with a truthy `id`; on a decoded
    payload the request context receives the user's id, email and role. */
module Auth {
  import opened Common
  import opened Text

  /** Path prefixes that skip authentication (documentation, static files, login,
      password reset and public PDFs). */
  const ExemptPrefixes: seq<string> := [
    "/apidocs", "/swagger.json", "/flasgger_static", "/static",
    "/api/login", "/api/forgot-password", "/public/pdfs", "/pdfs"
  ]

  const BearerPrefix := "Bearer "
  const MissingHeader := "Missing or invalid Authorization header"
  const InvalidPayload := "Invalid token payload"
  const TokenExpired := "Token expired"
  const TokenInvalid := "Invalid token"
  const TokenErrorPrefix := "Token error: "

  /** What the token decoder produces: the claims of a valid token, or the kind of
      failure it raised (an expired signature, any other invalid token, or some other
      exception with its message). Signature checking itself is not modelled. */
  datatype Decoded =
    | Payload(claims: map<string, Json>)
    | ExpiredSignature
    | InvalidToken
    | OtherFailure(message: string)

  /** The gate's verdict: let the request through, or answer with a status and error. */
  datatype Gate = Pass | Reject(status: int, error: string)

  /** A path is exempt when it starts with one of the prefixes or is the root. */
  predicate Exempt(path: string)
  {
    (exists i :: 0 <= i < |ExemptPrefixes| && StartsWith(path, ExemptPrefixes[i])) || path == "/"
  }

  /** The header is present, non-empty and starts with `Bearer `. */
  predicate Bearer(header: Option<string>)
  {
    header.Some? && header.value != "" && StartsWith(header.value, BearerPrefix)
  }

  /** `header.split("Bearer ")[1]`: the header starts with the separator, so the
      second piece is what follows it, up to the next separator. */
  function TokenOf(header: string): string
    requires StartsWith(header, BearerPrefix)
  {
    Before(header[|BearerPrefix|..], BearerPrefix)
  }

  /** `decoded.get(k)`: a missing claim reads as `None`. */
  function Claim(claims: map<string, Json>, k: string): (v: Json)
    ensures k !in claims ==> v == JNull
    ensures k in claims ==> v == claims[k]
  {
    if k in claims then claims[k] else JNull
  }

  /** The verdict for one request. */
  function Check(path: string, verb: string, header: Option<string>, decode: string -> Decoded): (gate: Gate)
    ensures gate.Reject? ==> gate.status == 401 || gate.status == 403
    ensures gate.Reject? && gate.status == 403 ==> gate.error == InvalidPayload
  {
    if Exempt(path) || verb == "OPTIONS" then Pass
    else if !Bearer(header) then Reject(401, MissingHeader)
    else
      match decode(TokenOf(header.value))
      case Payload(claims) => if Truthy(Claim(claims, "id")) then Pass else Reject(403, InvalidPayload)
      case ExpiredSignature => Reject(401, TokenExpired)
      case InvalidToken => Reject(401, TokenInvalid)
      case OtherFailure(m) => Reject(401, TokenErrorPrefix + m)
  }

  /** The claims copied into the request context, if the gate got as far as decoding
      a payload (this happens before the `id` check, so also on a 403). */
  function Stamped(path: string, verb: string, header: Option<string>, decode: string -> Decoded)
    : Option<map<string, Json>>
  {
    if Exempt(path) || verb == "OPTIONS" || !Bearer(header) then None
    else
      match decode(TokenOf(header.value))
      case Payload(claims) => Some(claims)
      case _ => None
  }

  /** The per-request context (`g`) that later handlers read the caller from. */
  class RequestContext {
    var userId: Json
    var userEmail: Json
    var userRole: Json

    constructor()
      ensures userId == JNull && userEmail == JNull && userRole == JNull
    {
      userId := JNull;
      userEmail := JNull;
      userRole := JNull;
    }

    /** Run the gate on one request, recording the decoded caller in the context. */
    method CheckAuth(path: string, verb: string, header: Option<string>, decode: string -> Decoded)
      returns (gate: Gate)
      modifies this
      ensures gate == Check(path, verb, header, decode)
      ensures Stamped(path, verb, header, decode).None? ==>
        userId == old(userId) && userEmail == old(userEmail) && userRole == old(userRole)
      ensures Stamped(path, verb, header, decode).Some? ==>
        var claims := Stamped(path, verb, header, decode).value;
        userId == Claim(claims, "id") && userEmail == Claim(claims, "email") && userRole == Claim(claims, "role")
    {
      if Exempt(path) || verb == "OPTIONS" {
        return Pass;
      }
      if header.None? || header.value == "" || !StartsWith(header.value, BearerPrefix) {
        return Reject(401, MissingHeader);
      }
      var token := TokenOf(header.value);
      var decoded := decode(token);
      match decoded {
        case Payload(claims) =>
          userId := Claim(claims, "id");
          userEmail := Claim(claims, "email");
          userRole := Claim(claims, "role");
          if !Truthy(userId) {
            return Reject(403, InvalidPayload);
          }
          return Pass;
        case ExpiredSignature =>
          return Reject(401, TokenExpired);
        case InvalidToken =>
          return Reject(401, TokenInvalid);
        case OtherFailure(m) =>
          return Reject(401, TokenErrorPrefix + m);
      }
    }
  }

  /** The exemption is a prefix match: every path below an exempt prefix is exempt too,
      whatever it continues with. */
  lemma {:induction false} ExemptBelowPrefix(path: string, rest: string)
    requires exists i :: 0 <= i < |ExemptPrefixes| && StartsWith(path, ExemptPrefixes[i])
    ensures Exempt(path + rest)
  {
    var i :| 0 <= i < |ExemptPrefixes| && StartsWith(path, ExemptPrefixes[i]);
    var p := ExemptPrefixes[i];
    assert (path + rest)[..|p|] == path[..|p|];
    assert StartsWith(path + rest, p);
  }

  /** For instance the OTP verification endpoint needs no token. */
  lemma {:induction false} VerifyEndpointExempt(verb: string, header: Option<string>, decode: string -> Decoded)
    ensures Check("/api/forgot-password/verify", verb, header, decode) == Pass
  {
    assert StartsWith("/api/forgot-password", ExemptPrefixes[5]);
    ExemptBelowPrefix("/api/forgot-password", "/verify");
    assert "/api/forgot-password" + "/verify" == "/api/forgot-password/verify";
  }

  /** Exempt paths and pre-flight requests pass whatever their header, and nothing is
      recorded about the caller. */
  lemma {:induction false} BypassPasses(path: string, verb: string, header: Option<string>, decode: string -> Decoded)
    requires Exempt(path) || verb == "OPTIONS"
    ensures Check(path, verb, header, decode) == Pass
    ensures Stamped(path, verb, header, decode).None?
  {
  }

  /** On a guarded request, the "missing or invalid header" answer is given exactly
      when the header is absent, empty, or lacks the `Bearer ` prefix. */
  lemma {:induction false} HeaderRejection(path: string, verb: string, header: Option<string>, decode: string -> Decoded)
    requires !Exempt(path) && verb != "OPTIONS"
    ensures Check(path, verb, header, decode) == Reject(401, MissingHeader) <==> !Bearer(header)
  {
    if Bearer(header) {
      var d := decode(TokenOf(header.value));
      if d.OtherFailure? {
        assert (TokenErrorPrefix + d.message)[0] != MissingHeader[0];
      }
    }
  }

  /** The token is the text after the leading `Bearer ` up to the next `Bearer `, if
      any: a prefix of the rest of the header that never contains the separator, and
      all of the rest when the separator does not occur again. */
  lemma {:induction false} TokenExtraction(header: string)
    requires StartsWith(header, BearerPrefix)
    ensures var rest := header[|BearerPrefix|..];
      |TokenOf(header)| <= |rest| && TokenOf(header) == rest[..|TokenOf(header)|]
    ensures !Occurs(TokenOf(header), BearerPrefix)
    ensures !Occurs(header[|BearerPrefix|..], BearerPrefix) ==> TokenOf(header) == header[|BearerPrefix|..]
  {
    var rest := header[|BearerPrefix|..];
    BeforeIsPrefix(rest, BearerPrefix);
    BeforeAvoidsSep(rest, BearerPrefix);
    if !Occurs(rest, BearerPrefix) {
      BeforeWithoutSep(rest, BearerPrefix);
    }
  }

  /** How each decoder outcome on a well-formed header maps to the verdict: a payload
      passes iff its `id` is truthy (else 403), an expired signature and any other
      invalid token give 401 with their own messages, and any other failure gives 401
      carrying its message. */
  lemma {:induction false} DecodeOutcomes(path: string, verb: string, header: Option<string>, decode: string -> Decoded)
    requires !Exempt(path) && verb != "OPTIONS" && Bearer(header)
    ensures var d := decode(TokenOf(header.value));
      && (d.Payload? ==> (Check(path, verb, header, decode) == Pass <==> Truthy(Claim(d.claims, "id"))))
      && (d.Payload? && !Truthy(Claim(d.claims, "id")) ==> Check(path, verb, header, decode) == Reject(403, InvalidPayload))
      && (d.ExpiredSignature? ==> Check(path, verb, header, decode) == Reject(401, TokenExpired))
      && (d.InvalidToken? ==> Check(path, verb, header, decode) == Reject(401, TokenInvalid))
      && (d.OtherFailure? ==> Check(path, verb, header, decode) == Reject(401, TokenErrorPrefix + d.message))
  {
  }

  /** A guarded request that passes carried a decodable token whose payload has a
      truthy `id`, and that payload is what the context records. */
  lemma {:induction false} PassedCallerKnown(path: string, verb: string, header: Option<string>, decode: string -> Decoded)
    requires !Exempt(path) && verb != "OPTIONS"
    requires Check(path, verb, header, decode) == Pass
    ensures Bearer(header)
    ensures Stamped(path, verb, header, decode) == Some(decode(TokenOf(header.value)).claims)
    ensures Truthy(Claim(Stamped(path, verb, header, decode).value, "id"))
  {
  }
}
