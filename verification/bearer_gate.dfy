/** The course service's claims extractor: every protected handler receives
    its caller's claims only through this gate. */
module BearerGate {
  import opened Prelude
  import opened Http
  import opened Tokens

  /** The exact, case-sensitive authentication scheme prefix. */
  const BearerPrefix: string := "Bearer "

  /** Either the claims of a verified caller, or the rejection status. */
  datatype Gate = Admitted(claims: Claims) | Rejected(status: Status)

  /** The token carried by the `authorization` header value, if the header is
      present, reads as text and starts with the bearer prefix. */
  function BearerToken(authorization: Option<seq<byte>>): (t: Option<string>)
    ensures t.Some? <==>
              && authorization.Some?
              && AllVisible(authorization.value)
              && BearerPrefix <= ToStr(authorization.value).value
    ensures t.Some? ==> BearerPrefix + t.value == ToStr(authorization.value).value
  {
    match authorization
    case None => None
    case Some(raw) =>
      match ToStr(raw)
      case None => None
      case Some(text) => StripPrefix(text, BearerPrefix)
  }

  /** Header, prefix, then decode: each failure is a 401, and a caller is
      admitted with exactly the claims the decoder reconstructs from the
      stripped token. */
  function ExtractClaims(authorization: Option<seq<byte>>, secret: string, now: int, decode: Decoder): (r: Gate)
    ensures r.Rejected? ==> r.status == Unauthorized
    ensures r.Admitted? <==>
              BearerToken(authorization).Some? && decode(BearerToken(authorization).value, secret, now).Some?
    ensures r.Admitted? ==> Some(r.claims) == decode(BearerToken(authorization).value, secret, now)
  {
    match BearerToken(authorization)
    case None => Rejected(Unauthorized)
    case Some(token) =>
      match decode(token, secret, now)
      case None => Rejected(Unauthorized)
      case Some(claims) => Admitted(claims)
  }

  /** A missing header is a 401 whatever the decoder would say. */
  lemma MissingHeaderRejected(secret: string, now: int, decode: Decoder)
    ensures ExtractClaims(None, secret, now, decode) == Rejected(Unauthorized)
  {
  }

  /** A header value that reads as text but does not start with the exact
      prefix (for example `bearer ` or `Token `) is a 401 whatever it
      carries; the decoder is never consulted. */
  lemma WrongSchemeRejected(text: string, secret: string, now: int, decode: Decoder)
    requires VisibleText(text)
    requires !(BearerPrefix <= text)
    ensures ExtractClaims(Some(Bytes(text)), secret, now, decode) == Rejected(Unauthorized)
  {
    BytesThenToStr(text);
  }

  /** A header value holding a non-visible byte is a 401. */
  lemma UnreadableHeaderRejected(raw: seq<byte>, secret: string, now: int, decode: Decoder)
    requires !AllVisible(raw)
    ensures ExtractClaims(Some(raw), secret, now, decode) == Rejected(Unauthorized)
  {
  }

  /** The bearer prefix followed by visible text is visible text. */
  lemma PrefixedVisible(token: string)
    requires VisibleText(token)
    ensures VisibleText(BearerPrefix + token)
  {
    var text := BearerPrefix + token;
    forall i | 0 <= i < |text|
      ensures Visible(text[i] as int)
    {
      if i >= |BearerPrefix| {
        assert text[i] == token[i - |BearerPrefix|];
      }
    }
  }

  /** The header value a client sends to present `token`; the gate reads
      back exactly that token from it. */
  function BearerHeader(token: string): (h: Option<seq<byte>>)
    requires VisibleText(token)
    ensures BearerToken(h) == Some(token)
  {
    PrefixedVisible(token);
    BytesThenToStr(BearerPrefix + token);
    StripPrepended(BearerPrefix, token);
    Some(Bytes(BearerPrefix + token))
  }

  /** A client sending `Bearer <token>` has exactly `<token>` decoded: the
      gate's outcome is the decoder's verdict on that token. */
  lemma BearerHeaderDecodesToken(token: string, secret: string, now: int, decode: Decoder)
    requires VisibleText(token)
    ensures ExtractClaims(BearerHeader(token), secret, now, decode)
            == match decode(token, secret, now)
               case None => Rejected(Unauthorized)
               case Some(c) => Admitted(c)
  {
  }
}
