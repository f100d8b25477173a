/** Token claims shared by the identity service (which issues them) and the
    course service (which checks them), and the opaque signing codec. */
module Tokens {
  import opened Prelude
  import Http

  /** The closed set of roles; no role implies another. */
  datatype Role = Student | Instructor | Admin

  /** The signed payload of a token: subject, role snapshot, expiry (seconds
      since the epoch). */
  datatype Claims = Claims(sub: Uuid, role: Role, exp: int)

  /** A token is valid for 24 hours after issuance. */
  const TokenLifetime: int := 24 * 60 * 60

  /** The claims issued at time `now` for a verified identity. */
  function IssueClaims(sub: Uuid, role: Role, now: int): (c: Claims)
    ensures c.sub == sub && c.role == role
    ensures c.exp == now + 86400 && c.exp > now
  {
    Claims(sub, role, now + TokenLifetime)
  }

  /** Signing claims under a secret (`jsonwebtoken::encode` with the default
      header); `None` is an encoding failure. */
  type Encoder = (Claims, string) -> Option<string>

  /** Decoding and validating a token under a secret at time `now`
      (`jsonwebtoken::decode` with the default validation); `None` is any
      signature, shape or expiry failure. */
  type Decoder = (string, string, int) -> Option<Claims>

  /** The assumption the model makes about the codec, which it cannot see:
      a token it signs decodes, under the same secret and at any time strictly
      before its expiry, to exactly the signed claims; and a signed token is
      visible ASCII, so it can travel in a header. */
  ghost predicate CodecSound(encode: Encoder, decode: Decoder)
  {
    && (forall c: Claims, key: string, now: int ::
          encode(c, key).Some? && now < c.exp ==> decode(encode(c, key).value, key, now) == Some(c))
    && (forall c: Claims, key: string ::
          encode(c, key).Some? ==> Http.VisibleText(encode(c, key).value))
  }
}
