/** The slice of HTTP the handlers rely on: response status codes, the
    conversion of a raw header value to text, and prefix stripping. */
module Http {
  import opened Prelude

  /** Every status either service's handlers can answer with. */
  datatype Status =
    | Ok
    | Created
    | Unauthorized
    | Forbidden
    | NotFound
    | Conflict
    | InternalServerError
  {
    /** The numeric HTTP status code. */
    function Code(): nat
    {
      match this
      case Ok => 200
      case Created => 201
      case Unauthorized => 401
      case Forbidden => 403
      case NotFound => 404
      case Conflict => 409
      case InternalServerError => 500
    }
  }

  /** A byte a header value may hold and still read as text: a horizontal
      tab or a printable ASCII character. */
  predicate Visible(b: int)
  {
    b == 9 || 32 <= b < 127
  }

  predicate AllVisible(v: seq<byte>)
  {
    forall i :: 0 <= i < |v| ==> Visible(v[i])
  }

  /** Text that can travel as a header value unchanged. */
  predicate VisibleText(s: string)
  {
    forall i :: 0 <= i < |s| ==> Visible(s[i] as int)
  }

  /** A header value read as text (`HeaderValue::to_str`): fails on any byte
      that is not visible ASCII, otherwise maps each byte to its character. */
  function ToStr(v: seq<byte>): (r: Option<string>)
    ensures r.Some? <==> AllVisible(v)
    ensures r.Some? ==> |r.value| == |v|
    ensures r.Some? ==> forall i :: 0 <= i < |v| ==> r.value[i] as int == v[i]
  {
    if v == [] then Some([])
    else if !Visible(v[0]) then None
    else match ToStr(v[1..])
      case None => None
      case Some(rest) => Some([v[0] as char] + rest)
  }

  /** The bytes a client sends for a header value written as visible text. */
  function Bytes(s: string): (v: seq<byte>)
    requires VisibleText(s)
    ensures |v| == |s|
    ensures forall i :: 0 <= i < |s| ==> v[i] == s[i] as int
  {
    if s == [] then [] else [s[0] as int as byte] + Bytes(s[1..])
  }

  /** Reading back the bytes of a visible text yields that text. */
  lemma {:induction false} BytesThenToStr(s: string)
    requires VisibleText(s)
    ensures AllVisible(Bytes(s))
    ensures ToStr(Bytes(s)) == Some(s)
  {
    if s != [] {
      var v := Bytes(s);
      BytesThenToStr(s[1..]);
      assert v[1..] == Bytes(s[1..]);
      assert v[0] as char == s[0];
      assert [s[0]] + s[1..] == s;
    }
  }

  /** `str::strip_prefix`: the remainder after `prefix`, if `s` starts with it. */
  function StripPrefix(s: string, prefix: string): (r: Option<string>)
    ensures r.Some? <==> prefix <= s
    ensures r.Some? ==> prefix + r.value == s
  {
    if prefix <= s then Some(s[|prefix|..]) else None
  }

  /** Stripping a prefix that was just prepended gives back the rest. */
  lemma StripPrepended(prefix: string, rest: string)
    ensures StripPrefix(prefix + rest, prefix) == Some(rest)
  {
    assert prefix <= prefix + rest;
    assert (prefix + rest)[|prefix|..] == rest;
  }
}
