/** The GraphQL `context` callback that guards every request: it takes the
    `Authorization` header, strips `Bearer ` from it, and rejects the request
    when no token is left or the token does not decode. Decoding (JWT) is a
    parameter; the callback looks up no user and checks no role or status. */
module AppGate {

  import opened Exceptions
  import Strings

  const BearerPrefix: string := "Bearer "
  const TokenNeeded: string := "Token needed"
  const TokenNotValid: string := "Token not valid"

  datatype Outcome = Accept | Reject(error: Error)

  /** `req.headers.authorization?.replace('Bearer ', '')`: a missing header
      gives no token; otherwise the first `Bearer ` anywhere in the header is
      removed. */
  function ExtractToken(authorization: Option<string>): (t: Option<string>)
    ensures t.None? <==> authorization.None?
    ensures authorization.Some? && (forall i :: 0 <= i <= |authorization.value| ==>
              !Strings.OccursAt(authorization.value, BearerPrefix, i)) ==>
              t == authorization
    ensures forall i :: (authorization.Some? && 0 <= i <= |authorization.value| &&
                         Strings.FirstOccurrence(authorization.value, BearerPrefix, i)) ==>
              t == Some(authorization.value[..i] + authorization.value[i + |BearerPrefix|..])
  {
    match authorization
    case None => None
    case Some(header) =>
      var token := Strings.ReplaceFirst(header, BearerPrefix, "");
      forall i | 0 <= i <= |header| && Strings.FirstOccurrence(header, BearerPrefix, i)
        ensures token == header[..i] + header[i + |BearerPrefix|..]
      {
        assert header[..i] + "" + header[i + |BearerPrefix|..] == header[..i] + header[i + |BearerPrefix|..];
      }
      Some(token)
  }

  /** The callback itself: "Token needed" when the token is missing or
      empty, before any decoding; "Token not valid" when the decoder yields
      no payload; otherwise the request goes ahead. */
  function Context<P>(authorization: Option<string>, decode: string -> Option<P>): (r: Outcome)
    ensures authorization.None? ==> r == Reject(GenericError(TokenNeeded))
    ensures authorization.Some? && Strings.ReplaceFirst(authorization.value, BearerPrefix, "") == "" ==>
              r == Reject(GenericError(TokenNeeded))
    ensures authorization.Some? && Strings.ReplaceFirst(authorization.value, BearerPrefix, "") != "" ==>
              var token := Strings.ReplaceFirst(authorization.value, BearerPrefix, "");
              r == if decode(token).None? then Reject(GenericError(TokenNotValid)) else Accept
  {
    var token := ExtractToken(authorization);
    if token.None? || token.value == "" then
      Reject(GenericError(TokenNeeded))
    else if decode(token.value).None? then
      Reject(GenericError(TokenNotValid))
    else
      Accept
  }

  /** The gate accepts exactly when a non-empty token remains and decodes. */
  lemma AcceptsIff<P>(authorization: Option<string>, decode: string -> Option<P>)
    ensures Context(authorization, decode) == Accept <==>
              exists token :: ExtractToken(authorization) == Some(token) && token != "" && decode(token).Some?
  {
  }

  /** The well-formed header `Bearer <token>` yields exactly `<token>`. */
  lemma {:induction false} BearerHeaderToken(token: string)
    ensures ExtractToken(Some(BearerPrefix + token)) == Some(token)
  {
    Strings.ReplacePrefix(BearerPrefix, token);
  }

  /** A header that is exactly `Bearer ` is rejected as "Token needed"
      whatever the decoder says. */
  lemma {:induction false} EmptyBearerRejected<P>(decode: string -> Option<P>)
    ensures Context(Some(BearerPrefix), decode) == Reject(GenericError(TokenNeeded))
  {
  }

  /** A header in which `Bearer ` does not occur at all (another scheme, or
      a bare token) is passed to the decoder unchanged. */
  lemma {:induction false} HeaderWithoutBearer(header: string)
    requires forall i :: 0 <= i <= |header| ==> !Strings.OccursAt(header, BearerPrefix, i)
    ensures ExtractToken(Some(header)) == Some(header)
  {
  }

  /** `Bearer ` is removed wherever it first occurs, not only at the start:
      what precedes it is kept in the token. */
  lemma {:induction false} BearerRemovedAnywhere(before: string, after: string)
    requires forall i :: 0 <= i < |before| ==> !Strings.OccursAt(before + BearerPrefix, BearerPrefix, i)
    ensures ExtractToken(Some(before + BearerPrefix + after)) == Some(before + after)
  {
    var prefixed := before + BearerPrefix;
    var header := prefixed + after;
    var i := |before|;
    assert header[i..i + |BearerPrefix|] == BearerPrefix;
    forall j | 0 <= j < i ensures !Strings.OccursAt(header, BearerPrefix, j) {
      assert header[j..j + |BearerPrefix|] == prefixed[j..j + |BearerPrefix|];
      assert !Strings.OccursAt(prefixed, BearerPrefix, j);
    }
    assert Strings.FirstOccurrence(header, BearerPrefix, i);
    assert header[..i] == before;
    assert header[i + |BearerPrefix|..] == after;
    assert Strings.ReplaceFirst(header, BearerPrefix, "") == header[..i] + "" + header[i + |BearerPrefix|..];
    assert before + BearerPrefix + after == header;
    assert header[..i] + "" + header[i + |BearerPrefix|..] == before + after;
    assert ExtractToken(Some(header)) == Some(Strings.ReplaceFirst(header, BearerPrefix, ""));
  }
}
