/** The `authenticate` middleware: the token is the `Authorization` header with
    its first `Bearer ` removed; a request without one is refused with 401, one
    whose token does not verify with 400, and any other goes on to `next` with
    the decoded claims attached. The token verifier (`jwt.verify` with the
    server's secret) is a parameter. */
module Auth {
  import opened Common

  const BearerPrefix := "Bearer "

  /** `pattern` occurs in `text` at offset `p`. */
  predicate OccursAt(text: string, pattern: string, p: int)
  {
    0 <= p && p + |pattern| <= |text| && text[p..p + |pattern|] == pattern
  }

  /** The first offset at or after `from` where `pattern` occurs. */
  function FirstFrom(text: string, pattern: string, from: nat): (r: Option<nat>)
    requires from <= |text| + 1
    ensures r.Some? ==> from <= r.value && OccursAt(text, pattern, r.value) &&
                        forall p :: from <= p < r.value ==> !OccursAt(text, pattern, p)
    ensures r.None? ==> forall p :: from <= p ==> !OccursAt(text, pattern, p)
    decreases |text| + 1 - from
  {
    if from > |text| then None
    else if OccursAt(text, pattern, from) then Some(from)
    else FirstFrom(text, pattern, from + 1)
  }

  /** `text.replace(pattern, '')` with a string pattern: the first occurrence is
      cut out, and a text without one is returned as it is. */
  function RemoveFirst(text: string, pattern: string): (r: string)
    ensures (forall p :: !OccursAt(text, pattern, p)) ==> r == text
    ensures forall p :: OccursAt(text, pattern, p) && (forall p' :: 0 <= p' < p ==> !OccursAt(text, pattern, p')) ==>
      r == text[..p] + text[p + |pattern|..]
  {
    var first := FirstFrom(text, pattern, 0);
    if first.None? then text else text[..first.value] + text[first.value + |pattern|..]
  }

  /** The token of a request: `undefined` without the header. */
  function ExtractToken(header: Option<string>): (r: Option<string>)
    ensures header.None? <==> r.None?
    ensures header.Some? && (forall p :: !OccursAt(header.value, BearerPrefix, p)) ==> r == header
  {
    if header.None? then None else Some(RemoveFirst(header.value, BearerPrefix))
  }

  /** A header `Bearer <t>` carries the token `t`. */
  lemma BearerTokenExtracted(t: string)
    ensures ExtractToken(Some(BearerPrefix + t)) == Some(t)
  {
    var h := BearerPrefix + t;
    assert h[0..|BearerPrefix|] == BearerPrefix;
    assert OccursAt(h, BearerPrefix, 0);
    assert h[|BearerPrefix|..] == t;
  }

  /** A header that is exactly `Bearer ` leaves no token. */
  lemma BareBearerLeavesNoToken()
    ensures ExtractToken(Some(BearerPrefix)) == Some("")
  {
    BearerTokenExtracted("");
  }

  /** A header without `Bearer ` in it is the token itself. */
  lemma HeaderWithoutPrefixIsToken(h: string)
    requires forall p :: !OccursAt(h, BearerPrefix, p)
    ensures ExtractToken(Some(h)) == Some(h)
  {
  }

  /** The fields `authenticate` writes, and how often it has called `next`. */
  class Request {
    var user: Option<Claims>
    var userId: Option<int>
    var nextCalls: nat

    constructor()
      ensures user == None && userId == None && nextCalls == 0
    {
      user := None;
      userId := None;
      nextCalls := 0;
    }
  }

  /** What the middleware did: passed the request on, or answered it. */
  datatype Gate = Passed | Refused(status: int, message: string)

  method Authenticate(req: Request, header: Option<string>, verify: string -> Option<Claims>) returns (g: Gate)
    modifies req
    ensures var token := ExtractToken(header);
      (token.None? || token.value == "") ==>
        g == Refused(401, "Access denied. No token provided.") &&
        req.user == old(req.user) && req.userId == old(req.userId) && req.nextCalls == old(req.nextCalls)
    ensures var token := ExtractToken(header);
      (token.Some? && token.value != "" && verify(token.value).None?) ==>
        g == Refused(400, "Invalid token.") &&
        req.user == old(req.user) && req.userId == old(req.userId) && req.nextCalls == old(req.nextCalls)
    ensures var token := ExtractToken(header);
      (token.Some? && token.value != "" && verify(token.value).Some?) ==>
        g == Passed && req.user == verify(token.value) && req.userId == Some(verify(token.value).value.userId) &&
        req.nextCalls == old(req.nextCalls) + 1
  {
    var token := ExtractToken(header);
    if token.None? || token.value == "" {
      return Refused(401, "Access denied. No token provided.");
    }
    var decoded := verify(token.value);
    if decoded.None? {
      return Refused(400, "Invalid token.");
    }
    req.user := decoded;
    req.userId := Some(decoded.value.userId);
    req.nextCalls := req.nextCalls + 1;
    g := Passed;
  }
}
