/** The bearer-token middleware that guards every authenticated route: it takes
    the token out of the Authorization header, asks the identity provider who it
    belongs to, and either answers 401 or records the user on the request and
    passes control on. */
module Auth {
  import opened Tables

  /** A user as the identity provider returns it. */
  datatype User = User(id: Id, email: string)

  /** The identity provider's answer to `getUser(token)`: the user it resolved
      the token to, if any, and its error, if any. */
  datatype Lookup = Lookup(user: Option<User>, error: Option<string>)

  const BearerPrefix: string := "Bearer "

  /** `pat` occurs in `s` starting at index `i`. */
  predicate OccursAt(s: string, pat: string, i: int) {
    0 <= i && i + |pat| <= |s| && s[i..i + |pat|] == pat
  }

  /** The first index at or after `from` where `pat` occurs in `s`. */
  function FindFrom(s: string, pat: string, from: nat): (r: Option<nat>)
    requires from <= |s|
    ensures r.Some? ==> from <= r.value && OccursAt(s, pat, r.value)
    ensures r.Some? ==> forall j :: from <= j < r.value ==> !OccursAt(s, pat, j)
    ensures r.None? ==> forall j :: from <= j <= |s| ==> !OccursAt(s, pat, j)
    decreases |s| - from
  {
    if OccursAt(s, pat, from) then Some(from)
    else if from == |s| then None
    else FindFrom(s, pat, from + 1)
  }

  /** JavaScript's `s.replace(pat, rep)` with a string pattern: only the first
      occurrence is replaced, and a string without one is returned unchanged. */
  function ReplaceFirst(s: string, pat: string, rep: string): (r: string)
    ensures (forall j :: 0 <= j <= |s| ==> !OccursAt(s, pat, j)) ==> r == s
    ensures (exists j :: OccursAt(s, pat, j)) ==> |r| == |s| - |pat| + |rep|
  {
    match FindFrom(s, pat, 0)
    case None => s
    case Some(k) => s[..k] + rep + s[k + |pat|..]
  }

  /** `req.headers.authorization?.replace('Bearer ', '')`. */
  function ExtractToken(authorization: Option<string>): (token: Option<string>)
    ensures token.Some? <==> authorization.Some?
  {
    match authorization
    case None => None
    case Some(header) => Some(ReplaceFirst(header, BearerPrefix, ""))
  }

  /** The usual header, "Bearer " followed by the token, yields the token. */
  lemma {:induction false} ExtractFromBearerHeader(token: string)
    ensures ExtractToken(Some(BearerPrefix + token)) == Some(token)
  {
    var header := BearerPrefix + token;
    assert header[0..|BearerPrefix|] == BearerPrefix;
    assert FindFrom(header, BearerPrefix, 0) == Some(0);
    assert header[..0] + "" + header[|BearerPrefix|..] == token;
    assert ReplaceFirst(header, BearerPrefix, "") == token;
  }

  /** A header in which "Bearer " does not occur is taken as the token itself. */
  lemma ExtractWithoutBearer(header: string)
    requires forall j :: 0 <= j <= |header| ==> !OccursAt(header, BearerPrefix, j)
    ensures ExtractToken(Some(header)) == Some(header)
  {
  }

  /** Only the first occurrence is removed, wherever it stands. */
  lemma {:induction false} ExtractRemovesFirstOccurrence(header: string)
    requires exists j :: OccursAt(header, BearerPrefix, j)
    ensures exists k ::
      && OccursAt(header, BearerPrefix, k)
      && (forall j :: 0 <= j < k ==> !OccursAt(header, BearerPrefix, j))
      && ExtractToken(Some(header)) == Some(header[..k] + header[k + |BearerPrefix|..])
  {
    var j :| OccursAt(header, BearerPrefix, j);
    var found := FindFrom(header, BearerPrefix, 0);
    assert found.Some?;
    var k := found.value;
    assert ReplaceFirst(header, BearerPrefix, "") == header[..k] + "" + header[k + |BearerPrefix|..];
    assert header[..k] + "" + header[k + |BearerPrefix|..] == header[..k] + header[k + |BearerPrefix|..];
  }

  /** The token is empty exactly when the header is empty or is "Bearer " alone,
      so those headers also get the "Missing token" answer. */
  lemma {:induction false} EmptyTokenIff(header: string)
    ensures ExtractToken(Some(header)) == Some("") <==> header == "" || header == BearerPrefix
  {
    var found := FindFrom(header, BearerPrefix, 0);
    if header == BearerPrefix {
      ExtractFromBearerHeader("");
      assert BearerPrefix + "" == BearerPrefix;
    }
    if found.Some? {
      var k := found.value;
      assert |header[..k] + header[k + |BearerPrefix|..]| == |header| - |BearerPrefix|;
    }
  }

  /** The incoming request as the middleware sees it: the Authorization header
      and the `user` field the middleware fills in. */
  class Request {
    var authorization: Option<string>
    var user: Option<User>

    constructor (authorization: Option<string>)
      ensures this.authorization == authorization && user == None
    {
      this.authorization := authorization;
      this.user := None;
    }
  }

  /** `verifyUser(req, res, next)`. `getUser` is the identity provider.
      `reply` is the 401 answer, or None when control passes on; `asked` lists
      the tokens sent to the provider; `nextCalls` counts the calls of `next`. */
  method VerifyUser(req: Request, getUser: string -> Lookup)
    returns (reply: Option<Reply>, asked: seq<string>, nextCalls: nat)
    modifies req`user
    ensures var token := ExtractToken(req.authorization);
      if !Truthy(token) then
        reply == Some(Reply(401, "Missing token")) && asked == [] && nextCalls == 0 &&
        req.user == old(req.user)
      else
        asked == [token.value] &&
        var answer := getUser(token.value);
        if answer.error.Some? || answer.user.None? then
          reply == Some(Reply(401, "Invalid token")) && nextCalls == 0 && req.user == old(req.user)
        else
          reply == None && nextCalls == 1 && req.user == answer.user
  {
    var token := ExtractToken(req.authorization);
    nextCalls := 0;
    if !Truthy(token) {
      return Some(Reply(401, "Missing token")), [], 0;
    }
    var answer := getUser(token.value);
    asked := [token.value];
    if answer.error.Some? || answer.user.None? {
      return Some(Reply(401, "Invalid token")), asked, 0;
    }
    req.user := answer.user;
    reply := None;
    nextCalls := nextCalls + 1;
  }
}
