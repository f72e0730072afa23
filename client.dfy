/**
 * The web client's request layer: the session list's query string, the
 * headers of every request (the bearer token when one is stored), and how a
 * response status is dispatched (401 clears the token and leaves for the
 * login page, 204 has no body, any other non-2xx status throws). The
 * browser's storage and location are the fields of `Browser`; the network
 * answer is a parameter.
 */
module Client {
  import opened Wrappers
  import opened Text
  import opened Js
  import opened Models
  import Middleware
  import Auth
  import Db

  const Base := "/api/v1"
  const LoginPath := "/login"

  // ---------------------------------------------------------------- the session list query

  /** The `query.set` calls of `listSessions`: each parameter only when truthy, in the order limit, offset, template_id. */
  function QueryPairs(p: SessionListParams): (r: seq<(string, string)>)
    ensures |r| <= 3
    ensures r == [] <==> !Truthy(p.limit) && !Truthy(p.offset) && !Truthy(p.templateId)
  {
    (if Truthy(p.limit) then [("limit", IntToString(p.limit.value))] else []) +
    (if Truthy(p.offset) then [("offset", IntToString(p.offset.value))] else []) +
    (if Truthy(p.templateId) then [("template_id", IntToString(p.templateId.value))] else [])
  }

  function PairText(kv: (string, string)): string {
    kv.0 + "=" + kv.1
  }

  function PairTexts(pairs: seq<(string, string)>): (r: seq<string>)
    ensures |r| == |pairs| && forall i :: 0 <= i < |pairs| ==> r[i] == PairText(pairs[i])
  {
    seq(|pairs|, i requires 0 <= i < |pairs| => PairText(pairs[i]))
  }

  /** `query.toString()`: "key=value" pairs joined with '&' (digits, '-' and '_' need no escaping). */
  function EncodeQuery(pairs: seq<(string, string)>): string {
    Join(PairTexts(pairs), "&")
  }

  /** The path `listSessions` requests: "?" and the query only when the query is non-empty. */
  function ListSessionsPath(p: SessionListParams): (r: string)
    ensures r == "/sessions" <==> !Truthy(p.limit) && !Truthy(p.offset) && !Truthy(p.templateId)
    ensures r != "/sessions" ==> r == "/sessions?" + EncodeQuery(QueryPairs(p))
  {
    var pairs := QueryPairs(p);
    var qs := EncodeQuery(pairs);
    assert qs == "" <==> pairs == [] by {
      if pairs != [] {
        assert |PairTexts(pairs)[0]| > 0;
        JoinNonEmpty(PairTexts(pairs), "&");
      }
    }
    "/sessions" + (if qs != "" then "?" + qs else "")
  }

  lemma JoinNonEmpty(parts: seq<string>, sep: string)
    requires parts != [] && parts[0] != ""
    ensures Join(parts, sep) != ""
  {
    if |parts| > 1 {
      assert Join(parts, sep) == parts[0] + sep + Join(parts[1..], sep);
    }
  }

  // ---------------------------------------------------------------- reading a query back

  /** A "key=value" piece as a pair; anything else is not a field. */
  function Field(piece: string): Option<(string, string)> {
    var kv := Split(piece, "=");
    if |kv| == 2 then Some((kv[0], kv[1])) else None
  }

  /** The value of the first piece with this key. */
  function Lookup(pieces: seq<string>, key: string): Option<string>
    decreases |pieces|
  {
    if pieces == [] then None
    else
      var f := Field(pieces[0]);
      if f.Some? && f.value.0 == key then Some(f.value.1) else Lookup(pieces[1..], key)
  }

  /** The value of the first pair with this key. */
  function FirstValue(pairs: seq<(string, string)>, key: string): Option<string>
    decreases |pairs|
  {
    if pairs == [] then None
    else if pairs[0].0 == key then Some(pairs[0].1)
    else FirstValue(pairs[1..], key)
  }

  function AsNumber(v: Option<string>): Option<int> {
    if v.Some? then ParseInt(v.value) else None
  }

  /** What a server reading the query string sees: each parameter parsed from its first occurrence. */
  function ParseQuery(qs: string): SessionListParams {
    var pieces := Split(qs, "&");
    SessionListParams(AsNumber(Lookup(pieces, "limit")), AsNumber(Lookup(pieces, "offset")),
                      AsNumber(Lookup(pieces, "template_id")))
  }

  predicate PlainPairs(pairs: seq<(string, string)>) {
    forall i :: 0 <= i < |pairs| ==> '=' !in pairs[i].0 && '=' !in pairs[i].1 && '&' !in pairs[i].0 && '&' !in pairs[i].1
  }

  lemma FieldOfPair(kv: (string, string))
    requires '=' !in kv.0 && '=' !in kv.1
    ensures Field(PairText(kv)) == Some(kv)
  {
    assert Join([kv.0, kv.1], "=") == PairText(kv);
    SplitJoin([kv.0, kv.1], "=");
  }

  lemma {:induction false} LookupPairs(pairs: seq<(string, string)>, key: string)
    requires PlainPairs(pairs)
    ensures Lookup(PairTexts(pairs), key) == FirstValue(pairs, key)
    decreases |pairs|
  {
    if pairs != [] {
      FieldOfPair(pairs[0]);
      assert PairTexts(pairs)[1..] == PairTexts(pairs[1..]);
      LookupPairs(pairs[1..], key);
    }
  }

  /** A query with no pairs reads back as no parameters. */
  lemma EmptyQuery(key: string)
    ensures Lookup(Split("", "&"), key) == None
  {
    assert Split("", "=") == [""];
  }

  function Kept(v: Option<int>): Option<int> {
    if Truthy(v) then v else None
  }

  /** The parameters' texts are decimal numbers: they hold neither '=' nor '&'. */
  lemma QueryPairsArePlain(p: SessionListParams)
    ensures PlainPairs(QueryPairs(p))
  {
    var pairs := QueryPairs(p);
    forall i | 0 <= i < |pairs|
      ensures '=' !in pairs[i].0 && '=' !in pairs[i].1 && '&' !in pairs[i].0 && '&' !in pairs[i].1
    {
      var n := if pairs[i].0 == "limit" then p.limit.value else if pairs[i].0 == "offset" then p.offset.value else p.templateId.value;
      assert pairs[i].1 == IntToString(n);
      IntTextHasNo(n, '=');
      IntTextHasNo(n, '&');
    }
  }

  /** A query of plain pairs reads back as the first value of each key. */
  lemma ParseEncoded(pairs: seq<(string, string)>)
    requires PlainPairs(pairs)
    ensures ParseQuery(EncodeQuery(pairs)) ==
      SessionListParams(AsNumber(FirstValue(pairs, "limit")), AsNumber(FirstValue(pairs, "offset")),
                        AsNumber(FirstValue(pairs, "template_id")))
  {
    var parts := PairTexts(pairs);
    if pairs == [] {
      EmptyQuery("limit");
      EmptyQuery("offset");
      EmptyQuery("template_id");
    } else {
      forall k | 0 <= k < |parts| ensures '&' !in parts[k] {
        assert parts[k] == pairs[k].0 + "=" + pairs[k].1;
      }
      SplitJoin(parts, "&");
      LookupPairs(pairs, "limit");
      LookupPairs(pairs, "offset");
      LookupPairs(pairs, "template_id");
    }
  }

  /** Each key of the query holds its parameter's decimal text when the parameter is truthy, and is absent otherwise. */
  lemma QueryValues(p: SessionListParams)
    ensures AsNumber(FirstValue(QueryPairs(p), "limit")) == Kept(p.limit)
    ensures AsNumber(FirstValue(QueryPairs(p), "offset")) == Kept(p.offset)
    ensures AsNumber(FirstValue(QueryPairs(p), "template_id")) == Kept(p.templateId)
  {
    var l := if Truthy(p.limit) then [("limit", IntToString(p.limit.value))] else [];
    var o := if Truthy(p.offset) then [("offset", IntToString(p.offset.value))] else [];
    var t := if Truthy(p.templateId) then [("template_id", IntToString(p.templateId.value))] else [];
    assert QueryPairs(p) == l + (o + t);
    FirstValueConcat(l, o + t, "limit");
    FirstValueConcat(o, t, "limit");
    FirstValueConcat(l, o + t, "offset");
    FirstValueConcat(o, t, "offset");
    FirstValueConcat(l, o + t, "template_id");
    FirstValueConcat(o, t, "template_id");
    if Truthy(p.limit) { ParseIntToString(p.limit.value); }
    if Truthy(p.offset) { ParseIntToString(p.offset.value); }
    if Truthy(p.templateId) { ParseIntToString(p.templateId.value); }
  }

  lemma {:induction false} FirstValueConcat(a: seq<(string, string)>, b: seq<(string, string)>, key: string)
    ensures FirstValue(a + b, key) == if FirstValue(a, key).Some? then FirstValue(a, key) else FirstValue(b, key)
    decreases |a|
  {
    if a != [] {
      assert (a + b)[1..] == a[1..] + b;
      FirstValueConcat(a[1..], b, key);
    } else {
      assert a + b == b;
    }
  }

  /** The query string carries exactly the truthy parameters: read back, each is its value or absent. */
  lemma QueryRoundTrip(p: SessionListParams)
    ensures ParseQuery(EncodeQuery(QueryPairs(p))) == SessionListParams(Kept(p.limit), Kept(p.offset), Kept(p.templateId))
  {
    QueryPairsArePlain(p);
    ParseEncoded(QueryPairs(p));
    QueryValues(p);
  }

  // ---------------------------------------------------------------- headers

  /**
   * `request`'s headers: JSON content type unless the caller supplies one,
   * the caller's headers, then "Bearer <token>" as Authorization when a
   * (truthy) token is stored.
   */
  function Headers(token: Option<string>, supplied: map<string, string>): (h: map<string, string>)
    ensures "Content-Type" in h
    ensures "Content-Type" !in supplied ==> h["Content-Type"] == "application/json"
    ensures forall k :: k in supplied && k != "Authorization" ==> k in h && h[k] == supplied[k]
    ensures forall k :: k in h ==> k in supplied || k == "Content-Type" || k == "Authorization"
    ensures TruthyText(token) ==> "Authorization" in h && h["Authorization"] == Middleware.Scheme + token.value
    ensures !TruthyText(token) ==> ("Authorization" in h <==> "Authorization" in supplied)
  {
    var base := map["Content-Type" := "application/json"] + supplied;
    if TruthyText(token) then base["Authorization" := "Bearer " + token.value] else base
  }

  /**
   * End to end with the server: a request carrying a stored token passes the
   * authentication middleware exactly when that token is the server's
   * current one.
   */
  lemma SentTokenIsChecked(token: string, supplied: map<string, string>, auth: seq<Db.AuthRow>)
    requires token != ""
    ensures var h := Headers(Some(token), supplied);
      Middleware.BearerToken(Some(h["Authorization"])) == Some(token) &&
      (Middleware.Decide(Some(h["Authorization"]), Middleware.VerifyAgainst(auth)) == Middleware.Forward <==>
       Auth.StoredToken(auth) == Some(token))
  {
    Middleware.BearerRoundTrip(token);
    Middleware.ForwardIffStoredToken(Some(Middleware.Scheme + token), auth);
    if Auth.StoredToken(auth).Some? && Some(Middleware.Scheme + token) == Some(Middleware.Scheme + Auth.StoredToken(auth).value) {
      assert (Middleware.Scheme + token)[7..] == token;
      assert (Middleware.Scheme + Auth.StoredToken(auth).value)[7..] == Auth.StoredToken(auth).value;
    }
  }

  // ---------------------------------------------------------------- status dispatch

  datatype Outcome = Json | NoBody | Thrown(message: string)

  predicate IsOk(status: int) {
    200 <= status <= 299
  }

  /** What `request` makes of a status: 401 and non-2xx throw, 204 has no body, any other 2xx is parsed. */
  function OutcomeOf(status: int): (o: Outcome)
    ensures o == Thrown("Unauthorized") <==> status == 401
    ensures o == NoBody <==> status == 204
    ensures o == Json <==> IsOk(status) && status != 204
    ensures o.Thrown? <==> status == 401 || !IsOk(status)
  {
    if status == 401 then Thrown("Unauthorized")
    else if status == 204 then NoBody
    else if !IsOk(status) then
      var m := "HTTP " + IntToString(status);
      assert m[0] == 'H' != "Unauthorized"[0];
      Thrown(m)
    else Json
  }

  /** The message of a failed status other than 401 names that status. */
  lemma ErrorNamesStatus(status: int)
    requires status != 401 && !IsOk(status)
    ensures var m := OutcomeOf(status).message;
      StartsWith(m, "HTTP ") && ParseInt(m[5..]) == Some(status)
  {
    var m := "HTTP " + IntToString(status);
    assert m[5..] == IntToString(status);
    ParseIntToString(status);
  }

  /** The browser side: the stored token and the current path. */
  class Browser {
    var token: Option<string>
    var pathname: string

    constructor(token: Option<string>, pathname: string)
      ensures this.token == token && this.pathname == pathname
    {
      this.token := token;
      this.pathname := pathname;
    }

    /** `isLoggedIn`: a token is stored, whatever its text. */
    predicate IsLoggedIn()
      reads this
    {
      token.Some?
    }

    method SetToken(t: string)
      modifies this
      ensures token == Some(t) && pathname == old(pathname)
    {
      token := Some(t);
    }

    method ClearToken()
      modifies this
      ensures token == None && pathname == old(pathname)
    {
      token := None;
    }

    /** The headers `request` sends from the current storage. */
    function RequestHeaders(supplied: map<string, string>): map<string, string>
      reads this
    {
      Headers(token, supplied)
    }

    /**
     * `request` once the response status is known: a 401 clears the token
     * and moves to the login page (staying there if already on it); any
     * other status leaves the browser as it was.
     */
    method Respond(status: int) returns (o: Outcome)
      modifies this
      ensures o == OutcomeOf(status)
      ensures status == 401 ==> token == None && pathname == LoginPath
      ensures status != 401 ==> token == old(token) && pathname == old(pathname)
    {
      o := OutcomeOf(status);
      if status == 401 {
        ClearToken();
        if pathname != LoginPath {
          pathname := LoginPath;
        }
      }
    }
  }

  /** An empty stored token counts as logged in, yet no Authorization header is sent for it. */
  lemma EmptyTokenIsLoggedInButUnsent(b: Browser)
    requires b.token == Some("")
    ensures b.IsLoggedIn() && "Authorization" !in b.RequestHeaders(map[])
  {
  }
}
