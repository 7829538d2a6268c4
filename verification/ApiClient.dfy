/** The scheduler's HTTP client (login, harvest, call, one retry) and the guard that its
    state-changing calls must pass. What the transport delivers is a parameter: a response,
    or the exception that every transport failure raises. */
module ApiClient {
  import opened Wrappers
  import opened Text
  import opened Cookies
  import Json

  datatype Request = Request(verb: string, url: string, body: string, headers: map<string, string>)

  datatype Response = Response(status: int, headers: seq<(string, string)>, setCookies: seq<string>)

  datatype Answer = Responded(response: Response) | TransportThrew

  predicate HasStatus(a: Answer, status: int) { a.Responded? && a.response.status == status }

  // ---- addresses ----

  /** The base address without the slashes at its end. */
  function StripSlashes(s: string): (r: string)
    ensures r <= s && (r != "" ==> r[|r| - 1] != '/')
    ensures forall i :: |r| <= i < |s| ==> s[i] == '/'
  {
    if s != "" && s[|s| - 1] == '/' then StripSlashes(s[..|s| - 1]) else s
  }

  function Rooted(path: string): string {
    if path == "" || path[0] != '/' then "/" + path else path
  }

  function BuildUrl(baseUrl: string, path: string): string { baseUrl + Rooted(path) }

  // ---- case-insensitive names ----

  predicate IEquals(a: string, b: string) {
    |a| == |b| && forall i :: 0 <= i < |a| ==> Lower(a[i]) == Lower(b[i])
  }

  predicate IsStateChanging(verb: string) {
    IEquals(verb, "POST") || IEquals(verb, "PUT") || IEquals(verb, "PATCH") || IEquals(verb, "DELETE")
  }

  /** Which calls carry a token: any spelling of four verbs, and neither GET, HEAD nor OPTIONS. */
  lemma VerbsJudged()
    ensures IsStateChanging("POST") && IsStateChanging("Put") && IsStateChanging("patch") && IsStateChanging("DELETE")
    ensures !IsStateChanging("GET") && !IsStateChanging("HEAD") && !IsStateChanging("OPTIONS")
  {
    assert Lower("GET"[0]) == 'g' && Lower("HEAD"[0]) == 'h';
  }

  // ---- harvesting ----

  function SetCookieHeaders(headers: seq<(string, string)>): seq<string> {
    if headers == [] then []
    else SetCookieHeaders(headers[..|headers| - 1])
         + if IEquals(headers[|headers| - 1].0, "Set-Cookie") then [headers[|headers| - 1].1] else []
  }

  /** Every cookie a response sets, the header map first and then setCookies in order. */
  function Harvested(r: Response): seq<string> { SetCookieHeaders(r.headers) + r.setCookies }

  /** The last Set-Cookie header that sets the name sets it to this value. */
  ghost predicate HeaderSets(headers: seq<(string, string)>, name: string, value: string) {
    exists i: nat :: SetAt(headers, i, name, value) && NoHeaderSets(headers, i + 1, name)
  }

  ghost predicate SetAt(headers: seq<(string, string)>, i: nat, name: string, value: string) {
    i < |headers| && IEquals(headers[i].0, "Set-Cookie") && Sets(headers[i].1, name, value)
  }

  ghost predicate NoHeaderSets(headers: seq<(string, string)>, from: nat, name: string) {
    forall j :: from <= j < |headers| && IEquals(headers[j].0, "Set-Cookie") ==> !SetsName(headers[j].1, name)
  }

  /** The last text of the response that sets the name, setCookies being later than the
      header map, sets it to this value. */
  ghost predicate ResponseSets(r: Response, name: string, value: string) {
    LastSets(r.setCookies, name, value) || (NoneSets(r.setCookies, 0, name) && HeaderSets(r.headers, name, value))
  }

  ghost predicate ResponseOmits(r: Response, name: string) {
    NoneSets(r.setCookies, 0, name) && NoHeaderSets(r.headers, 0, name)
  }

  lemma {:induction false} HeadersList(headers: seq<(string, string)>, name: string, value: string)
    ensures HeaderSets(headers, name, value) ==> LastSets(SetCookieHeaders(headers), name, value)
    ensures NoHeaderSets(headers, 0, name) ==> NoneSets(SetCookieHeaders(headers), 0, name)
  {
    hide IEquals, Sets, SetsName;
    if headers != [] {
      var n := |headers| - 1;
      var rest, texts := headers[..n], SetCookieHeaders(headers[..n]);
      HeadersList(rest, name, value);
      if i: nat :| SetAt(headers, i, name, value) && NoHeaderSets(headers, i + 1, name) {
        if i == n {
          assert SetCookieHeaders(headers)[|texts|] == headers[n].1;
        } else {
          assert SetAt(rest, i, name, value) && HeaderSets(rest, name, value);
          LastSetsLater(texts, SetCookieHeaders(headers)[|texts|..], name, value);
          assert texts + SetCookieHeaders(headers)[|texts|..] == SetCookieHeaders(headers);
        }
      }
    }
  }

  /** Texts that follow and do not set the name change nothing. */
  lemma LastSetsLater(texts: seq<string>, later: seq<string>, name: string, value: string)
    ensures LastSets(texts, name, value) && NoneSets(later, 0, name) ==> LastSets(texts + later, name, value)
    ensures LastSets(later, name, value) ==> LastSets(texts + later, name, value)
    ensures NoneSets(texts, 0, name) && NoneSets(later, 0, name) ==> NoneSets(texts + later, 0, name)
  {
    hide Sets, SetsName;
    var all := texts + later;
    if NoneSets(later, 0, name) {
      if i :| 0 <= i < |texts| && Sets(texts[i], name, value) && NoneSets(texts, i + 1, name) {
        assert all[i] == texts[i];
      }
    }
    if i :| 0 <= i < |later| && Sets(later[i], name, value) && NoneSets(later, i + 1, name) {
      assert all[|texts| + i] == later[i];
    }
  }

  /** The jar after a response: the last text that sets a name decides it, and a name that
      no text sets stays as it was. */
  lemma HarvestMeans(jar: Jar, r: Response, name: string, value: string)
    ensures var after := StoreAll(jar, Harvested(r));
      && (ResponseSets(r, name, value) ==> name in after && after[name] == value)
      && (ResponseOmits(r, name) ==> (name in after <==> name in jar) && (name in jar ==> after[name] == jar[name]))
  {
    hide StoreAll, SetCookieHeaders, LastSets, NoneSets, HeaderSets, NoHeaderSets;
    HeadersList(r.headers, name, value);
    LastSetsLater(SetCookieHeaders(r.headers), r.setCookies, name, value);
    LastWins(jar, Harvested(r), name, value);
  }

  lemma StoreNone(jar: Jar)
    ensures StoreAll(jar, []) == jar
  {
  }

  lemma StoreOne(jar: Jar, a: seq<string>, v: string)
    ensures StoreAll(jar, a + [v]) == StoreSetCookie(StoreAll(jar, a), v)
  {
    assert (a + [v])[..|a|] == a;
  }

  // ---- building requests ----

  const COOKIE := "Cookie"
  const CSRF_HEADER := "X-CSRF-Token"
  const CSRF_COOKIE := "csrft"

  function Overlay(headers: map<string, string>, extra: seq<(string, string)>): map<string, string> {
    if extra == [] then headers
    else Overlay(headers, extra[..|extra| - 1])[extra[|extra| - 1].0 := extra[|extra| - 1].1]
  }

  function EngineHeaders(jar: Jar, cookieHeader: string, verb: string, body: string): map<string, string> {
    var h: map<string, string> := if body != "" then map["Content-Type" := "application/json"] else map[];
    var h := if cookieHeader != "" then h[COOKIE := cookieHeader] else h;
    if IsStateChanging(verb) && CSRF_COOKIE in jar then h[CSRF_HEADER := jar[CSRF_COOKIE]] else h
  }

  /** The request of one ExecuteOnce, for the order in which the jar is printed. */
  function RequestFor(baseUrl: string, jar: Jar, order: seq<string>, verb: string, path: string, body: string,
                      extra: seq<(string, string)>): Request
    requires forall name :: name in order ==> name in jar
  {
    Request(verb, BuildUrl(baseUrl, path), body, Overlay(EngineHeaders(jar, Header(jar, order), verb, body), extra))
  }

  function LoginRequest(baseUrl: string, email: string, password: string, loginHeaders: seq<(string, string)>)
    : Request
  {
    var body := Json.Print(Json.Obj([
      Json.Member("email", Json.Str(email)), Json.Member("password", Json.Str(password)),
      Json.Member("remember", Json.Bool(false))]));
    Request("POST", BuildUrl(baseUrl, "/api/login"), body, Overlay(map["Content-Type" := "application/json"], loginHeaders))
  }

  // ---- requests, field by field ----

  predicate Names(extra: seq<(string, string)>, k: string) { exists i :: 0 <= i < |extra| && extra[i].0 == k }

  predicate LastOf(extra: seq<(string, string)>, i: nat) {
    i < |extra| && forall j :: i < j < |extra| ==> extra[j].0 != extra[i].0
  }

  /** Each extra header with its last value, and otherwise only what the engine sets. */
  ghost predicate Extends(headers: map<string, string>, extra: seq<(string, string)>, engine: map<string, string>) {
    && (forall i: nat :: LastOf(extra, i) ==> extra[i].0 in headers && headers[extra[i].0] == extra[i].1)
    && (forall k :: !Names(extra, k) ==>
          (k in headers <==> k in engine) && (k in headers ==> headers[k] == engine[k]))
  }

  /** The path of a job behind the base address, with a slash between them. */
  predicate IsUrl(url: string, baseUrl: string, path: string) {
    if path != "" && path[0] == '/' then url == baseUrl + path else url == baseUrl + "/" + path
  }

  /** The engine's own headers: a content type for a body, every cookie of the jar in a form
      that the server reads, and the token of a state-changing call. */
  ghost predicate EngineSets(engine: map<string, string>, jar: Jar, verb: string, body: string) {
    && (forall k :: k in engine ==> k == "Content-Type" || k == "Cookie" || k == "X-CSRF-Token")
    && ("Content-Type" in engine <==> body != "")
    && (body != "" ==> engine["Content-Type"] == "application/json")
    && ("Cookie" in engine <==> jar != map[])
    && (forall name :: "Cookie" in engine ==>
          GetCookieValue(engine["Cookie"], name) == if name in jar then jar[name] else "")
    && ("X-CSRF-Token" in engine <==> IsStateChanging(verb) && "csrft" in jar)
    && ("X-CSRF-Token" in engine ==> engine["X-CSRF-Token"] == jar["csrft"])
  }

  /** The request of one call with the cookies of a jar. */
  ghost predicate Asks(q: Request, baseUrl: string, jar: Jar, verb: string, path: string, body: string,
                       extra: seq<(string, string)>)
  {
    && q.verb == verb && q.body == body && IsUrl(q.url, baseUrl, path)
    && exists engine: map<string, string> :: EngineSets(engine, jar, verb, body) && Extends(q.headers, extra, engine)
  }

  /** The request of a login: its body is JSON with the credentials. */
  ghost predicate AsksLogin(q: Request, baseUrl: string, email: string, password: string, extra: seq<(string, string)>) {
    && q.verb == "POST" && q.url == baseUrl + "/api/login"
    && Json.ReadText(q.body) == Some(Json.Obj([
         Json.Member("email", Json.Str(email)), Json.Member("password", Json.Str(password)),
         Json.Member("remember", Json.Bool(false))]))
    && Extends(q.headers, extra, map["Content-Type" := "application/json"])
  }

  /** The first and the third request of a call, the third with the jar after the login. */
  ghost predicate AsksAll(added: seq<Request>, baseUrl: string, before: Jar, after: Jar, verb: string, path: string,
                          body: string, extra: seq<(string, string)>)
  {
    && 1 <= |added| <= 3
    && Asks(added[0], baseUrl, before, verb, path, body, extra)
    && (|added| == 3 ==> Asks(added[2], baseUrl, after, verb, path, body, extra))
  }

  /** On a 401 with known credentials, and only then, one login follows; after a login that
      is answered 200, and only then, one more request. */
  ghost predicate LogsInBetween(added: seq<Request>, baseUrl: string, email: string, password: string,
                                loginHeaders: seq<(string, string)>, first: Answer, login: Answer)
  {
    && (|added| > 1 <==> HasStatus(first, 401) && email != "" && password != "")
    && (|added| > 1 ==> AsksLogin(added[1], baseUrl, email, password, loginHeaders))
    && (|added| > 2 <==> |added| > 1 && HasStatus(login, 200))
  }

  /** The jar holds what the response sets and nothing else. */
  ghost predicate JarFrom(jar: Jar, r: Response) {
    && (forall name, value :: ResponseSets(r, name, value) ==> name in jar && jar[name] == value)
    && (forall name :: ResponseOmits(r, name) ==> name !in jar)
  }

  /** The jar after a call that sent this many requests. */
  ghost predicate JarAfter(before: Jar, after: Jar, requests: int, login: Answer) {
    if requests == 1 then after == before
    else if requests == 2 then after == map[]
    else login.Responded? && JarFrom(after, login.response)
  }

  lemma {:induction false} OverlayExtends(engine: map<string, string>, extra: seq<(string, string)>)
    ensures Extends(Overlay(engine, extra), extra, engine)
  {
    if extra != [] {
      var n := |extra| - 1;
      var rest := extra[..n];
      OverlayExtends(engine, rest);
      forall i: nat | LastOf(extra, i)
        ensures extra[i].0 in Overlay(engine, extra) && Overlay(engine, extra)[extra[i].0] == extra[i].1
      {
        if i < n {
          assert extra[n].0 != extra[i].0;
          assert LastOf(rest, i);
        }
      }
      forall k | !Names(extra, k) ensures !Names(rest, k) && k != extra[n].0 {
        assert forall i :: 0 <= i < n ==> rest[i] == extra[i];
      }
    }
  }

  lemma EngineHeadersSet(jar: Jar, order: seq<string>, verb: string, body: string)
    requires JarInv(jar) && Lists(order, jar)
    ensures EngineSets(EngineHeaders(jar, Header(jar, order), verb, body), jar, verb, body)
  {
    assert Header(jar, order) == "" <==> jar == map[] by {
      if order == [] { assert jar == map[]; } else { assert order[0] in jar; }
    }
    hide Header, GetCookieValue, IsStateChanging, JarInv;
    forall name ensures GetCookieValue(Header(jar, order), name) == if name in jar then jar[name] else "" {
      HeaderRoundTrip(jar, order, name);
    }
  }

  lemma RequestForAsks(baseUrl: string, jar: Jar, order: seq<string>, verb: string, path: string, body: string,
                       extra: seq<(string, string)>)
    requires JarInv(jar) && Lists(order, jar)
    ensures Asks(RequestFor(baseUrl, jar, order, verb, path, body, extra), baseUrl, jar, verb, path, body, extra)
  {
    hide EngineSets, Extends, EngineHeaders, Overlay, JarInv, Header;
    EngineHeadersSet(jar, order, verb, body);
    OverlayExtends(EngineHeaders(jar, Header(jar, order), verb, body), extra);
    if path == "" || path[0] != '/' { assert baseUrl + ("/" + path) == baseUrl + "/" + path; }
  }

  lemma LoginRequestAsks(baseUrl: string, email: string, password: string, loginHeaders: seq<(string, string)>)
    ensures AsksLogin(LoginRequest(baseUrl, email, password, loginHeaders), baseUrl, email, password, loginHeaders)
  {
    hide Extends, Overlay, Json.Print, Json.ReadText;
    OverlayExtends(map["Content-Type" := "application/json"], loginHeaders);
    Json.TextRoundTrip(Json.Obj([
      Json.Member("email", Json.Str(email)), Json.Member("password", Json.Str(password)),
      Json.Member("remember", Json.Bool(false))]));
  }

  lemma {:induction false} HeaderAppend(jar: Jar, order: seq<string>, name: string)
    requires order != [] && name in jar && (forall n :: n in order ==> n in jar)
    ensures Header(jar, order + [name]) == Header(jar, order) + ";" + (" " + Pair(jar, name))
  {
    if |order| == 1 {
      assert (order + [name])[1..] == [name];
    } else {
      assert (order + [name])[1..] == order[1..] + [name];
      HeaderAppend(jar, order[1..], name);
      var first, later := Pair(jar, order[0]), Header(jar, order[1..]);
      hide Header, Pair;
      assert first + ";" + (" " + (later + ";" + (" " + Pair(jar, name))))
          == first + ";" + (" " + later) + ";" + (" " + Pair(jar, name));
    }
  }

  /** Prints the jar, in some order of its names. */
  method BuildCookieHeader(cookies: Jar) returns (out: string, ghost order: seq<string>)
    ensures Lists(order, cookies) && out == Header(cookies, order)
  {
    out := "";
    order := [];
    var left := cookies.Keys;
    while left != {}
      invariant left <= cookies.Keys
      invariant forall name :: name in order <==> name in cookies && name !in left
      invariant forall i, j :: 0 <= i < j < |order| ==> order[i] != order[j]
      invariant out == Header(cookies, order) && (out == "" <==> order == [])
      decreases left
    {
      var name :| name in left;
      if order != [] { HeaderAppend(cookies, order, name); } else { assert order + [name] == [name]; }
      if out != "" { out := out + ";" + (" " + name + "=" + cookies[name]); }
      else { out := name + "=" + cookies[name]; }
      assert " " + Pair(cookies, name) == " " + name + "=" + cookies[name];
      order := order + [name];
      left := left - {name};
    }
  }

  class Client {
    const baseUrl: string
    const loginHeaders: seq<(string, string)>
    var cookies: Jar
    var email: string
    var password: string
    var sent: seq<Request>

    ghost predicate Valid()
      reads this
    {
      JarInv(cookies)
    }

    constructor (serverUrl: string, loginHeaders: seq<(string, string)>)
      ensures Valid() && cookies == map[] && email == "" && password == "" && sent == []
      ensures baseUrl == StripSlashes(serverUrl) && this.loginHeaders == loginHeaders
    {
      var url := serverUrl;
      while url != "" && url[|url| - 1] == '/'
        invariant StripSlashes(url) == StripSlashes(serverUrl)
        decreases |url|
      {
        url := url[..|url| - 1];
      }
      baseUrl := url;
      this.loginHeaders := loginHeaders;
      cookies, email, password, sent := map[], "", "", [];
    }

    method HarvestSetCookies(r: Response)
      requires Valid()
      modifies this`cookies
      ensures Valid() && cookies == StoreAll(old(cookies), Harvested(r))
      ensures forall name, value :: ResponseSets(r, name, value) ==> name in cookies && cookies[name] == value
      ensures forall name :: ResponseOmits(r, name) ==>
        (name in cookies <==> name in old(cookies)) && (name in cookies ==> cookies[name] == old(cookies)[name])
    {
      hide ResponseSets, ResponseOmits, StoreSetCookie, IEquals, StoreAll;
      var jar := cookies;
      assert StoreAll(cookies, []) == cookies by { StoreNone(cookies); }
      for i := 0 to |r.headers|
        invariant cookies == old(cookies)
        invariant jar == StoreAll(cookies, SetCookieHeaders(r.headers[..i]))
      {
        assert r.headers[..i + 1][..i] == r.headers[..i];
        assert SetCookieHeaders(r.headers[..i]) + [] == SetCookieHeaders(r.headers[..i]);
        if IEquals(r.headers[i].0, "Set-Cookie") {
          StoreOne(cookies, SetCookieHeaders(r.headers[..i]), r.headers[i].1);
          jar := StoreSetCookie(jar, r.headers[i].1);
        }
      }
      assert r.headers[..|r.headers|] == r.headers;
      ghost var fromHeaders := SetCookieHeaders(r.headers);
      assert fromHeaders + [] == fromHeaders;
      for i := 0 to |r.setCookies|
        invariant cookies == old(cookies)
        invariant jar == StoreAll(cookies, fromHeaders + r.setCookies[..i])
      {
        StoreOne(cookies, fromHeaders + r.setCookies[..i], r.setCookies[i]);
        assert fromHeaders + r.setCookies[..i] + [r.setCookies[i]] == fromHeaders + r.setCookies[..i + 1];
        jar := StoreSetCookie(jar, r.setCookies[i]);
      }
      assert r.setCookies[..|r.setCookies|] == r.setCookies;
      StoreAllKeeps(cookies, Harvested(r));
      forall name, value | ResponseSets(r, name, value) ensures name in jar && jar[name] == value {
        HarvestMeans(cookies, r, name, value);
      }
      forall name | ResponseOmits(r, name)
        ensures (name in jar <==> name in cookies) && (name in jar ==> jar[name] == cookies[name])
      {
        HarvestMeans(cookies, r, name, "");
      }
      cookies := jar;
    }

    /** The credentials are remembered and the jar emptied before the request is sent, so
        a transport that throws leaves them so. */
    method Login(email: string, password: string, answer: Answer) returns (threw: bool, ok: bool)
      requires Valid()
      modifies this
      ensures Valid() && threw == answer.TransportThrew? && ok == HasStatus(answer, 200)
      ensures this.email == email && this.password == password
      ensures sent == old(sent) + [LoginRequest(baseUrl, email, password, loginHeaders)]
      ensures cookies == if ok then StoreAll(map[], Harvested(answer.response)) else map[]
      ensures AsksLogin(sent[|sent| - 1], baseUrl, email, password, loginHeaders)
      ensures ok ==> JarFrom(cookies, answer.response)
    {
      hide LoginRequest, StoreAll, Harvested, ResponseSets, ResponseOmits;
      LoginRequestAsks(baseUrl, email, password, loginHeaders);
      this.email := email;
      this.password := password;
      cookies := map[];
      sent := sent + [LoginRequest(baseUrl, email, password, loginHeaders)];
      if answer.TransportThrew? { return true, false; }
      threw, ok := false, answer.response.status == 200;
      if ok { HarvestSetCookies(answer.response); }
    }

    method ExecuteOnce(verb: string, path: string, body: string, extra: seq<(string, string)>, answer: Answer)
      returns (result: Answer, ghost order: seq<string>)
      requires Valid()
      modifies this`sent
      ensures Lists(order, cookies) && result == answer
      ensures sent == old(sent) + [RequestFor(baseUrl, cookies, order, verb, path, body, extra)]
      ensures Asks(sent[|sent| - 1], baseUrl, cookies, verb, path, body, extra)
    {
      hide Asks;
      var headers: map<string, string> := map[];
      if body != "" { headers := headers["Content-Type" := "application/json"]; }
      var cookieHeader;
      cookieHeader, order := BuildCookieHeader(cookies);
      if cookieHeader != "" { headers := headers[COOKIE := cookieHeader]; }
      if IsStateChanging(verb) && CSRF_COOKIE in cookies {
        headers := headers[CSRF_HEADER := cookies[CSRF_COOKIE]];
      }
      ghost var engine := headers;
      for i := 0 to |extra|
        invariant headers == Overlay(engine, extra[..i])
      {
        assert extra[..i + 1][..i] == extra[..i];
        headers := headers[extra[i].0 := extra[i].1];
      }
      assert extra[..|extra|] == extra;
      sent := sent + [Request(verb, BuildUrl(baseUrl, path), body, headers)];
      result := answer;
      RequestForAsks(baseUrl, cookies, order, verb, path, body, extra);
    }

    /** One call: on 401 with known credentials, one fresh login and one retry with the
        cookies that login set. At most three requests leave the client, and the first
        transport failure ends the call. */
    method CallEndpoint(verb: string, path: string, body: string, extra: seq<(string, string)>,
                        first: Answer, login: Answer, second: Answer)
      returns (result: Answer, ghost orders: seq<seq<string>>)
      requires Valid()
      modifies this
      ensures Valid()
      ensures |orders| == 2 && Lists(orders[0], old(cookies)) && Lists(orders[1], cookies)
      ensures email == old(email) && password == old(password)
      ensures var asked := old(sent) + [RequestFor(baseUrl, old(cookies), orders[0], verb, path, body, extra)];
        if !HasStatus(first, 401) || email == "" || password == "" then
          result == first && sent == asked && cookies == old(cookies)
        else if !HasStatus(login, 200) then
          && result == (if login.TransportThrew? then TransportThrew else first)
          && sent == asked + [LoginRequest(baseUrl, email, password, loginHeaders)] && cookies == map[]
        else
          && result == second
          && cookies == StoreAll(map[], Harvested(login.response))
          && sent == asked + [LoginRequest(baseUrl, email, password, loginHeaders)]
                     + [RequestFor(baseUrl, cookies, orders[1], verb, path, body, extra)]
      ensures old(sent) <= sent
      ensures AsksAll(sent[|old(sent)|..], baseUrl, old(cookies), cookies, verb, path, body, extra)
      ensures LogsInBetween(sent[|old(sent)|..], baseUrl, email, password, loginHeaders, first, login)
      ensures JarAfter(old(cookies), cookies, |sent| - |old(sent)|, login)
    {
      hide RequestFor, LoginRequest, StoreAll, Harvested, Asks, AsksLogin, ResponseSets, ResponseOmits;
      ghost var order;
      result, order := ExecuteOnce(verb, path, body, extra, first);
      orders := [order, order];
      if result.TransportThrew? { return; }
      if result.response.status == 401 && email != "" && password != "" {
        cookies := map[];
        var threw, ok := Login(email, password, login);
        if threw { return TransportThrew, [orders[0], []]; }
        if ok {
          result, order := ExecuteOnce(verb, path, body, extra, second);
          orders := [orders[0], order];
        } else {
          orders := [orders[0], []];
        }
      }
    }
  }

  // ---- the guard ----

  const BOOTSTRAP_PATHS := ["/api/login", "/api/register", "/api/remember", "/api/verify",
                            "/api/forgot_password", "/api/reset_password"]

  function PathOnly(url: string): string { url[..Find(url, '?')] }

  predicate IsBootstrap(url: string) { PathOnly(url) in BOOTSTRAP_PATHS }

  /** A header field as the server finds it: names compare without case. */
  ghost predicate Shows(headers: map<string, string>, name: string, value: string) {
    || (exists k :: k in headers && IEquals(k, name) && headers[k] == value)
    || (value == "" && forall k :: k in headers ==> !IEquals(k, name))
  }

  /** before_handle lets the request through. */
  predicate Accepts(verb: string, url: string, cookieHeader: string, presented: string) {
    || !IsStateChanging(verb)
    || IsBootstrap(url)
    || (var csrft := GetCookieValue(cookieHeader, CSRF_COOKIE);
        csrft != "" && presented != "" && csrft == presented)
  }

  /** Per-job headers leave the engine's two headers alone. */
  ghost predicate NoOverride(extra: seq<(string, string)>) {
    forall e :: e in extra ==> !IEquals(e.0, COOKIE) && !IEquals(e.0, CSRF_HEADER)
  }

  lemma {:induction false} OverlayKeeps(headers: map<string, string>, extra: seq<(string, string)>, k: string)
    requires forall e :: e in extra ==> e.0 != k
    ensures k in Overlay(headers, extra) <==> k in headers
    ensures k in headers ==> Overlay(headers, extra)[k] == headers[k]
  {
    if extra != [] {
      assert extra[|extra| - 1] in extra;
      OverlayKeeps(headers, extra[..|extra| - 1], k);
    }
  }

  /** What the server finds under a name that no per-job header touches. */
  lemma ShownIsEngines(jar: Jar, cookieHeader: string, verb: string, body: string,
                       extra: seq<(string, string)>, name: string, value: string)
    requires name == COOKIE || name == CSRF_HEADER
    requires NoOverride(extra)
    requires Shows(Overlay(EngineHeaders(jar, cookieHeader, verb, body), extra), name, value)
    ensures var engine := EngineHeaders(jar, cookieHeader, verb, body);
      value == if name in engine then engine[name] else ""
  {
    var engine := EngineHeaders(jar, cookieHeader, verb, body);
    var all := Overlay(engine, extra);
    assert forall k :: k in engine ==> k in ["Content-Type", COOKIE, CSRF_HEADER];
    hide EngineHeaders, Overlay;
    forall k | k in all && IEquals(k, name) ensures k == name && name in engine && all[k] == engine[k] {
      OverlayKeeps(engine, extra, k);
    }
    if name in engine {
      OverlayKeeps(engine, extra, name);
      assert IEquals(name, name);
    }
  }

  /** A state-changing call passes the guard exactly when the path the server finds is a
      bootstrap path or the jar holds a non-empty csrft cookie, unless per-job headers
      override it. Whatever the transport makes of the URL, seen is what arrives. */
  lemma GuardAcceptsExactly(baseUrl: string, jar: Jar, order: seq<string>, verb: string, path: string, body: string,
                            extra: seq<(string, string)>, seen: string, cookieHeader: string, presented: string)
    requires JarInv(jar) && Lists(order, jar) && IsStateChanging(verb) && NoOverride(extra)
    requires Shows(RequestFor(baseUrl, jar, order, verb, path, body, extra).headers, COOKIE, cookieHeader)
    requires Shows(RequestFor(baseUrl, jar, order, verb, path, body, extra).headers, CSRF_HEADER, presented)
    ensures Accepts(verb, seen, cookieHeader, presented) <==>
      IsBootstrap(seen) || (CSRF_COOKIE in jar && jar[CSRF_COOKIE] != "")
  {
    hide GetCookieValue, Header, IEquals, IsStateChanging, Overlay, Shows, IsBootstrap, BuildUrl;
    var printed := Header(jar, order);
    ShownIsEngines(jar, printed, verb, body, extra, COOKIE, cookieHeader);
    ShownIsEngines(jar, printed, verb, body, extra, CSRF_HEADER, presented);
    HeaderRoundTrip(jar, order, CSRF_COOKIE);
  }

  /** Scheme and authority, with no path, query or fragment. */
  ghost predicate IsOrigin(origin: string) {
    exists scheme: string, host: string :: IsOriginOf(origin, scheme, host)
  }

  predicate IsOriginOf(origin: string, scheme: string, host: string) {
    && origin == scheme + ("://" + host)
    && Lacks(scheme, ':') && Lacks(scheme, '/') && Lacks(scheme, '?') && Lacks(scheme, '#')
    && Lacks(host, '/') && Lacks(host, '?') && Lacks(host, '#')
  }

  /** A path that a transport passes on as it is: no fragment, no dot segments. */
  predicate PlainPath(path: string) {
    path != "" && path[0] == '/' && Lacks(path, '#') && forall i :: 0 <= i < |path| - 1 && path[i] == '/' ==> path[i + 1] != '.'
  }

  /** What the server may find for a URL: the path itself after an origin when it is plain;
      for other URLs the transport decides. */
  ghost predicate Delivers(url: string, seen: string) {
    forall origin: string, path: string ::
      IsOrigin(origin) && PlainPath(path) && url == origin + path ==> seen == path
  }

  /** The origin of a URL ends at the first slash after the scheme. */
  lemma OriginEnds(scheme: string, host: string, path: string)
    requires Lacks(scheme, ':') && Lacks(host, '/') && path != "" && path[0] == '/'
    ensures var url := scheme + ("://" + host) + path; var n := Find(url, ':');
      n == |scheme| && n + 3 <= |url| && Find(url[n + 3..], '/') == |host| && url[n + 3..][|host|..] == path
  {
    var url := scheme + ("://" + host) + path;
    assert url == scheme + [':'] + ("//" + host + path);
    FindAt(scheme, ':', "//" + host + path);
    assert url[|scheme| + 3..] == host + path;
    assert host + path == host + ['/'] + path[1..];
    FindAt(host, '/', path[1..]);
  }

  /** A URL has one path: whatever it holds, something can arrive. */
  lemma SomethingArrives(url: string)
    ensures exists seen :: Delivers(url, seen)
  {
    var n := Find(url, ':');
    var rest := if n + 3 <= |url| then url[n + 3..] else "";
    var seen := rest[Find(rest, '/')..];
    forall origin: string, path: string | IsOrigin(origin) && PlainPath(path) && url == origin + path
      ensures seen == path
    {
      var scheme, host :| IsOriginOf(origin, scheme, host);
      OriginEnds(scheme, host, path);
    }
    assert Delivers(url, seen);
  }

  /** The same in terms of the job's path: the guard judges it with its leading slash,
      whether or not the job wrote one. */
  lemma GuardOnPath(serverUrl: string, jar: Jar, order: seq<string>, verb: string, path: string, body: string,
                    extra: seq<(string, string)>, seen: string, cookieHeader: string, presented: string)
    requires IsOrigin(StripSlashes(serverUrl)) && PlainPath(Rooted(path))
    requires JarInv(jar) && Lists(order, jar) && IsStateChanging(verb) && NoOverride(extra)
    requires var request := RequestFor(StripSlashes(serverUrl), jar, order, verb, path, body, extra);
      && Delivers(request.url, seen)
      && Shows(request.headers, COOKIE, cookieHeader) && Shows(request.headers, CSRF_HEADER, presented)
    ensures Accepts(verb, seen, cookieHeader, presented) <==>
      IsBootstrap(Rooted(path)) || (CSRF_COOKIE in jar && jar[CSRF_COOKIE] != "")
  {
    GuardAcceptsExactly(StripSlashes(serverUrl), jar, order, verb, path, body, extra, seen, cookieHeader, presented);
    hide IsOrigin, PlainPath, Shows, Accepts, IsBootstrap, JarInv, Lists, NoOverride;
    assert seen == Rooted(path);
  }

  /** So a login path without its slash is exempt too, even with an empty jar. */
  lemma SlashIsAdded()
    ensures Rooted("api/login") == "/api/login" && IsBootstrap(Rooted("api/login")) && !IsBootstrap("api/login")
  {
    hide IsBootstrap, BOOTSTRAP_PATHS;
    assert Rooted("api/login") == "/" + "api/login";
    NoQuery("/api/login");
    NoQuery("api/login");
    Listed();
  }

  lemma Listed()
    ensures "/api/login" in BOOTSTRAP_PATHS && "api/login" !in BOOTSTRAP_PATHS
  {
    assert BOOTSTRAP_PATHS[0] == "/api/login";
    assert forall p :: p in BOOTSTRAP_PATHS ==> p[0] == '/';
    assert "api/login"[0] != '/';
  }

  lemma NoQuery(path: string)
    requires Lacks(path, '?')
    ensures IsBootstrap(path) <==> path in BOOTSTRAP_PATHS
  {
    FindNone(path, '?');
    hide Find;
    assert path[..|path|] == path;
  }

  /** After a login whose answer sets csrft to a non-empty value, every state-changing call
      passes, with that value as its token. */
  lemma LoginThenCallPasses(baseUrl: string, login: Response, csrft: string, order: seq<string>, verb: string,
                            path: string, body: string, extra: seq<(string, string)>, seen: string,
                            cookieHeader: string, presented: string)
    requires ResponseSets(login, CSRF_COOKIE, csrft) && csrft != ""
    requires IsStateChanging(verb) && NoOverride(extra)
    requires var jar := StoreAll(map[], Harvested(login));
      && Lists(order, jar)
      && Shows(RequestFor(baseUrl, jar, order, verb, path, body, extra).headers, COOKIE, cookieHeader)
      && Shows(RequestFor(baseUrl, jar, order, verb, path, body, extra).headers, CSRF_HEADER, presented)
    ensures Accepts(verb, seen, cookieHeader, presented) && presented == csrft
  {
    var jar := StoreAll(map[], Harvested(login));
    HarvestMeans(map[], login, CSRF_COOKIE, csrft);
    StoreAllKeeps(map[], Harvested(login));
    hide Shows, IsStateChanging, StoreAll, Harvested, ResponseSets, NoOverride, Overlay, Accepts, BuildUrl, Header;
    GuardAcceptsExactly(baseUrl, jar, order, verb, path, body, extra, seen, cookieHeader, presented);
    ShownIsEngines(jar, Header(jar, order), verb, body, extra, CSRF_HEADER, presented);
  }
}
