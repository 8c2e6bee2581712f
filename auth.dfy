/** API-key extraction from a request (`src/common/auth.ts`). */
module Auth {
  import opened Wrappers
  import opened Text

  /** The JavaScript values a query parameter or a header can hold. */
  datatype JsValue = Undefined | Null | Str(s: string) | Arr(items: seq<JsValue>) | OtherValue

  /** A request, reduced to its header object; a request without headers
      has the empty map, so every lookup on it is `undefined`. */
  datatype Request = Request(headers: map<string, JsValue>)

  const API_KEY_MISSING_MESSAGE: string := "Apikey cannot be blank"

  /** `req?.headers?.[name]`. */
  function Header(req: Request, name: string): JsValue {
    if name in req.headers then req.headers[name] else Undefined
  }

  predicate IsNullish(v: JsValue) { v.Undefined? || v.Null? }

  /** The `??` operator. */
  function Coalesce(a: JsValue, b: JsValue): JsValue {
    if IsNullish(a) then b else a
  }

  /** `Array.isArray(v) ? v[0] : v`; the first element of an empty array is `undefined`. */
  function FirstIfArray(v: JsValue): JsValue {
    if v.Arr? then (if |v.items| > 0 then v.items[0] else Undefined) else v
  }

  /** The raw candidate key before it is checked: the query parameter when it is
      not nullish, otherwise the `apikey` header, otherwise the `apiKey` header. */
  function CandidateKey(req: Request, apiKeyParam: JsValue): JsValue {
    FirstIfArray(Coalesce(apiKeyParam, Coalesce(Header(req, "apikey"), Header(req, "apiKey"))))
  }

  /** The check `extractApiKey` applies to the candidate: a string that is not
      blank, trimmed. */
  function KeyFromValue(key: JsValue): (r: Option<string>)
    ensures r.Some? ==> r.value != [] && Trim(r.value) == r.value && !IsBlank(r.value)
    ensures r.Some? <==> key.Str? && !IsBlank(key.s)
    ensures r.Some? ==> r.value == Trim(key.s)
  {
    if !key.Str? || Trim(key.s) == [] then None
    else
      TrimIdempotent(key.s);
      TrimmedNotBlank(key.s);
      Some(Trim(key.s))
  }

  /** `extractApiKey`. */
  function ExtractApiKey(req: Request, apiKeyParam: JsValue): (r: Option<string>)
    ensures r.Some? ==> r.value != [] && Trim(r.value) == r.value && !IsBlank(r.value)
    ensures r.Some? <==> CandidateKey(req, apiKeyParam).Str? && !IsBlank(CandidateKey(req, apiKeyParam).s)
  {
    KeyFromValue(CandidateKey(req, apiKeyParam))
  }

  /** A query parameter that is neither null nor undefined decides alone:
      the headers are not consulted. */
  lemma QueryParamTakesPrecedence(req1: Request, req2: Request, apiKeyParam: JsValue)
    requires !IsNullish(apiKeyParam)
    ensures ExtractApiKey(req1, apiKeyParam) == ExtractApiKey(req2, apiKeyParam)
    ensures ExtractApiKey(req1, apiKeyParam) == KeyFromValue(FirstIfArray(apiKeyParam))
  {
  }

  /** An empty query parameter shadows any header and yields no key. */
  lemma EmptyParamShadowsHeader(req: Request)
    ensures ExtractApiKey(req, Str("")) == None
  {
  }

  /** Without a parameter the `apikey` header is used, and `apiKey` only when
      `apikey` is nullish. */
  lemma HeaderFallback(req: Request, apiKeyParam: JsValue)
    requires IsNullish(apiKeyParam)
    ensures !IsNullish(Header(req, "apikey")) ==>
              ExtractApiKey(req, apiKeyParam) == KeyFromValue(FirstIfArray(Header(req, "apikey")))
    ensures IsNullish(Header(req, "apikey")) ==>
              ExtractApiKey(req, apiKeyParam) == KeyFromValue(FirstIfArray(Header(req, "apiKey")))
  {
  }

  /** An array value stands for its first element, which is not unwrapped again. */
  lemma ArrayUsesFirstElement(req: Request, first: JsValue, rest: seq<JsValue>)
    ensures ExtractApiKey(req, Arr([first] + rest)) == KeyFromValue(first)
  {
  }

  /** `extractTokenApiKey`: the trimmed second space-separated piece of an
      `authorization` header whose first piece is exactly `Token`. */
  function ExtractTokenApiKey(req: Request): (r: Option<string>)
    ensures r.Some? <==>
              && Header(req, "authorization").Str?
              && var parts := Split(Header(req, "authorization").s, ' ');
              && parts[0] == "Token" && |parts| >= 2 && !IsBlank(parts[1])
    ensures r.Some? ==> r.value == Trim(Split(Header(req, "authorization").s, ' ')[1])
    ensures r.Some? ==> r.value != [] && Trim(r.value) == r.value
  {
    var authorization := Header(req, "authorization");
    if !authorization.Str? then None
    else
      var parts := Split(authorization.s, ' ');
      if parts[0] != "Token" || |parts| < 2 || Trim(parts[1]) == [] then None
      else
        TrimIdempotent(parts[1]);
        Some(Trim(parts[1]))
  }

  /** `Token <t>` yields the trimmed `<t>` when `<t>` holds no space and is not blank. */
  lemma {:induction false} TokenSchemeYieldsToken(req: Request, t: string)
    requires Header(req, "authorization") == Str("Token " + t)
    requires ' ' !in t && !IsBlank(t)
    ensures ExtractTokenApiKey(req) == Some(Trim(t))
  {
    assert "Token " + t == "Token" + [' '] + t;
    SplitAfterHead("Token", ' ', t);
    var i := FindChar(t, ' ');
    assert i == |t|;
    var parts := Split("Token " + t, ' ');
    assert parts == ["Token", t];
    assert Trim(t) != [];
  }

  /** Any other scheme, a non-string header, a bare `Token` with nothing
      after it or a blank token yields no key. */
  lemma TokenRejections(req: Request)
    ensures !Header(req, "authorization").Str? ==> ExtractTokenApiKey(req) == None
    ensures (Header(req, "authorization").Str? && Split(Header(req, "authorization").s, ' ')[0] != "Token")
              ==> ExtractTokenApiKey(req) == None
    ensures (Header(req, "authorization").Str? && |Split(Header(req, "authorization").s, ' ')| >= 2
              && IsBlank(Split(Header(req, "authorization").s, ' ')[1]))
              ==> ExtractTokenApiKey(req) == None
    ensures Header(req, "authorization") == Str("Token") ==> ExtractTokenApiKey(req) == None
  {
    if Header(req, "authorization") == Str("Token") {
      assert FindChar("Token", ' ') == 5;
    }
  }

  /** The test suite's cases. */
  lemma BearerSchemeRejected()
    ensures ExtractTokenApiKey(Request(map["authorization" := Str("Bearer listen-key")])) == None
  {
    var s := "Bearer listen-key";
    assert s == "Bearer" + [' '] + "listen-key";
    SplitAfterHead("Bearer", ' ', "listen-key");
  }

  lemma BlankHeaderKeyRejected()
    ensures ExtractApiKey(Request(map["apikey" := Str("   ")]), Undefined) == None
  {
    var r := Request(map["apikey" := Str("   ")]);
    assert CandidateKey(r, Undefined) == Str("   ");
    assert IsBlank("   ");
    assert KeyFromValue(Str("   ")) == None;
  }
}
