/** The CORS middleware (src/middleware/builtins/cors.js): which
    `Access-Control-*` headers a request gets, and whether a preflight is
    answered at once or the request goes on to `next`. */
module Cors {
  import opened Wrappers
  import opened Text
  import opened JsValues

  /** The `origin` option: a text (`'*'` allows any origin) or a function
      that decides for a given request origin. */
  datatype OriginSetting = OriginText(text: string) | OriginTest(accept: string -> bool)

  /** The caller's options. The outer `None` of a field is a key not given;
      `Some(None)` is a key given as `undefined`. */
  datatype CorsOptions = CorsOptions(
    origin: Option<Option<OriginSetting>>,
    methods: Option<Option<seq<string>>>,
    allowedHeaders: Option<Option<seq<string>>>,
    credentials: Option<Option<bool>>,
    maxAge: Option<Option<int>>)

  const NoOptions := CorsOptions(None, None, None, None, None)

  /** The merged options; `None` is `undefined`. */
  datatype Opts = Opts(
    origin: Option<OriginSetting>,
    methods: Option<seq<string>>,
    allowedHeaders: Option<seq<string>>,
    credentials: Option<bool>,
    maxAge: Option<int>)

  const DefaultMethods: seq<string> := ["GET", "HEAD", "PUT", "PATCH", "POST", "DELETE"]
  const DefaultHeaders: seq<string> := ["Content-Type", "Authorization"]

  const Defaults := Opts(Some(OriginText("*")), Some(DefaultMethods), Some(DefaultHeaders), Some(true), Some(86400))

  /** `{ ...defaults, ...options }`. */
  function Merge(options: CorsOptions): Opts {
    Opts(
      Override(Defaults.origin, options.origin),
      Override(Defaults.methods, options.methods),
      Override(Defaults.allowedHeaders, options.allowedHeaders),
      Override(Defaults.credentials, options.credentials),
      Override(Defaults.maxAge, options.maxAge))
  }

  /** Without options every default holds; a given key wins over its
      default, even when given as `undefined`. */
  lemma MergeUnderOptions(options: CorsOptions)
    ensures var o := Merge(NoOptions);
      && o.origin.Some? && o.origin.value.OriginText? && o.origin.value.text == "*"
      && o.methods == Some(DefaultMethods) && o.allowedHeaders == Some(DefaultHeaders)
      && o.credentials == Some(true) && o.maxAge == Some(86400)
    ensures var o := Merge(options);
      && (options.methods.Some? ==> o.methods == options.methods.value)
      && (options.allowedHeaders.Some? ==> o.allowedHeaders == options.allowedHeaders.value)
      && (options.credentials.Some? ==> o.credentials == options.credentials.value)
      && (options.maxAge.Some? ==> o.maxAge == options.maxAge.value)
      && (options.methods.None? ==> o.methods == Some(DefaultMethods))
      && (options.allowedHeaders.None? ==> o.allowedHeaders == Some(DefaultHeaders))
      && (options.credentials.None? ==> o.credentials == Some(true))
      && (options.maxAge.None? ==> o.maxAge == Some(86400))
      && (options.origin.None? ==> o.origin.Some? && o.origin.value.OriginText? && o.origin.value.text == "*")
      && (options.origin == Some(None) ==> o.origin.None?)
  {
  }

  // ---------------------------------------------------------------------
  // The decision

  predicate IsWildcard(o: Option<OriginSetting>) {
    o.Some? && o.value.OriginText? && o.value.text == "*"
  }

  /** `opts.origin === origin`: the same text, or both `undefined`. */
  predicate SameOrigin(o: Option<OriginSetting>, origin: Option<string>) {
    || (o.None? && origin.None?)
    || (o.Some? && o.value.OriginText? && origin.Some? && o.value.text == origin.value)
  }

  /** The Origin header is present and not empty (truthy). */
  predicate HasOrigin(origin: Option<string>) {
    origin.Some? && origin.value != ""
  }

  /** Whether Allow-Origin is written: a wildcard setting, a function
      setting that accepts the request's (truthy) origin, or a setting
      strictly equal to the header. */
  predicate AllowsOrigin(o: Option<OriginSetting>, origin: Option<string>) {
    || IsWildcard(o)
    || (HasOrigin(origin) && o.Some? && o.value.OriginTest? && o.value.accept(origin.value))
    || SameOrigin(o, origin)
  }

  /** `origin || '*'`. */
  function AllowedValue(origin: Option<string>): (v: string)
    ensures HasOrigin(origin) ==> v == origin.value
    ensures !HasOrigin(origin) ==> v == "*"
  {
    if HasOrigin(origin) then origin.value else "*"
  }

  predicate SetFlag(b: Option<bool>) { b == Some(true) }
  predicate SetMaxAge(n: Option<int>) { n.Some? && n.value != 0 }

  /** The way the middleware ends: a 204 preflight answer, a call of
      `next`, or a TypeError because a list to join is `undefined`. */
  datatype Outcome = Preflight | CallNext | Thrown

  type Header = (string, string)

  function OriginHeaders(opts: Opts, origin: Option<string>): seq<Header> {
    if AllowsOrigin(opts.origin, origin) then [("Access-Control-Allow-Origin", AllowedValue(origin))] else []
  }

  function CredentialHeaders(opts: Opts): seq<Header> {
    if SetFlag(opts.credentials) then [("Access-Control-Allow-Credentials", "true")] else []
  }

  /** The preflight headers written before the middleware stops: the
      joined method list, the joined header list, and a truthy Max-Age, as
      far as the lists are defined. */
  function PreflightHeaders(opts: Opts): seq<Header> {
    if opts.methods.None? then []
    else
      var m := [("Access-Control-Allow-Methods", Join(opts.methods.value, ","))];
      if opts.allowedHeaders.None? then m
      else
        m + [("Access-Control-Allow-Headers", Join(opts.allowedHeaders.value, ","))]
          + (if SetMaxAge(opts.maxAge) then [("Access-Control-Max-Age", IntToDecimal(opts.maxAge.value))] else [])
  }

  /** Every header the middleware writes, in order. */
  function Written(opts: Opts, origin: Option<string>, verb: Option<string>): seq<Header> {
    OriginHeaders(opts, origin) + CredentialHeaders(opts)
      + (if verb == Some("OPTIONS") then PreflightHeaders(opts) else [])
  }

  function Decide(opts: Opts, verb: Option<string>): Outcome {
    if verb != Some("OPTIONS") then CallNext
    else if opts.methods.None? || opts.allowedHeaders.None? then Thrown
    else Preflight
  }

  /** The value of the first header called `name`. */
  function HeaderValue(hs: seq<Header>, name: string): (r: Option<string>)
    ensures r.Some? ==> exists i :: 0 <= i < |hs| && hs[i] == (name, r.value)
    ensures r.None? ==> forall i :: 0 <= i < |hs| ==> hs[i].0 != name
  {
    if |hs| == 0 then None
    else if hs[0].0 == name then Some(hs[0].1)
    else
      var r := HeaderValue(hs[1..], name);
      assert forall i :: 1 <= i < |hs| ==> hs[i] == hs[1..][i - 1];
      r
  }

  lemma {:induction false} HeaderValueAppend(a: seq<Header>, b: seq<Header>, name: string)
    ensures HeaderValue(a + b, name) == if HeaderValue(a, name).Some? then HeaderValue(a, name) else HeaderValue(b, name)
  {
    if |a| > 0 {
      assert (a + b)[1..] == a[1..] + b;
      HeaderValueAppend(a[1..], b, name);
    } else {
      assert a + b == b;
    }
  }

  lemma PreflightNames(opts: Opts)
    ensures HeaderValue(PreflightHeaders(opts), "Access-Control-Allow-Origin").None?
    ensures HeaderValue(PreflightHeaders(opts), "Access-Control-Allow-Credentials").None?
  {
  }

  /** Allow-Origin is written exactly when the origin is allowed, and holds
      the request's origin, or `*` when it has none. */
  lemma AllowOriginHeader(opts: Opts, origin: Option<string>, verb: Option<string>)
    ensures HeaderValue(Written(opts, origin, verb), "Access-Control-Allow-Origin") ==
      if AllowsOrigin(opts.origin, origin) then Some(AllowedValue(origin)) else None
  {
    var rest := if verb == Some("OPTIONS") then PreflightHeaders(opts) else [];
    HeaderValueAppend(OriginHeaders(opts, origin) + CredentialHeaders(opts), rest, "Access-Control-Allow-Origin");
    HeaderValueAppend(OriginHeaders(opts, origin), CredentialHeaders(opts), "Access-Control-Allow-Origin");
    PreflightNames(opts);
  }

  /** Allow-Credentials `true` is written exactly when `credentials` is on. */
  lemma AllowCredentialsHeader(opts: Opts, origin: Option<string>, verb: Option<string>)
    ensures HeaderValue(Written(opts, origin, verb), "Access-Control-Allow-Credentials") ==
      if SetFlag(opts.credentials) then Some("true") else None
  {
    var rest := if verb == Some("OPTIONS") then PreflightHeaders(opts) else [];
    HeaderValueAppend(OriginHeaders(opts, origin) + CredentialHeaders(opts), rest, "Access-Control-Allow-Credentials");
    HeaderValueAppend(OriginHeaders(opts, origin), CredentialHeaders(opts), "Access-Control-Allow-Credentials");
    PreflightNames(opts);
  }

  /** A preflight with both lists defined is answered with 204 and never
      reaches `next`; it carries the joined lists, and Max-Age exactly when
      that option is truthy. */
  lemma PreflightAnswered(opts: Opts, origin: Option<string>)
    requires opts.methods.Some? && opts.allowedHeaders.Some?
    ensures Decide(opts, Some("OPTIONS")) == Preflight
    ensures var w := Written(opts, origin, Some("OPTIONS"));
      && HeaderValue(w, "Access-Control-Allow-Methods") == Some(Join(opts.methods.value, ","))
      && HeaderValue(w, "Access-Control-Allow-Headers") == Some(Join(opts.allowedHeaders.value, ","))
      && (HeaderValue(w, "Access-Control-Max-Age").Some? <==> SetMaxAge(opts.maxAge))
  {
    var front := OriginHeaders(opts, origin) + CredentialHeaders(opts);
    assert HeaderValue(front, "Access-Control-Allow-Methods").None?;
    assert HeaderValue(front, "Access-Control-Allow-Headers").None?;
    assert HeaderValue(front, "Access-Control-Max-Age").None?;
    HeaderValueAppend(front, PreflightHeaders(opts), "Access-Control-Allow-Methods");
    HeaderValueAppend(front, PreflightHeaders(opts), "Access-Control-Allow-Headers");
    HeaderValueAppend(front, PreflightHeaders(opts), "Access-Control-Max-Age");
    PreflightMaxAge(opts);
  }

  lemma PreflightMaxAge(opts: Opts)
    requires opts.methods.Some? && opts.allowedHeaders.Some?
    ensures HeaderValue(PreflightHeaders(opts), "Access-Control-Max-Age").Some? <==> SetMaxAge(opts.maxAge)
  {
    var m := [("Access-Control-Allow-Methods", Join(opts.methods.value, ","))];
    var h := [("Access-Control-Allow-Headers", Join(opts.allowedHeaders.value, ","))];
    var a: seq<Header> := if SetMaxAge(opts.maxAge) then [("Access-Control-Max-Age", IntToDecimal(opts.maxAge.value))] else [];
    assert PreflightHeaders(opts) == (m + h) + a;
    HeaderValueAppend(m + h, a, "Access-Control-Max-Age");
    assert HeaderValue(m + h, "Access-Control-Max-Age").None?;
  }

  /** Any other method goes on to `next` with no preflight header. */
  lemma OtherMethodsCallNext(opts: Opts, origin: Option<string>, verb: Option<string>)
    requires verb != Some("OPTIONS")
    ensures Decide(opts, verb) == CallNext
    ensures HeaderValue(Written(opts, origin, verb), "Access-Control-Allow-Methods").None?
    ensures HeaderValue(Written(opts, origin, verb), "Access-Control-Max-Age").None?
  {
    assert Written(opts, origin, verb) == OriginHeaders(opts, origin) + CredentialHeaders(opts) + [];
  }

  /** With the defaults every request is allowed, answered with its own
      origin or `*`; a text setting other than `*` allows exactly the
      request origin equal to it; a function setting never allows a request
      without an origin; an `undefined` setting allows only requests
      without an Origin header. */
  lemma OriginSettings(origin: Option<string>, t: string, f: string -> bool)
    ensures AllowsOrigin(Merge(NoOptions).origin, origin)
    ensures t != "*" ==> (AllowsOrigin(Some(OriginText(t)), origin) <==> origin == Some(t))
    ensures !HasOrigin(origin) ==> !AllowsOrigin(Some(OriginTest(f)), origin)
    ensures HasOrigin(origin) ==> (AllowsOrigin(Some(OriginTest(f)), origin) <==> f(origin.value))
    ensures AllowsOrigin(None, origin) <==> origin.None?
  {
  }

  // ---------------------------------------------------------------------
  // The middleware, writing into the response

  /** The part of the response the middleware writes: headers in the order
      they are set, the status, and whether a body was sent. */
  class Response {
    var headers: seq<Header>
    var status: Option<int>
    var sent: bool

    constructor ()
      ensures headers == [] && status == None && !sent
    {
      headers := [];
      status := None;
      sent := false;
    }

    method SetHeader(name: string, value: string)
      modifies this
      ensures headers == old(headers) + [(name, value)]
      ensures status == old(status) && sent == old(sent)
    {
      headers := headers + [(name, value)];
    }

    /** `status(code).send()` with an empty body. */
    method SendEmpty(code: int)
      modifies this
      ensures status == Some(code) && sent
      ensures headers == old(headers)
    {
      status := Some(code);
      sent := true;
    }
  }

  /** Allow-Origin, then Allow-Credentials. */
  method WriteCommon(opts: Opts, origin: Option<string>, response: Response)
    modifies response
    ensures response.headers == old(response.headers) + OriginHeaders(opts, origin) + CredentialHeaders(opts)
    ensures response.status == old(response.status) && response.sent == old(response.sent)
  {
    if AllowsOrigin(opts.origin, origin) {
      response.SetHeader("Access-Control-Allow-Origin", AllowedValue(origin));
    }
    if SetFlag(opts.credentials) {
      response.SetHeader("Access-Control-Allow-Credentials", "true");
    }
  }

  /** The preflight headers, stopping with `thrown` at an `undefined` list. */
  method WritePreflight(opts: Opts, response: Response) returns (thrown: bool)
    modifies response
    ensures response.headers == old(response.headers) + PreflightHeaders(opts)
    ensures thrown <==> opts.methods.None? || opts.allowedHeaders.None?
    ensures response.status == old(response.status) && response.sent == old(response.sent)
  {
    if opts.methods.None? {
      return true;
    }
    response.SetHeader("Access-Control-Allow-Methods", Join(opts.methods.value, ","));
    if opts.allowedHeaders.None? {
      return true;
    }
    response.SetHeader("Access-Control-Allow-Headers", Join(opts.allowedHeaders.value, ","));
    if SetMaxAge(opts.maxAge) {
      response.SetHeader("Access-Control-Max-Age", IntToDecimal(opts.maxAge.value));
    }
    return false;
  }

  /** The middleware `cors(options)` returns, run on a request with the
      given Origin header and method. */
  method Handle(options: CorsOptions, origin: Option<string>, verb: Option<string>, response: Response)
    returns (outcome: Outcome)
    modifies response
    ensures outcome == Decide(Merge(options), verb)
    ensures response.headers == old(response.headers) + Written(Merge(options), origin, verb)
    ensures outcome == Preflight ==> response.status == Some(204) && response.sent
    ensures outcome != Preflight ==> response.status == old(response.status) && response.sent == old(response.sent)
  {
    outcome := HandleWith(Merge(options), origin, verb, response);
  }

  /** The handler body, on the merged options. */
  method HandleWith(opts: Opts, origin: Option<string>, verb: Option<string>, response: Response)
    returns (outcome: Outcome)
    modifies response
    ensures outcome == Decide(opts, verb)
    ensures response.headers == old(response.headers) + Written(opts, origin, verb)
    ensures outcome == Preflight ==> response.status == Some(204) && response.sent
    ensures outcome != Preflight ==> response.status == old(response.status) && response.sent == old(response.sent)
  {
    WriteCommon(opts, origin, response);
    ghost var front := OriginHeaders(opts, origin) + CredentialHeaders(opts);
    if verb == Some("OPTIONS") {
      assert Written(opts, origin, verb) == front + PreflightHeaders(opts);
      var thrown := WritePreflight(opts, response);
      if thrown {
        return Thrown;
      }
      response.SendEmpty(204);
      return Preflight;
    }
    assert Written(opts, origin, verb) == front + [];
    return CallNext;
  }
}
