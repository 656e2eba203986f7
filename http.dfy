/**
 * Requests and responses as the handlers see them. A `Response` is an object
 * whose header map and cookie list the core changes in place, as it does with
 * a `NextResponse`.
 */
module Http {
  import opened Wrappers
  import opened JsonData

  /** Header names are lower-case here, as `Headers.get` matches them without regard to case. */
  datatype Request = Request(
    verb: string,
    headers: map<string, string>,
    cookies: map<string, string>,
    body: Option<Json>)   // None: the body is not valid JSON, so `request.json()` throws

  datatype CookieOptions = CookieOptions(httpOnly: bool, secure: bool, maxAge: int, path: string)

  /** One `response.cookies.set` or `response.cookies.delete`. */
  datatype CookieOp =
    | CookieSet(name: string, value: string, options: CookieOptions)
    | CookieDeleted(name: string)

  datatype Body =
    | NoBody             // `new NextResponse(null, ...)`
    | PassThrough        // `NextResponse.next()`: the request goes on to its handler
    | JsonBody(value: Json)
    | ValidationIssues   // `{ error: error.errors }` for a ZodError; the issue list is not modelled

  /** The message every route handler answers with when its `catch` block runs. */
  const InternalError := "Internal server error"

  /** Entries of a header object, in the order `Object.entries` yields them. */
  type HeaderList = seq<(string, string)>

  predicate DistinctNames(hs: HeaderList) {
    forall i, j :: 0 <= i < j < |hs| ==> hs[i].0 != hs[j].0
  }

  /** The value the last entry named `name` carries, if any. */
  function Lookup(hs: HeaderList, name: string): (v: Option<string>)
    ensures v.Some? ==> (name, v.value) in hs
    ensures v.None? ==> forall i :: 0 <= i < |hs| ==> hs[i].0 != name
  {
    if hs == [] then None
    else if hs[|hs| - 1].0 == name then Some(hs[|hs| - 1].1)
    else Lookup(hs[..|hs| - 1], name)
  }

  /** In a list with distinct names, each entry is what its name looks up. */
  lemma {:induction false} LookupDistinct(hs: HeaderList, i: nat)
    requires DistinctNames(hs) && i < |hs|
    ensures Lookup(hs, hs[i].0) == Some(hs[i].1)
    decreases |hs|
  {
    if i < |hs| - 1 {
      LookupDistinct(hs[..|hs| - 1], i);
    }
  }

  /** The header map after `headers.set(k, v)` for each entry in turn. */
  function ApplyHeaders(h: map<string, string>, hs: HeaderList): map<string, string> {
    if hs == [] then h
    else ApplyHeaders(h, hs[..|hs| - 1])[hs[|hs| - 1].0 := hs[|hs| - 1].1]
  }

  /** Setting the entries one by one makes each listed name carry its listed value and leaves the rest. */
  lemma {:induction false} ApplyHeadersLookup(h: map<string, string>, hs: HeaderList, name: string)
    ensures Lookup(hs, name).Some? ==> name in ApplyHeaders(h, hs) && ApplyHeaders(h, hs)[name] == Lookup(hs, name).value
    ensures Lookup(hs, name).None? ==> (name in ApplyHeaders(h, hs) <==> name in h)
    ensures Lookup(hs, name).None? && name in h ==> ApplyHeaders(h, hs)[name] == h[name]
    decreases |hs|
  {
    if hs != [] {
      ApplyHeadersLookup(h, hs[..|hs| - 1], name);
    }
  }

  function Names(hs: HeaderList): set<string> {
    set i | 0 <= i < |hs| :: hs[i].0
  }

  /** Setting the entries adds exactly their names to the map. */
  lemma {:induction false} ApplyHeadersKeys(h: map<string, string>, hs: HeaderList)
    ensures ApplyHeaders(h, hs).Keys == h.Keys + Names(hs)
    decreases |hs|
  {
    if hs != [] {
      var front := hs[..|hs| - 1];
      ApplyHeadersKeys(h, front);
      assert Names(hs) == Names(front) + {hs[|hs| - 1].0} by {
        forall n | n in Names(hs) ensures n in Names(front) + {hs[|hs| - 1].0} {
          var i :| 0 <= i < |hs| && hs[i].0 == n;
          if i < |hs| - 1 { assert front[i].0 == n; }
        }
        forall n | n in Names(front) ensures n in Names(hs) {
          var i :| 0 <= i < |front| && front[i].0 == n;
          assert hs[i].0 == n;
        }
      }
    }
  }

  class Response {
    var status: int
    var body: Body
    var headers: map<string, string>
    var cookies: seq<CookieOp>

    /** `NextResponse.json(value, { status })`. */
    constructor FromJson(value: Json, status: int)
      ensures this.status == status && body == JsonBody(value)
      ensures headers == map[] && cookies == []
    {
      this.status := status;
      body := JsonBody(value);
      headers := map[];
      cookies := [];
    }

    /** `NextResponse.json({ error: error.errors }, { status: 400 })`. */
    constructor FromValidationIssues()
      ensures status == 400 && body == ValidationIssues
      ensures headers == map[] && cookies == []
    {
      status := 400;
      body := ValidationIssues;
      headers := map[];
      cookies := [];
    }

    /** `NextResponse.next()`. */
    constructor Next()
      ensures status == 200 && body == PassThrough
      ensures headers == map[] && cookies == []
    {
      status := 200;
      body := PassThrough;
      headers := map[];
      cookies := [];
    }

    /** `new NextResponse(null, { status })`. */
    constructor WithoutBody(status: int)
      ensures this.status == status && body == NoBody
      ensures headers == map[] && cookies == []
    {
      this.status := status;
      body := NoBody;
      headers := map[];
      cookies := [];
    }

    /** `headers.set` overwrites: a name is never duplicated. */
    method SetHeader(name: string, value: string)
      modifies this`headers
      ensures headers == old(headers)[name := value]
    {
      headers := headers[name := value];
    }

    method SetCookie(name: string, value: string, options: CookieOptions)
      modifies this`cookies
      ensures cookies == old(cookies) + [CookieSet(name, value, options)]
    {
      cookies := cookies + [CookieSet(name, value, options)];
    }

    method DeleteCookie(name: string)
      modifies this`cookies
      ensures cookies == old(cookies) + [CookieDeleted(name)]
    {
      cookies := cookies + [CookieDeleted(name)];
    }
  }

  /** `NextResponse.json({ error: message }, { status })`. */
  function ErrorJson(message: string): Json {
    JObject(map["error" := JString(message)])
  }

  /** `NextResponse.json({ message })`. */
  function MessageJson(message: string): Json {
    JObject(map["message" := JString(message)])
  }
}
