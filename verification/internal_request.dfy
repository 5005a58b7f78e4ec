/** The single-use internal-request builder: fluent configuration, one
    execution handed to a delegate (the request-processor pipeline or the
    servlet resolver), then status and content-type checks and access to
    the response, with an implicit check for 200 OK unless the caller
    checked the status explicitly.

    The Java class mutates itself and may throw from the same call, so
    every operation here takes the builder state and returns the new state
    together with the way the call ended. */
module InternalRequests {
  import opened Lang
  import opened Joins

  /** The two back ends, fixed when the builder is created: the full
      request-processor pipeline (`slingRequest`) or a direct call of the
      resolved servlet or script (`servletRequest`). */
  datatype Strategy = RequestProcessor | ServletResolver

  /** Request parameters; Java's map accepts null keys and values through
      a bulk merge, so both are nullable. */
  type ParameterMap<V> = map<Nullable<string>, Nullable<V>>

  /** Everything the caller configures before execution. `body` stands for
      the text the body reader yields. */
  datatype Config<V> = Config(
    path: string,
    selectorString: Nullable<string>,
    extension: Nullable<string>,
    requestMethod: string,
    resourceType: Nullable<string>,
    resourceSuperType: Nullable<string>,
    contentType: Nullable<string>,
    body: Nullable<string>,
    parameters: ParameterMap<V>)

  /** What the delegate wrote into the mock response. */
  datatype Response = Response(status: int, contentType: Nullable<string>, output: string)

  /** The request handed to the delegate and the response it filled. */
  datatype Exchange<V> = Exchange(request: Config<V>, response: Response)

  /** The builder. `exchange` is non-null exactly when the Java `request`
      field is, that is once `execute` has begun. */
  datatype Builder<V> = Builder(
    strategy: Strategy,
    config: Config<V>,
    explicitStatusCheck: bool,
    exchange: Nullable<Exchange<V>>)
  {
    predicate Executed() {
      exchange.NonNull?
    }
  }

  /** One run of the delegate: the response it leaves behind, and the
      exception it throws, if any. The response exists in both cases,
      because it is created before the delegate is called. */
  datatype Delegation = Delegation(response: Response, thrown: Nullable<Exception>)

  /** The back end, left uninterpreted: given the strategy and the request
      it yields a `Delegation`. */
  type Delegate<!V> = (Strategy, Config<V>) -> Delegation

  /** The new builder state and the way the call ended. */
  datatype Step<V, +T> = Step(state: Builder<V>, outcome: Outcome<T>)

  const DefaultMethod: string := "GET"

  /** `HttpServletResponse.SC_OK` */
  const StatusOk: int := 200

  const AlreadyExecuted: Exception := IOException("Request was already executed", Null)
  const NotExecuted: Exception := IOException("Request hasn't been executed", Null)
  const NullParameter: Exception := IllegalArgumentException("Null key or value")
  const ServletExceptionMessage: string := "ServletException in execute()"

  // ---------------------------------------------------------------------
  // Construction and configuration
  // ---------------------------------------------------------------------

  /** The protected constructor, reached through `slingRequest` or
      `servletRequest` (which pick the strategy). */
  function New<V>(strategy: Strategy, path: string): (b: Builder<V>)
    ensures b.strategy == strategy && b.config.path == path
    ensures b.config.requestMethod == DefaultMethod
    ensures !b.Executed() && !b.explicitStatusCheck
    ensures b.config.parameters == map[]
    ensures b.config.selectorString.Null? && b.config.extension.Null? && b.config.contentType.Null?
    ensures b.config.resourceType.Null? && b.config.resourceSuperType.Null? && b.config.body.Null?
  {
    Builder(strategy, Config(path, Null, Null, DefaultMethod, Null, Null, Null, Null, map[]), false, Null)
  }

  /** Stores the method upper-cased; a null method fails in `toUpperCase`
      before anything is stored. */
  function WithRequestMethod<V>(b: Builder<V>, newMethod: Nullable<string>): (r: Step<V, ()>)
    ensures newMethod.Null? ==> r == Step(b, Threw(NullPointerException))
    ensures newMethod.NonNull? ==>
      && r.outcome.Returned?
      && r.state.config.requestMethod == ToUpperAscii(newMethod.value)
      && IsUpperAscii(r.state.config.requestMethod)
      && EqualIgnoringAsciiCase(r.state.config.requestMethod, newMethod.value)
      && r.state == b.(config := b.config.(requestMethod := r.state.config.requestMethod))
  {
    match newMethod
    case Null => Step(b, Threw(NullPointerException))
    case NonNull(m) =>
      ToUpperAsciiProperties(m);
      Step(b.(config := b.config.(requestMethod := ToUpperAscii(m))), Returned(()))
  }

  function WithContentType<V>(b: Builder<V>, contentType: Nullable<string>): (r: Builder<V>)
    ensures r.config.contentType == contentType
    ensures r == b.(config := b.config.(contentType := r.config.contentType))
  {
    b.(config := b.config.(contentType := contentType))
  }

  function WithBody<V>(b: Builder<V>, body: Nullable<string>): (r: Builder<V>)
    ensures r.config.body == body
    ensures r == b.(config := b.config.(body := r.config.body))
  {
    b.(config := b.config.(body := body))
  }

  function WithResourceSuperType<V>(b: Builder<V>, resourceSuperType: Nullable<string>): (r: Builder<V>)
    ensures r.config.resourceSuperType == resourceSuperType
    ensures r == b.(config := b.config.(resourceSuperType := r.config.resourceSuperType))
  {
    b.(config := b.config.(resourceSuperType := resourceSuperType))
  }

  function WithResourceType<V>(b: Builder<V>, resourceType: Nullable<string>): (r: Builder<V>)
    ensures r.config.resourceType == resourceType
    ensures r == b.(config := b.config.(resourceType := r.config.resourceType))
  {
    b.(config := b.config.(resourceType := resourceType))
  }

  function WithExtension<V>(b: Builder<V>, extension: Nullable<string>): (r: Builder<V>)
    ensures r.config.extension == extension
    ensures r == b.(config := b.config.(extension := r.config.extension))
  {
    b.(config := b.config.(extension := extension))
  }

  /** What `StringBuilder.append` adds for each selector: a null element
      is appended as "null". */
  function RenderSelectors(selectors: seq<Nullable<string>>): (r: seq<string>)
    ensures |r| == |selectors|
    ensures forall i :: 0 <= i < |selectors| ==> r[i] == Render(selectors[i])
  {
    seq(|selectors|, i requires 0 <= i < |selectors| => Render(selectors[i]))
  }

  /** A null array leaves the selector string alone; otherwise the selector
      string becomes the selectors joined with ".", where leading empty
      selectors add neither text nor a separator. */
  function WithSelectors<V>(b: Builder<V>, selectors: Nullable<seq<Nullable<string>>>): (r: Builder<V>)
    ensures selectors.Null? ==> r == b
    ensures selectors.NonNull? ==>
      && r.config.selectorString == NonNull(Join(".", DropLeadingEmpty(RenderSelectors(selectors.value))))
      && r == b.(config := b.config.(selectorString := r.config.selectorString))
  {
    match selectors
    case Null => b
    case NonNull(sels) =>
      var items := RenderSelectors(sels);
      AppendJoinIsJoin(".", items);
      b.(config := b.config.(selectorString := NonNull(AppendJoin("", ".", items))))
  }

  /** Puts one parameter; a null key or value is refused and nothing is
      stored. */
  function WithParameter<V>(b: Builder<V>, key: Nullable<string>, value: Nullable<V>): (r: Step<V, ()>)
    ensures r.outcome.Returned? <==> key.NonNull? && value.NonNull?
    ensures r.outcome.Threw? ==> r.state == b && r.outcome.exception == NullParameter
    ensures r.outcome.Returned? ==>
      var before, after := b.config.parameters, r.state.config.parameters;
      && after.Keys == before.Keys + {key}
      && after[key] == value
      && (forall k :: k in before && k != key ==> after[k] == before[k])
      && r.state == b.(config := b.config.(parameters := after))
  {
    if key.NonNull? && value.NonNull? then
      Step(b.(config := b.config.(parameters := b.config.parameters[key := value])), Returned(()))
    else
      Step(b, Threw(NullParameter))
  }

  /** Merges a map of parameters into the current ones (`putAll`): the new
      entries win; a null map changes nothing. */
  function WithParameters<V>(b: Builder<V>, additional: Nullable<ParameterMap<V>>): (r: Builder<V>)
    ensures additional.Null? ==> r == b
    ensures additional.NonNull? ==>
      var before, extra, after := b.config.parameters, additional.value, r.config.parameters;
      && after.Keys == before.Keys + extra.Keys
      && (forall k :: k in extra ==> after[k] == extra[k])
      && (forall k :: k in before && k !in extra ==> after[k] == before[k])
      && r == b.(config := b.config.(parameters := after))
  {
    match additional
    case Null => b
    case NonNull(extra) => b.(config := b.config.(parameters := b.config.parameters + extra))
  }

  // ---------------------------------------------------------------------
  // Execution
  // ---------------------------------------------------------------------

  /** The exception `execute` lets out when the delegate throws `e`: a
      `ServletException` is wrapped in an `IOException`, anything else
      passes through. */
  function Translate(e: Exception): (t: Exception)
    ensures e.ServletException? ==> t == IOException(ServletExceptionMessage, NonNull(e))
    ensures !e.ServletException? ==> t == e
    ensures t.ServletException? == false
  {
    if e.ServletException? then IOException(ServletExceptionMessage, NonNull(e)) else e
  }

  /** Runs the request once. A second call fails and changes nothing. The
      first call marks the builder executed before the delegate runs, so
      it stays executed even when the delegate throws. */
  function Execute<V>(b: Builder<V>, delegate: Delegate<V>): (r: Step<V, ()>)
    ensures b.Executed() ==> r == Step(b, Threw(AlreadyExecuted))
    ensures !b.Executed() ==>
      var d := delegate(b.strategy, b.config);
      && r.state.Executed()
      && r.state.exchange.value == Exchange(b.config, d.response)
      && r.state == b.(exchange := r.state.exchange)
      && (r.outcome.Returned? <==> d.thrown.Null?)
      && (d.thrown.NonNull? && d.thrown.value.ServletException? ==>
            r.outcome == Threw(IOException(ServletExceptionMessage, d.thrown)))
      && (d.thrown.NonNull? && !d.thrown.value.ServletException? ==>
            r.outcome == Threw(d.thrown.value))
  {
    if b.Executed() then
      Step(b, Threw(AlreadyExecuted))
    else
      var d := delegate(b.strategy, b.config);
      var s := b.(exchange := NonNull(Exchange(b.config, d.response)));
      match d.thrown
      case Null => Step(s, Returned(()))
      case NonNull(e) => Step(s, Threw(Translate(e)))
  }

  /** Fails unless `execute` has begun. */
  function AssertRequestExecuted<V>(b: Builder<V>): (r: Outcome<()>)
    ensures r.Returned? <==> b.Executed()
    ensures r.Threw? ==> r.exception == NotExecuted
  {
    if b.Executed() then Returned(()) else Threw(NotExecuted)
  }

  // ---------------------------------------------------------------------
  // Checks and accessors
  // ---------------------------------------------------------------------

  /** The index of the first occurrence of `x` in `vs`, or `Null` when it
      does not occur. Java's stream `filter(...).findFirst()` yields the
      matching value rather than an index; `checkStatus` uses only whether
      one is present. */
  function FindFirst(vs: seq<int>, x: int): (r: Nullable<nat>)
    ensures r.Null? <==> x !in vs
    ensures r.NonNull? ==> r.value < |vs| && vs[r.value] == x
    ensures r.NonNull? ==> forall j :: 0 <= j < r.value ==> vs[j] != x
    decreases |vs|
  {
    if |vs| == 0 then Null
    else if vs[0] == x then NonNull(0)
    else match FindFirst(vs[1..], x)
      case Null => Null
      case NonNull(i) => NonNull(i + 1)
  }

  /** The decimal renderings of the accepted statuses. */
  function StatusStrings(vs: seq<int>): (r: seq<string>)
    ensures |r| == |vs|
    ensures forall i :: 0 <= i < |vs| ==> r[i] == IntToString(vs[i])
  {
    seq(|vs|, i requires 0 <= i < |vs| => IntToString(vs[i]))
  }

  /** The accepted statuses separated by commas. */
  function CommaList(vs: seq<int>): (r: string)
    ensures r == Join(",", StatusStrings(vs))
  {
    var items := StatusStrings(vs);
    AppendJoinNoEmpty(",", items);
    AppendJoin("", ",", items)
  }

  const UnexpectedStatusPrefix: string := "Unexpected response status "
  const ExpectedOneOf: string := ", expected one of '"

  /** The failure `checkStatus` raises for `actual` against `vs`. */
  function UnexpectedStatus(actual: int, vs: seq<int>): (e: Exception)
    ensures e.IOException? && e.cause.Null?
  {
    IOException(UnexpectedStatusPrefix + IntToString(actual) + ExpectedOneOf + CommaList(vs) + "'", Null)
  }

  /** Marks the status as explicitly checked (even when the check then
      fails) and, unless no values are given, fails when the actual status
      is none of them. */
  function CheckStatus<V>(b: Builder<V>, acceptable: Nullable<seq<int>>): (r: Step<V, ()>)
    ensures !b.Executed() ==> r == Step(b, Threw(NotExecuted))
    ensures b.Executed() ==>
      var actual := b.exchange.value.response.status;
      && r.state == b.(explicitStatusCheck := true)
      && (r.outcome.Returned? <==>
            acceptable.Null? || |acceptable.value| == 0 || actual in acceptable.value)
      && (r.outcome.Threw? ==>
            r.outcome.exception == IOException(UnexpectedStatusPrefix + IntToString(actual)
              + ExpectedOneOf + Join(",", StatusStrings(acceptable.value)) + "'", Null))
  {
    match AssertRequestExecuted(b)
    case Threw(e) => Step(b, Threw(e))
    case Returned(_) =>
      var s := b.(explicitStatusCheck := true);
      if acceptable.Null? || |acceptable.value| == 0 then
        Step(s, Returned(()))
      else
        var actual := b.exchange.value.response.status;
        if FindFirst(acceptable.value, actual).Null? then
          Step(s, Threw(UnexpectedStatus(actual, acceptable.value)))
        else
          Step(s, Returned(()))
  }

  /** Checks for 200 OK unless the status was checked explicitly, and in
      either outcome leaves the explicit-check flag false (the `finally`). */
  function MaybeCheckOkStatus<V>(b: Builder<V>): (r: Step<V, ()>)
    ensures b.explicitStatusCheck ==> r == Step(b, Returned(()))
    ensures !b.explicitStatusCheck ==> r.state == b
    ensures !b.explicitStatusCheck && !b.Executed() ==> r.outcome == Threw(NotExecuted)
    ensures !b.explicitStatusCheck && b.Executed() ==>
      var status := b.exchange.value.response.status;
      && (r.outcome.Returned? <==> status == StatusOk)
      && (r.outcome.Threw? ==> r.outcome.exception == UnexpectedStatus(status, [StatusOk]))
  {
    if b.explicitStatusCheck then
      Step(b, Returned(()))
    else
      var c := CheckStatus(b, NonNull([StatusOk]));
      Step(c.state.(explicitStatusCheck := false), c.outcome)
  }

  /** Fails unless the expected content type equals the response's; a null
      expectation fails in `equals`. The builder state is not touched. */
  function CheckResponseContentType<V>(b: Builder<V>, expected: Nullable<string>): (r: Outcome<()>)
    ensures !b.Executed() ==> r == Threw(NotExecuted)
    ensures b.Executed() && expected.Null? ==> r == Threw(NullPointerException)
    ensures b.Executed() && expected.NonNull? ==>
      var actual := b.exchange.value.response.contentType;
      && (r.Returned? <==> actual == expected)
      && (r.Threw? ==> r.exception == IOException("Expected content type " + expected.value
            + " but got " + Render(actual), Null))
  {
    match AssertRequestExecuted(b)
    case Threw(e) => Threw(e)
    case Returned(_) =>
      match expected
      case Null => Threw(NullPointerException)
      case NonNull(c) =>
        var actual := b.exchange.value.response.contentType;
        if actual.NonNull? && actual.value == c then Returned(())
        else Threw(IOException("Expected content type " + c + " but got " + Render(actual), Null))
  }

  function GetStatus<V>(b: Builder<V>): (r: Outcome<int>)
    ensures r.Returned? <==> b.Executed()
    ensures r.Returned? ==> r.value == b.exchange.value.response.status
    ensures r.Threw? ==> r.exception == NotExecuted
  {
    match AssertRequestExecuted(b)
    case Threw(e) => Threw(e)
    case Returned(_) => Returned(b.exchange.value.response.status)
  }

  /** Reads `select` from the response after the implicit status check:
      the shared shape of `getResponse` and `getResponseAsString`. The
      builder state comes back unchanged, whatever the outcome. */
  function ReadResponse<V, T>(b: Builder<V>, select: Response -> T): (r: Step<V, T>)
    ensures r.state == b
    ensures !b.Executed() ==> r.outcome == Threw(NotExecuted)
    ensures b.Executed() ==>
      var response := b.exchange.value.response;
      && (r.outcome.Returned? <==> b.explicitStatusCheck || response.status == StatusOk)
      && (r.outcome.Returned? ==> r.outcome.value == select(response))
      && (r.outcome.Threw? ==> r.outcome.exception == UnexpectedStatus(response.status, [StatusOk]))
  {
    match AssertRequestExecuted(b)
    case Threw(e) => Step(b, Threw(e))
    case Returned(_) =>
      var c := MaybeCheckOkStatus(b);
      match c.outcome
      case Threw(e) => Step(c.state, Threw(e))
      case Returned(_) => Step(c.state, Returned(select(b.exchange.value.response)))
  }

  function GetResponse<V>(b: Builder<V>): (r: Step<V, Response>)
    ensures r.state == b
    ensures !b.Executed() ==> r.outcome == Threw(NotExecuted)
    ensures b.Executed() ==>
      var response := b.exchange.value.response;
      && (r.outcome.Returned? <==> b.explicitStatusCheck || response.status == StatusOk)
      && (r.outcome.Returned? ==> r.outcome.value == response)
      && (r.outcome.Threw? ==> r.outcome.exception == UnexpectedStatus(response.status, [StatusOk]))
  {
    ReadResponse(b, (resp: Response) => resp)
  }

  function GetResponseAsString<V>(b: Builder<V>): (r: Step<V, string>)
    ensures r.state == b
    ensures !b.Executed() ==> r.outcome == Threw(NotExecuted)
    ensures b.Executed() ==>
      var response := b.exchange.value.response;
      && (r.outcome.Returned? <==> b.explicitStatusCheck || response.status == StatusOk)
      && (r.outcome.Returned? ==> r.outcome.value == response.output)
      && (r.outcome.Threw? ==> r.outcome.exception == UnexpectedStatus(response.status, [StatusOk]))
  {
    ReadResponse(b, (resp: Response) => resp.output)
  }
}
