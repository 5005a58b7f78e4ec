# InternalRequest builder, modelled in Dafny

Apache Sling's servlet helpers include `InternalRequest`. It is a fluent, single-use builder for in-process
"internal requests". The caller configures the HTTP method, selectors, extension, resource type and super
type, content type, body and parameters. The caller then executes the request once through one of two back
ends: the full `SlingRequestProcessor` pipeline, or a direct call of the resolved servlet or script. After
that, the caller checks the status and content type and reads the response. Reading the response runs an
implicit check for 200 OK, unless the caller has already checked the status explicitly.

This project models that builder as an immutable state value with pure transitions:

- `lang.dfy` (module `Lang`) covers the Java notions the builder depends on:
  - `Nullable` for references that may be null.
  - The exceptions it throws, and `Outcome` for "returned a value or threw".
  - ASCII upper-casing for `toUpperCase`.
  - The decimal rendering that string concatenation gives an `int`, with its parse-back.
- `joins.dfy` (module `Joins`) covers joining:
  - The `StringBuilder` idiom the builder uses twice. For each item it appends the separator only when the
    buffer is already non-empty, then the item.
  - An ordinary reference join, and the exact relation between that join and the idiom.
  - A split that undoes the reference join.
- `internal_request.dfy` (module `InternalRequests`) holds the builder.
  - State: a `Builder` holds the strategy, the configuration, the explicit-check flag and the exchange.
    The exchange is the request handed to the back end plus the response it filled. It is non-null exactly
    when the Java `request` field is.
  - Every Java method that may both change the builder and throw becomes a function. It returns a `Step`
    holding the new state and the `Outcome`.
  - The back end (`delegateExecute`) is a pure function parameter. Given the strategy and the
    configuration, it yields the response it left behind and, optionally, the exception it threw.
- `protocol.dfy` (module `Protocol`) holds properties of call sequences:
  - `execute` runs at most once.
  - Every accessor is guarded until execution.
  - The implicit check repeats, and any explicit check switches it off.
  - The status-failure message names the actual status and every accepted value, in a form that parses back.
  - Worked examples cover the selector join and the status checks.

Notes on the code:

- Both guards, "Request was already executed" and "Request hasn't been executed", throw `IOException`.
- The setters accept calls after `execute`. They never change the response or the explicit-check flag, which
  are all that the later checks and reads look at (`Protocol.SettersKeepExecutionState`).
- The Javadoc of `execute` mentions a status check and an `expectedResponseStatus` parameter. Neither exists:
  `execute` checks no status.
- `checkResponseContentType` changes no field, so it cannot affect the explicit-check flag or later reads. The
  model returns only an outcome for it.
- The diagnostic MDC key is set but never removed (logging is left out, see below).

## Model

| member | source | states |
|---|---|---|
| `InternalRequests.New` | src/main/java/org/apache/sling/servlethelpers/internalrequests/InternalRequest.java:84-88 | a new builder keeps its strategy and path, has method "GET", no parameters, every other option null, is not executed and has no explicit status check |
| `InternalRequests.WithRequestMethod` | src/main/java/org/apache/sling/servlethelpers/internalrequests/InternalRequest.java:137-141 | a null method throws `NullPointerException` and changes nothing; otherwise the stored method is upper case, equals the given one up to ASCII case, and nothing else changes |
| `Lang.ToUpperAsciiProperties` | src/main/java/org/apache/sling/servlethelpers/internalrequests/InternalRequest.java:139 | the upper-cased method has no lower-case ASCII letter, agrees with its input up to case, and upper-casing again changes nothing |
| `InternalRequests.WithContentType` | src/main/java/org/apache/sling/servlethelpers/internalrequests/InternalRequest.java:144-147 | sets the request content type, possibly to null, and nothing else |
| `InternalRequests.WithBody` | src/main/java/org/apache/sling/servlethelpers/internalrequests/InternalRequest.java:150-153 | sets the body, possibly to null, and nothing else |
| `InternalRequests.WithResourceSuperType` | src/main/java/org/apache/sling/servlethelpers/internalrequests/InternalRequest.java:157-160 | sets the resource super type and nothing else |
| `InternalRequests.WithResourceType` | src/main/java/org/apache/sling/servlethelpers/internalrequests/InternalRequest.java:164-167 | sets the resource type and nothing else |
| `InternalRequests.WithSelectors` | src/main/java/org/apache/sling/servlethelpers/internalrequests/InternalRequest.java:172-180 | a null array changes nothing; otherwise the selector string is the reference "."-join of the selectors after dropping the leading empty ones (a null selector counts as "null"), and nothing else changes |
| `Joins.AppendJoinIsJoin` | src/main/java/org/apache/sling/servlethelpers/internalrequests/InternalRequest.java:176-178 | the `StringBuilder` fold that adds the separator only to a non-empty buffer equals the reference join of the items without their leading empty ones |
| `InternalRequests.WithExtension` | src/main/java/org/apache/sling/servlethelpers/internalrequests/InternalRequest.java:185-188 | sets the extension and nothing else |
| `InternalRequests.WithParameter` | src/main/java/org/apache/sling/servlethelpers/internalrequests/InternalRequest.java:191-198 | returns normally iff key and value are both non-null; on a null one, throws `IllegalArgumentException("Null key or value")` and changes nothing; otherwise adds exactly the key, maps it to the value, and keeps every other entry and option |
| `InternalRequests.WithParameters` | src/main/java/org/apache/sling/servlethelpers/internalrequests/InternalRequest.java:201-206 | a null map changes nothing; otherwise the keys are the union, the new entries override, old entries not overridden are kept, and nothing else changes |
| `InternalRequests.Translate` | src/main/java/org/apache/sling/servlethelpers/internalrequests/InternalRequest.java:248-252 | a `ServletException` from the back end becomes `IOException("ServletException in execute()")` with it as cause; any other exception passes through unchanged, so no `ServletException` escapes |
| `InternalRequests.Execute` | src/main/java/org/apache/sling/servlethelpers/internalrequests/InternalRequest.java:217-254 | a second call throws "Request was already executed" and changes nothing; a first call always leaves the builder executed, holding the configuration it handed to the back end and the response the back end left, even when the back end throws; it returns normally iff the back end did, and otherwise throws the translated exception |
| `Protocol.ConfigurationReachesDelegate` | src/main/java/org/apache/sling/servlethelpers/internalrequests/InternalRequest.java:221-249 | after a new builder's method, selector, content type and one parameter are set, the request handed to the back end of the chosen strategy carries exactly those values (method upper-cased), the path, and no extension; the builder keeps the response that back end left |
| `Protocol.ExecuteIsSingleShot` | src/main/java/org/apache/sling/servlethelpers/internalrequests/InternalRequest.java:218-220 | whatever the first back end did, a second `execute` with any back end throws "already executed" and leaves the state unchanged |
| `Protocol.ServletFailureExample` | src/main/java/org/apache/sling/servlethelpers/internalrequests/InternalRequest.java:245-252 | a servlet failure surfaces as a wrapping `IOException`, and the builder is still executed with the response status the back end left |
| `InternalRequests.AssertRequestExecuted` | src/main/java/org/apache/sling/servlethelpers/internalrequests/InternalRequest.java:259-263 | returns normally iff `execute` has begun, otherwise throws `IOException("Request hasn't been executed")` |
| `Protocol.AccessorsRequireExecution` | src/main/java/org/apache/sling/servlethelpers/internalrequests/InternalRequest.java:259-337 | before `execute`, `checkStatus`, `checkResponseContentType`, `getStatus`, `getResponse` and `getResponseAsString` all throw "Request hasn't been executed" and leave the builder unchanged |
| `InternalRequests.FindFirst` | src/main/java/org/apache/sling/servlethelpers/internalrequests/InternalRequest.java:280 | finds nothing iff the status is not among the accepted values; otherwise yields the first index holding it |
| `InternalRequests.CommaList` | src/main/java/org/apache/sling/servlethelpers/internalrequests/InternalRequest.java:282-283 | the comma fold over the accepted values equals their reference ","-join (no rendering is empty, so nothing is dropped) |
| `InternalRequests.CheckStatus` | src/main/java/org/apache/sling/servlethelpers/internalrequests/InternalRequest.java:271-287 | after execution it always sets the explicit-check flag and changes nothing else; it returns normally iff the values are null or empty or contain the actual status; on failure the message is the fixed prefix, the actual status, ", expected one of '", the ","-joined values and "'" |
| `Protocol.StatusListRoundTrip` | src/main/java/org/apache/sling/servlethelpers/internalrequests/InternalRequest.java:282-284 | splitting the accepted list in the message at commas and parsing each piece gives back exactly the accepted values |
| `Lang.IntToStringRoundTrip` | src/main/java/org/apache/sling/servlethelpers/internalrequests/InternalRequest.java:284 | the decimal rendering of an `int` in the message parses back to that `int` |
| `Protocol.UnexpectedStatusNamesBoth` | src/main/java/org/apache/sling/servlethelpers/internalrequests/InternalRequest.java:284 | the unexpected-status message has its actual status at a known position, and that piece parses back to the status; the accepted list follows at a known position |
| `Joins.SplitJoin` | src/main/java/org/apache/sling/servlethelpers/internalrequests/InternalRequest.java:283 | splitting a non-empty join at a separator character that no item contains gives back the items |
| `InternalRequests.MaybeCheckOkStatus` | src/main/java/org/apache/sling/servlethelpers/internalrequests/InternalRequest.java:290-298 | with the flag set it does nothing; without it, it returns normally iff the status is 200, otherwise throws the unexpected-status `IOException` naming the status and '200', and leaves the builder unchanged, so the flag stays false after a pass or a failure |
| `Protocol.ImplicitCheckRepeats` | src/main/java/org/apache/sling/servlethelpers/internalrequests/InternalRequest.java:289-298 | without an explicit check, either read of the response fails iff the status is not 200, the flag stays false, and a second read behaves exactly like the first |
| `Protocol.ExplicitCheckDisablesImplicit` | src/main/java/org/apache/sling/servlethelpers/internalrequests/InternalRequest.java:271-298 | after any `checkStatus` on an executed builder, with no values, matching values or non-matching ones, both response reads return whatever the status |
| `InternalRequests.CheckResponseContentType` | src/main/java/org/apache/sling/servlethelpers/internalrequests/InternalRequest.java:305-311 | after execution, a null expectation throws `NullPointerException`; otherwise it returns normally iff the response content type equals the expected one, and the failure message names the expected and the actual value ("null" when absent); it returns no new state, so the flag is untouched |
| `Protocol.ContentTypeCheckAfterExecute` | src/main/java/org/apache/sling/servlethelpers/internalrequests/InternalRequest.java:305-311 | after `execute`, the content-type check passes iff the expectation is non-null and equals the content type the back end left; a null expectation throws `NullPointerException` even when the response has none; the explicit-check flag does not affect it |
| `InternalRequests.GetStatus` | src/main/java/org/apache/sling/servlethelpers/internalrequests/InternalRequest.java:316-319 | returns the status the back end left iff executed, and throws "not executed" otherwise |
| `InternalRequests.GetResponse` | src/main/java/org/apache/sling/servlethelpers/internalrequests/InternalRequest.java:324-328 | never changes the builder; after execution it returns the response iff the status was checked explicitly or is 200, and otherwise throws the unexpected-status `IOException` naming the status and '200' |
| `InternalRequests.GetResponseAsString` | src/main/java/org/apache/sling/servlethelpers/internalrequests/InternalRequest.java:333-337 | never changes the builder; after execution it returns the response text iff the status was checked explicitly or is 200, and otherwise throws the unexpected-status `IOException` naming the status and '200' |
| `Protocol.SettersKeepExecutionState` | src/main/java/org/apache/sling/servlethelpers/internalrequests/InternalRequest.java:137-188 | the method, content-type, body, resource-type, super-type and extension setters never change the kept exchange or the explicit-check flag, and so not what later checks and reads use, even after `execute` |
| `Protocol.SelectorAndParameterSettersKeepExecutionState` | src/main/java/org/apache/sling/servlethelpers/internalrequests/InternalRequest.java:172-206 | the selector and parameter setters never change the executed exchange or the explicit-check flag |
| `Protocol.SelectorExamplePrint` | src/main/java/org/apache/sling/servlethelpers/internalrequests/InternalRequest.java:172-180 | selectors "print", "a4" give "print.a4" |
| `Protocol.SelectorExampleEmpty` | src/main/java/org/apache/sling/servlethelpers/internalrequests/InternalRequest.java:176-178 | an empty selector array gives "" (not null) |
| `Protocol.SelectorExampleLeadingEmpty` | src/main/java/org/apache/sling/servlethelpers/internalrequests/InternalRequest.java:177 | selectors "", "a" give "a" |
| `Protocol.SelectorExampleTrailingEmpty` | src/main/java/org/apache/sling/servlethelpers/internalrequests/InternalRequest.java:177 | selectors "a", "" give "a." |
| `Protocol.SelectorExampleNull` | src/main/java/org/apache/sling/servlethelpers/internalrequests/InternalRequest.java:177 | a null selector followed by "a" gives "null.a" |
| `Protocol.RequestMethodExamples` | src/main/java/org/apache/sling/servlethelpers/internalrequests/InternalRequest.java:137-141 | on a new builder of either strategy, "post" is stored as "POST" and a null method throws `NullPointerException` |
| `Protocol.NullParameterExamples` | src/main/java/org/apache/sling/servlethelpers/internalrequests/InternalRequest.java:191-198 | a null key, or a null value, throws `IllegalArgumentException` |
| `Protocol.StatusExampleOk` | src/main/java/org/apache/sling/servlethelpers/internalrequests/InternalRequest.java:324-337 | with status 200 and no explicit check, both reads return |
| `Protocol.StatusExampleNotFound` | src/main/java/org/apache/sling/servlethelpers/internalrequests/InternalRequest.java:271-298 | with status 404, `getResponse` without a check throws the unexpected-status `IOException` for 404 against 200, while `checkStatus(200, 404)` returns |
| `Protocol.StatusExampleServerError` | src/main/java/org/apache/sling/servlethelpers/internalrequests/InternalRequest.java:279-285 | `checkStatus(200)` against 500 throws "Unexpected response status 500, expected one of '200'" |

## Left out

- The back ends are one uninterpreted function parameter: `SlingInternalRequest.delegateExecute`, which calls `SlingRequestProcessor.processRequest`, and the `delegateExecute` of `ServletInternalRequest`, the servlet-resolver back end. Both are the same uninterpreted function; the source of `ServletInternalRequest` is not part of this model.
- The mock request and response classes are foreign library code: `MockSlingHttpServletRequest`, `MockRequestPathInfo`, `MockResource` and `MockSlingHttpServletResponse`. The request handed to the back end is the configuration itself, and the response is its status, content type and text.
- Exceptions thrown while the request is being built are not modelled (lines 221-245). The model treats the builder as executed from the assignment of `request`, with a response. In Java the outcome depends on where the failure happens:
  - If the anonymous `MockSlingHttpServletRequest` constructor throws (line 221), `request` is never assigned. The builder stays unexecuted, so a later accessor throws "Request hasn't been executed" and `execute` may be called again.
  - If `setMethod`, `setContentType`, `setResource` (with the `MockResource` constructor) or `setParameterMap` throws, or the `MockSlingHttpServletResponse` constructor does (lines 240-245), `request` is already non-null while `response` is still null. A later `getStatus` then throws `NullPointerException` (line 318).
- The body `Reader` and its `BufferedReader` wrapping are left out. The body is modelled as the text the reader would yield.
- The executed request reads the body lazily: its `getReader` consults the builder's `bodyReader` field on every call (lines 232-237). So a `withBody` after `execute` changes what a later read of that request yields, and `withBody(null)` makes it fall back to the mock's own reader. The model takes the body as it is at `execute`. The builder's own checks and reads never read the body.
- The `ResourceResolver` is only passed through, so it is not modelled.
- Logging is left out because it has no effect on the builder's behaviour: the slf4j `Logger` and `MDC.put` of the request info. In the code the MDC key is never removed.
- `toString` and `getRequestInfo` are diagnostic formatting with `String.format`, so they are left out.
- `GetResponse`: Java returns the live mock response object (line 327). A caller that changes it, for example with `setStatus` or `setContentType`, changes what later `getStatus`, `checkStatus`, `getResponse`, `getResponseAsString` and `checkResponseContentType` read. The model returns an immutable value. The protocol lemmas, `Protocol.ImplicitCheckRepeats` among them, assume the caller does not change the response.
- `WithRequestMethod`: upper-cases ASCII letters only, because Java's `toUpperCase` is Unicode- and locale-dependent.
- Parameter values are arbitrary Java objects, modelled as an opaque type parameter.
- Statuses are unbounded integers rather than 32-bit `int`s. The builder does no arithmetic on them, so no wrap-around can arise.
- The path is a plain string. The constructor stores whatever it receives without checking it, and what a null path does inside the mock request is library behaviour.
- Thread-safety is not modelled: the builder is not meant for concurrent use.
