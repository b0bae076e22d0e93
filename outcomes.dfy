/**
 * The values the filters pass around: redirect responses, the decision a
 * filter stores in the cache (PHP false, true or a RedirectResponse), cache
 * entries with their timeout, and what handle hands back to the framework.
 */
module Outcomes {
  /** What redirector->route(name) builds: a redirect to the named route. */
  datatype Response = RedirectResponse(route: string)

  /** A decision as stored and tested: PHP false, PHP true, or a redirect response. */
  datatype Decision = False | True | Redirect(response: Response)

  /** PHP truthiness of a decision: only false is falsy (an object is truthy). */
  predicate Truthy(d: Decision) {
    d != False
  }

  /** A cache entry: the stored value and the timeout it was put with (opaque, never expires here). */
  datatype Entry<T> = Entry(value: T, timeout: nat)

  /** What handle returns: $next($request), or a value returned in its place. */
  datatype Outcome = Next | Respond(value: Decision)

  /** `if ($redirect) return $redirect; return $next($request);` */
  function Answer(d: Decision): (o: Outcome)
    ensures o.Respond? <==> Truthy(d)
    ensures o.Respond? ==> o.value == d
  {
    if Truthy(d) then Respond(d) else Next
  }
}
