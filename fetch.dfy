/**
 * The list pages (tasks, activities, users) all follow one rule when a request for the list
 * settles: what the request yields replaces the list, a failure leaves the last list in place.
 */
module Fetch {

  /** How a list request settles. `Failed` covers a rejected `fetch` and a body that is not JSON. */
  datatype Outcome<T> = Loaded(data: T) | Failed

  /** The list after one request has settled. */
  function Apply<T>(current: T, outcome: Outcome<T>): T
  {
    match outcome
    case Loaded(data) => data
    case Failed => current
  }

  /**
   * A parsed JSON body: the list a page expects, or any other JSON value, such as the error
   * object a server sends with a 401 or a 500.
   */
  datatype Body<T> = List(items: seq<T>) | NotAList

  /**
   * A response to a request whose status the page does not look at: its `ok` flag and its parsed
   * body, or `Thrown` when the request was rejected or the body was not JSON.
   */
  datatype Response<T> = Response(ok: bool, body: Body<T>) | Thrown

  /** `const data = await response.json(); setX(data)` with no status check. */
  function Received<T>(response: Response<T>): Outcome<Body<T>>
  {
    match response
    case Response(_, body) => Loaded(body)
    case Thrown => Failed
  }

  /**
   * With the status unchecked, whatever body a response carries, list or not, ok or not, becomes
   * the page's value; only a throw keeps the old one.
   */
  lemma UncheckedStoresAnyBody<T>(current: Body<T>, ok: bool, body: Body<T>)
    ensures Apply(current, Received(Response(ok, body))) == body
    ensures Apply(current, Received(Response(true, body))) == Apply(current, Received(Response(false, body)))
    ensures Apply(current, Received(Thrown)) == current
  {
  }

  /** The list after several requests have settled, in the order given. */
  function ApplyAll<T>(current: T, outcomes: seq<Outcome<T>>): T
  {
    if outcomes == [] then current else ApplyAll(Apply(current, outcomes[0]), outcomes[1..])
  }

  /** The data of the last successful outcome, or `initial` when none succeeded. */
  function LastKnownGood<T>(initial: T, outcomes: seq<Outcome<T>>): T
  {
    if outcomes == [] then initial
    else
      var last := outcomes[|outcomes| - 1];
      if last.Loaded? then last.data else LastKnownGood(initial, outcomes[..|outcomes| - 1])
  }

  /**
   * Whatever mix of successes and failures has settled, the list shown is the data of the
   * most recent success, and the initial list only while nothing has succeeded.
   */
  lemma {:induction false} ShownListIsLastKnownGood<T>(initial: T, outcomes: seq<Outcome<T>>)
    ensures ApplyAll(initial, outcomes) == LastKnownGood(initial, outcomes)
  {
    if outcomes != [] {
      var front := outcomes[..|outcomes| - 1];
      var last := outcomes[|outcomes| - 1];
      ApplyAllSnoc(initial, front, last);
      assert front + [last] == outcomes;
      ShownListIsLastKnownGood(initial, front);
    }
  }

  lemma {:induction false} ApplyAllSnoc<T>(current: T, front: seq<Outcome<T>>, last: Outcome<T>)
    ensures ApplyAll(current, front + [last]) == Apply(ApplyAll(current, front), last)
  {
    if front == [] {
      assert ([] + [last])[1..] == [];
    } else {
      assert (front + [last])[1..] == front[1..] + [last];
      ApplyAllSnoc(Apply(current, front[0]), front[1..], last);
    }
  }
}
