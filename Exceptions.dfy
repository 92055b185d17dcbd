/**
 * `ExceptionExtensions`: walking an exception's chain of inner exceptions. An exception is a
 * value holding its message and its (possibly null) inner exception; being a finite value,
 * every chain ends.
 */
module Exceptions {
  import opened Wrappers

  datatype Exception = Exception(message: string, innerException: Option<Exception>)

  /** Each element of `route` but the last has the next one as its inner exception. */
  predicate Linked(route: seq<Exception>) {
    forall k :: 0 <= k < |route| - 1 ==> route[k].innerException == Some(route[k + 1])
  }

  /** `exception` followed by its inner exception, that one's inner exception, and so on. */
  function Chain(exception: Exception): (chain: seq<Exception>)
    ensures |chain| >= 1 && chain[0] == exception
    decreases exception
  {
    match exception.innerException
    case None => [exception]
    case Some(inner) => [exception] + Chain(inner)
  }

  /**
   * The chain steps from each exception to its inner exception and stops at the first one
   * without an inner exception.
   */
  lemma {:induction false} ChainShape(exception: Exception)
    ensures Linked(Chain(exception))
    ensures Last(Chain(exception)).innerException.None?
    decreases exception
  {
    if exception.innerException.Some? {
      var rest := Chain(exception.innerException.value);
      ChainShape(exception.innerException.value);
      assert forall k :: 1 <= k < |rest| + 1 ==> ([exception] + rest)[k] == rest[k - 1];
    }
  }

  /**
   * The chain is the only sequence that starts at `exception`, steps from each element to its
   * inner exception, and stops at the first exception without one.
   */
  lemma {:induction false} ChainIsUnique(exception: Exception, route: seq<Exception>)
    requires |route| >= 1 && route[0] == exception
    requires Linked(route)
    requires route[|route| - 1].innerException.None?
    ensures route == Chain(exception)
    decreases |route|
  {
    if |route| > 1 {
      var inner := route[1];
      assert exception.innerException == Some(inner);
      assert Linked(route[1..]) by {
        assert forall k :: 0 <= k < |route[1..]| ==> route[1..][k] == route[k + 1];
      }
      ChainIsUnique(inner, route[1..]);
      assert route == [exception] + route[1..];
    }
  }

  /** Wrapping an exception puts the wrapper in front of its chain. */
  lemma ChainOfWrapper(message: string, inner: Exception)
    ensures Chain(Exception(message, Some(inner))) == [Exception(message, Some(inner))] + Chain(inner)
    ensures Last(Chain(Exception(message, Some(inner)))) == Last(Chain(inner))
  {
  }

  function Last<T>(s: seq<T>): T
    requires s != []
  {
    s[|s| - 1]
  }

  /** `exception.RouteExceptions()`: the do-while that adds each exception and steps inward. */
  method RouteExceptions(exception: Exception) returns (route: seq<Exception>)
    ensures route == Chain(exception)
  {
    route := [];
    var innerException := exception;
    while true
      invariant route + Chain(innerException) == Chain(exception)
      decreases innerException
    {
      var next := innerException.innerException;
      ghost var before := route;
      route := route + [innerException];
      if next.None? {
        assert Chain(innerException) == [innerException];
        return;
      }
      assert Chain(innerException) == [innerException] + Chain(next.value);
      assert route + Chain(next.value) == before + Chain(innerException);
      innerException := next.value;
    }
  }

  /** `exception.InnerMessage()`: the message of the innermost exception. */
  method InnerMessage(exception: Exception) returns (message: string)
    ensures message == Last(Chain(exception)).message
  {
    var innerException := exception;
    while innerException.innerException.Some?
      invariant Last(Chain(innerException)) == Last(Chain(exception))
      decreases innerException
    {
      innerException := innerException.innerException.value;
    }
    return innerException.message;
  }
}
