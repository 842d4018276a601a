/** Option, the Ruby exceptions the library raises, and the results that carry them. */
module Basics {

  /** Ruby's `nil` or a value. */
  datatype Option<T> = None | Some(value: T) {
    /** `x || default`, as the library writes `cal.title || ""`. */
    function GetOr(default: T): T {
      match this
      case Some(v) => v
      case None => default
    }
  }

  /** The exceptions a call can end in: the library's own error classes and the
      Ruby runtime errors its code runs into (a method called on nil, a string
      concatenated with nil, a timestamp that does not parse). */
  datatype Error =
    | RecurrenceValueError(message: string)
    | InvalidService
    | AuthenticationFailed
    | NotAuthenticated
    | EventSaveFailed
    | CalendarSaveFailed
    | NoMethodError(name: string)
    | TypeError(message: string)
    | ArgumentError(message: string)
    | RuntimeError(message: string)

  /** A call that returns a value or raises. */
  datatype Result<T> = Ok(value: T) | Raised(error: Error)

  /** A call that returns nothing of interest (a Ruby setter) or raises. */
  datatype Outcome = Pass | Fail(error: Error)

  /** The state an update loop reached, and the exception that stopped it, if any:
      Ruby keeps every assignment made before a `raise`. */
  datatype Partial<T> = Partial(value: T, error: Option<Error>)

  /** A Ruby `each` whose body updates the state one item at a time: the first
      item that raises ends the walk, keeping what was assigned before it. */
  function Walk<T, E>(step: (T, E) -> Partial<T>, g: T, es: seq<E>): Partial<T>
    decreases |es|
  {
    if es == [] then Partial(g, None) else
    var p := Walk(step, g, es[..|es| - 1]);
    if p.error.Some? then p else step(p.value, es[|es| - 1])
  }

  /** Once an item has raised, the items after it change nothing. */
  lemma {:induction false} WalkStops<T, E>(step: (T, E) -> Partial<T>, g: T, es: seq<E>, n: nat)
    requires n <= |es| && Walk(step, g, es[..n]).error.Some?
    ensures Walk(step, g, es) == Walk(step, g, es[..n])
    decreases |es|
  {
    if n < |es| {
      var init := es[..|es| - 1];
      assert init[..n] == es[..n];
      WalkStops(step, g, init, n);
    } else {
      assert es[..n] == es;
    }
  }

  /** The `scope` argument of the finders: `:all`, `:first`, or any other symbol. */
  datatype Scope = AllScope | FirstScope | OtherScope(name: string)
}
