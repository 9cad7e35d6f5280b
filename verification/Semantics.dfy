/** What the evaluators of all intermediate languages have in common. */
module Semantics {
  import opened Sums

  /** Values without structure.  Numbers are abstract: only the world computes with them. */
  datatype Base = None_ | Boolean(boolean: bool) | Number(number: int) | String(text: string) | Error(code: int)

  datatype NumericOperator =
    | Add | Subtract | Multiply | Divide
    | Equal | LessThan | LessThanOrEqual | GreaterThan | GreaterThanOrEqual

  predicate IsComparison(operator: NumericOperator) {
    !(operator.Add? || operator.Subtract? || operator.Multiply? || operator.Divide?)
  }

  /** A call of a foreign function: the only effect. */
  datatype Event = Event(name: string, arguments: seq<Base>, result: Base)

  type Trace = seq<Event>

  /** What programs cannot know: arithmetic on numbers, and the responses of foreign functions. */
  datatype World = World(
    calculate: (NumericOperator, int, int) -> int,
    compare: (NumericOperator, int, int) -> bool,
    respond: (string, seq<Base>, Trace) -> Base
  )

  function Operate(w: World, operator: NumericOperator, a: int, b: int): Base {
    if IsComparison(operator) then Boolean(w.compare(operator, a, b)) else Number(w.calculate(operator, a, b))
  }

  /**
   The outcome of an evaluation.  `Return` is an early return from the enclosing function; `Stuck`
   is an operation on a value of a wrong kind; `Timeout` means that more calls are needed.
   */
  datatype Outcome<+V, +R> = Value(value: V, trace: Trace) | Return(returned: R, trace: Trace) | Stuck | Timeout

  /** An evaluation that did not give a value, as a part of another one. */
  function Fail<V, U, R>(o: Outcome<V, R>): Outcome<U, R>
    requires !o.Value?
  {
    match o
    case Return(v, trace) => Return(v, trace)
    case Stuck => Stuck
    case Timeout => Timeout
  }

  /** The end of a call ends early returns. */
  function EndCall<V>(o: Outcome<V, V>): Outcome<V, V> {
    match o
    case Return(v, trace) => Value(v, trace)
    case _ => o
  }

  /** Names that compilers generate are empty or start with a dollar sign. */
  predicate IsUserName(name: string) {
    name != "" && name[0] != '$'
  }

  function Generated(name: string): (r: string)
    ensures !IsUserName(r)
  {
    "$" + name
  }

  lemma GeneratedIsInjective(a: string, b: string)
    requires Generated(a) == Generated(b)
    ensures a == b
  {
    assert Generated(a)[1..] == a && Generated(b)[1..] == b;
  }
}
