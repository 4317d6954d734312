/** Values held in script variables, the host collaborators the interpreter calls
    but does not define, and the "evaluate or pass through" wrapper around the
    expression evaluator. */
module Evaluator {
  import opened Common

  /** What a variable or an evaluated argument can hold: a number, a string, or
      some other object the evaluator produced (a function, a tuple, ...). */
  datatype Value = Num(x: real) | Str(s: string) | Obj

  /** Collaborators that are fixed for the whole run.
      - `eval` is Python's `eval` over the `math` names and the script variables;
        `None` stands for "it raised".
      - `acceptsFloat` says whether `float(text)` parses `text`.
      - `overflows` says whether `float(n)` of a number the evaluator produced
        overflows: an integer beyond the range of a double does.
      - `urlPath` is `urlparse(url).path`; `None` stands for "it raised".
      - `originalDir` is the working directory the interpreter was called from. */
  datatype Host = Host(
    eval: (string, map<string, Value>) -> Option<Value>,
    acceptsFloat: string -> bool,
    overflows: real -> bool,
    urlPath: string -> Option<string>,
    originalDir: string)

  /** `evaluate_expression`: the evaluator's value, or the expression text itself
      when evaluation raises; it never fails. */
  function Evaluate(h: Host, expr: string, vars: map<string, Value>): (v: Value)
    ensures h.eval(expr, vars).None? ==> v == Str(expr)
    ensures h.eval(expr, vars).Some? ==> v == h.eval(expr, vars).value
  {
    match h.eval(expr, vars)
    case Some(v) => v
    case None => Str(expr)
  }

  /** What `float(v)` raises, if anything: numbers convert unless they are too
      large for a double, text converts when it parses as a number, any other
      object is a type error. */
  function FloatFault(h: Host, v: Value): (e: Option<Exception>)
    ensures e.None? <==> (v.Num? && !h.overflows(v.x)) || (v.Str? && h.acceptsFloat(v.s))
    ensures e.Some? ==>
      e.value == (if v.Str? then ValueError else if v.Num? then OverflowError else TypeError)
  {
    match v
    case Num(x) => if h.overflows(x) then Some(OverflowError) else None
    case Str(t) => if h.acceptsFloat(t) then None else Some(ValueError)
    case Obj => Some(TypeError)
  }
}
