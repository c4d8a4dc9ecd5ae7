/**
 * The JavaScript values that reach the Choreographer's public methods, reduced
 * to what its argument checks can observe, and the normalisation rules those
 * checks implement.
 */
module Values {

  /**
   * A JavaScript argument. Numbers are integral milliseconds. `Other` stands
   * for null, booleans, strings and objects, and remembers only whether the
   * value is truthy: none of them has `typeof` equal to 'number' or 'function'.
   * A missing argument is `Undefined`.
   */
  datatype Value<F> =
    | Undefined
    | Number(n: int)
    | NaN
    | Function(f: F)
    | Other(truthy: bool)

  /** The step used when a caller gives none, in milliseconds. */
  const DefaultDuration: int := 300

  /** JavaScript truthiness: `!v` is false. */
  predicate Truthy<F>(v: Value<F>) {
    match v
    case Undefined => false
    case Number(n) => n != 0
    case NaN => false
    case Function(_) => true
    case Other(t) => t
  }

  /** `typeof v === 'number'`, which holds of NaN too. */
  predicate IsNumberType<F>(v: Value<F>) {
    v.Number? || v.NaN?
  }

  /** `typeof v === 'function'`. */
  predicate IsFunctionType<F>(v: Value<F>) {
    v.Function?
  }

  /** `v === 0`. */
  predicate IsZero<F>(v: Value<F>) {
    v.Number? && v.n == 0
  }

  /**
   * The constructor arguments the model covers: `duration || 300` would keep a
   * truthy non-number, which the model leaves out.
   */
  predicate ConstructorAccepts<F>(d: Value<F>) {
    !Truthy(d) || d.Number?
  }

  /** The default step chosen by the constructor, `duration || 300`. */
  function ConstructorDuration<F>(d: Value<F>): (r: int)
    requires ConstructorAccepts(d)
    ensures d.Number? && d.n != 0 ==> r == d.n
    ensures !(d.Number? && d.n != 0) ==> r == DefaultDuration
  {
    if Truthy(d) then d.n else DefaultDuration
  }

  /** The throw guard of `add`: `!fn || typeof fn !== 'function'`. */
  function AddRejects<F>(fn: Value<F>): (r: bool)
    ensures r <==> !fn.Function?
  {
    !Truthy(fn) || !IsFunctionType(fn)
  }

  /**
   * The step `add` advances the cursor by: the fallback replaces the argument
   * when `(!duration || typeof duration !== 'number') && duration !== 0`.
   */
  function AddStep<F>(fallback: int, d: Value<F>): (r: int)
    ensures d.Number? ==> r == d.n
    ensures !d.Number? ==> r == fallback
  {
    if (!Truthy(d) || !IsNumberType(d)) && !IsZero(d) then fallback else d.n
  }

  /**
   * The step `pause` advances the cursor by: the fallback replaces the
   * argument when `!duration || typeof duration !== 'number'`, so 0 counts as
   * missing here.
   */
  function PauseStep<F>(fallback: int, d: Value<F>): (r: int)
    ensures d.Number? && d.n != 0 ==> r == d.n
    ensures !(d.Number? && d.n != 0) ==> r == fallback
  {
    if !Truthy(d) || !IsNumberType(d) then fallback else d.n
  }

  /** The two rules differ exactly on an explicit zero. */
  lemma AddAndPauseDifferOnlyAtZero<F>(fallback: int, d: Value<F>)
    ensures AddStep(fallback, d) != PauseStep(fallback, d) <==> IsZero(d) && fallback != 0
  {
  }
}
