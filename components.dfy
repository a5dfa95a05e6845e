/** What the two finite-state machines share: the record of the lifecycle
    callbacks they run, the answer of a state lookup and the outcome of a
    change request. */
module Components {

  /** The name of a state's component type, the key `GetComponent<T>` looks up. */
  type StateType = string

  /** One call of a state's `OnEnter` or `OnExit`, with the value the
      machine's `inTransition` flag had while the callback ran. */
  datatype Hook<S> = OnEnter(state: S, inTransition: bool) | OnExit(state: S, inTransition: bool)

  /** The answer of `HasState<T>(includeDisabled)`: the component, null, or
      the null-reference exception raised when `includeDisabled` is false
      and the holder has no component of that type. */
  datatype Lookup<S> = Found(state: S) | NotFound | NullDereference

  /** How a change-state request ended: the machine entered the target, the
      request was ignored by a guard, or the lookup of the target threw. */
  datatype Change = Entered | Ignored | Faulted
}
