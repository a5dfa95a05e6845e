/** The first finite-state machine: states are components of a holder
    object, looked up by their component type. The machine keeps the list of
    available states, the running state and a flag that is set while a
    transition runs. `OnEnter`/`OnExit` are recorded in `hooks`. */
module StateMachineV1 {
  import opened Seqs
  import opened Components

  /** A state component: Unity's `enabled` flag and the owning machine,
      which can be set only once. */
  class State {
    var enabled: bool
    var machine: StateMachine?

    /** `AddComponent<T>()`: a new component is enabled and has no owner. */
    constructor ()
      ensures enabled && machine == null
    {
      enabled := true;
      machine := null;
    }

    /** The `stateMachine` setter: it takes effect only while there is no
        owner yet. */
    method SetStateMachine(m: StateMachine)
      modifies this`machine
      ensures machine == if old(machine) == null then m else old(machine)
    {
      if machine == null {
        machine := m;
      }
    }
  }

  /** The `OnExit` call a transition makes on the state it leaves, if any;
      this machine raises its flag before the call. */
  function ExitHook(leaving: State?): (hooks: seq<Hook<State>>) {
    if leaving == null then [] else [OnExit(leaving, true)]
  }

  class StateMachine {
    /** The list of available states. */
    var states: seq<State>
    /** Whether `statesHolder` refers to an object at all. */
    var hasHolder: bool
    /** The holder's components, by component type. */
    var holder: map<StateType, State>
    var currentState: State?
    var inTransition: bool
    /** The lifecycle callbacks run so far, oldest first. */
    var hooks: seq<Hook<State>>

    /** Without a holder there are no components, and the running state is
        always one of the holder's components. */
    ghost predicate Valid()
      reads this
    {
      && (!hasHolder ==> holder == map[])
      && (currentState != null ==> currentState in holder.Values)
    }

    /** The holder's component of type `k`, as a frame. */
    function Slot(k: StateType): (frame: set<State>)
      reads this
    {
      if k in holder then {holder[k]} else {}
    }

    /** A request for `k` with `addState` creates a new component. */
    ghost predicate Inserts(k: StateType, addState: bool)
      reads this
    {
      addState && hasHolder && k !in holder
    }

    /** A machine before `Awake`: no holder and no states. */
    constructor Unawakened()
      ensures Valid() && !hasHolder && holder == map[] && states == []
      ensures currentState == null && !inTransition && hooks == []
    {
      states, hasHolder, holder := [], false, map[];
      currentState, inTransition, hooks := null, false, [];
    }

    /** A machine after `Awake`: a holder with the given components and the
        list built from them. `BuildList` leaves the serialized running
        state alone, so the machine runs whatever `initial` the scene set,
        provided it is one of the holder's components. */
    constructor Awakened(components: map<StateType, State>, listed: seq<State>, initial: State?)
      requires initial == null || initial in components.Values
      ensures Valid() && hasHolder && holder == components && states == listed
      ensures currentState == initial && !inTransition && hooks == []
    {
      states, hasHolder, holder := listed, true, components;
      currentState, inTransition, hooks := initial, false, [];
    }

    /** Add a state of type `k`: nothing without a holder, the existing
        component if there is one, otherwise a new enabled component owned
        by this machine, put in the holder and at the end of the list. */
    method AddState(k: StateType) returns (s: State?)
      requires Valid()
      modifies this
      ensures Valid()
      ensures !old(hasHolder) ==> s == null && unchanged(this)
      ensures old(hasHolder) && k in old(holder) ==> s == old(holder[k]) && unchanged(this)
      ensures old(hasHolder) && k !in old(holder) ==>
        && s != null && fresh(s) && s.enabled && s.machine == this
        && holder == old(holder)[k := s] && states == old(states) + [s]
        && hasHolder && currentState == old(currentState)
        && inTransition == old(inTransition) && hooks == old(hooks)
    {
      if !hasHolder {
        return null;
      }
      if k in holder {
        return holder[k];
      }
      var c := new State();
      ghost var was := holder;
      holder := holder[k := c];
      if currentState != null {
        ghost var j :| j in was && was[j] == currentState;
        assert holder[j] == currentState;
      }
      c.SetStateMachine(this);
      states := states + [c];
      s := c;
    }

    /** Remove and destroy the state of type `k`. Refused without a holder,
        during a transition, for a missing state and for the running one. */
    method RemoveState(k: StateType) returns (removed: bool)
      requires Valid()
      modifies this
      ensures Valid()
      ensures removed <==>
        old(hasHolder) && !old(inTransition) && k in old(holder) && old(holder[k]) != old(currentState)
      ensures !removed ==> unchanged(this)
      ensures removed ==>
        && holder == old(holder) - {k} && states == RemoveFirst(old(states), old(holder[k]))
        && hasHolder && currentState == old(currentState)
        && inTransition == old(inTransition) && hooks == old(hooks)
    {
      if !hasHolder || inTransition {
        return false;
      }
      if k !in holder || holder[k] == currentState {
        return false;
      }
      var s := holder[k];
      if s in states {
        states := RemoveFirst(states, s);
      }
      ghost var was := holder;
      holder := holder - {k};
      if currentState != null {
        ghost var j :| j in was && was[j] == currentState;
        assert holder[j] == currentState;
      }
      removed := true;
    }

    /** Look up the state of type `k`. Disabled states count only when
        `includeDisabled` holds; asking for an enabled state the holder
        does not have dereferences null. */
    method HasState(k: StateType, includeDisabled: bool) returns (r: Lookup<State>)
      ensures !hasHolder ==> r == NotFound
      ensures hasHolder && k !in holder ==>
        r == if includeDisabled then NotFound else NullDereference
      ensures hasHolder && k in holder ==>
        r == if includeDisabled || holder[k].enabled then Found(holder[k]) else NotFound
    {
      if !hasHolder {
        return NotFound;
      }
      if !includeDisabled {
        if k !in holder {
          return NullDereference;
        }
        if !holder[k].enabled {
          return NotFound;
        }
      }
      r := if k in holder then Found(holder[k]) else NotFound;
    }

    /** Change to the state of type `k`, fetched with `AddState` when
        `addState` holds and with `HasState(setEnabled)` otherwise. The
        request is ignored when there is no such state, it is already
        running or a transition is under way; `AddState` has then still
        run. With `setEnabled` the target is appended
        to the list unless already listed, and enabled.
        The transition runs `OnExit` on the old state and then `OnEnter` on
        the new one, both with the flag raised, and lowers it at the end. */
    method ChangeState(k: StateType, addState: bool, setEnabled: bool) returns (outcome: Change)
      requires Valid()
      modifies this, Slot(k)`enabled
      ensures Valid()
      ensures hasHolder == old(hasHolder)
      ensures !old(Inserts(k, addState)) ==> holder == old(holder)
      ensures old(Inserts(k, addState)) ==>
        k in holder && fresh(holder[k]) && holder == old(holder)[k := holder[k]] &&
        holder[k].machine == this && holder[k].enabled
      ensures outcome == Faulted <==> !addState && !setEnabled && old(hasHolder) && k !in old(holder)
      ensures outcome == Entered <==>
        && old(hasHolder) && !old(inTransition)
        && if k in old(holder) then
             old(holder[k]) != old(currentState) && (addState || setEnabled || old(holder[k].enabled))
           else addState
      ensures outcome != Entered ==>
        && currentState == old(currentState) && inTransition == old(inTransition)
        && hooks == old(hooks)
        && states == (if old(Inserts(k, addState)) then old(states) + [holder[k]] else old(states))
        && (k in old(holder) ==> old(holder[k]).enabled == old(holder[k].enabled))
      ensures outcome == Entered ==>
        && k in holder && currentState == holder[k] && !inTransition
        && hooks == old(hooks) + ExitHook(old(currentState)) + [OnEnter(holder[k], true)]
        && states == (if old(Inserts(k, addState)) then old(states) + [holder[k]]
                      else if setEnabled && holder[k] !in old(states) then old(states) + [holder[k]]
                      else old(states))
        && holder[k].enabled == (if k in old(holder) then setEnabled || old(holder[k].enabled) else true)
    {
      var s: State? := null;
      if addState {
        s := AddState(k);
      } else {
        var found := HasState(k, setEnabled);
        match found {
          case NullDereference => return Faulted;
          case NotFound => s := null;
          case Found(c) => s := c;
        }
      }
      if s == null || s == currentState || inTransition {
        return Ignored;
      }
      if setEnabled {
        if s !in states {
          states := states + [s];
        }
        s.enabled := true;
      }
      inTransition := true;
      if currentState != null {
        hooks := hooks + [OnExit(currentState, inTransition)];
      }
      currentState := s;
      hooks := hooks + [OnEnter(currentState, inTransition)];
      inTransition := false;
      outcome := Entered;
    }

    /** Disable the state of type `k`: refused (null) unless the holder has
        it and it is listed; otherwise one occurrence leaves the list and
        the component is disabled. */
    method DisableState(k: StateType) returns (s: State?)
      requires Valid()
      modifies this, Slot(k)`enabled
      ensures Valid()
      ensures s != null <==> old(hasHolder) && k in old(holder) && old(holder[k]) in old(states)
      ensures s == null ==> unchanged(this) && unchanged(Slot(k))
      ensures s != null ==>
        && s == old(holder[k]) && !s.enabled && states == RemoveFirst(old(states), old(holder[k]))
        && hasHolder && holder == old(holder) && currentState == old(currentState)
        && inTransition == old(inTransition) && hooks == old(hooks)
    {
      var found := HasState(k, true);
      if !found.Found? {
        return null;
      }
      var c := found.state;
      if c !in states {
        return null;
      }
      states := RemoveFirst(states, c);
      c.enabled := false;
      s := c;
    }

    /** Enable the state of type `k`, as written: refused (null) unless the
        holder has it and it is ALREADY listed; then it is listed once more
        and enabled. */
    method EnableState(k: StateType) returns (s: State?)
      requires Valid()
      modifies this, Slot(k)`enabled
      ensures Valid()
      ensures s != null <==> old(hasHolder) && k in old(holder) && old(holder[k]) in old(states)
      ensures s == null ==> unchanged(this) && unchanged(Slot(k))
      ensures s != null ==>
        && s == old(holder[k]) && s.enabled && states == old(states) + [s]
        && hasHolder && holder == old(holder) && currentState == old(currentState)
        && inTransition == old(inTransition) && hooks == old(hooks)
    {
      var found := HasState(k, true);
      if !found.Found? {
        return null;
      }
      var c := found.state;
      if c !in states {
        return null;
      }
      states := states + [c];
      c.enabled := true;
      s := c;
    }

    /** Enable the state of type `k` as its documentation describes: any
        state the holder has is enabled and put in the list unless it is
        there already. */
    method EnableStateIntended(k: StateType) returns (s: State?)
      requires Valid()
      modifies this, Slot(k)`enabled
      ensures Valid()
      ensures s != null <==> old(hasHolder) && k in old(holder)
      ensures s == null ==> unchanged(this)
      ensures s != null ==>
        && s == old(holder[k]) && s.enabled
        && states == (if s in old(states) then old(states) else old(states) + [s])
        && hasHolder && holder == old(holder) && currentState == old(currentState)
        && inTransition == old(inTransition) && hooks == old(hooks)
    {
      var found := HasState(k, true);
      if !found.Found? {
        return null;
      }
      var c := found.state;
      if c !in states {
        states := states + [c];
      }
      c.enabled := true;
      s := c;
    }
  }

  /** As written, disabling a state listed once and then enabling it fails:
      `EnableState` answers null and the state stays disabled and unlisted. */
  method DisableThenEnable(m: StateMachine, k: StateType) returns (enabled: State?)
    requires m.Valid() && m.hasHolder && k in m.holder
    requires multiset(m.states)[m.holder[k]] == 1
    modifies m, m.Slot(k)`enabled
    ensures enabled == null
    ensures !old(m.holder[k]).enabled && old(m.holder[k]) !in m.states
    ensures old(m.holder[k]).machine == old(m.holder[k].machine)
  {
    ghost var s := m.holder[k];
    var disabled := m.DisableState(k);
    assert multiset(m.states)[s] == 0;
    enabled := m.EnableState(k);
  }

  /** With the intended `EnableState`, disabling a state listed once and
      then enabling it gives back the same list contents, and the state
      ends enabled. */
  method DisableThenEnableIntended(m: StateMachine, k: StateType) returns (enabled: State?)
    requires m.Valid() && m.hasHolder && k in m.holder
    requires multiset(m.states)[m.holder[k]] == 1
    modifies m, m.Slot(k)`enabled
    ensures enabled == old(m.holder[k]) && enabled.enabled
    ensures enabled.machine == old(m.holder[k].machine)
    ensures multiset(m.states) == multiset(old(m.states))
  {
    ghost var s := m.holder[k];
    var disabled := m.DisableState(k);
    assert multiset(m.states)[s] == 0;
    enabled := m.EnableStateIntended(k);
    RemoveThenAppendSameElements(old(m.states), s);
  }
}
