/** The second finite-state machine. Like the first it keeps states as
    components of a storage object, the list of available states, the
    running state and a transition flag, now with private setters. It adds
    a transition with an interval: the coroutine runs `OnExit` and switches
    the running state at once, waits, then lowers the flag and runs
    `OnEnter`. The wait is left out; the two halves are the methods
    `ChangeStateIntervaled` and `FinishChangeInterval`. */
module StateMachineV2 {
  import opened Seqs
  import opened Components

  /** A state component: Unity's `enabled` flag and the owning machine,
      which can be set only once. */
  class AbstractState {
    var enabled: bool
    var stateMachine: AbstractStateMachine?

    /** `AddComponent<T>()`: a new component is enabled and has no owner. */
    constructor ()
      ensures enabled && stateMachine == null
    {
      enabled := true;
      stateMachine := null;
    }

    /** The `machine` setter: it takes effect only while there is no owner
        yet. */
    method SetMachine(m: AbstractStateMachine)
      modifies this`stateMachine
      ensures stateMachine == if old(stateMachine) == null then m else old(stateMachine)
    {
      if stateMachine == null {
        stateMachine := m;
      }
    }
  }

  /** The `OnExit` call a transition makes on the state it leaves, if any;
      the flag is raised before the call. */
  function ExitHook(leaving: AbstractState?): (hooks: seq<Hook<AbstractState>>) {
    if leaving == null then [] else [OnExit(leaving, true)]
  }

  /** The console messages of this machine. */
  datatype Message =
    | CantRemoveInTransition   // "Can't remove in transition"
    | StateNotFound            // "State not found"
    | CantRemoveCurrentState   // "Can't remove the current state running"

  /** A line `PrintConsole` writes: a warning or an error. */
  datatype Log = LogWarning(message: Message) | LogError(message: Message)

  class AbstractStateMachine {
    /** The list of available states. */
    var states: seq<AbstractState>
    /** The components of `stateStorage`, by component type. */
    var storage: map<StateType, AbstractState>
    var currentState: AbstractState?
    /** Raised for the whole of an intervaled transition, so it holds
        exactly while its coroutine waits to finish. */
    var inTransition: bool
    /** The lifecycle callbacks run so far, oldest first. */
    var hooks: seq<Hook<AbstractState>>
    /** The console lines this machine has printed, oldest first. */
    var console: seq<Log>

    /** The running state is one of the storage's components, and a pending
        transition has already switched to its target. */
    ghost predicate Valid()
      reads this`storage, this`currentState, this`inTransition
    {
      && (currentState != null ==> currentState in storage.Values)
      && (inTransition ==> currentState != null)
    }

    /** The storage's component of type `k`, as a frame. */
    function Slot(k: StateType): (frame: set<AbstractState>)
      reads this
    {
      if k in storage then {storage[k]} else {}
    }

    /** A state request for `k` with `addState` creates a new component. */
    ghost predicate Inserts(k: StateType, addState: bool)
      reads this
    {
      addState && k !in storage
    }

    /** The target a change request reaches past its guards, given how the
        target is fetched. */
    ghost predicate Admits(k: StateType, addState: bool, setEnabled: bool)
      reads this, Slot(k)
    {
      && !inTransition
      && if k in storage then
           storage[k] != currentState && (addState || setEnabled || storage[k].enabled)
         else addState
    }

    /** A machine after `Awake`: storage with the given components and the
        list built from them, nothing running. */
    constructor (components: map<StateType, AbstractState>, listed: seq<AbstractState>)
      ensures Valid() && storage == components && states == listed
      ensures currentState == null && !inTransition && hooks == [] && console == []
    {
      states, storage := listed, components;
      currentState, inTransition, hooks, console := null, false, [], [];
    }

    /** Add a state of type `k`: the existing component if there is one,
        otherwise a new enabled component owned by this machine, put in
        the storage and at the end of the list. */
    method AddState(k: StateType) returns (s: AbstractState)
      requires Valid()
      modifies this`storage, this`states
      ensures Valid()
      ensures k in old(storage) ==> s == old(storage[k]) && unchanged(this)
      ensures k !in old(storage) ==>
        && fresh(s) && s.enabled && s.stateMachine == this
        && storage == old(storage)[k := s] && states == old(states) + [s]
        && currentState == old(currentState) && inTransition == old(inTransition)
        && hooks == old(hooks)
    {
      if k in storage {
        return storage[k];
      }
      s := new AbstractState();
      ghost var was := storage;
      storage := storage[k := s];
      if currentState != null {
        ghost var j :| j in was && was[j] == currentState;
        assert storage[j] == currentState;
      }
      s.SetMachine(this);
      states := states + [s];
    }

    /** Remove and destroy the state of type `k`. Refused during a
        transition, for a missing state and for the running one. */
    method RemoveState(k: StateType) returns (removed: bool)
      requires Valid()
      modifies this`storage, this`states, this`console
      ensures Valid()
      ensures removed <==> !old(inTransition) && k in old(storage) && old(storage[k]) != old(currentState)
      ensures !removed ==>
        && storage == old(storage) && states == old(states)
        && console == old(console) + [if old(inTransition) then LogWarning(CantRemoveInTransition)
                                      else if k !in old(storage) then LogError(StateNotFound)
                                      else LogError(CantRemoveCurrentState)]
      ensures removed ==>
        && storage == old(storage) - {k} && states == RemoveFirst(old(states), old(storage[k]))
        && console == old(console)
    {
      if inTransition {
        console := console + [LogWarning(CantRemoveInTransition)];
        return false;
      }
      if k !in storage {
        console := console + [LogError(StateNotFound)];
        return false;
      }
      if storage[k] == currentState {
        console := console + [LogError(CantRemoveCurrentState)];
        return false;
      }
      var s := storage[k];
      if s in states {
        states := RemoveFirst(states, s);
      }
      ghost var was := storage;
      storage := storage - {k};
      if currentState != null {
        ghost var j :| j in was && was[j] == currentState;
        assert storage[j] == currentState;
      }
      removed := true;
    }

    /** Look up the state of type `k`. Disabled states count only when
        `includeDisabled` holds; asking for an enabled state the storage
        does not have dereferences null. */
    method HasState(k: StateType, includeDisabled: bool) returns (r: Lookup<AbstractState>)
      ensures k !in storage ==> r == if includeDisabled then NotFound else NullDereference
      ensures k in storage ==>
        r == if includeDisabled || storage[k].enabled then Found(storage[k]) else NotFound
    {
      if !includeDisabled {
        if k !in storage {
          return NullDereference;
        }
        if !storage[k].enabled {
          return NotFound;
        }
      }
      r := if k in storage then Found(storage[k]) else NotFound;
    }

    /** The part both change requests share: fetch the target with
        `AddState` when `addState` holds and with `HasState(setEnabled)`
        otherwise, then apply the guards (no target, already running, a
        transition under way). A target that passes is, with `setEnabled`,
        appended to the list unless already listed, and enabled. */
    method PrepareChange(k: StateType, addState: bool, setEnabled: bool) returns (outcome: Change, s: AbstractState?)
      requires Valid()
      modifies this`storage, this`states, Slot(k)`enabled
      ensures Valid()
      ensures currentState == old(currentState) && inTransition == old(inTransition)
      ensures hooks == old(hooks)
      ensures !old(Inserts(k, addState)) ==> storage == old(storage)
      ensures old(Inserts(k, addState)) ==>
        k in storage && fresh(storage[k]) && storage == old(storage)[k := storage[k]] &&
        storage[k].enabled && storage[k].stateMachine == this
      ensures outcome == Faulted <==> !addState && !setEnabled && k !in old(storage)
      ensures outcome == Entered <==> old(Admits(k, addState, setEnabled))
      ensures outcome == Entered ==> k in storage && s == storage[k]
      ensures outcome != Entered ==>
        && states == (if old(Inserts(k, addState)) then old(states) + [storage[k]] else old(states))
        && (k in old(storage) ==> old(storage[k]).enabled == old(storage[k].enabled))
      ensures outcome == Entered ==>
        && states == (if old(Inserts(k, addState)) then old(states) + [storage[k]]
                      else if setEnabled && storage[k] !in old(states) then old(states) + [storage[k]]
                      else old(states))
        && storage[k].enabled == (if k in old(storage) then setEnabled || old(storage[k].enabled) else true)
    {
      s := null;
      if addState {
        s := AddState(k);
      } else {
        var found := HasState(k, setEnabled);
        match found {
          case NullDereference => return Faulted, null;
          case NotFound => s := null;
          case Found(c) => s := c;
        }
      }
      if s == null || s == currentState || inTransition {
        return Ignored, s;
      }
      if setEnabled {
        if s !in states {
          states := states + [s];
        }
        s.enabled := true;
      }
      outcome := Entered;
    }

    /** Change to the state of type `k` at once. The flag is raised for
        `OnExit` of the old state and lowered again before `OnEnter` of the
        new one. */
    method ChangeStateImmediate(k: StateType, addState: bool, setEnabled: bool) returns (outcome: Change)
      requires Valid()
      modifies this`storage, this`states, this`currentState, this`inTransition, this`hooks, Slot(k)`enabled
      ensures Valid()
      ensures !old(Inserts(k, addState)) ==> storage == old(storage)
      ensures old(Inserts(k, addState)) ==>
        k in storage && fresh(storage[k]) && storage == old(storage)[k := storage[k]] &&
        storage[k].enabled && storage[k].stateMachine == this
      ensures outcome == Faulted <==> !addState && !setEnabled && k !in old(storage)
      ensures outcome == Entered <==> old(Admits(k, addState, setEnabled))
      ensures outcome != Entered ==>
        && currentState == old(currentState) && inTransition == old(inTransition)
        && hooks == old(hooks)
        && states == (if old(Inserts(k, addState)) then old(states) + [storage[k]] else old(states))
        && (k in old(storage) ==> old(storage[k]).enabled == old(storage[k].enabled))
      ensures outcome == Entered ==>
        && k in storage && currentState == storage[k] && !inTransition
        && hooks == old(hooks) + ExitHook(old(currentState)) + [OnEnter(storage[k], false)]
        && states == (if old(Inserts(k, addState)) then old(states) + [storage[k]]
                      else if setEnabled && storage[k] !in old(states) then old(states) + [storage[k]]
                      else old(states))
        && storage[k].enabled == (if k in old(storage) then setEnabled || old(storage[k].enabled) else true)
    {
      var s;
      outcome, s := PrepareChange(k, addState, setEnabled);
      if outcome != Entered {
        return;
      }
      inTransition := true;
      if currentState != null {
        hooks := hooks + [OnExit(currentState, inTransition)];
      }
      currentState := s;
      inTransition := false;
      hooks := hooks + [OnEnter(currentState, inTransition)];
    }

    /** Start a change to the state of type `k` with an interval: the same
        guards as the immediate change, then the coroutine's first half
        (`BeginChangeInterval`). The request leaves the machine in
        transition, already running the target, until
        `FinishChangeInterval`. */
    method ChangeStateIntervaled(k: StateType, addState: bool, setEnabled: bool) returns (outcome: Change)
      requires Valid()
      modifies this`storage, this`states, this`currentState, this`inTransition, this`hooks, Slot(k)`enabled
      ensures Valid()
      ensures !old(Inserts(k, addState)) ==> storage == old(storage)
      ensures old(Inserts(k, addState)) ==>
        k in storage && fresh(storage[k]) && storage == old(storage)[k := storage[k]] &&
        storage[k].enabled && storage[k].stateMachine == this
      ensures outcome == Faulted <==> !addState && !setEnabled && k !in old(storage)
      ensures outcome == Entered <==> old(Admits(k, addState, setEnabled))
      ensures outcome != Entered ==>
        && currentState == old(currentState) && inTransition == old(inTransition)
        && hooks == old(hooks)
        && states == (if old(Inserts(k, addState)) then old(states) + [storage[k]] else old(states))
        && (k in old(storage) ==> old(storage[k]).enabled == old(storage[k].enabled))
      ensures outcome == Entered ==>
        && k in storage && currentState == storage[k] && inTransition
        && hooks == old(hooks) + ExitHook(old(currentState))
        && states == (if old(Inserts(k, addState)) then old(states) + [storage[k]]
                      else if setEnabled && storage[k] !in old(states) then old(states) + [storage[k]]
                      else old(states))
        && storage[k].enabled == (if k in old(storage) then setEnabled || old(storage[k].enabled) else true)
    {
      var s;
      outcome, s := PrepareChange(k, addState, setEnabled);
      if outcome != Entered {
        return;
      }
      BeginChangeInterval(s);
    }

    /** The coroutine `ChangeInterval` up to its wait: raise the flag, run
        `OnExit` of the old state and switch to the next one. */
    method BeginChangeInterval(nextState: AbstractState)
      requires Valid() && nextState in storage.Values
      modifies this`inTransition, this`currentState, this`hooks
      ensures Valid()
      ensures inTransition && currentState == nextState
      ensures hooks == old(hooks) + ExitHook(old(currentState))
    {
      inTransition := true;
      if currentState != null {
        hooks := hooks + [OnExit(currentState, inTransition)];
      }
      currentState := nextState;
    }

    /** The coroutine `ChangeInterval` after its wait: lower the flag, then
        run `OnEnter` of the state switched to. */
    method FinishChangeInterval()
      requires Valid() && inTransition
      modifies this`inTransition, this`hooks
      ensures Valid()
      ensures !inTransition && currentState == old(currentState)
      ensures hooks == old(hooks) + [OnEnter(currentState, false)]
    {
      inTransition := false;
      if currentState != null {
        hooks := hooks + [OnEnter(currentState, inTransition)];
      }
    }

    /** Disable the state of type `k`: null if the storage lacks it;
        otherwise its first occurrence leaves the list (if it is listed at
        all) and the component is disabled. */
    method DisableState(k: StateType) returns (s: AbstractState?)
      requires Valid()
      modifies this`states, this`console, Slot(k)`enabled
      ensures unchanged(this`storage, this`currentState, this`inTransition)
      ensures Valid()
      ensures s != null <==> k in storage
      ensures s == null ==> states == old(states) && console == old(console) + [LogWarning(StateNotFound)]
      ensures s != null ==> console == old(console)
      ensures s != null ==>
        && s == storage[k] && !s.enabled && states == RemoveFirst(old(states), storage[k])
    {
      var found := HasState(k, true);
      if !found.Found? {
        console := console + [LogWarning(StateNotFound)];
        return null;
      }
      var c := found.state;
      states := RemoveFirst(states, c);
      c.enabled := false;
      s := c;
    }

    /** Enable the state of type `k`: null if the storage lacks it;
        otherwise it is appended to the list, even when already listed, and
        the component is enabled. */
    method EnableState(k: StateType) returns (s: AbstractState?)
      requires Valid()
      modifies this`states, this`console, Slot(k)`enabled
      ensures unchanged(this`storage, this`currentState, this`inTransition)
      ensures Valid()
      ensures s != null <==> k in storage
      ensures s == null ==> states == old(states) && console == old(console) + [LogWarning(StateNotFound)]
      ensures s != null ==> console == old(console)
      ensures s != null ==> s == storage[k] && s.enabled && states == old(states) + [s]
    {
      var found := HasState(k, true);
      if !found.Found? {
        console := console + [LogWarning(StateNotFound)];
        return null;
      }
      var c := found.state;
      states := states + [c];
      c.enabled := true;
      s := c;
    }
  }

  /** Disabling a listed state and enabling it again gives back the same
      list contents, moved to the end, and leaves the state enabled. */
  method DisableThenEnable(m: AbstractStateMachine, k: StateType) returns (s: AbstractState?)
    requires m.Valid() && k in m.storage && m.storage[k] in m.states
    modifies m`states, m`console, m.Slot(k)`enabled
    ensures s == m.storage[k] && s.enabled && s.stateMachine == old(m.storage[k].stateMachine)
    ensures multiset(m.states) == multiset(old(m.states)) && m.console == old(m.console)
  {
    ghost var c, owner, before := m.storage[k], m.storage[k].stateMachine, m.states;
    var d := m.DisableState(k);
    assert c.stateMachine == owner && m.states == RemoveFirst(before, c);
    s := m.EnableState(k);
    RemoveThenAppendSameElements(before, c);
  }

  /** While an intervaled transition waits, remove and change requests are
      refused; finishing it runs `OnEnter` of the target with the flag
      already lowered. */
  method IntervaledTransition(m: AbstractStateMachine, k: StateType, other: StateType)
    returns (removed: bool, changed: Change)
    requires m.Valid() && !m.inTransition
    requires k in m.storage && m.storage[k] != m.currentState
    modifies m, m.Slot(k)`enabled, m.Slot(other)`enabled
    ensures !removed && changed != Entered
    ensures !m.inTransition && m.currentState == old(m.storage[k])
    ensures m.currentState.stateMachine == old(m.storage[k].stateMachine)
    ensures m.console == old(m.console) + [LogWarning(CantRemoveInTransition)]
    ensures m.hooks == old(m.hooks) + ExitHook(old(m.currentState)) + [OnEnter(old(m.storage[k]), false)]
  {
    var begun := m.ChangeStateIntervaled(k, true, false);
    assert begun == Entered;
    removed := m.RemoveState(other);
    changed := m.ChangeStateImmediate(other, true, true);
    m.FinishChangeInterval();
  }
}
