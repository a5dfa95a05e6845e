# Event hub and finite-state machines of the Unity utility tools, in Dafny

This project models two small pieces of the Unity utility toolkit. It proves
what they promise.

**The publish/subscribe hub** (`EventHub`) maps event names to ordered lists
of observer reactions.
- `AddObserver` rejects null or empty names and null reactions. It ignores a
  reaction that is already subscribed. Otherwise it appends the reaction.
- `PostEvent` calls every observer of the event in subscription order.
- `RemoveObserver` removes a reaction. Through `RemoveHub` it also drops the
  event once its list is empty.

The model is the class `PubSub.EventHub`. Its field `observers` is a
`map<string, seq<R>>`. Reactions are opaque values compared by equality, and
`Nullable` stands for C#'s null. Console diagnostics become the returned
`Report`. The calls `PostEvent` makes become a returned trace of
`Invoke(reaction, arg)`. Each method's contract is tied to pure reference
functions (`Subscribed`, `Unsubscribed`, `Dispatch`). Lemmas prove four things
about those functions:
- the registry invariant holds: every name is non-empty and maps to a
  non-empty list with no duplicates;
- subscribing and then unsubscribing is a round trip;
- dispatch preserves list order;
- each listed reaction is called exactly once.

**The two finite-state machines** keep their states as components of a
holder object. `StateMachine` is v1 and `AbstractStateMachine` is v2. Each
machine has:
- an ordered list `states`;
- a running state `currentState`;
- a flag `inTransition`.

The operations are add, remove, look up, change state, disable and enable.
`StateMachineV1` and `StateMachineV2` model them as classes:
- Components are objects with an `enabled` flag and an owner that can be set
  only once.
- A component-type name (`StateType`) is the key of `GetComponent<T>`.
- `AddComponent` is a map insert and `Destroy` a map removal.
- `OnEnter` and `OnExit` are appended to `hooks`. Each hook records the value
  `inTransition` had when the callback ran.
- v2's console warnings and errors are appended to its `console` field.

v2's intervaled change is two methods. `ChangeStateIntervaled` runs the
guards and the coroutine up to its wait. `FinishChangeInterval` is the part
after the wait. No timer is modelled.

Some choices differ from the C# signatures:
- A lookup returns `Lookup`. Its `NullDereference` case stands for the
  null-reference exception that `HasState(includeDisabled: false)` raises
  when the state is absent.
- The change methods return a `Change` outcome (`Entered`, `Ignored` or
  `Faulted`), although the C# methods are `void`.

`ChangeState` with `addState` calls `AddState` before its guards
(StateMachine.cs:130-132). So a request refused because a transition is in
progress still adds a new state to the holder and to the list; the model
does the same.

## Model

| member | source | states |
|---|---|---|
| `Seqs.RemoveFirst` | UtilityTools/Assets/Pub_Sub/EventHub.cs:60 | `List.Remove`: the result's multiset is the input's minus one copy of the element. The list is unchanged when the element is absent, and one shorter when it is present. |
| `Seqs.RemoveFirstDropsFirstOccurrence` | UtilityTools/Assets/Pub_Sub/EventHub.cs:60 | `List.Remove` deletes the first occurrence: the result is the list before that position followed by the list after it, both in their order. |
| `Seqs.RemoveFirstOfAppended` | UtilityTools/Assets/Pub_Sub/EventHub.cs:60-62 | Removing an element that was just appended to a list without it gives back that list. |
| `Seqs.RemoveFirstKeepsNoDuplicates` | UtilityTools/Assets/Pub_Sub/EventHub.cs:57-60 | Removing from a duplicate-free list keeps it duplicate-free. No copy of the removed element is left. |
| `Seqs.RemoveThenAppendSameElements` | UtilityTools/Assets/FSM/Scripts/v2/AbstractStateMachine.cs:206-228 | Removing one occurrence of a listed element and appending it again keeps every element's multiplicity. |
| `PubSub.Subscribed` | UtilityTools/Assets/Pub_Sub/EventHub.cs:26-31 | The registry after a subscription: the name becomes a key, every other key keeps its list, and the name's list is its old list (empty if it had none) with the reaction at the end. |
| `PubSub.Unsubscribed` | UtilityTools/Assets/Pub_Sub/EventHub.cs:60-62 | The registry after an unsubscription: only the name's entry changes. It either loses one copy of the reaction and stays non-empty, or is dropped, which happens only when the reaction was all it held. |
| `PubSub.Dispatch` | UtilityTools/Assets/Pub_Sub/EventHub.cs:41-45 | The calls posting makes to an observer list: one call per observer. |
| `PubSub.DispatchInOrder` | UtilityTools/Assets/Pub_Sub/EventHub.cs:41-45 | Dispatch makes one call per observer, in list order: call `i` is observer `i` with the posted argument. |
| `PubSub.DispatchCallsOnce` | UtilityTools/Assets/Pub_Sub/EventHub.cs:41-45 | Over a duplicate-free list, a reaction is called exactly once if it is listed and never otherwise. |
| `PubSub.SubscribedWellFormed` | UtilityTools/Assets/Pub_Sub/EventHub.cs:26-31 | Appending an unlisted reaction under a non-empty name keeps the registry invariant. Every other event's list is unchanged. |
| `PubSub.UnsubscribedWellFormed` | UtilityTools/Assets/Pub_Sub/EventHub.cs:60-62 | Unsubscribing keeps the registry invariant: no name is left with an empty list, and no list gains a duplicate. |
| `PubSub.UnsubscribedDropsOnlyLast` | UtilityTools/Assets/Pub_Sub/EventHub.cs:60-62 | The event's entry is deleted exactly when the removed reaction was its only observer. |
| `PubSub.UnsubscribedNotListed` | UtilityTools/Assets/Pub_Sub/EventHub.cs:60 | Over a duplicate-free list, a reaction that was unsubscribed is no longer listed under its event. |
| `PubSub.SubscribeThenUnsubscribe` | UtilityTools/Assets/Pub_Sub/EventHub.cs:19-63 | Round trip: subscribing a reaction that is not listed under the name, and then unsubscribing it, restores the registry exactly. This needs only that the name's existing list, if any, is non-empty. |
| `PubSub.EventHub.constructor` | UtilityTools/Assets/Pub_Sub/EventHub.cs:13-17 | The hub starts with no events and satisfies the invariant. |
| `PubSub.EventHub.AddObserver` | UtilityTools/Assets/Pub_Sub/EventHub.cs:19-32 | A null or empty name is an error, and so is a null reaction. An already listed reaction is a warning. These cases leave the registry unchanged. Otherwise the list of the name (created if absent) gets the reaction at its end. The invariant is kept. |
| `PubSub.EventHub.PostEvent` | UtilityTools/Assets/Pub_Sub/EventHub.cs:34-46 | A null or empty name, or one with no entry, is a warning and calls nothing. Otherwise the trace is exactly `Dispatch` of the event's list. The registry is never modified. |
| `PubSub.EventHub.RemoveObserver` | UtilityTools/Assets/Pub_Sub/EventHub.cs:48-63 | Bad arguments are errors. An unknown event or an unlisted reaction is a warning. These cases leave the registry unchanged. Otherwise the registry becomes `Unsubscribed`: the reaction is removed, and the event is dropped if it had no other observer. The invariant is kept. |
| `PubSub.EventHub.RemoveHub` | UtilityTools/Assets/Pub_Sub/EventHub.cs:69-78 | An empty name is an error and an unknown one a warning; both leave the registry unchanged. Otherwise exactly that key is deleted. |
| `PubSub.ScoreScenario` | UtilityTools/Assets/Pub_Sub/EventHub.cs:19-46 | Subscribe A, then B, then A again to "score" and post a payload: the calls are A(payload) and then B(payload), each once. |
| `PubSub.LastUnsubscribeScenario` | UtilityTools/Assets/Pub_Sub/EventHub.cs:48-63 | After the only observer unsubscribes, posting the event reports no observers and calls nothing. |
| `StateMachineV1.State.constructor` | UtilityTools/Assets/FSM/Scripts/StateMachine.cs:74 | A component made by `AddComponent` is enabled and has no owner. |
| `StateMachineV1.State.SetStateMachine` | UtilityTools/Assets/FSM/Scripts/State.cs:14-18 | The owner is set only while it is null. Afterwards it never changes. |
| `StateMachineV1.StateMachine.Unawakened` | UtilityTools/Assets/FSM/Scripts/StateMachine.cs:13-32 | Before `Awake`: no holder, no states, nothing running, no transition. |
| `StateMachineV1.StateMachine.Awakened` | UtilityTools/Assets/FSM/Scripts/StateMachine.cs:21-61 | After `BuildList`: a holder with the given components and list, and no transition. The running state is the serialized `currentState`, which `BuildList` leaves alone: null or one of the holder's components. |
| `StateMachineV1.StateMachine.AddState` | UtilityTools/Assets/FSM/Scripts/StateMachine.cs:68-79 | With no holder it returns null and changes nothing. Otherwise it is idempotent: it returns the existing component unchanged, or inserts a fresh enabled component owned by this machine at the end of `states`. The invariant is kept. |
| `StateMachineV1.StateMachine.RemoveState` | UtilityTools/Assets/FSM/Scripts/StateMachine.cs:87-99 | It returns true exactly when there is a holder, no transition is in progress, and the state is present and not running. Then the state leaves the holder and one occurrence leaves `states`; `currentState` is unchanged. Otherwise nothing changes. |
| `StateMachineV1.StateMachine.HasState` | UtilityTools/Assets/FSM/Scripts/StateMachine.cs:108-117 | With no holder the answer is null. A present state is found if enabled or if disabled states are included, and is null otherwise. An absent state is null when disabled states are included, and a null dereference when they are not. |
| `StateMachineV1.StateMachine.ChangeState` | UtilityTools/Assets/FSM/Scripts/StateMachine.cs:128-148 | Success exactly when the target is fetched and non-null, is not already running, and no transition is in progress. On success the hooks gain `OnExit(old)` (if any) and then `OnEnter(new)`, both with the flag raised. The machine ends running the target with the flag lowered. With `setEnabled` the target is appended to `states` if not already listed, and enabled. Of an existing component only the `enabled` flag may change. A refused request changes only what `AddState` inserted. A null-dereference lookup changes nothing. |
| `StateMachineV1.StateMachine.DisableState` | UtilityTools/Assets/FSM/Scripts/StateMachine.cs:155-163 | It returns null and changes nothing unless the state is present and listed. Then one occurrence leaves `states` and the state is disabled. Only the component's `enabled` flag may change, so its owner stays. |
| `StateMachineV1.StateMachine.EnableState` | UtilityTools/Assets/FSM/Scripts/StateMachine.cs:170-178 | As written: it returns null and changes nothing unless the state is present and already listed. Then it is appended again and enabled. Only the component's `enabled` flag may change. |
| `StateMachineV1.StateMachine.EnableStateIntended` | UtilityTools/Assets/FSM/Scripts/StateMachine.cs:165-178 | As documented: any present state is enabled, and is appended to `states` unless already listed. It returns null for an absent state. |
| `StateMachineV1.DisableThenEnable` | UtilityTools/Assets/FSM/Scripts/StateMachine.cs:155-178 | For a state listed once, the written `EnableState` after `DisableState` returns null. The state stays disabled and unlisted. |
| `StateMachineV1.DisableThenEnableIntended` | UtilityTools/Assets/FSM/Scripts/StateMachine.cs:155-178 | For a state listed once, the intended enable after `DisableState` restores the list's contents and leaves the state enabled. |
| `StateMachineV2.AbstractState.constructor` | UtilityTools/Assets/FSM/Scripts/v2/AbstractStateMachine.cs:75 | A component made by `AddComponent` is enabled and has no owner. |
| `StateMachineV2.AbstractState.SetMachine` | UtilityTools/Assets/FSM/Scripts/v2/AbstractState.cs:17-21 | The owner is set only while it is null. |
| `StateMachineV2.AbstractStateMachine.constructor` | UtilityTools/Assets/FSM/Scripts/v2/AbstractStateMachine.cs:44-63 | After `BuildList`: storage with the given components and list, nothing running, no transition, nothing printed. |
| `StateMachineV2.AbstractStateMachine.AddState` | UtilityTools/Assets/FSM/Scripts/v2/AbstractStateMachine.cs:70-80 | Idempotent: it returns the existing component with nothing changed, or inserts a fresh enabled component owned by this machine at the end of `states`. |
| `StateMachineV2.AbstractStateMachine.RemoveState` | UtilityTools/Assets/FSM/Scripts/v2/AbstractStateMachine.cs:88-103 | It returns true exactly when no transition is in progress and the state is present and not running. Then the state leaves the storage, one occurrence leaves `states`, and nothing is printed. Otherwise the lists are unchanged and the console gains the message of the first failing guard: the transition warning, "State not found" or the running-state error. |
| `StateMachineV2.AbstractStateMachine.HasState` | UtilityTools/Assets/FSM/Scripts/v2/AbstractStateMachine.cs:112-120 | As in v1, minus the no-holder case. An absent state is null when disabled states are included, and a null dereference when they are not. |
| `StateMachineV2.AbstractStateMachine.PrepareChange` | UtilityTools/Assets/FSM/Scripts/v2/AbstractStateMachine.cs:133-141 | The fetch and guards both change requests share: the target passes exactly when it is non-null, not running, and no transition is in progress. With `setEnabled` it is appended to `states` if not already listed, and enabled. Nothing is entered or exited. |
| `StateMachineV2.AbstractStateMachine.ChangeStateImmediate` | UtilityTools/Assets/FSM/Scripts/v2/AbstractStateMachine.cs:131-151 | Same guards as v1. On success the hooks gain `OnExit(old)` with the flag raised, then `OnEnter(new)` with the flag already lowered. The machine ends running the target. |
| `StateMachineV2.AbstractStateMachine.ChangeStateIntervaled` | UtilityTools/Assets/FSM/Scripts/v2/AbstractStateMachine.cs:164-177 | Same guards. On success only `OnExit(old)` has run, and the machine is in transition and already running the target. |
| `StateMachineV2.AbstractStateMachine.BeginChangeInterval` | UtilityTools/Assets/FSM/Scripts/v2/AbstractStateMachine.cs:186-191 | It raises the flag, runs `OnExit` of the old state (if any), and switches to the next state. |
| `StateMachineV2.AbstractStateMachine.FinishChangeInterval` | UtilityTools/Assets/FSM/Scripts/v2/AbstractStateMachine.cs:196-198 | It lowers the flag and then runs `OnEnter` of the running state, with the flag lowered. |
| `StateMachineV2.AbstractStateMachine.DisableState` | UtilityTools/Assets/FSM/Scripts/v2/AbstractStateMachine.cs:206-214 | It returns null with nothing changed for an absent state. Otherwise one occurrence leaves `states` (a no-op if unlisted) and the state is disabled. The absent case prints the "State not found" warning. The storage, the running state and the flag never change, and the invariant is kept. |
| `StateMachineV2.AbstractStateMachine.EnableState` | UtilityTools/Assets/FSM/Scripts/v2/AbstractStateMachine.cs:221-229 | It returns null with nothing changed for an absent state. Otherwise the state is appended to `states` unconditionally (it may be duplicated) and enabled. The absent case prints the "State not found" warning. |
| `StateMachineV2.DisableThenEnable` | UtilityTools/Assets/FSM/Scripts/v2/AbstractStateMachine.cs:206-229 | Disabling a listed state and then enabling it keeps every list element's multiplicity and leaves the state enabled. |
| `StateMachineV2.IntervaledTransition` | UtilityTools/Assets/FSM/Scripts/v2/AbstractStateMachine.cs:164-199 | Between begin and finish, remove and change requests are refused. Finishing leaves the machine running the target, with hooks `OnExit(old)` then `OnEnter(target)` and the flag lowered. |

## Left out

- The singleton `EventHub.instance` and the forwarding extension methods: the model is one explicit hub object.
- `PrintConsole` output: the hub returns it as a `Report`, and v2 appends it to its `console` field as a `Log` entry. v1 prints nothing in the modelled methods. The text of each message is kept as a named case (`Diagnostic`, `Message`), not as a string.
- Re-entrant calls back into the hub from a reaction, and exceptions raised by reactions: reactions are assumed to return normally without touching the hub.
- The aliasing of the live `List` objects: `PostEvent` reads the list once, and `RemoveHub`'s `Clear()` is not observable, because lists are values here.
- Unity's scene graph and lifecycle (`Awake`, `BuildList`, `GetComponentInChildren`, new game objects, parenting): the constructors take the resulting holder and list. The owners that `BuildList` sets on components it finds are not modelled.
- v1's serialized `currentState` (StateMachine.cs:21-22): `Awakened` takes it as `initial` and requires it to be null or one of the holder's components. A scene value outside the holder, which breaks the invariant from the first frame, is not modelled. Neither is a non-null value before `Awake` (`Unawakened` starts with nothing running). A machine that starts with a non-null `initial` runs `OnExit` on it at the first change although no `OnEnter` preceded it; the model records that as it happens.
- `GetComponent<T>` matches exactly one component per type name; subtype matching and several components of one type are not modelled.
- `Destroy`: the component leaves the holder map at once. Unity defers the destruction to the end of the current frame, and until then `GetComponent<T>` still returns the component. So in the source, `RemoveState` followed in the same frame by `ChangeState` with `addState` for that type enters the doomed component, and the running state ends up destroyed. The model's invariant that the running state is in the holder does not capture that sequence. Unity's rule that a destroyed object compares equal to null is not modelled, so a second listing of a destroyed component stays in `states` as an ordinary reference.
- v2's `stateStorage` is assumed to exist, since `Awake` always creates it; the null-reference exception of a missing storage is not modelled.
- The exception `HasState(includeDisabled: false)` raises for an absent state is the `NullDereference` answer. A change request that meets it returns `Faulted` and changes nothing; propagation to the caller is not modelled further.
- Coroutines and time: `intervalTime`, `WaitForSeconds` and the frame wait are the gap between `ChangeStateIntervaled` and `FinishChangeInterval`. The coroutine that v1's `State.OnEnter` starts and `OnExit`/`OnDestroy` stop is not modelled, and neither is any state's own behaviour. Hooks are trace events only.
- The player-movement states, the quality, audio and other Unity scripts: they are engine glue outside this model.
- The object pool (UtilityTools/Assets/Object Pooling/v2/ObjectPooler.cs) is not part of this model.

## Findings

| source | as written | input that shows it | evidently intended | confidence | as-written member | corrected member |
|---|---|---|---|---|---|---|
| UtilityTools/Assets/FSM/Scripts/StateMachine.cs:174 | `EnableState` returns null for every state that is not already in `states`, and appends listed ones a second time. | A state listed once: `DisableState` removes it, then `EnableState` returns null and the state stays disabled and unlisted. | Per the method's documentation, enable the state and add it to the list, as `ChangeState`'s `setEnabled` branch does (StateMachine.cs:136). | medium, not executed | `StateMachineV1.DisableThenEnable` | `StateMachineV1.StateMachine.EnableStateIntended` |
