/** The publish/subscribe registry: event names mapped to ordered lists of
    observer reactions. Reactions are opaque values compared by equality;
    console diagnostics become the returned `Report`; running a reaction
    becomes one `Invocation` in the returned trace. */
module PubSub {
  import opened Seqs

  /** The console messages of the hub. */
  datatype Diagnostic =
    | EmptyEventName        // "Empty event name"
    | NullEventReaction     // "Null event reaction"
    | AlreadyObserving      // "Already observing this event"
    | NoObserversToReact    // "No observers to react"
    | NoEventFound          // "No event/observers found"
    | NoEventReactionFound  // "No event reaction found"

  /** What an operation printed: nothing, an error or a warning. */
  datatype Report = Ok | Error(diagnostic: Diagnostic) | Warning(diagnostic: Diagnostic)

  /** One call `reaction(arg)` made by `PostEvent`. */
  datatype Invocation<R, A> = Invoke(reaction: R, arg: A)

  /** `string.IsNullOrEmpty`. */
  predicate IsNullOrEmpty(name: Nullable<string>) {
    name.Null? || name.value == ""
  }

  /** The registry invariant: every event name is non-empty and maps to a
      non-empty list that holds no reaction twice. */
  predicate WellFormed<R(==)>(m: map<string, seq<R>>) {
    forall n :: n in m ==> n != "" && |m[n]| > 0 && NoDuplicates(m[n])
  }

  /** The registry after `r` is appended to the list of `n` (created empty
      if absent). */
  function Subscribed<R>(m: map<string, seq<R>>, n: string, r: R): (s: map<string, seq<R>>)
    ensures s.Keys == m.Keys + {n}
    ensures forall k :: k in m && k != n ==> s[k] == m[k]
    ensures |s[n]| > 0 && s[n][|s[n]| - 1] == r
    ensures s[n][..|s[n]| - 1] == if n in m then m[n] else []
  {
    m[n := (if n in m then m[n] else []) + [r]]
  }

  /** The registry after the first `r` is removed from the list of `n`,
      with the entry of `n` dropped once that list is empty. */
  function Unsubscribed<R(==)>(m: map<string, seq<R>>, n: string, r: R): (u: map<string, seq<R>>)
    requires n in m
    ensures u.Keys == m.Keys || u.Keys == m.Keys - {n}
    ensures forall k :: k in m && k != n ==> k in u && u[k] == m[k]
    ensures n in u ==> u[n] != [] && multiset(u[n]) == multiset(m[n]) - multiset{r}
    ensures n !in u ==> multiset(m[n]) <= multiset{r}
  {
    var l := RemoveFirst(m[n], r);
    if l == [] then m - {n} else m[n := l]
  }

  /** The calls made by posting `e` to the observer list `l`, as a reference
      definition independent of the dispatch loop. */
  function Dispatch<R, A>(l: seq<R>, e: A): (calls: seq<Invocation<R, A>>)
    ensures |calls| == |l|
  {
    if l == [] then [] else [Invoke(l[0], e)] + Dispatch(l[1..], e)
  }

  /** Dispatch calls every observer of the list once, in list order, each
      with the same argument. */
  lemma {:induction false} DispatchInOrder<R, A>(l: seq<R>, e: A)
    ensures |Dispatch(l, e)| == |l|
    ensures forall i :: 0 <= i < |l| ==> Dispatch(l, e)[i] == Invoke(l[i], e)
  {
    if l != [] {
      DispatchInOrder(l[1..], e);
    }
  }

  /** Over a list without duplicates, a reaction is called exactly once if
      it is listed and never otherwise. */
  lemma {:induction false} DispatchCallsOnce<R, A>(l: seq<R>, e: A, r: R)
    requires NoDuplicates(l)
    ensures multiset(Dispatch(l, e))[Invoke(r, e)] == if r in l then 1 else 0
  {
    if l != [] {
      TailNoDuplicates(l);
      DispatchCallsOnce(l[1..], e, r);
      assert l == [l[0]] + l[1..];
    }
  }

  /** Subscribing a reaction not yet listed under a non-empty name keeps the
      registry well formed, and leaves every other event untouched. */
  lemma SubscribedWellFormed<R>(m: map<string, seq<R>>, n: string, r: R)
    requires WellFormed(m) && n != ""
    requires n in m ==> r !in m[n]
    ensures WellFormed(Subscribed(m, n, r))
    ensures forall k :: k in m && k != n ==> k in Subscribed(m, n, r) && Subscribed(m, n, r)[k] == m[k]
  {
    if n in m {
      AppendKeepsNoDuplicates(m[n], r);
    }
  }

  /** Unsubscribing keeps the registry well formed: in particular no name
      is left with an empty list. */
  lemma UnsubscribedWellFormed<R>(m: map<string, seq<R>>, n: string, r: R)
    requires WellFormed(m) && n in m
    ensures WellFormed(Unsubscribed(m, n, r))
  {
    var u := Unsubscribed(m, n, r);
    RemoveFirstKeepsNoDuplicates(m[n], r);
    forall k | k in u
      ensures k != "" && |u[k]| > 0 && NoDuplicates(u[k])
    {
      if k != n {
        assert u[k] == m[k];
      }
    }
  }

  /** An event stays registered after an unsubscription unless the removed
      reaction was its only observer. */
  lemma UnsubscribedDropsOnlyLast<R>(m: map<string, seq<R>>, n: string, r: R)
    requires n in m && m[n] != []
    ensures n !in Unsubscribed(m, n, r) <==> m[n] == [r]
  {
  }

  /** Over a duplicate-free list, an unsubscribed reaction is no longer
      listed under its event. */
  lemma UnsubscribedNotListed<R>(m: map<string, seq<R>>, n: string, r: R)
    requires n in m && NoDuplicates(m[n])
    ensures n in Unsubscribed(m, n, r) ==> r !in Unsubscribed(m, n, r)[n]
  {
    RemoveFirstKeepsNoDuplicates(m[n], r);
  }

  /** Round trip: subscribing a reaction that was not listed and then
      unsubscribing it gives back the registry. */
  lemma SubscribeThenUnsubscribe<R>(m: map<string, seq<R>>, n: string, r: R)
    requires n in m ==> m[n] != [] && r !in m[n]
    ensures Unsubscribed(Subscribed(m, n, r), n, r) == m
  {
    if n in m {
      RestoreListed(m, n, r);
    } else {
      RestoreUnlisted(m, n, r);
    }
  }

  /** The round trip for an event that already had observers. */
  lemma RestoreListed<R>(m: map<string, seq<R>>, n: string, r: R)
    requires n in m && m[n] != [] && r !in m[n]
    ensures Unsubscribed(Subscribed(m, n, r), n, r) == m
  {
    var s := Subscribed(m, n, r);
    assert s[n] == m[n] + [r];
    RemoveFirstOfAppended(m[n], r);
    assert Unsubscribed(s, n, r) == s[n := m[n]];
  }

  /** The round trip for an event that had no entry. */
  lemma RestoreUnlisted<R>(m: map<string, seq<R>>, n: string, r: R)
    requires n !in m
    ensures Unsubscribed(Subscribed(m, n, r), n, r) == m
  {
    var s := Subscribed(m, n, r);
    assert s[n] == [r];
    assert RemoveFirst([r], r) == [];
    assert Unsubscribed(s, n, r) == s - {n};
  }

  class EventHub<R(==)> {
    /** `eventObservers`: event name to the ordered list of reactions. */
    var observers: map<string, seq<R>>

    ghost predicate Valid()
      reads this
    {
      WellFormed(observers)
    }

    /** The single hub instance starts with no events. */
    constructor ()
      ensures Valid() && observers == map[]
    {
      observers := map[];
    }

    /** Subscribe `eventReaction` to `eventName`. Null or empty names and
        null reactions are errors, a reaction already listed is a warning;
        each of these leaves the registry as it was. */
    method AddObserver(eventName: Nullable<string>, eventReaction: Nullable<R>) returns (report: Report)
      requires Valid()
      modifies this
      ensures Valid()
      ensures IsNullOrEmpty(eventName) ==>
        report == Error(EmptyEventName) && observers == old(observers)
      ensures !IsNullOrEmpty(eventName) && eventReaction.Null? ==>
        report == Error(NullEventReaction) && observers == old(observers)
      ensures !IsNullOrEmpty(eventName) && eventReaction.NonNull? ==>
        var n, r := eventName.value, eventReaction.value;
        if n in old(observers) && r in old(observers[n]) then
          report == Warning(AlreadyObserving) && observers == old(observers)
        else
          report == Ok && observers == Subscribed(old(observers), n, r)
    {
      if IsNullOrEmpty(eventName) {
        return Error(EmptyEventName);
      }
      if eventReaction.Null? {
        return Error(NullEventReaction);
      }
      var n, r := eventName.value, eventReaction.value;
      ghost var m := observers;
      if n !in observers {
        observers := observers[n := []];
      } else if r in observers[n] {
        return Warning(AlreadyObserving);
      }
      observers := observers[n := observers[n] + [r]];
      assert observers == Subscribed(m, n, r);
      SubscribedWellFormed(m, n, r);
      report := Ok;
    }

    /** Post `e` to every observer of `eventName`, in list order. A null or
        empty name, or a name nobody observes, is a warning and calls
        nothing. */
    method PostEvent<A>(eventName: Nullable<string>, e: A) returns (report: Report, trace: seq<Invocation<R, A>>)
      ensures IsNullOrEmpty(eventName) ==> report == Warning(EmptyEventName) && trace == []
      ensures !IsNullOrEmpty(eventName) && eventName.value !in observers ==>
        report == Warning(NoObserversToReact) && trace == []
      ensures !IsNullOrEmpty(eventName) && eventName.value in observers ==>
        report == Ok && trace == Dispatch(observers[eventName.value], e)
    {
      trace := [];
      if IsNullOrEmpty(eventName) {
        return Warning(EmptyEventName), trace;
      }
      if eventName.value !in observers {
        return Warning(NoObserversToReact), trace;
      }
      var l := observers[eventName.value];
      var i := 0;
      while i < |l|
        invariant 0 <= i <= |l|
        invariant |trace| == i
        invariant forall j :: 0 <= j < i ==> trace[j] == Invoke(l[j], e)
      {
        trace := trace + [Invoke(l[i], e)];
        i := i + 1;
      }
      DispatchInOrder(l, e);
      report := Ok;
    }

    /** Unsubscribe `eventReaction` from `eventName`, dropping the event once
        its last observer is gone. Bad arguments are errors; an unknown
        event or an unlisted reaction is a warning; each leaves the registry
        as it was. */
    method RemoveObserver(eventName: Nullable<string>, eventReaction: Nullable<R>) returns (report: Report)
      requires Valid()
      modifies this
      ensures Valid()
      ensures IsNullOrEmpty(eventName) ==>
        report == Error(EmptyEventName) && observers == old(observers)
      ensures !IsNullOrEmpty(eventName) && eventReaction.Null? ==>
        report == Error(NullEventReaction) && observers == old(observers)
      ensures !IsNullOrEmpty(eventName) && eventReaction.NonNull? ==>
        var n, r := eventName.value, eventReaction.value;
        if n !in old(observers) then
          report == Warning(NoEventFound) && observers == old(observers)
        else if r !in old(observers[n]) then
          report == Warning(NoEventReactionFound) && observers == old(observers)
        else
          report == Ok && observers == Unsubscribed(old(observers), n, r)
    {
      if IsNullOrEmpty(eventName) {
        return Error(EmptyEventName);
      }
      if eventReaction.Null? {
        return Error(NullEventReaction);
      }
      var n, r := eventName.value, eventReaction.value;
      if n !in observers {
        return Warning(NoEventFound);
      }
      if r !in observers[n] {
        return Warning(NoEventReactionFound);
      }
      ghost var m := observers;
      observers := observers[n := RemoveFirst(observers[n], r)];
      if |observers[n]| == 0 {
        var _ := RemoveHub(eventName);
      }
      assert observers == Unsubscribed(m, n, r);
      UnsubscribedWellFormed(m, n, r);
      report := Ok;
    }

    /** Drop the entry of `eventName` together with its list. */
    method RemoveHub(eventName: Nullable<string>) returns (report: Report)
      modifies this
      ensures IsNullOrEmpty(eventName) ==>
        report == Error(EmptyEventName) && observers == old(observers)
      ensures !IsNullOrEmpty(eventName) && eventName.value !in old(observers) ==>
        report == Warning(NoEventFound) && observers == old(observers)
      ensures !IsNullOrEmpty(eventName) && eventName.value in old(observers) ==>
        report == Ok && observers == old(observers) - {eventName.value}
    {
      if IsNullOrEmpty(eventName) {
        return Error(EmptyEventName);
      }
      if eventName.value !in observers {
        return Warning(NoEventFound);
      }
      observers := observers - {eventName.value};
      report := Ok;
    }
  }

  /** Two different reactions subscribed to "score" in turn are called in
      that order with the posted payload, and subscribing the first one a
      second time changes nothing. */
  method ScoreScenario<R(==), A>(a: R, b: R, payload: A) returns (trace: seq<Invocation<R, A>>)
    requires a != b
    ensures trace == [Invoke(a, payload), Invoke(b, payload)]
  {
    var hub := new EventHub<R>();
    var _ := hub.AddObserver(NonNull("score"), NonNull(a));
    var _ := hub.AddObserver(NonNull("score"), NonNull(b));
    var again := hub.AddObserver(NonNull("score"), NonNull(a));
    assert again == Warning(AlreadyObserving);
    var report;
    report, trace := hub.PostEvent(NonNull("score"), payload);
    assert hub.observers["score"] == [a, b];
    DispatchInOrder([a, b], payload);
  }

  /** Once the only observer of an event unsubscribes, posting that event
      finds no observers and calls nothing. */
  method LastUnsubscribeScenario<R(==), A>(a: R, e: A) returns (report: Report, trace: seq<Invocation<R, A>>)
    ensures report == Warning(NoObserversToReact) && trace == []
  {
    var hub := new EventHub<R>();
    var _ := hub.AddObserver(NonNull("level"), NonNull(a));
    var _ := hub.RemoveObserver(NonNull("level"), NonNull(a));
    report, trace := hub.PostEvent(NonNull("level"), e);
  }
}
