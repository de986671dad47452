/**
 * The deferred publish/subscribe bus. `EventMetaData` is one event name's
 * registry (counter plus index-to-listener table) and `EventBus` owns the map
 * from event names to registries and the queue of fired names. Listener
 * bodies are not modelled: each dispatch returns, as a ghost sequence of
 * `Call`s, the invocations it made, and the bus appends them to its ghost
 * `trace`.
 */
module EventBus {
  import opened EventModel

  /** `EventBus::eventMetaData`: the listeners registered under one name. */
  class EventMetaData {
    var index: nat
    var functionList: map<nat, Listener>

    /** The registry's abstract value. */
    function Value(): Meta
      reads this
    {
      Meta(index, functionList)
    }

    ghost predicate Valid()
      reads this
    {
      MetaValid(Value())
    }

    /** Builds a registry holding `func` under index 0; the counter becomes 1. */
    constructor (func: Action, loop: bool)
      ensures Valid()
      ensures Value() == NewMeta(Listener(loop, func))
    {
      index := 0;
      functionList := map[];
      new;
      functionList := functionList[index := Listener(loop, func)];
      index := index + 1;
    }

    /** The implicit copy constructor: a registry with the same counter and
        table as `m`. */
    constructor Copy(m: Meta)
      requires MetaValid(m)
      ensures Valid() && Value() == m
    {
      index := m.index;
      functionList := m.functions;
    }

    /** `addFunct` (both overloads): store under the counter, then bump it. */
    method AddFunct(data: Listener)
      requires Valid()
      modifies this
      ensures Valid()
      ensures Value() == Append(old(Value()), data)
      ensures old(index) !in old(functionList)
    {
      AppendFresh(Value(), data);
      functionList := functionList[index := data];
      index := index + 1;
    }

    /** `callAllFunctions`: invokes every listener once, in an unspecified
        order, then erases the one-shot ones; reports whether any remain.
        `event` only labels the recorded calls. */
    method CallAllFunctions(ghost event: string) returns (remaining: bool, ghost fired: seq<Call>)
      requires Valid()
      modifies this
      ensures Valid()
      ensures Value() == Dispatch(old(Value()))
      ensures remaining <==> functionList != map[]
      ensures InvokedOnce(fired, event, old(functionList))
    {
      var todo := functionList.Keys;
      var erased: set<nat> := {};
      fired := [];
      while todo != {}
        invariant functionList == old(functionList) && index == old(index)
        invariant todo <= functionList.Keys
        invariant Traversed(fired, event, functionList, functionList.Keys - todo)
        invariant forall k :: k in erased <==> k in functionList && k !in todo && !functionList[k].loop
        decreases todo
      {
        var k :| k in todo;
        TraverseStep(fired, event, functionList, functionList.Keys - todo, k);
        fired := fired + [Call(event, k, functionList[k].action)];
        if !functionList[k].loop {
          erased := erased + {k};
        }
        assert functionList.Keys - (todo - {k}) == (functionList.Keys - todo) + {k};
        todo := todo - {k};
      }
      EraseOneShots(functionList, erased);
      functionList := functionList - erased;
      remaining := |functionList| != 0;
    }
  }

  /** `EventBus`: the registries by event name and the queue of fired names.
      The C++ map holds each `eventMetaData` by value, so `eventListeners` maps
      names to registry values; an operation on one registry copies it into an
      `EventMetaData`, updates that in place and stores it back, which is what
      updating it through the reference into the map does, since nothing else
      refers to it. */
  class EventBus {
    var eventListeners: Registries
    var allWaitingEvents: seq<string>
    /** Every listener invocation so far, in order. */
    ghost var trace: seq<Call>

    /** The bus invariant: no registry is empty and every key is below its
        counter. */
    ghost predicate Valid()
      reads this`eventListeners
    {
      WellFormed(eventListeners)
    }

    constructor ()
      ensures Valid()
      ensures eventListeners == map[] && allWaitingEvents == [] && trace == []
    {
      eventListeners := map[];
      allWaitingEvents := [];
      trace := [];
    }

    /** The non-template `addEventListener`: builds a registry for the listener
        and `insert`s it, which keeps an existing registry under that name. */
    method AddEventListener(action: Action, e: string, loop: bool)
      requires Valid()
      modifies this
      ensures Valid()
      ensures eventListeners == PlainAdd(old(eventListeners), e, Listener(loop, action))
      ensures allWaitingEvents == old(allWaitingEvents) && trace == old(trace)
    {
      PlainAddSpec(eventListeners, e, Listener(loop, action));
      var emd := new EventMetaData(action, loop);
      if e !in eventListeners {
        eventListeners := eventListeners[e := emd.Value()];
      }
    }

    /** `pushBackEventListener`, reached by the template `addEventListener`
        overloads: appends to the name's registry, or creates it. */
    method PushBackEventListener(e: string, data: Listener)
      requires Valid()
      modifies this
      ensures Valid()
      ensures eventListeners == Register(old(eventListeners), e, data)
      ensures allWaitingEvents == old(allWaitingEvents) && trace == old(trace)
    {
      RegisterSpec(eventListeners, e, data);
      if e !in eventListeners {
        var emd := new EventMetaData(data.action, data.loop);
        eventListeners := eventListeners[e := emd.Value()];
      } else {
        var ced := new EventMetaData.Copy(eventListeners[e]);
        ced.AddFunct(data);
        eventListeners := eventListeners[e := ced.Value()];
      }
    }

    /** `fireEvent`: queue the name; nothing is looked up or invoked. */
    method FireEvent(e: string)
      modifies this
      ensures allWaitingEvents == old(allWaitingEvents) + [e]
      ensures eventListeners == old(eventListeners) && trace == old(trace)
    {
      allWaitingEvents := allWaitingEvents + [e];
    }

    /** `searchForEventAndFire`: dispatch the name's registry, if any, and
        erase it when no listener remains. `fired` records the invocations. */
    method SearchForEventAndFire(e: string) returns (ghost fired: seq<Call>)
      requires Valid()
      modifies this
      ensures Valid()
      ensures eventListeners == Fire(old(eventListeners), e)
      ensures InvokedOnce(fired, e, Pending(old(eventListeners), e))
      ensures trace == old(trace) + fired
      ensures allWaitingEvents == old(allWaitingEvents)
    {
      FireSpec(eventListeners, e);
      if e !in eventListeners {
        fired := [];
        return;
      }
      var meta := new EventMetaData.Copy(eventListeners[e]);
      var remaining;
      remaining, fired := meta.CallAllFunctions(e);
      trace := trace + fired;
      if !remaining {
        eventListeners := eventListeners - {e};
      } else {
        eventListeners := eventListeners[e := meta.Value()];
      }
    }

    /** `fireEventForce`: the same dispatch, immediately; the queue is left as
        it is. */
    method FireEventForce(e: string) returns (ghost fired: seq<Call>)
      requires Valid()
      modifies this
      ensures Valid()
      ensures eventListeners == Fire(old(eventListeners), e)
      ensures InvokedOnce(fired, e, Pending(old(eventListeners), e))
      ensures trace == old(trace) + fired
      ensures allWaitingEvents == old(allWaitingEvents)
    {
      fired := SearchForEventAndFire(e);
    }

    /** `tick`: dispatch the queued names in order, one pass per occurrence,
        over the queue as it stood on entry; then clear the queue. `passes`
        records each pass's invocations. */
    method Tick() returns (ghost passes: seq<seq<Call>>)
      requires Valid()
      modifies this
      ensures Valid()
      ensures allWaitingEvents == []
      ensures eventListeners == TickState(old(eventListeners), old(allWaitingEvents))
      ensures TickPasses(passes, old(eventListeners), old(allWaitingEvents))
      ensures trace == old(trace) + Flatten(passes)
      ensures forall e, k :: CountCalls(Flatten(passes), e, k) == Times(old(eventListeners), old(allWaitingEvents), e, k)
    {
      var snapshot := allWaitingEvents;
      passes := [];
      var i := 0;
      while i < |snapshot|
        invariant 0 <= i <= |snapshot|
        invariant Valid()
        invariant allWaitingEvents == snapshot
        invariant eventListeners == TickState(old(eventListeners), snapshot[..i])
        invariant TickPasses(passes, old(eventListeners), snapshot[..i])
        invariant trace == old(trace) + Flatten(passes)
      {
        ghost var fired := SearchForEventAndFire(snapshot[i]);
        TickPassesExtend(passes, old(eventListeners), snapshot[..i], fired, snapshot[i]);
        PrefixStep(snapshot, i);
        SeqAssoc(old(trace), Flatten(passes), fired);
        passes := passes + [fired];
        i := i + 1;
      }
      assert snapshot[..|snapshot|] == snapshot;
      forall e, k
        ensures CountCalls(Flatten(passes), e, k) == Times(old(eventListeners), snapshot, e, k)
      {
        TickCounts(passes, old(eventListeners), snapshot, e, k);
      }
      allWaitingEvents := [];
    }
  }

  /** Extending a prefix of the queue by one name. */
  lemma PrefixStep(s: seq<string>, i: nat)
    requires i < |s|
    ensures s[..i + 1] == s[..i] + [s[i]]
  {
  }

  /** Appending a pass to the trace regroups the concatenation. */
  lemma SeqAssoc(a: seq<Call>, b: seq<Call>, c: seq<Call>)
    ensures a + b + c == a + (b + c)
  {
  }
}
