/**
 * Value-level meaning of the event bus: what a registry (`eventMetaData`)
 * holds, what registering, dispatching and ticking do to the map from event
 * names to registries, and how often each listener is invoked. The classes
 * in module EventBus are proved against these functions.
 */
module EventModel {

  /** Opaque identity of the zero-argument closure built at registration. */
  type Action = nat

  /** The `pair<bool, function<void()>>` stored per listener; `loop` marks a
      persistent listener, otherwise it is one-shot. */
  datatype Listener = Listener(loop: bool, action: Action)

  /** Abstract value of one `eventMetaData`: its counter `index` and its table
      from index to listener. */
  datatype Meta = Meta(index: nat, functions: map<nat, Listener>)

  /** Abstract value of the bus's `_eventListeners`. */
  type Registries = map<string, Meta>

  /** One invocation of a listener: the event it was dispatched for, its key in
      that event's registry, and its action. */
  datatype Call = Call(event: string, key: nat, action: Action)

  // ---------------------------------------------------------------------------
  // Invariants

  /** Every key of a registry is below its counter, so the counter is fresh. */
  ghost predicate MetaValid(m: Meta)
  {
    forall k :: k in m.functions ==> k < m.index
  }

  /** The bus invariant: every registry in the map is non-empty and valid. */
  ghost predicate WellFormed(r: Registries)
  {
    forall e :: e in r ==> r[e].functions != map[] && MetaValid(r[e])
  }

  // ---------------------------------------------------------------------------
  // Registration

  /** The registry built by the `eventMetaData` constructor. */
  function NewMeta(l: Listener): Meta
  {
    Meta(1, map[0 := l])
  }

  /** `addFunct`: store under the current counter, then increment it. */
  function Append(m: Meta, l: Listener): Meta
  {
    Meta(m.index + 1, m.functions[m.index := l])
  }

  /** A new registry holds exactly one listener, under key 0, and its counter
      is 1. */
  lemma NewMetaSingle(l: Listener)
    ensures MetaValid(NewMeta(l))
    ensures NewMeta(l).functions.Keys == {0} && NewMeta(l).functions[0] == l
    ensures |NewMeta(l).functions| == 1 && NewMeta(l).index == 1
  {
  }

  /** `addFunct` uses a fresh key, grows the table by one, keeps the existing
      entries and keeps every key below the counter. */
  lemma AppendFresh(m: Meta, l: Listener)
    requires MetaValid(m)
    ensures m.index !in m.functions
    ensures MetaValid(Append(m, l))
    ensures Append(m, l).functions.Keys == m.functions.Keys + {m.index}
    ensures |Append(m, l).functions| == |m.functions| + 1
    ensures forall k :: k in m.functions ==> Append(m, l).functions[k] == m.functions[k]
    ensures Append(m, l).functions[m.index] == l
  {
    assert m.index !in m.functions;
    assert Append(m, l).functions.Keys == m.functions.Keys + {m.index};
  }

  /** `pushBackEventListener`: append to an existing registry, or create one. */
  function Register(r: Registries, e: string, l: Listener): Registries
  {
    if e in r then r[e := Append(r[e], l)] else r[e := NewMeta(l)]
  }

  /** The non-template `addEventListener`: `map::insert` of a fresh registry,
      which does nothing when the name is already present. */
  function PlainAdd(r: Registries, e: string, l: Listener): Registries
  {
    if e in r then r else r[e := NewMeta(l)]
  }

  /** Registration keeps the bus invariant, touches no other name, and the new
      listener sits under a key no live listener of that name uses. */
  lemma RegisterSpec(r: Registries, e: string, l: Listener)
    requires WellFormed(r)
    ensures WellFormed(Register(r, e, l))
    ensures Register(r, e, l).Keys == r.Keys + {e}
    ensures forall f :: f in r && f != e ==> Register(r, e, l)[f] == r[f]
    ensures e !in r ==> Register(r, e, l)[e] == NewMeta(l)
    ensures e in r ==> r[e].index !in r[e].functions
    ensures e in r ==> Register(r, e, l)[e].functions == r[e].functions[r[e].index := l]
    ensures e in r ==> |Register(r, e, l)[e].functions| == |r[e].functions| + 1
  {
    NewMetaSingle(l);
    if e in r {
      AppendFresh(r[e], l);
    }
    var newKey := if e in r then r[e].index else 0;
    assert newKey in Register(r, e, l)[e].functions;
  }

  /** The non-template `addEventListener` keeps the invariant; on an absent
      name it creates the one-listener registry, on a present name it changes
      nothing, so the listener is dropped. */
  lemma PlainAddSpec(r: Registries, e: string, l: Listener)
    requires WellFormed(r)
    ensures WellFormed(PlainAdd(r, e, l))
    ensures e !in r ==> PlainAdd(r, e, l) == r[e := NewMeta(l)]
    ensures e in r ==> PlainAdd(r, e, l) == r
  {
    NewMetaSingle(l);
    assert e !in r ==> 0 in PlainAdd(r, e, l)[e].functions;
  }

  /** The two registration paths disagree on a present name: the template
      overloads append the listener, the plain overload discards it. */
  lemma PlainAddDropsListener(r: Registries, e: string, l: Listener)
    requires WellFormed(r) && e in r
    ensures PlainAdd(r, e, l) == r
    ensures Register(r, e, l) != PlainAdd(r, e, l)
    ensures |PlainAdd(r, e, l)[e].functions| < |Register(r, e, l)[e].functions|
  {
    RegisterSpec(r, e, l);
  }

  // ---------------------------------------------------------------------------
  // Dispatch

  /** The listeners that survive a dispatch: exactly the persistent ones. */
  function Kept(fs: map<nat, Listener>): (kept: map<nat, Listener>)
    ensures forall k :: k in kept <==> k in fs && fs[k].loop
    ensures forall k :: k in kept ==> kept[k] == fs[k]
  {
    map k | k in fs && fs[k].loop :: fs[k]
  }

  /** `callAllFunctions` on a registry's value: the counter is not touched. */
  function Dispatch(m: Meta): Meta
  {
    Meta(m.index, Kept(m.functions))
  }

  /** `searchForEventAndFire`: dispatch the name's registry, if any, and evict
      it when dispatch leaves it empty. */
  function Fire(r: Registries, e: string): Registries
  {
    if e !in r then r
    else if Kept(r[e].functions) == map[] then r - {e}
    else r[e := Dispatch(r[e])]
  }

  /** The listeners a dispatch of `e` would invoke. */
  function Pending(r: Registries, e: string): map<nat, Listener>
  {
    if e in r then r[e].functions else map[]
  }

  /** A dispatch pass `seg` for event `e` over table `fs` invokes every listener
      of `fs` exactly once, in some order, and nothing else: the traversal of
      all of its keys. */
  ghost predicate InvokedOnce(seg: seq<Call>, e: string, fs: map<nat, Listener>)
  {
    Traversed(seg, e, fs, fs.Keys)
  }

  /** `seg` has invoked, once each, exactly the listeners of `fs` whose keys are
      in `done`. */
  ghost predicate Traversed(seg: seq<Call>, e: string, fs: map<nat, Listener>, done: set<nat>)
  {
    && (forall i, j :: 0 <= i < j < |seg| ==> seg[i].key != seg[j].key)
    && (forall i :: 0 <= i < |seg| ==> seg[i].event == e && seg[i].key in fs && seg[i].key in done && seg[i].action == fs[seg[i].key].action)
    && (forall k :: k in fs && k in done ==> Call(e, k, fs[k].action) in seg)
  }

  /** Erasing exactly the one-shot keys leaves the persistent listeners. */
  lemma EraseOneShots(fs: map<nat, Listener>, erased: set<nat>)
    requires forall k :: k in erased <==> k in fs && !fs[k].loop
    ensures fs - erased == Kept(fs)
  {
    assert (fs - erased).Keys == Kept(fs).Keys;
  }

  /** Invoking one more listener extends the traversal by its key. */
  lemma TraverseStep(seg: seq<Call>, e: string, fs: map<nat, Listener>, done: set<nat>, k: nat)
    requires Traversed(seg, e, fs, done) && k in fs && k !in done
    ensures Traversed(seg + [Call(e, k, fs[k].action)], e, fs, done + {k})
  {
    var seg' := seg + [Call(e, k, fs[k].action)];
    forall k' | k' in fs && k' in done + {k}
      ensures Call(e, k', fs[k'].action) in seg'
    {
      if k' != k {
        var i :| 0 <= i < |seg| && seg[i] == Call(e, k', fs[k'].action);
        assert seg'[i] == seg[i];
      } else {
        assert seg'[|seg|] == Call(e, k, fs[k].action);
      }
    }
  }

  /** Firing keeps the invariant; on an absent name it changes nothing;
      otherwise the name survives exactly when it has a persistent listener,
      it then holds exactly those listeners under the same counter, and no
      other name is touched. */
  lemma FireSpec(r: Registries, e: string)
    requires WellFormed(r)
    ensures WellFormed(Fire(r, e))
    ensures e !in r ==> Fire(r, e) == r
    ensures Fire(r, e).Keys <= r.Keys
    ensures forall f :: f in r && f != e ==> f in Fire(r, e) && Fire(r, e)[f] == r[f]
    ensures e in Fire(r, e) <==> e in r && exists k :: k in r[e].functions && r[e].functions[k].loop
    ensures e in Fire(r, e) ==> Fire(r, e)[e] == Meta(r[e].index, Kept(r[e].functions))
  {
    if e in r && Kept(r[e].functions) != map[] {
      var k :| k in Kept(r[e].functions);
      assert k in r[e].functions && r[e].functions[k].loop;
    }
  }

  /** Firing adds no listener: whatever a later dispatch can invoke was already
      registered, with the same listener. */
  lemma FireNoNewListeners(r: Registries, e: string, f: string)
    ensures forall k :: k in Pending(Fire(r, e), f) ==> k in Pending(r, f) && Pending(Fire(r, e), f)[k] == Pending(r, f)[k]
  {
  }

  // ---------------------------------------------------------------------------
  // Tick

  /** The registries after `tick` has dispatched the queue `q` in order. */
  function TickState(r: Registries, q: seq<string>): Registries
    decreases |q|
  {
    if q == [] then r else Fire(TickState(r, q[..|q| - 1]), q[|q| - 1])
  }

  /** How often `tick` over `q` invokes listener `k` of event `e`: once for
      each occurrence of `e` reached while `k` is still registered. */
  function Times(r: Registries, q: seq<string>, e: string, k: nat): nat
    decreases |q|
  {
    if q == [] then 0
    else
      var p := q[..|q| - 1];
      Times(r, p, e, k) + (if q[|q| - 1] == e && k in Pending(TickState(r, p), e) then 1 else 0)
  }

  /** Number of occurrences of `e` in `q`. */
  function Occurrences(q: seq<string>, e: string): nat
    decreases |q|
  {
    if q == [] then 0 else Occurrences(q[..|q| - 1], e) + (if q[|q| - 1] == e then 1 else 0)
  }

  /** Concatenation of the dispatch passes of one tick, in queue order. */
  function Flatten(passes: seq<seq<Call>>): seq<Call>
    decreases |passes|
  {
    if passes == [] then [] else Flatten(passes[..|passes| - 1]) + passes[|passes| - 1]
  }

  /** Number of invocations of listener `k` of event `e` in a trace. */
  function CountCalls(s: seq<Call>, e: string, k: nat): nat
    decreases |s|
  {
    if s == [] then 0
    else CountCalls(s[..|s| - 1], e, k) + (if s[|s| - 1].event == e && s[|s| - 1].key == k then 1 else 0)
  }

  /** `tick` keeps the bus invariant. */
  lemma {:induction false} TickPreservesWellFormed(r: Registries, q: seq<string>)
    requires WellFormed(r)
    ensures WellFormed(TickState(r, q))
    decreases |q|
  {
    if q != [] {
      TickPreservesWellFormed(r, q[..|q| - 1]);
      FireSpec(TickState(r, q[..|q| - 1]), q[|q| - 1]);
    }
  }

  /** Queued names without a registry are skipped: a queue of such names leaves
      the registries unchanged. */
  lemma {:induction false} TickSkipsUnknownNames(r: Registries, q: seq<string>)
    requires forall i :: 0 <= i < |q| ==> q[i] !in r
    ensures TickState(r, q) == r
    ensures forall e, k :: Times(r, q, e, k) == 0
    decreases |q|
  {
    if q != [] {
      TickSkipsUnknownNames(r, q[..|q| - 1]);
    }
  }

  /** `tick` adds no listener: a listener still pending after part of the queue
      was registered at the start, unchanged. */
  lemma {:induction false} TickNoNewListeners(r: Registries, q: seq<string>, e: string, k: nat)
    requires k in Pending(TickState(r, q), e)
    ensures k in Pending(r, e) && Pending(TickState(r, q), e)[k] == Pending(r, e)[k]
    decreases |q|
  {
    if q != [] {
      FireNoNewListeners(TickState(r, q[..|q| - 1]), q[|q| - 1], e);
      TickNoNewListeners(r, q[..|q| - 1], e, k);
    }
  }

  /** A listener not registered at the start of `tick` is never invoked. */
  lemma {:induction false} UnregisteredNeverFires(r: Registries, q: seq<string>, e: string, k: nat)
    requires k !in Pending(r, e)
    ensures Times(r, q, e, k) == 0
    decreases |q|
  {
    if q != [] {
      var p := q[..|q| - 1];
      UnregisteredNeverFires(r, p, e, k);
      if k in Pending(TickState(r, p), e) {
        TickNoNewListeners(r, p, e, k);
      }
    }
  }

  /** A persistent listener survives every dispatch of a tick. */
  lemma {:induction false} PersistentSurvives(r: Registries, q: seq<string>, e: string, k: nat)
    requires k in Pending(r, e) && Pending(r, e)[k].loop
    ensures k in Pending(TickState(r, q), e) && Pending(TickState(r, q), e)[k] == Pending(r, e)[k]
    decreases |q|
  {
    if q != [] {
      var p := q[..|q| - 1];
      PersistentSurvives(r, p, e, k);
      var s := TickState(r, p);
      if q[|q| - 1] == e {
        assert k in Kept(s[e].functions);
      }
    }
  }

  /** A persistent listener is invoked once per occurrence of its name in the
      queue; a name queued twice invokes it twice. */
  lemma {:induction false} PersistentFiresPerOccurrence(r: Registries, q: seq<string>, e: string, k: nat)
    requires k in Pending(r, e) && Pending(r, e)[k].loop
    ensures Times(r, q, e, k) == Occurrences(q, e)
    decreases |q|
  {
    if q != [] {
      var p := q[..|q| - 1];
      PersistentFiresPerOccurrence(r, p, e, k);
      PersistentSurvives(r, p, e, k);
    }
  }

  /** A one-shot listener is still registered after part of a tick exactly
      when its name has not yet been dispatched. */
  lemma {:induction false} OneShotGoneAfterDispatch(r: Registries, q: seq<string>, e: string, k: nat)
    requires k in Pending(r, e) && !Pending(r, e)[k].loop
    ensures k in Pending(TickState(r, q), e) <==> e !in q
    ensures k in Pending(TickState(r, q), e) ==> Pending(TickState(r, q), e)[k] == Pending(r, e)[k]
    decreases |q|
  {
    if q != [] {
      var p := q[..|q| - 1];
      OneShotGoneAfterDispatch(r, p, e, k);
      assert e in q <==> e in p || q[|q| - 1] == e by {
        assert q == p + [q[|q| - 1]];
      }
      var s := TickState(r, p);
      if k in Pending(TickState(r, q), e) {
        TickNoNewListeners(r, q, e, k);
      }
      if q[|q| - 1] == e && e in s {
        assert k !in Kept(s[e].functions);
      }
    }
  }

  /** A one-shot listener is invoked exactly once by a tick whose queue holds
      its name, however often, and never otherwise; it is gone afterwards. */
  lemma {:induction false} OneShotFiresOnce(r: Registries, q: seq<string>, e: string, k: nat)
    requires k in Pending(r, e) && !Pending(r, e)[k].loop
    ensures Times(r, q, e, k) == if e in q then 1 else 0
    ensures e in q ==> k !in Pending(TickState(r, q), e)
    decreases |q|
  {
    OneShotGoneAfterDispatch(r, q, e, k);
    if q != [] {
      var p := q[..|q| - 1];
      OneShotFiresOnce(r, p, e, k);
      OneShotGoneAfterDispatch(r, p, e, k);
      assert e in q <==> e in p || q[|q| - 1] == e by {
        assert q == p + [q[|q| - 1]];
      }
    }
  }

  // ---------------------------------------------------------------------------
  // From recorded dispatch passes to invocation counts

  lemma {:induction false} CountCallsAppend(s: seq<Call>, t: seq<Call>, e: string, k: nat)
    ensures CountCalls(s + t, e, k) == CountCalls(s, e, k) + CountCalls(t, e, k)
    decreases |t|
  {
    if t == [] {
      assert s + t == s;
    } else {
      assert (s + t)[..|s + t| - 1] == s + t[..|t| - 1];
      CountCallsAppend(s, t[..|t| - 1], e, k);
    }
  }

  lemma {:induction false} CountCallsAbsent(s: seq<Call>, e: string, k: nat)
    requires forall i :: 0 <= i < |s| ==> !(s[i].event == e && s[i].key == k)
    ensures CountCalls(s, e, k) == 0
    decreases |s|
  {
    if s != [] {
      CountCallsAbsent(s[..|s| - 1], e, k);
    }
  }

  lemma {:induction false} CountCallsDistinct(s: seq<Call>, e: string, k: nat, i: nat)
    requires forall a, b :: 0 <= a < b < |s| ==> s[a].key != s[b].key
    requires i < |s| && s[i].event == e && s[i].key == k
    ensures CountCalls(s, e, k) == 1
    decreases |s|
  {
    var p := s[..|s| - 1];
    if i == |s| - 1 {
      CountCallsAbsent(p, e, k);
    } else {
      CountCallsDistinct(p, e, k, i);
    }
  }

  /** A pass that invokes every listener of `fs` once invokes each of them
      exactly once and nothing else. */
  lemma InvokedOnceCounts(seg: seq<Call>, d: string, fs: map<nat, Listener>, e: string, k: nat)
    requires InvokedOnce(seg, d, fs)
    ensures CountCalls(seg, e, k) == if e == d && k in fs then 1 else 0
  {
    if e == d && k in fs {
      assert Call(d, k, fs[k].action) in seg;
      var i :| 0 <= i < |seg| && seg[i] == Call(d, k, fs[k].action);
      CountCallsDistinct(seg, e, k, i);
    } else {
      CountCallsAbsent(seg, e, k);
    }
  }

  /** The recorded passes of a tick over `q`: one per occurrence, in queue
      order, each invoking exactly the listeners pending when its name is
      reached. */
  ghost predicate TickPasses(passes: seq<seq<Call>>, r: Registries, q: seq<string>)
    decreases |q|
  {
    && |passes| == |q|
    && (q != [] ==>
         var n := |q| - 1;
         && TickPasses(passes[..n], r, q[..n])
         && InvokedOnce(passes[n], q[n], Pending(TickState(r, q[..n]), q[n])))
  }

  /** Dispatching one more queued name extends the recorded passes. */
  lemma TickPassesExtend(passes: seq<seq<Call>>, r: Registries, q: seq<string>, seg: seq<Call>, e: string)
    requires TickPasses(passes, r, q)
    requires InvokedOnce(seg, e, Pending(TickState(r, q), e))
    ensures TickPasses(passes + [seg], r, q + [e])
    ensures TickState(r, q + [e]) == Fire(TickState(r, q), e)
    ensures Flatten(passes + [seg]) == Flatten(passes) + seg
  {
    assert (q + [e])[..|q|] == q;
    assert (passes + [seg])[..|passes|] == passes;
  }

  /** The passes of a tick invoke every listener `Times` times. */
  lemma {:induction false} TickCounts(passes: seq<seq<Call>>, r: Registries, q: seq<string>, e: string, k: nat)
    requires TickPasses(passes, r, q)
    ensures CountCalls(Flatten(passes), e, k) == Times(r, q, e, k)
    decreases |q|
  {
    if q != [] {
      var n := |q| - 1;
      TickCounts(passes[..n], r, q[..n], e, k);
      CountCallsAppend(Flatten(passes[..n]), passes[n], e, k);
      InvokedOnceCounts(passes[n], q[n], Pending(TickState(r, q[..n]), q[n]), e, k);
    }
  }
}
