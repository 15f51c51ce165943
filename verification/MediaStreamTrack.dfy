/**
 Notifier (api/notifier.h) and MediaStreamTrack (pc/media_stream_track.h): who is told of a change.
 A callback may register and unregister observers while the notification runs; `Reaction` says what each
 does, given the observer and the number of calls made before. Callbacks do not call the track's setters.
 */
module MediaStreamTracks {
  import opened Common

  type Observer = nat

  datatype Edit = Register(observer: Observer) | Unregister(observer: Observer)

  type Reaction = (Observer, nat) -> seq<Edit>

  datatype TrackState = Live | Ended

  function Apply(observers: seq<Observer>, edits: seq<Edit>): seq<Observer> {
    if edits == [] then observers
    else
      var before := Apply(observers, edits[..|edits| - 1]);
      match edits[|edits| - 1]
      case Register(o) => before + [o]
      case Unregister(o) => EraseFirst(before, o)
  }

  /** The observers once those in `called` have been called, `n` calls having been made before. */
  function Reacted(observers: seq<Observer>, called: seq<Observer>, n: nat, react: Reaction): seq<Observer> {
    if called == [] then observers
    else
      var last := |called| - 1;
      Apply(Reacted(observers, called[..last], n, react), react(called[last], n + last))
  }

  class MediaStreamTrack {
    var observers: seq<Observer>
    var enabled: bool
    var state: TrackState
    var calls: seq<Observer>    // the OnChanged calls made so far

    ghost function View(): Track
      reads this
    {
      Track(observers, enabled, state, calls)
    }

    constructor ()
      ensures View() == Track([], true, Live, [])
    {
      observers, enabled, state, calls := [], true, Live, [];
    }

    method RegisterObserver(o: Observer)
      modifies this`observers
      ensures observers == old(observers) + [o]
      ensures View() == Step(old(View()), RegisterOp(o))
    {
      observers := observers + [o];
    }

    method UnregisterObserver(o: Observer)
      modifies this`observers
      ensures observers == EraseFirst(old(observers), o)
      ensures View() == Step(old(View()), UnregisterOp(o))
    {
      var it := 0;
      while it < |observers|
        invariant 0 <= it <= |observers| && observers == old(observers) && o !in observers[..it]
      {
        if observers[it] == o {
          EraseFirstSkips(observers, o, it);
          observers := observers[..it] + observers[it + 1..];
          return;
        }
        it := it + 1;
      }
      EraseFirstSkips(observers, o, it);
    }

    method OnChanged(o: Observer, react: Reaction)
      modifies this`observers, this`calls
      ensures calls == old(calls) + [o]
      ensures observers == Apply(old(observers), react(o, |old(calls)|))
    {
      var edits := react(o, |calls|);
      calls := calls + [o];
      for i := 0 to |edits|
        invariant observers == Apply(old(observers), edits[..i]) && calls == old(calls) + [o]
      {
        assert edits[..i + 1][..i] == edits[..i];
        match edits[i] {
          case Register(x) => RegisterObserver(x);
          case Unregister(x) => UnregisterObserver(x);
        }
      }
      assert edits[..|edits|] == edits;
    }

    /** Calls exactly the observers registered at the start, in order, whatever the callbacks do to the list. */
    method FireOnChanged(react: Reaction)
      modifies this`observers, this`calls
      ensures calls == old(calls) + old(observers)
      ensures observers == Reacted(old(observers), old(observers), |old(calls)|, react)
    {
      var copy := observers;
      for it := 0 to |copy|
        invariant calls == old(calls) + copy[..it]
        invariant observers == Reacted(old(observers), copy[..it], |old(calls)|, react)
      {
        assert copy[..it + 1][..it] == copy[..it];
        OnChanged(copy[it], react);
      }
      assert copy[..|copy|] == copy;
    }

    method SetEnabled(enable: bool, react: Reaction) returns (changed: bool)
      modifies this
      ensures changed <==> enable != old(enabled)
      ensures enabled == enable && state == old(state)
      ensures calls == old(calls) + if changed then old(observers) else []
      ensures View() == Step(old(View()), SetEnabledOp(enable, react))
    {
      changed := enable != enabled;
      enabled := enable;
      if changed {
        FireOnChanged(react);
      }
    }

    method SetState(newState: TrackState, react: Reaction) returns (result: bool)
      modifies this
      ensures result
      ensures state == newState && enabled == old(enabled)
      ensures calls == old(calls) + if newState != old(state) then old(observers) else []
      ensures View() == Step(old(View()), SetStateOp(newState, react))
    {
      var changed := state != newState;
      state := newState;
      if changed {
        FireOnChanged(react);
      }
      return true;
    }
  }

  // ---- Over every run ----

  datatype Track = Track(observers: seq<Observer>, enabled: bool, state: TrackState, calls: seq<Observer>)

  datatype Operation =
    | RegisterOp(observer: Observer)
    | UnregisterOp(observer: Observer)
    | SetEnabledOp(enable: bool, react: Reaction)
    | SetStateOp(newState: TrackState, react: Reaction)

  /** The operation really changes the track. */
  predicate Changes(t: Track, op: Operation) {
    (op.SetEnabledOp? && op.enable != t.enabled) || (op.SetStateOp? && op.newState != t.state)
  }

  function Step(t: Track, op: Operation): Track {
    match op
    case RegisterOp(o) => t.(observers := t.observers + [o])
    case UnregisterOp(o) => t.(observers := EraseFirst(t.observers, o))
    case SetEnabledOp(e, react) => Notified(t.(enabled := e), e != t.enabled, react)
    case SetStateOp(s, react) => Notified(t.(state := s), s != t.state, react)
  }

  function Notified(t: Track, fire: bool, react: Reaction): Track {
    if fire
    then t.(calls := t.calls + t.observers, observers := Reacted(t.observers, t.observers, |t.calls|, react))
    else t
  }

  function After(t: Track, ops: seq<Operation>): Track
    decreases |ops|
  {
    if ops == [] then t else After(Step(t, ops[0]), ops[1..])
  }

  /** The observer's registrations, summed over the operations that really changed the track. */
  ghost function OwedCalls(t: Track, ops: seq<Operation>, o: Observer): nat
    decreases |ops|
  {
    if ops == [] then 0
    else (if Changes(t, ops[0]) then multiset(t.observers)[o] else 0) + OwedCalls(Step(t, ops[0]), ops[1..], o)
  }

  /** Each observer is called once per registration and change, over every run. */
  lemma {:induction false} CallsAreOwed(t: Track, ops: seq<Operation>, o: Observer)
    ensures multiset(After(t, ops).calls)[o] == multiset(t.calls)[o] + OwedCalls(t, ops, o)
    decreases |ops|
  {
    if ops != [] {
      CallsAreOwed(Step(t, ops[0]), ops[1..], o);
    }
  }

  /** The argument of the last call of set_enabled, if there was one. */
  function LastEnabled(ops: seq<Operation>, before: bool): bool {
    if ops == [] then before
    else if ops[|ops| - 1].SetEnabledOp? then ops[|ops| - 1].enable
    else LastEnabled(ops[..|ops| - 1], before)
  }

  function LastState(ops: seq<Operation>, before: TrackState): TrackState {
    if ops == [] then before
    else if ops[|ops| - 1].SetStateOp? then ops[|ops| - 1].newState
    else LastState(ops[..|ops| - 1], before)
  }

  lemma {:induction false} AfterSnoc(t: Track, ops: seq<Operation>, op: Operation)
    ensures After(t, ops + [op]) == Step(After(t, ops), op)
    decreases |ops|
  {
    if ops == [] {
      assert ([] + [op])[1..] == [];
    } else {
      assert (ops + [op])[1..] == ops[1..] + [op];
      AfterSnoc(Step(t, ops[0]), ops[1..], op);
    }
  }

  /** Over every run the track holds what the last call of each setter asked for, whatever the callbacks did. */
  lemma {:induction false} LastSetterWins(t: Track, ops: seq<Operation>)
    ensures After(t, ops).enabled == LastEnabled(ops, t.enabled)
    ensures After(t, ops).state == LastState(ops, t.state)
  {
    if ops != [] {
      var front, last := ops[..|ops| - 1], ops[|ops| - 1];
      assert ops == front + [last];
      AfterSnoc(t, front, last);
      LastSetterWins(t, front);
    }
  }

  // ---- Callbacks that register and unregister ----

  function AsCall(e: Edit): Operation {
    match e
    case Register(o) => RegisterOp(o)
    case Unregister(o) => UnregisterOp(o)
  }

  function AsCalls(edits: seq<Edit>): seq<Operation> {
    if edits == [] then [] else AsCalls(edits[..|edits| - 1]) + [AsCall(edits[|edits| - 1])]
  }

  /** Everything that the callbacks of the called observers do, in order. */
  function AllEdits(called: seq<Observer>, n: nat, react: Reaction): seq<Edit> {
    if called == [] then []
    else
      var last := |called| - 1;
      AllEdits(called[..last], n, react) + react(called[last], n + last)
  }

  lemma {:induction false} ApplyAppend(observers: seq<Observer>, a: seq<Edit>, b: seq<Edit>)
    ensures Apply(observers, a + b) == Apply(Apply(observers, a), b)
  {
    if b == [] {
      assert a + b == a;
    } else {
      assert (a + b)[..|a + b| - 1] == a + b[..|b| - 1];
      ApplyAppend(observers, a, b[..|b| - 1]);
    }
  }

  lemma {:induction false} ReactedIsAllEdits(observers: seq<Observer>, called: seq<Observer>, n: nat, react: Reaction)
    ensures Reacted(observers, called, n, react) == Apply(observers, AllEdits(called, n, react))
  {
    if called != [] {
      var last := |called| - 1;
      ReactedIsAllEdits(observers, called[..last], n, react);
      ApplyAppend(observers, AllEdits(called[..last], n, react), react(called[last], n + last));
    }
  }

  lemma {:induction false} EditsAreCalls(t: Track, edits: seq<Edit>)
    ensures After(t, AsCalls(edits)) == t.(observers := Apply(t.observers, edits))
  {
    if edits != [] {
      EditsAreCalls(t, edits[..|edits| - 1]);
      AfterSnoc(t, AsCalls(edits[..|edits| - 1]), AsCall(edits[|edits| - 1]));
    }
  }

  /**
   What the callbacks register and unregister during a notification takes effect just as if the same calls were
   made, in the same order, once the notification is over.
   */
  lemma {:induction false} NotificationThenEdits(t: Track, op: Operation)
    requires Changes(t, op)
    ensures var stored := if op.SetEnabledOp? then t.(enabled := op.enable) else t.(state := op.newState);
            Step(t, op) == After(stored.(calls := t.calls + t.observers),
                                 AsCalls(AllEdits(t.observers, |t.calls|, op.react)))
  {
    var stored := if op.SetEnabledOp? then t.(enabled := op.enable) else t.(state := op.newState);
    ReactedIsAllEdits(t.observers, t.observers, |t.calls|, op.react);
    EditsAreCalls(stored.(calls := t.calls + t.observers), AllEdits(t.observers, |t.calls|, op.react));
  }
}
