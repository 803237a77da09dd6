/** FSM: the current state of a game and the append-only record of the
    states it went through, each stamped with the clock reading at entry. */
module StateMachine {
  import opened Wrappers

  /** FSM.Transition: a state and when it was entered. */
  datatype Transition<T> = Transition(state: T, time: nat)

  /** No two consecutive entries record the same state. */
  predicate NoStutter<T(==)>(h: seq<Transition<T>>)
  {
    forall i :: 0 < i < |h| ==> h[i - 1].state != h[i].state
  }

  /** The history after FSM.Set(s) at time now: one entry more unless s is
      already the current state. */
  function Recorded<T(==)>(h: seq<Transition<T>>, s: T, now: nat): (r: seq<Transition<T>>)
    requires |h| > 0
    ensures |r| > 0 && r[|r| - 1].state == s
    ensures h[|h| - 1].state == s ==> r == h
    ensures h[|h| - 1].state != s ==> r == h + [Transition(s, now)]
    ensures NoStutter(h) ==> NoStutter(r)
  {
    if h[|h| - 1].state == s then h else h + [Transition(s, now)]
  }

  /** FSM<T>: the current state and its history. The clock (ITimestamp in
      the current engine, Godot's tick counter in the legacy one) is read by
      the caller and passed in as now. */
  class Fsm<T(==)> {
    var current: T
    var history: seq<Transition<T>>

    /** History is never empty, ends in the current state and never
        repeats a state twice in a row. */
    ghost predicate Valid()
      reads this
    {
      |history| > 0 && history[|history| - 1].state == current && NoStutter(history)
    }

    constructor (initial: T, now: nat)
      ensures Valid()
      ensures current == initial && history == [Transition(initial, now)]
    {
      current := initial;
      history := [Transition(initial, now)];
    }

    /** FSM.Set: nothing happens when s is the current state; otherwise s
        is recorded and becomes current, and the state-changed notification
        carries s. The notification is returned for the owner to run. */
    method Set(s: T, now: nat) returns (notified: Option<T>)
      requires Valid()
      modifies this
      ensures Valid()
      ensures current == s
      ensures history == Recorded(old(history), s, now)
      ensures notified == if old(current) == s then None else Some(s)
    {
      if current == s {
        return None;
      }
      history := history + [Transition(s, now)];
      current := s;
      notified := Some(s);
    }
  }
}
