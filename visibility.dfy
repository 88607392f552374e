/** Which anchors are shown: the state kept by main's event handlers (the
    index of the target last found, and each anchor's visible flag) and the
    four events that change it. */
module Visibility {
  import opened Wrappers

  datatype State = State(active: Option<nat>, visible: seq<bool>)

  /** `targetFound` and `targetLost` on anchor `i`, and the Start and Stop
      buttons; `trackerReady` is whether the tracking system exists (both
      buttons return early without it). */
  datatype Event = Found(i: nat) | Lost(i: nat) | Start(trackerReady: bool) | Stop(trackerReady: bool)

  function AllHidden(n: nat): (flags: seq<bool>)
    ensures |flags| == n && forall j :: 0 <= j < n ==> !flags[j]
  {
    seq(n, j => false)
  }

  /** After the build: no active target, every anchor hidden. */
  function Initial(n: nat): State {
    State(None, AllHidden(n))
  }

  /** The anchor count never changes. */
  function Step(s: State, e: Event): (t: State)
    ensures |t.visible| == |s.visible|
  {
    match e
    case Found(i) => State(Some(i), seq(|s.visible|, j => j == i))
    case Lost(i) =>
      if s.active == Some(i) then
        State(None, if i < |s.visible| then s.visible[i := false] else s.visible)
      else s
    case Start(ready) => if ready then State(s.active, AllHidden(|s.visible|)) else s
    case Stop(ready) => if ready then State(None, AllHidden(|s.visible|)) else s
  }

  function Run(s: State, es: seq<Event>): State
    decreases |es|
  {
    if es == [] then s else Run(Step(s, es[0]), es[1..])
  }

  /** Only the active target's anchor can be visible. */
  predicate Inv(s: State) {
    forall j :: 0 <= j < |s.visible| && s.visible[j] ==> s.active == Some(j)
  }

  function VisibleSet(s: State): set<nat> {
    set j: nat | j < |s.visible| && s.visible[j]
  }

  function ActiveSet(s: State): set<nat> {
    if s.active.Some? then {s.active.value} else {}
  }

  lemma InitialInv(n: nat)
    ensures Inv(Initial(n)) && |Initial(n).visible| == n
  {
  }

  lemma StepKeepsInv(s: State, e: Event)
    requires Inv(s)
    ensures Inv(Step(s, e)) && |Step(s, e).visible| == |s.visible|
  {
  }

  /** Whatever events arrive, the invariant holds and the number of anchors
      stays the same. */
  lemma {:induction false} RunKeepsInv(s: State, es: seq<Event>)
    requires Inv(s)
    ensures Inv(Run(s, es)) && |Run(s, es).visible| == |s.visible|
    decreases |es|
  {
    if es != [] {
      StepKeepsInv(s, es[0]);
      RunKeepsInv(Step(s, es[0]), es[1..]);
    }
  }

  /** Starting from the state after the build, after any sequence of events
      the visible anchors are a subset of `{activeIndex}`. */
  lemma VisibleWithinActive(n: nat, es: seq<Event>)
    ensures VisibleSet(Run(Initial(n), es)) <= ActiveSet(Run(Initial(n), es))
  {
    InitialInv(n);
    RunKeepsInv(Initial(n), es);
  }

  /** Under the invariant at most one anchor is visible. */
  lemma AtMostOneVisible(s: State, j: nat, k: nat)
    requires Inv(s)
    requires j < |s.visible| && k < |s.visible| && s.visible[j] && s.visible[k]
    ensures j == k
  {
  }

  /** `targetFound(i)` shows anchor `i` and hides every other. */
  lemma FoundShowsOnly(s: State, i: nat)
    requires i < |s.visible|
    ensures Step(s, Found(i)).active == Some(i)
    ensures VisibleSet(Step(s, Found(i))) == {i}
  {
    var t := Step(s, Found(i));
    assert i in VisibleSet(t);
  }

  /** `targetLost(i)` for a target that is not the active one changes nothing;
      for the active one it clears the active target and, under the
      invariant, leaves no anchor visible. */
  lemma LostEffect(s: State, i: nat)
    requires Inv(s)
    ensures s.active != Some(i) ==> Step(s, Lost(i)) == s
    ensures s.active == Some(i) ==> Step(s, Lost(i)).active == None && VisibleSet(Step(s, Lost(i))) == {}
  {
    if s.active == Some(i) {
      var t := Step(s, Lost(i));
      forall j | j in VisibleSet(t) ensures false { }
    }
  }

  /** Stop hides every anchor and clears the active target; Start hides every
      anchor and keeps it. Neither does anything without a tracking system. */
  lemma StartStopEffect(s: State, ready: bool)
    ensures ready ==> VisibleSet(Step(s, Stop(ready))) == {} && Step(s, Stop(ready)).active == None
    ensures ready ==> VisibleSet(Step(s, Start(ready))) == {} && Step(s, Start(ready)).active == s.active
    ensures !ready ==> Step(s, Stop(ready)) == s && Step(s, Start(ready)) == s
  {
    if ready {
      forall j | j in VisibleSet(Step(s, Stop(ready))) ensures false { }
      forall j | j in VisibleSet(Step(s, Start(ready))) ensures false { }
    }
  }
}
