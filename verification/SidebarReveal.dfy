/** The reveal transition: a reducer, the target the component remembers, and the timer that settles it. */
module SidebarReveal {
  import opened Wrappers

  datatype Target = Expanded | Collapsed

  datatype Transition = Transition(target: Target, layout: Target, resizing: bool)

  datatype Action = Begin(target: Target) | Settle(target: Target) | Sync(target: Target)

  /** `sidebarRevealTransitionReducer` */
  function Reduce(s: Transition, a: Action): Transition {
    match a
    case Sync(t) => Transition(t, t, false)
    case Begin(t) => Transition(t, if t.Expanded? then Expanded else s.layout, true)
    case Settle(t) => if t != s.target then s else Transition(t, t, false)
  }

  /** hoverReveal and visual: what the layout effect depends on, as of its last run. timer: the target a pending timer will settle. */
  datatype Reveal = Reveal(
    transition: Transition,
    targetRef: Target,
    timer: Option<Target>,
    hoverReveal: bool,
    visual: Target)

  datatype Event =
    | Render(hoverReveal: bool, visual: Target, reducedMotion: bool)
    | TransitionEnd
    | TimerFires
    | Reshown(reducedMotion: bool)

  function Settled(s: Reveal, t: Target): Reveal {
    s.(timer := None, transition := Reduce(s.transition, Settle(t)))
  }

  /** The layout effect. */
  function Effect(s: Reveal, hoverReveal: bool, visual: Target, reducedMotion: bool): Reveal {
    var s' := s.(timer := None, hoverReveal := hoverReveal, visual := visual);
    if !hoverReveal || reducedMotion then
      s'.(targetRef := visual, transition := Reduce(s.transition, Sync(visual)))
    else if s.targetRef == visual then s'
    else s'.(targetRef := visual, transition := Reduce(s.transition, Begin(visual)), timer := Some(visual))
  }

  predicate Enabled(s: Reveal, e: Event) {
    e.TimerFires? ==> s.timer.Some?
  }

  function Next(s: Reveal, e: Event): Reveal
    requires Enabled(s, e)
  {
    match e
    case Render(hoverReveal, visual, reducedMotion) =>
      // effects run when a dependency changed
      if hoverReveal == s.hoverReveal && visual == s.visual then s else Effect(s, hoverReveal, visual, reducedMotion)
    case TransitionEnd => if s.hoverReveal then Settled(s, s.targetRef) else s
    case TimerFires => Settled(s, s.timer.value)
    case Reshown(reducedMotion) =>
      // a boundary around the sidebar hid its content and shows it again: layout effects run unasked
      Effect(s, s.hoverReveal, s.visual, reducedMotion)
  }

  /** The effect runs again in the middle of a transition, and motion is allowed. */
  predicate Interrupts(s: Reveal, e: Event) {
    e.Reshown? && s.transition.resizing && !e.reducedMotion
  }

  ghost predicate Inv(s: Reveal) {
    && s.transition.target == s.targetRef == s.visual
    && (s.transition.resizing <==> s.timer.Some?)
    && (s.timer.Some? ==> s.timer.value == s.targetRef && s.hoverReveal)
    && (s.transition.layout.Collapsed? ==> s.transition.target.Collapsed?)
    && (!s.transition.resizing ==> s.transition.layout == s.transition.target)
  }

  /** The first render, its effect included. */
  function Mounted(hoverReveal: bool, visual: Target, reducedMotion: bool): Reveal {
    Effect(Reveal(Transition(visual, visual, false), visual, None, hoverReveal, visual), hoverReveal, visual, reducedMotion)
  }

  /** A step keeps all this exactly when it does not run the effect in the middle of a transition. */
  lemma StepKeeps(s: Reveal, e: Event)
    requires Inv(s) && Enabled(s, e)
    ensures Inv(Next(s, e)) <==> !Interrupts(s, e)
  {
  }

  ghost predicate IsRun(states: seq<Reveal>, events: seq<Event>) {
    && |states| == |events| + 1
    && (exists hoverReveal, visual, reduced :: states[0] == Mounted(hoverReveal, visual, reduced))
    && forall i :: 0 <= i < |events| ==> Enabled(states[i], events[i]) && states[i + 1] == Next(states[i], events[i])
  }

  /** No interruption before state n; without a Reshown event there is none at all. */
  ghost predicate Uninterrupted(states: seq<Reveal>, events: seq<Event>, n: nat)
    requires n <= |events| < |states|
  {
    forall k :: 0 <= k < n ==> !Interrupts(states[k], events[k])
  }

  lemma {:induction false} RunKeeps(states: seq<Reveal>, events: seq<Event>, i: nat)
    requires IsRun(states, events) && i <= |events| && Uninterrupted(states, events, i)
    ensures Inv(states[i])
  {
    if i > 0 {
      RunKeeps(states, events, i - 1);
      StepKeeps(states[i - 1], events[i - 1]);
    }
  }

  /**
   * Over every run: the reducer's target is the remembered one and the one shown, the sidebar is
   * resizing exactly while a timer will settle that very target, and the children are laid out
   * collapsed only when the shell is to be collapsed.
   */
  lemma NeverSticks(states: seq<Reveal>, events: seq<Event>, i: nat)
    requires IsRun(states, events) && i <= |events| && Uninterrupted(states, events, i)
    ensures states[i].transition.target == states[i].targetRef == states[i].visual
    ensures states[i].transition.resizing <==> states[i].timer == Some(states[i].visual)
    ensures states[i].timer.Some? ==> states[i].timer == Some(states[i].visual)
    ensures states[i].transition.layout.Collapsed? ==> states[i].visual.Collapsed?
    ensures !states[i].transition.resizing ==> states[i].transition.layout == states[i].visual
  {
    RunKeeps(states, events, i);
  }

  /** Resizing, with no timer that would ever end it. */
  predicate Stuck(s: Reveal) {
    s.transition.resizing && s.timer.None?
  }

  /** A run reaches such a state exactly when the effect runs again in the middle of a transition. */
  lemma SticksExactly(states: seq<Reveal>, events: seq<Event>)
    requires IsRun(states, events)
    ensures (exists i :: 0 <= i < |states| && Stuck(states[i])) <==> !Uninterrupted(states, events, |events|)
  {
    if Uninterrupted(states, events, |events|) {
      forall i | 0 <= i < |states|
        ensures !Stuck(states[i])
      {
        RunKeeps(states, events, i);
      }
    } else {
      var k :| 0 <= k < |events| && Interrupts(states[k], events[k]);
      var i := InterruptionSticks(states, events, k);
    }
  }

  /** The first interruption finds a timer and takes it away. */
  lemma {:induction false} InterruptionSticks(states: seq<Reveal>, events: seq<Event>, k: nat) returns (i: nat)
    requires IsRun(states, events) && k < |events| && Interrupts(states[k], events[k])
    ensures i < |states| && Stuck(states[i])
  {
    if Uninterrupted(states, events, k) {
      RunKeeps(states, events, k);
      i := k + 1;
    } else {
      var j :| 0 <= j < k && Interrupts(states[j], events[j]);
      i := InterruptionSticks(states, events, j);
    }
  }

  /** Mounted collapsed, hovered, and shown again before the transition ends. */
  lemma ReshowingSticks() returns (states: seq<Reveal>, events: seq<Event>)
    ensures IsRun(states, events) && Stuck(states[|events|])
  {
    events := [Render(true, Expanded, false), Reshown(false)];
    var s0 := Mounted(true, Collapsed, false);
    var s1 := Next(s0, events[0]);
    states := [s0, s1, Next(s1, events[1])];
  }

  /** What a render does to the transition, when something it depends on changed. */
  lemma RenderExplained(states: seq<Reveal>, events: seq<Event>, i: nat, hoverReveal: bool, visual: Target, reducedMotion: bool)
    requires IsRun(states, events) && i <= |events| && Uninterrupted(states, events, i)
    ensures var s := states[i];
      var s' := Next(s, Render(hoverReveal, visual, reducedMotion));
      if hoverReveal == s.hoverReveal && visual == s.visual then s' == s
      else if !hoverReveal || reducedMotion || visual == s.visual then
        // no animation: laid out as shown, at once
        s'.transition == Transition(visual, visual, false) && s'.timer == None && s'.visual == visual
      else
        // expanding is laid out at once, collapsing only when it is done
        s'.transition.resizing && s'.timer == Some(visual) && s'.visual == visual
        && s'.transition.layout == if visual.Expanded? then Expanded else s.transition.layout
  {
    RunKeeps(states, events, i);
  }

  /** The sidebar is first shown without a transition. */
  lemma MountedAtRest(states: seq<Reveal>, events: seq<Event>)
    requires IsRun(states, events)
    ensures states[0].transition == Transition(states[0].visual, states[0].visual, false) && states[0].timer == None
  {
  }

  /** A settle for a target that is no longer wanted changes nothing. */
  lemma StaleSettleIgnored(states: seq<Reveal>, events: seq<Event>, i: nat, t: Target)
    requires IsRun(states, events) && i <= |events| && Uninterrupted(states, events, i) && t != states[i].visual
    ensures Reduce(states[i].transition, Settle(t)) == states[i].transition
  {
    RunKeeps(states, events, i);
  }

  /** Either way a transition ends, by event or by timer, it ends laid out as its target, whenever it was started. */
  lemma EveryTransitionSettles(states: seq<Reveal>, events: seq<Event>, i: nat)
    requires IsRun(states, events) && i <= |events| && Uninterrupted(states, events, i) && states[i].transition.resizing
    ensures Enabled(states[i], TimerFires) && Next(states[i], TimerFires) == Next(states[i], TransitionEnd)
    ensures Next(states[i], TimerFires).transition == Transition(states[i].visual, states[i].visual, false)
  {
    RunKeeps(states, events, i);
  }

  class RevealTransition {
    var transition: Transition
    var transitionTarget: Target
    var transitionTimer: Option<Target>
    ghost var hoverReveal: bool
    ghost var visual: Target

    ghost function State(): Reveal
      reads this
    {
      Reveal(transition, transitionTarget, transitionTimer, hoverReveal, visual)
    }

    constructor (visual: Target)
      ensures State() == Reveal(Transition(visual, visual, false), visual, None, false, visual)
    {
      transition := Transition(visual, visual, false);
      transitionTarget, transitionTimer := visual, None;
      hoverReveal, this.visual := false, visual;
    }

    method Dispatch(a: Action)
      modifies this`transition
      ensures transition == Reduce(old(transition), a)
    {
      transition := Reduce(transition, a);
    }

    method SettleTransition(t: Target)
      modifies this`transition, this`transitionTimer
      ensures State() == Settled(old(State()), t)
    {
      transitionTimer := None;
      Dispatch(Settle(t));
    }

    method LayoutEffect(nowHoverReveal: bool, nowVisual: Target, reducedMotion: bool)
      modifies this
      ensures State() == Effect(old(State()), nowHoverReveal, nowVisual, reducedMotion)
    {
      transitionTimer := None;
      hoverReveal, visual := nowHoverReveal, nowVisual;
      if !nowHoverReveal || reducedMotion {
        transitionTarget := nowVisual;
        Dispatch(Sync(nowVisual));
        return;
      }
      if transitionTarget == nowVisual {
        return;
      }
      transitionTarget := nowVisual;
      Dispatch(Begin(nowVisual));
      transitionTimer := Some(nowVisual);
    }
  }
}
