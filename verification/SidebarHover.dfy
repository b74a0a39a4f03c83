/** The sidebar that expands under the pointer: hover locks with their collapse timer, and the reveal transition. */
module SidebarHover {
  // ---- locks and the collapse timer ----

  /**
   * released: one flag per lock closure ever handed out. hoverable: expandOnHover on an icon
   * sidebar outside mobile; pinned: the sidebar is open anyway.
   */
  datatype Hover = Hover(
    expanded: bool,
    timer: bool,
    locks: nat,
    pointerInside: bool,
    released: seq<bool>,
    hoverable: bool,
    pinned: bool)

  datatype Event =
    | Enter(mouse: bool)
    | Leave(mouse: bool)
    | Acquire
    | Release(closure: nat)
    | Collapse
    | Configure(hoverable: bool, pinned: bool)

  predicate Enabled(s: Hover, e: Event) {
    match e
    case Release(k) => k < |s.released|
    case Collapse => s.timer
    case _ => true
  }

  function Decremented(n: nat): nat {
    if n > 0 then n - 1 else 0
  }

  function Next(s: Hover, e: Event): Hover
    requires Enabled(s, e)
  {
    match e
    case Enter(mouse) =>
      s.(pointerInside := true, timer := false, expanded := s.expanded || (s.hoverable && mouse && !s.pinned))
    case Leave(mouse) =>
      s.(pointerInside := false, timer := s.timer || (s.hoverable && mouse && s.locks == 0))
    case Acquire =>
      s.(locks := s.locks + 1, timer := false, released := s.released + [false])
    case Release(k) =>
      if s.released[k] then s
      else
        var locks := Decremented(s.locks);
        s.(released := s.released[k := true], locks := locks, timer := s.timer || (locks == 0 && !s.pointerInside))
    case Collapse => s.(timer := false, expanded := false)
    case Configure(hoverable, pinned) =>
      var s' := s.(hoverable := hoverable, pinned := pinned);
      if pinned || !hoverable then s'.(timer := false, expanded := false) else s'
  }

  /** Closures handed out and not yet released. */
  function Held(released: seq<bool>): nat {
    if released == [] then 0
    else Held(released[..|released| - 1]) + (if released[|released| - 1] then 0 else 1)
  }

  lemma {:induction false} HeldUpdate(released: seq<bool>, k: nat)
    requires k < |released| && !released[k]
    ensures Held(released) == Held(released[k := true]) + 1
  {
    var n := |released| - 1;
    if k == n {
      assert released[k := true][..n] == released[..n];
    } else {
      assert released[k := true][..n] == released[..n][k := true];
      HeldUpdate(released[..n], k);
    }
  }

  ghost predicate Inv(s: Hover) {
    && s.locks == Held(s.released)
    && (s.timer ==> !s.pointerInside && s.locks == 0)
    && (s.expanded ==> s.hoverable && !s.pinned)
  }

  const FRESH := Hover(false, false, 0, false, [], false, false)

  /**
   * Any number of lock closures, released in any order and any number of times: the counter is
   * the number still held, the clamp at zero never acts, and an armed timer means nobody is there.
   */
  lemma StepKeeps(s: Hover, e: Event)
    requires Inv(s) && Enabled(s, e)
    ensures Inv(Next(s, e))
    ensures e.Release? && !s.released[e.closure] ==> s.locks > 0
    ensures e.Release? && s.released[e.closure] ==> Next(s, e) == s
  {
    match e
    case Acquire =>
      assert (s.released + [false])[..|s.released|] == s.released;
    case Release(k) =>
      if !s.released[k] {
        HeldUpdate(s.released, k);
      }
    case _ =>
  }

  ghost predicate IsRun(states: seq<Hover>, events: seq<Event>) {
    && |states| == |events| + 1
    && states[0] == FRESH
    && forall i :: 0 <= i < |events| ==> Enabled(states[i], events[i]) && states[i + 1] == Next(states[i], events[i])
  }

  lemma {:induction false} RunKeeps(states: seq<Hover>, events: seq<Event>, i: nat)
    requires IsRun(states, events) && i <= |events|
    ensures Inv(states[i])
  {
    if i > 0 {
      RunKeeps(states, events, i - 1);
      StepKeeps(states[i - 1], events[i - 1]);
    }
  }

  lemma LocksAreCounted(states: seq<Hover>, events: seq<Event>, i: nat)
    requires IsRun(states, events) && i <= |events|
    ensures states[i].locks == Held(states[i].released)
    ensures states[i].timer ==> !states[i].pointerInside && Held(states[i].released) == 0
  {
    RunKeeps(states, events, i);
  }

  // ---- what expands it, what arms the timer, where the pointer is ----

  /** A mouse enters a sidebar that expands on hovering and is not open anyway. */
  predicate Expands(s: Hover, e: Event) {
    e == Enter(true) && s.hoverable && !s.pinned
  }

  /** The sidebar opens for good, or may no longer expand. */
  predicate Resets(e: Event) {
    e.Configure? && (e.pinned || !e.hoverable)
  }

  /** Since the step from states[k], nothing up to state i that collapses. */
  ghost predicate ExpandedSince(states: seq<Hover>, events: seq<Event>, k: nat, i: nat)
    requires k < i <= |events| < |states|
  {
    Expands(states[k], events[k]) && forall m :: k < m < i ==> !events[m].Collapse? && !Resets(events[m])
  }

  /** The sidebar is expanded exactly when a mouse expanded it and nothing collapsed it since. */
  lemma {:induction false} ExpandedExactly(states: seq<Hover>, events: seq<Event>, i: nat)
    requires IsRun(states, events) && i <= |events|
    ensures states[i].expanded <==> exists k: nat :: k < i && ExpandedSince(states, events, k, i)
  {
    if i > 0 {
      var n := i - 1;
      ExpandedExactly(states, events, n);
      RunKeeps(states, events, n);
      assert states[i] == Next(states[n], events[n]);
      if Expands(states[n], events[n]) {
        assert ExpandedSince(states, events, n, i);
      }
      if states[n].expanded && !events[n].Collapse? && !Resets(events[n]) {
        var k: nat :| k < n && ExpandedSince(states, events, k, n);
        assert ExpandedSince(states, events, k, i);
      }
      forall k: nat | k < n && ExpandedSince(states, events, k, i)
        ensures ExpandedSince(states, events, k, n)
      {
      }
    }
  }

  /** Nobody is left: a mouse leaves while no lock is held, or the last lock is released with the pointer outside. */
  predicate Arms(s: Hover, e: Event) {
    match e
    case Leave(mouse) => mouse && s.hoverable && Held(s.released) == 0
    case Release(c) => c < |s.released| && !s.released[c] && Held(s.released) == 1 && !s.pointerInside
    case _ => false
  }

  /** Somebody is there again, or there is nothing left to collapse. */
  predicate Disarms(e: Event) {
    e.Enter? || e.Acquire? || e.Collapse? || Resets(e)
  }

  ghost predicate ArmedSince(states: seq<Hover>, events: seq<Event>, k: nat, i: nat)
    requires k < i <= |events| < |states|
  {
    Arms(states[k], events[k]) && forall m :: k < m < i ==> !Disarms(events[m])
  }

  lemma TimerStep(s: Hover, e: Event)
    requires Inv(s) && Enabled(s, e)
    ensures Next(s, e).timer <==> Arms(s, e) || (s.timer && !Disarms(e))
  {
    if e.Release? && !s.released[e.closure] {
      HeldUpdate(s.released, e.closure);
    }
  }

  /** The collapse timer is armed exactly when somebody left last, and since then nobody came. */
  lemma {:induction false} ArmedExactly(states: seq<Hover>, events: seq<Event>, i: nat)
    requires IsRun(states, events) && i <= |events|
    ensures states[i].timer <==> exists k: nat :: k < i && ArmedSince(states, events, k, i)
  {
    if i > 0 {
      var n := i - 1;
      ArmedExactly(states, events, n);
      RunKeeps(states, events, n);
      TimerStep(states[n], events[n]);
      if Arms(states[n], events[n]) {
        assert ArmedSince(states, events, n, i);
      }
      if states[n].timer && !Disarms(events[n]) {
        var k: nat :| k < n && ArmedSince(states, events, k, n);
        assert ArmedSince(states, events, k, i);
      }
      forall k: nat | k < n && ArmedSince(states, events, k, i)
        ensures ArmedSince(states, events, k, n)
      {
      }
    }
  }

  /** The pointer is inside exactly when it entered later than it left, whatever pointer it is. */
  lemma {:induction false} InsideExactly(states: seq<Hover>, events: seq<Event>, i: nat)
    requires IsRun(states, events) && i <= |events|
    ensures states[i].pointerInside <==> exists k :: 0 <= k < i && events[k].Enter? && forall m :: k < m < i ==> !events[m].Leave?
  {
    if i > 0 {
      InsideExactly(states, events, i - 1);
      assert states[i] == Next(states[i - 1], events[i - 1]);
    }
  }

  // ---- the sidebar does not stay open, unless a touch interferes ----

  /** Expanded, with nobody inside, no lock held and no timer to collapse it. */
  predicate LeftOpen(s: Hover) {
    s.expanded && !s.pointerInside && s.locks == 0 && !s.timer
  }

  /** A pointer other than a mouse leaves the sidebar expanded, with no lock held and no timer armed. */
  predicate TouchLeaves(s: Hover, e: Event) {
    e == Leave(false) && s.expanded && s.locks == 0 && !s.timer
  }

  lemma LeftOpenStep(s: Hover, e: Event)
    requires Inv(s) && Enabled(s, e) && !LeftOpen(s)
    ensures LeftOpen(Next(s, e)) <==> TouchLeaves(s, e)
  {
  }

  /** A state that is left open was preceded by a step that left it so. */
  lemma {:induction false} SomethingLeftOpen(states: seq<Hover>, events: seq<Event>, i: nat) returns (k: nat)
    requires IsRun(states, events) && i <= |events| && LeftOpen(states[i])
    ensures k < i && TouchLeaves(states[k], events[k])
  {
    assert i > 0;
    if LeftOpen(states[i - 1]) {
      k := SomethingLeftOpen(states, events, i - 1);
    } else {
      k := i - 1;
      RunKeeps(states, events, k);
      LeftOpenStep(states[k], events[k]);
    }
  }

  /** A run leaves the sidebar open at some point exactly when such a pointer leaves at some point. */
  lemma LeftOpenExactly(states: seq<Hover>, events: seq<Event>)
    requires IsRun(states, events)
    ensures (exists i :: 0 <= i < |states| && LeftOpen(states[i]))
       <==> (exists k :: 0 <= k < |events| && TouchLeaves(states[k], events[k]))
  {
    if i :| 0 <= i < |states| && LeftOpen(states[i]) {
      var k := SomethingLeftOpen(states, events, i);
    }
    if k :| 0 <= k < |events| && TouchLeaves(states[k], events[k]) {
      assert LeftOpen(states[k + 1]);
    }
  }

  /** With a mouse alone the sidebar is never left open. */
  lemma MouseNeverLeavesOpen(states: seq<Hover>, events: seq<Event>, i: nat)
    requires IsRun(states, events) && i <= |events|
    requires forall k :: 0 <= k < |events| ==> events[k] != Leave(false)
    ensures !LeftOpen(states[i])
  {
    LeftOpenExactly(states, events);
  }

  /** A mouse goes in and out, and within the delay a finger taps: the timer is cleared and never set again. */
  lemma TouchLeavesOpen() returns (states: seq<Hover>, events: seq<Event>)
    ensures IsRun(states, events) && LeftOpen(states[|events|])
  {
    events := [Configure(true, false), Enter(true), Leave(true), Enter(false), Leave(false)];
    var s1 := Next(FRESH, events[0]);
    var s2 := Next(s1, events[1]);
    var s3 := Next(s2, events[2]);
    var s4 := Next(s3, events[3]);
    states := [FRESH, s1, s2, s3, s4, Next(s4, events[4])];
  }

  class HoverExpansion {
    var hoverExpanded: bool
    var hoverCollapseTimer: bool
    var hoverExpansionLockCount: nat
    var pointerInside: bool
    var released: seq<bool>
    var hoverable: bool
    var pinned: bool

    constructor ()
      ensures State() == FRESH
    {
      hoverExpanded, hoverCollapseTimer, hoverExpansionLockCount, pointerInside := false, false, 0, false;
      released, hoverable, pinned := [], false, false;
    }

    ghost function State(): Hover
      reads this
    {
      Hover(hoverExpanded, hoverCollapseTimer, hoverExpansionLockCount, pointerInside, released, hoverable, pinned)
    }

    method ClearHoverCollapseTimer()
      modifies this`hoverCollapseTimer
      ensures !hoverCollapseTimer
    {
      hoverCollapseTimer := false;
    }

    method ScheduleHoverCollapse()
      modifies this`hoverCollapseTimer
      ensures hoverCollapseTimer
    {
      ClearHoverCollapseTimer();
      hoverCollapseTimer := true;
    }

    /** Returns the number of the closure that releases the lock. */
    method AcquireHoverExpansionLock() returns (closure: nat)
      modifies this
      ensures State() == Next(old(State()), Acquire)
      ensures closure == |old(released)|
    {
      closure := |released|;
      released := released + [false];
      hoverExpansionLockCount := hoverExpansionLockCount + 1;
      ClearHoverCollapseTimer();
    }

    method ReleaseLock(closure: nat)
      requires Enabled(State(), Release(closure))
      modifies this
      ensures State() == Next(old(State()), Release(closure))
    {
      if released[closure] {
        return;
      }
      released := released[closure := true];
      hoverExpansionLockCount := Decremented(hoverExpansionLockCount);
      if hoverExpansionLockCount == 0 && !pointerInside {
        ScheduleHoverCollapse();
      }
    }

    method HandlePointerEnter(mouse: bool)
      modifies this
      ensures State() == Next(old(State()), Enter(mouse))
    {
      pointerInside := true;
      ClearHoverCollapseTimer();
      if hoverable && mouse && !pinned {
        hoverExpanded := true;
      }
    }

    method HandlePointerLeave(mouse: bool)
      modifies this
      ensures State() == Next(old(State()), Leave(mouse))
    {
      pointerInside := false;
      if hoverable && mouse {
        if hoverExpansionLockCount > 0 {
          return;
        }
        ScheduleHoverCollapse();
      }
    }

    method OnCollapseTimer()
      requires Enabled(State(), Collapse)
      modifies this
      ensures State() == Next(old(State()), Collapse)
    {
      hoverCollapseTimer := false;
      hoverExpanded := false;
    }

    /** The effect that runs when the configuration changes. */
    method OnConfiguration(nowHoverable: bool, nowPinned: bool)
      modifies this
      ensures State() == Next(old(State()), Configure(nowHoverable, nowPinned))
    {
      hoverable, pinned := nowHoverable, nowPinned;
      if pinned || !hoverable {
        ClearHoverCollapseTimer();
        hoverExpanded := false;
      }
    }
  }
}
