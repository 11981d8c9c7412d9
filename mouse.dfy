/** The mouse watcher (watchers/mouse.py): clicks and scrolls go straight
    into the shared store, pointer movement is accumulated in the watcher
    and flushed into the store periodically. */
module Mouse {
  import opened Basics
  import opened Values
  import opened XEvents
  import opened Store

  const ClicksTotal: string := "mouse.clicks.total"
  const ClicksPrimary: string := "mouse.clicks.primary"
  const ClicksSecondary: string := "mouse.clicks.secondary"
  const ClicksMiddle: string := "mouse.clicks.middle"
  const ScrollUp: string := "mouse.scroll.up"
  const ScrollDown: string := "mouse.scroll.down"
  const ScrollLeft: string := "mouse.scroll.left"
  const ScrollRight: string := "mouse.scroll.right"
  const MovementX: string := "mouse.movement.x"
  const MovementY: string := "mouse.movement.y"

  /** `MouseWatcher.METRIC_KEYS`, an old-style set: every name defaults to 0. */
  const MetricKeys: set<string> := {
    ClicksTotal, ClicksPrimary, ClicksSecondary, ClicksMiddle,
    ScrollUp, ScrollDown, ScrollLeft, ScrollRight,
    MovementX, MovementY
  }

  /** The first dispatch of a button press: 1, 3 and 2 are the primary,
      secondary and middle buttons. */
  function ButtonCounter(button: int): Option<string> {
    if button == 1 then Some(ClicksPrimary)
    else if button == 3 then Some(ClicksSecondary)
    else if button == 2 then Some(ClicksMiddle)
    else None
  }

  /** The second dispatch: 4/5 scroll vertically, 6/7 horizontally. */
  function ScrollCounter(button: int): Option<string> {
    if button == 4 then Some(ScrollUp)
    else if button == 5 then Some(ScrollDown)
    else if button == 6 then Some(ScrollLeft)
    else if button == 7 then Some(ScrollRight)
    else None
  }

  function OptionSet(o: Option<string>): set<string> {
    if o.Some? then {o.value} else {}
  }

  /** The names a press of `button` increments. */
  function Touched(button: int): (r: set<string>)
    ensures ClicksTotal in r && r <= MetricKeys
  {
    {ClicksTotal} + OptionSet(ButtonCounter(button)) + OptionSet(ScrollCounter(button))
  }

  /** `+= 1` on `name` when `o` names it. */
  function BumpIf(m: map<string, Value>, o: Option<string>): map<string, Value>
    requires o.Some? ==> o.value in m && IsInstanceInt(m[o.value])
  {
    if o.Some? then Bump(m, o.value, 1) else m
  }

  /** The store after a button press (lines 47-65): the total goes up,
      then each dispatch bumps the counter it picks. */
  function Click(m: map<string, Value>, button: int): (r: map<string, Value>)
    requires CountersReady(m, Touched(button))
    ensures r.Keys == m.Keys
  {
    var m1 := Bump(m, ClicksTotal, 1);
    var m2 := BumpIf(m1, ButtonCounter(button));
    BumpIf(m2, ScrollCounter(button))
  }

  /** The names that share a length, told apart by one character. */
  lemma SameLengthNamesDiffer()
    ensures ClicksTotal != ScrollRight && ScrollDown != ScrollLeft && MovementX != MovementY
  {
    assert ClicksTotal[6] != ScrollRight[6];
    assert ScrollDown[13] != ScrollLeft[13];
    assert MovementX[15] != MovementY[15];
  }

  /** Every press counts as a click, scroll wheels included; buttons 1-7
      each add one more counter of their own, any other button none. */
  lemma TouchedByButton(button: int)
    ensures button == 1 ==> Touched(button) == {ClicksTotal, ClicksPrimary}
    ensures button == 3 ==> Touched(button) == {ClicksTotal, ClicksSecondary}
    ensures button == 2 ==> Touched(button) == {ClicksTotal, ClicksMiddle}
    ensures button == 4 ==> Touched(button) == {ClicksTotal, ScrollUp}
    ensures button == 5 ==> Touched(button) == {ClicksTotal, ScrollDown}
    ensures button == 6 ==> Touched(button) == {ClicksTotal, ScrollLeft}
    ensures button == 7 ==> Touched(button) == {ClicksTotal, ScrollRight}
    ensures !(1 <= button <= 7) ==> Touched(button) == {ClicksTotal}
    ensures MovementX !in Touched(button) && MovementY !in Touched(button)
  {
    SameLengthNamesDiffer();
  }

  /** A press adds one to the total and to the counter its button
      dispatches to, and leaves every other metric as it was. */
  lemma ClickEffect(m: map<string, Value>, button: int)
    requires CountersReady(m, Touched(button))
    ensures forall k :: k in Touched(button) ==> Click(m, button)[k] == IntV(AsInt(m[k]) + 1)
    ensures forall k :: k in m && k !in Touched(button) ==> Click(m, button)[k] == m[k]
  {
    TouchedByButton(button);
    SameLengthNamesDiffer();
    var m1 := Bump(m, ClicksTotal, 1);
    var m2 := BumpIf(m1, ButtonCounter(button));
    if ButtonCounter(button).Some? {
      assert ButtonCounter(button).value != ClicksTotal;
      assert ScrollCounter(button).None?;
    } else if ScrollCounter(button).Some? {
      assert ScrollCounter(button).value != ClicksTotal;
    }
  }

  /** The pending movement and the last pointer position of a watcher. */
  datatype Motion = Motion(totalDx: int, totalDy: int, lastX: Option<int>, lastY: Option<int>)

  function Abs(n: int): nat {
    if n < 0 then -n else n
  }

  /** A MotionNotify at (x, y) (lines 33-40): the first one only records the
      position; later ones add the distance moved on each axis. */
  function MotionStep(s: Motion, x: int, y: int): (r: Motion)
    ensures r.lastX == Some(x) && r.lastY == Some(y)
    ensures s.lastX.None? || s.lastY.None? ==> r.totalDx == s.totalDx && r.totalDy == s.totalDy
    ensures s.lastX.Some? && s.lastY.Some? ==>
      r.totalDx - s.totalDx == Abs(x - s.lastX.value) && r.totalDy - s.totalDy == Abs(y - s.lastY.value)
  {
    if s.lastX.Some? && s.lastY.Some? then
      Motion(s.totalDx + Abs(x - s.lastX.value), s.totalDy + Abs(y - s.lastY.value), Some(x), Some(y))
    else
      Motion(s.totalDx, s.totalDy, Some(x), Some(y))
  }

  /** Pending totals never decrease, so they stay non-negative. */
  lemma {:induction false} MotionNeverNegative(s: Motion, xs: seq<int>, ys: seq<int>)
    requires |xs| == |ys| && s.totalDx >= 0 && s.totalDy >= 0
    ensures var r := Moves(s, xs, ys); r.totalDx >= s.totalDx && r.totalDy >= s.totalDy
    decreases |xs|
  {
    if xs != [] {
      MotionNeverNegative(MotionStep(s, xs[0], ys[0]), xs[1..], ys[1..]);
    }
  }

  /** A run of MotionNotify events. */
  function Moves(s: Motion, xs: seq<int>, ys: seq<int>): Motion
    requires |xs| == |ys|
    decreases |xs|
  {
    if xs == [] then s else Moves(MotionStep(s, xs[0], ys[0]), xs[1..], ys[1..])
  }

  /** One flush (lines 70-78): the pending totals move into the store; when
      both are zero the store is left alone. */
  function FlushInto(m: map<string, Value>, dx: int, dy: int): (r: map<string, Value>)
    requires dx != 0 || dy != 0 ==> CountersReady(m, {MovementX, MovementY})
    ensures dx == 0 && dy == 0 ==> r == m
    ensures r.Keys == m.Keys
    ensures forall k :: k in m && k != MovementX && k != MovementY ==> r[k] == m[k]
  {
    if dx != 0 || dy != 0 then Bump(Bump(m, MovementX, dx), MovementY, dy) else m
  }

  /** Flushing loses no movement: what the store gains on each axis is
      exactly what was pending, which the flush resets to zero. */
  lemma FlushConserves(m: map<string, Value>, dx: int, dy: int)
    requires CountersReady(m, {MovementX, MovementY})
    ensures AsInt(FlushInto(m, dx, dy)[MovementX]) == AsInt(m[MovementX]) + dx
    ensures AsInt(FlushInto(m, dx, dy)[MovementY]) == AsInt(m[MovementY]) + dy
  {
  }

  /** The mouse watcher only ever changes its own declared metrics, by a
      press or by a flush. */
  lemma MouseTouchesOwnKeys(m: map<string, Value>, button: int, dx: int, dy: int)
    requires CountersReady(m, Touched(button)) && CountersReady(m, {MovementX, MovementY})
    ensures forall k :: k in m && k !in MetricKeys ==> Click(m, button)[k] == m[k] && FlushInto(m, dx, dy)[k] == m[k]
  {
    ClickEffect(m, button);
  }

  class MouseWatcher {
    var totalDx: int
    var totalDy: int
    var lastX: Option<int>
    var lastY: Option<int>

    /** The watcher's own state as a value. */
    function State(): Motion
      reads this
    {
      Motion(totalDx, totalDy, lastX, lastY)
    }

    /** Pending movement is never negative. */
    predicate Valid()
      reads this
    {
      totalDx >= 0 && totalDy >= 0
    }

    constructor()
      ensures Valid() && State() == Motion(0, 0, None, None)
    {
      totalDx, totalDy := 0, 0;
      lastX, lastY := None, None;
    }

    /** `_handle_event`: a motion updates the watcher only, a button press
        updates the store only, any other event changes nothing. */
    method HandleEvent(e: Event, store: DataStore)
      requires Valid()
      requires e.evType == ButtonPress ==> CountersReady(store.metrics, Touched(e.detail))
      modifies this, store
      ensures Valid()
      ensures e.evType == MotionNotify ==>
        State() == MotionStep(old(State()), e.rootX, e.rootY) && store.metrics == old(store.metrics)
      ensures e.evType == ButtonPress ==>
        State() == old(State()) && store.metrics == Click(old(store.metrics), e.detail)
      ensures e.evType != MotionNotify && e.evType != ButtonPress ==>
        State() == old(State()) && store.metrics == old(store.metrics)
    {
      if e.evType == MotionNotify {
        if lastX.Some? && lastY.Some? {
          var dx := Abs(e.rootX - lastX.value);
          var dy := Abs(e.rootY - lastY.value);
          totalDx := totalDx + dx;
          totalDy := totalDy + dy;
        }
        lastX := Some(e.rootX);
        lastY := Some(e.rootY);
      } else if e.evType == ButtonPress {
        var button := e.detail;
        store.Add(ClicksTotal, 1);
        if button == 1 {
          store.Add(ClicksPrimary, 1);
        } else if button == 3 {
          store.Add(ClicksSecondary, 1);
        } else if button == 2 {
          store.Add(ClicksMiddle, 1);
        }
        if button == 4 {
          store.Add(ScrollUp, 1);
        } else if button == 5 {
          store.Add(ScrollDown, 1);
        } else if button == 6 {
          store.Add(ScrollLeft, 1);
        } else if button == 7 {
          store.Add(ScrollRight, 1);
        }
      }
    }

    /** One round of `_flush_movement`: take and zero the pending totals,
        then add them to the store if either is non-zero. */
    method FlushMovement(store: DataStore)
      requires Valid()
      requires totalDx != 0 || totalDy != 0 ==> CountersReady(store.metrics, {MovementX, MovementY})
      modifies this, store
      ensures Valid()
      ensures State() == Motion(0, 0, old(lastX), old(lastY))
      ensures store.metrics == FlushInto(old(store.metrics), old(totalDx), old(totalDy))
    {
      var dx, dy := totalDx, totalDy;
      totalDx := 0;
      totalDy := 0;
      if dx != 0 || dy != 0 {
        store.Add(MovementX, dx);
        store.Add(MovementY, dy);
      }
    }
  }
}
