/**
 * The single-slot input latch: the key callback records at most one key
 * press between two clears, into the five flags (left, up, right, down,
 * reset) or the light mode, and the tick clears it again.
 */
module Input {
  import opened Wrappers

  /** GLFW's action code for a key press. */
  const GLFW_PRESS: int := 1

  /** GLFW's key codes for the keys the game reacts to. */
  const GLFW_KEY_RIGHT: int := 262
  const GLFW_KEY_LEFT: int := 263
  const GLFW_KEY_DOWN: int := 264
  const GLFW_KEY_UP: int := 265
  const GLFW_KEY_R: int := 82
  const GLFW_KEY_0: int := 48
  const GLFW_KEY_1: int := 49
  const GLFW_KEY_2: int := 50

  /** The number of flags in `keys`: left, up, right, down, reset. */
  const KEY_SLOTS: nat := 5

  /** The value of the latch's state: the flags, the latched bit and the light mode. */
  datatype LatchState = LatchState(keys: seq<bool>, keyPressed: bool, lightMode: int)

  /** A key event as the window system delivers it (scan code and modifiers play no part). */
  datatype KeyEvent = KeyEvent(key: int, action: int)

  /** The flag slot a key sets, or -1 for a key that sets none. */
  function SlotOf(key: int): int {
    if key == GLFW_KEY_LEFT then 0
    else if key == GLFW_KEY_UP then 1
    else if key == GLFW_KEY_RIGHT then 2
    else if key == GLFW_KEY_DOWN then 3
    else if key == GLFW_KEY_R then 4
    else -1
  }

  /** The light mode a key selects, or -1 for a key that selects none. */
  function ModeOf(key: int): int {
    if key == GLFW_KEY_0 then 0
    else if key == GLFW_KEY_1 then 1
    else if key == GLFW_KEY_2 then 2
    else -1
  }

  predicate NoneSet(keys: seq<bool>) {
    forall i :: 0 <= i < |keys| ==> !keys[i]
  }

  predicate AtMostOneSet(keys: seq<bool>) {
    forall i, j :: 0 <= i < |keys| && 0 <= j < |keys| && keys[i] && keys[j] ==> i == j
  }

  /**
   * What the latch guarantees at all times: five flags, of which at most one
   * is set and none while nothing is latched, and a light mode of 0, 1 or 2.
   */
  predicate Consistent(s: LatchState) {
    && |s.keys| == KEY_SLOTS
    && AtMostOneSet(s.keys)
    && (!s.keyPressed ==> NoneSet(s.keys))
    && 0 <= s.lightMode <= 2
  }

  /** The key callback's effect on the latch. */
  function OnKey(s: LatchState, e: KeyEvent): (t: LatchState)
    requires |s.keys| == KEY_SLOTS
    ensures |t.keys| == KEY_SLOTS
    ensures e.action != GLFW_PRESS || s.keyPressed ==> t == s
    ensures e.action == GLFW_PRESS && !s.keyPressed ==> t.keyPressed
    ensures forall i :: 0 <= i < KEY_SLOTS && i != SlotOf(e.key) ==> t.keys[i] == s.keys[i]
    ensures ModeOf(e.key) == -1 || SlotOf(e.key) != -1 ==> t.lightMode == s.lightMode
  {
    if e.action == GLFW_PRESS && !s.keyPressed then
      var s' := s.(keyPressed := true);
      if e.key == GLFW_KEY_LEFT then s'.(keys := s.keys[0 := true])
      else if e.key == GLFW_KEY_UP then s'.(keys := s.keys[1 := true])
      else if e.key == GLFW_KEY_RIGHT then s'.(keys := s.keys[2 := true])
      else if e.key == GLFW_KEY_DOWN then s'.(keys := s.keys[3 := true])
      else if e.key == GLFW_KEY_R then s'.(keys := s.keys[4 := true])
      else if e.key == GLFW_KEY_0 then s'.(lightMode := 0)
      else if e.key == GLFW_KEY_1 then s'.(lightMode := 1)
      else if e.key == GLFW_KEY_2 then s'.(lightMode := 2)
      else s'
    else s
  }

  /** The clear at the end of a tick: nothing latched, no flag set, light mode kept. */
  function Cleared(s: LatchState): (t: LatchState)
    ensures Consistent(t) <==> 0 <= s.lightMode <= 2
    ensures !t.keyPressed && t.lightMode == s.lightMode
    ensures t.keys == [false, false, false, false, false]
  {
    LatchState([false, false, false, false, false], false, s.lightMode)
  }

  /** The latch after a sequence of key events, in order. */
  function Run(s: LatchState, events: seq<KeyEvent>): LatchState
    requires |s.keys| == KEY_SLOTS
    decreases |events|
  {
    if events == [] then s else Run(OnKey(s, events[0]), events[1..])
  }

  /** The first press among the events, if there is one. */
  function FirstPress(events: seq<KeyEvent>): (r: Option<KeyEvent>)
    decreases |events|
    ensures r.Some? <==> exists i :: 0 <= i < |events| && events[i].action == GLFW_PRESS
    ensures r.Some? ==> r.value.action == GLFW_PRESS && r.value in events
    ensures r.Some? ==>
      exists i :: 0 <= i < |events| && events[i] == r.value && forall j :: 0 <= j < i ==> events[j].action != GLFW_PRESS
  {
    if events == [] then None
    else if events[0].action == GLFW_PRESS then Some(events[0])
    else FirstPress(events[1..])
  }

  /** One key event keeps the latch consistent. */
  lemma OnKeyKeepsConsistent(s: LatchState, e: KeyEvent)
    requires Consistent(s)
    ensures Consistent(OnKey(s, e))
  {
    var t := OnKey(s, e);
    if e.action == GLFW_PRESS && !s.keyPressed && SlotOf(e.key) != -1 {
      var k := SlotOf(e.key);
      assert t.keys == s.keys[k := true];
      forall i, j | 0 <= i < |t.keys| && 0 <= j < |t.keys| && t.keys[i] && t.keys[j]
        ensures i == j
      {
        assert !s.keys[i] || i == k;
        assert !s.keys[j] || j == k;
      }
    }
  }

  /** Between two clears the latch stays consistent, whatever the events. */
  lemma {:induction false} RunKeepsConsistent(s: LatchState, events: seq<KeyEvent>)
    requires Consistent(s)
    ensures Consistent(Run(s, events))
    decreases |events|
  {
    if events != [] {
      OnKeyKeepsConsistent(s, events[0]);
      RunKeepsConsistent(OnKey(s, events[0]), events[1..]);
    }
  }

  /** Once a press is latched, every further event is ignored. */
  lemma {:induction false} LatchedIgnoresEvents(s: LatchState, events: seq<KeyEvent>)
    requires |s.keys| == KEY_SLOTS && s.keyPressed
    ensures Run(s, events) == s
    decreases |events|
  {
    if events != [] {
      LatchedIgnoresEvents(OnKey(s, events[0]), events[1..]);
    }
  }

  /**
   * Only the first press after a clear has any effect: running a sequence of
   * events on an unlatched state is the same as handling its first press alone.
   */
  lemma {:induction false} FirstPressWins(s: LatchState, events: seq<KeyEvent>)
    requires |s.keys| == KEY_SLOTS && !s.keyPressed
    ensures Run(s, events) == match FirstPress(events)
                              case None => s
                              case Some(e) => OnKey(s, e)
    decreases |events|
  {
    if events != [] {
      if events[0].action == GLFW_PRESS {
        LatchedIgnoresEvents(OnKey(s, events[0]), events[1..]);
      } else {
        FirstPressWins(OnKey(s, events[0]), events[1..]);
      }
    }
  }

  /** After a clear the next press is accepted again. */
  lemma ClearRearms(s: LatchState, key: int)
    ensures OnKey(Cleared(s), KeyEvent(key, GLFW_PRESS)).keyPressed
    ensures SlotOf(key) != -1 ==> OnKey(Cleared(s), KeyEvent(key, GLFW_PRESS)).keys[SlotOf(key)]
    ensures ModeOf(key) != -1 ==> OnKey(Cleared(s), KeyEvent(key, GLFW_PRESS)).lightMode == ModeOf(key)
  {
  }

  /** The global `keys` array, the `keyPressed` flag and the light mode. */
  class KeyLatch {
    const keys: array<bool>
    var keyPressed: bool
    var lightMode: int

    ghost function State(): LatchState
      reads this, keys
    {
      LatchState(keys[..], keyPressed, lightMode)
    }

    ghost predicate Valid()
      reads this, keys
    {
      Consistent(State())
    }

    /** The initial values: no flag set, nothing latched, light mode 0. */
    constructor ()
      ensures Valid() && fresh(keys)
      ensures State() == LatchState([false, false, false, false, false], false, 0)
    {
      keys := new bool[KEY_SLOTS](_ => false);
      keyPressed := false;
      lightMode := 0;
      new;
      assert keys[..] == [false, false, false, false, false];
    }

    /** The key callback: a press while nothing is latched latches it and sets at most one flag or mode. */
    method KeyCallback(key: int, action: int)
      requires Valid()
      modifies this, keys
      ensures Valid()
      ensures State() == OnKey(old(State()), KeyEvent(key, action))
    {
      OnKeyKeepsConsistent(State(), KeyEvent(key, action));
      if action == GLFW_PRESS {
        if !keyPressed {
          keyPressed := true;
          if key == GLFW_KEY_LEFT { keys[0] := true; }
          else if key == GLFW_KEY_UP { keys[1] := true; }
          else if key == GLFW_KEY_RIGHT { keys[2] := true; }
          else if key == GLFW_KEY_DOWN { keys[3] := true; }
          else if key == GLFW_KEY_R { keys[4] := true; }
          else if key == GLFW_KEY_0 { lightMode := 0; }
          else if key == GLFW_KEY_1 { lightMode := 1; }
          else if key == GLFW_KEY_2 { lightMode := 2; }
        }
      }
    }

    /** The clear at the end of a tick: the latch is released and every flag reset. */
    method ClearKeys()
      requires Valid()
      modifies this, keys
      ensures Valid()
      ensures State() == Cleared(old(State()))
    {
      keyPressed := false;
      assert keys.Length == |old(State()).keys| == KEY_SLOTS;
      for i := 0 to KEY_SLOTS
        invariant !keyPressed
        invariant forall j :: 0 <= j < i ==> !keys[j]
        invariant lightMode == old(lightMode) && 0 <= lightMode <= 2
      {
        keys[i] := false;
      }
      assert keys[..] == [false, false, false, false, false];
    }
  }
}
