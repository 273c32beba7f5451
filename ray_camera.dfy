/**
  The camera of the raytracer (raytracer/src/camera.rs): held movement
  keys as an 8-bit action mask, a boost flag, and the guard that keeps
  `update` from moving a camera with no key held.
*/
module RayCamera {
  import opened Base

  const FORWARD:  bv8 := 0x01
  const BACKWARD: bv8 := 0x02
  const LEFT:     bv8 := 0x04
  const RIGHT:    bv8 := 0x08
  const UP:       bv8 := 0x10
  const DOWN:     bv8 := 0x20

  /** The six direction bits together. */
  const DIRECTIONS: bv8 := 0x3F

  /** The six direction constants are distinct single bits. */
  lemma DirectionsAreDistinctBits()
    ensures var bits := [FORWARD, BACKWARD, LEFT, RIGHT, UP, DOWN];
            && (forall i :: 0 <= i < 6 ==> bits[i] != 0 && bits[i] & (bits[i] - 1) == 0)
            && (forall i, j :: 0 <= i < j < 6 ==> bits[i] & bits[j] == 0)
            && (forall i :: 0 <= i < 6 ==> bits[i] & !DIRECTIONS == 0)
  {
  }

  /** The winit virtual key codes the camera reacts to. */
  datatype Key = W | S | A | D | Q | Z | LShift | OtherKey

  /** A `KeyboardInput`: the virtual key code, when there is one, and
      whether the key went down. */
  datatype KeyboardInput = KeyboardInput(virtualKeycode: Option<Key>, pressed: bool)

  datatype Vec3 = Vec3(x: real, y: real, z: real)

  const Zero := Vec3(0.0, 0.0, 0.0)

  function Add(p: Vec3, q: Vec3): Vec3
  {
    Vec3(p.x + q.x, p.y + q.y, p.z + q.z)
  }

  /** The action bit a key drives; 0 for LShift and every other key. */
  function KeyAction(k: Key): (a: bv8)
    ensures a != 0 <==> k in {W, S, A, D, Q, Z}
    ensures a == 0 || a in {FORWARD, BACKWARD, LEFT, RIGHT, UP, DOWN}
  {
    match k
    case W => FORWARD
    case S => BACKWARD
    case A => LEFT
    case D => RIGHT
    case Q => UP
    case Z => DOWN
    case _ => 0
  }

  /** What `handle_input` does with the action bit `a`. */
  function SetBit(actions: bv8, a: bv8, pressed: bool): bv8
  {
    if pressed then actions | a else actions & !a
  }

  /** A key with action bit `a` (0 when it drives none). */
  function KeyUpdate(actions: bv8, a: bv8, pressed: bool): bv8
  {
    if a != 0 then SetBit(actions, a, pressed) else actions
  }

  /** `actions` after `handle_input(input)`. */
  function ActionsAfter(actions: bv8, input: KeyboardInput): bv8
  {
    match input.virtualKeycode
    case None => actions
    case Some(k) => KeyUpdate(actions, KeyAction(k), input.pressed)
  }

  /** `boost` after `handle_input(input)`. */
  function BoostAfter(boost: bool, input: KeyboardInput): bool
  {
    if input.virtualKeycode == Some(LShift) then input.pressed else boost
  }

  lemma SetBitPressed(actions: bv8, a: bv8)
    requires a != 0
    ensures KeyUpdate(actions, a, true) & a == a
    ensures KeyUpdate(actions, a, true) & !a == actions & !a
  {
  }

  lemma SetBitReleased(actions: bv8, a: bv8)
    requires a != 0
    ensures KeyUpdate(actions, a, false) & a == 0
    ensures KeyUpdate(actions, a, false) & !a == actions & !a
  {
  }

  /**
    For W/S/A/D/Q/Z a press sets the key's bit, a release clears it, and
    no other bit and not `boost` changes.
  */
  lemma MovementKeyTogglesItsBit(actions: bv8, boost: bool, k: Key, pressed: bool)
    requires k in {W, S, A, D, Q, Z}
    ensures var input := KeyboardInput(Some(k), pressed);
            var r := ActionsAfter(actions, input);
            var a := KeyAction(k);
            && r & a == (if pressed then a else 0)
            && r & !a == actions & !a
            && BoostAfter(boost, input) == boost
  {
    var a := KeyAction(k);
    if pressed {
      SetBitPressed(actions, a);
    } else {
      SetBitReleased(actions, a);
    }
  }

  /** LShift sets `boost` to the key state and leaves the actions alone. */
  lemma ShiftSetsBoost(actions: bv8, boost: bool, pressed: bool)
    ensures var input := KeyboardInput(Some(LShift), pressed);
            ActionsAfter(actions, input) == actions && BoostAfter(boost, input) == pressed
  {
  }

  /** An input without a virtual key code, or with a key the camera does
      not handle, changes nothing. */
  lemma OtherInputIgnored(actions: bv8, boost: bool, input: KeyboardInput)
    requires input.virtualKeycode.None? || input.virtualKeycode == Some(OtherKey)
    ensures ActionsAfter(actions, input) == actions && BoostAfter(boost, input) == boost
  {
  }

  /** Both updates keep the mask within the six direction bits. */
  lemma SetBitStaysInDirections(actions: bv8, a: bv8, pressed: bool)
    requires actions & !DIRECTIONS == 0 && a in {FORWARD, BACKWARD, LEFT, RIGHT, UP, DOWN}
    ensures SetBit(actions, a, pressed) & !DIRECTIONS == 0
  {
  }

  /**
    The direction `update` builds before normalising: each held key sets
    one component to +1 or -1, and of two opposite keys the one whose `if`
    comes later (BACKWARD, LEFT, UP) wins.
  */
  function MoveDir(actions: bv8): (d: Vec3)
    ensures d.z == (if actions & BACKWARD != 0 then 1.0 else if actions & FORWARD != 0 then -1.0 else 0.0)
    ensures d.x == (if actions & LEFT != 0 then 1.0 else if actions & RIGHT != 0 then -1.0 else 0.0)
    ensures d.y == (if actions & UP != 0 then 1.0 else if actions & DOWN != 0 then -1.0 else 0.0)
  {
    var z0 := if actions & FORWARD != 0 then -1.0 else 0.0;
    var z1 := if actions & BACKWARD != 0 then 1.0 else z0;
    var x0 := if actions & RIGHT != 0 then -1.0 else 0.0;
    var x1 := if actions & LEFT != 0 then 1.0 else x0;
    var y0 := if actions & DOWN != 0 then -1.0 else 0.0;
    var y1 := if actions & UP != 0 then 1.0 else y0;
    Vec3(x1, y1, z1)
  }

  /**
    With only direction bits ever set, a nonzero mask yields a nonzero
    direction, so the `actions != 0` guard of `update` is exactly what
    keeps `normalize` away from the zero vector.
  */
  lemma GuardedDirectionIsNonzero(actions: bv8)
    requires actions & !DIRECTIONS == 0
    ensures actions != 0 <==> MoveDir(actions) != Zero
  {
    if actions != 0 {
      SomeDirectionBit(actions);
    } else {
      NoDirectionBit(actions);
    }
  }

  lemma SomeDirectionBit(actions: bv8)
    requires actions & !DIRECTIONS == 0 && actions != 0
    ensures actions & FORWARD != 0 || actions & BACKWARD != 0 || actions & LEFT != 0
         || actions & RIGHT != 0 || actions & UP != 0 || actions & DOWN != 0
  {
  }

  lemma NoDirectionBit(actions: bv8)
    requires actions == 0
    ensures actions & FORWARD == 0 && actions & BACKWARD == 0 && actions & LEFT == 0
         && actions & RIGHT == 0 && actions & UP == 0 && actions & DOWN == 0
  {
  }

  class Camera {
    var position: Vec3
    var speed: real
    var actions: bv8
    var boost: bool

    ghost predicate Valid()
      reads this
    {
      actions & !DIRECTIONS == 0
    }

    /** `new`: at (0, 1, 0), speed 5, no boost, no key held. */
    constructor ()
      ensures position == Vec3(0.0, 1.0, 0.0) && speed == 5.0 && !boost && actions == 0
      ensures Valid()
    {
      position := Vec3(0.0, 1.0, 0.0);
      speed := 5.0;
      boost := false;
      actions := 0;
    }

    /** `handle_input`. */
    method HandleInput(input: KeyboardInput)
      requires Valid()
      modifies this`actions, this`boost
      ensures Valid()
      ensures actions == ActionsAfter(old(actions), input)
      ensures boost == BoostAfter(old(boost), input)
    {
      if input.virtualKeycode.Some? {
        var keycode := input.virtualKeycode.value;
        var pressed := input.pressed;
        if keycode == LShift {
          boost := pressed;
        } else {
          ApplyKey(KeyAction(keycode), pressed);
        }
      }
    }

    /** The arm of the `match` of `handle_input` for a key with action bit
        `a`; the catch-all arm when `a` is 0. */
    method ApplyKey(a: bv8, pressed: bool)
      requires Valid() && (a == 0 || a in {FORWARD, BACKWARD, LEFT, RIGHT, UP, DOWN})
      modifies this`actions
      ensures Valid()
      ensures actions == KeyUpdate(old(actions), a, pressed)
    {
      if a != 0 {
        SetBitStaysInDirections(actions, a, pressed);
        if pressed {
          actions := actions | a;
        } else {
          actions := actions & !a;
        }
      }
    }

    /** `move_by`. */
    method MoveBy(offset: Vec3)
      modifies this`position
      ensures position == Add(old(position), offset)
    {
      position := Add(position, offset);
    }

    /**
      `update`: with no key held the camera stays put; otherwise it moves by
      `offset`, which stands for the floating-point product of the
      normalised `MoveDir(actions)`, the (boosted) speed and the time step.
    */
    method Update(offset: Vec3)
      requires Valid()
      modifies this`position
      ensures actions == 0 ==> position == old(position)
      ensures actions != 0 ==> position == Add(old(position), offset) && MoveDir(actions) != Zero
    {
      if actions != 0 {
        GuardedDirectionIsNonzero(actions);
        MoveBy(offset);
      }
    }
  }
}
