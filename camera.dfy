/**
  The free-look camera of src/Camera.h: the set of held movement and
  rotation keys as a 16-bit action mask.
*/
module KeyCamera {

  /** `Camera::Action`, a `uint16_t` enumeration. */
  const NONE:   bv16 := 0
  const FWD:    bv16 := 1 << 0
  const BACK:   bv16 := 1 << 1
  const LEFT:   bv16 := 1 << 2
  const RIGHT:  bv16 := 1 << 3
  const DOWN:   bv16 := 1 << 4
  const UP:     bv16 := 1 << 5
  const RUP:    bv16 := 1 << 6
  const RDOWN:  bv16 := 1 << 7
  const RLEFT:  bv16 := 1 << 8
  const RRIGHT: bv16 := 1 << 9

  /** The ten action bits together. */
  const ALL_ACTIONS: bv16 := 0x3FF

  /** SDL keycodes of the mapped keys. */
  const SDLK_w     := 119
  const SDLK_a     := 97
  const SDLK_s     := 115
  const SDLK_d     := 100
  const SDLK_LCTRL := 0x4000_00E0
  const SDLK_SPACE := 32
  const SDLK_UP    := 0x4000_0052
  const SDLK_DOWN  := 0x4000_0051
  const SDLK_LEFT  := 0x4000_0050
  const SDLK_RIGHT := 0x4000_004F

  const MappedKeys: set<int> :=
    {SDLK_w, SDLK_a, SDLK_s, SDLK_d, SDLK_LCTRL, SDLK_SPACE, SDLK_UP, SDLK_DOWN, SDLK_LEFT, SDLK_RIGHT}

  /** `a` has exactly one bit set. */
  predicate SingleBit(a: bv16)
  {
    a != 0 && a & (a - 1) == 0
  }

  /** The `switch` of `fromKey`: key symbol to action. */
  const KeyActions: map<int, bv16> := map[
    SDLK_w := FWD, SDLK_a := LEFT, SDLK_s := BACK, SDLK_d := RIGHT,
    SDLK_LCTRL := DOWN, SDLK_SPACE := UP,
    SDLK_UP := RUP, SDLK_DOWN := RDOWN, SDLK_LEFT := RLEFT, SDLK_RIGHT := RRIGHT]

  /** `fromKey`: the action of a key, NONE for every key not listed. */
  function FromKey(code: int): (a: bv16)
    ensures a != NONE <==> code in MappedKeys
  {
    if code in KeyActions then KeyActions[code] else NONE
  }

  /** Every mapped key's action is a single bit among the low ten. */
  lemma FromKeyIsAction(code: int)
    ensures var a := FromKey(code);
            a != NONE ==> SingleBit(a) && a & !ALL_ACTIONS == 0
  {
  }

  /** Distinct mapped keys have distinct actions. */
  lemma FromKeyInjective(c1: int, c2: int)
    requires c1 in MappedKeys && c2 in MappedKeys && c1 != c2
    ensures FromKey(c1) != FromKey(c2)
  {
  }

  /** Every action bit is the action of some key. */
  lemma FromKeyCoversActions(a: bv16)
    requires SingleBit(a) && a & !ALL_ACTIONS == 0
    ensures exists code :: code in MappedKeys && FromKey(code) == a
  {
    SingleLowBit(a);
    var code :=
      if a == FWD then SDLK_w else if a == BACK then SDLK_s
      else if a == LEFT then SDLK_a else if a == RIGHT then SDLK_d
      else if a == DOWN then SDLK_LCTRL else if a == UP then SDLK_SPACE
      else if a == RUP then SDLK_UP else if a == RDOWN then SDLK_DOWN
      else if a == RLEFT then SDLK_LEFT else SDLK_RIGHT;
    assert FromKey(code) == a;
  }

  lemma SingleLowBit(a: bv16)
    requires SingleBit(a) && a & !ALL_ACTIONS == 0
    ensures a in {FWD, BACK, LEFT, RIGHT, DOWN, UP, RUP, RDOWN, RLEFT, RRIGHT}
  {
  }

  /** OR-ing a mask in sets its bits and keeps the others. */
  lemma OrMask(acts: bv16, a: bv16)
    ensures (acts | a) & a == a && (acts | a) & !a == acts & !a
  {
  }

  /** AND-ing with a mask's complement clears its bits and keeps the others. */
  lemma AndNotMask(acts: bv16, a: bv16)
    ensures (acts & !a) & a == 0 && (acts & !a) & !a == acts & !a
  {
  }

  /** The empty mask changes nothing either way. */
  lemma NoneMask(acts: bv16)
    ensures acts | NONE == acts && acts & !NONE == acts && acts & NONE == 0
  {
  }

  datatype EventType = KeyDown | KeyUp | OtherEvent

  /** An `SDL_KeyboardEvent`: its type and key symbol. */
  datatype KeyboardEvent = KeyboardEvent(kind: EventType, sym: int)

  /** What `key` does with the action `a` of the event's key. */
  function MaskUpdate(acts: bv16, a: bv16, kind: EventType): bv16
  {
    if kind == KeyDown then acts | a
    else if kind == KeyUp then (if a != NONE then acts & !a else acts)
    else acts
  }

  /** The action mask after `key(e)`. */
  function KeyTransition(acts: bv16, e: KeyboardEvent): bv16
  {
    MaskUpdate(acts, FromKey(e.sym), e.kind)
  }

  /** Key down sets the key's bit and leaves every other bit unchanged. */
  lemma PressSetsOnlyItsBit(acts: bv16, code: int)
    ensures var r := KeyTransition(acts, KeyboardEvent(KeyDown, code));
            var a := FromKey(code);
            && r & a == a
            && r & !a == acts & !a
  {
    OrMask(acts, FromKey(code));
  }

  /** Key up clears the key's bit and leaves every other bit unchanged. */
  lemma ReleaseClearsOnlyItsBit(acts: bv16, code: int)
    ensures var r := KeyTransition(acts, KeyboardEvent(KeyUp, code));
            var a := FromKey(code);
            && r & a == 0
            && r & !a == acts & !a
  {
    ReleaseMask(acts, FromKey(code));
  }

  lemma ReleaseMask(acts: bv16, a: bv16)
    ensures var r := MaskUpdate(acts, a, KeyUp);
            r & a == 0 && r & !a == acts & !a
  {
    if a == NONE {
      NoneMask(acts);
    } else {
      AndNotMask(acts, a);
    }
  }

  /** A key that is not mapped changes nothing, pressed or released. */
  lemma UnmappedKeyIgnored(acts: bv16, e: KeyboardEvent)
    requires e.sym !in MappedKeys
    ensures KeyTransition(acts, e) == acts
  {
    assert FromKey(e.sym) == NONE;
    NoneMask(acts);
  }

  /** Pressing a key twice is pressing it once. */
  lemma PressIdempotent(acts: bv16, code: int)
    ensures var down := KeyboardEvent(KeyDown, code);
            KeyTransition(KeyTransition(acts, down), down) == KeyTransition(acts, down)
  {
    OrTwice(acts, FromKey(code));
  }

  lemma OrTwice(acts: bv16, a: bv16)
    ensures (acts | a) | a == acts | a
  {
  }

  /** Press then release of one key clears its bit and restores the rest. */
  lemma PressThenRelease(acts: bv16, code: int)
    ensures var a := FromKey(code);
            var r := KeyTransition(KeyTransition(acts, KeyboardEvent(KeyDown, code)), KeyboardEvent(KeyUp, code));
            && r & a == 0
            && r == acts & !a
  {
    PressReleaseMask(acts, FromKey(code));
  }

  lemma PressReleaseMask(acts: bv16, a: bv16)
    ensures var r := MaskUpdate(MaskUpdate(acts, a, KeyDown), a, KeyUp);
            r & a == 0 && r == acts & !a
  {
    if a == NONE {
      PressReleaseNone(acts);
    } else {
      PressReleaseBit(acts, a);
    }
  }

  lemma PressReleaseNone(acts: bv16)
    ensures MaskUpdate(MaskUpdate(acts, NONE, KeyDown), NONE, KeyUp) == acts
    ensures acts & NONE == 0 && acts & !NONE == acts
  {
    NoneMask(acts);
  }

  lemma PressReleaseBit(acts: bv16, a: bv16)
    requires a != NONE
    ensures MaskUpdate(MaskUpdate(acts, a, KeyDown), a, KeyUp) == acts & !a
    ensures (acts & !a) & a == 0
  {
    OrMask(acts, a);
    AndNotMask(acts, a);
  }

  /** Held keys of distinct mapped codes are independent: pressing one
      never clears another's bit, releasing one never sets or clears another. */
  lemma KeysIndependent(acts: bv16, held: int, other: int, kind: EventType)
    requires held in MappedKeys && other in MappedKeys && held != other
    ensures var h := FromKey(held);
            KeyTransition(acts, KeyboardEvent(kind, other)) & h == acts & h
  {
    FromKeyInjective(held, other);
  }

  class Camera {
    /** `_acts`: the held actions. */
    var acts: bv16

    ghost predicate Valid()
      reads this
    {
      acts & !ALL_ACTIONS == 0
    }

    /** The constructor starts with no action held. */
    constructor ()
      ensures acts == NONE && Valid()
    {
      acts := NONE;
    }

    /** `key`: key down ORs the key's action in, key up clears it when the
        key is mapped; other event types are ignored. */
    method Key(e: KeyboardEvent)
      requires Valid()
      modifies this`acts
      ensures Valid()
      ensures acts == KeyTransition(old(acts), e)
    {
      var a := FromKey(e.sym);
      FromKeyIsAction(e.sym);
      ApplyAction(a, e.kind);
    }

    /** The `|=` / `&=` of `key` for the action `a`. */
    method ApplyAction(a: bv16, kind: EventType)
      requires Valid() && a & !ALL_ACTIONS == 0
      modifies this`acts
      ensures Valid()
      ensures acts == MaskUpdate(old(acts), a, kind)
    {
      if kind == KeyDown {
        acts := acts | a;
      } else if kind == KeyUp {
        if a != NONE {
          acts := acts & !a;
        }
      }
    }
  }
}
