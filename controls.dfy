/** Key bindings and the direction and jump queries of the player's `Input`.
    The keyboard poll is replaced by the set of keys that are down this frame,
    passed to every query. */
module Controls {

  /** The keyboard keys the platformer refers to; every other key is `Other`. */
  datatype Key = Left | Right | Up | Down | A | D | Space | Z | Escape | Other(code: int)

  /** Some key of `keys` is down. */
  predicate AnyDown(keys: seq<Key>, pressed: set<Key>) {
    exists i :: 0 <= i < |keys| && keys[i] in pressed
  }

  /** The horizontal direction the bound keys ask for: -1 for left, 1 for
      right, 0 for neither; any left key wins over every right key. */
  function Direction(left: seq<Key>, right: seq<Key>, pressed: set<Key>): (dir: int)
    ensures -1 <= dir <= 1
    ensures dir == -1 <==> AnyDown(left, pressed)
    ensures dir == 1 <==> !AnyDown(left, pressed) && AnyDown(right, pressed)
    ensures dir == 0 <==> !AnyDown(left, pressed) && !AnyDown(right, pressed)
  {
    if AnyDown(left, pressed) then -1 else if AnyDown(right, pressed) then 1 else 0
  }

  /** Binding one more key adds exactly that key to the keys that count. */
  lemma AnyDownAppend(keys: seq<Key>, k: Key, pressed: set<Key>)
    ensures AnyDown(keys + [k], pressed) <==> AnyDown(keys, pressed) || k in pressed
  {
    var keys' := keys + [k];
    if AnyDown(keys, pressed) {
      var i :| 0 <= i < |keys| && keys[i] in pressed;
      assert keys'[i] == keys[i];
    }
    if k in pressed {
      assert keys'[|keys|] == k;
    }
    if AnyDown(keys', pressed) {
      var i :| 0 <= i < |keys'| && keys'[i] in pressed;
      if i < |keys| {
        assert keys[i] == keys'[i];
      }
    }
  }

  /** A left key that is down decides the direction, whatever else is bound
      or pressed. */
  lemma PressedLeftWins(left: seq<Key>, right: seq<Key>, k: Key, pressed: set<Key>)
    requires k in pressed
    ensures Direction(left + [k], right, pressed) == -1
  {
    AnyDownAppend(left, k, pressed);
  }

  /** The bindings the player controller installs. */
  const LEFT_KEYS: seq<Key> := [Left, A]
  const RIGHT_KEYS: seq<Key> := [Right, D]
  const UP_KEYS: seq<Key> := [Space, Z]

  /** With those bindings: Left or A goes left, otherwise Right or D goes
      right, and Space or Z is the jump key. */
  lemma DefaultBindings(pressed: set<Key>)
    ensures Direction(LEFT_KEYS, RIGHT_KEYS, pressed) == -1 <==> Left in pressed || A in pressed
    ensures Direction(LEFT_KEYS, RIGHT_KEYS, pressed) == 1 <==>
      Left !in pressed && A !in pressed && (Right in pressed || D in pressed)
    ensures AnyDown(UP_KEYS, pressed) <==> Space in pressed || Z in pressed
  {
    AnyDownAppend([Left], A, pressed);
    AnyDownAppend([Right], D, pressed);
    AnyDownAppend([Space], Z, pressed);
    AnyDownAppend([], Left, pressed);
    AnyDownAppend([], Right, pressed);
    AnyDownAppend([], Space, pressed);
    assert [Left, A] == [Left] + [A] && [Left] == [] + [Left];
    assert [Right, D] == [Right] + [D] && [Right] == [] + [Right];
    assert [Space, Z] == [Space] + [Z] && [Space] == [] + [Space];
  }

  /** `Input`: three lists of bound keys, filled by chained `Bind*` calls. */
  class Input {
    var leftKeys: seq<Key>
    var rightKeys: seq<Key>
    var upKeys: seq<Key>

    constructor()
      ensures leftKeys == [] && rightKeys == [] && upKeys == []
    {
      leftKeys, rightKeys, upKeys := [], [], [];
    }

    method BindKeyboardLeft(key: Key) returns (r: Input)
      modifies this
      ensures r == this
      ensures leftKeys == old(leftKeys) + [key]
      ensures rightKeys == old(rightKeys) && upKeys == old(upKeys)
    {
      leftKeys := leftKeys + [key];
      r := this;
    }

    method BindKeyboardRight(key: Key) returns (r: Input)
      modifies this
      ensures r == this
      ensures rightKeys == old(rightKeys) + [key]
      ensures leftKeys == old(leftKeys) && upKeys == old(upKeys)
    {
      rightKeys := rightKeys + [key];
      r := this;
    }

    method BindKeyboardUp(key: Key) returns (r: Input)
      modifies this
      ensures r == this
      ensures upKeys == old(upKeys) + [key]
      ensures leftKeys == old(leftKeys) && rightKeys == old(rightKeys)
    {
      upKeys := upKeys + [key];
      r := this;
    }

    /** -1, 0 or 1: left if any left key is down, else right if any right key
        is down. */
    method GetHorizontalVelocity(pressed: set<Key>) returns (dir: int)
      ensures dir == Direction(leftKeys, rightKeys, pressed)
      ensures -1 <= dir <= 1
      ensures dir == -1 <==> AnyDown(leftKeys, pressed)
      ensures dir == 1 <==> !AnyDown(leftKeys, pressed) && AnyDown(rightKeys, pressed)
    {
      var left := AnyKeyDown(leftKeys, pressed);
      if left {
        return -1;
      }
      var right := AnyKeyDown(rightKeys, pressed);
      if right {
        return 1;
      }
      return 0;
    }

    method IsUpDown(pressed: set<Key>) returns (down: bool)
      ensures down == AnyDown(upKeys, pressed)
    {
      down := AnyKeyDown(upKeys, pressed);
    }

    /** Scans `keys` in order and stops at the first one that is down. */
    static method AnyKeyDown(keys: seq<Key>, pressed: set<Key>) returns (down: bool)
      ensures down <==> AnyDown(keys, pressed)
    {
      var i := 0;
      while i < |keys|
        invariant 0 <= i <= |keys|
        invariant forall j :: 0 <= j < i ==> keys[j] !in pressed
      {
        if keys[i] in pressed {
          return true;
        }
        i := i + 1;
      }
      return false;
    }
  }
}
