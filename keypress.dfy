/**
 * `useKeyPress(targetKey)`: a boolean that keydown events for the target key
 * set and keyup events for it clear. The effect registers one keydown and one
 * keyup listener on `window` and its cleanup removes the same two.
 */
module KeyPress {

  datatype EventType = KeyDown | KeyUp

  datatype KeyEvent = KeyEvent(kind: EventType, key: string)

  /**
   * One listener in the window's registry: the handler for `kind` created by
   * effect run number `run`, which compares event keys with `targetKey`.
   */
  datatype Listener = Listener(kind: EventType, targetKey: string, run: nat)

  /** `handleKeyDown` / `handleKeyUp`: the state after one event reaches the handlers for `targetKey`. */
  function Handle(pressed: bool, targetKey: string, e: KeyEvent): (r: bool)
    ensures e.key == targetKey ==> r == (e.kind == KeyDown)
    ensures e.key != targetKey ==> r == pressed
  {
    if e.key != targetKey then pressed
    else match e.kind
      case KeyDown => true
      case KeyUp => false
  }

  /** The state after a sequence of events, in order. */
  function HandleAll(pressed: bool, targetKey: string, events: seq<KeyEvent>): bool
    decreases |events|
  {
    if events == [] then pressed
    else HandleAll(Handle(pressed, targetKey, events[0]), targetKey, events[1..])
  }

  /** Events for other keys leave the state unchanged, however many there are. */
  lemma {:induction false} OtherKeysIgnored(pressed: bool, targetKey: string, events: seq<KeyEvent>)
    requires forall i :: 0 <= i < |events| ==> events[i].key != targetKey
    ensures HandleAll(pressed, targetKey, events) == pressed
    decreases |events|
  {
    if events != [] {
      assert events[0].key != targetKey;
      OtherKeysIgnored(pressed, targetKey, events[1..]);
    }
  }

  /**
   * Independent description of the state after a sequence of events: it is
   * decided by the last event for the target key, pressed after a keydown and
   * released after a keyup.
   */
  lemma {:induction false} LastTargetEventDecides(pressed: bool, targetKey: string, events: seq<KeyEvent>, i: nat)
    requires i < |events| && events[i].key == targetKey
    requires forall j :: i < j < |events| ==> events[j].key != targetKey
    ensures HandleAll(pressed, targetKey, events) == (events[i].kind == KeyDown)
    decreases i
  {
    var next := Handle(pressed, targetKey, events[0]);
    if i == 0 {
      assert forall j :: 0 <= j < |events| - 1 ==> events[1..][j] == events[j + 1];
      OtherKeysIgnored(next, targetKey, events[1..]);
    } else {
      assert forall j :: i - 1 < j < |events| - 1 ==> events[1..][j] == events[j + 1];
      LastTargetEventDecides(next, targetKey, events[1..], i - 1);
    }
  }

  /** A repeated keydown of the target key is idempotent. */
  lemma RepeatedKeyDownIdempotent(pressed: bool, targetKey: string)
    ensures var down := KeyEvent(KeyDown, targetKey);
            Handle(Handle(pressed, targetKey, down), targetKey, down) == Handle(pressed, targetKey, down) == true
  {
  }

  /** The two listeners effect run `run` adds for `targetKey`. */
  function ListenerPair(targetKey: string, run: nat): (m: multiset<Listener>)
    ensures |m| == 2
    ensures m[Listener(KeyDown, targetKey, run)] == 1 && m[Listener(KeyUp, targetKey, run)] == 1
  {
    multiset{Listener(KeyDown, targetKey, run), Listener(KeyUp, targetKey, run)}
  }

  /**
   * The hook. `keyPressed` is its state; `listeners` is the window's listener
   * registry (other code's listeners included); `active` is the key the
   * currently registered handlers compare with, if the effect is set up.
   */
  class KeyPressHook {
    var targetKey: string
    var keyPressed: bool
    var active: bool
    var run: nat
    ghost var listeners: multiset<Listener>

    ghost predicate Valid()
      reads this
    {
      active ==> ListenerPair(targetKey, run) <= listeners
    }

    /** `useState(false)` on the first render; the effect has not run yet. */
    constructor (targetKey: string, ghost registry: multiset<Listener>)
      ensures Valid() && !active
      ensures this.targetKey == targetKey && !keyPressed && listeners == registry
    {
      this.targetKey := targetKey;
      keyPressed := false;
      active := false;
      run := 0;
      listeners := registry;
    }

    /** The effect body: `addEventListener` for keydown and for keyup. */
    method Setup()
      requires Valid() && !active
      modifies this
      ensures Valid() && active && run == old(run) + 1
      ensures listeners == old(listeners) + ListenerPair(targetKey, run)
      ensures targetKey == old(targetKey) && keyPressed == old(keyPressed)
    {
      run := run + 1;
      listeners := listeners + ListenerPair(targetKey, run);
      active := true;
    }

    /** The cleanup: removes exactly the two listeners this effect run added. */
    method Teardown()
      requires Valid() && active
      modifies this
      ensures Valid() && !active
      ensures listeners + ListenerPair(targetKey, run) == old(listeners)
      ensures targetKey == old(targetKey) && keyPressed == old(keyPressed) && run == old(run)
    {
      listeners := listeners - ListenerPair(targetKey, run);
      active := false;
    }

    /**
     * A key event dispatched on `window`: it reaches this hook's handlers only
     * while they are registered.
     */
    method Dispatch(e: KeyEvent)
      requires Valid()
      modifies this`keyPressed
      ensures Valid()
      ensures keyPressed == if active then Handle(old(keyPressed), targetKey, e) else old(keyPressed)
    {
      if active {
        keyPressed := Handle(keyPressed, targetKey, e);
      }
    }

    /**
     * A re-render with a different `targetKey`: React runs the old cleanup and
     * then the effect again; the state is not reset.
     */
    method ChangeTargetKey(newKey: string)
      requires Valid() && active
      modifies this
      ensures Valid() && active && targetKey == newKey && keyPressed == old(keyPressed)
      ensures newKey == old(targetKey) ==> listeners == old(listeners) && run == old(run)
      ensures newKey != old(targetKey) ==>
                listeners + ListenerPair(old(targetKey), old(run)) == old(listeners) + ListenerPair(newKey, run)
    {
      if newKey != targetKey {
        Teardown();
        targetKey := newKey;
        Setup();
      }
    }
  }

  /** Mounting then unmounting leaves the window's registry exactly as it was. */
  method MountUnmount(h: KeyPressHook)
    requires h.Valid() && !h.active
    modifies h
    ensures h.Valid() && !h.active
    ensures h.listeners == old(h.listeners) && h.keyPressed == old(h.keyPressed)
  {
    ghost var before := h.listeners;
    h.Setup();
    ghost var pair := ListenerPair(h.targetKey, h.run);
    ghost var mounted := h.listeners;
    assert mounted == before + pair;
    h.Teardown();
    assert h.listeners + pair == mounted;
    forall x ensures h.listeners[x] == before[x] {
      assert (h.listeners + pair)[x] == (before + pair)[x];
    }
    assert h.listeners == before;
  }
}
