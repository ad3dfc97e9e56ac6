/** The listener registry of the WebSocket client: a map from event name to
    the callbacks registered for it. A JavaScript `Set` keeps its members in
    insertion order without repeats, so each entry is a sequence without
    duplicates. */
module WebSocketListeners {
  /** A registered callback; callbacks are compared by identity only. */
  type HandlerId = nat

  predicate NoDuplicates(s: seq<HandlerId>)
  {
    forall i, j :: 0 <= i < j < |s| ==> s[i] != s[j]
  }

  /** `set.add(h)`: `h` joins at the end unless it is already there. */
  function Added(s: seq<HandlerId>, h: HandlerId): (r: seq<HandlerId>)
    ensures forall x :: x in r <==> x in s || x == h
    ensures NoDuplicates(s) ==> NoDuplicates(r)
    ensures h in s ==> r == s
    ensures h !in s ==> r == s + [h]
  {
    if h in s then s else s + [h]
  }

  /** `set.delete(h)`: `h` leaves, the others keep their order. */
  function Removed(s: seq<HandlerId>, h: HandlerId): (r: seq<HandlerId>)
    ensures forall x :: x in r <==> x in s && x != h
    ensures NoDuplicates(s) ==> NoDuplicates(r)
    ensures |r| <= |s|
  {
    if s == [] then []
    else if s[0] == h then Removed(s[1..], h)
    else
      var rest := Removed(s[1..], h);
      ConsKeepsNoDuplicates(s, rest);
      [s[0]] + rest
  }

  /** A head not repeated in the tail, in front of a duplicate-free tail,
      keeps the sequence duplicate-free. */
  lemma ConsKeepsNoDuplicates(s: seq<HandlerId>, rest: seq<HandlerId>)
    requires s != []
    requires forall x :: x in rest ==> x in s[1..]
    requires NoDuplicates(s) ==> NoDuplicates(rest)
    ensures NoDuplicates(s) ==> NoDuplicates([s[0]] + rest)
  {
    if NoDuplicates(s) {
      assert s[0] !in s[1..] by {
        forall k | 0 <= k < |s[1..]| ensures s[1..][k] != s[0] {
          assert s[1..][k] == s[k + 1];
        }
      }
      var t := [s[0]] + rest;
      forall i, j | 0 <= i < j < |t| ensures t[i] != t[j] {
        if i == 0 {
          assert t[j] == rest[j - 1];
          assert t[j] in rest;
        } else {
          assert t[i] == rest[i - 1] && t[j] == rest[j - 1];
        }
      }
    }
  }

  /** Deleting keeps the order of the others: it works piece by piece. */
  lemma {:induction false} RemovedKeepsOrder(a: seq<HandlerId>, b: seq<HandlerId>, h: HandlerId)
    ensures Removed(a + b, h) == Removed(a, h) + Removed(b, h)
  {
    if a == [] {
      assert a + b == b;
    } else {
      var ab := a + b;
      assert ab[0] == a[0];
      assert ab[1..] == a[1..] + b;
      RemovedKeepsOrder(a[1..], b, h);
      if a[0] != h {
        assert Removed(ab, h) == [a[0]] + Removed(a[1..] + b, h);
        assert [a[0]] + (Removed(a[1..], h) + Removed(b, h)) == ([a[0]] + Removed(a[1..], h)) + Removed(b, h);
      }
    }
  }

  /** On one callback, deleting drops it exactly when it is the one deleted. */
  lemma RemovedSingle(x: HandlerId, h: HandlerId)
    ensures Removed([x], h) == if x == h then [] else [x]
  {
    assert [x][1..] == [];
  }

  /** The callbacks `listeners.get(event)` holds, or none. */
  function Registered(listeners: map<string, seq<HandlerId>>, event: string): seq<HandlerId>
  {
    if event in listeners then listeners[event] else []
  }

  /** Removing a callback that was just added to a set not holding it gives
      the set back. */
  lemma {:induction false} RemovedUndoesAdded(s: seq<HandlerId>, h: HandlerId)
    requires h !in s
    ensures Removed(Added(s, h), h) == s
  {
    if s == [] {
      assert Added(s, h) == [h];
    } else {
      assert Added(s, h) == [s[0]] + Added(s[1..], h);
      assert (s + [h])[1..] == s[1..] + [h];
      RemovedUndoesAdded(s[1..], h);
    }
  }

  /** Removing a callback that is not there changes nothing. */
  lemma {:induction false} RemovedAbsent(s: seq<HandlerId>, h: HandlerId)
    requires h !in s
    ensures Removed(s, h) == s
  {
    if s != [] {
      RemovedAbsent(s[1..], h);
    }
  }

  class AguiWebSocketClient {
    var listeners: map<string, seq<HandlerId>>

    ghost predicate Valid()
      reads this
    {
      forall event :: event in listeners ==> NoDuplicates(listeners[event])
    }

    constructor ()
      ensures Valid() && listeners == map[]
    {
      listeners := map[];
    }

    /** `on(event, callback)`: create the event's set if needed, then add. */
    method On(event: string, callback: HandlerId)
      requires Valid()
      modifies this
      ensures Valid()
      ensures listeners == old(listeners)[event := Added(Registered(old(listeners), event), callback)]
    {
      if event !in listeners {
        listeners := listeners[event := []];
      }
      listeners := listeners[event := Added(listeners[event], callback)];
    }

    /** `off(event, callback)`: delete from the event's set if there is one;
        an emptied set stays in the map. */
    method Off(event: string, callback: HandlerId)
      requires Valid()
      modifies this
      ensures Valid()
      ensures listeners == if event in old(listeners)
        then old(listeners)[event := Removed(old(listeners)[event], callback)]
        else old(listeners)
    {
      if event in listeners {
        listeners := listeners[event := Removed(listeners[event], callback)];
      }
    }

    /** `emit(event, data)`: every callback registered for the event, in
        registration order, is called once; the registry is not changed. */
    method Emit(event: string) returns (called: seq<HandlerId>)
      requires Valid()
      ensures called == Registered(listeners, event)
      ensures NoDuplicates(called)
    {
      called := [];
      if event in listeners {
        var callbacks := listeners[event];
        for i := 0 to |callbacks|
          invariant called == callbacks[..i]
        {
          called := called + [callbacks[i]];
        }
        assert callbacks[..|callbacks|] == callbacks;
      }
    }

    /** `disconnect()`: the socket is closed and every listener dropped. */
    method Disconnect()
      modifies this
      ensures Valid() && listeners == map[]
    {
      listeners := map[];
    }
  }
}
