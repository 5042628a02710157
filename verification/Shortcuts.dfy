/** The shortcut map of `config_writer.rs`: binding, unbinding and restoring an action. */
module Shortcuts {
  import opened Basics

  /** A stored value; only texts name an action. */
  datatype Value = Text(text: string) | Other

  type Bindings = map<string, Value>

  /** The parsed form of a keystroke, and the default keys of an action, come from outside. */
  datatype Keyboard = Keyboard(canonical: string -> Option<string>, defaults: string -> seq<string>)

  const NONE := "none"

  /** `keystrokes_conflict`: the same keystroke once parsed; texts that do not parse conflict only with themselves. */
  predicate Conflict(kb: Keyboard, a: string, b: string) {
    if kb.canonical(a).Some? && kb.canonical(b).Some? then kb.canonical(a) == kb.canonical(b) else a == b
  }

  lemma ConflictIsAnEquivalence(kb: Keyboard, a: string, b: string, c: string)
    ensures Conflict(kb, a, a)
    ensures Conflict(kb, a, b) <==> Conflict(kb, b, a)
    ensures Conflict(kb, a, b) && Conflict(kb, b, c) ==> Conflict(kb, a, c)
  {
  }

  /** Two keys clash when they are the same text, or parse as the same keystroke. */
  lemma ConflictIsTheSameKey(kb: Keyboard, a: string, b: string)
    ensures Conflict(kb, a, b) <==> a == b || exists key :: kb.canonical(a) == Some(key) && kb.canonical(b) == Some(key)
  {
  }

  predicate Owns(m: Bindings, action: string, key: string) {
    key in m && m[key] == Text(action)
  }

  ghost predicate ConflictFree(kb: Keyboard, m: Bindings) {
    forall a, b :: a in m && b in m && Conflict(kb, a, b) ==> a == b
  }

  /** Some key of the map is the keystroke `key`. */
  predicate Taken(kb: Keyboard, m: Bindings, key: string) {
    exists k :: k in m && Conflict(kb, k, key)
  }

  // ----- what the three operations compute -----

  function Merged(kb: Keyboard, m: Bindings, newKey: string, action: string): (r: Bindings) {
    (map k | k in m && m[k] != Text(action) && !Conflict(kb, k, newKey) :: m[k])[newKey := Text(action)]
  }

  function Disowned(m: Bindings, action: string): (r: Bindings) {
    map k | k in m && m[k] != Text(action) :: m[k]
  }

  function Masked(kb: Keyboard, m: Bindings, defaults: seq<string>): (r: Bindings)
    decreases |defaults|
  {
    if defaults == [] then m
    else Masked(kb, if Taken(kb, m, defaults[0]) then m else m[defaults[0] := Text(NONE)], defaults[1..])
  }

  function Unbound(kb: Keyboard, m: Bindings, action: string): (r: Bindings) {
    Masked(kb, Disowned(m, action), kb.defaults(action))
  }

  predicate IsDefault(kb: Keyboard, action: string, key: string) {
    exists d :: d in kb.defaults(action) && Conflict(kb, d, key)
  }

  function Restored(kb: Keyboard, m: Bindings, action: string): (r: Bindings) {
    map k | k in m && m[k] != Text(action) && !(m[k] == Text(NONE) && IsDefault(kb, action, k)) :: m[k]
  }

  class ShortcutMap {
    var entries: Bindings

    method MergeShortcut(kb: Keyboard, newKey: string, action: string)
      modifies this
      ensures entries == Merged(kb, old(entries), newKey, action)
    {
      var keysToRemove := set k | k in entries && (entries[k] == Text(action) || Conflict(kb, k, newKey));
      entries := entries - keysToRemove;
      entries := entries[newKey := Text(action)];
    }

    method UnbindAction(kb: Keyboard, action: string)
      modifies this
      ensures entries == Unbound(kb, old(entries), action)
    {
      entries := map k | k in entries && entries[k] != Text(action) :: entries[k];
      var defaults := kb.defaults(action);
      assert defaults[0..] == defaults;
      for i := 0 to |defaults|
        invariant Masked(kb, entries, defaults[i..]) == Unbound(kb, old(entries), action)
      {
        assert defaults[i..][0] == defaults[i] && defaults[i..][1..] == defaults[i + 1..];
        if !Taken(kb, entries, defaults[i]) {
          entries := entries[defaults[i] := Text(NONE)];
        }
      }
    }

    method RestoreDefaultBinding(kb: Keyboard, action: string)
      modifies this
      ensures entries == Restored(kb, old(entries), action)
    {
      entries := map k | k in entries
                         && !(entries[k] == Text(action) || (entries[k] == Text(NONE) && IsDefault(kb, action, k)))
                       :: entries[k];
    }
  }

  // ----- binding -----

  /** After binding, the action owns the new key and no other, the map is still free of conflicts, and everything
      else that neither was the action's nor clashes with the key is kept. */
  lemma MergeBinds(kb: Keyboard, m: Bindings, newKey: string, action: string)
    ensures forall k :: Owns(Merged(kb, m, newKey, action), action, k) <==> k == newKey
    ensures ConflictFree(kb, m) ==> ConflictFree(kb, Merged(kb, m, newKey, action))
    ensures forall k :: k in m && m[k] != Text(action) && !Conflict(kb, k, newKey) ==>
              k in Merged(kb, m, newKey, action) && Merged(kb, m, newKey, action)[k] == m[k]
    ensures Merged(kb, Merged(kb, m, newKey, action), newKey, action) == Merged(kb, m, newKey, action)
  {
  }

  // ----- unbinding -----

  /** Masking adds a `none` for each default not yet taken, and changes nothing that was there. */
  lemma {:induction false} MaskAdds(kb: Keyboard, m: Bindings, defaults: seq<string>)
    ensures var r := Masked(kb, m, defaults);
            && (forall k :: k in m ==> k in r && r[k] == m[k])
            && (forall k :: k in r && k !in m ==> r[k] == Text(NONE) && k in defaults && !Taken(kb, m, k))
    decreases |defaults|
  {
    if defaults != [] {
      var d := defaults[0];
      var next := if Taken(kb, m, d) then m else m[d := Text(NONE)];
      MaskAdds(kb, next, defaults[1..]);
      assert forall x :: Taken(kb, m, x) ==> Taken(kb, next, x);
    }
  }

  lemma {:induction false} MaskTakes(kb: Keyboard, m: Bindings, defaults: seq<string>)
    ensures forall d :: d in defaults ==> Taken(kb, Masked(kb, m, defaults), d)
    decreases |defaults|
  {
    if defaults != [] {
      var d := defaults[0];
      var next := if Taken(kb, m, d) then m else m[d := Text(NONE)];
      MaskTakes(kb, next, defaults[1..]);
      MaskAdds(kb, next, defaults[1..]);
      assert Taken(kb, next, d);
      assert Taken(kb, Masked(kb, m, defaults), d);
      assert forall x :: x in defaults ==> x == d || x in defaults[1..];
    }
  }

  lemma {:induction false} MaskIsConflictFree(kb: Keyboard, m: Bindings, defaults: seq<string>)
    requires ConflictFree(kb, m)
    ensures ConflictFree(kb, Masked(kb, m, defaults))
    decreases |defaults|
  {
    if defaults != [] {
      MaskIsConflictFree(kb, if Taken(kb, m, defaults[0]) then m else m[defaults[0] := Text(NONE)], defaults[1..]);
    }
  }

  lemma {:induction false} MaskDoesNothing(kb: Keyboard, m: Bindings, defaults: seq<string>)
    requires forall d :: d in defaults ==> Taken(kb, m, d)
    ensures Masked(kb, m, defaults) == m
  {
    if defaults != [] {
      MaskDoesNothing(kb, m, defaults[1..]);
    }
  }

  /** After unbinding, every default of the action is some stored key, conflicts are not introduced, and only the
      action's own keys and its free defaults changed. */
  lemma UnbindMasks(kb: Keyboard, m: Bindings, action: string)
    ensures var r := Unbound(kb, m, action);
            && (forall d :: d in kb.defaults(action) ==> Taken(kb, r, d))
            && (ConflictFree(kb, m) ==> ConflictFree(kb, r))
            && (forall k :: k in m && m[k] != Text(action) ==> k in r && r[k] == m[k])
            && (forall k :: k in r && (k !in m || m[k] == Text(action)) ==>
                  r[k] == Text(NONE) && k in kb.defaults(action))
  {
    MaskAdds(kb, Disowned(m, action), kb.defaults(action));
    MaskTakes(kb, Disowned(m, action), kb.defaults(action));
    if ConflictFree(kb, m) {
      MaskIsConflictFree(kb, Disowned(m, action), kb.defaults(action));
    }
  }

  /** A default that no key of another action takes is masked. */
  lemma MaskIsOwned(kb: Keyboard, kept: Bindings, defaults: seq<string>, d: string)
    requires d in defaults && !Taken(kb, kept, d)
    ensures exists k :: Owns(Masked(kb, kept, defaults), NONE, k)
  {
    MaskAdds(kb, kept, defaults);
    MaskTakes(kb, kept, defaults);
    var r := Masked(kb, kept, defaults);
    var k :| k in r && Conflict(kb, k, d);
    assert k !in kept;
    assert Owns(r, NONE, k);
  }

  /** After unbinding, the action owns no key: always, but for the action spelled `none`, which does exactly when
      every default of it was taken by another action. */
  lemma UnbindDisowns(kb: Keyboard, m: Bindings, action: string)
    ensures (forall k :: !Owns(Unbound(kb, m, action), action, k))
       <==> (action != NONE || forall d :: d in kb.defaults(action) ==> Taken(kb, Disowned(m, action), d))
  {
    var kept, defaults := Disowned(m, action), kb.defaults(action);
    if action != NONE {
      MaskAdds(kb, kept, defaults);
    } else if forall d :: d in defaults ==> Taken(kb, kept, d) {
      MaskDoesNothing(kb, kept, defaults);
    } else {
      var d :| d in defaults && !Taken(kb, kept, d);
      MaskIsOwned(kb, kept, defaults, d);
      var k :| Owns(Masked(kb, kept, defaults), NONE, k);
      assert Owns(Unbound(kb, m, action), action, k);
    }
  }

  lemma UnbindIsIdempotent(kb: Keyboard, m: Bindings, action: string)
    ensures Unbound(kb, Unbound(kb, m, action), action) == Unbound(kb, m, action)
  {
    var kept, r := Disowned(m, action), Unbound(kb, m, action);
    MaskAdds(kb, kept, kb.defaults(action));
    if action == NONE {
      assert Disowned(r, action) == kept;
    } else {
      assert Disowned(r, action) == r;
      MaskTakes(kb, kept, kb.defaults(action));
      MaskDoesNothing(kb, r, kb.defaults(action));
    }
  }

  // ----- restoring -----

  lemma DefaultsAreDefaults(kb: Keyboard, action: string)
    ensures forall k :: k in kb.defaults(action) ==> IsDefault(kb, action, k)
  {
    forall k | k in kb.defaults(action)
      ensures IsDefault(kb, action, k)
    {
      assert Conflict(kb, k, k);
    }
  }

  /** Restoring after unbinding is restoring: the masks that unbinding put there are taken away again. */
  lemma RestoreUndoesUnbind(kb: Keyboard, m: Bindings, action: string)
    ensures Restored(kb, Unbound(kb, m, action), action) == Restored(kb, m, action)
  {
    DefaultsAreDefaults(kb, action);
    UnbindMasks(kb, m, action);
    var r := Unbound(kb, m, action);
    forall k
      ensures k in Restored(kb, r, action) <==> k in Restored(kb, m, action)
      ensures k in Restored(kb, m, action) ==> Restored(kb, r, action)[k] == m[k]
    {
    }
  }

  /** Restoring takes away the action's keys and the masks on keys that clash with one of its defaults, and nothing
      else: every other binding, other actions' masks included, stays with its value. */
  lemma RestoreKeeps(kb: Keyboard, m: Bindings, action: string, k: string)
    requires k in m
    ensures var clashes := exists d :: d in kb.defaults(action) && Conflict(kb, d, k);
            k in Restored(kb, m, action) <==> m[k] != Text(action) && !(m[k] == Text("none") && clashes)
    ensures k in Restored(kb, m, action) ==> Restored(kb, m, action)[k] == m[k]
  {
  }

  /** Restoring leaves the action no key of its own and none of its defaults masked, adds nothing, and does nothing
      when done again. */
  lemma RestoreClears(kb: Keyboard, m: Bindings, action: string)
    ensures var r := Restored(kb, m, action);
            && (forall k :: !Owns(r, action, k))
            && (forall k :: k in r ==> k in m && r[k] == m[k] && (IsDefault(kb, action, k) ==> r[k] != Text(NONE)))
            && (ConflictFree(kb, m) ==> ConflictFree(kb, r))
            && Restored(kb, r, action) == r
  {
  }
}
