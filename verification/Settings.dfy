/** Ordered settings writes (`config_writer.rs`): writes that finish out of order still converge. */
module Settings {
  import opened Basics
  import opened Text

  datatype Json =
    | Null
    | Bool(truth: bool)
    | Number(number: int)
    | Str(text: string)
    | Array(items: seq<Json>)
    | Object(fields: Fields)

  type Fields = map<string, Json>

  /** A setting: a key of the `terminal` block, or a top-level key. */
  datatype Target = Target(nested: bool, key: string)

  /** One ordered write, with whether reading and writing the file will succeed when its turn comes. */
  datatype Write = Write(target: Target, value: Json, sequence: nat, loads: bool, writes: bool)

  datatype Outcome = Written | Superseded | Failed

  const TERMINAL := "terminal"

  function Slot(path: string, t: Target): (r: string) {
    path + "|" + ((if t.nested then TERMINAL + "." else "") + t.key)
  }

  function SetField(fields: Fields, key: string, value: Json): (r: Fields) {
    if value.Null? then fields - {key} else fields[key := value]
  }

  /** The `terminal` block, which is created or replaced unless it is an object. */
  function Block(root: Fields): (r: Fields) {
    if TERMINAL in root && root[TERMINAL].Object? then root[TERMINAL].fields else map[]
  }

  function Apply(root: Fields, t: Target, value: Json): (r: Fields) {
    if t.nested then root[TERMINAL := Object(SetField(Block(root), t.key, value))]
    else SetField(root, t.key, value)
  }

  /** The file and the last sequence number written to each slot. */
  datatype State = State(root: Fields, last: map<string, nat>)

  function Save(path: string, s: State, w: Write): (r: (State, Outcome)) {
    var slot := Slot(path, w.target);
    if slot in s.last && s.last[slot] >= w.sequence then (s, Superseded)
    else if !w.loads || !w.writes then (s, Failed)
    else (State(Apply(s.root, w.target, w.value), s.last[slot := w.sequence]), Written)
  }

  class Store {
    const path: string
    var root: Fields
    var last: map<string, nat>

    constructor (path: string, root: Fields)
      ensures this.path == path && State(this.root, last) == State(root, map[])
    {
      this.path, this.root, last := path, root, map[];
    }

    method ApplyField(t: Target, value: Json)
      modifies this`root
      ensures root == Apply(old(root), t, value)
    {
      if t.nested {
        var block := Block(root);
        root := root[TERMINAL := Object(if value.Null? then block - {t.key} else block[t.key := value])];
      } else if value.Null? {
        root := root - {t.key};
      } else {
        root := root[t.key := value];
      }
    }

    /** One write under the lock. `loads` and `writes` are what the file system answers. */
    method SaveSettingOrdered(t: Target, value: Json, sequence: nat, loads: bool, writes: bool)
      returns (outcome: Outcome)
      modifies this
      ensures (State(root, last), outcome)
                == Save(path, State(old(root), old(last)), Write(t, value, sequence, loads, writes))
    {
      var slot := Slot(path, t);
      if slot in last && last[slot] >= sequence {
        return Superseded;
      }
      if !loads {
        return Failed;
      }
      if !writes {
        return Failed;
      }
      ApplyField(t, value);
      last := last[slot := sequence];
      return Written;
    }
  }

  // ----- slots -----

  /** The top-level key that is the whole block, and a key in it. */
  predicate Holds(t: Target, u: Target) {
    !t.nested && t.key == TERMINAL && u.nested
  }

  /** The dotted top-level name of a key of the block, and the key. */
  predicate Spells(t: Target, u: Target) {
    !t.nested && u.nested && t.key == TERMINAL + "." + u.key
  }

  /** Two settings that cannot both be written in any order. */
  predicate Interferes(t: Target, u: Target) {
    Holds(t, u) || Holds(u, t) || Spells(t, u) || Spells(u, t)
  }

  /** Two settings share a slot exactly when one is a key of the block and the other its dotted top-level name. */
  lemma SharedSlots(path: string, t: Target, u: Target)
    ensures Slot(path, t) == Slot(path, u) <==>
      t == u || Spells(t, u) || Spells(u, t)
  {
    var prefix := path + "|";
    var a, b := (if t.nested then TERMINAL + "." else "") + t.key, (if u.nested then TERMINAL + "." else "") + u.key;
    assert Slot(path, t)[|prefix|..] == a && Slot(path, u)[|prefix|..] == b;
    if t.nested && u.nested {
      assert a[|TERMINAL| + 1..] == t.key && b[|TERMINAL| + 1..] == u.key;
    } else {
      assert "" + t.key == t.key && "" + u.key == u.key;
    }
  }

  lemma SlotsDiffer(path: string, t: Target, u: Target)
    requires t != u && !Spells(t, u) && !Spells(u, t)
    ensures Slot(path, t) != Slot(path, u)
  {
    SharedSlots(path, t, u);
  }

  // ----- runs -----

  function Run(path: string, s: State, writes: seq<Write>): (r: State) {
    if writes == [] then s
    else Save(path, Run(path, s, writes[..|writes| - 1]), writes[|writes| - 1]).0
  }

  /** What a reader of the file finds for a setting. */
  function Get(root: Fields, t: Target): (r: Option<Json>) {
    var fields := if t.nested then Block(root) else root;
    if t.key in fields then Some(fields[t.key]) else None
  }

  function Found(value: Json): (r: Option<Json>) {
    if value.Null? then None else Some(value)
  }

  function LastSequence(path: string, s: State, t: Target): (r: int) {
    if Slot(path, t) in s.last then s.last[Slot(path, t)] else -1
  }

  /** A write that would land if it came alone after `s`. */
  predicate Eligible(path: string, s: State, w: Write, t: Target) {
    w.target == t && w.loads && w.writes && w.sequence > LastSequence(path, s, t)
  }

  /** The eligible write with the highest sequence number. */
  ghost predicate Wins(path: string, s: State, writes: set<Write>, t: Target, w: Write) {
    && w in writes && Eligible(path, s, w, t)
    && forall x :: x in writes && Eligible(path, s, x, t) ==> x.sequence <= w.sequence
  }

  ghost predicate NoneEligible(path: string, s: State, writes: set<Write>, t: Target) {
    forall x :: x in writes ==> !Eligible(path, s, x, t)
  }

  /** Sequence numbers tell the writes of a setting apart. */
  ghost predicate WellSequenced(writes: set<Write>) {
    forall x, y :: x in writes && y in writes && x.target == y.target && x.sequence == y.sequence ==> x == y
  }

  /** No write interferes with the setting. */
  ghost predicate Apart(t: Target, writes: set<Write>) {
    forall w :: w in writes ==> !Interferes(t, w.target)
  }

  ghost predicate Independent(targets: set<Target>) {
    forall t, u :: t in targets && u in targets ==> !Interferes(t, u)
  }

  ghost function Targets(writes: seq<Write>): (r: set<Target>) {
    set w | w in writes :: w.target
  }

  ghost function SetOf(writes: seq<Write>): (r: set<Write>) {
    set w | w in writes
  }

  /** What the file and the slots owe a setting after some writes, whatever their order. */
  ghost predicate Settled(path: string, s: State, writes: set<Write>, after: State, t: Target) {
    && (NoneEligible(path, s, writes, t) ==>
          Get(after.root, t) == Get(s.root, t) && LastSequence(path, after, t) == LastSequence(path, s, t))
    && (forall w :: Wins(path, s, writes, t, w) ==>
          Get(after.root, t) == Found(w.value) && LastSequence(path, after, t) == w.sequence)
  }

  /** What a write answers: it is superseded by one as new, it fails with the file and leaves everything as it was, or
      it is written and its setting reads back. */
  lemma SaveSays(path: string, s: State, w: Write)
    ensures var (after, outcome) := Save(path, s, w);
            && (outcome == Superseded <==> w.sequence <= LastSequence(path, s, w.target))
            && (outcome == Failed <==> w.sequence > LastSequence(path, s, w.target) && !(w.loads && w.writes))
            && (outcome == Written <==> w.sequence > LastSequence(path, s, w.target) && w.loads && w.writes)
            && (outcome != Written ==> after == s)
            && (outcome == Written ==>
                  Get(after.root, w.target) == (if w.value == Null then None else Some(w.value))
                  && LastSequence(path, after, w.target) == w.sequence)
  {
  }

  lemma SaveElsewhere(path: string, s: State, w: Write, t: Target)
    requires w.target != t && !Interferes(t, w.target)
    ensures Get(Save(path, s, w).0.root, t) == Get(s.root, t)
    ensures LastSequence(path, Save(path, s, w).0, t) == LastSequence(path, s, t)
  {
    SlotsDiffer(path, t, w.target);
  }

  lemma SaveHere(path: string, s: State, w: Write)
    ensures var after := Save(path, s, w).0;
            if w.loads && w.writes && w.sequence > LastSequence(path, s, w.target) then
              Get(after.root, w.target) == Found(w.value) && LastSequence(path, after, w.target) == w.sequence
            else after == s
  {
  }

  lemma WinnerExists(path: string, s: State, writes: set<Write>, t: Target)
    ensures NoneEligible(path, s, writes, t) || exists w :: Wins(path, s, writes, t, w)
  {
    if writes != {} {
      var x :| x in writes;
      WinnerExists(path, s, writes - {x}, t);
      if Eligible(path, s, x, t) {
        if w :| Wins(path, s, writes - {x}, t, w) {
          assert Wins(path, s, writes, t, if x.sequence > w.sequence then x else w);
        } else {
          assert Wins(path, s, writes, t, x);
        }
      } else if w :| Wins(path, s, writes - {x}, t, w) {
        assert Wins(path, s, writes, t, w);
      }
    }
  }

  /** One more write keeps every setting settled. */
  lemma SettledStep(path: string, s: State, writes: set<Write>, mid: State, w: Write, t: Target)
    requires WellSequenced(writes + {w}) && !Interferes(t, w.target)
    requires Settled(path, s, writes, mid, t)
    ensures Settled(path, s, writes + {w}, Save(path, mid, w).0, t)
  {
    WinnerExists(path, s, writes, t);
    var more := writes + {w};
    if w.target != t {
      SaveElsewhere(path, mid, w, t);
      assert forall x :: Wins(path, s, more, t, x) ==> Wins(path, s, writes, t, x);
    } else {
      SaveHere(path, mid, w);
      if NoneEligible(path, s, writes, t) {
        if Eligible(path, s, w, t) {
          assert Wins(path, s, more, t, w);
          assert forall x :: Wins(path, s, more, t, x) ==> x == w;
        }
      } else {
        var best :| Wins(path, s, writes, t, best);
        var winner := if Eligible(path, s, w, t) && w.sequence > best.sequence then w else best;
        assert Wins(path, s, more, t, winner);
        assert forall x :: Wins(path, s, more, t, x) ==> x == winner;
      }
    }
  }

  lemma SetOfStep(writes: seq<Write>)
    requires writes != []
    ensures SetOf(writes) == SetOf(writes[..|writes| - 1]) + {writes[|writes| - 1]}
  {
    var n := |writes| - 1;
    assert writes == writes[..n] + [writes[n]];
  }

  /** After any run every setting holds its highest-sequence write among those that could land, or what it held
      before if there is none. */
  lemma {:induction false} WritesSettle(path: string, s: State, writes: seq<Write>, t: Target)
    requires WellSequenced(SetOf(writes)) && Apart(t, SetOf(writes))
    ensures Settled(path, s, SetOf(writes), Run(path, s, writes), t)
  {
    if writes != [] {
      var n := |writes| - 1;
      SetOfStep(writes);
      WritesSettle(path, s, writes[..n], t);
      SettledStep(path, s, SetOf(writes[..n]), Run(path, s, writes[..n]), writes[n], t);
    }
  }

  // ----- the whole file -----

  ghost predicate TouchesBlock(path: string, s: State, writes: set<Write>) {
    exists w :: w in writes && w.target.nested && Eligible(path, s, w, w.target)
  }

  ghost predicate SameAt(a: Fields, b: Fields, key: string) {
    (key in a <==> key in b) && (key in a ==> a[key] == b[key])
  }

  /** The block is an object once a write to it has landed, and is left as it was until then. */
  lemma {:induction false} BlockSettles(path: string, s: State, writes: seq<Write>)
    requires WellSequenced(SetOf(writes)) && Independent(Targets(writes))
    requires forall w :: w in writes ==> w.target != Target(false, TERMINAL)
    ensures var after := Run(path, s, writes).root;
            if TouchesBlock(path, s, SetOf(writes)) then TERMINAL in after && after[TERMINAL].Object?
            else SameAt(after, s.root, TERMINAL)
  {
    if writes != [] {
      var n := |writes| - 1;
      var w, mid := writes[n], Run(path, s, writes[..n]);
      SetOfStep(writes);
      BlockSettles(path, s, writes[..n]);
      StillEligible(path, s, writes);
      TouchesStep(path, s, SetOf(writes[..n]), w);
    }
  }

  /** A write that lands after others would land alone; one that would land alone and does not was outrun by another
      write to its setting. */
  lemma StillEligible(path: string, s: State, writes: seq<Write>)
    requires writes != [] && WellSequenced(SetOf(writes)) && Independent(Targets(writes))
    ensures var w, before := writes[|writes| - 1], writes[..|writes| - 1];
            Eligible(path, Run(path, s, before), w, w.target) ==> Eligible(path, s, w, w.target)
    ensures var w, before := writes[|writes| - 1], writes[..|writes| - 1];
            Eligible(path, s, w, w.target) && !Eligible(path, Run(path, s, before), w, w.target) ==>
              exists x :: x in before && x.target == w.target && Eligible(path, s, x, x.target)
  {
    var n := |writes| - 1;
    var w := writes[n];
    SetOfStep(writes);
    assert forall x :: x in writes[..n] ==> x.target in Targets(writes);
    assert w.target in Targets(writes);
    WritesSettle(path, s, writes[..n], w.target);
    WinnerExists(path, s, SetOf(writes[..n]), w.target);
  }

  lemma TouchesStep(path: string, s: State, writes: set<Write>, w: Write)
    ensures TouchesBlock(path, s, writes + {w})
       <==> TouchesBlock(path, s, writes) || (w.target.nested && Eligible(path, s, w, w.target))
  {
    if w.target.nested && Eligible(path, s, w, w.target) {
      assert w in writes + {w};
    }
  }

  /** Settings no write names, holds or is held by are left alone. */
  lemma {:induction false} OthersUnchanged(path: string, s: State, writes: seq<Write>, t: Target)
    requires forall w :: w in writes ==> w.target != t && !Holds(t, w.target) && !Holds(w.target, t)
    ensures Get(Run(path, s, writes).root, t) == Get(s.root, t)
  {
    if writes != [] {
      OthersUnchanged(path, s, writes[..|writes| - 1], t);
    }
  }

  lemma SameSetting(path: string, s: State, a: seq<Write>, b: seq<Write>, t: Target)
    requires WellSequenced(SetOf(a)) && Independent(Targets(a)) && SetOf(a) == SetOf(b)
    requires t in Targets(a) || forall w :: w in a ==> !Holds(t, w.target) && !Holds(w.target, t)
    ensures Get(Run(path, s, a).root, t) == Get(Run(path, s, b).root, t)
  {
    assert forall w :: (w in a <==> w in SetOf(a)) && (w in b <==> w in SetOf(b));
    if t in Targets(a) {
      WritesSettle(path, s, a, t);
      WritesSettle(path, s, b, t);
      WinnerExists(path, s, SetOf(a), t);
    } else {
      OthersUnchanged(path, s, a, t);
      OthersUnchanged(path, s, b, t);
    }
  }

  lemma SameBlock(path: string, s: State, a: seq<Write>, b: seq<Write>)
    requires WellSequenced(SetOf(a)) && Independent(Targets(a)) && SetOf(a) == SetOf(b) && Targets(a) == Targets(b)
    ensures SameAt(Run(path, s, a).root, Run(path, s, b).root, TERMINAL)
  {
    var p, q, whole := Run(path, s, a).root, Run(path, s, b).root, Target(false, TERMINAL);
    if whole in Targets(a) {
      SameSetting(path, s, a, b, whole);
    } else {
      assert forall w :: w in a || w in b ==> w.target in Targets(a);
      BlockSettles(path, s, a);
      BlockSettles(path, s, b);
      if TouchesBlock(path, s, SetOf(a)) {
        forall key
          ensures SameAt(Block(p), Block(q), key)
        {
          SameSetting(path, s, a, b, Target(true, key));
        }
        SameFields(Block(p), Block(q));
      }
    }
  }

  /** Runs of the same writes leave the same JSON object, in whatever order they finish and whichever of them fail,
      unless two of their settings interfere; so it is the one that running them in sequence order would leave. */
  lemma OrderDoesNotMatter(path: string, s: State, a: seq<Write>, b: seq<Write>)
    requires forall x, y :: x in a && y in a && x.target == y.target && x.sequence == y.sequence ==> x == y
    requires Independent(Targets(a)) && forall w :: w in a <==> w in b
    ensures Run(path, s, a).root == Run(path, s, b).root
  {
    var p, q := Run(path, s, a).root, Run(path, s, b).root;
    assert forall w :: (w in a <==> w in SetOf(a)) && (w in b <==> w in SetOf(b));
    SameBlock(path, s, a, b);
    forall key | key != TERMINAL
      ensures SameAt(p, q, key)
    {
      SameSetting(path, s, a, b, Target(false, key));
    }
    SameFields(p, q);
  }

  lemma SameFields(a: Fields, b: Fields)
    requires forall key :: SameAt(a, b, key)
    ensures a == b
  {
    assert forall key :: SameAt(a, b, key) ==> (key in a <==> key in b);
  }

  // ----- why settings must not interfere -----

  lemma RunTwo(path: string, s: State, a: Write, b: Write)
    ensures Run(path, s, [a, b]) == Save(path, Save(path, s, a).0, b).0
  {
    assert [a, b][..1] == [a] && [a][..0] == [];
    assert Run(path, s, []) == s;
    assert Run(path, s, [a]) == Save(path, s, a).0;
  }

  lemma DottedIsLonger(key: string)
    ensures TERMINAL + "." + key != TERMINAL
  {
    assert |TERMINAL + "." + key| > |TERMINAL|;
  }

  /** A top-level key spelled like a block key takes its slot: a write to the block is dropped though nothing newer
      was ever written to it. */
  lemma DottedKeyShadowsBlockKey(path: string, s: State, key: string, v: Json, u: Json, n: nat)
    requires s.last == map[]
    ensures var dotted := Write(Target(false, TERMINAL + "." + key), v, n + 1, true, true);
            var nested := Write(Target(true, key), u, n, true, true);
            && Get(Run(path, s, [dotted, nested]).root, nested.target) == Get(s.root, nested.target)
            && Get(Run(path, s, [nested, dotted]).root, nested.target) == Found(u)
  {
    var dotted := Write(Target(false, TERMINAL + "." + key), v, n + 1, true, true);
    var nested := Write(Target(true, key), u, n, true, true);
    SharedSlots(path, dotted.target, nested.target);
    DottedIsLonger(key);
    RunTwo(path, s, dotted, nested);
    RunTwo(path, s, nested, dotted);
    SaveHere(path, s, nested);
    SaveHere(path, s, dotted);
    assert Save(path, Save(path, s, dotted).0, nested).1 == Superseded;
  }

  /** A top-level write to `terminal` itself carries the block away with it, newer writes to the block included. */
  lemma WritingTheBlockDropsItsKeys(path: string, s: State, key: string, u: Json, n: nat)
    requires s.last == map[] && !u.Null?
    ensures var whole := Write(Target(false, TERMINAL), Null, n, true, true);
            var nested := Write(Target(true, key), u, n + 1, true, true);
            && Get(Run(path, s, [whole, nested]).root, nested.target) == Some(u)
            && Get(Run(path, s, [nested, whole]).root, nested.target) == None
  {
    var whole := Write(Target(false, TERMINAL), Null, n, true, true);
    var nested := Write(Target(true, key), u, n + 1, true, true);
    SharedSlots(path, whole.target, nested.target);
    DottedIsLonger(key);
    RunTwo(path, s, whole, nested);
    RunTwo(path, s, nested, whole);
    SaveHere(path, Save(path, s, whole).0, nested);
    assert Save(path, Save(path, s, nested).0, whole).1 == Written;
  }

  /** Every two settings that interfere have two writes, told apart by their sequence numbers, whose order shows. */
  lemma InterferingWritesConflict(path: string, t: Target, u: Target) returns (w: Write, x: Write)
    requires Interferes(t, u)
    ensures w.target == t && x.target == u && w.sequence != x.sequence
    ensures Run(path, State(map[], map[]), [w, x]).root != Run(path, State(map[], map[]), [x, w]).root
    decreases !u.nested
  {
    var s := State(map[], map[]);
    if u.nested {
      if Holds(t, u) {
        w, x := Write(t, Null, 0, true, true), Write(u, Bool(true), 1, true, true);
        WritingTheBlockDropsItsKeys(path, s, u.key, Bool(true), 0);
      } else {
        w, x := Write(t, Null, 1, true, true), Write(u, Bool(true), 0, true, true);
        DottedKeyShadowsBlockKey(path, s, u.key, Null, Bool(true), 0);
      }
    } else {
      x, w := InterferingWritesConflict(path, u, t);
    }
  }

  /** Writes to these settings always leave the same JSON object, whatever was there, in whatever order they finish and
      whichever of them fail. */
  ghost predicate OrderNeverShows(path: string, targets: set<Target>) {
    forall s, a, b :: Targets(a) <= targets && WellSequenced(SetOf(a)) && SetOf(a) == SetOf(b) ==>
      Run(path, s, a).root == Run(path, s, b).root
  }

  /** The exact condition: no two of the settings interfere. */
  lemma OrderNeverShowsExactly(path: string, targets: set<Target>)
    ensures OrderNeverShows(path, targets) <==> Independent(targets)
  {
    if Independent(targets) {
      forall s, a, b | Targets(a) <= targets && WellSequenced(SetOf(a)) && SetOf(a) == SetOf(b)
        ensures Run(path, s, a).root == Run(path, s, b).root
      {
        assert forall w :: (w in a <==> w in SetOf(a)) && (w in b <==> w in SetOf(b));
        OrderDoesNotMatter(path, s, a, b);
      }
    } else {
      var t, u :| t in targets && u in targets && Interferes(t, u);
      var w, x := InterferingWritesConflict(path, t, u);
      assert Targets([w, x]) == {t, u};
      assert SetOf([w, x]) == {w, x} == SetOf([x, w]);
    }
  }

  // ----- a sufficient condition on single keys -----

  /** A top-level key that cannot be taken for the `terminal` block or for one of its keys. */
  predicate Safe(t: Target) {
    t.nested || (t.key != TERMINAL && !StartsWith(t.key, TERMINAL + "."))
  }

  lemma SpelledIsUnsafe(t: Target, u: Target)
    requires Spells(t, u)
    ensures !Safe(t)
  {
    assert t.key[..|TERMINAL + "."|] == TERMINAL + ".";
  }

  /** Safe settings never interfere with anything safe, and every other setting interferes with a safe one. */
  lemma SafeSettingsAreIndependent(targets: set<Target>, t: Target)
    ensures (forall u :: u in targets ==> Safe(u)) ==> Independent(targets)
    ensures !Safe(t) ==> exists u :: Safe(u) && Interferes(t, u)
  {
    forall u, v | Spells(u, v)
      ensures !Safe(u)
    {
      SpelledIsUnsafe(u, v);
    }
    if !Safe(t) {
      var key := if t.key == TERMINAL then "" else t.key[|TERMINAL + "."|..];
      assert t.key != TERMINAL ==> t.key == TERMINAL + "." + key;
      assert Safe(Target(true, key)) && Interferes(t, Target(true, key));
    }
  }

  /** So each unsafe key has two writes, the other to a safe setting, whose order shows. */
  lemma UnsafeKeysConflict(path: string, t: Target) returns (w: Write, x: Write)
    requires !Safe(t)
    ensures w.target == t && Safe(x.target) && w.sequence != x.sequence
    ensures var s := State(map[], map[]);
            Run(path, s, [w, x]).root != Run(path, s, [x, w]).root
  {
    SafeSettingsAreIndependent({}, t);
    var u :| Safe(u) && Interferes(t, u);
    w, x := InterferingWritesConflict(path, t, u);
  }
}
