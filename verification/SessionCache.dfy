/** The session-listing cache (`agent_sessions.rs`): access numbers in a map, against the log of its uses. */
module SessionCache {
  import opened Basics
  import Collector

  const MAX_CACHE_ENTRIES: nat := 10

  /** File times in nanoseconds. */
  type Time = int
  const MTIME_FUZZ: Time := 1_000_000

  datatype Key = Key(agent: nat, cwd: string)
  datatype Listing = Listing(sessions: seq<Collector.SessionMeta>, omitted: nat)
  datatype Stored = Stored(mtime: Time, listing: Listing)
  datatype Entry = Entry(stored: Stored, accessSeq: nat)

  type Store = map<Key, Entry>

  predicate WithinFuzz(cached: Time, observed: Time) {
    0 <= observed - cached < MTIME_FUZZ
  }

  // ----- least recently used, said of the log of uses -----

  /** The place of the last use of `k` in the log. */
  function LastUse(uses: seq<Key>, k: Key): (i: nat)
    requires k in uses
    ensures i < |uses| && uses[i] == k && k !in uses[i + 1..]
  {
    if uses[|uses| - 1] == k then |uses| - 1 else LastUse(uses[..|uses| - 1], k)
  }

  /** The keys used after the last use of `k`. */
  ghost function UsedSince(uses: seq<Key>, k: Key): (r: set<Key>)
    requires k in uses
  {
    set y | y in uses && LastUse(uses, y) > LastUse(uses, k)
  }

  /** Least recently used, with room for ten: a key is kept until ten others have been used since its last use. */
  ghost predicate Kept(uses: seq<Key>, k: Key) {
    k in uses && |UsedSince(uses, k)| < 10
  }

  lemma LastUseAfter(uses: seq<Key>, k: Key, x: Key)
    requires x in uses + [k]
    ensures LastUse(uses + [k], x) == if x == k then |uses| else LastUse(uses, x)
  {
    assert (uses + [k])[..|uses|] == uses;
  }

  lemma IsUsedSinceAfter(uses: seq<Key>, k: Key, x: Key, y: Key)
    requires x in uses + [k]
    ensures y in UsedSince(uses + [k], x) <==> x != k && (y == k || (x in uses && y in UsedSince(uses, x)))
  {
    LastUseAfter(uses, k, x);
    if y in uses + [k] {
      LastUseAfter(uses, k, y);
    }
  }

  lemma UsedSinceAfter(uses: seq<Key>, k: Key, x: Key)
    requires x in uses + [k]
    ensures UsedSince(uses + [k], x) == if x == k then {} else UsedSince(uses, x) + {k}
  {
    forall y
      ensures y in UsedSince(uses + [k], x) <==> x != k && (y == k || (x in uses && y in UsedSince(uses, x)))
    {
      IsUsedSinceAfter(uses, k, x, y);
    }
  }

  lemma SmallerSet<T>(a: set<T>, b: set<T>)
    requires a <= b
    ensures |a| <= |b|
    ensures a < b ==> |a| < |b|
  {
    assert b == a + (b - a);
  }

  /** Keys used since a kept key are kept. */
  lemma KeptIsClosed(uses: seq<Key>, x: Key, y: Key)
    requires Kept(uses, x) && y in UsedSince(uses, x)
    ensures Kept(uses, y)
  {
    SmallerSet(UsedSince(uses, y), UsedSince(uses, x));
  }

  lemma StaysKept(uses: seq<Key>, key: Key, k: Key, others: set<Key>)
    requires k in uses && k != key && |others| < MAX_CACHE_ENTRIES
    requires UsedSince(uses, k) + {key} <= others
    ensures Kept(uses + [key], k)
  {
    UsedSinceAfter(uses, key, k);
    SmallerSet(UsedSince(uses + [key], k), others);
  }

  lemma StaysOut(uses: seq<Key>, key: Key, k: Key, others: set<Key>)
    requires k in uses ==> others <= UsedSince(uses, k) + {key}
    requires k != key && |others| >= MAX_CACHE_ENTRIES
    ensures !Kept(uses + [key], k)
  {
    if k in uses {
      UsedSinceAfter(uses, key, k);
      SmallerSet(others, UsedSince(uses + [key], k));
    }
  }

  // ----- the map of access numbers -----

  ghost predicate HoldsKept(store: Store, uses: seq<Key>) {
    |store| <= MAX_CACHE_ENTRIES && forall k :: k in store <==> Kept(uses, k)
  }

  ghost predicate NumbersUses(store: Store, uses: seq<Key>) {
    forall k :: k in store ==> k in uses && store[k].accessSeq == LastUse(uses, k)
  }

  ghost predicate HoldsLast(store: Store, last: map<Key, Stored>) {
    forall k :: k in store ==> k in last && store[k].stored == last[k]
  }

  /** The map holds the kept keys, each with the number of its last use and the last listing stored for it. */
  ghost predicate Tells(store: Store, uses: seq<Key>, last: map<Key, Stored>) {
    HoldsKept(store, uses) && NumbersUses(store, uses) && HoldsLast(store, last)
  }

  predicate IsVictim(store: Store, k: Key) {
    k in store && forall x :: x in store ==> store[k].accessSeq <= store[x].accessSeq
  }

  lemma {:induction false} VictimExists(store: Store)
    requires store != map[]
    ensures exists k :: IsVictim(store, k)
    decreases |store|
  {
    var k :| k in store;
    var rest := store - {k};
    assert store.Keys == rest.Keys + {k};
    if rest == map[] {
      assert store.Keys == {k};
      assert IsVictim(store, k);
    } else {
      assert |store.Keys| == |rest.Keys| + 1;
      VictimExists(rest);
      var v :| IsVictim(rest, v);
      assert IsVictim(store, if store[k].accessSeq <= store[v].accessSeq then k else v);
    }
  }

  /** The room a use of `key` needs: none if it is held or there is room, else the victim's. */
  ghost predicate MakesRoom(store: Store, key: Key, kept: Store) {
    if key in store || |store| < MAX_CACHE_ENTRIES then kept == store
    else exists v :: IsVictim(store, v) && kept == store - {v}
  }

  lemma SetSizes(s: set<Key>, a: Key, b: Key, c: Key)
    requires a in s && c !in s
    ensures |s - {a}| == |s| - 1 && |s - {a} + {c}| == |s|
    ensures b in s && a != b ==> |s - {a, b} + {c}| == |s| - 1
  {
    assert s - {a, b} == s - {a} - {b};
  }

  lemma UsedSinceIsHeld(store: Store, uses: seq<Key>, k: Key)
    requires HoldsKept(store, uses) && k in store
    ensures k in uses && UsedSince(uses, k) <= store.Keys - {k}
  {
    forall y | y in UsedSince(uses, k)
      ensures y in store
    {
      KeptIsClosed(uses, k, y);
    }
  }

  lemma HeldWhenRoom(store: Store, uses: seq<Key>, key: Key, k: Key)
    requires HoldsKept(store, uses) && k in store && k != key
    requires key in store || |store| < MAX_CACHE_ENTRIES
    ensures Kept(uses + [key], k)
  {
    UsedSinceIsHeld(store, uses, k);
    if key in store {
      assert |store.Keys - {k}| == |store.Keys| - 1;
      StaysKept(uses, key, k, store.Keys - {k});
    } else {
      SetSizes(store.Keys, k, k, key);
      StaysKept(uses, key, k, store.Keys - {k} + {key});
    }
  }

  lemma UsedSinceVictim(store: Store, uses: seq<Key>, v: Key)
    requires NumbersUses(store, uses) && IsVictim(store, v)
    ensures store.Keys - {v} <= UsedSince(uses, v)
  {
    forall x | x in store.Keys - {v}
      ensures x in UsedSince(uses, v)
    {
      LastUseIsInjective(uses, x, v);
    }
  }

  lemma VictimFalls(store: Store, uses: seq<Key>, key: Key, v: Key)
    requires HoldsKept(store, uses) && NumbersUses(store, uses) && IsVictim(store, v)
    requires key !in store && |store| == MAX_CACHE_ENTRIES
    ensures !Kept(uses + [key], v)
  {
    UsedSinceVictim(store, uses, v);
    SetSizes(store.Keys, v, v, key);
    StaysOut(uses, key, v, store.Keys - {v} + {key});
  }

  lemma LastUseIsInjective(uses: seq<Key>, x: Key, y: Key)
    requires x in uses && y in uses && x != y
    ensures LastUse(uses, x) != LastUse(uses, y)
  {
  }

  lemma OthersStay(store: Store, uses: seq<Key>, key: Key, v: Key, k: Key)
    requires HoldsKept(store, uses) && NumbersUses(store, uses) && IsVictim(store, v)
    requires key !in store && |store| == MAX_CACHE_ENTRIES && k in store && k != v
    ensures Kept(uses + [key], k)
  {
    UsedSinceIsHeld(store, uses, k);
    assert v !in UsedSince(uses, k);
    SetSizes(store.Keys, k, v, key);
    StaysKept(uses, key, k, store.Keys - {k, v} + {key});
  }

  lemma StrangersStayOut(store: Store, uses: seq<Key>, key: Key, k: Key)
    requires HoldsKept(store, uses) && k !in store && k != key
    ensures !Kept(uses + [key], k)
  {
    if k in uses {
      StaysOut(uses, key, k, UsedSince(uses, k));
    }
  }

  lemma TheUsedIsKept(uses: seq<Key>, key: Key)
    ensures Kept(uses + [key], key)
  {
    UsedSinceAfter(uses, key, key);
  }

  lemma OnlyTheVictimFalls(store: Store, uses: seq<Key>, key: Key, v: Key, k: Key)
    requires HoldsKept(store, uses) && NumbersUses(store, uses) && IsVictim(store, v)
    requires key !in store && |store| == MAX_CACHE_ENTRIES && k in store
    ensures Kept(uses + [key], k) <==> k != v
  {
    if k == v { VictimFalls(store, uses, key, v); } else { OthersStay(store, uses, key, v, k); }
  }

  /** After a use, the keys kept are the room that was made and the key. */
  lemma KeptAfterUse(store: Store, uses: seq<Key>, key: Key, kept: Store, k: Key)
    requires HoldsKept(store, uses) && NumbersUses(store, uses) && MakesRoom(store, key, kept)
    ensures Kept(uses + [key], k) <==> k in kept || k == key
  {
    if k == key {
      TheUsedIsKept(uses, key);
    } else if k !in store {
      StrangersStayOut(store, uses, key, k);
    } else if key in store || |store| < MAX_CACHE_ENTRIES {
      HeldWhenRoom(store, uses, key, k);
    } else {
      var v :| IsVictim(store, v) && kept == store - {v};
      OnlyTheVictimFalls(store, uses, key, v, k);
    }
  }

  lemma RoomIsEnough(store: Store, key: Key, kept: Store, entry: Entry)
    requires |store| <= MAX_CACHE_ENTRIES && MakesRoom(store, key, kept)
    ensures |kept[key := entry]| <= MAX_CACHE_ENTRIES
    ensures forall k :: k in kept ==> k in store && kept[k] == store[k]
  {
    assert kept[key := entry].Keys == kept.Keys + {key};
    if key in store || |store| < MAX_CACHE_ENTRIES {
    } else {
      var v :| IsVictim(store, v) && kept == store - {v};
      assert kept.Keys == store.Keys - {v};
      assert |kept.Keys| == |store.Keys| - 1;
    }
  }

  lemma HoldsKeptAfterUse(store: Store, uses: seq<Key>, key: Key, kept: Store, entry: Entry)
    requires HoldsKept(store, uses) && NumbersUses(store, uses) && MakesRoom(store, key, kept)
    ensures HoldsKept(kept[key := entry], uses + [key])
  {
    RoomIsEnough(store, key, kept, entry);
    forall k
      ensures k in kept[key := entry] <==> Kept(uses + [key], k)
    {
      KeptAfterUse(store, uses, key, kept, k);
    }
  }

  lemma NumbersUsesAfterUse(store: Store, uses: seq<Key>, key: Key, kept: Store, entry: Entry)
    requires NumbersUses(store, uses) && entry.accessSeq == |uses|
    requires forall k :: k in kept ==> k in store && kept[k] == store[k]
    ensures NumbersUses(kept[key := entry], uses + [key])
  {
    forall k | k in kept[key := entry]
      ensures k in uses + [key] && kept[key := entry][k].accessSeq == LastUse(uses + [key], k)
    {
      LastUseAfter(uses, key, k);
    }
  }

  lemma HoldsLastAfterUse(store: Store, last: map<Key, Stored>, key: Key, kept: Store, entry: Entry)
    requires HoldsLast(store, last)
    requires forall k :: k in kept ==> k in store && kept[k] == store[k]
    ensures HoldsLast(kept[key := entry], last[key := entry.stored])
  {
  }

  /** A use leaves a map that tells the kept keys again. */
  lemma UseKeepsTelling(store: Store, uses: seq<Key>, last: map<Key, Stored>, key: Key, stored: Stored, kept: Store)
    requires Tells(store, uses, last) && MakesRoom(store, key, kept)
    ensures Tells(kept[key := Entry(stored, |uses|)], uses + [key], last[key := stored])
  {
    var entry := Entry(stored, |uses|);
    RoomIsEnough(store, key, kept, entry);
    HoldsKeptAfterUse(store, uses, key, kept, entry);
    NumbersUsesAfterUse(store, uses, key, kept, entry);
    HoldsLastAfterUse(store, last, key, kept, entry);
  }

  /** What a lookup owes: the last listing stored for the key, if the key is kept and the file has not moved on. */
  ghost function Expected(uses: seq<Key>, last: map<Key, Stored>, key: Key, observed: Time): (r: Option<Listing>) {
    if Kept(uses, key) && key in last && 0 <= observed - last[key].mtime < 1_000_000 then Some(last[key].listing)
    else None
  }

  /** The 64-bit counter after `n` uses. */
  function Counter(n: nat): (r: nat) {
    n % U64_MODULUS
  }

  lemma CounterAdvances(n: nat)
    ensures (Counter(n) + 1) % U64_MODULUS == Counter(n + 1)
    ensures n < U64_MODULUS ==> Counter(n) == n
  {
  }

  lemma StillKept(uses: seq<Key>, key: Key, newcomer: Key)
    requires key != newcomer
    ensures Kept(uses + [key] + [newcomer], key)
  {
    UsedSinceAfter(uses, key, key);
    UsedSinceAfter(uses + [key], newcomer, key);
    assert UsedSince(uses + [key] + [newcomer], key) == {newcomer};
  }

  lemma SmallestIsVictim(kept: Store, key: Key, after: Store)
    requires key in after && after == kept[key := after[key]] && after[key].accessSeq == 0
    ensures IsVictim(after, key)
    ensures (forall k :: k in kept && k != key ==> kept[k].accessSeq > 0) ==>
              forall v :: IsVictim(after, v) ==> v == key
  {
  }

  /** The use after the counter's last number gets number 0 again: the key just used is then a victim of the next
      new key, though recency keeps it, and the only one unless another held key was last used first of all. */
  lemma WrapDropsTheNewest(store: Store, uses: seq<Key>, key: Key, stored: Stored, kept: Store, after: Store,
                           newcomer: Key, entry: Entry)
    requires |uses| == U64_MODULUS && MakesRoom(store, key, kept)
    requires after == kept[key := Entry(stored, Counter(|uses|))] && |after| == MAX_CACHE_ENTRIES && newcomer !in after
    ensures IsVictim(after, key) && MakesRoom(after, newcomer, after - {key})
    ensures (forall k :: k in kept && k != key ==> kept[k].accessSeq > 0) ==>
              forall v :: IsVictim(after, v) ==> v == key
    ensures Kept(uses + [key] + [newcomer], key)
    ensures !HoldsKept((after - {key})[newcomer := entry], uses + [key] + [newcomer])
  {
    SmallestIsVictim(kept, key, after);
    StillKept(uses, key, newcomer);
    assert key !in (after - {key})[newcomer := entry];
  }

  // ----- how long the map is right -----

  /** What holds after any number of uses: the numbers are those of the last uses until the counter comes round, and
      the keys are the kept ones for one use more. */
  ghost predicate Lasts(store: Store, uses: seq<Key>) {
    && |store| <= MAX_CACHE_ENTRIES
    && (|uses| <= U64_MODULUS + 1 ==> HoldsKept(store, uses))
    && (|uses| <= U64_MODULUS ==> NumbersUses(store, uses))
  }

  lemma UseLasts(store: Store, uses: seq<Key>, key: Key, stored: Stored, kept: Store)
    requires Lasts(store, uses) && MakesRoom(store, key, kept)
    ensures Lasts(kept[key := Entry(stored, Counter(|uses|))], uses + [key])
  {
    var entry := Entry(stored, Counter(|uses|));
    CounterAdvances(|uses|);
    RoomIsEnough(store, key, kept, entry);
    if |uses| <= U64_MODULUS {
      HoldsKeptAfterUse(store, uses, key, kept, entry);
    }
    if |uses| < U64_MODULUS {
      NumbersUsesAfterUse(store, uses, key, kept, entry);
    }
  }

  /** The map and the counter after these uses and these stores. */
  ghost predicate Fits(store: Store, nextSeq: nat, uses: seq<Key>, last: map<Key, Stored>) {
    nextSeq == Counter(|uses|) && Lasts(store, uses) && HoldsLast(store, last)
  }

  lemma UseFits(store: Store, n: nat, uses: seq<Key>, last: map<Key, Stored>, key: Key, stored: Stored, kept: Store)
    requires Fits(store, n, uses, last) && MakesRoom(store, key, kept)
    ensures Fits(kept[key := Entry(stored, n)], (n + 1) % U64_MODULUS, uses + [key], last[key := stored])
  {
    CounterAdvances(|uses|);
    UseLasts(store, uses, key, stored, kept);
    RoomIsEnough(store, key, kept, Entry(stored, n));
    HoldsLastAfterUse(store, last, key, kept, Entry(stored, n));
  }

  /** A use of `key` after `uses`: room is made, and the key gets the counter's number. */
  ghost predicate UseStep(store: Store, uses: seq<Key>, key: Key, after: Store) {
    && key in after && after[key].accessSeq == Counter(|uses|)
    && exists kept :: MakesRoom(store, key, kept) && after == kept[key := after[key]]
  }

  ghost predicate IsTrace(uses: seq<Key>, states: seq<Store>) {
    && |states| == |uses| + 1 && states[0] == map[]
    && forall i :: 0 <= i < |uses| ==> UseStep(states[i], uses[..i], uses[i], states[i + 1])
  }

  /** In all runs of at most `n` uses the map ends with exactly the kept keys. */
  ghost predicate KeepsFor(n: nat) {
    forall uses, states :: IsTrace(uses, states) && |uses| <= n ==> HoldsKept(states[|uses|], uses)
  }

  lemma StepLasts(store: Store, uses: seq<Key>, key: Key, after: Store)
    requires Lasts(store, uses) && UseStep(store, uses, key, after)
    ensures Lasts(after, uses + [key])
  {
    var kept :| MakesRoom(store, key, kept) && after == kept[key := after[key]];
    UseLasts(store, uses, key, after[key].stored, kept);
  }

  ghost predicate Preserves(p: (Store, seq<Key>) -> bool, store: Store, uses: seq<Key>, key: Key, after: Store) {
    p(store, uses) && UseStep(store, uses, key, after) ==> p(after, uses + [key])
  }

  /** What holds at the start and is kept by every use holds all along a run. */
  lemma {:induction false} TraceKeeps(p: (Store, seq<Key>) -> bool, uses: seq<Key>, states: seq<Store>, n: nat)
    requires p(map[], [])
    requires forall store, before, key, after :: Preserves(p, store, before, key, after)
    requires IsTrace(uses, states) && n <= |uses|
    ensures p(states[n], uses[..n])
  {
    if n > 0 {
      var before, key := uses[..n - 1], uses[n - 1];
      TraceKeeps(p, uses, states, n - 1);
      assert UseStep(states[n - 1], before, key, states[n - 1 + 1]);
      assert Preserves(p, states[n - 1], before, key, states[n]);
      assert uses[..n] == before + [key];
    }
  }

  lemma TraceLasts(uses: seq<Key>, states: seq<Store>, n: nat)
    requires IsTrace(uses, states) && n <= |uses|
    ensures Lasts(states[n], uses[..n])
  {
    var p := (store: Store, before: seq<Key>) => Lasts(store, before);
    forall store, before, key, after
      ensures Preserves(p, store, before, key, after)
    {
      if Lasts(store, before) && UseStep(store, before, key, after) {
        StepLasts(store, before, key, after);
      }
    }
    TraceKeeps(p, uses, states, n);
  }

  lemma TraceGrows(uses: seq<Key>, states: seq<Store>, key: Key, after: Store)
    requires IsTrace(uses, states) && UseStep(states[|uses|], uses, key, after)
    ensures IsTrace(uses + [key], states + [after])
  {
    var more, all := uses + [key], states + [after];
    forall i | 0 <= i < |more|
      ensures UseStep(all[i], more[..i], more[i], all[i + 1])
    {
      if i < |uses| {
        assert more[..i] == uses[..i] && all[i] == states[i] && all[i + 1] == states[i + 1];
      } else {
        assert more[..i] == uses;
      }
    }
  }

  lemma UseIsPossible(store: Store, uses: seq<Key>, key: Key, stored: Stored) returns (after: Store)
    ensures UseStep(store, uses, key, after)
  {
    var kept := store;
    if key !in store && |store| >= MAX_CACHE_ENTRIES {
      VictimExists(store);
      var v :| IsVictim(store, v);
      kept := store - {v};
    }
    assert MakesRoom(store, key, kept);
    after := kept[key := Entry(stored, Counter(|uses|))];
    assert after == kept[key := after[key]];
  }

  const ANY := Stored(0, Listing([], 0))

  lemma {:induction false} TraceExists(uses: seq<Key>) returns (states: seq<Store>)
    ensures IsTrace(uses, states)
    decreases |uses|
  {
    if uses == [] {
      states := [map[]];
    } else {
      var n := |uses| - 1;
      states := TraceExists(uses[..n]);
      var after := UseIsPossible(states[n], uses[..n], uses[n], ANY);
      TraceGrows(uses[..n], states, uses[n], after);
      assert uses == uses[..n] + [uses[n]];
      states := states + [after];
    }
  }

  // ----- ten keys and an eleventh -----

  function RingKey(j: nat): (k: Key) {
    Key(j, "")
  }

  function Ring(n: nat): (r: set<Key>) {
    if n == 0 then {} else Ring(n - 1) + {RingKey(n - 1)}
  }

  lemma {:induction false} RingSize(n: nat)
    ensures |Ring(n)| == n
    ensures forall j: nat :: RingKey(j) in Ring(n) ==> j < n
  {
    if n > 0 {
      RingSize(n - 1);
    }
  }

  lemma {:induction false} RingHas(n: nat, j: nat)
    requires j < n
    ensures RingKey(j) in Ring(n)
  {
    if j < n - 1 {
      RingHas(n - 1, j);
    }
  }

  lemma {:induction false} RingKeyOf(n: nat, k: Key) returns (j: nat)
    requires k in Ring(n)
    ensures j < n && k == RingKey(j)
  {
    if k == RingKey(n - 1) {
      j := n - 1;
    } else {
      j := RingKeyOf(n - 1, k);
    }
  }

  /** The `m` keys of the ring once each, and then the first over and over. */
  function Round(n: nat, m: nat): (uses: seq<Key>)
    ensures |uses| == n
    ensures forall i :: 0 <= i < n ==> uses[i] == RingKey(if i < m then i else 0)
  {
    seq(n, i requires 0 <= i < n => RingKey(if i < m then i else 0))
  }

  lemma RoundIsRing(n: nat, m: nat, k: Key)
    requires 0 < m <= n
    ensures k in Round(n, m) <==> k in Ring(m)
  {
    var uses := Round(n, m);
    if k in uses {
      var i :| 0 <= i < n && uses[i] == k;
      RingHas(m, if i < m then i else 0);
    }
    if k in Ring(m) {
      var j := RingKeyOf(m, k);
      assert uses[j] == k;
    }
  }

  lemma RoundKeepsTheRing(n: nat, m: nat, k: Key)
    requires 0 < m <= n && m == MAX_CACHE_ENTRIES
    ensures Kept(Round(n, m), k) <==> k in Ring(m)
  {
    var uses, ring := Round(n, m), Ring(m);
    RoundIsRing(n, m, k);
    if k in ring {
      RingSize(m);
      forall y | y in UsedSince(uses, k)
        ensures y in ring - {k}
      {
        RoundIsRing(n, m, y);
      }
      SmallerSet(UsedSince(uses, k), ring - {k});
    }
  }

  lemma KeysAre(store: Store, keys: set<Key>)
    requires forall k :: k in store <==> k in keys
    ensures |store| == |keys|
  {
    assert store.Keys == keys;
  }

  lemma RoundFillsTheMap(store: Store, n: nat, m: nat)
    requires 0 < m <= n && m == MAX_CACHE_ENTRIES
    requires forall k :: k in store <==> Kept(Round(n, m), k)
    ensures |store| == m && forall j: nat :: RingKey(j) in store <==> j < m
  {
    forall k
      ensures k in store <==> k in Ring(m)
    {
      RoundKeepsTheRing(n, m, k);
    }
    KeysAre(store, Ring(m));
    RingSize(m);
    forall j: nat | j < m
      ensures RingKey(j) in Ring(m)
    {
      RingHas(m, j);
    }
  }

  lemma FailAfterRound(first: seq<Key>, states: seq<Store>, key: Key, newcomer: Key)
    returns (uses: seq<Key>, more: seq<Store>)
    requires IsTrace(first, states) && |first| == U64_MODULUS
    requires var store := states[|first|];
             |store| == MAX_CACHE_ENTRIES && key in store && newcomer !in store
    ensures IsTrace(uses, more) && |uses| == U64_MODULUS + 2
    ensures !HoldsKept(more[|uses|], uses)
  {
    var store := states[|first|];
    var after := store[key := Entry(ANY, Counter(|first|))];
    assert after.Keys == store.Keys && |after| == |after.Keys| == |store.Keys|;
    assert MakesRoom(store, key, store) && after == store[key := after[key]];
    var last := (after - {key})[newcomer := Entry(ANY, Counter(|first| + 1))];
    WrapDropsTheNewest(store, first, key, ANY, store, after, newcomer, last[newcomer]);
    assert last == (after - {key})[newcomer := last[newcomer]];
    TraceGrows(first, states, key, after);
    TraceGrows(first + [key], states + [after], newcomer, last);
    uses, more := first + [key] + [newcomer], states + [after] + [last];
  }

  /** Ten keys are used once each, the first of them over and over until the counter comes round and once more, and
      then an eleventh. */
  lemma ElevenKeysFail(m: nat) returns (uses: seq<Key>, states: seq<Store>)
    requires m == MAX_CACHE_ENTRIES
    ensures IsTrace(uses, states) && |uses| == U64_MODULUS + 2
    ensures !HoldsKept(states[|uses|], uses)
  {
    var first := Round(U64_MODULUS, m);
    var before := TraceExists(first);
    TraceLasts(first, before, |first|);
    assert first[..|first|] == first;
    RoundFillsTheMap(before[|first|], |first|, m);
    uses, states := FailAfterRound(first, before, RingKey(0), RingKey(m));
  }

  /** The exact number of uses for which the map is right: one more than the counter has numbers. */
  lemma KeepsExactly(n: nat)
    ensures KeepsFor(n) <==> n <= U64_MODULUS + 1
  {
    if n <= U64_MODULUS + 1 {
      forall uses, states | IsTrace(uses, states) && |uses| <= n
        ensures HoldsKept(states[|uses|], uses)
      {
        TraceLasts(uses, states, |uses|);
        assert uses[..|uses|] == uses;
      }
    } else {
      var uses, states := ElevenKeysFail(MAX_CACHE_ENTRIES);
      assert IsTrace(uses, states) && |uses| <= n;
    }
  }

  class Cache {
    var store: Store
    /** The 64-bit access counter. */
    var nextSeq: nat
    /** The keys of all stores and hits so far, and the last thing stored under each key. */
    ghost var uses: seq<Key>
    ghost var last: map<Key, Stored>

    /** The map holds the last listings, for as long as it can the kept keys, and the numbers that tell them. */
    ghost predicate Valid()
      reads this
    {
      Fits(store, nextSeq, uses, last)
    }

    constructor ()
      ensures Valid() && uses == [] && last == map[]
    {
      store, nextSeq, uses, last := map[], 0, [], map[];
    }

    method NextAccessSeq() returns (n: nat)
      modifies this`nextSeq
      ensures n == old(nextSeq) && nextSeq == (n + 1) % U64_MODULUS
    {
      n := nextSeq;
      nextSeq := (nextSeq + 1) % U64_MODULUS;
    }

    /** A fresh entry is a hit and counts as a use; a stale one, or none, changes nothing. */
    method LookUp(key: Key, observed: Time) returns (hit: Option<Listing>)
      requires Valid()
      modifies this
      ensures Valid() && last == old(last)
      ensures |old(uses)| <= U64_MODULUS + 1 ==> hit == Expected(old(uses), last, key, observed)
      ensures hit.Some? ==>
                key in last && 0 <= observed - last[key].mtime < 1_000_000 && hit.value == last[key].listing
      ensures if hit.Some? then uses == old(uses) + [key] else uses == old(uses) && store == old(store)
    {
      if key !in store {
        return None;
      }
      var entry := store[key];
      if !WithinFuzz(entry.stored.mtime, observed) {
        return None;
      }
      UseFits(store, nextSeq, uses, last, key, entry.stored, store);
      assert last[key := entry.stored] == last;
      var n := NextAccessSeq();
      store := store[key := entry.(accessSeq := n)];
      uses := uses + [key];
      return Some(entry.stored.listing);
    }

    method MakeRoom(key: Key) returns (kept: Store)
      ensures MakesRoom(store, key, kept)
    {
      kept := store;
      if |store| >= MAX_CACHE_ENTRIES && key !in store {
        VictimExists(store);
        var victim :| victim in store && IsVictim(store, victim);
        kept := store - {victim};
      }
    }

    /** Storing is a use; a new key in a full cache takes the place of the entry with the smallest access number. */
    method StoreResult(key: Key, mtime: Time, sessions: seq<Collector.SessionMeta>, omitted: nat)
      requires Valid()
      modifies this
      ensures Valid()
      ensures uses == old(uses) + [key]
      ensures last == old(last)[key := Stored(mtime, Listing(sessions, omitted))]
    {
      var stored := Stored(mtime, Listing(sessions, omitted));
      var kept := MakeRoom(key);
      UseFits(store, nextSeq, uses, last, key, stored, kept);
      var n := NextAccessSeq();
      store := kept[key := Entry(stored, n)];
      uses := uses + [key];
      last := last[key := stored];
    }
  }
}
