/** The bounded collector of recent sessions (`agent_sessions.rs`), against "stable sort, then take". */
module Collector {
  import opened Basics
  import opened Text
  import Calendar

  const USIZE_MAX: nat := 0xffff_ffff_ffff_ffff

  datatype SessionMeta = SessionMeta(agent: nat, sessionId: string, timestamp: string, cwd: string,
                                     summary: Option<string>)

  predicate Newer(a: SessionMeta, b: SessionMeta) {
    LexLess(b.timestamp, a.timestamp)
  }

  /** For timestamps the program printed before year 10000, newer is later. */
  lemma NewerMeansLater(a: SessionMeta, b: SessionMeta, p: nat, q: nat)
    requires p < Calendar.FIVE_DIGIT_YEARS && q < Calendar.FIVE_DIGIT_YEARS
    requires a.timestamp == Calendar.UnixMillisToIso8601(p) && b.timestamp == Calendar.UnixMillisToIso8601(q)
    ensures Newer(a, b) <==> p > q
  {
    Calendar.TextOrderIsTimeOrder(q, p);
  }

  ghost predicate Descending(s: seq<SessionMeta>) {
    forall i, j :: 0 <= i < j < |s| ==> !Newer(s[j], s[i])
  }

  /** The sessions stamped `t`, in order. */
  ghost function Stamped(s: seq<SessionMeta>, t: string): (r: seq<SessionMeta>) {
    if s == [] then []
    else (if s[0].timestamp == t then [s[0]] else []) + Stamped(s[1..], t)
  }

  /** What a stable descending sort by timestamp promises: newest first, equal timestamps in their old order. */
  ghost predicate IsStableSort(input: seq<SessionMeta>, output: seq<SessionMeta>) {
    Descending(output) && forall t :: Stamped(input, t) == Stamped(output, t)
  }

  /** How many leading sessions are at least as new as `x`. */
  function PartitionPoint(s: seq<SessionMeta>, x: SessionMeta): (k: nat)
    ensures k <= |s|
    ensures forall i :: 0 <= i < k ==> !Newer(x, s[i])
    ensures k < |s| ==> Newer(x, s[k])
  {
    if s == [] || Newer(x, s[0]) then 0 else 1 + PartitionPoint(s[1..], x)
  }

  function InsertAt(s: seq<SessionMeta>, k: nat, x: SessionMeta): (r: seq<SessionMeta>)
    requires k <= |s|
    ensures |r| == |s| + 1
  {
    s[..k] + [x] + s[k..]
  }

  function Insert(s: seq<SessionMeta>, x: SessionMeta): (r: seq<SessionMeta>)
    ensures |r| == |s| + 1
  {
    InsertAt(s, PartitionPoint(s, x), x)
  }

  function Sorted(s: seq<SessionMeta>): (r: seq<SessionMeta>)
    ensures |r| == |s|
  {
    if s == [] then [] else Insert(Sorted(s[..|s| - 1]), s[|s| - 1])
  }

  // ----- `Sorted` is the stable sort -----

  lemma InsertKeepsOrder(s: seq<SessionMeta>, x: SessionMeta)
    requires Descending(s)
    ensures Descending(Insert(s, x))
  {
    var k := PartitionPoint(s, x);
    var r := Insert(s, x);
    forall i, j | 0 <= i < j < |r|
      ensures !Newer(r[j], r[i])
    {
      if i < k && j > k {
        assert r[i] == s[i] && r[j] == s[j - 1];
      } else if i == k {
        var later := s[j - 1];
        LexIsTotal(s[k].timestamp, s[k].timestamp);
        assert r[j] == later && !Newer(later, s[k]);
        if Newer(later, x) {
          LexIsTransitive(s[k].timestamp, x.timestamp, later.timestamp);
        }
      } else if i > k {
        assert r[i] == s[i - 1] && r[j] == s[j - 1];
      }
    }
  }

  lemma {:induction false} StampedConcat(a: seq<SessionMeta>, b: seq<SessionMeta>, t: string)
    ensures Stamped(a + b, t) == Stamped(a, t) + Stamped(b, t)
  {
    if a == [] {
      assert a + b == b;
    } else {
      assert (a + b)[1..] == a[1..] + b;
      StampedConcat(a[1..], b, t);
      var head := if a[0].timestamp == t then [a[0]] else [];
      assert Stamped(a, t) == head + Stamped(a[1..], t);
      assert Stamped(a + b, t) == head + (Stamped(a[1..], t) + Stamped(b, t));
    }
  }

  lemma {:induction false} NoneStamped(s: seq<SessionMeta>, t: string)
    requires forall i :: 0 <= i < |s| ==> s[i].timestamp != t
    ensures Stamped(s, t) == []
  {
    if s != [] {
      NoneStamped(s[1..], t);
    }
  }

  lemma NoEqualsAfter(s: seq<SessionMeta>, x: SessionMeta)
    requires Descending(s)
    ensures forall i :: PartitionPoint(s, x) <= i < |s| ==> s[i].timestamp != x.timestamp
  {
    var k := PartitionPoint(s, x);
    forall i | k <= i < |s|
      ensures s[i].timestamp != x.timestamp
    {
      LexIsTotal(s[k].timestamp, s[k].timestamp);
      assert !Newer(s[i], s[k]);
    }
  }

  lemma InsertIsStable(s: seq<SessionMeta>, x: SessionMeta, t: string)
    requires Descending(s)
    ensures Stamped(Insert(s, x), t) == Stamped(s, t) + Stamped([x], t)
  {
    var k := PartitionPoint(s, x);
    if t == x.timestamp {
      NoEqualsAfter(s, x);
      NoneStamped(s[k..], t);
    } else {
      NoneStamped([x], t);
    }
    StampedAround(s[..k], x, s[k..], t);
    assert s == s[..k] + s[k..];
  }

  lemma StampedAround(a: seq<SessionMeta>, x: SessionMeta, b: seq<SessionMeta>, t: string)
    requires Stamped([x], t) == [] || Stamped(b, t) == []
    ensures Stamped(a + [x] + b, t) == Stamped(a + b, t) + Stamped([x], t)
  {
    StampedConcat(a + [x], b, t);
    StampedConcat(a, [x], t);
    StampedConcat(a, b, t);
    MiddleMoves(Stamped(a, t), Stamped([x], t), Stamped(b, t));
  }

  lemma MiddleMoves<T>(a: seq<T>, x: seq<T>, b: seq<T>)
    requires x == [] || b == []
    ensures a + x + b == a + b + x
  {
  }

  lemma {:induction false} SortedIsStableSort(s: seq<SessionMeta>)
    ensures IsStableSort(s, Sorted(s))
  {
    if s != [] {
      var init, x := s[..|s| - 1], s[|s| - 1];
      SortedIsStableSort(init);
      InsertKeepsOrder(Sorted(init), x);
      assert s == init + [x];
      forall t
        ensures Stamped(s, t) == Stamped(Sorted(s), t)
      {
        StampedConcat(init, [x], t);
        InsertIsStable(Sorted(init), x, t);
      }
    }
  }

  lemma {:induction false} StampedHead(s: seq<SessionMeta>, i: nat)
    requires i < |s|
    ensures s[i] in Stamped(s, s[i].timestamp)
  {
    if i > 0 {
      StampedHead(s[1..], i - 1);
    }
  }

  lemma {:induction false} StampedMember(s: seq<SessionMeta>, x: SessionMeta, t: string)
    requires x in Stamped(s, t)
    ensures x in s && x.timestamp == t
  {
    if !(s[0].timestamp == t && x == s[0]) {
      StampedMember(s[1..], x, t);
    }
  }

  /** There is only one stable sort: any sequence with its two properties is `Sorted(s)`. */
  lemma {:induction false} StableSortIsUnique(a: seq<SessionMeta>, b: seq<SessionMeta>)
    requires Descending(a) && Descending(b)
    requires forall t :: Stamped(a, t) == Stamped(b, t)
    ensures a == b
    decreases |a|
  {
    if a == [] {
      if b != [] {
        StampedHead(b, 0);
      }
    } else if b == [] {
      StampedHead(a, 0);
    } else {
      FirstIsNewest(a, b);
      FirstIsNewest(b, a);
      LexIsTotal(a[0].timestamp, b[0].timestamp);
      var t := a[0].timestamp;
      assert Stamped(a, t)[0] == a[0] && Stamped(b, t)[0] == b[0];
      forall u
        ensures Stamped(a[1..], u) == Stamped(b[1..], u)
      {
        var same := if a[0].timestamp == u then [a[0]] else [];
        assert Stamped(a, u) == same + Stamped(a[1..], u);
        assert Stamped(b, u) == same + Stamped(b[1..], u);
        assert Stamped(a[1..], u) == Stamped(a, u)[|same|..];
      }
      StableSortIsUnique(a[1..], b[1..]);
    }
  }

  lemma FirstIsNewest(a: seq<SessionMeta>, b: seq<SessionMeta>)
    requires a != [] && b != [] && Descending(a)
    requires forall t :: Stamped(a, t) == Stamped(b, t)
    ensures !Newer(b[0], a[0])
  {
    StampedHead(b, 0);
    assert b[0] in Stamped(a, b[0].timestamp);
    StampedMember(a, b[0], b[0].timestamp);
    var i :| 0 <= i < |a| && a[i] == b[0];
    LexIsTotal(a[0].timestamp, a[0].timestamp);
  }

  // ----- taking the first `cap` -----

  function Top(s: seq<SessionMeta>, cap: nat): (r: seq<SessionMeta>) {
    s[..Min(cap, |s|)]
  }

  lemma {:induction false} PartitionPointIsUnique(s: seq<SessionMeta>, x: SessionMeta, k: nat)
    requires k <= |s|
    requires forall i :: 0 <= i < k ==> !Newer(x, s[i])
    requires k < |s| ==> Newer(x, s[k])
    ensures PartitionPoint(s, x) == k
  {
    if k > 0 {
      PartitionPointIsUnique(s[1..], x, k - 1);
    }
  }

  lemma PrefixOfInsert(s: seq<SessionMeta>, k: nat, x: SessionMeta, cap: nat)
    requires k <= |s| && cap <= |s|
    ensures k < cap ==> InsertAt(s, k, x)[..cap] == InsertAt(s[..cap], k, x)[..cap]
    ensures k >= cap ==> InsertAt(s, k, x)[..cap] == s[..cap]
  {
    if k < cap {
      assert s[..cap][..k] == s[..k] && s[..cap][k..] == s[k..cap];
    }
  }

  /** Inserting into a full prefix and dropping its last is inserting into everything and taking a prefix. */
  lemma TopOfInsert(s: seq<SessionMeta>, x: SessionMeta, cap: nat)
    requires Descending(s) && 0 < cap <= |s|
    ensures Top(Insert(s, x), cap)
         == if Newer(x, s[cap - 1]) then Insert(s[..cap], x)[..cap] else s[..cap]
  {
    var k := PartitionPoint(s, x);
    PrefixOfInsert(s, k, x, cap);
    if Newer(x, s[cap - 1]) {
      PartitionPointIsUnique(s[..cap], x, k);
    } else if k < cap - 1 {
      assert !Newer(s[cap - 1], s[k]);
      NewerThanNewer(x, s[k], s[cap - 1]);
    }
  }

  lemma NewerThanNewer(x: SessionMeta, a: SessionMeta, b: SessionMeta)
    requires Newer(x, a) && !Newer(b, a)
    ensures Newer(x, b)
  {
    LexIsTotal(a.timestamp, b.timestamp);
    if LexLess(b.timestamp, a.timestamp) {
      LexIsTransitive(b.timestamp, a.timestamp, x.timestamp);
    }
  }

  function Retained(pushed: seq<SessionMeta>, cap: nat): (r: seq<SessionMeta>) {
    if |pushed| < cap then pushed else Top(Sorted(pushed), cap)
  }

  lemma FillsUp(pushed: seq<SessionMeta>, session: SessionMeta, cap: nat)
    requires |pushed| < cap
    ensures Retained(pushed, cap) == pushed
    ensures Retained(pushed + [session], cap)
         == if |pushed| + 1 == cap then Sorted(pushed + [session]) else pushed + [session]
  {
  }

  lemma PushKeepsTop(pushed: seq<SessionMeta>, session: SessionMeta, cap: nat)
    requires 0 < cap <= |pushed|
    ensures var r := Retained(pushed, cap);
            && |r| == cap
            && Retained(pushed + [session], cap)
               == if Newer(session, r[cap - 1]) then InsertAt(r, PartitionPoint(r, session), session)[..cap] else r
  {
    SortedIsStableSort(pushed);
    TopOfInsert(Sorted(pushed), session, cap);
    assert (pushed + [session])[..|pushed|] == pushed;
  }

  /** Once full, sorting what is retained again changes nothing; before that it gives the whole result. */
  lemma RetainedIsSorted(pushed: seq<SessionMeta>, cap: nat)
    ensures Sorted(Retained(pushed, cap)) == Top(Sorted(pushed), cap)
  {
    if |pushed| >= cap {
      var r := Retained(pushed, cap);
      SortedIsStableSort(pushed);
      SortedIsStableSort(r);
      StableSortIsUnique(Sorted(r), r);
    }
  }

  function DropLast(s: seq<SessionMeta>): (r: seq<SessionMeta>)
    requires s != []
  {
    s[..|s| - 1]
  }

  /** The session inserted and the last one dropped, unless the session is too old. */
  function Replaced(s: seq<SessionMeta>, x: SessionMeta): (r: seq<SessionMeta>)
    requires s != []
  {
    if Newer(x, s[|s| - 1]) then DropLast(InsertAt(s, PartitionPoint(s, x), x)) else s
  }

  /** A push onto a full collector, which is sorted. */
  lemma FullPush(pushed: seq<SessionMeta>, session: SessionMeta, cap: nat)
    requires 0 < cap <= |pushed|
    ensures var r := Retained(pushed, cap);
            && |r| == cap && Sorted(r) == r
            && Retained(pushed + [session], cap) == Replaced(r, session)
  {
    PushKeepsTop(pushed, session, cap);
    RetainedIsSorted(pushed, cap);
  }

  lemma NothingRetained(pushed: seq<SessionMeta>)
    ensures Retained(pushed, 0) == []
  {
  }

  // ----- the collector -----

  class RecentSessionCollector {
    var retained: seq<SessionMeta>
    var omitted: nat
    const cap: nat
    var sorted: bool
    /** Everything pushed so far. */
    ghost var pushed: seq<SessionMeta>

    ghost predicate Valid()
      reads this
    {
      && omitted == Min(|pushed| - Min(cap, |pushed|), USIZE_MAX)
      && retained == Retained(pushed, cap)
    }

    /** The flag is up exactly when the collector is full. */
    ghost predicate FlagIsRight()
      reads this
    {
      sorted <==> 0 < cap <= |pushed|
    }

    constructor (cap: nat)
      ensures Valid() && FlagIsRight() && pushed == [] && this.cap == cap
    {
      this.cap := cap;
      retained, omitted, sorted, pushed := [], 0, false, [];
    }

    method CountOmitted()
      modifies this`omitted
      ensures omitted == Min(old(omitted) + 1, USIZE_MAX)
    {
      omitted := if omitted < USIZE_MAX then omitted + 1 else USIZE_MAX;
    }

    method ReplaceOldest(session: SessionMeta)
      requires retained != []
      modifies this`retained
      ensures retained == Replaced(old(retained), session)
    {
      if Newer(session, retained[|retained| - 1]) {
        retained := InsertAt(retained, PartitionPoint(retained, session), session);
        retained := DropLast(retained);
      }
    }

    /** A session after the collector is full: it takes the place of the oldest one kept, or is left out. */
    method Replace(session: SessionMeta)
      requires retained == Retained(pushed, cap) && 0 < cap <= |pushed|
      modifies this`retained, this`sorted
      ensures retained == Retained(pushed + [session], cap) && sorted
    {
      FullPush(pushed, session, cap);
      if !sorted {
        retained := Sorted(retained);
        sorted := true;
      }
      ReplaceOldest(session);
    }

    method Push(session: SessionMeta)
      requires Valid()
      modifies this
      ensures Valid() && pushed == old(pushed) + [session]
      ensures old(FlagIsRight()) ==> FlagIsRight()
    {
      if cap == 0 {
        pushed := pushed + [session];
        NothingRetained(pushed);
        CountOmitted();
        return;
      }
      if |retained| < cap {
        FillsUp(pushed, session, cap);
        pushed := pushed + [session];
        retained := retained + [session];
        if |retained| == cap {
          retained := Sorted(retained);
          sorted := true;
        }
        return;
      }
      Replace(session);
      pushed := pushed + [session];
      CountOmitted();
    }

    /** The newest `cap` sessions of everything pushed, newest first and stable, and how many were left out. */
    method Finish() returns (sessions: seq<SessionMeta>, leftOut: nat)
      requires Valid() && FlagIsRight()
      modifies this
      ensures sessions == Top(Sorted(pushed), cap) && pushed == old(pushed)
      ensures leftOut == Min(|pushed| - |sessions|, USIZE_MAX)
    {
      RetainedIsSorted(pushed, cap);
      if !sorted {
        retained := Sorted(retained);
      }
      return retained, omitted;
    }
  }

  method CollectRecentSessions(sessions: seq<SessionMeta>, cap: nat) returns (recent: seq<SessionMeta>, omitted: nat)
    ensures recent == Top(Sorted(sessions), cap)
    ensures omitted == Min(|sessions| - |recent|, USIZE_MAX)
  {
    var collector := new RecentSessionCollector(cap);
    for i := 0 to |sessions|
      invariant collector.Valid() && collector.FlagIsRight() && collector.pushed == sessions[..i] && fresh(collector)
    {
      assert sessions[..i + 1] == sessions[..i] + [sessions[i]];
      collector.Push(sessions[i]);
    }
    assert sessions[..|sessions|] == sessions;
    recent, omitted := collector.Finish();
  }
}
