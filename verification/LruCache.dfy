/**
 The replacement policy of the module cache: which paths a cache of a given size holds, and when
 each was last used, over any trace of lookups and removals by a clock that moves forward.
 */
module LruCache {
  type Path = string

  /** When each cached path was last used. */
  type Recency = map<Path, int>

  predicate IsOldest(c: Recency, p: Path) {
    p in c && forall q :: q in c ==> c[p] <= c[q]
  }

  /** makeSpace evicts when the cache is full and not empty. */
  predicate MustEvict(c: Recency, maxSize: nat) {
    c != map[] && maxSize <= |c|
  }

  /** A lookup of p at time now; `loads` says whether the module can be opened, `victim` is the
      path that makeSpace picks if it has to. */
  function Lookup(c: Recency, maxSize: nat, p: Path, now: int, loads: bool, victim: Path): Recency {
    if p in c then c[p := now] else
    var room := if MustEvict(c, maxSize) then c - {victim} else c;
    if loads then room[p := now] else room
  }

  // ---- A trace ----

  datatype Op = LookupOp(path: Path, now: int) | RemoveOp(path: Path, now: int)

  lemma OldestExists(c: Recency)
    requires c != map[]
    ensures exists p :: IsOldest(c, p)
    decreases |c|
  {
    var p :| p in c;
    var rest := c - {p};
    assert c.Keys == rest.Keys + {p};
    if rest == map[] {
      assert IsOldest(c, p);
    } else {
      OldestExists(rest);
      var q :| IsOldest(rest, q);
      assert IsOldest(c, if c[p] <= c[q] then p else q);
    }
  }

  ghost function Oldest(c: Recency): (p: Path)
    requires c != map[]
    ensures IsOldest(c, p)
  {
    OldestExists(c);
    var p :| IsOldest(c, p);
    p
  }

  ghost function Step(c: Recency, maxSize: nat, op: Op, broken: set<Path>): Recency {
    match op
    case LookupOp(p, now) =>
      Lookup(c, maxSize, p, now, p !in broken, if c != map[] then Oldest(c) else p)
    case RemoveOp(p, _) => c - {p}
  }

  /** The content of a cache of the given size after a trace; modules in `broken` cannot be opened. */
  ghost function Run(maxSize: nat, ops: seq<Op>, broken: set<Path>): Recency {
    if ops == [] then map[]
    else Step(Run(maxSize, ops[..|ops| - 1], broken), maxSize, ops[|ops| - 1], broken)
  }

  predicate ClockMovesForward(ops: seq<Op>) {
    forall i, j :: 0 <= i < j < |ops| ==> ops[i].now < ops[j].now
  }

  // ---- Inclusion ----

  /** Everything in the smaller cache is in the larger with the same time, and everything only the
      larger one holds is older than everything in the smaller. */
  predicate Included(small: Recency, large: Recency) {
    && (forall p :: p in small ==> p in large && large[p] == small[p])
    && (forall p, q :: p in large && p !in small && q in small ==> large[p] < small[q])
  }

  /** A cache of size 0 still holds the module it opened last. */
  function Capacity(maxSize: nat): nat {
    if maxSize == 0 then 1 else maxSize
  }

  predicate Distinct(c: Recency) {
    forall p, q :: p in c && q in c && p != q ==> c[p] != c[q]
  }

  predicate Before(c: Recency, now: int) {
    forall p :: p in c ==> c[p] < now
  }

  lemma RemoveSize(c: Recency, p: Path)
    ensures |c - {p}| <= |c|
    ensures p in c ==> |c - {p}| == |c| - 1
  {
    if p in c {
      assert c.Keys == (c - {p}).Keys + {p};
    } else {
      assert c - {p} == c;
    }
  }

  lemma LookupSize(c: Recency, maxSize: nat, p: Path, now: int, loads: bool, victim: Path)
    requires |c| <= Capacity(maxSize)
    requires MustEvict(c, maxSize) ==> victim in c
    ensures |Lookup(c, maxSize, p, now, loads, victim)| <= Capacity(maxSize)
  {
    var room := if MustEvict(c, maxSize) then c - {victim} else c;
    RemoveSize(c, victim);
    if p in c {
      assert c[p := now].Keys == c.Keys;
    } else {
      assert room[p := now].Keys == room.Keys + {p};
    }
  }

  /** The cache after makeSpace. */
  ghost function Room(c: Recency, maxSize: nat): Recency {
    if MustEvict(c, maxSize) then c - {Oldest(c)} else c
  }

  lemma StepIsLookup(c: Recency, maxSize: nat, p: Path, now: int, broken: set<Path>)
    ensures var after := Step(c, maxSize, LookupOp(p, now), broken);
            after == if p in c then c[p := now]
                     else if p in broken then Room(c, maxSize)
                     else Room(c, maxSize)[p := now]
  {
  }

  lemma OldestUnique(c: Recency, p: Path, q: Path)
    requires Distinct(c) && IsOldest(c, p) && IsOldest(c, q)
    ensures p == q
  {
  }

  /** A full larger cache never evicts what the smaller one keeps. */
  lemma LargerEvictsFirst(small: Recency, large: Recency, n: nat, m: nat)
    requires n <= m && Included(small, large) && Distinct(large)
    requires |small| <= Capacity(n) && MustEvict(large, m) && Oldest(large) in small
    ensures MustEvict(small, n) && Oldest(small) == Oldest(large) && small == large
  {
    assert forall p :: p in large ==> p in small;
    assert small.Keys == large.Keys;
    OldestUnique(large, Oldest(small), Oldest(large));
  }

  lemma RoomIncluded(small: Recency, large: Recency, n: nat, m: nat)
    requires n <= m && Included(small, large) && Distinct(large)
    requires |small| <= Capacity(n)
    ensures Included(Room(small, n), Room(large, m)) && Distinct(Room(large, m))
  {
    if MustEvict(large, m) && Oldest(large) in small {
      LargerEvictsFirst(small, large, n, m);
    }
  }

  /** The smaller cache makes room for a path that the larger one already holds. */
  lemma RoomInSmaller(small: Recency, large: Recency, n: nat)
    requires Included(small, large) && Distinct(large)
    ensures Included(Room(small, n), large)
  {
  }

  lemma TouchIncluded(small: Recency, large: Recency, p: Path, now: int)
    requires Included(small, large) && Distinct(large) && Before(large, now)
    ensures Included(small[p := now], large[p := now]) && Distinct(large[p := now])
    ensures Before(large[p := now], now + 1)
  {
  }

  lemma RemoveIncluded(small: Recency, large: Recency, p: Path)
    requires Included(small, large) && Distinct(large)
    ensures Included(small - {p}, large - {p}) && Distinct(large - {p})
  {
  }

  lemma StepBounded(c: Recency, maxSize: nat, op: Op, broken: set<Path>)
    requires |c| <= Capacity(maxSize)
    requires forall p :: p in c ==> p !in broken
    ensures |Step(c, maxSize, op, broken)| <= Capacity(maxSize)
    ensures forall p :: p in Step(c, maxSize, op, broken) ==> p !in broken
  {
    RemoveSize(c, op.path);
    if op.LookupOp? {
      LookupSize(c, maxSize, op.path, op.now, op.path !in broken, if c != map[] then Oldest(c) else op.path);
    }
  }

  lemma StepIncluded(small: Recency, large: Recency, n: nat, m: nat, op: Op, broken: set<Path>)
    requires n <= m && Included(small, large) && Distinct(large) && Before(large, op.now)
    requires |small| <= Capacity(n)
    requires forall p :: p in large ==> p !in broken
    ensures var s, l := Step(small, n, op, broken), Step(large, m, op, broken);
            && Included(s, l) && Distinct(l)
            && Before(l, op.now + 1)
  {
    var p := op.path;
    if op.LookupOp? {
      StepIsLookup(small, n, p, op.now, broken);
      StepIsLookup(large, m, p, op.now, broken);
      var room := if p in large then large else Room(large, m);
      assert Before(room, op.now);
      hide Step, Distinct;
      if p in small {
        TouchIncluded(small, large, p, op.now);
      } else {
        if p in large {
          RoomInSmaller(small, large, n);
        } else {
          RoomIncluded(small, large, n, m);
        }
        TouchIncluded(Room(small, n), room, p, op.now);
      }
    } else {
      RemoveIncluded(small, large, p);
    }
  }

  lemma {:induction false} RunIncluded(n: nat, m: nat, ops: seq<Op>, broken: set<Path>)
    requires n <= m && ClockMovesForward(ops)
    ensures var s, l := Run(n, ops, broken), Run(m, ops, broken);
            && Included(s, l) && Distinct(l)
            && |s| <= Capacity(n) && |l| <= Capacity(m)
            && (forall p :: p in l ==> p !in broken)
            && (if ops == [] then l == map[] else Before(l, ops[|ops| - 1].now + 1))
  {
    if ops != [] {
      var before, last := ops[..|ops| - 1], ops[|ops| - 1];
      RunIncluded(n, m, before, broken);
      StepBounded(Run(n, before, broken), n, last, broken);
      StepBounded(Run(m, before, broken), m, last, broken);
      assert Before(Run(m, before, broken), last.now);
      hide Step, Included, Distinct, Before;
      StepIncluded(Run(n, before, broken), Run(m, before, broken), n, m, last, broken);
    }
  }

  /** LRU inclusion: over any trace, a larger cache holds all that a smaller one holds, and what
      only it holds is older. */
  lemma LargerCacheHoldsMore(n: nat, m: nat, ops: seq<Op>, broken: set<Path>)
    requires n <= m && ClockMovesForward(ops)
    ensures Included(Run(n, ops, broken), Run(m, ops, broken))
    ensures Run(n, ops, broken).Keys <= Run(m, ops, broken).Keys
    ensures |Run(n, ops, broken)| <= Capacity(n)
  {
    RunIncluded(n, m, ops, broken);
  }

  // ---- What a cache of a given size is sure to hold ----

  lemma SetSize(a: set<Path>, b: set<Path>)
    requires a <= b
    ensures |a| <= |b|
  {
    assert b == a + (b - a);
    assert |b| == |a| + |b - a|;
  }

  /** The paths looked up in a trace. */
  function LookedUp(ops: seq<Op>): set<Path> {
    set i | 0 <= i < |ops| && ops[i].LookupOp? :: ops[i].path
  }

  predicate NeverTouched(ops: seq<Op>, p: Path) {
    forall i :: 0 <= i < |ops| ==> ops[i].path != p
  }

  ghost function RunFrom(c: Recency, maxSize: nat, ops: seq<Op>, broken: set<Path>): Recency {
    if ops == [] then c
    else Step(RunFrom(c, maxSize, ops[..|ops| - 1], broken), maxSize, ops[|ops| - 1], broken)
  }

  lemma {:induction false} RunFromIsRun(maxSize: nat, before: seq<Op>, after: seq<Op>, broken: set<Path>)
    ensures Run(maxSize, before + after, broken) == RunFrom(Run(maxSize, before, broken), maxSize, after, broken)
    decreases |after|
  {
    hide Step;
    if after == [] {
      assert before + after == before;
    } else {
      var all := before + after;
      assert all[..|all| - 1] == before + after[..|after| - 1] && all[|all| - 1] == after[|after| - 1];
      RunFromIsRun(maxSize, before, after[..|after| - 1], broken);
    }
  }

  /** p was used at time t, and everything used later is in `newer`. */
  predicate HeldSince(c: Recency, p: Path, t: int, newer: set<Path>) {
    p in c && c[p] == t && forall q :: q in c && q != p && t <= c[q] ==> q in newer
  }

  /** A full cache that evicts p holds nothing older: everything else in it is newer. */
  lemma StillHeld(c: Recency, maxSize: nat, op: Op, p: Path, t: int, newer: set<Path>)
    requires HeldSince(c, p, t, newer) && op.path != p && t < op.now
    requires op.LookupOp? ==> op.path in newer && |newer| < maxSize
    ensures HeldSince(Step(c, maxSize, op, {}), p, t, newer)
  {
    if op.LookupOp? && op.path !in c && MustEvict(c, maxSize) {
      if forall q :: q in c && q != p ==> q in newer {
        NewerAreMany(c, p, newer, op.path);
      }
    }
  }

  /** A cache in which everything but p is among the newer paths, one of which is missing. */
  lemma NewerAreMany(c: Recency, p: Path, newer: set<Path>, missing: Path)
    requires p in c && missing in newer && missing !in c
    requires forall q :: q in c && q != p ==> q in newer
    ensures |c| <= |newer|
  {
    SetSize(c.Keys - {p}, newer - {missing});
    assert |newer - {missing}| == |newer| - 1;
    assert |c.Keys - {p}| == |c.Keys| - 1 && |c.Keys| == |c|;
  }

  lemma {:induction false} StaysHeld(c: Recency, maxSize: nat, ops: seq<Op>, p: Path, t: int)
    requires p in c && c[p] == t && forall q :: q in c && q != p ==> c[q] < t
    requires NeverTouched(ops, p) && forall i :: 0 <= i < |ops| ==> t < ops[i].now
    requires |LookedUp(ops)| < maxSize
    ensures HeldSince(RunFrom(c, maxSize, ops, {}), p, t, LookedUp(ops))
    decreases |ops|
  {
    if ops != [] {
      var before, last := ops[..|ops| - 1], ops[|ops| - 1];
      assert LookedUp(before) <= LookedUp(ops);
      SetSize(LookedUp(before), LookedUp(ops));
      StaysHeld(c, maxSize, before, p, t);
      assert last == ops[|ops| - 1];
      StillHeld(RunFrom(c, maxSize, before, {}), maxSize, last, p, t, LookedUp(ops));
    }
  }

  /** After a module was used it stays in a cache of size n as long as it is not removed and fewer than n
      others are looked up, when every module can be opened. */
  lemma RecentlyUsedIsHeld(maxSize: nat, before: seq<Op>, p: Path, now: int, after: seq<Op>)
    requires ClockMovesForward(before + [LookupOp(p, now)] + after)
    requires NeverTouched(after, p) && |LookedUp(after)| < maxSize
    ensures var c := Run(maxSize, before + [LookupOp(p, now)] + after, {});
            p in c && c[p] == now
  {
    var used := before + [LookupOp(p, now)];
    var all := used + after;
    assert forall i :: 0 <= i < |used| ==> all[i] == used[i];
    assert forall i :: 0 <= i < |after| ==> all[|used| + i] == after[i];
    assert used[|used| - 1] == LookupOp(p, now) && used[..|used| - 1] == before;
    RunFromIsRun(maxSize, used, after, {});
    RunIncluded(maxSize, maxSize, before, {});
    assert before != [] ==> all[|before| - 1] == before[|before| - 1] && all[|before|] == LookupOp(p, now);
    UsedIsNewest(Run(maxSize, before, {}), maxSize, p, now);
    hide Step, Lookup;
    StaysHeld(Run(maxSize, used, {}), maxSize, after, p, now);
  }

  lemma UsedIsNewest(c: Recency, maxSize: nat, p: Path, now: int)
    requires Before(c, now)
    ensures var d := Step(c, maxSize, LookupOp(p, now), {});
            p in d && d[p] == now && forall q :: q in d && q != p ==> d[q] < now
  {
  }
}
