/**
 Every interleaving of callers of the module cache. A caller looks a path up under the shared
 lock; on a miss it looks again under the exclusive lock, makes room, and opens the module. It
 keeps a shared lock on the item until it releases it. Closing an item waits, with the cache
 locked, until no such lock is left.
 */
module ModuleCacheRuns {
  import opened Wrappers
  import opened LruCache
  import opened ModuleCache

  datatype Caller =
    | Looking(path: Path)                // missed under the shared lock
    | Using(path: Path, handle: Handle)  // holds the item's shared lock

  /** Who holds the cache lock exclusively and waits to close an item. */
  datatype Writer =
    | Evicting(leaving: Path, caller: nat)
    | Removing(leaving: Path)

  datatype State = State(
    items: Items,
    writer: Option<Writer>,
    callers: map<nat, Caller>,
    open: map<Handle, Path>,   // handles opened for a path and not yet closed
    everOpened: set<Handle>,
    closed: seq<Handle>,       // calls of dlclose, in order
    leaked: set<Handle>)       // opened, but the item's constructor threw

  const START := State(map[], None, map[], map[], {}, [], {})

  datatype Action =
    | First(caller: nat, path: Path, now: int)
    | Second(caller: nat, now: int, victim: Path, load: Load)
    | FinishEvict(now: int, load: Load)
    | StartRemove(path: Path)
    | FinishRemove
    | Release(caller: nat)

  predicate FreshLoad(s: State, load: Load) {
    load.NotFound? || load.handle !in s.everOpened
  }

  function Apply(s: State, a: Action, maxSize: nat): State {
    match a
    case First(k, p, now) =>
      if k in s.callers || s.writer.Some? then s
      else if p in s.items then HandOut(s, k, p, now)
      else s.(callers := s.callers[k := Looking(p)])
    case Second(k, now, victim, load) =>
      if k !in s.callers || !s.callers[k].Looking? || s.writer.Some? || !FreshLoad(s, load) then s else
      var p := s.callers[k].path;
      if p in s.items then HandOut(s, k, p, now)
      else if Full(s.items, maxSize) then
        if IsOldest(Times(s.items), victim) then s.(writer := Some(Evicting(victim, k))) else s
      else OpenFor(s, k, p, load, now)
    case FinishEvict(now, load) =>
      if s.writer.Some? && s.writer.value.Evicting? && CanClose(s) && FreshLoad(s, load) then
        var k := s.writer.value.caller;
        if k in s.callers then OpenFor(CloseLeaving(s), k, s.callers[k].path, load, now) else s
      else s
    case StartRemove(p) =>
      if s.writer.Some? || p !in s.items then s else s.(writer := Some(Removing(p)))
    case FinishRemove =>
      if s.writer.Some? && s.writer.value.Removing? && CanClose(s) then CloseLeaving(s) else s
    case Release(k) =>
      if k !in s.callers || !s.callers[k].Using? || s.callers[k].path !in s.items then s else
      var p := s.callers[k].path;
      if s.items[p].readers == 0 then s
      else s.(items := s.items[p := s.items[p].(readers := s.items[p].readers - 1)],
              callers := s.callers - {k})
  }

  function HandOut(s: State, k: nat, p: Path, now: int): State
    requires p in s.items
  {
    s.(items := Hit(s.items, p, now), callers := s.callers[k := Using(p, s.items[p].handle)])
  }

  /** The exclusive lock on the item can be had. */
  predicate CanClose(s: State)
    requires s.writer.Some?
  {
    s.writer.value.leaving in s.items && s.items[s.writer.value.leaving].readers == 0
  }

  function CloseLeaving(s: State): State
    requires s.writer.Some? && CanClose(s)
  {
    var p := s.writer.value.leaving;
    s.(items := s.items - {p}, writer := None, open := s.open - {s.items[p].handle},
       closed := s.closed + [s.items[p].handle])
  }

  function OpenFor(s: State, k: nat, p: Path, load: Load, now: int): State {
    match load
    case NotFound => s.(callers := s.callers - {k})
    case NoSymbol(h) =>
      s.(callers := s.callers - {k}, open := s.open[h := p], everOpened := s.everOpened + {h}, leaked := s.leaked + {h})
    case Loaded(h) =>
      s.(callers := s.callers[k := Using(p, h)], open := s.open[h := p], everOpened := s.everOpened + {h},
         items := Insert(s.items, p, load, now))
  }

  function Exec(actions: seq<Action>, maxSize: nat): State {
    if actions == [] then START
    else Apply(Exec(actions[..|actions| - 1], maxSize), actions[|actions| - 1], maxSize)
  }

  // ---- The invariant ----

  function Holders(callers: map<nat, Caller>, p: Path): set<nat> {
    set k | k in callers && callers[k].Using? && callers[k].path == p
  }

  /** The handles of the cache are the open ones, except for those of failed constructors. */
  predicate HandlesHold(s: State) {
    && (forall p :: p in s.items ==>
          var h := s.items[p].handle; h in s.open && s.open[h] == p && h !in s.leaked)
    && (forall h :: h in s.open && h !in s.leaked ==>
          s.open[h] in s.items && s.items[s.open[h]].handle == h)
    && (forall h :: h in s.open ==> h in s.everOpened && h !in s.closed)
    && (forall h :: h in s.closed ==> h in s.everOpened)
    && (forall h :: h in s.leaked ==> h in s.everOpened)
  }

  predicate CallersHold(s: State) {
    forall k :: k in s.callers && s.callers[k].Using? ==>
      s.callers[k].path in s.items && s.items[s.callers[k].path].handle == s.callers[k].handle
  }

  predicate ReadersCounted(s: State) {
    forall p :: p in s.items ==> s.items[p].readers == |Holders(s.callers, p)|
  }

  predicate WriterHolds(s: State, maxSize: nat) {
    match s.writer
    case None => true
    case Some(Removing(p)) => p in s.items
    case Some(Evicting(p, k)) =>
      && p in s.items && maxSize <= |s.items|
      && k in s.callers && s.callers[k].Looking? && s.callers[k].path !in s.items
  }

  predicate Inv(s: State, maxSize: nat) {
    && HandlesHold(s)
    && CallersHold(s)
    && ReadersCounted(s)
    && WriterHolds(s, maxSize)
    && NoDuplicates(s.closed)
    && |s.items| <= Capacity(maxSize)
  }

  // ---- Counting holders ----

  lemma HoldersAdd(callers: map<nat, Caller>, k: nat, c: Caller, p: Path)
    requires k in callers ==> callers[k].Looking?
    ensures |Holders(callers[k := c], p)|
         == |Holders(callers, p)| + (if c.Using? && c.path == p then 1 else 0)
  {
    var before, after := Holders(callers, p), Holders(callers[k := c], p);
    assert after == if c.Using? && c.path == p then before + {k} else before;
  }

  lemma HoldersRemove(callers: map<nat, Caller>, k: nat, p: Path)
    requires k in callers
    ensures |Holders(callers - {k}, p)|
         == |Holders(callers, p)| - (if callers[k].Using? && callers[k].path == p then 1 else 0)
  {
    var before, after := Holders(callers, p), Holders(callers - {k}, p);
    if callers[k].Using? && callers[k].path == p {
      assert before == after + {k};
    } else {
      assert before == after;
    }
  }

  lemma NoReadersNoHolder(s: State, p: Path)
    requires ReadersCounted(s) && p in s.items && s.items[p].readers == 0
    ensures forall k :: k in s.callers && s.callers[k].Using? ==> s.callers[k].path != p
  {
    assert Holders(s.callers, p) == {};
    forall k | k in s.callers && s.callers[k].Using?
      ensures s.callers[k].path != p
    {
      assert k !in Holders(s.callers, p);
    }
  }

  // ---- Each transition keeps the invariant ----

  lemma SizeAfterUpdate(items: Items, p: Path, item: Item)
    ensures |items[p := item]| == |items| + (if p in items then 0 else 1)
  {
    var after := items[p := item];
    assert after.Keys == items.Keys + {p};
  }

  lemma SizeAfterErase(items: Items, p: Path)
    requires p in items
    ensures |items - {p}| == |items| - 1
  {
    assert items.Keys == (items - {p}).Keys + {p};
  }

  /** Only the times and reader counts of the items differ. */
  predicate SameHandles(a: Items, b: Items) {
    a.Keys == b.Keys && forall p :: p in a ==> a[p].handle == b[p].handle
  }

  lemma SameHandlesHold(s: State, t: State)
    requires HandlesHold(s) && SameHandles(s.items, t.items)
    requires t == s.(items := t.items, callers := t.callers)
    ensures HandlesHold(t)
  {
  }

  lemma HandOutKeeps(s: State, k: nat, p: Path, now: int, maxSize: nat)
    requires Inv(s, maxSize) && p in s.items && s.writer == None
    requires k in s.callers ==> s.callers[k].Looking?
    ensures Inv(HandOut(s, k, p, now), maxSize)
  {
    var after := HandOut(s, k, p, now);
    var c := Using(p, s.items[p].handle);
    SameHandlesHold(s, after);
    SizeAfterUpdate(s.items, p, after.items[p]);
    hide HandlesHold, Holders;
    forall q | q in after.items
      ensures after.items[q].readers == |Holders(after.callers, q)|
    {
      HoldersAdd(s.callers, k, c, q);
    }
  }

  lemma OpenForHandles(s: State, k: nat, p: Path, load: Load, now: int)
    requires HandlesHold(s) && FreshLoad(s, load) && p !in s.items
    ensures HandlesHold(OpenFor(s, k, p, load, now))
  {
  }

  lemma CloseLeavingHandles(s: State)
    requires HandlesHold(s) && NoDuplicates(s.closed) && s.writer.Some? && CanClose(s)
    ensures HandlesHold(CloseLeaving(s)) && NoDuplicates(CloseLeaving(s).closed)
  {
    var h := s.items[s.writer.value.leaving].handle;
    assert h in s.open && h !in s.closed;
  }

  lemma DropLooking(s: State, k: nat)
    requires CallersHold(s) && ReadersCounted(s) && k in s.callers && s.callers[k].Looking?
    ensures var t := s.(callers := s.callers - {k});
            CallersHold(t) && ReadersCounted(t)
  {
    hide Holders;
    forall q | q in s.items
      ensures s.items[q].readers == |Holders(s.callers - {k}, q)|
    {
      HoldersRemove(s.callers, k, q);
    }
  }

  lemma AddUsing(s: State, k: nat, p: Path, h: Handle, now: int)
    requires CallersHold(s) && ReadersCounted(s) && p !in s.items
    requires k in s.callers && s.callers[k].Looking?
    ensures var t := s.(callers := s.callers[k := Using(p, h)], items := s.items[p := Item(h, now, 1)]);
            CallersHold(t) && ReadersCounted(t)
  {
    NobodyUses(s, p);
    hide Holders;
    var t := s.(callers := s.callers[k := Using(p, h)], items := s.items[p := Item(h, now, 1)]);
    forall q | q in t.items
      ensures t.items[q].readers == |Holders(t.callers, q)|
    {
      HoldersAdd(s.callers, k, Using(p, h), q);
    }
  }

  lemma OpenForKeeps(s: State, k: nat, load: Load, now: int, maxSize: nat)
    requires Inv(s, maxSize) && s.writer == None && FreshLoad(s, load)
    requires k in s.callers && s.callers[k].Looking? && s.callers[k].path !in s.items
    requires |s.items| < Capacity(maxSize)
    ensures Inv(OpenFor(s, k, s.callers[k].path, load, now), maxSize)
  {
    var p := s.callers[k].path;
    OpenForHandles(s, k, p, load, now);
    if load.Loaded? {
      AddUsing(s, k, p, load.handle, now);
      SizeAfterUpdate(s.items, p, Item(load.handle, now, 1));
    } else {
      DropLooking(s, k);
    }
    hide HandlesHold, Holders;
  }

  lemma NobodyUses(s: State, p: Path)
    requires CallersHold(s) && p !in s.items
    ensures |Holders(s.callers, p)| == 0
  {
    assert Holders(s.callers, p) == {};
  }

  lemma CloseLeavingKeeps(s: State, maxSize: nat)
    requires Inv(s, maxSize) && s.writer.Some? && CanClose(s)
    ensures Inv(CloseLeaving(s), maxSize)
    ensures |CloseLeaving(s).items| < Capacity(maxSize)
  {
    var p := s.writer.value.leaving;
    var after := CloseLeaving(s);
    NoReadersNoHolder(s, p);
    SizeAfterErase(s.items, p);
    CloseLeavingHandles(s);
    hide HandlesHold, NoDuplicates, Holders;
  }

  lemma ReleaseKeeps(s: State, k: nat, maxSize: nat)
    requires Inv(s, maxSize)
    ensures Inv(Apply(s, Release(k), maxSize), maxSize)
  {
    if k in s.callers && s.callers[k].Using? {
      var p := s.callers[k].path;
      var after := Apply(s, Release(k), maxSize);
      assert s.items[p].readers > 0 by {
        assert k in Holders(s.callers, p);
      }
      SameHandlesHold(s, after);
      SizeAfterUpdate(s.items, p, after.items[p]);
      hide HandlesHold, Holders;
      forall q | q in after.items
        ensures after.items[q].readers == |Holders(after.callers, q)|
      {
        HoldersRemove(s.callers, k, q);
      }
    }
  }

  lemma FirstMissKeeps(s: State, k: nat, p: Path, maxSize: nat)
    requires Inv(s, maxSize) && k !in s.callers && s.writer == None
    ensures Inv(s.(callers := s.callers[k := Looking(p)]), maxSize)
  {
    forall q
      ensures |Holders(s.callers[k := Looking(p)], q)| == |Holders(s.callers, q)|
    {
      HoldersAdd(s.callers, k, Looking(p), q);
    }
    hide Holders;
  }

  lemma ApplyKeeps(s: State, a: Action, maxSize: nat)
    requires Inv(s, maxSize)
    ensures Inv(Apply(s, a, maxSize), maxSize)
  {
    hide HandlesHold, CallersHold, ReadersCounted, NoDuplicates, HandOut, OpenFor, CloseLeaving;
    match a
    case First(k, p, now) =>
      if k !in s.callers && s.writer == None {
        if p in s.items {
          HandOutKeeps(s, k, p, now, maxSize);
        } else {
          FirstMissKeeps(s, k, p, maxSize);
        }
      }
    case Second(k, now, victim, load) =>
      if k in s.callers && s.callers[k].Looking? && s.writer == None && FreshLoad(s, load) {
        var p := s.callers[k].path;
        if p in s.items {
          HandOutKeeps(s, k, p, now, maxSize);
        } else if Full(s.items, maxSize) {
          WriterOnly(s, Some(Evicting(victim, k)), maxSize);
        } else {
          OpenForKeeps(s, k, load, now, maxSize);
        }
      }
    case FinishEvict(now, load) =>
      if s.writer.Some? && s.writer.value.Evicting? && CanClose(s) && FreshLoad(s, load) {
        CloseLeavingKeeps(s, maxSize);
        AfterClose(s);
        OpenForKeeps(CloseLeaving(s), s.writer.value.caller, load, now, maxSize);
      }
    case StartRemove(p) =>
      if s.writer == None && p in s.items {
        WriterOnly(s, Some(Removing(p)), maxSize);
      }
    case FinishRemove =>
      if s.writer.Some? && s.writer.value.Removing? && CanClose(s) {
        CloseLeavingKeeps(s, maxSize);
      }
    case Release(k) =>
      ReleaseKeeps(s, k, maxSize);
  }

  lemma WriterOnly(s: State, w: Option<Writer>, maxSize: nat)
    requires Inv(s, maxSize)
    ensures HandlesHold(s.(writer := w)) && CallersHold(s.(writer := w)) && ReadersCounted(s.(writer := w))
  {
  }

  lemma AfterClose(s: State)
    requires s.writer.Some? && CanClose(s)
    ensures CloseLeaving(s).callers == s.callers && CloseLeaving(s).everOpened == s.everOpened
    ensures CloseLeaving(s).writer == None
    ensures forall p :: p !in s.items ==> p !in CloseLeaving(s).items
  {
  }

  lemma {:induction false} ExecInv(actions: seq<Action>, maxSize: nat)
    ensures Inv(Exec(actions, maxSize), maxSize)
  {
    if actions != [] {
      hide Inv, Apply;
      ExecInv(actions[..|actions| - 1], maxSize);
      ApplyKeeps(Exec(actions[..|actions| - 1], maxSize), actions[|actions| - 1], maxSize);
    } else {
      assert Exec(actions, maxSize) == START;
    }
  }

  // ---- What is promised ----

  /** Whatever the interleaving: a handle in use is open, none is closed twice, and the cache is
      never larger than it may be. */
  lemma HandlesInUseStayOpen(actions: seq<Action>, maxSize: nat)
    ensures var s := Exec(actions, maxSize);
            && (forall k :: k in s.callers && s.callers[k].Using? ==>
                  var h := s.callers[k].handle;
                  h in s.open && h !in s.closed && s.open[h] == s.callers[k].path)
            && NoDuplicates(s.closed)
            && |s.items| <= Capacity(maxSize)
  {
    ExecInv(actions, maxSize);
  }

  // ---- One handle per path ----

  /** What opening a module gives depends on the module: those in `lacking` have no entry symbol. */
  predicate LoadAgrees(load: Load, p: Path, lacking: set<Path>) {
    && (load.NoSymbol? ==> p in lacking)
    && (load.Loaded? ==> p !in lacking)
  }

  predicate Agrees(s: State, a: Action, lacking: set<Path>) {
    match a
    case Second(k, _, _, load) => k in s.callers && s.callers[k].Looking? ==> LoadAgrees(load, s.callers[k].path, lacking)
    case FinishEvict(_, load) =>
      s.writer.Some? && s.writer.value.Evicting? && s.writer.value.caller in s.callers ==>
        LoadAgrees(load, s.callers[s.writer.value.caller].path, lacking)
    case _ => true
  }

  predicate AllAgree(actions: seq<Action>, maxSize: nat, lacking: set<Path>) {
    actions == []
    || (&& AllAgree(actions[..|actions| - 1], maxSize, lacking)
        && Agrees(Exec(actions[..|actions| - 1], maxSize), actions[|actions| - 1], lacking))
  }

  predicate LeakedLack(s: State, lacking: set<Path>) {
    forall h :: h in s.leaked && h in s.open ==> s.open[h] in lacking
  }

  lemma OpenForLeaks(s: State, k: nat, p: Path, load: Load, now: int, lacking: set<Path>)
    requires LeakedLack(s, lacking) && LoadAgrees(load, p, lacking) && FreshLoad(s, load)
    requires forall h :: h in s.leaked ==> h in s.everOpened
    ensures LeakedLack(OpenFor(s, k, p, load, now), lacking)
  {
    hide Insert;
  }

  lemma CloseLeavingLeaks(s: State, lacking: set<Path>)
    requires LeakedLack(s, lacking) && s.writer.Some? && CanClose(s)
    ensures LeakedLack(CloseLeaving(s), lacking)
    ensures CloseLeaving(s).leaked == s.leaked
  {
  }

  lemma LeakedLackStep(s: State, a: Action, maxSize: nat, lacking: set<Path>)
    requires Inv(s, maxSize) && LeakedLack(s, lacking) && Agrees(s, a, lacking)
    ensures LeakedLack(Apply(s, a, maxSize), lacking)
  {
    assert forall h :: h in s.leaked ==> h in s.everOpened;
    hide Inv, IsOldest, Times, Full, LeakedLack, OpenFor, CloseLeaving, LoadAgrees;
    match a
    case Second(k, now, victim, load) =>
      SameLeaks(s, a, maxSize, lacking);
      if k in s.callers && s.callers[k].Looking? && FreshLoad(s, load) {
        OpenForLeaks(s, k, s.callers[k].path, load, now, lacking);
      }
    case FinishEvict(now, load) =>
      if s.writer.Some? && s.writer.value.Evicting? && CanClose(s) && FreshLoad(s, load) {
        CloseLeavingLeaks(s, lacking);
        AfterClose(s);
        var k := s.writer.value.caller;
        if k in s.callers {
          OpenForLeaks(CloseLeaving(s), k, s.callers[k].path, load, now, lacking);
        }
      }
    case FinishRemove =>
      if s.writer.Some? && CanClose(s) {
        CloseLeavingLeaks(s, lacking);
      }
    case _ => SameLeaks(s, a, maxSize, lacking);
  }

  lemma SameLeaks(s: State, a: Action, maxSize: nat, lacking: set<Path>)
    requires LeakedLack(s, lacking)
    ensures forall t: State :: t.leaked == s.leaked && t.open == s.open ==> LeakedLack(t, lacking)
  {
  }

  lemma {:induction false} OnlyLackingLeak(actions: seq<Action>, maxSize: nat, lacking: set<Path>)
    requires AllAgree(actions, maxSize, lacking)
    ensures LeakedLack(Exec(actions, maxSize), lacking)
  {
    if actions != [] {
      hide Inv, Apply, Agrees, LeakedLack;
      var before, last := actions[..|actions| - 1], actions[|actions| - 1];
      OnlyLackingLeak(before, maxSize, lacking);
      ExecInv(before, maxSize);
      LeakedLackStep(Exec(before, maxSize), last, maxSize, lacking);
    }
  }

  predicate AtMostOneOpen(s: State, p: Path) {
    forall h, i :: h in s.open && i in s.open && s.open[h] == p && s.open[i] == p ==> h == i
  }

  ghost predicate NeverTwoOpen(p: Path, maxSize: nat, lacking: set<Path>) {
    forall actions :: AllAgree(actions, maxSize, lacking) ==> AtMostOneOpen(Exec(actions, maxSize), p)
  }

  /** Despite the two-phase lookup a path never has two open handles: exactly when its module does
      not lack the entry symbol. */
  lemma OneHandleExactly(p: Path, maxSize: nat, lacking: set<Path>)
    ensures NeverTwoOpen(p, maxSize, lacking) <==> p !in lacking
  {
    hide Exec, AllAgree;
    if p in lacking {
      MissingSymbolLeaks(p, maxSize, lacking);
    } else {
      forall actions | AllAgree(actions, maxSize, lacking)
        ensures AtMostOneOpen(Exec(actions, maxSize), p)
      {
        ExecInv(actions, maxSize);
        OnlyLackingLeak(actions, maxSize, lacking);
      }
    }
  }

  /** The constructor of an item throws without closing its handle, so the next caller opens another. */
  lemma MissingSymbolLeaks(p: Path, maxSize: nat, lacking: set<Path>)
    requires p in lacking
    ensures !NeverTwoOpen(p, maxSize, lacking)
  {
    var first, second := Attempt(0, p), Attempt(1, p);
    var s := START.(open := map[0 := p], everOpened := {0}, leaked := {0});
    var t := s.(open := map[0 := p, 1 := p], everOpened := {0, 1}, leaked := {0, 1});
    LeaksOnce(START, 0, p, maxSize, lacking);
    LeaksOnce(s, 1, p, maxSize, lacking);
    hide Exec, AllAgree, Apply, Agrees;
    ExecThen([], first[0], maxSize, lacking);
    ExecThen([first[0]], first[1], maxSize, lacking);
    assert [] + [first[0]] == [first[0]] && [first[0]] + [first[1]] == first;
    assert Exec(first, maxSize) == s;
    ExecThen(first, second[0], maxSize, lacking);
    ExecThen(first + [second[0]], second[1], maxSize, lacking);
    var all := first + [second[0]] + [second[1]];
    assert Exec(all, maxSize) == t;
    assert AllAgree(all, maxSize, lacking);
    assert t.open[0] == p && t.open[1] == p;
  }

  /** A caller that tries to open p for the handle of its own number. */
  function Attempt(k: nat, p: Path): (actions: seq<Action>)
    ensures |actions| == 2
  {
    [First(k, p, 0), Second(k, 0, p, NoSymbol(k))]
  }

  lemma LeaksOnce(s: State, k: nat, p: Path, maxSize: nat, lacking: set<Path>)
    requires s.items == map[] && s.writer == None && s.callers == map[] && k !in s.everOpened && p in lacking
    ensures var a := Attempt(k, p);
            var t := Apply(s, a[0], maxSize);
            && Agrees(s, a[0], lacking) && Agrees(t, a[1], lacking)
            && Apply(t, a[1], maxSize)
               == s.(open := s.open[k := p], everOpened := s.everOpened + {k}, leaked := s.leaked + {k})
  {
    var t := s.(callers := map[k := Looking(p)]);
    assert Apply(s, Attempt(k, p)[0], maxSize) == t;
    assert t.callers - {k} == map[];
  }

  lemma ExecThen(actions: seq<Action>, a: Action, maxSize: nat, lacking: set<Path>)
    ensures Exec(actions + [a], maxSize) == Apply(Exec(actions, maxSize), a, maxSize)
    ensures AllAgree(actions + [a], maxSize, lacking)
       <==> AllAgree(actions, maxSize, lacking) && Agrees(Exec(actions, maxSize), a, lacking)
    ensures AllAgree([], maxSize, lacking)
    ensures actions == [] ==> Exec(actions, maxSize) == START
  {
    assert (actions + [a])[..|actions|] == actions;
  }

  /** While a writer waits, nobody can add a reader to the item it waits for. */
  lemma WaitingWriterIsNotOvertaken(s: State, a: Action, maxSize: nat)
    requires Inv(s, maxSize) && s.writer.Some?
    ensures var after := Apply(s, a, maxSize);
            var p := s.writer.value.leaving;
            if after.writer == s.writer
            then p in after.items && after.items[p].readers <= s.items[p].readers
            else a.FinishEvict? || a.FinishRemove?
  {
  }

  // ---- Where every handle is ----

  predicate Accounted(s: State) {
    && (forall h :: h in s.everOpened ==> h in s.open || h in s.closed)
    && (forall h :: h in s.leaked ==> h in s.open)
  }

  lemma OpenForAccounts(s: State, k: nat, p: Path, load: Load, now: int)
    requires Accounted(s)
    ensures Accounted(OpenFor(s, k, p, load, now))
  {
    hide Insert;
  }

  lemma CloseLeavingAccounts(s: State)
    requires Accounted(s) && HandlesHold(s) && s.writer.Some? && CanClose(s)
    ensures Accounted(CloseLeaving(s))
  {
    var t, h := CloseLeaving(s), s.items[s.writer.value.leaving].handle;
    assert t.closed[|s.closed|] == h;
    forall i | i in s.everOpened
      ensures i in t.open || i in t.closed
    {
    }
  }

  lemma SameAccount(s: State)
    requires Accounted(s)
    ensures forall t: State :: t.open == s.open && t.everOpened == s.everOpened && t.closed == s.closed && t.leaked == s.leaked
              ==> Accounted(t)
  {
  }

  lemma AccountedStep(s: State, a: Action, maxSize: nat)
    requires HandlesHold(s) && Accounted(s)
    ensures Accounted(Apply(s, a, maxSize))
  {
    SameAccount(s);
    hide HandlesHold, Accounted, IsOldest, Times, Full, Hit, OpenFor, CloseLeaving;
    match a
    case Second(k, now, _, load) =>
      if k in s.callers && s.callers[k].Looking? {
        OpenForAccounts(s, k, s.callers[k].path, load, now);
      }
    case FinishEvict(now, load) =>
      if s.writer.Some? && CanClose(s) {
        CloseLeavingAccounts(s);
        var k := s.writer.value;
        if k.Evicting? && k.caller in s.callers {
          OpenForAccounts(CloseLeaving(s), k.caller, s.callers[k.caller].path, load, now);
        }
      }
    case FinishRemove =>
      if s.writer.Some? && CanClose(s) {
        CloseLeavingAccounts(s);
      }
    case _ =>
  }

  lemma {:induction false} ExecAccounts(actions: seq<Action>, maxSize: nat)
    ensures Accounted(Exec(actions, maxSize))
  {
    if actions != [] {
      hide Inv, Apply;
      var before, last := actions[..|actions| - 1], actions[|actions| - 1];
      ExecAccounts(before, maxSize);
      ExecInv(before, maxSize);
      assert HandlesHold(Exec(before, maxSize)) by {
        HandlesOf(Exec(before, maxSize), maxSize);
      }
      AccountedStep(Exec(before, maxSize), last, maxSize);
    }
  }

  lemma HandlesOf(s: State, maxSize: nat)
    requires Inv(s, maxSize)
    ensures HandlesHold(s)
  {
  }

  /** In every run a handle that was ever opened is in exactly one place: it is in the cache under the path it
      was opened for, or it was closed, or it leaked. */
  lemma HandlesConserved(actions: seq<Action>, maxSize: nat, h: Handle)
    requires h in Exec(actions, maxSize).everOpened
    ensures var s := Exec(actions, maxSize);
            var cached, closed, leaked := exists p :: p in s.items && s.items[p].handle == h, h in s.closed, h in s.leaked;
            && (cached || closed || leaked) && !(cached && closed) && !(cached && leaked) && !(closed && leaked)
  {
    ExecInv(actions, maxSize);
    ExecAccounts(actions, maxSize);
    hide Exec, CallersHold, ReadersCounted, WriterHolds, NoDuplicates;
  }

  // ---- A caller that nobody disturbs ----

  ghost predicate NobodyReads(s: State) {
    s.writer == None && forall p :: p in s.items ==> s.items[p].readers == 0
  }

  /** A whole lookup: the three steps that its caller can take, of which some change nothing. */
  function WholeLookup(s: State, k: nat, p: Path, now: int, victim: Path, load: Load, maxSize: nat): State {
    var looked := Apply(s, First(k, p, now), maxSize);
    var entered := Apply(looked, Second(k, now, victim, load), maxSize);
    Apply(entered, FinishEvict(now, load), maxSize)
  }

  lemma HitTimes(items: Items, p: Path, now: int)
    requires p in items
    ensures Times(Hit(items, p, now)) == Times(items)[p := now]
  {
    TimesUpdate(items, p, Hit(items, p, now)[p]);
  }

  lemma CachedLookup(s: State, k: nat, p: Path, now: int, victim: Path, load: Load, maxSize: nat)
    requires NobodyReads(s) && k !in s.callers && p in s.items
    ensures WholeLookup(s, k, p, now, victim, load, maxSize) == HandOut(s, k, p, now)
  {
    hide HandOut;
    var t := HandOut(s, k, p, now);
    assert Apply(s, First(k, p, now), maxSize) == t;
    HandedOut(s, k, p, now);
    assert Apply(t, Second(k, now, victim, load), maxSize) == t;
  }

  lemma HandedOut(s: State, k: nat, p: Path, now: int)
    requires p in s.items
    ensures var t := HandOut(s, k, p, now);
            t == s.(items := t.items, callers := s.callers[k := Using(p, s.items[p].handle)])
  {
  }

  /** The steps of a lookup that misses. */
  lemma MissedLookup(s: State, k: nat, p: Path, now: int, victim: Path, load: Load, maxSize: nat)
    requires NobodyReads(s) && k !in s.callers && p !in s.items && FreshLoad(s, load)
    requires Full(s.items, maxSize) ==> IsOldest(Times(s.items), victim)
    ensures var t := s.(callers := s.callers[k := Looking(p)]);
            WholeLookup(s, k, p, now, victim, load, maxSize)
            == OpenFor(if Full(s.items, maxSize) then Evicted(t, victim) else t, k, p, load, now)
  {
    hide OpenFor, Times, IsOldest, Full, CloseLeaving;
    var t := s.(callers := s.callers[k := Looking(p)]);
    assert Apply(s, First(k, p, now), maxSize) == t;
    if Full(s.items, maxSize) {
      OldestThere(s.items, victim);
      var u := t.(writer := Some(Evicting(victim, k)));
      assert Apply(t, Second(k, now, victim, load), maxSize) == u;
      EvictedBy(t, victim, k);
    } else {
      OpenForNoWriter(t, k, p, load, now);
    }
  }

  lemma OldestThere(items: Items, victim: Path)
    requires IsOldest(Times(items), victim)
    ensures victim in items
  {
  }

  lemma OpenForNoWriter(s: State, k: nat, p: Path, load: Load, now: int)
    ensures OpenFor(s, k, p, load, now).writer == s.writer
  {
  }

  /** The state without the oldest item, whose handle was closed. */
  function Evicted(s: State, victim: Path): State {
    if victim !in s.items then s
    else s.(items := s.items - {victim}, open := s.open - {s.items[victim].handle}, closed := s.closed + [s.items[victim].handle])
  }

  lemma EvictedBy(s: State, victim: Path, k: nat)
    requires s.writer == None && victim in s.items && s.items[victim].readers == 0
    ensures CanClose(s.(writer := Some(Evicting(victim, k))))
    ensures CloseLeaving(s.(writer := Some(Evicting(victim, k)))) == Evicted(s, victim)
  {
  }

  lemma OpenedFor(s: State, k: nat, p: Path, load: Load, now: int)
    ensures var t := OpenFor(s, k, p, load, now);
            && t.writer == s.writer && t.closed == s.closed && t.items == Insert(s.items, p, load, now)
            && t.callers == if load.Loaded? then s.callers[k := Using(p, load.handle)] else s.callers - {k}
  {
  }

  lemma MissTimes(items: Items, p: Path, now: int, victim: Path, load: Load, maxSize: nat)
    requires p !in items
    ensures Times(Insert(if Full(items, maxSize) then items - {victim} else items, p, load, now))
         == Lookup(Times(items), maxSize, p, now, load.Loaded?, victim)
  {
    TimesShape(items);
    TimesErase(items, victim);
    var room := if Full(items, maxSize) then items - {victim} else items;
    if load.Loaded? {
      TimesUpdate(room, p, Item(load.handle, now, 1));
    }
    assert p !in Times(items);
    hide Times;
  }

  /** What a lookup that nobody disturbs does to the items, the caller and the closed handles. */
  ghost predicate LookedUp(s: State, t: State, k: nat, p: Path, now: int, victim: Path, load: Load, maxSize: nat) {
    && t.writer == None
    && Times(t.items) == Lookup(Times(s.items), maxSize, p, now, load.Loaded?, victim)
    && t.callers == (if p in s.items then s.callers[k := Using(p, s.items[p].handle)]
                     else if load.Loaded? then s.callers[k := Using(p, load.handle)] else s.callers)
    && t.closed == s.closed + if p !in s.items && Full(s.items, maxSize) && victim in s.items
                              then [s.items[victim].handle] else []
  }

  lemma LookedUpHit(s: State, k: nat, p: Path, now: int, victim: Path, load: Load, maxSize: nat)
    requires s.writer == None && p in s.items
    ensures LookedUp(s, HandOut(s, k, p, now), k, p, now, victim, load, maxSize)
  {
    HitTimes(s.items, p, now);
    hide Hit, Times, Full;
  }

  lemma LookedUpMiss(s: State, k: nat, p: Path, now: int, victim: Path, load: Load, maxSize: nat)
    requires s.writer == None && k !in s.callers && p !in s.items
    requires Full(s.items, maxSize) ==> victim in s.items
    ensures var t := s.(callers := s.callers[k := Looking(p)]);
            LookedUp(s, OpenFor(if Full(s.items, maxSize) then Evicted(t, victim) else t, k, p, load, now),
                     k, p, now, victim, load, maxSize)
  {
    hide OpenFor, Times, Insert, Full, Lookup;
    var t := s.(callers := s.callers[k := Looking(p)]);
    var u := if Full(s.items, maxSize) then Evicted(t, victim) else t;
    OpenedFor(u, k, p, load, now);
    MissTimes(s.items, p, now, victim, load, maxSize);
    assert s.callers[k := Looking(p)] - {k} == s.callers;
    assert s.callers[k := Looking(p)][k := Using(p, if load.NotFound? then 0 else load.handle)]
        == s.callers[k := Using(p, if load.NotFound? then 0 else load.handle)];
  }

  /** A lookup that nobody disturbs does what `Cache.Get` promises: the times are those of the LRU lookup, the
      caller has the cached or the loaded handle or nothing, and only the oldest item of a full cache is closed. */
  lemma LoneLookup(s: State, k: nat, p: Path, now: int, victim: Path, load: Load, maxSize: nat)
    requires NobodyReads(s) && k !in s.callers && FreshLoad(s, load)
    requires p !in s.items && Full(s.items, maxSize) ==> IsOldest(Times(s.items), victim)
    ensures LookedUp(s, WholeLookup(s, k, p, now, victim, load, maxSize), k, p, now, victim, load, maxSize)
  {
    hide WholeLookup, LookedUp, Times, IsOldest, Full, HandOut, OpenFor;
    if p in s.items {
      CachedLookup(s, k, p, now, victim, load, maxSize);
      LookedUpHit(s, k, p, now, victim, load, maxSize);
    } else {
      MissedLookup(s, k, p, now, victim, load, maxSize);
      if Full(s.items, maxSize) { OldestThere(s.items, victim); }
      LookedUpMiss(s, k, p, now, victim, load, maxSize);
    }
  }

  /** A removal that nobody disturbs closes the handle of the path and no other. */
  lemma LoneRemove(s: State, p: Path, maxSize: nat)
    requires NobodyReads(s)
    ensures var t := Apply(Apply(s, StartRemove(p), maxSize), FinishRemove, maxSize);
            t == if p in s.items then s.(items := s.items - {p}, open := s.open - {s.items[p].handle},
                                         closed := s.closed + [s.items[p].handle])
                 else s
  {
  }

  // ---- A waiting writer is let in ----

  function After(s: State, actions: seq<Action>, maxSize: nat): State
    decreases |actions|
  {
    if actions == [] then s else After(Apply(s, actions[0], maxSize), actions[1..], maxSize)
  }

  lemma ReleaseStep(s: State, k: nat, maxSize: nat)
    requires Inv(s, maxSize) && s.writer.Some? && k in Holders(s.callers, s.writer.value.leaving)
    ensures var t := Apply(s, Release(k), maxSize);
            && Inv(t, maxSize) && t.writer == s.writer
            && Holders(t.callers, s.writer.value.leaving) == Holders(s.callers, s.writer.value.leaving) - {k}
  {
    ReleaseKeeps(s, k, maxSize);
    assert s.items[s.callers[k].path].readers > 0;
    hide HandlesHold, NoDuplicates, WriterHolds;
  }

  /** Whoever waits to close an item can do so as soon as its holders, each once, have released it. */
  lemma {:induction false} WriterIsLetIn(s: State, maxSize: nat) returns (actions: seq<Action>)
    requires Inv(s, maxSize) && s.writer.Some?
    ensures |actions| == |Holders(s.callers, s.writer.value.leaving)|
    ensures forall i :: 0 <= i < |actions| ==> actions[i].Release? && actions[i].caller in Holders(s.callers, s.writer.value.leaving)
    ensures var t := After(s, actions, maxSize);
            t.writer == s.writer && CanClose(t)
    decreases |Holders(s.callers, s.writer.value.leaving)|
  {
    var holders := Holders(s.callers, s.writer.value.leaving);
    if holders == {} {
      actions := [];
    } else {
      var k :| k in holders;
      ReleaseStep(s, k, maxSize);
      hide Inv, Apply, Holders;
      var rest := WriterIsLetIn(Apply(s, Release(k), maxSize), maxSize);
      actions := [Release(k)] + rest;
      assert actions[1..] == rest;
    }
  }
}
