/**
 The cache of loaded modules: its lock regions, and every interleaving of lookups, removals and
 releases. A handle is the opaque value that dlopen returns, fresh each time.
 */
module ModuleCache {
  import opened Wrappers
  import opened LruCache

  type Handle = nat

  /** `readers` counts the shared locks held on the item's mutex. */
  datatype Item = Item(handle: Handle, lastUsed: int, readers: nat)

  type Items = map<Path, Item>

  function Times(items: Items): Recency {
    map p | p in items :: items[p].lastUsed
  }

  // ---- Lock regions ----

  /** A hit hands out the item's handle with one more shared lock on it. */
  function Hit(items: Items, p: Path, now: int): Items
    requires p in items
  {
    items[p := items[p].(lastUsed := now, readers := items[p].readers + 1)]
  }

  /** What dlopen and dlsym give. */
  datatype Load = NotFound | NoSymbol(handle: Handle) | Loaded(handle: Handle)

  function Insert(items: Items, p: Path, load: Load, now: int): Items {
    if load.Loaded? then items[p := Item(load.handle, now, 1)] else items
  }

  /** Room is made when the cache is full and not empty. */
  predicate Full(items: Items, maxSize: nat) {
    items != map[] && maxSize <= |items|
  }

  lemma TimesShape(items: Items)
    ensures |Times(items)| == |items|
    ensures Times(items) == map[] <==> items == map[]
  {
    assert Times(items).Keys == items.Keys;
  }

  lemma TimesUpdate(items: Items, p: Path, item: Item)
    ensures Times(items[p := item]) == Times(items)[p := item.lastUsed]
  {
  }

  lemma TimesErase(items: Items, p: Path)
    ensures Times(items - {p}) == Times(items) - {p}
  {
  }

  // ---- The cache object, as one thread sees it when no other holds an item ----

  class Cache {
    const maxSize: nat
    var cache: Items
    /** Handles passed to dlclose, in order. */
    ghost var closed: seq<Handle>

    constructor (maxSize: nat)
      ensures this.maxSize == maxSize && cache == map[] && closed == []
    {
      this.maxSize := maxSize;
      cache, closed := map[], [];
    }

    /** operator[]: None is the exception for a module that cannot be opened. */
    method Get(path: Path, now: int, load: Load) returns (handed: Option<Handle>, ghost victim: Path)
      requires forall p :: p in cache ==> cache[p].readers == 0
      modifies this
      ensures path !in old(cache) && Full(old(cache), maxSize) ==> IsOldest(Times(old(cache)), victim)
      ensures Times(cache) == Lookup(Times(old(cache)), maxSize, path, now, load.Loaded?, victim)
      ensures match handed
              case Some(h) =>
                && path in cache && cache[path] == Item(h, now, 1)
                && (if path in old(cache) then h == old(cache)[path].handle else load == Loaded(h))
              case None => path !in old(cache) && !load.Loaded?
      ensures closed == old(closed) + (if path !in old(cache) && Full(old(cache), maxSize)
                                       then [old(cache)[victim].handle] else [])
    {
      TimesShape(cache);
      victim := path;
      handed := Find(path, now);
      if handed.Some? {
        TimesUpdate(old(cache), path, cache[path]);
        return;
      }
      // The exclusive lock is taken here, and the path looked up again.
      handed := Find(path, now);
      if handed.Some? {
        return;
      }
      if |cache| >= maxSize && cache != map[] {
        var oldest := OldestItem();
        victim := oldest;
        Close(oldest);
        TimesErase(old(cache), oldest);
      }
      if load.Loaded? {
        TimesUpdate(cache, path, Item(load.handle, now, 1));
        cache := cache[path := Item(load.handle, now, 1)];
        handed := Some(load.handle);
      }
    }

    method Find(path: Path, now: int) returns (handed: Option<Handle>)
      modifies this`cache
      ensures if path in old(cache)
              then handed == Some(old(cache)[path].handle) && cache == Hit(old(cache), path, now)
              else handed == None && cache == old(cache)
    {
      if path in cache {
        cache := cache[path := cache[path].(lastUsed := now, readers := cache[path].readers + 1)];
        handed := Some(cache[path].handle);
      } else {
        handed := None;
      }
    }

    /** The search of makeSpace, in whatever order the map is walked. */
    method OldestItem() returns (victim: Path)
      requires cache != map[]
      ensures IsOldest(Times(cache), victim)
    {
      var todo := cache.Keys;
      victim :| victim in todo;
      todo := todo - {victim};
      while todo != {}
        invariant todo <= cache.Keys
        invariant victim in cache && victim !in todo
        invariant forall p :: p in cache && p !in todo ==> cache[victim].lastUsed <= cache[p].lastUsed
        decreases |todo|
      {
        var next :| next in todo;
        todo := todo - {next};
        if cache[next].lastUsed < cache[victim].lastUsed {
          victim := next;
        }
      }
    }

    /** Item::close and the erasure that follows it; it waits until nobody holds the item. */
    method Close(path: Path)
      requires path in cache && cache[path].readers == 0
      modifies this
      ensures cache == old(cache) - {path}
      ensures closed == old(closed) + [old(cache)[path].handle]
    {
      closed := closed + [cache[path].handle];
      cache := cache - {path};
    }

    method Remove(path: Path) returns (removed: bool)
      requires path in cache ==> cache[path].readers == 0
      modifies this
      ensures removed <==> path in old(cache)
      ensures cache == old(cache) - {path}
      ensures closed == old(closed) + (if removed then [old(cache)[path].handle] else [])
    {
      removed := path in cache;
      if removed {
        Close(path);
      } else {
        assert cache - {path} == cache;
      }
    }

    /** The caller drops the shared lock it was handed. */
    method Release(path: Path)
      requires path in cache && 0 < cache[path].readers
      modifies this`cache
      ensures cache == old(cache)[path := old(cache)[path].(readers := old(cache)[path].readers - 1)]
    {
      cache := cache[path := cache[path].(readers := cache[path].readers - 1)];
    }
  }
}
