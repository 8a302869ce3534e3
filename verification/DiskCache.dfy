/**
 The sector cache (fs/cache.c) and the disk calls on top of it
 (drivers/file/ATA/ATA.c): cached reads and writes behave like a plain disk.
 */
module DiskCache {
  const CACHE_SIZE: int := 2048
  const NEVER: int := 0xFFFFFFFF

  type Key = (int, int)
  type Data = seq<int>

  datatype Entry = Entry(valid: bool, drive: int, lba: int, data: Data, lastAccess: int)

  predicate Matches(e: Entry, drive: int, lba: int) { e.valid && e.drive == drive && e.lba == lba }

  /** Valid entries come first. */
  ghost predicate Prefix(es: seq<Entry>) { forall i, j :: 0 <= i < j < |es| && es[j].valid ==> es[i].valid }

  /** A sector is cached at most once. */
  ghost predicate Unique(es: seq<Entry>) {
    forall i, j :: 0 <= i < j < |es| && es[i].valid && es[j].valid ==>
      (es[i].drive, es[i].lba) != (es[j].drive, es[j].lba)
  }

  /** Entry `e` holds what was last stored for its sector. */
  predicate Coherent(e: Entry, disk: map<Key, Data>) {
    e.valid ==> (e.drive, e.lba) in disk && disk[(e.drive, e.lba)] == e.data
  }

  predicate Ticked(e: Entry, now: int) { e.valid ==> 0 <= e.lastAccess <= now <= NEVER }

  ghost predicate Inv(es: seq<Entry>, disk: map<Key, Data>, now: int) {
    && Prefix(es) && Unique(es)
    && (forall i :: 0 <= i < |es| ==> Coherent(es[i], disk) && Ticked(es[i], now))
  }

  /** Where a store goes: to the sector's own entry, else to the first unused one, else to the one used longest ago. */
  ghost predicate Target(es: seq<Entry>, drive: int, lba: int, t: int) {
    && 0 <= t < |es|
    && ((exists i :: 0 <= i < |es| && Matches(es[i], drive, lba)) ==> Matches(es[t], drive, lba))
    && ((forall i :: 0 <= i < |es| ==> !Matches(es[i], drive, lba)) && (exists i :: 0 <= i < |es| && !es[i].valid) ==>
         !es[t].valid && forall i :: 0 <= i < t ==> es[i].valid)
    && ((forall i :: 0 <= i < |es| ==> es[i].valid && !Matches(es[i], drive, lba)) ==>
         (forall i :: 0 <= i < |es| ==> es[t].lastAccess <= es[i].lastAccess))
  }

  /** Storing a sector keeps the cache in order and brings it up to date. */
  lemma StoreKeeps(es: seq<Entry>, disk: map<Key, Data>, drive: int, lba: int, data: Data, now: int, later: int, t: int)
    requires Inv(es, disk, now) && Target(es, drive, lba, t) && now <= later <= NEVER && 0 <= later
    ensures Inv(es[t := Entry(true, drive, lba, data, later)], disk[(drive, lba) := data], later)
  {
    var es' := es[t := Entry(true, drive, lba, data, later)];
    var disk' := disk[(drive, lba) := data];
    OthersDiffer(es, disk, drive, lba, now, t);
    forall i | 0 <= i < |es'| ensures Coherent(es'[i], disk') && Ticked(es'[i], later) {
      assert Coherent(es[i], disk) && Ticked(es[i], now);
    }
    PrefixStore(es, drive, lba, es'[t], t);
  }

  /** Outside the target, no entry is for this sector. */
  lemma OthersDiffer(es: seq<Entry>, disk: map<Key, Data>, drive: int, lba: int, now: int, t: int)
    requires Inv(es, disk, now) && Target(es, drive, lba, t)
    ensures forall i :: 0 <= i < |es| && i != t ==> !Matches(es[i], drive, lba)
  {
    forall i | 0 <= i < |es| && i != t ensures !Matches(es[i], drive, lba) {}
  }

  lemma PrefixStore(es: seq<Entry>, drive: int, lba: int, e: Entry, t: int)
    requires Prefix(es) && Target(es, drive, lba, t) && e.valid
    ensures Prefix(es[t := e])
  {
    if !es[t].valid {
      assert forall i :: 0 <= i < |es| ==> !Matches(es[i], drive, lba);
      assert exists i :: 0 <= i < |es| && !es[i].valid;
    }
  }

  // ----- Least recently used -----

  datatype Use = Use(key: Key, tick: int)

  /** The position of the last use of a sector, or -1. */
  function LastUse(log: seq<Use>, key: Key): (i: int)
    ensures -1 <= i < |log| && (i >= 0 ==> log[i].key == key)
  {
    if log == [] then -1 else if log[|log| - 1].key == key then |log| - 1 else LastUse(log[..|log| - 1], key)
  }

  /** Entry `e` carries the time of its sector's last use. */
  predicate Stamped(e: Entry, log: seq<Use>) {
    e.valid ==> LastUse(log, (e.drive, e.lba)) >= 0 && log[LastUse(log, (e.drive, e.lba))].tick == e.lastAccess
  }

  predicate InTime(log: seq<Use>, i: int, j: int)
    requires 0 <= i < |log| && 0 <= j < |log|
  {
    log[i].tick <= log[j].tick
  }

  /** Every use so far is in the log, in the order of time up to `now`. */
  ghost predicate Recorded(es: seq<Entry>, log: seq<Use>, now: int) {
    && (forall i, j {:trigger InTime(log, i, j)} :: 0 <= i <= j < |log| ==> InTime(log, i, j))
    && (log != [] ==> log[|log| - 1].tick <= now)
    && (forall i {:trigger Stamped(es[i], log)} :: 0 <= i < |es| ==> Stamped(es[i], log))
  }

  /** Every use has a time of its own. */
  ghost predicate Strict(log: seq<Use>) {
    forall i, j :: 0 <= i < j < |log| ==> log[i].tick != log[j].tick
  }

  lemma LastUseAppend(log: seq<Use>, u: Use, key: Key)
    ensures LastUse(log + [u], key) == if u.key == key then |log| else LastUse(log, key)
  {
    assert (log + [u])[..|log|] == log;
  }

  lemma TimesAppend(log: seq<Use>, u: Use)
    requires (forall i, j {:trigger InTime(log, i, j)} :: 0 <= i <= j < |log| ==> InTime(log, i, j))
    requires log != [] ==> log[|log| - 1].tick <= u.tick
    ensures forall i, j {:trigger InTime(log + [u], i, j)} :: 0 <= i <= j < |log + [u]| ==> InTime(log + [u], i, j)
  {
    var log' := log + [u];
    forall i, j | 0 <= i <= j < |log'| ensures InTime(log', i, j) {
      if j < |log| { assert InTime(log, i, j); } else if i < |log| { assert InTime(log, i, |log| - 1); }
    }
  }

  /** A hit, or a store at the entry found for it, is one more use. */
  lemma UseRecorded(es: seq<Entry>, log: seq<Use>, was: int, t: int, e: Entry)
    requires Recorded(es, log, was) && 0 <= t < |es| && e.valid && was <= e.lastAccess
    requires forall i :: 0 <= i < |es| && i != t ==> !Matches(es[i], e.drive, e.lba)
    ensures Recorded(es[t := e], log + [Use((e.drive, e.lba), e.lastAccess)], e.lastAccess)
  {
    var u := Use((e.drive, e.lba), e.lastAccess);
    var es', log' := es[t := e], log + [u];
    TimesAppend(log, u);
    forall i | 0 <= i < |es'| ensures Stamped(es'[i], log') {
      LastUseAppend(log, u, (es'[i].drive, es'[i].lba));
      if i != t { StampedLater(es[i], log, u); }
    }
  }

  lemma StampedLater(e: Entry, log: seq<Use>, u: Use)
    requires Stamped(e, log) && !Matches(e, u.key.0, u.key.1)
    ensures Stamped(e, log + [u])
  {
    LastUseAppend(log, u, (e.drive, e.lba));
  }

  lemma RecordedLater(es: seq<Entry>, log: seq<Use>, was: int, now: int)
    requires Recorded(es, log, was) && was <= now
    ensures Recorded(es, log, now)
  {}

  /** Of two entries, the one with the smaller time was used less recently, if uses have times of their own. */
  lemma OlderUse(a: Entry, b: Entry, log: seq<Use>, es: seq<Entry>, now: int)
    requires Recorded(es, log, now) && Strict(log) && a.valid && b.valid && Stamped(a, log) && Stamped(b, log)
    requires a.lastAccess <= b.lastAccess
    ensures LastUse(log, (a.drive, a.lba)) <= LastUse(log, (b.drive, b.lba))
  {
    var i, j := LastUse(log, (a.drive, a.lba)), LastUse(log, (b.drive, b.lba));
    if j <= i { assert InTime(log, j, i); }
  }

  /** The entry at `t` was used less recently than every other. */
  ghost predicate LeastRecent(es: seq<Entry>, log: seq<Use>, t: int) {
    0 <= t < |es| && forall i {:trigger es[i]} :: 0 <= i < |es| ==>
      LastUse(log, (es[t].drive, es[t].lba)) <= LastUse(log, (es[i].drive, es[i].lba))
  }

  /** Every entry is taken, and none by this sector. */
  ghost predicate FullWithout(es: seq<Entry>, drive: int, lba: int) {
    forall i :: 0 <= i < |es| ==> es[i].valid && !Matches(es[i], drive, lba)
  }

  /** When every entry is taken, the one replaced is the one used longest ago. */
  lemma LeastRecentlyUsed(es: seq<Entry>, log: seq<Use>, now: int, drive: int, lba: int, t: int)
    requires Recorded(es, log, now) && Strict(log) && Target(es, drive, lba, t) && FullWithout(es, drive, lba)
    ensures LeastRecent(es, log, t)
  {
    forall i {:trigger es[i]} | 0 <= i < |es|
      ensures LastUse(log, (es[t].drive, es[t].lba)) <= LastUse(log, (es[i].drive, es[i].lba))
    {
      assert Stamped(es[i], log) && Stamped(es[t], log);
      OlderUse(es[t], es[i], log, es, now);
    }
  }

  class Cache {
    var ready: bool
    const entries: array<Entry>
    ghost var log: seq<Use>

    ghost predicate Valid(disk: map<Key, Data>, now: int)
      reads this, entries
    {
      entries.Length == CACHE_SIZE && (ready ==> Inv(entries[..], disk, now) && Recorded(entries[..], log, now))
    }

    /** Before init_disk_cache nothing is cached. */
    constructor ()
      ensures !ready && fresh(entries) && entries.Length == CACHE_SIZE
    {
      ready := false;
      log := [];
      entries := new Entry[CACHE_SIZE](_ => Entry(true, 0, 0, [], 0));
    }

    method InitDiskCache(ghost disk: map<Key, Data>, ghost now: int)
      requires entries.Length == CACHE_SIZE && 0 <= now <= NEVER
      modifies this, entries
      ensures ready && Valid(disk, now) && log == [] && forall i :: 0 <= i < entries.Length ==> !entries[i].valid
    {
      ready := true;
      log := [];
      var i := 0;
      while i < CACHE_SIZE
        invariant 0 <= i <= CACHE_SIZE && ready && log == []
        invariant forall j :: 0 <= j < i ==> !entries[j].valid
      {
        entries[i] := entries[i].(valid := false);
        i := i + 1;
      }
    }

    /**
     A hit exactly when the sector is cached, with the data last stored for it; a hit is a use and
     renews the time.
     */
    method CacheRead(drive: int, lba: int, now: int, ghost disk: map<Key, Data>, ghost was: int)
      returns (hit: bool, data: Data, ghost at: int)
      requires Valid(disk, was) && 0 <= was <= now <= NEVER
      modifies this`log, entries
      ensures Valid(disk, now)
      ensures hit <==> ready && exists i :: 0 <= i < entries.Length && old(Matches(entries[i], drive, lba))
      ensures hit ==> (drive, lba) in disk && data == disk[(drive, lba)]
      ensures hit ==> 0 <= at < entries.Length && old(Matches(entries[at], drive, lba))
      ensures entries[..] ==
        if hit then old(entries[..])[at := old(entries[at]).(lastAccess := now)] else old(entries[..])
      ensures log == if hit then old(log) + [Use((drive, lba), now)] else old(log)
    {
      hit, data, at := false, [], 0;
      if !ready { return; }
      var i := 0;
      while i < CACHE_SIZE
        invariant 0 <= i <= CACHE_SIZE && entries[..] == old(entries[..]) && log == old(log)
        invariant forall j :: 0 <= j < i ==> !Matches(entries[j], drive, lba)
      {
        if Matches(entries[i], drive, lba) {
          ghost var es := entries[..];
          TouchKeeps(es, log, disk, was, now, i);
          entries[i] := entries[i].(lastAccess := now);
          data := entries[i].data;
          log := log + [Use((drive, lba), now)];
          assert entries[..] == es[i := es[i].(lastAccess := now)];
          return true, data, i;
        }
        i := i + 1;
      }
      Later(entries[..], disk, was, now);
      RecordedLater(entries[..], log, was, now);
    }

    /**
     A store goes to its target; in a full cache that is the entry used least recently, if every use
     had its own time.
     */
    method CacheWriteThru(drive: int, lba: int, data: Data, now: int, ghost disk: map<Key, Data>, ghost was: int)
      returns (ghost t: int)
      requires Valid(disk, was) && 0 <= was <= now <= NEVER
      modifies this`log, entries
      ensures Valid(disk[(drive, lba) := data], now)
      ensures ready ==> Target(old(entries[..]), drive, lba, t)
      ensures entries[..] ==
        if ready then old(entries[..])[t := Entry(true, drive, lba, data, now)] else old(entries[..])
      ensures log == if ready then old(log) + [Use((drive, lba), now)] else old(log)
      ensures ready && FullWithout(old(entries[..]), drive, lba) && Strict(old(log)) ==>
        LeastRecent(old(entries[..]), old(log), t)
    {
      t := 0;
      if !ready { return; }
      ghost var es := entries[..];
      var i := FindTarget(drive, lba, was);
      t := i;
      ghost var e := Entry(true, drive, lba, data, now);
      StoreKeeps(es, disk, drive, lba, data, was, now, i);
      OthersDiffer(es, disk, drive, lba, was, i);
      UseRecorded(es, log, was, i, e);
      if FullWithout(es, drive, lba) && Strict(log) { LeastRecentlyUsed(es, log, was, drive, lba, i); }
      entries[i] := Entry(true, drive, lba, data, now);
      log := log + [Use((drive, lba), now)];
      assert entries[..] == es[i := e];
    }

    method FindTarget(drive: int, lba: int, ghost was: int) returns (t: int)
      requires entries.Length == CACHE_SIZE && Prefix(entries[..])
      requires forall i :: 0 <= i < entries.Length ==> Ticked(entries[i], was)
      ensures Target(entries[..], drive, lba, t)
    {
      t := 0;
      var minTick := NEVER;
      var i := 0;
      while i < CACHE_SIZE
        invariant 0 <= i <= CACHE_SIZE && 0 <= t < CACHE_SIZE && minTick <= NEVER
        invariant forall j :: 0 <= j < i ==>
          entries[j].valid && !Matches(entries[j], drive, lba) && minTick <= entries[j].lastAccess
        invariant if minTick == NEVER then t == 0 else t < i && entries[t].lastAccess == minTick
      {
        if !entries[i].valid { t := i; FoundUnused(entries[..], drive, lba, t); return; }
        if entries[i].drive == drive && entries[i].lba == lba { t := i; return; }
        assert Ticked(entries[i], was);
        if entries[i].lastAccess < minTick { minTick := entries[i].lastAccess; t := i; }
        i := i + 1;
      }
      assert Ticked(entries[t], was);
    }
  }

  lemma FoundUnused(es: seq<Entry>, drive: int, lba: int, t: int)
    requires 0 <= t < |es| && !es[t].valid && Prefix(es)
    requires forall j :: 0 <= j < t ==> es[j].valid && !Matches(es[j], drive, lba)
    ensures Target(es, drive, lba, t)
  {
    assert forall i :: t <= i < |es| ==> !es[i].valid;
  }

  lemma TouchKeeps(es: seq<Entry>, log: seq<Use>, disk: map<Key, Data>, was: int, now: int, t: int)
    requires Inv(es, disk, was) && Recorded(es, log, was) && 0 <= t < |es| && es[t].valid && 0 <= was <= now <= NEVER
    ensures var es' := es[t := es[t].(lastAccess := now)];
      Inv(es', disk, now) && Recorded(es', log + [Use((es[t].drive, es[t].lba), now)], now) && Coherent(es[t], disk)
  {
    var es' := es[t := es[t].(lastAccess := now)];
    forall i | 0 <= i < |es'| ensures Coherent(es'[i], disk) && Ticked(es'[i], now) {
      assert Coherent(es[i], disk) && Ticked(es[i], was);
    }
    UseRecorded(es, log, was, t, es'[t]);
  }

  lemma Later(es: seq<Entry>, disk: map<Key, Data>, was: int, now: int)
    requires Inv(es, disk, was) && was <= now <= NEVER
    ensures Inv(es, disk, now)
  {
    forall i | 0 <= i < |es| ensures Coherent(es[i], disk) && Ticked(es[i], now) {
      assert Coherent(es[i], disk) && Ticked(es[i], was);
    }
  }

  /** The disk calls: a read that misses and every write go to the drive; `works` is the drive's answer. */
  /** The sector is cached. */
  ghost predicate Holds(es: seq<Entry>, drive: int, lba: int) {
    exists i :: 0 <= i < |es| && es[i].valid && es[i].drive == drive && es[i].lba == lba
  }

  lemma HoldsAt(es: seq<Entry>, drive: int, lba: int, i: int)
    requires 0 <= i < |es| && Matches(es[i], drive, lba)
    ensures Holds(es, drive, lba)
  {}

  class Disk {
    const cache: Cache
    var drives: int
    var readOnly: bool
    var sectors: map<Key, Data>
    ghost var now: int

    ghost predicate Valid()
      reads this, cache, cache.entries
    {
      cache.Valid(sectors, now) && 0 <= now <= NEVER
    }

    constructor (cache: Cache, drives: int, sectors: map<Key, Data>)
      requires cache.entries.Length == CACHE_SIZE && !cache.ready
      ensures Valid() && this.cache == cache && this.sectors == sectors && this.drives == drives
    {
      this.cache, this.drives, this.sectors, readOnly, now := cache, drives, sectors, false, 0;
    }

    /** A successful read yields what a plain disk would, cached or not. */
    method ReadSector(drive: int, lba: int, tick: int, works: bool) returns (ok: bool, data: Data)
      requires Valid() && now <= tick <= NEVER && (works ==> (drive, lba) in sectors)
      modifies this`now, cache`log, cache.entries
      ensures Valid() && now == tick
      ensures ok ==> (drive, lba) in sectors && data == sectors[(drive, lba)]
      ensures ok <==> 0 <= drive < drives && (works || (cache.ready && old(Holds(cache.entries[..], drive, lba))))
      ensures ok && cache.ready ==> Holds(cache.entries[..], drive, lba)
    {
      ok, data := false, [];
      if drive < 0 || drive >= drives {
        if cache.ready {
          Later(cache.entries[..], sectors, now, tick);
          RecordedLater(cache.entries[..], cache.log, now, tick);
        }
        now := tick;
        return;
      }
      var hit, found;
      ghost var at;
      hit, found, at := cache.CacheRead(drive, lba, tick, sectors, now);
      now := tick;
      if hit {
        HoldsAt(cache.entries[..], drive, lba, at);
        return true, found;
      }
      if works {
        data := sectors[(drive, lba)];
        ghost var t := cache.CacheWriteThru(drive, lba, data, tick, sectors, tick);
        assert sectors[(drive, lba) := data] == sectors;
        if cache.ready { HoldsAt(cache.entries[..], drive, lba, t); }
        ok := true;
      }
    }

    /** A successful write changes the one sector, on the drive and in the cache. */
    method WriteSector(drive: int, lba: int, data: Data, tick: int, works: bool) returns (ok: bool)
      requires Valid() && now <= tick <= NEVER
      modifies this`sectors, this`now, cache`log, cache.entries
      ensures Valid() && now == tick
      ensures ok <==> works && !readOnly && 0 <= drive < drives
      ensures sectors == if ok then old(sectors)[(drive, lba) := data] else old(sectors)
      ensures ok && cache.ready ==> Holds(cache.entries[..], drive, lba)
    {
      ok := false;
      if readOnly || drive < 0 || drive >= drives || !works {
        if cache.ready {
          Later(cache.entries[..], sectors, now, tick);
          RecordedLater(cache.entries[..], cache.log, now, tick);
        }
        now := tick;
        return;
      }
      ghost var t := cache.CacheWriteThru(drive, lba, data, tick, sectors, now);
      if cache.ready { HoldsAt(cache.entries[..], drive, lba, t); }
      sectors := sectors[(drive, lba) := data];
      now := tick;
      ok := true;
    }
  }
}
