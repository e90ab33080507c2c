/** One key of a read-through cache with a time to live, on several instances, against its row in
    the database (cache/mod.rs, the get_or_load functions of processing/processor.rs, and the
    write-then-invalidate of grpc/schema_registry.rs).

    A lookup that misses reads the row and inserts what it read some time later; meanwhile the row
    may be updated and any entry invalidated or evicted, here and elsewhere. Versions of the row are
    numbered in the order they were written. */
module Caches {
  import opened Common

  /** A cached version, when it was read from the database and when it entered the cache. */
  datatype Entry = Entry(version: nat, readAt: Time, insertedAt: Time)

  /** A load under way on an instance. */
  datatype Load = Load(instance: nat, version: nat, readAt: Time)

  /** `since[v]` is when version v was written. */
  datatype CacheSys = CacheSys(now: Time, since: seq<Time>, slots: seq<Option<Entry>>, loads: map<nat, Load>)

  datatype CacheAction =
    | Tick(to: Time)
    | Update                            // by any instance
    | Invalidate(instance: nat)
    | Evict(instance: nat)
    | Begin(instance: nat, load: nat)   // the read of a load, on a miss
    | Finish(load: nat)                 // its insert
    | Fail(load: nat)                   // it is abandoned

  /** What a lookup finds: an entry expires once its time to live has passed. */
  function Hit(s: CacheSys, instance: nat, ttl: nat): Option<nat> {
    if instance < |s.slots| && s.slots[instance].Some? && s.now < s.slots[instance].value.insertedAt + ttl
    then Some(s.slots[instance].value.version)
    else None
  }

  predicate Enabled(s: CacheSys, a: CacheAction, ttl: nat) {
    match a
    case Tick(to) => s.now <= to
    case Update => true
    case Invalidate(i) => i < |s.slots|
    case Evict(i) => i < |s.slots|
    case Begin(i, load) => i < |s.slots| && Hit(s, i, ttl).None? && load !in s.loads && s.since != []
    case Finish(load) => load in s.loads && s.loads[load].instance < |s.slots|
    case Fail(load) => load in s.loads
  }

  function Do(s: CacheSys, a: CacheAction, ttl: nat): CacheSys
    requires Enabled(s, a, ttl)
  {
    match a
    case Tick(to) => s.(now := to)
    case Update => s.(since := s.since + [s.now])
    case Invalidate(i) => s.(slots := s.slots[i := None])
    case Evict(i) => s.(slots := s.slots[i := None])
    case Begin(i, load) => s.(loads := s.loads[load := Load(i, |s.since| - 1, s.now)])
    case Finish(load) =>
      var l := s.loads[load];
      s.(slots := s.slots[l.instance := Some(Entry(l.version, l.readAt, s.now))], loads := s.loads - {load})
    case Fail(load) => s.(loads := s.loads - {load})
  }

  predicate Possible(s: CacheSys, run: seq<CacheAction>, ttl: nat)
    decreases |run|
  {
    run == [] || (Enabled(s, run[0], ttl) && Possible(Do(s, run[0], ttl), run[1..], ttl))
  }

  function Exec(s: CacheSys, run: seq<CacheAction>, ttl: nat): CacheSys
    requires Possible(s, run, ttl)
    decreases |run|
  {
    if run == [] then s else Exec(Do(s, run[0], ttl), run[1..], ttl)
  }

  /** No load of the run takes longer than `gap` from its read to its insert. */
  predicate LoadsWithin(s: CacheSys, run: seq<CacheAction>, ttl: nat, gap: nat)
    requires Possible(s, run, ttl)
    decreases |run|
  {
    run == [] ||
    ((run[0].Finish? ==> s.now - s.loads[run[0].load].readAt <= gap)
     && LoadsWithin(Do(s, run[0], ttl), run[1..], ttl, gap))
  }

  predicate Initial(s: CacheSys) {
    s.since == [] && s.loads == map[] && forall i :: 0 <= i < |s.slots| ==> s.slots[i].None?
  }

  // ---------- how stale a lookup can be ----------

  /** The row held version v at some point of the instant t. */
  predicate HeldAt(since: seq<Time>, v: nat, t: Time) {
    v < |since| && since[v] <= t && (v + 1 < |since| ==> t <= since[v + 1])
  }

  ghost predicate ReadFrom(s: CacheSys, version: nat, readAt: Time) {
    HeldAt(s.since, version, readAt) && readAt <= s.now
  }

  ghost predicate Inv(s: CacheSys, gap: nat) {
    && (forall v :: 0 <= v < |s.since| ==> s.since[v] <= s.now)
    && (forall load :: load in s.loads ==> ReadFrom(s, s.loads[load].version, s.loads[load].readAt))
    && (forall i :: 0 <= i < |s.slots| && s.slots[i].Some? ==>
          var e := s.slots[i].value;
          ReadFrom(s, e.version, e.readAt) && e.readAt <= e.insertedAt <= e.readAt + gap)
  }

  lemma {:induction false} ExecKeepsInv(s: CacheSys, run: seq<CacheAction>, ttl: nat, gap: nat)
    requires Inv(s, gap) && Possible(s, run, ttl) && LoadsWithin(s, run, ttl, gap)
    ensures Inv(Exec(s, run, ttl), gap)
    decreases |run|
  {
    if run != [] {
      assert Inv(Do(s, run[0], ttl), gap);
      ExecKeepsInv(Do(s, run[0], ttl), run[1..], ttl, gap);
    }
  }

  /** Whatever was loaded, updated, invalidated and evicted where: a lookup at time t returns a
      version the database row held at some instant of (t - ttl - gap, t]; on a miss, the version
      just loaded was held within [t - gap, t]. */
  lemma LookupWithinWindow(s: CacheSys, run: seq<CacheAction>, ttl: nat, gap: nat, instance: nat, load: nat)
    requires Initial(s) && Possible(s, run, ttl) && LoadsWithin(s, run, ttl, gap)
    ensures var t := Exec(s, run, ttl);
            Hit(t, instance, ttl).Some? ==>
              exists at: Time :: t.now - ttl - gap < at <= t.now && HeldAt(t.since, Hit(t, instance, ttl).value, at)
    ensures var t := Exec(s, run, ttl);
            load in t.loads && t.now - t.loads[load].readAt <= gap ==>
              exists at: Time :: t.now - gap <= at <= t.now && HeldAt(t.since, t.loads[load].version, at)
  {
    ExecKeepsInv(s, run, ttl, gap);
    var t := Exec(s, run, ttl);
    if Hit(t, instance, ttl).Some? {
      var e := t.slots[instance].value;
      assert HeldAt(t.since, e.version, e.readAt);
    }
    if load in t.loads {
      assert HeldAt(t.since, t.loads[load].version, t.loads[load].readAt);
    }
  }

  /** The three caches and their times to live, in seconds. */
  datatype CacheKind = TypeCache | LevelCache | PrefsCache

  function Ttl(kind: CacheKind): nat {
    match kind
    case TypeCache => 300
    case LevelCache => 300
    case PrefsCache => 60
  }

  /** So a type or level found in a cache was the database's less than five minutes and a load ago, and
      a user's preferences less than one minute and a load ago. */
  lemma FoundWithinMinutes(kind: CacheKind, s: CacheSys, run: seq<CacheAction>, gap: nat, instance: nat)
    requires Initial(s) && Possible(s, run, Ttl(kind)) && LoadsWithin(s, run, Ttl(kind), gap)
    ensures var t := Exec(s, run, Ttl(kind));
            Hit(t, instance, Ttl(kind)).Some? ==>
              exists at: Time :: t.now - (if kind.PrefsCache? then 60 else 300) - gap < at <= t.now
                                 && HeldAt(t.since, Hit(t, instance, Ttl(kind)).value, at)
  {
    LookupWithinWindow(s, run, Ttl(kind), gap, instance, 0);
  }

  /** The window is tight: for any time to live and any gap there is a run whose last lookup returns
      a version the row last held ttl - 1 + gap ago. */
  lemma WindowIsTight(ttl: nat, gap: nat) returns (s: CacheSys, run: seq<CacheAction>)
    requires ttl > 0
    ensures Initial(s) && Possible(s, run, ttl) && LoadsWithin(s, run, ttl, gap)
    ensures var t := Exec(s, run, ttl);
            Hit(t, 0, ttl) == Some(0) && forall at :: HeldAt(t.since, 0, at) ==> at <= t.now - (ttl - 1) - gap
  {
    s := CacheSys(0, [], [None], map[]);
    var s1 := Do(s, Update, ttl);
    var s2 := Do(s1, Begin(0, 0), ttl);
    var s3 := Do(s2, Update, ttl);
    var s4 := Do(s3, Tick(gap), ttl);
    var s5 := Do(s4, Finish(0), ttl);
    var s6 := Do(s5, Tick(gap + ttl - 1), ttl);
    Prepend(s5, Tick(gap + ttl - 1), [], ttl, gap);
    Prepend(s4, Finish(0), [Tick(gap + ttl - 1)] + [], ttl, gap);
    Prepend(s3, Tick(gap), [Finish(0)] + ([Tick(gap + ttl - 1)] + []), ttl, gap);
    Prepend(s2, Update, [Tick(gap)] + ([Finish(0)] + ([Tick(gap + ttl - 1)] + [])), ttl, gap);
    Prepend(s1, Begin(0, 0), [Update] + ([Tick(gap)] + ([Finish(0)] + ([Tick(gap + ttl - 1)] + []))), ttl, gap);
    Prepend(s, Update, [Begin(0, 0)] + ([Update] + ([Tick(gap)] + ([Finish(0)] + ([Tick(gap + ttl - 1)] + [])))),
            ttl, gap);
    run := [Update] + ([Begin(0, 0)] + ([Update] + ([Tick(gap)] + ([Finish(0)] + ([Tick(gap + ttl - 1)] + [])))));
    assert s6.since == [0, 0];
  }

  /** And that old they can be. */
  lemma FoundThatOld(kind: CacheKind, gap: nat) returns (s: CacheSys, run: seq<CacheAction>)
    ensures Initial(s) && Possible(s, run, Ttl(kind)) && LoadsWithin(s, run, Ttl(kind), gap)
    ensures var t := Exec(s, run, Ttl(kind));
            && Hit(t, 0, Ttl(kind)) == Some(0)
            && forall at :: HeldAt(t.since, 0, at) ==> at <= t.now - (if kind.PrefsCache? then 59 else 299) - gap
  {
    s, run := WindowIsTight(Ttl(kind), gap);
  }

  lemma Prepend(s: CacheSys, a: CacheAction, rest: seq<CacheAction>, ttl: nat, gap: nat)
    requires Enabled(s, a, ttl) && Possible(Do(s, a, ttl), rest, ttl)
    requires a.Finish? ==> s.now - s.loads[a.load].readAt <= gap
    ensures Possible(s, [a] + rest, ttl) && Exec(s, [a] + rest, ttl) == Exec(Do(s, a, ttl), rest, ttl)
    ensures LoadsWithin(Do(s, a, ttl), rest, ttl, gap) ==> LoadsWithin(s, [a] + rest, ttl, gap)
  {
    assert ([a] + rest)[1..] == rest;
  }

  // ---------- what invalidation buys ----------

  /** A load on this instance that read an older version than v and has not inserted it yet. */
  ghost predicate StaleLoad(s: CacheSys, instance: nat, v: nat) {
    exists load :: load in s.loads && s.loads[load].instance == instance && s.loads[load].version < v
  }

  /** Neither the entry nor a load of this instance is older than v. */
  ghost predicate Fresh(s: CacheSys, instance: nat, v: nat) {
    && v < |s.since|
    && !StaleLoad(s, instance, v)
    && (instance < |s.slots| && s.slots[instance].Some? ==> s.slots[instance].value.version >= v)
  }

  lemma {:induction false} FreshStays(s: CacheSys, run: seq<CacheAction>, ttl: nat, instance: nat, v: nat)
    requires Fresh(s, instance, v) && Possible(s, run, ttl)
    ensures Fresh(Exec(s, run, ttl), instance, v)
    decreases |run|
  {
    if run != [] {
      var t := Do(s, run[0], ttl);
      forall load | load in t.loads && t.loads[load].instance == instance ensures t.loads[load].version >= v {
        if load in s.loads {
          assert s.loads[load].version >= v;
        }
      }
      assert Fresh(t, instance, v);
      FreshStays(t, run[1..], ttl, instance, v);
    }
  }

  /** Some run from here ends in a lookup on the instance that returns an older version than v. */
  ghost predicate CanGoStale(s: CacheSys, ttl: nat, instance: nat, v: nat) {
    exists run: seq<CacheAction> ::
      && Possible(s, run, ttl) && Hit(Exec(s, run, ttl), instance, ttl).Some?
      && Hit(Exec(s, run, ttl), instance, ttl).value < v
  }

  /** update_type writes version v and then invalidates its own instance's entry. From then on every
      lookup there returns v or newer, in every run, if and only if no load on that instance had
      read an older version and was still to insert it when the entry was invalidated. */
  lemma InvalidationIsExact(s: CacheSys, ttl: nat, instance: nat, v: nat)
    requires ttl > 0 && v < |s.since| && Enabled(s, Invalidate(instance), ttl)
    ensures !CanGoStale(Do(s, Invalidate(instance), ttl), ttl, instance, v) <==> !StaleLoad(s, instance, v)
  {
    var t := Do(s, Invalidate(instance), ttl);
    if StaleLoad(s, instance, v) {
      var load :| load in s.loads && s.loads[load].instance == instance && s.loads[load].version < v;
      assert Possible(Do(t, Finish(load), ttl), [], ttl);
      Prepend(t, Finish(load), [], ttl, Max(0, t.now - t.loads[load].readAt));
      var run := [Finish(load)] + [];
      assert Hit(Exec(t, run, ttl), instance, ttl) == Some(s.loads[load].version);
    } else {
      assert Fresh(t, instance, v);
      forall run: seq<CacheAction> | Possible(t, run, ttl)
        ensures Hit(Exec(t, run, ttl), instance, ttl).Some? ==> Hit(Exec(t, run, ttl), instance, ttl).value >= v
      {
        FreshStays(t, run, ttl, instance, v);
      }
    }
  }

  /** It happens: a load reads the row, the row is updated, its entry invalidated, and then the load
      inserts what it had read. */
  lemma InvalidatedComesBack(ttl: nat) returns (s: CacheSys, run: seq<CacheAction>)
    requires ttl > 0
    ensures Initial(s) && Possible(s, run, ttl) && Enabled(Exec(s, run, ttl), Invalidate(0), ttl)
    ensures var t := Exec(s, run, ttl);
            |t.since| == 2 && StaleLoad(t, 0, 1) && CanGoStale(Do(t, Invalidate(0), ttl), ttl, 0, 1)
  {
    s := CacheSys(0, [], [None], map[]);
    var s1 := Do(s, Update, ttl);
    var s2 := Do(s1, Begin(0, 0), ttl);
    Prepend(s2, Update, [], ttl, 0);
    Prepend(s1, Begin(0, 0), [Update] + [], ttl, 0);
    Prepend(s, Update, [Begin(0, 0)] + ([Update] + []), ttl, 0);
    run := [Update] + ([Begin(0, 0)] + ([Update] + []));
    var t := Exec(s, run, ttl);
    assert 0 in t.loads && t.loads[0].version < 1;
    InvalidationIsExact(t, ttl, 0, 1);
  }
}
