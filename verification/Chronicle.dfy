/** What one processor has seen of the database: every state it worked on, in order, and where in
    them each answer it uses, cached or loaded, was read. */
module Chronicle {
  import opened Common
  import Cluster
  import opened Registry
  import opened Preferences

  /** The states of the database up to the present one; identities stay throughout. */
  ghost predicate IsHistory(h: seq<Db>, d: Db) {
    && h != [] && h[|h| - 1] == d
    && forall i, j {:trigger Upto(i, j)} :: Upto(i, j) && j < |h| ==> Evolves(h[i], h[j])
  }

  predicate Upto(i: int, j: int) {
    0 <= i <= j
  }

  lemma Later(h: seq<Db>, d: Db, i: nat, j: nat)
    requires IsHistory(h, d) && i <= j < |h|
    ensures Evolves(h[i], h[j])
  {
    assert Upto(i, j);
  }

  /** Prefixes compose. */
  lemma Longer(a: seq<Db>, b: seq<Db>, c: seq<Db>)
    requires a <= b <= c
    ensures a <= c
  {
  }

  lemma ClockRuns(h: seq<Db>, d: Db, i: nat)
    requires IsHistory(h, d) && i < |h|
    ensures h[i].now <= d.now
  {
    Later(h, d, i, |h| - 1);
  }

  /** A present becomes a position in the history. */
  lemma PresentAt(h: seq<Db>, d: Db, more: seq<Db>)
    requires IsHistory(h, d) && h <= more
    ensures |h| > 0 && more[|h| - 1] == d && more[|h| - 1].now == d.now
  {
  }

  lemma NotAfterPresent(h: seq<Db>, d: Db, last: nat, at: Time)
    requires IsHistory(h, d) && last == |h| - 1 && at <= d.now
    ensures at <= h[last].now
  {
  }

  /** From an earlier present to a later one. */
  lemma MovesOn(h: seq<Db>, d: Db, more: seq<Db>, e: Db, slug: string)
    requires IsHistory(h, d) && IsHistory(more, e) && h <= more
    ensures d.now <= e.now
    ensures slug in d.services ==> slug in e.services && e.services[slug] == d.services[slug]
  {
    Later(more, e, |h| - 1, |more| - 1);
    assert more[|h| - 1] == d;
  }

  lemma EvolvesOn(h: seq<Db>, d: Db, more: seq<Db>, e: Db)
    requires IsHistory(h, d) && IsHistory(more, e) && h <= more
    ensures Evolves(d, e)
  {
    Later(more, e, |h| - 1, |more| - 1);
    PresentAt(h, d, more);
  }

  lemma PairStaysRegistered(h: seq<Db>, d: Db, more: seq<Db>, e: Db, slug: string, key: string)
    requires IsHistory(h, d) && IsHistory(more, e) && h <= more && slug in d.services
    ensures slug in e.services && e.services[slug] == d.services[slug]
    ensures (d.services[slug], key) in d.typeIds ==> (e.services[slug], key) in e.typeIds
  {
    Later(more, e, |h| - 1, |more| - 1);
    PresentAt(h, d, more);
  }

  lemma VersionStays(h: seq<Db>, d: Db, more: seq<Db>, e: Db, ty: TypeId, v: nat)
    requires IsHistory(h, d) && IsHistory(more, e) && h <= more && ty in d.types && v < |d.types[ty].versions|
    ensures ty in e.types && v < |e.types[ty].versions| && e.types[ty].versions[v] == d.types[ty].versions[v]
  {
    Later(more, e, |h| - 1, |more| - 1);
    PresentAt(h, d, more);
  }

  // ---------- what the queries return ----------

  /** The service's row by its slug, then the type's by its key, in its current version. */
  function TypeIn(d: Db, slug: string, key: string): Option<CachedType> {
    if slug in d.services && (d.services[slug], key) in d.typeIds then
      var id := d.typeIds[(d.services[slug], key)];
      var conf := Cluster.Lookup(d.types, id);
      if conf.Some? then Some(CachedType(id, d.services[slug], conf.value)) else None
    else None
  }

  function LevelIn(d: Db, slug: string, key: string): Option<Level> {
    if slug in d.services && (d.services[slug], key) in d.levels then Some(d.levels[(d.services[slug], key)]) else None
  }

  /** A user's rows; one without rows has the defaults. */
  function UserRows(d: Db, user: string): UserPrefs {
    if user in d.prefs then d.prefs[user] else UserPrefs(true, [], [], [])
  }

  /** When the four queries of a preference load were answered, as positions in the history. */
  datatype Reads = Reads(global: nat, services: nat, types: nat, rules: nat)

  predicate InOrder(r: Reads, from: int, end: int) {
    from <= r.global <= r.services <= r.types <= r.rules < end
  }

  /** The rows there were for the four queries, all mute rules included. */
  function RowsRead(h: seq<Db>, r: Reads, user: string): UserPrefs
    requires InOrder(r, 0, |h|)
  {
    UserPrefs(UserRows(h[r.global], user).globalEnabled, UserRows(h[r.services], user).servicePrefs,
              UserRows(h[r.types], user).typePrefs, UserRows(h[r.rules], user).muteRules)
  }

  /** What the load makes of them: the last query returns the active rules only. */
  function Loaded(h: seq<Db>, r: Reads, user: string): UserPrefs
    requires InOrder(r, 0, |h|)
  {
    var rows := RowsRead(h, r, user);
    rows.(muteRules := ActiveRules(rows.muteRules, h[r.rules].now))
  }

  /** A type is found under its service's slug and its key, in its last version. */
  lemma TypeInMeans(d: Db, slug: string, key: string)
    ensures var c := TypeIn(d, slug, key);
            && (c.Some? <==>
                  && slug in d.services && (d.services[slug], key) in d.typeIds
                  && var ty := d.typeIds[(d.services[slug], key)]; ty in d.types && d.types[ty].versions != [])
            && (c.Some? ==>
                  var ty := d.typeIds[(d.services[slug], key)];
                  && c.value.id == ty && c.value.service == d.services[slug]
                  && c.value.conf == d.types[ty].versions[|d.types[ty].versions| - 1])
  {
  }

  lemma LevelInMeans(d: Db, slug: string, key: string)
    ensures var l := LevelIn(d, slug, key);
            && (l.Some? <==> slug in d.services && (d.services[slug], key) in d.levels)
            && (l.Some? ==> l.value == d.levels[(d.services[slug], key)])
  {
  }

  /** A user's rows are theirs; one who has none is delivered everything. */
  lemma UserRowsMeans(d: Db, user: string, nt: TypeInfo, severity: Option<int>, now: Time)
    ensures user in d.prefs ==> UserRows(d, user) == d.prefs[user]
    ensures user !in d.prefs ==> Resolve(UserRows(d, user), nt, severity, now).deliver
  {
  }

  /** Of the rules there were, a load keeps those that had not ended. */
  lemma LoadedRulesAreActive(h: seq<Db>, r: Reads, user: string)
    requires InOrder(r, 0, |h|)
    ensures forall rule :: rule in Loaded(h, r, user).muteRules <==>
                           rule in RowsRead(h, r, user).muteRules
                           && (rule.mutedUntil == None || h[r.rules].now < rule.mutedUntil.value)
    ensures Loaded(h, r, user).(muteRules := []) == RowsRead(h, r, user).(muteRules := [])
  {
    ActiveRulesMeans(RowsRead(h, r, user).muteRules, h[r.rules].now);
  }

  // ---------- where an answer came from ----------

  /** Some state from position `from` on answered so. */
  ghost predicate TypeRead(h: seq<Db>, from: int, slug: string, key: string, c: Option<CachedType>) {
    exists j :: 0 <= j < |h| && from <= j && TypeIn(h[j], slug, key) == c
  }

  /** Likewise; without the service there is no answer at all. */
  ghost predicate LevelRead(h: seq<Db>, from: int, slug: string, key: string, l: Option<Level>) {
    exists j :: 0 <= j < |h| && from <= j && slug in h[j].services && LevelIn(h[j], slug, key) == l
  }

  ghost predicate TypeOnce(h: seq<Db>, cacheKey: string, c: CachedType) {
    exists slug, key :: CacheKey(slug, key) == cacheKey && TypeRead(h, 0, slug, key, Some(c))
  }

  ghost predicate LevelOnce(h: seq<Db>, cacheKey: string, l: Level) {
    exists slug, key :: CacheKey(slug, key) == cacheKey && LevelRead(h, 0, slug, key, Some(l))
  }

  ghost predicate PrefsOnce(h: seq<Db>, user: string, p: UserPrefs) {
    exists r :: InOrder(r, 0, |h|) && Loaded(h, r, user) == p
  }

  /** However old they are, the cached entries are answers the database once gave. */
  ghost predicate CachedFrom(h: seq<Db>, c: AppCaches) {
    && (forall k {:trigger TypeOnce(h, k, c.types[k])} :: k in c.types ==> TypeOnce(h, k, c.types[k]))
    && (forall k {:trigger LevelOnce(h, k, c.levels[k])} :: k in c.levels ==> LevelOnce(h, k, c.levels[k]))
    && (forall user {:trigger PrefsOnce(h, user, c.prefs[user])} ::
          user in c.prefs ==> PrefsOnce(h, user, c.prefs[user]))
  }

  /** Answers stay answers as the history goes on. */
  lemma ReadsStay(h: seq<Db>, more: seq<Db>, from: int, slug: string, key: string)
    requires h <= more
    ensures forall c :: TypeRead(h, from, slug, key, c) ==> TypeRead(more, from, slug, key, c)
    ensures forall l :: LevelRead(h, from, slug, key, l) ==> LevelRead(more, from, slug, key, l)
  {
    forall c | TypeRead(h, from, slug, key, c) ensures TypeRead(more, from, slug, key, c) {
      var j :| 0 <= j < |h| && from <= j && TypeIn(h[j], slug, key) == c;
      assert more[j] == h[j];
    }
    forall l | LevelRead(h, from, slug, key, l) ensures LevelRead(more, from, slug, key, l) {
      var j :| 0 <= j < |h| && from <= j && slug in h[j].services && LevelIn(h[j], slug, key) == l;
      assert more[j] == h[j];
    }
  }

  lemma TypeOnceStays(h: seq<Db>, more: seq<Db>, k: string, c: CachedType)
    requires h <= more && TypeOnce(h, k, c)
    ensures TypeOnce(more, k, c)
  {
    var slug, key :| CacheKey(slug, key) == k && TypeRead(h, 0, slug, key, Some(c));
    ReadsStay(h, more, 0, slug, key);
  }

  lemma LevelOnceStays(h: seq<Db>, more: seq<Db>, k: string, l: Level)
    requires h <= more && LevelOnce(h, k, l)
    ensures LevelOnce(more, k, l)
  {
    var slug, key :| CacheKey(slug, key) == k && LevelRead(h, 0, slug, key, Some(l));
    ReadsStay(h, more, 0, slug, key);
  }

  lemma PrefsOnceStays(h: seq<Db>, more: seq<Db>, user: string, p: UserPrefs)
    requires h <= more && PrefsOnce(h, user, p)
    ensures PrefsOnce(more, user, p)
  {
    var r :| InOrder(r, 0, |h|) && Loaded(h, r, user) == p;
    assert Loaded(more, r, user) == Loaded(h, r, user);
  }

  lemma CachedStays(h: seq<Db>, more: seq<Db>, c: AppCaches, c': AppCaches)
    requires h <= more && CachedFrom(h, c) && Thinned(c, c')
    ensures CachedFrom(more, c')
  {
    forall k | k in c'.types ensures TypeOnce(more, k, c'.types[k]) {
      assert TypeOnce(h, k, c.types[k]);
      TypeOnceStays(h, more, k, c.types[k]);
    }
    forall k | k in c'.levels ensures LevelOnce(more, k, c'.levels[k]) {
      assert LevelOnce(h, k, c.levels[k]);
      LevelOnceStays(h, more, k, c.levels[k]);
    }
    forall user | user in c'.prefs ensures PrefsOnce(more, user, c'.prefs[user]) {
      assert PrefsOnce(h, user, c.prefs[user]);
      PrefsOnceStays(h, more, user, c.prefs[user]);
    }
  }

  /** One more state. */
  lemma HistoryGrows(h: seq<Db>, d: Db, e: Db)
    requires IsHistory(h, d) && Evolves(d, e)
    ensures IsHistory(h + [e], e)
  {
    forall i, j | Upto(i, j) && j < |h + [e]| ensures Evolves((h + [e])[i], (h + [e])[j]) {
      if j < |h| {
        assert (h + [e])[i] == h[i] && (h + [e])[j] == h[j];
        Later(h, d, i, j);
      } else if i < |h| {
        assert (h + [e])[i] == h[i] && (h + [e])[j] == e;
        EvolvesFurther(h, d, e, i);
      }
    }
  }

  lemma EvolvesFurther(h: seq<Db>, d: Db, e: Db, i: nat)
    requires IsHistory(h, d) && Evolves(d, e) && i < |h|
    ensures Evolves(h[i], e)
  {
    Later(h, d, i, |h| - 1);
  }

  /** Entries that are old answers name registered types and levels. */
  lemma CachedIsOk(h: seq<Db>, d: Db, c: AppCaches)
    requires IsHistory(h, d) && CachedFrom(h, c)
    ensures CachesOk(d, c)
  {
    forall k | k in c.types ensures TypeEntryOk(d, k, c.types[k]) {
      assert TypeOnce(h, k, c.types[k]);
      TypeOnceIsOk(h, d, k, c.types[k]);
    }
    forall k | k in c.levels ensures LevelEntryOk(d, k, c.levels[k]) {
      assert LevelOnce(h, k, c.levels[k]);
      LevelOnceIsOk(h, d, k, c.levels[k]);
    }
  }

  lemma TypeStays(d: Db, e: Db, slug: string, key: string, c: CachedType)
    requires Evolves(d, e) && TypeIn(d, slug, key) == Some(c)
    ensures NamesType(e, slug, key, c.id, c.service) && c.id in e.types && c.conf in e.types[c.id].versions
  {
    assert c.conf in d.types[c.id].versions;
  }

  lemma TypeOnceIsOk(h: seq<Db>, d: Db, k: string, c: CachedType)
    requires IsHistory(h, d) && TypeOnce(h, k, c)
    ensures TypeEntryOk(d, k, c)
  {
    var slug, key :| CacheKey(slug, key) == k && TypeRead(h, 0, slug, key, Some(c));
    TypeReadStays(h, d, slug, key, c);
  }

  lemma TypeReadStays(h: seq<Db>, d: Db, slug: string, key: string, c: CachedType)
    requires IsHistory(h, d) && TypeRead(h, 0, slug, key, Some(c))
    ensures NamesType(d, slug, key, c.id, c.service) && c.id in d.types && c.conf in d.types[c.id].versions
  {
    var j :| 0 <= j < |h| && TypeIn(h[j], slug, key) == Some(c);
    Later(h, d, j, |h| - 1);
    PresentAt(h, d, h);
    TypeStays(h[j], d, slug, key, c);
  }

  lemma LevelOnceIsOk(h: seq<Db>, d: Db, k: string, l: Level)
    requires IsHistory(h, d) && LevelOnce(h, k, l)
    ensures LevelEntryOk(d, k, l)
  {
    var slug, key :| CacheKey(slug, key) == k && LevelRead(h, 0, slug, key, Some(l));
    var j :| 0 <= j < |h| && slug in h[j].services && LevelIn(h[j], slug, key) == Some(l);
    Later(h, d, j, |h| - 1);
    assert NamesLevel(d, slug, key, l.id, d.services[slug]);
  }

  /** A decision on rules filtered when they were loaded, whatever the load caught of changes under
      way, is the decision on all the rows there were. */
  lemma DecisionOnAllRows(h: seq<Db>, r: Reads, user: string, nt: TypeInfo, severity: Option<int>, at: Time)
    requires InOrder(r, 0, |h|) && h[r.rules].now <= at
    ensures Resolve(Loaded(h, r, user), nt, severity, at) == Resolve(RowsRead(h, r, user), nt, severity, at)
  {
    FilteringAtLoadIsHarmless(RowsRead(h, r, user), nt, severity, h[r.rules].now, at);
  }
}
