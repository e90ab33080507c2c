/** Services, types and levels as the database keeps them (db/services.rs, db/schemas.rs), and the
    composite keys their cached copies live under (cache/mod.rs). */
module Registry {
  import opened Common
  import opened Notifications
  import opened Cluster
  import opened Preferences

  datatype Level = Level(id: LevelId, severity: int)

  /** The tables the processor works on. Slugs and (service, key) pairs are unique, so they are keys. */
  datatype Db = Db(
    now: Time,
    table: Table,
    types: map<TypeId, TypeRow>,
    services: map<string, ServiceId>,
    typeIds: map<(ServiceId, string), TypeId>,
    levels: map<(ServiceId, string), Level>,
    prefs: map<string, UserPrefs>,
    levelOf: map<Id, Option<LevelId>>,  // the level column of the inserted rows
    keyOf: map<Id, Option<string>>)     // their idempotency key

  datatype CachedType = CachedType(id: TypeId, service: ServiceId, conf: TypeConf)

  datatype AppCaches = AppCaches(
    types: map<string, CachedType>, levels: map<string, Level>, prefs: map<string, UserPrefs>)

  // ---------- composite keys ----------

  function CacheKey(slug: string, key: string): string {
    slug + ":" + key
  }

  predicate ColonFree(slug: string) {
    ':' !in slug
  }

  /** One slug is a proper prefix of the other, up to a colon, and the keys make up the difference. */
  ghost predicate Overlap(slug1: string, key1: string, slug2: string, key2: string) {
    exists middle: string :: slug2 == slug1 + ":" + middle && key1 == middle + ":" + key2
  }

  /** Exactly which pairs share a cache key: equal pairs, and those where one slug extends the other
      past a colon. */
  lemma KeysCollide(slug1: string, key1: string, slug2: string, key2: string)
    ensures CacheKey(slug1, key1) == CacheKey(slug2, key2) <==>
            (slug1 == slug2 && key1 == key2) || Overlap(slug1, key1, slug2, key2) || Overlap(slug2, key2, slug1, key1)
  {
    if CacheKey(slug1, key1) == CacheKey(slug2, key2) {
      if |slug1| < |slug2| {
        OverlapOfEqualKeys(slug1, key1, slug2, key2);
      } else if |slug2| < |slug1| {
        OverlapOfEqualKeys(slug2, key2, slug1, key1);
      } else {
        var whole := CacheKey(slug1, key1);
        assert slug1 == whole[..|slug1|] && slug2 == whole[..|slug2|];
        assert key1 == whole[|slug1| + 1..] && key2 == whole[|slug2| + 1..];
      }
    }
    if middle: string :| slug2 == slug1 + ":" + middle && key1 == middle + ":" + key2 {
      assert CacheKey(slug1, key1) == slug1 + ":" + (middle + ":" + key2) == CacheKey(slug2, key2);
    }
    if middle: string :| slug1 == slug2 + ":" + middle && key2 == middle + ":" + key1 {
      assert CacheKey(slug2, key2) == slug2 + ":" + (middle + ":" + key1) == CacheKey(slug1, key1);
    }
  }

  lemma OverlapOfEqualKeys(slug1: string, key1: string, slug2: string, key2: string)
    requires CacheKey(slug1, key1) == CacheKey(slug2, key2) && |slug1| < |slug2|
    ensures Overlap(slug1, key1, slug2, key2)
  {
    var whole := CacheKey(slug1, key1);
    var middle := slug2[|slug1| + 1..];
    assert slug2 == whole[..|slug2|];
    assert slug1 == whole[..|slug1|] && whole[|slug1|] == ':';
    assert slug2 == slug1 + ":" + middle;
    assert key1 == whole[|slug1| + 1..];
    assert whole == slug2 + ":" + key2;
    assert key1 == middle + ":" + key2;
  }

  /** Slugs without a colon never collide. */
  lemma ColonFreeKeysAreInjective(slug1: string, key1: string, slug2: string, key2: string)
    requires ColonFree(slug1) && ColonFree(slug2) && CacheKey(slug1, key1) == CacheKey(slug2, key2)
    ensures slug1 == slug2 && key1 == key2
  {
    KeysCollide(slug1, key1, slug2, key2);
    OverlapHasColon(slug1, key1, slug2, key2);
    OverlapHasColon(slug2, key2, slug1, key1);
  }

  lemma OverlapHasColon(slug1: string, key1: string, slug2: string, key2: string)
    ensures Overlap(slug1, key1, slug2, key2) ==> !ColonFree(slug2)
  {
    if middle: string :| slug2 == slug1 + ":" + middle && key1 == middle + ":" + key2 {
      assert slug2[|slug1|] == ':';
    }
  }

  /** A slug with a colon can collide with another service's type. */
  lemma ColonSlugsCollide()
    ensures CacheKey("mail:eu", "welcome") == CacheKey("mail", "eu:welcome")
  {
    assert CacheKey("mail:eu", "welcome") == "mail:eu:welcome" == CacheKey("mail", "eu:welcome");
  }

  // ---------- what stays true of identities ----------

  predicate TypesOk(d: Db) {
    forall p :: p in d.typeIds ==>
      && d.typeIds[p] in d.types && d.types[d.typeIds[p]].service == p.0
      && d.types[d.typeIds[p]].versions != []
  }

  /** Any amount of registering, updating and inserting by others: identities stay. */
  predicate Evolves(d: Db, e: Db) {
    && d.now <= e.now
    && (forall slug :: slug in d.services ==> slug in e.services && e.services[slug] == d.services[slug])
    && (forall p :: p in d.typeIds ==> p in e.typeIds && e.typeIds[p] == d.typeIds[p])
    && (forall p :: p in d.levels ==> p in e.levels && e.levels[p].id == d.levels[p].id)
    && (forall ty :: ty in d.types ==>
          ty in e.types && e.types[ty].service == d.types[ty].service && d.types[ty].versions <= e.types[ty].versions)
    && (forall id :: id in d.table ==>
          id in e.table && e.table[id].ty == d.table[id].ty && e.table[id].service == d.table[id].service
          && (id in d.levelOf ==> id in e.levelOf && e.levelOf[id] == d.levelOf[id]))
  }

  /** The pair a (slug, key) of a type names. */
  ghost predicate NamesType(d: Db, slug: string, key: string, ty: TypeId, service: ServiceId) {
    slug in d.services && d.services[slug] == service && (service, key) in d.typeIds && d.typeIds[(service, key)] == ty
  }

  ghost predicate NamesLevel(d: Db, slug: string, key: string, level: LevelId, service: ServiceId) {
    && slug in d.services && d.services[slug] == service
    && (service, key) in d.levels && d.levels[(service, key)].id == level
  }

  /** A cached type is some version of a type registered under a pair with that key. */
  ghost predicate TypeEntryOk(d: Db, cacheKey: string, c: CachedType) {
    && (exists slug, key :: CacheKey(slug, key) == cacheKey && NamesType(d, slug, key, c.id, c.service))
    && c.id in d.types && c.conf in d.types[c.id].versions
  }

  ghost predicate LevelEntryOk(d: Db, cacheKey: string, l: Level) {
    exists slug, key, service :: CacheKey(slug, key) == cacheKey && NamesLevel(d, slug, key, l.id, service)
  }

  /** However old the entries are. */
  ghost predicate CachesOk(d: Db, c: AppCaches) {
    && (forall k :: k in c.types ==> TypeEntryOk(d, k, c.types[k]))
    && (forall k :: k in c.levels ==> LevelEntryOk(d, k, c.levels[k]))
  }

  /** Entries may expire, be evicted and be invalidated. */
  predicate Thinned(c: AppCaches, d: AppCaches) {
    && (forall k :: k in d.types ==> k in c.types && d.types[k] == c.types[k])
    && (forall k :: k in d.levels ==> k in c.levels && d.levels[k] == c.levels[k])
    && (forall k :: k in d.prefs ==> k in c.prefs && d.prefs[k] == c.prefs[k])
  }

  lemma StaleEntriesStayOk(d: Db, c: AppCaches, d': Db, c': AppCaches)
    requires CachesOk(d, c) && Evolves(d, d') && Thinned(c, c')
    ensures CachesOk(d', c')
  {
    forall k | k in c'.types ensures TypeEntryOk(d', k, c'.types[k]) {
      assert TypeEntryOk(d, k, c.types[k]);
      var slug, key :| CacheKey(slug, key) == k && NamesType(d, slug, key, c.types[k].id, c.types[k].service);
      assert NamesType(d', slug, key, c.types[k].id, c.types[k].service);
    }
    forall k | k in c'.levels ensures LevelEntryOk(d', k, c'.levels[k]) {
      assert LevelEntryOk(d, k, c.levels[k]);
      var slug, key, service :| CacheKey(slug, key) == k && NamesLevel(d, slug, key, c.levels[k].id, service);
      assert NamesLevel(d', slug, key, c.levels[k].id, service);
    }
  }

  ghost predicate SlugsColonFree(d: Db) {
    forall slug :: slug in d.services ==> ColonFree(slug)
  }

  /** Among colon-free slugs an entry found under a pair's key belongs to that pair. */
  lemma EntryBelongs(d: Db, c: AppCaches, slug: string, key: string)
    requires CachesOk(d, c) && SlugsColonFree(d) && ColonFree(slug)
    ensures CacheKey(slug, key) in c.types ==>
              NamesType(d, slug, key, c.types[CacheKey(slug, key)].id, c.types[CacheKey(slug, key)].service)
    ensures CacheKey(slug, key) in c.levels ==>
              slug in d.services && NamesLevel(d, slug, key, c.levels[CacheKey(slug, key)].id, d.services[slug])
  {
    var k := CacheKey(slug, key);
    if k in c.types {
      assert TypeEntryOk(d, k, c.types[k]);
      var slug', key' :| CacheKey(slug', key') == k && NamesType(d, slug', key', c.types[k].id, c.types[k].service);
      ColonFreeKeysAreInjective(slug, key, slug', key');
    }
    if k in c.levels {
      assert LevelEntryOk(d, k, c.levels[k]);
      var slug', key', service :| CacheKey(slug', key') == k && NamesLevel(d, slug', key', c.levels[k].id, service);
      ColonFreeKeysAreInjective(slug, key, slug', key');
    }
  }
}
