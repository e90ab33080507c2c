/** The notification processor of one instance (processing/processor.rs): cache lookups that load on
    a miss, preference resolution, the insert and the NewNotification event. While it works, other
    parties change the database and entries leave its caches. */
module Processor {
  import opened Common
  import Cluster
  import opened Registry
  import opened Preferences
  import opened Chronicle
  import Requests

  datatype IngestMessage = IngestMessage(
    id: Id, slug: string, typeKey: string, user: string, level: string, idempotencyKey: Option<string>)

  datatype Failure =
    | UnknownType            // no such service or type
    | UnknownService         // no such service, when looking up the level
    | Refused                // the id or the idempotency key is taken
    | ReplyLost              // the row is in, but the insert is reported failed
    | Unencodable            // the row is in, but its event cannot be encoded

  /** All but the failures are acknowledged, `Unannounced` too, whose publish fails and is only logged. */
  datatype Outcome = Delivered | Unannounced | AutoArchived | Failed(why: Failure)

  /** What goes wrong from the insert on. */
  datatype Faults = Faults(replyLost: bool, unencodable: bool, publishFails: bool)

  /** What becomes of a message once its row is in. */
  function Fate(deliver: bool, f: Faults): Outcome {
    if f.replyLost then Failed(ReplyLost)
    else if !deliver then AutoArchived
    else if f.unencodable then Failed(Unencodable)
    else if f.publishFails then Unannounced
    else Delivered
  }

  predicate InsertsRow(r: Outcome) {
    r.Failed? ==> r.why.ReplyLost? || r.why.Unencodable?
  }

  /** The insert was tried. */
  predicate Committed(r: Outcome) {
    InsertsRow(r) || r == Failed(Refused)
  }

  predicate Announces(r: Outcome) {
    r == Delivered
  }

  function ClusterOf(d: Db): Cluster.Sys {
    Cluster.Sys(d.now, d.table, d.types, [])
  }

  /** What the resolver sees of a cached type. */
  function InfoOf(c: CachedType): TypeInfo {
    TypeInfo(c.id, c.service, c.conf.ttl, c.conf.interval, c.conf.max)
  }

  function SeverityOf(l: Option<Level>): Option<int> {
    if l.Some? then Some(l.value.severity) else None
  }

  function IdOf(l: Option<Level>): Option<LevelId> {
    if l.Some? then Some(l.value.id) else None
  }

  // ---------- what a row's references are worth ----------

  /** Every row's type is a registered one of the row's service, and so is its level, if any. */
  ghost predicate PairRegistered(d: Db, id: Id) {
    id in d.table && exists key ::
      (d.table[id].service, key) in d.typeIds && d.typeIds[(d.table[id].service, key)] == d.table[id].ty
  }

  ghost predicate LevelRegistered(d: Db, id: Id) {
    id in d.table && id in d.levelOf && (d.levelOf[id].Some? ==>
      exists key :: (d.table[id].service, key) in d.levels
        && d.levels[(d.table[id].service, key)].id == d.levelOf[id].value)
  }

  /** The unique index on non-null idempotency keys. */
  predicate KeyFree(d: Db, key: Option<string>) {
    key.Some? ==> forall id :: id in d.keyOf ==> d.keyOf[id] != key
  }

  /** The type may be used for the message: registered, and among colon-free slugs its own. */
  ghost predicate TypeFits(d: Db, slug: string, key: string, c: CachedType) {
    && TypeEntryOk(d, CacheKey(slug, key), c)
    && (ColonFree(slug) && SlugsColonFree(d) ==> NamesType(d, slug, key, c.id, c.service))
  }

  ghost predicate LevelFits(d: Db, slug: string, key: string, level: Option<LevelId>) {
    level.Some? && ColonFree(slug) && SlugsColonFree(d) ==>
      slug in d.services && NamesLevel(d, slug, key, level.value, d.services[slug])
  }

  /** Any answer the database once gave for the cache key fits, at any later time. */
  lemma OldTypeFits(h: seq<Db>, d: Db, slug: string, key: string, c: CachedType)
    requires IsHistory(h, d) && TypeOnce(h, CacheKey(slug, key), c)
    ensures TypeFits(d, slug, key, c)
  {
    var k := CacheKey(slug, key);
    TypeOnceIsOk(h, d, k, c);
    if ColonFree(slug) && SlugsColonFree(d) {
      var slug', key' :| CacheKey(slug', key') == k && NamesType(d, slug', key', c.id, c.service);
      ColonFreeKeysAreInjective(slug, key, slug', key');
    }
  }

  lemma OldLevelFits(h: seq<Db>, d: Db, slug: string, key: string, l: Level)
    requires IsHistory(h, d) && LevelOnce(h, CacheKey(slug, key), l)
    ensures LevelFits(d, slug, key, Some(l.id))
  {
    var k := CacheKey(slug, key);
    LevelOnceIsOk(h, d, k, l);
    if ColonFree(slug) && SlugsColonFree(d) {
      var slug', key', service :| CacheKey(slug', key') == k && NamesLevel(d, slug', key', l.id, service);
      ColonFreeKeysAreInjective(slug, key, slug', key');
    }
  }

  // ---------- the account of one message ----------

  /** A lookup's answer: the cached one, or what the database said at position `from` or later. */
  ghost predicate TypeAnswer(cached: AppCaches, h: seq<Db>, from: int, slug: string, key: string,
                             c: Option<CachedType>) {
    var k := CacheKey(slug, key);
    if k in cached.types then c == Some(cached.types[k]) else TypeRead(h, from, slug, key, c)
  }

  /** The same for a level, whose entry may have been dropped before the lookup. */
  ghost predicate LevelAnswer(cached: AppCaches, h: seq<Db>, from: int, slug: string, key: string, l: Option<Level>) {
    var k := CacheKey(slug, key);
    (k in cached.levels && l == Some(cached.levels[k])) || LevelRead(h, from, slug, key, l)
  }

  /** A message without a level has none looked up. */
  ghost predicate LevelAnswered(cached: AppCaches, h: seq<Db>, from: int, m: IngestMessage, l: Option<Level>) {
    if m.level == "" then l.None? else LevelAnswer(cached, h, from, m.slug, m.level, l)
  }

  /** Answers stay truthful as the history goes on. */
  lemma TypeAnswerStays(cached: AppCaches, h: seq<Db>, more: seq<Db>, from: int, m: IngestMessage,
                        c: Option<CachedType>)
    requires h <= more && TypeAnswer(cached, h, from, m.slug, m.typeKey, c)
    ensures TypeAnswer(cached, more, from, m.slug, m.typeKey, c)
  {
    ReadsStay(h, more, from, m.slug, m.typeKey);
  }

  lemma LevelAnswerStays(cached: AppCaches, h: seq<Db>, more: seq<Db>, from: int, m: IngestMessage, l: Option<Level>)
    requires h <= more && LevelAnswered(cached, h, from, m, l)
    ensures LevelAnswered(cached, more, from, m, l)
  {
    ReadsStay(h, more, from, m.slug, m.level);
  }

  /** The entries of one kind: none added or changed. */
  predicate LevelsThinned(c: AppCaches, d: AppCaches) {
    forall k {:trigger d.levels[k]} :: k in d.levels ==> k in c.levels && d.levels[k] == c.levels[k]
  }

  predicate PrefsThinned(c: AppCaches, d: AppCaches) {
    forall user {:trigger d.prefs[user]} :: user in d.prefs ==> user in c.prefs && d.prefs[user] == c.prefs[user]
  }

  lemma PrefsThinnedOn(c: AppCaches, d: AppCaches, e: AppCaches)
    requires PrefsThinned(c, d) && PrefsThinned(d, e)
    ensures PrefsThinned(c, e)
  {
  }

  /** An answer from fewer entries and later states is one from more entries and earlier states. */
  lemma AnswerLater(cached: AppCaches, later: AppCaches, h: seq<Db>, from: int, after: int, m: IngestMessage,
                    l: Option<Level>)
    requires LevelAnswered(later, h, after, m, l) && from <= after && LevelsThinned(cached, later)
    ensures LevelAnswered(cached, h, from, m, l)
  {
    if m.level != "" && LevelRead(h, after, m.slug, m.level, l) {
      var j :| 0 <= j < |h| && after <= j && m.slug in h[j].services && LevelIn(h[j], m.slug, m.level) == l;
    }
  }

  /** A second lookup answers from what the first one left in the cache, or anew. */
  lemma AnswerAgain(cached: AppCaches, between: AppCaches, first: seq<Db>, h: seq<Db>, from: int, after: int,
                    m: IngestMessage, l: Option<Level>)
    requires LevelAnswered(between, h, after, m, l) && from <= after && first <= h
    requires CacheKey(m.slug, m.level) in between.levels ==>
               LevelAnswer(cached, first, from, m.slug, m.level, Some(between.levels[CacheKey(m.slug, m.level)]))
    ensures LevelAnswered(cached, h, from, m, l)
  {
    ReadsStay(first, h, from, m.slug, m.level);
    if m.level != "" && LevelRead(h, after, m.slug, m.level, l) {
      var j :| 0 <= j < |h| && after <= j && m.slug in h[j].services && LevelIn(h[j], m.slug, m.level) == l;
    }
  }

  /** What one call of process_message went by: the type, the level looked up for its severity and
      again for its id, when the preferences were read, the instant they were resolved at and the
      decision, and the position of the state the row was to be inserted into. */
  datatype Account = Account(
    used: CachedType, level: Option<Level>, stored: Option<Level>, asked: Reads, at: Time, deliver: bool, before: nat)

  /** The answers are truthful: each was cached at the start or read from the database since. */
  ghost predicate Answered(cached: AppCaches, h: seq<Db>, from: int, m: IngestMessage, c: CachedType,
                           level: Option<Level>, stored: Option<Level>) {
    && TypeAnswer(cached, h, from, m.slug, m.typeKey, Some(c))
    && LevelAnswered(cached, h, from, m, level) && LevelAnswered(cached, h, from, m, stored)
  }

  /** The decision is the one the user's rows make, all mute rules included, however old the cached
      preferences were: those cached at the start, or rows read since. */
  ghost predicate Decided(cached: AppCaches, h: seq<Db>, from: int, m: IngestMessage, a: Account) {
    && InOrder(a.asked, 0, |h|) && h[a.asked.rules].now <= a.at
    && (from <= a.asked.global || (m.user in cached.prefs && cached.prefs[m.user] == Loaded(h, a.asked, m.user)))
    && a.deliver == Resolve(RowsRead(h, a.asked, m.user), InfoOf(a.used), SeverityOf(a.level), a.at).deliver
  }

  ghost predicate LookedUp(cached: AppCaches, h: seq<Db>, from: nat, m: IngestMessage, a: Account) {
    && from <= a.before < |h| && h[from].now <= a.at <= h[a.before].now
    && Answered(cached, h, from, m, a.used, a.level, a.stored) && Decided(cached, h, from, m, a)
  }

  /** Said outright: a message is delivered if and only if the user is on, no mute rule of theirs that
      has not ended is for the type's service, or all, and for the type, or all, no preference for the
      service is off or asks for more than the level's severity, and none for the type is off. */
  lemma DecidedMeans(cached: AppCaches, h: seq<Db>, from: int, m: IngestMessage, a: Account)
    requires Decided(cached, h, from, m, a) && OnePerKey(RowsRead(h, a.asked, m.user))
    ensures var rows := RowsRead(h, a.asked, m.user);
            a.deliver <==>
              && rows.globalEnabled
              && !Mutes(rows, a.used.service, a.used.id, a.at)
              && !Refuses(rows, a.used.service, if a.level.Some? then Some(a.level.value.severity) else None)
              && (forall p :: p in rows.typePrefs && p.ty == a.used.id ==> p.enabled)
    ensures var config := Resolve(RowsRead(h, a.asked, m.user), InfoOf(a.used), SeverityOf(a.level), a.at);
            config.ttl == a.used.conf.ttl && config.interval == a.used.conf.interval && config.max == a.used.conf.max
  {
    DeliveryIsConjunction(RowsRead(h, a.asked, m.user), InfoOf(a.used), SeverityOf(a.level), a.at);
  }

  /** The one change to the database: the cluster's insert, with some version of the type, of a row
      whose id and idempotency key were free. */
  ghost predicate IsInsertOf(d: Db, e: Db, m: IngestMessage, c: CachedType, level: Option<LevelId>, a: Cluster.Action) {
    && m.id !in d.table && KeyFree(d, m.idempotencyKey)
    && a.Insert? && a.id == m.id && a.user == m.user && a.ty == c.id
    && Cluster.Enabled(ClusterOf(d), a) && d.types[a.ty].versions[a.version] == c.conf
    && e == d.(table := Cluster.Do(ClusterOf(d), a).table,
               levelOf := d.levelOf[m.id := level],
               keyOf := d.keyOf[m.id := m.idempotencyKey])
  }

  /** The row went in as accounted for, and nothing else changed. */
  ghost predicate Recorded(h: seq<Db>, m: IngestMessage, a: Account, insert: Cluster.Action) {
    && a.before + 2 == |h| && IsInsertOf(h[a.before], h[a.before + 1], m, a.used, IdOf(a.stored), insert)
    && a.at <= insert.ttlFrom && a.at <= insert.escFrom && insert.deliver == a.deliver
  }

  /** The row that went in, column by column: its state by the decision, its deadlines by the version of
      the type that was used, its level by the lookup for it. */
  lemma RecordedRow(h: seq<Db>, m: IngestMessage, a: Account, insert: Cluster.Action)
    requires Recorded(h, m, a, insert)
    ensures var e := h[|h| - 1];
            && m.id in e.table && m.id in e.levelOf && m.id in e.keyOf
            && e.levelOf[m.id] == (if a.stored.Some? then Some(a.stored.value.id) else None)
            && e.keyOf[m.id] == m.idempotencyKey
            && var row, conf := e.table[m.id], a.used.conf;
               && row.user == m.user && row.ty == a.used.id
               && (row.state.Unseen? <==> a.deliver) && (row.state.Archived? <==> !a.deliver)
               && (row.expiresAt.Some? <==> conf.ttl.Some?)
               && (row.expiresAt.Some? ==> a.at + conf.ttl.value <= row.expiresAt.value <= e.now + conf.ttl.value)
               && (row.nextEscalationAt.Some? <==> conf.interval.Some? && conf.max > 0)
               && (row.nextEscalationAt.Some? ==>
                     a.at + conf.interval.value <= row.nextEscalationAt.value <= e.now + conf.interval.value)
  {
    Cluster.InsertMakesRow(ClusterOf(h[a.before]), insert);
    assert h[|h| - 1] == h[a.before + 1];
  }

  lemma AnsweredStays(cached: AppCaches, h: seq<Db>, more: seq<Db>, from: int, m: IngestMessage, c: CachedType,
                      level: Option<Level>, stored: Option<Level>)
    requires h <= more && Answered(cached, h, from, m, c, level, stored)
    ensures Answered(cached, more, from, m, c, level, stored)
  {
    TypeAnswerStays(cached, h, more, from, m, Some(c));
    LevelAnswerStays(cached, h, more, from, m, level);
    LevelAnswerStays(cached, h, more, from, m, stored);
  }

  lemma DecidedStays(cached: AppCaches, h: seq<Db>, more: seq<Db>, from: int, m: IngestMessage, a: Account)
    requires h <= more && Decided(cached, h, from, m, a)
    ensures Decided(cached, more, from, m, a)
  {
    assert Loaded(more, a.asked, m.user) == Loaded(h, a.asked, m.user);
    assert RowsRead(more, a.asked, m.user) == RowsRead(h, a.asked, m.user);
  }

  /** Fewer cached preferences and later reads come from more and earlier ones. */
  lemma DecidedEarlier(cached: AppCaches, later: AppCaches, h: seq<Db>, from: int, after: int, m: IngestMessage,
                       a: Account)
    requires Decided(later, h, after, m, a) && PrefsThinned(cached, later) && from <= after
    ensures Decided(cached, h, from, m, a)
  {
    assert m.user in later.prefs ==> later.prefs[m.user] == cached.prefs[m.user];
  }

  /** The insert completes the account. */
  lemma AccountCompleted(cached: AppCaches, h: seq<Db>, d: Db, e: Db, from: nat, m: IngestMessage, a: Account,
                         insert: Cluster.Action)
    requires IsHistory(h, d) && LookedUp(cached, h, from, m, a) && a.before == |h| - 1
    requires IsInsertOf(d, e, m, a.used, IdOf(a.stored), insert)
    requires a.at <= insert.ttlFrom && a.at <= insert.escFrom && insert.deliver == a.deliver
    ensures LookedUp(cached, h + [e], from, m, a) && Recorded(h + [e], m, a, insert)
  {
    var more := h + [e];
    AnsweredStays(cached, h, more, from, m, a.used, a.level, a.stored);
    DecidedStays(cached, h, more, from, m, a);
    PresentAt(h, d, more);
    assert more[a.before + 1] == e;
  }

  /** A new version of the type the pair names, and nothing else. */
  ghost predicate AddsVersion(d: Db, e: Db, slug: string, key: string, req: Cluster.TypeRequest, ty: TypeId,
                              written: nat) {
    && slug in d.services && NamesType(d, slug, key, ty, d.services[slug])
    && ty in d.types && written == |d.types[ty].versions|
    && e == d.(types := d.types[ty := d.types[ty].(versions := d.types[ty].versions + [Cluster.Stored(req)])])
  }

  /** A new version is the one asked for, and what a lookup of the type then finds. */
  lemma AddedIsFound(d: Db, e: Db, slug: string, key: string, req: Cluster.TypeRequest, ty: TypeId, written: nat)
    requires AddsVersion(d, e, slug, key, req, ty, written)
    ensures var c := TypeIn(e, slug, key);
            c.Some? && c.value.id == ty && c.value.service == d.services[slug] && Requests.Keeps(c.value.conf, req)
    ensures e.types[ty].versions[written] == TypeIn(e, slug, key).value.conf
  {
  }

  /** The type is there, in that version, and of that service. */
  ghost predicate Usable(d: Db, c: CachedType) {
    c.id in d.types && d.types[c.id].service == c.service && c.conf in d.types[c.id].versions
  }

  /** Whatever a lookup answered, from an entry however old or from the database, fits ever after. */
  lemma TypeAnswerFits(cached: AppCaches, before: seq<Db>, h: seq<Db>, from: nat, d: Db, slug: string, key: string,
                       c: CachedType)
    requires CachedFrom(before, cached) && before <= h && IsHistory(h, d) && TypesOk(d)
    requires TypeAnswer(cached, h, from, slug, key, Some(c))
    ensures TypeFits(d, slug, key, c) && Usable(d, c)
  {
    var k := CacheKey(slug, key);
    if k in cached.types {
      assert TypeOnce(before, k, c);
      TypeOnceStays(before, h, k, c);
    } else {
      var j :| 0 <= j < |h| && TypeIn(h[j], slug, key) == Some(c);
      assert TypeRead(h, 0, slug, key, Some(c));
    }
    OldTypeFits(h, d, slug, key, c);
    var slug', key' :| CacheKey(slug', key') == k && NamesType(d, slug', key', c.id, c.service);
    assert (c.service, key') in d.typeIds;
  }

  lemma LevelAnswerFits(cached: AppCaches, before: seq<Db>, h: seq<Db>, from: nat, d: Db, slug: string, key: string,
                        l: Level)
    requires CachedFrom(before, cached) && before <= h && IsHistory(h, d)
    requires LevelAnswer(cached, h, from, slug, key, Some(l))
    ensures LevelFits(d, slug, key, Some(l.id))
  {
    var k := CacheKey(slug, key);
    if k in cached.levels && l == cached.levels[k] {
      assert LevelOnce(before, k, l);
      LevelOnceStays(before, h, k, l);
    } else {
      var j :| 0 <= j < |h| && slug in h[j].services && LevelIn(h[j], slug, key) == Some(l);
      assert LevelRead(h, 0, slug, key, Some(l));
    }
    OldLevelFits(h, d, slug, key, l);
  }

  /** The row that went in names a registered service and type; among colon-free slugs they are the
      message's, and its level is one of that service's. */
  ghost predicate WellReferenced(d: Db, m: IngestMessage) {
    && PairRegistered(d, m.id)
    && (ColonFree(m.slug) && SlugsColonFree(d) ==>
          LevelRegistered(d, m.id) && NamesType(d, m.slug, m.typeKey, d.table[m.id].ty, d.table[m.id].service))
  }

  lemma InsertedIsReferenced(d: Db, e: Db, m: IngestMessage, c: CachedType, level: Option<LevelId>, a: Cluster.Action)
    requires TypesOk(d) && TypeFits(d, m.slug, m.typeKey, c) && LevelFits(d, m.slug, m.level, level) && Usable(d, c)
    requires IsInsertOf(d, e, m, c, level, a)
    ensures WellReferenced(e, m)
  {
    var slug', key' :| CacheKey(slug', key') == CacheKey(m.slug, m.typeKey)
      && NamesType(d, slug', key', c.id, c.service);
    assert (c.service, key') in e.typeIds && e.typeIds[(c.service, key')] == c.id;
    assert e.table[m.id].service == c.service;
    if ColonFree(m.slug) && SlugsColonFree(e) && level.Some? {
      assert (c.service, m.level) in e.levels && e.levels[(c.service, m.level)].id == level.value;
    }
  }

  /** What an account goes by can be inserted, and what is inserted is well referenced, however stale
      the caches were. */
  lemma LookedUpIsUsable(cached: AppCaches, start: seq<Db>, h: seq<Db>, d: Db, m: IngestMessage, a: Account)
    requires CachedFrom(start, cached) && start != [] && start <= h && IsHistory(h, d) && TypesOk(d)
    requires LookedUp(cached, h, |start| - 1, m, a)
    ensures Usable(d, a.used)
  {
    TypeAnswerFits(cached, start, h, |start| - 1, d, m.slug, m.typeKey, a.used);
  }

  lemma InsertedIsWellReferenced(cached: AppCaches, start: seq<Db>, h: seq<Db>, d: Db, e: Db, m: IngestMessage,
                                 a: Account, insert: Cluster.Action)
    requires CachedFrom(start, cached) && start != [] && start <= h && IsHistory(h, d) && TypesOk(d)
    requires LookedUp(cached, h, |start| - 1, m, a) && IsInsertOf(d, e, m, a.used, IdOf(a.stored), insert)
    ensures WellReferenced(e, m)
  {
    TypeAnswerFits(cached, start, h, |start| - 1, d, m.slug, m.typeKey, a.used);
    if a.stored.Some? {
      LevelAnswerFits(cached, start, h, |start| - 1, d, m.slug, m.level, a.stored.value);
    }
    InsertedIsReferenced(d, e, m, a.used, IdOf(a.stored), insert);
  }

  lemma InsertCompletes(cached: AppCaches, start: seq<Db>, h: seq<Db>, d: Db, e: Db, m: IngestMessage, a: Account,
                        insert: Cluster.Action)
    requires CachedFrom(start, cached) && start != [] && start <= h && IsHistory(h, d) && TypesOk(d)
    requires LookedUp(cached, h, |start| - 1, m, a) && a.before == |h| - 1
    requires IsInsertOf(d, e, m, a.used, IdOf(a.stored), insert)
    requires a.at <= insert.ttlFrom && a.at <= insert.escFrom && insert.deliver == a.deliver
    ensures LookedUp(cached, h + [e], |start| - 1, m, a) && Recorded(h + [e], m, a, insert) && WellReferenced(e, m)
  {
    InsertedIsWellReferenced(cached, start, h, d, e, m, a, insert);
    AccountCompleted(cached, h, d, e, |start| - 1, m, a, insert);
  }

  // ---------- many messages ----------

  /** The messages announced among those handled so far. */
  function AnnouncedIds(messages: seq<IngestMessage>, outcomes: seq<Outcome>): seq<Id>
    requires |outcomes| <= |messages|
  {
    if outcomes == [] then []
    else
      var last := |outcomes| - 1;
      AnnouncedIds(messages, outcomes[..last]) + if Announces(outcomes[last]) then [messages[last].id] else []
  }

  lemma PairStays(d: Db, e: Db, id: Id)
    requires Evolves(d, e) && PairRegistered(d, id)
    ensures PairRegistered(e, id)
  {
    var key :| (d.table[id].service, key) in d.typeIds && d.typeIds[(d.table[id].service, key)] == d.table[id].ty;
    assert (e.table[id].service, key) in e.typeIds;
  }

  lemma WellReferencedStays(d: Db, e: Db, m: IngestMessage)
    requires Evolves(d, e) && WellReferenced(d, m)
    ensures WellReferenced(e, m)
  {
    PairStays(d, e, m.id);
    if ColonFree(m.slug) && SlugsColonFree(e) {
      assert SlugsColonFree(d);
      if d.levelOf[m.id].Some? {
        var key :| (d.table[m.id].service, key) in d.levels
                   && d.levels[(d.table[m.id].service, key)].id == d.levelOf[m.id].value;
        assert (e.table[m.id].service, key) in e.levels;
      }
    }
  }

  /** Every message acknowledged, and every one that failed after its insert, has its row, and the
      row's references are what they should be. */
  ghost predicate HandledHaveRows(d: Db, messages: seq<IngestMessage>, outcomes: seq<Outcome>)
    requires |outcomes| <= |messages|
  {
    forall k :: 0 <= k < |outcomes| ==> InsertsRow(outcomes[k]) ==> WellReferenced(d, messages[k])
  }

  lemma OneMoreHandled(d: Db, e: Db, messages: seq<IngestMessage>, outcomes: seq<Outcome>, r: Outcome)
    requires |outcomes| < |messages| && HandledHaveRows(d, messages, outcomes) && Evolves(d, e)
    requires InsertsRow(r) ==> WellReferenced(e, messages[|outcomes|])
    ensures HandledHaveRows(e, messages, outcomes + [r])
    ensures AnnouncedIds(messages, outcomes + [r])
            == AnnouncedIds(messages, outcomes) + if Announces(r) then [messages[|outcomes|].id] else []
  {
    forall k | 0 <= k < |outcomes| && InsertsRow(outcomes[k]) ensures WellReferenced(e, messages[k]) {
      WellReferencedStays(d, e, messages[k]);
    }
    assert (outcomes + [r])[..|outcomes|] == outcomes;
  }

  /** How one message was handled: the history and the caches before, the history after, and what was
      gone by. */
  datatype Record = Record(
    start: seq<Db>, first: Db, cached: AppCaches, end: seq<Db>, last: Db, account: Account, insert: Cluster.Action)

  /** The outcome is the one these answers and faults lead to. */
  ghost predicate Explained(x: Record, m: IngestMessage, f: Faults, r: Outcome) {
    && x.start != []
    && (r == Failed(UnknownType) ==> TypeAnswer(x.cached, x.end, |x.start| - 1, m.slug, m.typeKey, None))
    && (r == Failed(UnknownService) ==> m.level != "" && m.slug !in x.first.services)
    && (r == Failed(Refused) ==> m.id in x.last.table || !KeyFree(x.last, m.idempotencyKey))
    && (Committed(r) ==> LookedUp(x.cached, x.end, |x.start| - 1, m, x.account))
    && (InsertsRow(r) ==> Recorded(x.end, m, x.account, x.insert) && r == Fate(x.account.deliver, f))
  }

  lemma UnknownExplained(x: Record, m: IngestMessage, f: Faults, r: Outcome)
    requires x.start != [] && r.Failed?
    requires match r.why
             case UnknownType => TypeAnswer(x.cached, x.end, |x.start| - 1, m.slug, m.typeKey, None)
             case UnknownService => m.level != "" && m.slug !in x.first.services
             case _ => false
    ensures Explained(x, m, f, r) && !InsertsRow(r) && !Announces(r)
  {
  }

  lemma CommittedExplained(start: seq<Db>, first: Db, cached: AppCaches, end: seq<Db>, last: Db, a: Account,
                           insert: Cluster.Action, m: IngestMessage, f: Faults, r: Outcome)
    requires start != [] && Committed(r)
    requires !InsertsRow(r) ==> m.id in last.table || !KeyFree(last, m.idempotencyKey)
    requires LookedUp(cached, end, |start| - 1, m, a)
    requires InsertsRow(r) ==> Recorded(end, m, a, insert) && r == Fate(a.deliver, f)
    ensures Explained(Record(start, first, cached, end, last, a, insert), m, f, r)
  {
  }

  /** And the record is one of the history. */
  ghost predicate RecordOk(h: seq<Db>, x: Record, m: IngestMessage, f: Faults, r: Outcome) {
    && IsHistory(x.start, x.first) && CachedFrom(x.start, x.cached) && x.start <= x.end && IsHistory(x.end, x.last)
    && x.end <= h && Explained(x, m, f, r)
  }

  lemma RecordStays(h: seq<Db>, more: seq<Db>, x: Record, m: IngestMessage, f: Faults, r: Outcome)
    requires h <= more && RecordOk(h, x, m, f, r)
    ensures RecordOk(more, x, m, f, r)
  {
    Longer(x.end, h, more);
  }

  /** The k-th message's record is one of the history, and starts where the one before ended or later. */
  ghost predicate RecordAt(h: seq<Db>, messages: seq<IngestMessage>, faults: seq<Faults>, outcomes: seq<Outcome>,
                           log: seq<Record>, k: int)
    requires |log| == |outcomes| <= |messages| == |faults|
  {
    0 <= k < |log| && RecordOk(h, log[k], messages[k], faults[k], outcomes[k])
    && (k > 0 ==> log[k - 1].end <= log[k].start)
  }

  ghost predicate LogOk(h: seq<Db>, messages: seq<IngestMessage>, faults: seq<Faults>, outcomes: seq<Outcome>,
                        log: seq<Record>)
    requires |log| == |outcomes| <= |messages| == |faults|
  {
    forall k {:trigger RecordAt(h, messages, faults, outcomes, log, k)} ::
      0 <= k < |log| ==> RecordAt(h, messages, faults, outcomes, log, k)
  }

  lemma RecordAtStays(h: seq<Db>, more: seq<Db>, messages: seq<IngestMessage>, faults: seq<Faults>,
                      outcomes: seq<Outcome>, log: seq<Record>, r: Outcome, x: Record, k: nat)
    requires |log| == |outcomes| < |messages| == |faults| && h <= more && k < |log|
    requires RecordAt(h, messages, faults, outcomes, log, k)
    ensures RecordAt(more, messages, faults, outcomes + [r], log + [x], k)
  {
    RecordStays(h, more, log[k], messages[k], faults[k], outcomes[k]);
  }

  lemma OneMoreLogged(h: seq<Db>, more: seq<Db>, messages: seq<IngestMessage>, faults: seq<Faults>,
                      outcomes: seq<Outcome>, log: seq<Record>, r: Outcome, x: Record)
    requires |log| == |outcomes| < |messages| == |faults| && LogOk(h, messages, faults, outcomes, log) && h <= more
    requires RecordOk(more, x, messages[|outcomes|], faults[|outcomes|], r) && x.start == h
    ensures LogOk(more, messages, faults, outcomes + [r], log + [x])
  {
    forall k | 0 <= k < |log + [x]| ensures RecordAt(more, messages, faults, outcomes + [r], log + [x], k) {
      if k < |log| {
        assert RecordAt(h, messages, faults, outcomes, log, k);
        RecordAtStays(h, more, messages, faults, outcomes, log, r, x, k);
      } else if k > 0 {
        assert RecordAt(h, messages, faults, outcomes, log, k - 1);
      }
    }
  }

  /** Where `run` has got to: the records, the rows and the events published. */
  ghost predicate AllHandled(h: seq<Db>, d: Db, messages: seq<IngestMessage>, faults: seq<Faults>,
                             outcomes: seq<Outcome>, log: seq<Record>, published: seq<Id>)
  {
    && |log| == |outcomes| <= |messages| == |faults| && LogOk(h, messages, faults, outcomes, log)
    && HandledHaveRows(d, messages, outcomes) && published == AnnouncedIds(messages, outcomes)
  }

  lemma OneMore(h: seq<Db>, d: Db, more: seq<Db>, e: Db, messages: seq<IngestMessage>, faults: seq<Faults>,
                outcomes: seq<Outcome>, log: seq<Record>, published: seq<Id>, r: Outcome, x: Record)
    requires IsHistory(h, d) && IsHistory(more, e) && h <= more
    requires AllHandled(h, d, messages, faults, outcomes, log, published) && |outcomes| < |messages|
    requires RecordOk(more, x, messages[|outcomes|], faults[|outcomes|], r) && x.start == h
    requires InsertsRow(r) ==> WellReferenced(e, messages[|outcomes|])
    ensures AllHandled(more, e, messages, faults, outcomes + [r], log + [x],
                       published + if Announces(r) then [messages[|outcomes|].id] else [])
  {
    EvolvesOn(h, d, more, e);
    OneMoreHandled(d, e, messages, outcomes, r);
    OneMoreLogged(h, more, messages, faults, outcomes, log, r, x);
  }

  class Processor {
    var db: Db
    var caches: AppCaches
    var events: seq<Id>  // NewNotification events, by notification
    ghost var history: seq<Db>

    ghost predicate Valid()
      reads this
    {
      TypesOk(db) && IsHistory(history, db) && CachedFrom(history, caches)
    }

    /** Others change the database, and entries leave the caches. */
    method Others()
      requires Valid()
      modifies this`db, this`caches, this`history
      ensures Valid() && history == old(history) + [db] && Thinned(old(caches), caches) && events == old(events)
    {
      assert Evolves(db, db) && Thinned(caches, caches);
      var db' :| Evolves(db, db') && TypesOk(db');
      var caches' :| Thinned(caches, caches');
      HistoryGrows(history, db, db');
      CachedStays(history, history + [db'], caches, caches');
      db, caches, history := db', caches', history + [db'];
    }

    /** get_or_load_notif_type: the cached type if there is one, else the registered one, which is
        then cached. */
    method GetOrLoadType(slug: string, key: string) returns (c: Option<CachedType>)
      requires Valid()
      modifies this`db, this`caches, this`history
      ensures Valid() && old(history) <= history
      ensures TypeAnswer(old(caches), history, |old(history)| - 1, slug, key, c)
      ensures TypeIn(old(db), slug, key).Some? ==> c.Some?
      ensures CacheKey(slug, key) !in old(caches).types && slug !in old(db).services ==> c.None?
      ensures c.Some? ==> CacheKey(slug, key) in caches.types && caches.types[CacheKey(slug, key)] == c.value
      ensures c.Some? ==> TypeFits(db, slug, key, c.value)
      ensures LevelsThinned(old(caches), caches) && PrefsThinned(old(caches), caches)
    {
      var k := CacheKey(slug, key);
      if k in caches.types {
        c := Some(caches.types[k]);
      } else {
        c := LoadType(slug, key);
        if c.Some? {
          assert TypeOnce(history, k, c.value);
          CacheType(k, c.value);
        }
      }
      if c.Some? {
        assert TypeOnce(history, k, c.value);
        OldTypeFits(history, db, slug, key, c.value);
      }
    }

    /** Puts a loaded entry into a cache. */
    method CacheType(k: string, x: CachedType)
      requires Valid() && TypeOnce(history, k, x)
      modifies this`caches
      ensures Valid() && caches == old(caches).(types := old(caches).types[k := x])
    {
      caches := caches.(types := caches.types[k := x]);
    }

    method CacheLevel(k: string, x: Level)
      requires Valid() && LevelOnce(history, k, x)
      modifies this`caches
      ensures Valid() && caches == old(caches).(levels := old(caches).levels[k := x])
    {
      caches := caches.(levels := caches.levels[k := x]);
    }

    method CachePrefs(user: string, x: UserPrefs)
      requires Valid() && PrefsOnce(history, user, x)
      modifies this`caches
      ensures Valid() && caches == old(caches).(prefs := old(caches).prefs[user := x]) && events == old(events)
    {
      caches := caches.(prefs := caches.prefs[user := x]);
    }

    /** The two queries of a type load. */
    method LoadType(slug: string, key: string) returns (c: Option<CachedType>)
      requires Valid()
      modifies this`db, this`caches, this`history
      ensures Valid() && old(history) <= history && Thinned(old(caches), caches)
      ensures TypeRead(history, |old(history)| - 1, slug, key, c)
      ensures c.Some? ==> TypeRead(history, 0, slug, key, c)
      ensures TypeIn(old(db), slug, key).Some? ==> c.Some?
      ensures slug !in old(db).services ==> c.None?
    {
      if slug !in db.services {
        assert TypeIn(history[|history| - 1], slug, key) == None;
        return None;
      }
      var service := db.services[slug];
      Others();
      ghost var j := |history| - 1;
      Later(history, db, j - 1, j);
      if (service, key) !in db.typeIds {
        assert TypeIn(history[j], slug, key) == None;
        return None;
      }
      var id := db.typeIds[(service, key)];
      var versions := db.types[id].versions;
      c := Some(CachedType(id, service, versions[|versions| - 1]));
      assert TypeIn(history[j], slug, key) == c;
      Others();
      assert TypeIn(history[j], slug, key) == c;
    }

    /** get_or_load_level: the cached level if there is one; else an unknown service is an error, an
        unknown level is not, and a known one is cached. */
    method GetOrLoadLevel(slug: string, key: string) returns (ok: bool, l: Option<Level>)
      requires Valid()
      modifies this`db, this`caches, this`history
      ensures Valid() && old(history) <= history
      ensures ok <==> CacheKey(slug, key) in old(caches).levels || slug in old(db).services
      ensures CacheKey(slug, key) in old(caches).levels ==> l == Some(old(caches).levels[CacheKey(slug, key)])
      ensures ok ==> LevelAnswer(old(caches), history, |old(history)| - 1, slug, key, l)
      ensures ok && l.Some? ==> CacheKey(slug, key) in caches.levels && caches.levels[CacheKey(slug, key)] == l.value
      ensures CacheKey(slug, key) in caches.levels ==> ok && l == Some(caches.levels[CacheKey(slug, key)])
      ensures ok && l.Some? ==> LevelFits(db, slug, key, Some(l.value.id))
      ensures PrefsThinned(old(caches), caches)
    {
      var k := CacheKey(slug, key);
      if k in caches.levels {
        ok, l := true, Some(caches.levels[k]);
      } else {
        ok, l := LoadLevel(slug, key);
        if ok && l.Some? {
          assert LevelOnce(history, k, l.value);
          CacheLevel(k, l.value);
        }
      }
      if ok && l.Some? {
        assert LevelOnce(history, k, l.value);
        OldLevelFits(history, db, slug, key, l.value);
      }
    }

    /** The two queries of a level load. */
    method LoadLevel(slug: string, key: string) returns (ok: bool, l: Option<Level>)
      requires Valid()
      modifies this`db, this`caches, this`history
      ensures Valid() && old(history) <= history && Thinned(old(caches), caches)
      ensures ok <==> slug in old(db).services
      ensures ok ==> LevelRead(history, |old(history)| - 1, slug, key, l) && LevelRead(history, 0, slug, key, l)
    {
      if slug !in db.services {
        return false, None;
      }
      var service := db.services[slug];
      Others();
      ghost var j := |history| - 1;
      Later(history, db, j - 1, j);
      ok, l := true, if (service, key) in db.levels then Some(db.levels[(service, key)]) else None;
      assert LevelIn(history[j], slug, key) == l;
      Others();
      assert LevelIn(history[j], slug, key) == l;
    }

    /** get_or_load_user_prefs: the cached value if there is one, else what four queries in a row
        return while others change the rows, which is then cached. */
    method GetOrLoadPrefs(user: string) returns (p: UserPrefs, ghost asked: Reads)
      requires Valid()
      modifies this`db, this`caches, this`history
      ensures Valid() && old(history) <= history && events == old(events)
      ensures InOrder(asked, 0, |history|) && p == Loaded(history, asked, user)
      ensures if user in old(caches).prefs then p == old(caches).prefs[user] else asked.global == |old(history)| - 1
      ensures user in caches.prefs && caches.prefs[user] == p
    {
      if user in caches.prefs {
        p := caches.prefs[user];
        assert PrefsOnce(history, user, p);
        asked :| InOrder(asked, 0, |history|) && Loaded(history, asked, user) == p;
        return;
      }
      p, asked := LoadPrefs(user);
      assert PrefsOnce(history, user, p);
      CachePrefs(user, p);
    }

    /** The four queries of a preference load. */
    method LoadPrefs(user: string) returns (p: UserPrefs, ghost asked: Reads)
      requires Valid()
      modifies this`db, this`caches, this`history
      ensures Valid() && old(history) <= history && Thinned(old(caches), caches) && events == old(events)
      ensures InOrder(asked, 0, |history|) && p == Loaded(history, asked, user) && asked.global == |old(history)| - 1
    {
      ghost var first := |history| - 1;
      var enabled := UserRows(db, user).globalEnabled;
      Others();
      var services := UserRows(db, user).servicePrefs;
      Others();
      var types := UserRows(db, user).typePrefs;
      Others();
      var rules := ActiveRules(UserRows(db, user).muteRules, db.now);
      p, asked := UserPrefs(enabled, services, types, rules), Reads(first, first + 1, first + 2, first + 3);
      assert p == Loaded(history, asked, user);
      Others();
      assert p == Loaded(history, asked, user);
    }

    /** insert_notification: fails on a used id or idempotency key. */
    method Insert(m: IngestMessage, c: CachedType, level: Option<LevelId>, ghost a: Cluster.Action,
                  deliver: bool, ttlFrom: Time, escFrom: Time)
      returns (ok: bool)
      requires Valid() && Usable(db, c)
      requires a.Insert? && a == Cluster.Insert(m.id, m.user, c.id, a.version, deliver, ttlFrom, escFrom)
      requires a.version < |db.types[c.id].versions| && db.types[c.id].versions[a.version] == c.conf
      requires ttlFrom <= db.now && escFrom <= db.now
      modifies this`db, this`history
      ensures ok <==> m.id !in old(db).table && KeyFree(old(db), m.idempotencyKey)
      ensures !ok ==> db == old(db) && history == old(history)
      ensures ok ==> history == old(history) + [db] && IsInsertOf(old(db), db, m, c, level, a)
      ensures Valid()
    {
      ok := m.id !in db.table && KeyFree(db, m.idempotencyKey);
      if ok {
        ghost var before := db;
        var row := Cluster.InsertedRow(c.conf, c.service, m.user, c.id, deliver, ttlFrom, escFrom, db.now);
        db := db.(table := db.table[m.id := row],
                  levelOf := db.levelOf[m.id := level],
                  keyOf := db.keyOf[m.id := m.idempotencyKey]);
        HistoryGrows(history, before, db);
        CachedStays(history, history + [db], caches, caches);
        history := history + [db];
      }
    }

    /** The level of a message, looked up for its severity and again for its id. */
    method LookupLevel(m: IngestMessage) returns (ok: bool, level: Option<Level>, stored: Option<Level>)
      requires Valid()
      modifies this`db, this`caches, this`history
      ensures Valid() && old(history) <= history
      ensures ok ==>
                && LevelAnswered(old(caches), history, |old(history)| - 1, m, level)
                && LevelAnswered(old(caches), history, |old(history)| - 1, m, stored)
      ensures !ok ==> m.level != "" && m.slug !in old(db).services
      ensures PrefsThinned(old(caches), caches)
    {
      ok, level, stored := true, None, None;
      if m.level == "" {
        return;
      }
      ok, level := GetOrLoadLevel(m.slug, m.level);
      if !ok {
        return;
      }
      ghost var start, first, n := old(history), history, |old(history)|;
      Others();
      ghost var second, between := history, caches;
      Longer(start, first, second);
      MovesOn(start, old(db), second, db, m.slug);
      ok, stored := GetOrLoadLevel(m.slug, m.level);
      Longer(first, second, history);
      Longer(start, first, history);
      LevelAnswerStays(old(caches), first, history, n - 1, m, level);
      PrefsThinnedOn(old(caches), between, caches);
      if ok {
        AnswerAgain(old(caches), between, first, history, n - 1, |first|, m, stored);
      }
    }

    /** The clock, some time later. */
    method Clock() returns (t: Time)
      requires Valid()
      modifies this`db, this`caches, this`history
      ensures Valid() && history == old(history) + [db] && t == db.now && old(db).now <= t && events == old(events)
    {
      Others();
      MovesOn(old(history), old(db), history, db, "");
      t := db.now;
    }

    /** Whether to deliver: the preferences, resolved at some instant. */
    method Decide(m: IngestMessage, c: CachedType, level: Option<Level>, stored: Option<Level>)
      returns (deliver: bool, ghost a: Account)
      requires Valid()
      modifies this`db, this`caches, this`history
      ensures Valid() && old(history) <= history && old(db).now <= a.at == db.now && events == old(events)
      ensures Decided(old(caches), history, |old(history)| - 1, m, a) && a.deliver == deliver
      ensures a.used == c && a.level == level && a.stored == stored
    {
      var prefs;
      ghost var asked;
      prefs, asked := GetOrLoadPrefs(m.user);
      MovesOn(old(history), old(db), history, db, "");
      ClockRuns(history, db, asked.rules);
      var at := Clock();
      DecisionOnAllRows(history, asked, m.user, InfoOf(c), SeverityOf(level), at);
      deliver := Resolve(prefs, InfoOf(c), SeverityOf(level), at).deliver;
      a := Account(c, level, stored, asked, at, deliver, 0);
    }

    /** The decision, and the two readings of the clock the deadlines count from. */
    method Settle(m: IngestMessage, c: CachedType, level: Option<Level>, stored: Option<Level>)
      returns (deliver: bool, ttlFrom: Time, escFrom: Time, ghost a: Account)
      requires Valid()
      modifies this`db, this`caches, this`history
      ensures Valid() && old(history) <= history && old(db).now <= a.at <= ttlFrom <= escFrom <= db.now
              && events == old(events)
      ensures Decided(old(caches), history, |old(history)| - 1, m, a) && a.deliver == deliver
      ensures a.used == c && a.level == level && a.stored == stored && a.before == |history| - 1
    {
      ghost var start := history;
      deliver, a := Decide(m, c, level, stored);
      ghost var decided := history;
      ttlFrom := Clock();
      escFrom := Clock();
      assert decided <= history;
      Longer(start, decided, history);
      DecidedStays(old(caches), decided, history, |start| - 1, m, a);
      a := a.(before := |history| - 1);
    }

    /** The insert and the event, with everything looked up. */
    method Commit(m: IngestMessage, c: CachedType, level: Option<LevelId>, deliver: bool, ttlFrom: Time, escFrom: Time,
                  f: Faults)
      returns (r: Outcome, ghost a: Cluster.Action)
      requires Valid() && Usable(db, c) && ttlFrom <= db.now && escFrom <= db.now
      modifies this`db, this`history, this`events
      ensures Valid() && Committed(r)
      ensures InsertsRow(r) <==> m.id !in old(db).table && KeyFree(old(db), m.idempotencyKey)
      ensures !InsertsRow(r) ==> db == old(db) && history == old(history)
      ensures InsertsRow(r) ==>
                && history == old(history) + [db] && IsInsertOf(old(db), db, m, c, level, a)
                && a.deliver == deliver && a.ttlFrom == ttlFrom && a.escFrom == escFrom
                && r == Fate(deliver, f)
      ensures events == old(events) + if Announces(r) then [m.id] else []
    {
      ghost var version: nat :| version < |db.types[c.id].versions| && db.types[c.id].versions[version] == c.conf;
      a := Cluster.Insert(m.id, m.user, c.id, version, deliver, ttlFrom, escFrom);
      var inserted := Insert(m, c, level, a, deliver, ttlFrom, escFrom);
      if !inserted {
        return Failed(Refused), a;
      }
      r := Announce(m.id, deliver, f);
    }

    /** What follows an insert: its reply, and publish_realtime, which reports an event it cannot encode
        but not a publish that fails. */
    method Announce(id: Id, deliver: bool, f: Faults) returns (r: Outcome)
      modifies this`events
      ensures InsertsRow(r) && r == Fate(deliver, f)
      ensures r.Delivered? <==> deliver && !f.replyLost && !f.unencodable && !f.publishFails
      ensures r.Unannounced? <==> deliver && !f.replyLost && !f.unencodable && f.publishFails
      ensures r.AutoArchived? <==> !deliver && !f.replyLost
      ensures r.Failed? <==> f.replyLost || (deliver && f.unencodable)
      ensures events == old(events) + if Announces(r) then [id] else []
    {
      if f.replyLost {
        return Failed(ReplyLost);
      }
      if !deliver {
        return AutoArchived;
      }
      if f.unencodable {
        return Failed(Unencodable);
      }
      if f.publishFails {
        return Unannounced;
      }
      events := events + [id];
      r := Delivered;
    }

    /** process_message, with a truthful account of what it went by. It fails on a type or a service
        that is unknown, or on an id or idempotency key that is taken; otherwise it makes exactly one
        insert, of a row delivered as the user's rows decide, and one event if and only if the row
        went in unseen and nothing went wrong; a publish that fails is no failure. The row's service
        and type are a registered pair, however stale the caches, and among colon-free slugs they are
        the message's, and so is the level's service. */
    method ProcessMessage(m: IngestMessage, f: Faults) returns (r: Outcome, ghost x: Record)
      requires Valid()
      modifies this
      ensures Valid() && old(history) <= history
      ensures x.start == old(history) && x.first == old(db) && x.cached == old(caches) && x.end == history
              && x.last == db
      ensures Explained(x, m, f, r)
      ensures InsertsRow(r) ==> WellReferenced(db, m)
      ensures events == old(events) + if Announces(r) then [m.id] else []
    {
      ghost var start, first, cached := history, db, caches;
      ghost var a, insert := *, *;
      var used, ok, level, stored := LookupAll(m);
      if used.None? {
        r, x := Failed(UnknownType), Record(start, first, cached, history, db, a, insert);
        UnknownExplained(x, m, f, r);
        return;
      }
      if !ok {
        r, x := Failed(UnknownService), Record(start, first, cached, history, db, a, insert);
        UnknownExplained(x, m, f, r);
        return;
      }
      MovesOn(start, first, history, db, m.slug);
      r, x := Finish(m, f, used.value, level, stored, start, first, cached, old(events));
    }

    /** What process_message does after its lookups. */
    method Finish(m: IngestMessage, f: Faults, c: CachedType, level: Option<Level>, stored: Option<Level>,
                  ghost start: seq<Db>, ghost first: Db, ghost cached: AppCaches, ghost published: seq<Id>)
      returns (r: Outcome, ghost x: Record)
      requires Valid() && IsHistory(start, first) && start <= history && first.now <= db.now
      requires CachedFrom(start, cached) && PrefsThinned(cached, caches) && events == published
      requires Answered(cached, history, |start| - 1, m, c, level, stored)
      modifies this
      ensures Valid() && start <= history
      ensures x.start == start && x.first == first && x.cached == cached && x.end == history && x.last == db
      ensures Explained(x, m, f, r)
      ensures InsertsRow(r) ==> WellReferenced(db, m)
      ensures events == published + if Announces(r) then [m.id] else []
    {
      ghost var looked := history;
      var deliver, ttlFrom, escFrom;
      ghost var a, insert;
      deliver, ttlFrom, escFrom, a := Prepare(m, c, level, stored, start, first, cached);
      ghost var prepared := history;
      Longer(start, looked, prepared);
      r, insert := Store(m, c, IdOf(stored), deliver, ttlFrom, escFrom, f, start, cached, a, published);
      Longer(start, prepared, history);
      x := Record(start, first, cached, history, db, a, insert);
      CommittedExplained(start, first, cached, history, db, a, insert, m, f, r);
    }

    /** The decision and the readings of the clock, after the lookups. */
    method Prepare(m: IngestMessage, c: CachedType, level: Option<Level>, stored: Option<Level>,
                   ghost start: seq<Db>, ghost first: Db, ghost cached: AppCaches)
      returns (deliver: bool, ttlFrom: Time, escFrom: Time, ghost a: Account)
      requires Valid() && IsHistory(start, first) && start <= history && first.now <= db.now
               && PrefsThinned(cached, caches)
      requires Answered(cached, history, |start| - 1, m, c, level, stored)
      modifies this`db, this`caches, this`history
      ensures Valid() && old(history) <= history && events == old(events)
      ensures LookedUp(cached, history, |start| - 1, m, a) && a.before == |history| - 1
      ensures a.used == c && a.level == level && a.stored == stored && a.deliver == deliver
      ensures a.at <= ttlFrom <= db.now && a.at <= escFrom <= db.now
    {
      ghost var looked, later := history, caches;
      deliver, ttlFrom, escFrom, a := Settle(m, c, level, stored);
      DecidedEarlier(cached, later, history, |start| - 1, |looked| - 1, m, a);
      AnsweredStays(cached, looked, history, |start| - 1, m, c, level, stored);
      Longer(start, looked, history);
      PresentAt(start, first, history);
      NotAfterPresent(history, db, a.before, a.at);
    }

    /** What is left to do once everything is looked up. */
    method Store(m: IngestMessage, c: CachedType, level: Option<LevelId>, deliver: bool, ttlFrom: Time, escFrom: Time,
                 f: Faults, ghost start: seq<Db>, ghost cached: AppCaches, ghost a: Account, ghost published: seq<Id>)
      returns (r: Outcome, ghost insert: Cluster.Action)
      requires events == published
      requires Valid() && start != [] && start <= history && CachedFrom(start, cached)
      requires LookedUp(cached, history, |start| - 1, m, a) && a.before == |history| - 1
      requires c == a.used && level == IdOf(a.stored) && deliver == a.deliver
      requires a.at <= ttlFrom <= db.now && a.at <= escFrom <= db.now
      modifies this`db, this`history, this`events
      ensures Valid() && old(history) <= history
      ensures Committed(r)
      ensures InsertsRow(r) <==> m.id !in old(db).table && KeyFree(old(db), m.idempotencyKey)
      ensures !InsertsRow(r) ==> db == old(db)
      ensures LookedUp(cached, history, |start| - 1, m, a)
      ensures InsertsRow(r) ==> Recorded(history, m, a, insert) && WellReferenced(db, m)
      ensures InsertsRow(r) ==> r == Fate(deliver, f)
      ensures events == published + if Announces(r) then [m.id] else []
    {
      ghost var before, settled := db, history;
      LookedUpIsUsable(cached, start, settled, before, m, a);
      r, insert := Commit(m, c, level, deliver, ttlFrom, escFrom, f);
      if InsertsRow(r) {
        InsertCompletes(cached, start, settled, before, db, m, a, insert);
      }
    }

    /** The lookups of a message: its type and, twice, its level. */
    method LookupAll(m: IngestMessage)
      returns (used: Option<CachedType>, ok: bool, level: Option<Level>, stored: Option<Level>)
      requires Valid()
      modifies this`db, this`caches, this`history
      ensures Valid() && old(history) <= history && (!ok ==> m.level != "" && m.slug !in old(db).services)
      ensures TypeAnswer(old(caches), history, |old(history)| - 1, m.slug, m.typeKey, used)
      ensures used.Some? && ok ==>
                && LevelAnswered(old(caches), history, |old(history)| - 1, m, level)
                && LevelAnswered(old(caches), history, |old(history)| - 1, m, stored)
      ensures PrefsThinned(old(caches), caches)
    {
      ok, level, stored := true, None, None;
      used := GetOrLoadType(m.slug, m.typeKey);
      if used.None? {
        return;
      }
      ghost var start, typed, n := old(history), history, |old(history)|;
      Others();
      ghost var waited, between := history, caches;
      Longer(start, typed, waited);
      MovesOn(start, old(db), waited, db, m.slug);
      ok, level, stored := LookupLevel(m);
      if ok {
        AnswerLater(old(caches), between, history, n - 1, |typed|, m, level);
        AnswerLater(old(caches), between, history, n - 1, |typed|, m, stored);
      }
      Longer(typed, waited, history);
      Longer(start, typed, history);
      PrefsThinnedOn(old(caches), between, caches);
      TypeAnswerStays(old(caches), typed, history, n - 1, m, used);
    }

    /** run: acknowledges the messages process_message succeeds on and naks the others. Every message has
        the outcome that the answers it was given and the faults lead to; every acknowledged one has its
        row, well referenced; and the events that go out are those of the announced messages, in order. */
    method Run(messages: seq<IngestMessage>, faults: seq<Faults>)
      returns (outcomes: seq<Outcome>, ghost log: seq<Record>, ghost published: seq<Id>)
      requires Valid() && |faults| == |messages|
      modifies this
      ensures Valid() && old(history) <= history
      ensures |outcomes| == |messages| && events == old(events) + published
      ensures AllHandled(history, db, messages, faults, outcomes, log, published)
    {
      outcomes, log, published := [], [], [];
      while |outcomes| < |messages|
        invariant Valid() && old(history) <= history && |outcomes| <= |messages|
        invariant AllHandled(history, db, messages, faults, outcomes, log, published)
        invariant events == old(events) + published
      {
        outcomes, log, published := HandleNext(messages, faults, outcomes, log, published, old(history));
      }
    }

    /** The body of its loop. */
    method HandleNext(messages: seq<IngestMessage>, faults: seq<Faults>, outcomes: seq<Outcome>,
                      ghost log: seq<Record>, ghost published: seq<Id>, ghost start: seq<Db>)
      returns (outcomes': seq<Outcome>, ghost log': seq<Record>, ghost published': seq<Id>)
      requires Valid() && AllHandled(history, db, messages, faults, outcomes, log, published)
      requires |outcomes| < |messages| && start <= history
      modifies this
      ensures Valid() && start <= history && |outcomes'| == |outcomes| + 1
      ensures AllHandled(history, db, messages, faults, outcomes', log', published')
      ensures published <= published' && events == old(events) + published'[|published|..]
    {
      ghost var before, d := history, db;
      var r;
      ghost var x;
      r, x := HandleOne(messages[|outcomes|], faults[|outcomes|]);
      OneMore(before, d, history, db, messages, faults, outcomes, log, published, r, x);
      Longer(start, before, history);
      outcomes', log' := outcomes + [r], log + [x];
      published' := published + if Announces(r) then [messages[|outcomes|].id] else [];
    }

    /** One message, for its outcome. */
    method HandleOne(m: IngestMessage, f: Faults) returns (r: Outcome, ghost x: Record)
      requires Valid()
      modifies this
      ensures Valid() && old(history) <= history
      ensures RecordOk(history, x, m, f, r) && x.start == old(history)
      ensures InsertsRow(r) ==> WellReferenced(db, m)
      ensures events == old(events) + if Announces(r) then [m.id] else []
    {
      r, x := ProcessMessage(m, f);
    }

    /** update_notification_type: a new version of the type, or an error if there is no such type. */
    method WriteType(slug: string, service: ServiceId, key: string, req: Cluster.TypeRequest)
      returns (ok: bool, ty: TypeId, written: nat)
      requires Valid() && slug in db.services && db.services[slug] == service
      modifies this`db, this`history
      ensures Valid()
      ensures ok <==> (service, key) in old(db).typeIds
      ensures !ok ==> db == old(db) && history == old(history)
      ensures ok ==> history == old(history) + [db] && AddsVersion(old(db), db, slug, key, req, ty, written)
    {
      ok, ty, written := (service, key) in db.typeIds, 0, 0;
      if ok {
        ghost var before := db;
        ty := db.typeIds[(service, key)];
        written := |db.types[ty].versions|;
        db := db.(types := db.types[ty := db.types[ty].(versions := db.types[ty].versions + [Cluster.Stored(req)])]);
        HistoryGrows(history, before, db);
        CachedStays(history, history + [db], caches, caches);
        history := history + [db];
      }
    }

    /** update_type, served by the same instance and so on the same caches: writes a new version of
        the type and only then drops its cached copy. It fails if and only if the service is unknown
        when it is looked up, or the type at the write, position `at`. */
    method UpdateType(slug: string, key: string, req: Cluster.TypeRequest)
      returns (ok: bool, ty: TypeId, written: nat, ghost at: nat)
      requires Valid()
      modifies this`db, this`caches, this`history
      ensures Valid() && old(history) <= history && |old(history)| - 1 <= at < |history|
      ensures ok <==> slug in old(db).services && (old(db).services[slug], key) in history[at].typeIds
      ensures TypeIn(old(db), slug, key).Some? ==> ok
      ensures ok ==> at + 1 < |history| && AddsVersion(history[at], history[at + 1], slug, key, req, ty, written)
      ensures ok ==>
                && ty in db.types && written < |db.types[ty].versions|
                && Requests.Keeps(db.types[ty].versions[written], req)
      ensures Thinned(old(caches), caches) && (ok ==> CacheKey(slug, key) !in caches.types)
    {
      at := |history| - 1;
      if slug !in db.services {
        return false, 0, 0, at;
      }
      var service := db.services[slug];
      Others();
      at := |history| - 1;
      PairStaysRegistered(old(history), old(db), history, db, slug, key);
      ok, ty, written := WriteType(slug, service, key, req);
      if ok {
        ghost var wrote, d := history, db;
        Others();
        VersionStays(wrote, d, history, db, ty, written);
        Invalidate(CacheKey(slug, key));
      }
    }

    /** Drops the cached copy of a type. */
    method Invalidate(cacheKey: string)
      requires Valid()
      modifies this`caches
      ensures Valid() && caches == old(caches).(types := old(caches).types - {cacheKey})
    {
      ghost var before := caches;
      caches := caches.(types := caches.types - {cacheKey});
      CachedStays(history, history, before, caches);
    }
  }
}
