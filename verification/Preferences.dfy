/** Preference resolution (processing/preference_resolver.rs) over mute rules that were filtered
    when they were loaded (db/mute_rules.rs). */
module Preferences {
  import opened Common

  datatype ServicePref = ServicePref(service: ServiceId, enabled: bool, minSeverity: Option<int>)

  datatype TypePref = TypePref(ty: TypeId, enabled: bool)

  /** `None` for a service or type stands for all of them, for the time for good. */
  datatype MuteRule = MuteRule(service: Option<ServiceId>, ty: Option<TypeId>, mutedUntil: Option<Time>)

  datatype UserPrefs = UserPrefs(
    globalEnabled: bool,
    servicePrefs: seq<ServicePref>,
    typePrefs: seq<TypePref>,
    muteRules: seq<MuteRule>)

  /** What a cached notification type contributes. */
  datatype TypeInfo = TypeInfo(id: TypeId, service: ServiceId, ttl: Option<int>, interval: Option<int>, max: int)

  datatype SkipReason =
    | GloballyDisabled | MutedByRule | ServiceDisabled | BelowThreshold(level: int, threshold: int) | TypeDisabled

  datatype ResolvedConfig = ResolvedConfig(deliver: bool, ttl: Option<int>, interval: Option<int>, max: int,
                                           skip: Option<SkipReason>)

  predicate Applies(rule: MuteRule, nt: TypeInfo) {
    (rule.service.None? || rule.service == Some(nt.service)) && (rule.ty.None? || rule.ty == Some(nt.id))
  }

  predicate ActiveAt(rule: MuteRule, now: Time) {
    rule.mutedUntil.None? || rule.mutedUntil.value > now
  }

  /** The loop over the rules: whether one of them mutes. */
  predicate AnyMutes(rules: seq<MuteRule>, nt: TypeInfo, now: Time) {
    rules != [] && ((Applies(rules[0], nt) && ActiveAt(rules[0], now)) || AnyMutes(rules[1..], nt, now))
  }

  function FindService(prefs: seq<ServicePref>, service: ServiceId): Option<ServicePref> {
    if prefs == [] then None
    else if prefs[0].service == service then Some(prefs[0])
    else FindService(prefs[1..], service)
  }

  function FindType(prefs: seq<TypePref>, ty: TypeId): Option<TypePref> {
    if prefs == [] then None
    else if prefs[0].ty == ty then Some(prefs[0])
    else FindType(prefs[1..], ty)
  }

  function Config(nt: TypeInfo, skip: Option<SkipReason>): ResolvedConfig {
    ResolvedConfig(skip.None?, nt.ttl, nt.interval, nt.max, skip)
  }

  function Resolve(prefs: UserPrefs, nt: TypeInfo, severity: Option<int>, now: Time): ResolvedConfig {
    if !prefs.globalEnabled then Config(nt, Some(GloballyDisabled))
    else if AnyMutes(prefs.muteRules, nt, now) then Config(nt, Some(MutedByRule))
    else
      var sp := FindService(prefs.servicePrefs, nt.service);
      if sp.Some? && !sp.value.enabled then Config(nt, Some(ServiceDisabled))
      else if sp.Some? && sp.value.minSeverity.Some? && severity.Some? && severity.value < sp.value.minSeverity.value
      then Config(nt, Some(BelowThreshold(severity.value, sp.value.minSeverity.value)))
      else
        var tp := FindType(prefs.typePrefs, nt.id);
        if tp.Some? && !tp.value.enabled then Config(nt, Some(TypeDisabled)) else Config(nt, None)
  }

  /** list_active_mute_rules: the rules active when they were loaded. */
  function ActiveRules(rules: seq<MuteRule>, now: Time): seq<MuteRule> {
    if rules == [] then []
    else (if ActiveAt(rules[0], now) then [rules[0]] else []) + ActiveRules(rules[1..], now)
  }

  // ---------- results ----------

  lemma {:induction false} AnyMutesMeans(rules: seq<MuteRule>, nt: TypeInfo, now: Time)
    ensures AnyMutes(rules, nt, now) <==> exists rule :: rule in rules && Applies(rule, nt) && ActiveAt(rule, now)
  {
    if rules != [] {
      AnyMutesMeans(rules[1..], nt, now);
      assert rules == [rules[0]] + rules[1..];
    }
  }

  lemma {:induction false} ActiveRulesMeans(rules: seq<MuteRule>, now: Time)
    ensures forall rule :: rule in ActiveRules(rules, now) <==>
                           rule in rules && (rule.mutedUntil == None || now < rule.mutedUntil.value)
  {
    if rules != [] {
      ActiveRulesMeans(rules[1..], now);
      assert rules == [rules[0]] + rules[1..];
    }
  }

  /** Filtering the rules when they are loaded decides, at any later time, as all rules would: the
      whole result is the same, reason included. */
  lemma FilteringAtLoadIsHarmless(prefs: UserPrefs, nt: TypeInfo, severity: Option<int>, loaded: Time, now: Time)
    requires loaded <= now
    ensures Resolve(prefs.(muteRules := ActiveRules(prefs.muteRules, loaded)), nt, severity, now)
            == Resolve(prefs, nt, severity, now)
  {
    ActiveRulesMeans(prefs.muteRules, loaded);
    AnyMutesMeans(prefs.muteRules, nt, now);
    AnyMutesMeans(ActiveRules(prefs.muteRules, loaded), nt, now);
  }

  /** The UNIQUE constraints: one preference per service and one per type. */
  ghost predicate OnePerKey(prefs: UserPrefs) {
    && (forall a, b :: a in prefs.servicePrefs && b in prefs.servicePrefs && a.service == b.service ==> a == b)
    && (forall a, b :: a in prefs.typePrefs && b in prefs.typePrefs && a.ty == b.ty ==> a == b)
  }

  lemma {:induction false} FindServiceMeans(prefs: seq<ServicePref>, service: ServiceId)
    ensures match FindService(prefs, service)
            case None => forall p :: p in prefs ==> p.service != service
            case Some(p) => p in prefs && p.service == service
  {
    if prefs != [] && prefs[0].service != service {
      FindServiceMeans(prefs[1..], service);
      assert prefs == [prefs[0]] + prefs[1..];
    }
  }

  lemma {:induction false} FindTypeMeans(prefs: seq<TypePref>, ty: TypeId)
    ensures match FindType(prefs, ty)
            case None => forall p :: p in prefs ==> p.ty != ty
            case Some(p) => p in prefs && p.ty == ty
  {
    if prefs != [] && prefs[0].ty != ty {
      FindTypeMeans(prefs[1..], ty);
      assert prefs == [prefs[0]] + prefs[1..];
    }
  }

  /** A rule that is for the type's service, or all, for the type, or all, and has not ended. */
  ghost predicate Mutes(prefs: UserPrefs, service: ServiceId, ty: TypeId, now: Time) {
    exists rule :: rule in prefs.muteRules
      && rule.service in {None, Some(service)} && rule.ty in {None, Some(ty)}
      && (rule.mutedUntil == None || now < rule.mutedUntil.value)
  }

  /** A preference for the service that turns it off, or asks for a higher severity. */
  ghost predicate Refuses(prefs: UserPrefs, service: ServiceId, severity: Option<int>) {
    exists p :: p in prefs.servicePrefs && p.service == service
      && (!p.enabled || (p.minSeverity.Some? && severity.Some? && severity.value < p.minSeverity.value))
  }

  lemma AnyMutesIsMutes(prefs: UserPrefs, nt: TypeInfo, now: Time)
    ensures AnyMutes(prefs.muteRules, nt, now) <==> Mutes(prefs, nt.service, nt.id, now)
  {
    AnyMutesMeans(prefs.muteRules, nt, now);
    if rule :| rule in prefs.muteRules && Applies(rule, nt) && ActiveAt(rule, now) {
      assert rule.service in {None, Some(nt.service)} && rule.ty in {None, Some(nt.id)};
    }
    if rule :| rule in prefs.muteRules && rule.service in {None, Some(nt.service)} && rule.ty in {None, Some(nt.id)}
               && (rule.mutedUntil == None || now < rule.mutedUntil.value) {
      assert Applies(rule, nt) && ActiveAt(rule, now);
    }
  }

  /** The first-match cascade is a plain conjunction: delivered if and only if the user is on, no
      active rule applies, no preference for the service refuses it, and none for the type is off. The
      type's own defaults go through unchanged. */
  lemma DeliveryIsConjunction(prefs: UserPrefs, nt: TypeInfo, severity: Option<int>, now: Time)
    requires OnePerKey(prefs)
    ensures var config := Resolve(prefs, nt, severity, now);
            && (config.deliver <==>
                  && prefs.globalEnabled
                  && !Mutes(prefs, nt.service, nt.id, now)
                  && !Refuses(prefs, nt.service, severity)
                  && (forall p :: p in prefs.typePrefs && p.ty == nt.id ==> p.enabled))
            && config.ttl == nt.ttl && config.interval == nt.interval && config.max == nt.max
  {
    AnyMutesIsMutes(prefs, nt, now);
    FindServiceMeans(prefs.servicePrefs, nt.service);
    FindTypeMeans(prefs.typePrefs, nt.id);
  }

  /** The reason given is the first that holds, in the order: user, rules, service, severity, type. */
  lemma ReasonIsFirst(prefs: UserPrefs, nt: TypeInfo, severity: Option<int>, now: Time)
    requires OnePerKey(prefs)
    ensures var skip := Resolve(prefs, nt, severity, now).skip;
            var unmuted := prefs.globalEnabled && !Mutes(prefs, nt.service, nt.id, now);
            var off := exists p :: p in prefs.servicePrefs && p.service == nt.service && !p.enabled;
            && (skip.None? <==> Resolve(prefs, nt, severity, now).deliver)
            && (skip == Some(GloballyDisabled) <==> !prefs.globalEnabled)
            && (skip == Some(MutedByRule) <==> prefs.globalEnabled && Mutes(prefs, nt.service, nt.id, now))
            && (skip == Some(ServiceDisabled) <==> unmuted && off)
            && (skip.Some? && skip.value.BelowThreshold? <==> unmuted && !off && Refuses(prefs, nt.service, severity))
            && (skip.Some? && skip.value.BelowThreshold? ==>
                  && severity == Some(skip.value.level)
                  && exists p :: p in prefs.servicePrefs && p.service == nt.service
                                 && p.minSeverity == Some(skip.value.threshold))
            && (skip == Some(TypeDisabled) <==>
                  && unmuted && !Refuses(prefs, nt.service, severity)
                  && exists p :: p in prefs.typePrefs && p.ty == nt.id && !p.enabled)
  {
    AnyMutesIsMutes(prefs, nt, now);
    FindServiceMeans(prefs.servicePrefs, nt.service);
    FindTypeMeans(prefs.typePrefs, nt.id);
  }

  /** A rule for another service, or for another type, makes no difference. */
  lemma OtherRulesDoNotMatter(prefs: UserPrefs, rule: MuteRule, k: nat, nt: TypeInfo, severity: Option<int>, now: Time)
    requires k <= |prefs.muteRules|
    requires (rule.service.Some? && rule.service.value != nt.service) || (rule.ty.Some? && rule.ty.value != nt.id)
    ensures Resolve(prefs.(muteRules := prefs.muteRules[..k] + [rule] + prefs.muteRules[k..]), nt, severity, now)
            == Resolve(prefs, nt, severity, now)
  {
    var more := prefs.muteRules[..k] + [rule] + prefs.muteRules[k..];
    AnyMutesMeans(prefs.muteRules, nt, now);
    AnyMutesMeans(more, nt, now);
    assert prefs.muteRules == prefs.muteRules[..k] + prefs.muteRules[k..];
    assert forall r :: r in more <==> r in prefs.muteRules || r == rule;
  }

  /** The same rows of each kind, in any order and number. */
  ghost predicate SameRows(a: UserPrefs, b: UserPrefs) {
    && a.globalEnabled == b.globalEnabled
    && (forall p :: p in a.servicePrefs <==> p in b.servicePrefs)
    && (forall p :: p in a.typePrefs <==> p in b.typePrefs)
    && (forall r :: r in a.muteRules <==> r in b.muteRules)
  }

  /** The order the three queries return their rows in does not matter, not even for the reason. */
  lemma OrderDoesNotMatter(a: UserPrefs, b: UserPrefs, nt: TypeInfo, severity: Option<int>, now: Time)
    requires OnePerKey(a) && SameRows(a, b)
    ensures Resolve(a, nt, severity, now) == Resolve(b, nt, severity, now)
  {
    AnyMutesMeans(a.muteRules, nt, now);
    AnyMutesMeans(b.muteRules, nt, now);
    FindServiceMeans(a.servicePrefs, nt.service);
    FindServiceMeans(b.servicePrefs, nt.service);
    FindTypeMeans(a.typePrefs, nt.id);
    FindTypeMeans(b.typePrefs, nt.id);
  }

  /** With the preferences fixed, what is delivered now is delivered ever after, the same way; and a
      notification that is skipped now is delivered at some later time if and only if the rules with
      an end are all that holds it back. */
  lemma DeliveryOnlyOpensUp(prefs: UserPrefs, nt: TypeInfo, severity: Option<int>, now: Time)
    ensures Resolve(prefs, nt, severity, now).deliver ==>
              forall later :: later >= now ==> Resolve(prefs, nt, severity, later) == Resolve(prefs, nt, severity, now)
    ensures (exists later :: later >= now && Resolve(prefs, nt, severity, later).deliver)
            <==> Resolve(prefs.(muteRules := Endless(prefs.muteRules)), nt, severity, now).deliver
  {
    EndlessMeans(prefs.muteRules);
    AnyMutesMeans(Endless(prefs.muteRules), nt, now);
    forall later | later >= now
      ensures AnyMutes(prefs.muteRules, nt, later) ==> AnyMutes(prefs.muteRules, nt, now)
      ensures AnyMutes(Endless(prefs.muteRules), nt, now) ==> AnyMutes(prefs.muteRules, nt, later)
    {
      AnyMutesMeans(prefs.muteRules, nt, now);
      AnyMutesMeans(prefs.muteRules, nt, later);
    }
    if !AnyMutes(Endless(prefs.muteRules), nt, now) {
      var end := Max(now, LastEnd(prefs.muteRules, now));
      AnyMutesMeans(prefs.muteRules, nt, end);
      assert !AnyMutes(prefs.muteRules, nt, end);
      assert Resolve(prefs.(muteRules := Endless(prefs.muteRules)), nt, severity, now).deliver ==>
          end >= now && Resolve(prefs, nt, severity, end).deliver;
    }
  }

  /** The rules that never end. */
  function Endless(rules: seq<MuteRule>): seq<MuteRule> {
    if rules == [] then []
    else (if rules[0].mutedUntil.None? then [rules[0]] else []) + Endless(rules[1..])
  }

  lemma {:induction false} EndlessMeans(rules: seq<MuteRule>)
    ensures forall rule :: rule in Endless(rules) <==> rule in rules && rule.mutedUntil.None?
  {
    if rules != [] {
      EndlessMeans(rules[1..]);
      assert rules == [rules[0]] + rules[1..];
    }
  }

  /** By when every rule that ends has ended. */
  function LastEnd(rules: seq<MuteRule>, from: Time): (end: Time)
    ensures forall rule :: rule in rules && rule.mutedUntil.Some? ==> rule.mutedUntil.value <= end
  {
    if rules == [] then from
    else Max(LastEnd(rules[1..], from), if rules[0].mutedUntil.Some? then rules[0].mutedUntil.value else from)
  }
}
