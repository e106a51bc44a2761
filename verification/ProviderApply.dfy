/** Applying imported provider choices to a configuration: which provider becomes active and which is remembered. */
module ProviderApply {
  import opened Text
  import opened Ordered
  import opened ProviderImport

  datatype Plan<P> = Plan(choices: seq<Choice<P>>, defaultProfileId: Option<string>)

  /** What the selector given on the command line resolved to. */
  datatype Resolution = Match(profileId: string) | Ambiguous(profileIds: seq<string>) | NoMatch

  datatype Outcome = Done | AmbiguousSelector | UnknownSelector

  function TrimmedNonEmpty(s: Option<string>): Option<string> {
    if s.Some? && Trim(s.value) != "" then Some(Trim(s.value)) else None
  }

  /** The ids given to the choices, by the ids the choices came with; a later choice wins. */
  function InsertedIds<P>(choices: seq<Choice<P>>, ids: seq<string>): map<string, string>
    requires |ids| == |choices|
  {
    if |ids| == 0 then map[]
    else InsertedIds(choices[..|ids| - 1], ids[..|ids| - 1])[choices[|ids| - 1].profileId := ids[|ids| - 1]]
  }

  function Lookup(m: map<string, string>, key: string): Option<string> {
    if key in m then Some(m[key]) else None
  }

  function FirstKey(keys: set<string>): Option<string> {
    if |keys| == 0 then None else Some(SortedKeys(keys)[0])
  }

  class Config<P> {
    var providers: Profiles<P>
    var provider: P
    var activeProvider: Option<string>
    var lastProvider: Option<string>

    constructor (providers: Profiles<P>, provider: P, activeProvider: Option<string>, lastProvider: Option<string>)
      ensures this.providers == providers && this.provider == provider
      ensures this.activeProvider == activeProvider && this.lastProvider == lastProvider
    {
      this.providers, this.provider := providers, provider;
      this.activeProvider, this.lastProvider := activeProvider, lastProvider;
    }

    function ActiveProviderId(ops: Ops<P>): Option<string>
      reads `providers, `provider, `activeProvider
    {
      if TrimmedNonEmpty(activeProvider).Some? then TrimmedNonEmpty(activeProvider)
      else if |providers.Keys| == 0 then Some(ops.inferredId(provider))
      else FirstKey(providers.Keys)
    }

    /** Keep the flags of other kinds, clear those of the active kind, and flag the active profile. */
    method MakeDefault(ops: Ops<P>, active: string)
      requires active in providers
      modifies `providers
      ensures OnlyDefault(ops, old(providers), providers, active)
    {
      hide Cleared, OnlyDefault, SortedKeys;
      ghost var before := providers;
      var kind := ops.kind(providers[active].provider);
      var ids := SortedKeys(providers.Keys);
      ClearedNone(ops, providers, kind);
      var i := 0;
      while i < |ids|
        invariant i <= |ids|
        invariant Cleared(ops, before, providers, kind, ids[..i])
      {
        ClearedMore(ops, before, providers, kind, ids, i);
        if ops.kind(providers[ids[i]].provider) == kind {
          providers := providers[ids[i] := providers[ids[i]].(defaultForKind := false)];
        }
        i := i + 1;
      }
      assert ids[..|ids|] == ids;
      ClearedThenSet(ops, before, providers, ids, active);
      providers := providers[active := providers[active].(defaultForKind := true)];
    }

    method ApplyProviderProfiles(ops: Ops<P>, base: Config<P>, plan: Plan<P>, selector: Option<Resolution>,
                                 supplementedExisting: bool)
      returns (r: Outcome)
      requires base != this
      modifies this
      ensures |plan.choices| == 0 ==> r == Done && unchanged(this)
      ensures |plan.choices| > 0 ==>
                (r == Done <==> selector.None? || selector.value.Match?)
                && (r == AmbiguousSelector <==> selector.Some? && selector.value.Ambiguous?)
      ensures r != Done ==> unchanged(this)
      ensures |plan.choices| > 0 && r == Done ==>
                && SettledOn(ops, old(providers), plan.choices,
                             Chosen(ops, old(providers), plan, selector, supplementedExisting,
                                    base.ActiveProviderId(ops)),
                             old(provider), old(activeProvider))
                && lastProvider == Remembered(ops, base, supplementedExisting && selector.None?)
      ensures |plan.choices| > 0 && r == Done && !(supplementedExisting && selector.None?) ==>
                lastProvider.None? || lastProvider != ActiveProviderId(ops)
    {
      hide SettledOn, Chosen, InsertAll, InsertedIds, ActiveProviderId, Remembered;
      if |plan.choices| == 0 {
        return Done;
      }
      var profiles, inserted := InsertChoices(ops, providers, plan.choices);
      var active;
      r, active := ChooseActive(ops, providers, plan, selector, supplementedExisting, base.ActiveProviderId(ops),
                                profiles, inserted);
      if r != Done {
        return;
      }
      Settle(ops, plan.choices, profiles, active);
      Remember(ops, base, supplementedExisting && selector.None?);
    }

    /** The provider to go back to: the one that was active, unless it still is. */
    method Remember(ops: Ops<P>, base: Config<P>, keep: bool)
      requires base != this
      modifies `lastProvider
      ensures lastProvider == Remembered(ops, base, keep)
    {
      if keep {
        lastProvider := TrimmedNonEmpty(base.lastProvider);
      } else {
        lastProvider := base.ActiveProviderId(ops);
        if lastProvider == ActiveProviderId(ops) {
          lastProvider := None;
        }
      }
    }

    function Remembered(ops: Ops<P>, base: Config<P>, keep: bool): (r: Option<string>)
      reads base, `providers, `provider, `activeProvider
      ensures !keep ==> r.None? || r != ActiveProviderId(ops)
    {
      if keep then TrimmedNonEmpty(base.lastProvider)
      else if base.ActiveProviderId(ops) == ActiveProviderId(ops) then None
      else base.ActiveProviderId(ops)
    }

    method Settle(ops: Ops<P>, ghost choices: seq<Choice<P>>, profiles: Profiles<P>, active: Option<string>)
      requires profiles == InsertAll(ops, providers, choices).0
      modifies `providers, `provider, `activeProvider
      ensures SettledOn(ops, old(providers), choices, active, old(provider), old(activeProvider))
    {
      hide InsertAll;
      providers := profiles;
      if active.Some? {
        if active.value in providers {
          MakeDefault(ops, active.value);
        }
        activeProvider := active;
        if active.value in providers {
          provider := providers[active.value].provider;
        }
      }
    }

    /**
     The configuration after an active id was chosen. A chosen profile is the active
     provider and the one default of its kind; nothing else about the profiles changes.
     */
    ghost predicate SettledOn(ops: Ops<P>, profiles0: Profiles<P>, choices: seq<Choice<P>>, active: Option<string>,
                              provider0: P, active0: Option<string>)
      reads `providers, `provider, `activeProvider
    {
      var profiles := InsertAll(ops, profiles0, choices).0;
      && activeProvider == (if active.Some? then active else active0)
      && (if active.Some? && active.value in profiles
          then OnlyDefault(ops, profiles, providers, active.value) && provider == profiles[active.value].provider
          else providers == profiles && provider == provider0)
    }
  }

  /** The id that becomes active. */
  function Chosen<P>(ops: Ops<P>, profiles: Profiles<P>, plan: Plan<P>, selector: Option<Resolution>,
                     supplementedExisting: bool, baseActive: Option<string>): Option<string>
  {
    var (after, ids) := InsertAll(ops, profiles, plan.choices);
    InsertAllLength(ops, profiles, plan.choices);
    var inserted := InsertedIds(plan.choices, ids);
    if supplementedExisting && selector.None? then
      if baseActive.Some? then baseActive else FirstKey(after.Keys)
    else match selector {
      case Some(Match(profileId)) => Lookup(inserted, profileId)
      case Some(_) => None
      case None =>
        if plan.defaultProfileId.Some? && plan.defaultProfileId.value in inserted
        then Some(inserted[plan.defaultProfileId.value])
        else
          var first := FirstKey(inserted.Keys);
          if first.Some? then Lookup(inserted, first.value) else None
    }
  }

  /** Outside the keep-existing path the chosen id is always a profile, if the selector names a choice. */
  lemma ChosenIsPresent<P>(ops: Ops<P>, profiles: Profiles<P>, plan: Plan<P>, selector: Option<Resolution>,
                           supplementedExisting: bool, baseActive: Option<string>)
    requires |plan.choices| > 0 && !(supplementedExisting && selector.None?)
    requires selector.Some? ==>
               selector.value.Match? && exists c | c in plan.choices :: c.profileId == selector.value.profileId
    ensures var active := Chosen(ops, profiles, plan, selector, supplementedExisting, baseActive);
            active.Some? && active.value in InsertAll(ops, profiles, plan.choices).0
  {
    InsertAllLength(ops, profiles, plan.choices);
    var (after, ids) := InsertAll(ops, profiles, plan.choices);
    hide InsertAll;
    InsertedMeaning(plan.choices, ids);
    assert plan.choices[0].profileId in InsertedIds(plan.choices, ids);
  }

  lemma {:induction false} InsertedMeaning<P>(choices: seq<Choice<P>>, ids: seq<string>)
    requires |ids| == |choices|
    ensures forall c | c in choices :: c.profileId in InsertedIds(choices, ids)
    ensures forall key | key in InsertedIds(choices, ids) :: InsertedIds(choices, ids)[key] in ids
  {
    if |ids| > 0 {
      var n := |ids| - 1;
      InsertedMeaning(choices[..n], ids[..n]);
      assert choices == choices[..n] + [choices[n]] && ids == ids[..n] + [ids[n]];
    }
  }

  /** A whole import keeps exactly one default per kind, whichever profile becomes active. */
  lemma ImportKeepsOneDefaultPerKind<P(!new)>(ops: Ops<P>, before: Profiles<P>, choices: seq<Choice<P>>,
                                              active: Option<string>, after: Profiles<P>)
    requires KeepsKind(ops) && OneDefaultPerKind(ops, before)
    requires var inserted := InsertAll(ops, before, choices).0;
             if active.Some? && active.value in inserted then OnlyDefault(ops, inserted, after, active.value)
             else after == inserted
    ensures OneDefaultPerKind(ops, after)
  {
    hide OneDefaultPerKind, OnlyDefault, InsertAll;
    RunKeepsDefaults(ops, before, choices);
    var inserted := InsertAll(ops, before, choices).0;
    if active.Some? && active.value in inserted {
      OnlyDefaultKeepsOne(ops, inserted, after, active.value);
    }
  }

  method ChooseActive<P>(ops: Ops<P>, ghost profiles0: Profiles<P>, plan: Plan<P>, selector: Option<Resolution>,
                         supplementedExisting: bool, baseActive: Option<string>,
                         profiles: Profiles<P>, inserted: map<string, string>)
    returns (r: Outcome, active: Option<string>)
    requires |InsertAll(ops, profiles0, plan.choices).1| == |plan.choices|
    requires profiles == InsertAll(ops, profiles0, plan.choices).0
    requires inserted == InsertedIds(plan.choices, InsertAll(ops, profiles0, plan.choices).1)
    ensures r == Done <==> selector.None? || selector.value.Match?
    ensures r == AmbiguousSelector <==> selector.Some? && selector.value.Ambiguous?
    ensures r == Done ==> active == Chosen(ops, profiles0, plan, selector, supplementedExisting, baseActive)
  {
    hide InsertAll, InsertedIds, SortedKeys;
    r, active := Done, None;
    if supplementedExisting && selector.None? {
      active := baseActive;
      if active.None? {
        active := FirstKey(profiles.Keys);
      }
    } else if selector.Some? {
      match selector.value {
        case Match(profileId) => active := Lookup(inserted, profileId);
        case Ambiguous(_) => r := AmbiguousSelector;
        case NoMatch => r := UnknownSelector;
      }
    } else {
      if plan.defaultProfileId.Some? {
        active := Lookup(inserted, plan.defaultProfileId.value);
      }
      if active.None? {
        var first := FirstKey(inserted.Keys);
        if first.Some? {
          active := Lookup(inserted, first.value);
        }
      }
    }
  }

  lemma {:induction false} InsertAllLength<P>(ops: Ops<P>, profiles: Profiles<P>, choices: seq<Choice<P>>)
    ensures |InsertAll(ops, profiles, choices).1| == |choices|
    ensures forall id | id in InsertAll(ops, profiles, choices).1 :: id in InsertAll(ops, profiles, choices).0
  {
    if |choices| > 0 {
      var c, front := choices[|choices| - 1], choices[..|choices| - 1];
      InsertAllLength(ops, profiles, front);
      InsertGrows(ops, InsertAll(ops, profiles, front).0, c.config, Some(c.profileId));
      hide ProviderImport.Insert;
    }
  }

  method InsertChoices<P>(ops: Ops<P>, profiles0: Profiles<P>, choices: seq<Choice<P>>)
    returns (profiles: Profiles<P>, inserted: map<string, string>)
    ensures profiles == InsertAll(ops, profiles0, choices).0
    ensures |InsertAll(ops, profiles0, choices).1| == |choices|
    ensures inserted == InsertedIds(choices, InsertAll(ops, profiles0, choices).1)
  {
    hide ProviderImport.Insert, InsertAll, InsertedIds;
    profiles, inserted := profiles0, map[];
    ghost var ids := [];
    InsertNone(ops, profiles0, choices);
    var i := 0;
    while i < |choices|
      invariant i <= |choices| && |ids| == i
      invariant (profiles, ids) == InsertAll(ops, profiles0, choices[..i])
      invariant inserted == InsertedIds(choices[..i], ids)
    {
      InsertMore(ops, profiles0, choices, i);
      var id;
      profiles, id := InsertOrMergeProviderProfile(ops, profiles, choices[i].config, Some(choices[i].profileId));
      inserted := inserted[choices[i].profileId := id];
      ids := ids + [id];
      i := i + 1;
    }
    assert choices[..|choices|] == choices;
  }

  lemma InsertNone<P>(ops: Ops<P>, profiles: Profiles<P>, choices: seq<Choice<P>>)
    ensures InsertAll(ops, profiles, choices[..0]) == (profiles, [])
    ensures InsertedIds(choices[..0], []) == map[]
  {}

  lemma InsertMore<P>(ops: Ops<P>, profiles: Profiles<P>, choices: seq<Choice<P>>, i: nat)
    requires i < |choices| && |InsertAll(ops, profiles, choices[..i]).1| == i
    ensures var (mid, ids) := InsertAll(ops, profiles, choices[..i]);
            var (after, id) := ProviderImport.Insert(ops, mid, choices[i].config, Some(choices[i].profileId));
            && InsertAll(ops, profiles, choices[..i + 1]) == (after, ids + [id])
            && InsertedIds(choices[..i + 1], ids + [id]) == InsertedIds(choices[..i], ids)[choices[i].profileId := id]
  {
    hide ProviderImport.Insert;
    var ids := InsertAll(ops, profiles, choices[..i]).1;
    var mid := InsertAll(ops, profiles, choices[..i]).0;
    var id := ProviderImport.Insert(ops, mid, choices[i].config, Some(choices[i].profileId)).1;
    assert choices[..i + 1][..i] == choices[..i] && (ids + [id])[..i] == ids;
  }

  // ----- default flags -----

  /** `active` is the only default of its kind; providers and the flags of other kinds are untouched. */
  ghost predicate OnlyDefault<P>(ops: Ops<P>, before: Profiles<P>, after: Profiles<P>, active: string)
    requires active in before
  {
    && after.Keys == before.Keys
    && (forall id | id in before :: after[id].provider == before[id].provider)
    && (forall id | id in before && ops.kind(before[id].provider) != ops.kind(before[active].provider) ::
          after[id].defaultForKind == before[id].defaultForKind)
    && (forall id | id in before && ops.kind(before[id].provider) == ops.kind(before[active].provider) ::
          after[id].defaultForKind <==> id == active)
  }

  ghost predicate Cleared<P>(ops: Ops<P>, before: Profiles<P>, now: Profiles<P>, kind: string, done: seq<string>) {
    && now.Keys == before.Keys
    && (forall id | id in before ::
          now[id] == before[id].(defaultForKind := before[id].defaultForKind
                                                   && !(id in done && ops.kind(before[id].provider) == kind)))
  }

  lemma ClearedNone<P>(ops: Ops<P>, before: Profiles<P>, kind: string)
    ensures Cleared(ops, before, before, kind, [])
  {}

  lemma ClearedThenSet<P>(ops: Ops<P>, before: Profiles<P>, now: Profiles<P>, ids: seq<string>, active: string)
    requires active in before && (forall id | id in before :: id in ids)
    requires Cleared(ops, before, now, ops.kind(before[active].provider), ids)
    ensures active in now
    ensures OnlyDefault(ops, before, now[active := now[active].(defaultForKind := true)], active)
  {}

  lemma ClearedMore<P>(ops: Ops<P>, before: Profiles<P>, now: Profiles<P>, kind: string, ids: seq<string>, i: nat)
    requires i < |ids| && (forall id | id in ids :: id in before) && Cleared(ops, before, now, kind, ids[..i])
    ensures ids[i] in now
    ensures Cleared(ops, before,
                    if ops.kind(now[ids[i]].provider) == kind
                    then now[ids[i] := now[ids[i]].(defaultForKind := false)] else now,
                    kind, ids[..i + 1])
  {
    assert ids[..i + 1] == ids[..i] + [ids[i]];
  }

  lemma OnlyDefaultKeepsOne<P>(ops: Ops<P>, before: Profiles<P>, after: Profiles<P>, active: string)
    requires active in before && OnlyDefault(ops, before, after, active) && OneDefaultPerKind(ops, before)
    ensures OneDefaultPerKind(ops, after)
  {
    var mine := ops.kind(before[active].provider);
    forall kind | HasKind(ops, after, kind) ensures HasDefault(ops, after, kind) {
      if kind == mine {
        assert IsDefaultOf(ops, after, active, kind);
      } else {
        assert HasKind(ops, before, kind);
        var d :| d in before && IsDefaultOf(ops, before, d, kind);
        assert IsDefaultOf(ops, after, d, kind);
      }
    }
    forall a, b, kind | IsDefaultOf(ops, after, a, kind) && IsDefaultOf(ops, after, b, kind) ensures a == b {
      if kind != mine {
        assert IsDefaultOf(ops, before, a, kind) && IsDefaultOf(ops, before, b, kind);
      }
    }
  }
}
