/**
 Which provider an import makes active, told by the choices themselves, and which id a new
 profile gets.
 */
module ProviderActive {
  import opened Text
  import opened Ordered
  import opened ProviderImport
  import opened ProviderApply

  // ----- the choice that was picked -----

  /** The last choice that came with this id. */
  predicate LastWithId<P>(choices: seq<Choice<P>>, i: nat, id: string) {
    && i < |choices| && choices[i].profileId == id
    && forall j | i < j < |choices| :: choices[j].profileId != id
  }

  predicate Named<P>(choices: seq<Choice<P>>, id: string) {
    exists i | 0 <= i < |choices| :: choices[i].profileId == id
  }

  /** The last choice with the id the selector matched, else with the default id, else with the least id. */
  predicate Picked<P>(plan: Plan<P>, selector: Option<Resolution>, i: nat) {
    if selector.Some? then selector.value.Match? && LastWithId(plan.choices, i, selector.value.profileId)
    else if plan.defaultProfileId.Some? && Named(plan.choices, plan.defaultProfileId.value)
    then LastWithId(plan.choices, i, plan.defaultProfileId.value)
    else
      && i < |plan.choices| && LastWithId(plan.choices, i, plan.choices[i].profileId)
      && forall j | 0 <= j < |plan.choices| :: Le(plan.choices[i].profileId, plan.choices[j].profileId)
  }

  lemma {:induction false} LastExists<P>(choices: seq<Choice<P>>, id: string)
    requires Named(choices, id)
    ensures exists i: nat :: LastWithId(choices, i, id)
  {
    var n := |choices| - 1;
    if choices[n].profileId == id {
      assert LastWithId(choices, n, id);
    } else {
      var front := choices[..n];
      var k :| 0 <= k < |choices| && choices[k].profileId == id;
      assert front[k].profileId == id;
      LastExists(front, id);
      var i: nat :| LastWithId(front, i, id);
      forall j | i < j < |choices| ensures choices[j].profileId != id {
        assert j < n ==> choices[j] == front[j];
      }
      assert LastWithId(choices, i, id);
    }
  }

  /** Some choice is picked exactly when there is one to pick and the selector names it. */
  lemma SomeChoiceIsPicked<P>(plan: Plan<P>, selector: Option<Resolution>)
    ensures (exists i: nat :: Picked(plan, selector, i))
       <==> (if selector.Some? then selector.value.Match? && Named(plan.choices, selector.value.profileId)
             else |plan.choices| > 0)
  {
    var choices := plan.choices;
    if exists i: nat :: Picked(plan, selector, i) {
      var i: nat :| Picked(plan, selector, i);
      assert choices[i].profileId == choices[i].profileId;
    }
    if selector.Some? {
      if selector.value.Match? && Named(choices, selector.value.profileId) {
        LastExists(choices, selector.value.profileId);
        var i: nat :| LastWithId(choices, i, selector.value.profileId);
        assert Picked(plan, selector, i);
      }
    } else if plan.defaultProfileId.Some? && Named(choices, plan.defaultProfileId.value) {
      LastExists(choices, plan.defaultProfileId.value);
      var i: nat :| LastWithId(choices, i, plan.defaultProfileId.value);
      assert Picked(plan, selector, i);
    } else if |choices| > 0 {
      LeastIdExists(plan, selector);
    }
  }

  lemma LeastIdExists<P>(plan: Plan<P>, selector: Option<Resolution>)
    requires |plan.choices| > 0 && selector.None?
    requires !(plan.defaultProfileId.Some? && Named(plan.choices, plan.defaultProfileId.value))
    ensures exists i: nat :: Picked(plan, selector, i)
  {
    var choices := plan.choices;
    var ids := set k | 0 <= k < |choices| :: choices[k].profileId;
    assert choices[0].profileId in ids;
    LeastExists(ids);
    var least :| IsLeast(least, ids);
    LastExists(choices, least);
    var i: nat :| LastWithId(choices, i, least);
    forall j | 0 <= j < |choices| ensures Le(choices[i].profileId, choices[j].profileId) {
      assert choices[j].profileId in ids;
    }
    assert Picked(plan, selector, i);
  }

  // ----- the id the run gave it -----

  lemma {:induction false} InsertedIdsLast<P>(choices: seq<Choice<P>>, ids: seq<string>, i: nat)
    requires |ids| == |choices| && i < |choices| && LastWithId(choices, i, choices[i].profileId)
    ensures var inserted := InsertedIds(choices, ids);
            choices[i].profileId in inserted && inserted[choices[i].profileId] == ids[i]
  {
    var n := |ids| - 1;
    if i < n {
      assert choices[..n][i] == choices[i] && ids[..n][i] == ids[i];
      forall j | i < j < n ensures choices[..n][j].profileId != choices[i].profileId {
        assert choices[..n][j] == choices[j];
      }
      InsertedIdsLast(choices[..n], ids[..n], i);
      assert choices[n].profileId != choices[i].profileId;
    }
  }

  lemma {:induction false} InsertedIdsKeys<P>(choices: seq<Choice<P>>, ids: seq<string>)
    requires |ids| == |choices|
    ensures forall id :: id in InsertedIds(choices, ids) <==> Named(choices, id)
  {
    if |ids| > 0 {
      var n := |ids| - 1;
      var front := choices[..n];
      InsertedIdsKeys(front, ids[..n]);
      forall id ensures id in InsertedIds(choices, ids) <==> Named(choices, id) {
        if Named(front, id) {
          var k :| 0 <= k < |front| && front[k].profileId == id;
          assert choices[k].profileId == id;
        }
        if Named(choices, id) && id != choices[n].profileId {
          var k :| 0 <= k < |choices| && choices[k].profileId == id;
          assert front[k].profileId == id;
        }
      }
    }
  }

  lemma FirstKeyIsLeast(keys: set<string>)
    requires |keys| > 0
    ensures FirstKey(keys).Some? && IsLeast(FirstKey(keys).value, keys)
  {
    var sorted := SortedKeys(keys);
    hide SortedKeys;
    var m := sorted[0];
    assert m in sorted;
    LeTotal(m, m);
    forall k | k in keys ensures Le(m, k) {
      var i :| 0 <= i < |sorted| && sorted[i] == k;
    }
  }

  /** Unless the existing provider is kept, the id that becomes active is the one the run gave the picked choice. */
  lemma ActiveIdIsThePickedOne<P>(ops: Ops<P>, profiles: Profiles<P>, plan: Plan<P>, selector: Option<Resolution>,
                                  supplementedExisting: bool, baseActive: Option<string>, i: nat)
    requires !(supplementedExisting && selector.None?)
    requires Picked(plan, selector, i)
    ensures |InsertAll(ops, profiles, plan.choices).1| == |plan.choices|
    ensures i < |plan.choices|
    ensures Chosen(ops, profiles, plan, selector, supplementedExisting, baseActive)
         == Some(InsertAll(ops, profiles, plan.choices).1[i])
  {
    InsertAllLength(ops, profiles, plan.choices);
    var choices, ids := plan.choices, InsertAll(ops, profiles, plan.choices).1;
    hide InsertAll;
    InsertedIdsLast(choices, ids, i);
    InsertedIdsKeys(choices, ids);
    var inserted := InsertedIds(choices, ids);
    hide InsertedIds, SortedKeys, FirstKey;
    assert |inserted.Keys| > 0;
    FirstKeyIsLeast(inserted.Keys);
    if selector.None? && !(plan.defaultProfileId.Some? && Named(choices, plan.defaultProfileId.value)) {
      var first := FirstKey(inserted.Keys).value;
      var j :| 0 <= j < |choices| && choices[j].profileId == first;
      LeAntisymmetric(first, choices[i].profileId);
    }
  }

  /** A selector that matched no choice of the plan chooses nothing. */
  lemma UnknownMatchChoosesNothing<P>(ops: Ops<P>, profiles: Profiles<P>, plan: Plan<P>, id: string,
                                      supplementedExisting: bool, baseActive: Option<string>)
    ensures Chosen(ops, profiles, plan, Some(Match(id)), supplementedExisting, baseActive).None?
       <==> !Named(plan.choices, id)
  {
    InsertAllLength(ops, profiles, plan.choices);
    InsertedIdsKeys(plan.choices, InsertAll(ops, profiles, plan.choices).1);
    hide InsertAll, InsertedIds;
  }

  /** Where merging keeps identities, the provider that becomes active has the identity of the picked choice. */
  lemma ActiveProviderIsThePickedOne<P(!new)>(ops: Ops<P>, ok: P -> bool, profiles: Profiles<P>, plan: Plan<P>,
                                              selector: Option<Resolution>, supplementedExisting: bool,
                                              baseActive: Option<string>, i: nat)
    requires KeepsIdentity(ops, ok) && AllOk(ok, profiles) && ChoicesOk(ok, plan.choices) && DistinctKeys(ops, profiles)
    requires !(supplementedExisting && selector.None?)
    requires Picked(plan, selector, i)
    ensures i < |plan.choices|
    ensures var active := Chosen(ops, profiles, plan, selector, supplementedExisting, baseActive);
            active.Some? && Owns(ops, InsertAll(ops, profiles, plan.choices).0, active.value,
                                 ops.key(plan.choices[i].config))
  {
    hide InsertAll, Chosen, KeepsIdentity, AllOk, ChoicesOk, DistinctKeys;
    ActiveIdIsThePickedOne(ops, profiles, plan, selector, supplementedExisting, baseActive, i);
    InsertAllRuns(ops, ok, profiles, plan.choices);
  }

  /** So after an import the active provider is the picked one, under the id the run gave it. */
  lemma ImportActivatesThePickedChoice<P(!new)>(config: Config<P>, ops: Ops<P>, ok: P -> bool, profiles: Profiles<P>,
                                                plan: Plan<P>, selector: Option<Resolution>,
                                                supplementedExisting: bool, baseActive: Option<string>,
                                                provider: P, active: Option<string>, i: nat)
    requires KeepsIdentity(ops, ok) && AllOk(ok, profiles) && ChoicesOk(ok, plan.choices) && DistinctKeys(ops, profiles)
    requires !(supplementedExisting && selector.None?)
    requires Picked(plan, selector, i)
    requires var chosen := Chosen(ops, profiles, plan, selector, supplementedExisting, baseActive);
             config.SettledOn(ops, profiles, plan.choices, chosen, provider, active)
    ensures i < |plan.choices| == |InsertAll(ops, profiles, plan.choices).1|
    ensures config.activeProvider == Some(InsertAll(ops, profiles, plan.choices).1[i])
    ensures ops.key(config.provider) == ops.key(plan.choices[i].config)
  {
    hide InsertAll, Chosen, KeepsIdentity, AllOk, ChoicesOk, DistinctKeys, Picked;
    ActiveIdIsThePickedOne(ops, profiles, plan, selector, supplementedExisting, baseActive, i);
    ActiveProviderIsThePickedOne(ops, ok, profiles, plan, selector, supplementedExisting, baseActive, i);
  }

  /** Supplementing without a selector leaves the provider active that was, and there always is one. */
  lemma SupplementingKeepsActive<P>(base: Config<P>, ops: Ops<P>, profiles: Profiles<P>, plan: Plan<P>)
    ensures base.ActiveProviderId(ops).Some?
    ensures Chosen(ops, profiles, plan, None, true, base.ActiveProviderId(ops)) == base.ActiveProviderId(ops)
  {
    hide InsertAll, InsertedIds, SortedKeys;
  }

  /** The active id: the configured one unless blank, else the least profile id, else what the provider suggests. */
  lemma ActiveIdOf<P>(config: Config<P>, ops: Ops<P>, id: string)
    ensures config.ActiveProviderId(ops) == Some(id) <==>
              if config.activeProvider.Some? && !Blank(config.activeProvider.value)
              then id == Trim(config.activeProvider.value)
              else if config.providers == map[] then id == ops.inferredId(config.provider)
              else IsLeast(id, config.providers.Keys)
  {
    if config.activeProvider.Some? {
      TrimmedAway(config.activeProvider.value);
    }
    hide Trim, Blank, FirstKey;
    assert config.providers == map[] <==> |config.providers.Keys| == 0;
    if config.providers != map[] {
      FirstKeyIsLeast(config.providers.Keys);
      LeastUnique(config.providers.Keys);
    }
  }

  // ----- the id of a new profile -----

  function Numeral(s: string): int {
    if s == "" then 0 else 10 * Numeral(s[..|s| - 1]) + s[|s| - 1] as int - '0' as int
  }

  /** The suffix is the number in decimal digits, without leading zeros. */
  lemma {:induction false} DecimalIsNumeral(n: nat)
    ensures Numeral(Decimal(n)) == n
    ensures forall i | 0 <= i < |Decimal(n)| :: '0' <= Decimal(n)[i] <= '9'
    ensures n > 0 ==> Decimal(n)[0] != '0'
  {
    if n >= 10 {
      DecimalIsNumeral(n / 10);
      assert Decimal(n)[..|Decimal(n)| - 1] == Decimal(n / 10);
    } else {
      assert Decimal(n)[..|Decimal(n)| - 1] == "";
    }
  }

  /**
   A provider that no profile owns gets the preferred id, trimmed, or the inferred one when
   that is blank; if it is in use, the first of -2, -3 and so on that is not.
   */
  lemma NewProfileId<P>(ops: Ops<P>, profiles: Profiles<P>, provider: P, preferred: Option<string>, base: string)
    requires forall id | id in profiles :: ops.key(profiles[id].provider) != ops.key(provider)
    requires if preferred.Some? && !Blank(preferred.value) then base == Trim(preferred.value)
             else base == ops.inferredId(provider)
    ensures var id := ProviderImport.Insert(ops, profiles, provider, preferred).1;
            && id !in profiles
            && (base !in profiles ==> id == base)
            && (base in profiles ==>
                  exists n: nat | n >= 2 :: id == base + "-" + Decimal(n)
                    && forall m: nat | 2 <= m < n :: base + "-" + Decimal(m) in profiles)
  {
    OwnerMeaning(ops, profiles, ops.key(provider));
    if preferred.Some? {
      TrimmedAway(preferred.value);
    }
    hide Owner, Blank, Trim;
    assert BaseId(ops, provider, preferred) == base;
    var id := FreshId(base, profiles.Keys);
    var n: nat :| n <= |profiles.Keys| && id == Candidate(base, n) && Taken(base, profiles.Keys, n);
    hide FreshId;
    forall m: nat | 2 <= m < n + 1 ensures base + "-" + Decimal(m) in profiles {
      assert Candidate(base, m - 1) in profiles.Keys;
    }
    assert n > 0 ==> Candidate(base, 0) in profiles.Keys;
  }
}
