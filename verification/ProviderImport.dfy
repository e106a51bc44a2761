/**
 Importing providers into the profile map: insert-or-merge, fresh ids, and the repair of
 the active provider and the default flags.

 What identifies a provider and how two are merged is a parameter. The laws below need
 only that merging two providers of one identity keeps that identity.
 */
module ProviderImport {
  import opened Text
  import opened Ordered

  datatype Ops<!P> = Ops(key: P -> string, merge: (P, P) -> P, kind: P -> string, inferredId: P -> string)

  datatype Profile<P> = Profile(defaultForKind: bool, provider: P)
  type Profiles<P> = map<string, Profile<P>>
  datatype Choice<P> = Choice(profileId: string, config: P)

  /** Among the providers `ok` admits, merging two of one identity gives an admitted one of that identity. */
  ghost predicate KeepsIdentity<P(!new)>(ops: Ops<P>, ok: P -> bool) {
    forall a, b | ok(a) && ok(b) && ops.key(a) == ops.key(b) :: ok(ops.merge(a, b)) && Kept(ops, a, ops.merge(a, b))
  }

  predicate Kept<P>(ops: Ops<P>, a: P, merged: P) {
    ops.key(merged) == ops.key(a) && ops.kind(merged) == ops.kind(a)
  }

  // ----- fresh ids -----

  function Decimal(n: nat): (s: string)
    ensures s != ""
  {
    if n < 10 then [Digit(n)] else Decimal(n / 10) + [Digit(n % 10)]
  }

  function Digit(n: nat): char
    requires n < 10
  {
    (n + '0' as int) as char
  }

  lemma {:induction false} DecimalInjective(m: nat, n: nat)
    requires Decimal(m) == Decimal(n)
    ensures m == n
  {
    assert Decimal(m)[|Decimal(m)| - 1] == Digit(m % 10);
    assert Decimal(n)[|Decimal(n)| - 1] == Digit(n % 10);
    if m >= 10 && n >= 10 {
      assert Decimal(m)[..|Decimal(m)| - 1] == Decimal(m / 10);
      assert Decimal(n)[..|Decimal(n)| - 1] == Decimal(n / 10);
      DecimalInjective(m / 10, n / 10);
    }
  }

  /** The ids tried in turn: the base itself, then the base with -2, -3 and so on. */
  function Candidate(base: string, n: nat): string {
    if n == 0 then base else base + "-" + Decimal(n + 1)
  }

  lemma CandidateInjective(base: string, m: nat, n: nat)
    requires Candidate(base, m) == Candidate(base, n)
    ensures m == n
  {
    if m > 0 && n > 0 {
      assert Candidate(base, m)[|base| + 1..] == Decimal(m + 1);
      assert Candidate(base, n)[|base| + 1..] == Decimal(n + 1);
      DecimalInjective(m + 1, n + 1);
    }
  }

  predicate Taken(base: string, ids: set<string>, n: nat) {
    forall m: nat | m < n :: Candidate(base, m) in ids
  }

  /** `n` candidates already in use need `n` ids. */
  lemma {:induction false} Pigeonhole(base: string, ids: set<string>, n: nat)
    requires Taken(base, ids, n)
    ensures n <= |ids|
  {
    if n > 0 {
      var last := Candidate(base, n - 1);
      forall m: nat | m < n - 1 ensures Candidate(base, m) in ids - {last} {
        if Candidate(base, m) == last {
          CandidateInjective(base, m, n - 1);
        }
      }
      Pigeonhole(base, ids - {last}, n - 1);
    }
  }

  /** The first candidate from the `n`-th on that is not in use. */
  function FreshId(base: string, ids: set<string>, n: nat := 0): (id: string)
    requires Taken(base, ids, n)
    ensures id !in ids
    ensures exists m: nat | m <= |ids| :: id == Candidate(base, m) && Taken(base, ids, m)
    decreases |ids| - n
  {
    Pigeonhole(base, ids, n);
    if Candidate(base, n) !in ids then Candidate(base, n)
    else
      Pigeonhole(base, ids, n + 1);
      FreshId(base, ids, n + 1)
  }

  /** The suffix search; at most one candidate more than there are ids is tried. */
  method FindFreshId(base: string, ids: set<string>) returns (id: string, tries: nat)
    ensures id == FreshId(base, ids)
    ensures 1 <= tries <= |ids| + 1
  {
    id := base;
    var suffix := 2;
    tries := 1;
    while id in ids
      invariant suffix == tries + 1 && tries >= 1
      invariant id == Candidate(base, tries - 1)
      invariant Taken(base, ids, tries - 1)
      invariant FreshId(base, ids, tries - 1) == FreshId(base, ids)
      invariant tries <= |ids| + 1
      decreases |ids| + 1 - tries
    {
      Pigeonhole(base, ids, tries);
      id := base + "-" + Decimal(suffix);
      suffix := suffix + 1;
      tries := tries + 1;
    }
  }

  // ----- insert or merge -----

  /** The first id, in key order, whose profile has the given identity. */
  function FirstOwner<P>(ops: Ops<P>, profiles: Profiles<P>, ids: seq<string>, key: string): Option<string>
    requires forall id | id in ids :: id in profiles
  {
    if |ids| == 0 then None
    else if ops.key(profiles[ids[0]].provider) == key then Some(ids[0])
    else FirstOwner(ops, profiles, ids[1..], key)
  }

  function Owner<P>(ops: Ops<P>, profiles: Profiles<P>, key: string): Option<string> {
    FirstOwner(ops, profiles, SortedKeys(profiles.Keys), key)
  }

  predicate HasKind<P>(ops: Ops<P>, profiles: Profiles<P>, kind: string) {
    exists id | id in profiles :: ops.kind(profiles[id].provider) == kind
  }

  function BaseId<P>(ops: Ops<P>, provider: P, preferred: Option<string>): string {
    if preferred.Some? && Trim(preferred.value) != "" then Trim(preferred.value) else ops.inferredId(provider)
  }

  function Insert<P>(ops: Ops<P>, profiles: Profiles<P>, provider: P, preferred: Option<string>): (Profiles<P>, string)
  {
    match Owner(ops, profiles, ops.key(provider))
    case Some(id) =>
      OwnerMeaning(ops, profiles, ops.key(provider));
      (profiles[id := profiles[id].(provider := ops.merge(profiles[id].provider, provider))], id)
    case None =>
      var id := FreshId(BaseId(ops, provider, preferred), profiles.Keys);
      (profiles[id := Profile(!HasKind(ops, profiles, ops.kind(provider)), provider)], id)
  }

  predicate Owns<P>(ops: Ops<P>, profiles: Profiles<P>, id: string, key: string) {
    id in profiles && ops.key(profiles[id].provider) == key
  }

  lemma {:induction false} FirstOwnerMeaning<P>(ops: Ops<P>, profiles: Profiles<P>, ids: seq<string>, key: string)
    requires forall id | id in ids :: id in profiles
    ensures var r := FirstOwner(ops, profiles, ids, key);
            match r
            case Some(id) => id in ids && Owns(ops, profiles, id, key)
            case None => forall id | id in ids :: !Owns(ops, profiles, id, key)
  {
    if |ids| > 0 && ops.key(profiles[ids[0]].provider) != key {
      FirstOwnerMeaning(ops, profiles, ids[1..], key);
      assert ids == [ids[0]] + ids[1..];
    }
  }

  lemma OwnerMeaning<P>(ops: Ops<P>, profiles: Profiles<P>, key: string)
    ensures match Owner(ops, profiles, key)
            case Some(id) => Owns(ops, profiles, id, key)
            case None => forall id :: !Owns(ops, profiles, id, key)
  {
    FirstOwnerMeaning(ops, profiles, SortedKeys(profiles.Keys), key);
  }

  method InsertOrMergeProviderProfile<P>(ops: Ops<P>, profiles0: Profiles<P>, provider: P, preferred: Option<string>)
    returns (profiles: Profiles<P>, profileId: string)
    ensures (profiles, profileId) == Insert(ops, profiles0, provider, preferred)
  {
    profiles := profiles0;
    var owner := FindOwner(ops, profiles, ops.key(provider));
    OwnerMeaning(ops, profiles, ops.key(provider));
    if owner.Some? {
      profileId := owner.value;
      var merged := ops.merge(profiles[profileId].provider, provider);
      profiles := profiles[profileId := profiles[profileId].(provider := merged)];
      return;
    }
    var tries;
    profileId, tries := FindFreshId(BaseId(ops, provider, preferred), profiles.Keys);
    var profile := Profile(false, provider);
    var known := FindKind(ops, profiles, ops.kind(provider));
    if !known {
      profile := profile.(defaultForKind := true);
    }
    profiles := profiles[profileId := profile];
  }

  method FindOwner<P>(ops: Ops<P>, profiles: Profiles<P>, key: string) returns (owner: Option<string>)
    ensures owner == Owner(ops, profiles, key)
  {
    var ids := SortedKeys(profiles.Keys);
    var i := 0;
    while i < |ids|
      invariant i <= |ids|
      invariant FirstOwner(ops, profiles, ids, key) == FirstOwner(ops, profiles, ids[i..], key)
    {
      if ops.key(profiles[ids[i]].provider) == key {
        return Some(ids[i]);
      }
      i := i + 1;
    }
    return None;
  }

  method FindKind<P>(ops: Ops<P>, profiles: Profiles<P>, kind: string) returns (found: bool)
    ensures found == HasKind(ops, profiles, kind)
  {
    var ids := SortedKeys(profiles.Keys);
    hide SortedKeys;
    var i := 0;
    while i < |ids|
      invariant i <= |ids|
      invariant forall j | 0 <= j < i :: ops.kind(profiles[ids[j]].provider) != kind
    {
      if ops.kind(profiles[ids[i]].provider) == kind {
        assert ids[i] in ids;
        return true;
      }
      i := i + 1;
    }
    return false;
  }

  // ----- what one insertion does -----

  predicate AllOk<P>(ok: P -> bool, profiles: Profiles<P>) {
    forall id | id in profiles :: ok(profiles[id].provider)
  }

  predicate ChoicesOk<P>(ok: P -> bool, choices: seq<Choice<P>>) {
    forall i | 0 <= i < |choices| :: ok(choices[i].config)
  }

  /** No two profiles have the same identity. */
  predicate DistinctKeys<P>(ops: Ops<P>, profiles: Profiles<P>) {
    forall a, b | a in profiles && b in profiles && ops.key(profiles[a].provider) == ops.key(profiles[b].provider) ::
      a == b
  }

  /**
   One insertion: no id is lost, only the returned id can be new, and a profile that was
   there is unchanged or has absorbed the provider it shares its identity with.
   */
  ghost predicate Grew<P>(ops: Ops<P>, before: Profiles<P>, after: Profiles<P>, provider: P, id: string) {
    && after.Keys == before.Keys + {id}
    && (forall had | had in before && had != id :: after[had] == before[had])
    && (if id in before
        then ops.key(before[id].provider) == ops.key(provider)
             && after[id] == before[id].(provider := ops.merge(before[id].provider, provider))
        else after[id].provider == provider
             && (forall had | had in before :: ops.key(before[had].provider) != ops.key(provider))
             && (after[id].defaultForKind <==> !HasKind(ops, before, ops.kind(provider))))
  }

  lemma InsertGrows<P>(ops: Ops<P>, before: Profiles<P>, provider: P, preferred: Option<string>)
    ensures var (after, id) := Insert(ops, before, provider, preferred); Grew(ops, before, after, provider, id)
  {
    hide Owner, FreshId, BaseId, HasKind, Grew;
    OwnerMeaning(ops, before, ops.key(provider));
    match Owner(ops, before, ops.key(provider)) {
      case Some(id) => MergingGrows(ops, before, provider, id);
      case None => AddingGrows(ops, before, provider, FreshId(BaseId(ops, provider, preferred), before.Keys));
    }
  }

  lemma MergingGrows<P>(ops: Ops<P>, before: Profiles<P>, provider: P, id: string)
    requires Owns(ops, before, id, ops.key(provider))
    ensures var merged := ops.merge(before[id].provider, provider);
            Grew(ops, before, before[id := before[id].(provider := merged)], provider, id)
  {}

  lemma AddingGrows<P>(ops: Ops<P>, before: Profiles<P>, provider: P, id: string)
    requires id !in before && forall other :: !Owns(ops, before, other, ops.key(provider))
    ensures Grew(ops, before, before[id := Profile(!HasKind(ops, before, ops.kind(provider)), provider)], provider, id)
  {
    hide HasKind;
    forall had | had in before ensures ops.key(before[had].provider) != ops.key(provider) {
      assert !Owns(ops, before, had, ops.key(provider));
    }
  }

  /** An insertion keeps every identity where it was and puts the provider's at the returned id. */
  lemma GrewKeepsOwners<P(!new)>(ops: Ops<P>, ok: P -> bool, before: Profiles<P>, after: Profiles<P>, provider: P,
                                 id: string)
    requires KeepsIdentity(ops, ok) && AllOk(ok, before) && ok(provider) && Grew(ops, before, after, provider, id)
    ensures AllOk(ok, after) && after.Keys == before.Keys + {id}
    ensures forall had | had in before :: Kept(ops, before[had].provider, after[had].provider)
    ensures Owns(ops, after, id, ops.key(provider))
    ensures DistinctKeys(ops, before) ==> DistinctKeys(ops, after)
  {
    hide HasKind;
  }

  // ----- runs of insertions -----

  function InsertAll<P>(ops: Ops<P>, profiles: Profiles<P>, choices: seq<Choice<P>>): (Profiles<P>, seq<string>) {
    if |choices| == 0 then (profiles, [])
    else
      var last := choices[|choices| - 1];
      var (before, ids) := InsertAll(ops, profiles, choices[..|choices| - 1]);
      var (after, id) := Insert(ops, before, last.config, Some(last.profileId));
      (after, ids + [id])
  }

  /** `after` comes from `p` by merging in some of the choices, each of the identity held at that time. */
  ghost predicate Absorbs<P>(ops: Ops<P>, p: P, choices: seq<Choice<P>>, after: P) {
    if |choices| == 0 then after == p
    else
      var c := choices[0].config;
      || Absorbs(ops, p, choices[1..], after)
      || (ops.key(p) == ops.key(c) && Absorbs(ops, ops.merge(p, c), choices[1..], after))
  }

  /** No id is lost and nothing but merging touches a profile. */
  ghost predicate Preserved<P(!new)>(ops: Ops<P>, before: Profiles<P>, choices: seq<Choice<P>>, after: Profiles<P>) {
    forall id | id in before ::
      && id in after
      && after[id].defaultForKind == before[id].defaultForKind
      && Absorbs(ops, before[id].provider, choices, after[id].provider)
  }

  /** Over any run, whatever merging does. */
  lemma {:induction false} NothingIsLost<P(!new)>(ops: Ops<P>, before: Profiles<P>, choices: seq<Choice<P>>)
    ensures Preserved(ops, before, choices, InsertAll(ops, before, choices).0)
  {
    if |choices| > 0 {
      var c, front := choices[|choices| - 1], choices[..|choices| - 1];
      NothingIsLost(ops, before, front);
      hide Insert, HasKind, Preserved;
      var mid := InsertAll(ops, before, front).0;
      InsertGrows(ops, mid, c.config, Some(c.profileId));
      var (after, id) := Insert(ops, mid, c.config, Some(c.profileId));
      PreservedMore(ops, before, choices, mid, after, id);
    }
  }

  lemma PreservedMore<P(!new)>(ops: Ops<P>, before: Profiles<P>, choices: seq<Choice<P>>, mid: Profiles<P>,
                               after: Profiles<P>, id: string)
    requires |choices| > 0 && Preserved(ops, before, choices[..|choices| - 1], mid)
    requires Grew(ops, mid, after, choices[|choices| - 1].config, id)
    ensures Preserved(ops, before, choices, after)
  {
    hide HasKind;
    forall had | had in before ensures Absorbs(ops, before[had].provider, choices, after[had].provider) {
      AbsorbsMore(ops, before[had].provider, choices, mid[had].provider, after[had].provider);
    }
  }

  lemma {:induction false} AbsorbsMore<P>(ops: Ops<P>, p: P, choices: seq<Choice<P>>, mid: P, after: P)
    requires |choices| > 0 && Absorbs(ops, p, choices[..|choices| - 1], mid)
    requires var c := choices[|choices| - 1].config;
             after == mid || (ops.key(mid) == ops.key(c) && after == ops.merge(mid, c))
    ensures Absorbs(ops, p, choices, after)
  {
    var rest := choices[1..];
    if |rest| > 0 {
      assert rest[..|rest| - 1] == choices[..|choices| - 1][1..];
      if Absorbs(ops, p, rest[..|rest| - 1], mid) {
        AbsorbsMore(ops, p, rest, mid, after);
      } else {
        AbsorbsMore(ops, ops.merge(p, choices[0].config), rest, mid, after);
      }
    } else {
      assert Absorbs(ops, after, rest, after);
    }
  }

  /** What a profile holds after a run in which identities stay put: every choice of its identity, merged in order. */
  function Absorbed<P>(ops: Ops<P>, p: P, choices: seq<Choice<P>>): P {
    if |choices| == 0 then p
    else
      var mid, c := Absorbed(ops, p, choices[..|choices| - 1]), choices[|choices| - 1].config;
      if ops.key(c) == ops.key(p) then ops.merge(mid, c) else mid
  }

  /** Profiles that were there hold what they absorbed; the identities have not moved. */
  ghost predicate HoldsAbsorbed<P>(ops: Ops<P>, before: Profiles<P>, choices: seq<Choice<P>>, after: Profiles<P>) {
    forall id | id in before ::
      && id in after
      && Kept(ops, before[id].provider, after[id].provider)
      && after[id] == Profile(before[id].defaultForKind, Absorbed(ops, before[id].provider, choices))
  }

  /** Every choice's identity is at the id the run gave it, and every new id was given to a choice. */
  ghost predicate Placed<P>(ops: Ops<P>, before: Profiles<P>, choices: seq<Choice<P>>, after: Profiles<P>,
                            ids: seq<string>)
  {
    && (forall id | id in after :: id in before || id in ids)
    && AllOwned(ops, after, choices, ids)
  }

  predicate AllOwned<P>(ops: Ops<P>, profiles: Profiles<P>, choices: seq<Choice<P>>, ids: seq<string>) {
    |ids| == |choices| && forall i | 0 <= i < |ids| :: Owns(ops, profiles, ids[i], ops.key(choices[i].config))
  }

  /** The run creates a profile for the choice at `i`: the first of its identity, with the later ones merged in. */
  ghost predicate CreatedBy<P>(ops: Ops<P>, choices: seq<Choice<P>>, i: nat, provider: P) {
    && i < |choices|
    && (forall j | 0 <= j < i :: ops.key(choices[j].config) != ops.key(choices[i].config))
    && ops.key(provider) == ops.key(choices[i].config)
    && provider == Absorbed(ops, choices[i].config, choices[i + 1..])
  }

  ghost predicate HoldsCreated<P>(ops: Ops<P>, before: Profiles<P>, choices: seq<Choice<P>>, after: Profiles<P>) {
    forall id | id in after && id !in before ::
      exists i | 0 <= i < |choices| :: CreatedBy(ops, choices, i, after[id].provider)
  }

  /** The profiles a run leaves when identities were distinct at its start. */
  ghost predicate RunOf<P>(ops: Ops<P>, ok: P -> bool, before: Profiles<P>, choices: seq<Choice<P>>,
                           after: Profiles<P>, ids: seq<string>)
  {
    && AllOk(ok, after) && DistinctKeys(ops, after)
    && HoldsAbsorbed(ops, before, choices, after)
    && HoldsCreated(ops, before, choices, after)
    && Placed(ops, before, choices, after, ids)
  }

  lemma {:induction false} InsertAllRuns<P(!new)>(ops: Ops<P>, ok: P -> bool, before: Profiles<P>,
                                                  choices: seq<Choice<P>>)
    requires KeepsIdentity(ops, ok) && AllOk(ok, before) && ChoicesOk(ok, choices) && DistinctKeys(ops, before)
    ensures var (after, ids) := InsertAll(ops, before, choices); RunOf(ops, ok, before, choices, after, ids)
  {
    if |choices| == 0 {
      assert RunOf(ops, ok, before, choices, before, []);
    } else {
      var c, front := choices[|choices| - 1], choices[..|choices| - 1];
      var (mid, ids) := InsertAll(ops, before, front);
      var (after, id) := Insert(ops, mid, c.config, Some(c.profileId));
      InsertAllRuns(ops, ok, before, front);
      hide Insert, HasKind, InsertAll;
      InsertGrows(ops, mid, c.config, Some(c.profileId));
      RunGrows(ops, ok, before, choices, mid, ids, after, id);
    }
  }

  lemma RunGrows<P(!new)>(ops: Ops<P>, ok: P -> bool, before: Profiles<P>, choices: seq<Choice<P>>,
                          mid: Profiles<P>, ids: seq<string>, after: Profiles<P>, id: string)
    requires KeepsIdentity(ops, ok) && ChoicesOk(ok, choices) && |choices| > 0
    requires RunOf(ops, ok, before, choices[..|choices| - 1], mid, ids)
    requires Grew(ops, mid, after, choices[|choices| - 1].config, id)
    ensures RunOf(ops, ok, before, choices, after, ids + [id])
  {
    hide Grew, KeepsIdentity, HoldsAbsorbed, HoldsCreated, Placed;
    GrewKeepsOwners(ops, ok, mid, after, choices[|choices| - 1].config, id);
    MoreAbsorbed(ops, before, choices, mid, after, id);
    MoreCreated(ops, before, choices, mid, ids, after, id);
    MorePlaced(ops, before, choices, mid, ids, after, id);
  }

  lemma MoreAbsorbed<P>(ops: Ops<P>, before: Profiles<P>, choices: seq<Choice<P>>, mid: Profiles<P>,
                        after: Profiles<P>, id: string)
    requires |choices| > 0 && HoldsAbsorbed(ops, before, choices[..|choices| - 1], mid)
    requires DistinctKeys(ops, mid) && Grew(ops, mid, after, choices[|choices| - 1].config, id)
    requires forall had | had in mid :: Kept(ops, mid[had].provider, after[had].provider)
    ensures HoldsAbsorbed(ops, before, choices, after)
  {
    hide HasKind;
  }

  lemma MoreCreated<P>(ops: Ops<P>, before: Profiles<P>, choices: seq<Choice<P>>, mid: Profiles<P>, ids: seq<string>,
                       after: Profiles<P>, id: string)
    requires |choices| > 0 && HoldsCreated(ops, before, choices[..|choices| - 1], mid)
    requires Placed(ops, before, choices[..|choices| - 1], mid, ids)
    requires DistinctKeys(ops, mid) && Grew(ops, mid, after, choices[|choices| - 1].config, id)
    requires forall had | had in mid :: Kept(ops, mid[had].provider, after[had].provider)
    ensures HoldsCreated(ops, before, choices, after)
  {
    hide HasKind;
    var n := |choices| - 1;
    var front, c := choices[..n], choices[n].config;
    forall x | x in after && x !in before
      ensures exists i | 0 <= i < |choices| :: CreatedBy(ops, choices, i, after[x].provider)
    {
      if x in mid {
        var i :| 0 <= i < n && CreatedBy(ops, front, i, mid[x].provider);
        CreatedMore(ops, choices, i, mid[x].provider, after[x].provider);
      } else {
        forall j | 0 <= j < n ensures ops.key(choices[j].config) != ops.key(c) {
          assert Owns(ops, mid, ids[j], ops.key(front[j].config));
        }
        assert choices[n + 1..] == [];
        assert CreatedBy(ops, choices, n, after[x].provider);
      }
    }
  }

  lemma CreatedMore<P>(ops: Ops<P>, choices: seq<Choice<P>>, i: nat, mid: P, after: P)
    requires |choices| > 0 && CreatedBy(ops, choices[..|choices| - 1], i, mid) && ops.key(after) == ops.key(mid)
    requires var c := choices[|choices| - 1].config;
             after == if ops.key(c) == ops.key(mid) then ops.merge(mid, c) else mid
    ensures CreatedBy(ops, choices, i, after)
  {
    var front, rest := choices[..|choices| - 1], choices[i + 1..];
    assert rest[..|rest| - 1] == front[i + 1..] && rest[|rest| - 1] == choices[|choices| - 1];
    assert forall j | 0 <= j < |front| :: front[j] == choices[j];
  }

  lemma MorePlaced<P>(ops: Ops<P>, before: Profiles<P>, choices: seq<Choice<P>>, mid: Profiles<P>, ids: seq<string>,
                      after: Profiles<P>, id: string)
    requires |choices| > 0 && Placed(ops, before, choices[..|choices| - 1], mid, ids)
    requires after.Keys == mid.Keys + {id}
    requires forall had | had in mid :: Kept(ops, mid[had].provider, after[had].provider)
    requires Owns(ops, after, id, ops.key(choices[|choices| - 1].config))
    ensures Placed(ops, before, choices, after, ids + [id])
  {}

  /** A run over choices whose identities are all present finds each where it is and adds nothing. */
  lemma {:induction false} RunFindsOwners<P(!new)>(ops: Ops<P>, ok: P -> bool, profiles: Profiles<P>,
                                                   choices: seq<Choice<P>>, ids: seq<string>)
    requires KeepsIdentity(ops, ok) && AllOk(ok, profiles) && ChoicesOk(ok, choices) && DistinctKeys(ops, profiles)
    requires AllOwned(ops, profiles, choices, ids)
    ensures InsertAll(ops, profiles, choices).0.Keys == profiles.Keys
    ensures InsertAll(ops, profiles, choices).1 == ids
  {
    hide Insert, Grew, KeepsIdentity, Placed, HoldsAbsorbed, DistinctKeys, AllOk, ChoicesOk, AllOwned;
    assert |ids| == |choices| by { AllOwnedFront(ops, ok, profiles, choices, ids); }
    if |choices| > 0 {
      var n := |choices| - 1;
      var c, front := choices[n], choices[..n];
      AllOwnedFront(ops, ok, profiles, choices, ids);
      RunFindsOwners(ops, ok, profiles, front, ids[..n]);
      InsertAllRuns(ops, ok, profiles, front);
      var mid := InsertAll(ops, profiles, front).0;
      InsertGrows(ops, mid, c.config, Some(c.profileId));
      var (after, id) := Insert(ops, mid, c.config, Some(c.profileId));
      OwnerStays(ops, profiles, front, mid, ids[n], ops.key(c.config));
      GrowsAtOwner(ops, mid, after, c.config, id, ids[n]);
      assert ids == ids[..n] + [ids[n]];
    }
  }

  lemma AllOwnedFront<P>(ops: Ops<P>, ok: P -> bool, profiles: Profiles<P>, choices: seq<Choice<P>>, ids: seq<string>)
    requires ChoicesOk(ok, choices) && AllOwned(ops, profiles, choices, ids)
    ensures |ids| == |choices|
    ensures |ids| > 0 ==>
              var n := |ids| - 1;
              && ChoicesOk(ok, choices[..n]) && AllOwned(ops, profiles, choices[..n], ids[..n])
              && Owns(ops, profiles, ids[n], ops.key(choices[n].config))
  {}

  lemma OwnerStays<P>(ops: Ops<P>, before: Profiles<P>, choices: seq<Choice<P>>, after: Profiles<P>, id: string,
                      key: string)
    requires HoldsAbsorbed(ops, before, choices, after) && Owns(ops, before, id, key)
    ensures Owns(ops, after, id, key)
  {}

  lemma GrowsAtOwner<P>(ops: Ops<P>, before: Profiles<P>, after: Profiles<P>, provider: P, id: string, owner: string)
    requires Grew(ops, before, after, provider, id) && DistinctKeys(ops, before)
    requires Owns(ops, before, owner, ops.key(provider))
    ensures id == owner && after.Keys == before.Keys
  {}

  /** Importing the same choices again creates no id and gives every choice the id it had. */
  lemma ReimportIsStable<P(!new)>(ops: Ops<P>, ok: P -> bool, before: Profiles<P>, choices: seq<Choice<P>>)
    requires KeepsIdentity(ops, ok) && AllOk(ok, before) && ChoicesOk(ok, choices) && DistinctKeys(ops, before)
    ensures var (after, ids) := InsertAll(ops, before, choices);
            var (again, ids') := InsertAll(ops, after, choices);
            again.Keys == after.Keys && ids' == ids
  {
    InsertAllRuns(ops, ok, before, choices);
    var (after, ids) := InsertAll(ops, before, choices);
    RunFindsOwners(ops, ok, after, choices, ids);
  }

  // ----- one choice imported twice, whatever merging does -----

  /** Merging the provider into the profile of its identity, if there is one, keeps the identity. */
  predicate MergeKeeps<P>(ops: Ops<P>, profiles: Profiles<P>, provider: P) {
    forall id | id in profiles && Owns(ops, profiles, id, ops.key(provider)) ::
      ops.key(ops.merge(profiles[id].provider, provider)) == ops.key(provider)
  }

  /** Importing one choice twice adds a second profile exactly when the first merge moved the identity. */
  lemma ReimportOneExactly<P>(ops: Ops<P>, before: Profiles<P>, c: Choice<P>)
    requires DistinctKeys(ops, before)
    ensures var once := InsertAll(ops, before, [c]).0;
            var twice := InsertAll(ops, once, [c]).0;
            if MergeKeeps(ops, before, c.config) then twice.Keys == once.Keys
            else once.Keys == before.Keys && once.Keys < twice.Keys && |twice| == |once| + 1
  {
    hide Insert, Grew, MergeKeeps, DistinctKeys;
    InsertOne(ops, before, c);
    InsertGrows(ops, before, c.config, Some(c.profileId));
    var (once, id) := Insert(ops, before, c.config, Some(c.profileId));
    InsertOne(ops, once, c);
    InsertGrows(ops, once, c.config, Some(c.profileId));
    var (twice, id') := Insert(ops, once, c.config, Some(c.profileId));
    OwnedAfterOne(ops, before, once, c.config, id);
    GrowsExactlyWithoutOwner(ops, once, twice, c.config, id');
  }

  lemma InsertOne<P>(ops: Ops<P>, profiles: Profiles<P>, c: Choice<P>)
    ensures var (after, id) := Insert(ops, profiles, c.config, Some(c.profileId));
            InsertAll(ops, profiles, [c]) == (after, [id])
  {
    hide Insert;
    assert [c][..|[c]| - 1] == [];
    assert InsertAll(ops, profiles, []) == (profiles, []);
    var (after, id) := Insert(ops, profiles, c.config, Some(c.profileId));
    assert [] + [id] == [id];
  }

  /** After an insertion the provider's identity is held, unless merging moved it. */
  lemma OwnedAfterOne<P>(ops: Ops<P>, before: Profiles<P>, once: Profiles<P>, provider: P, id: string)
    requires DistinctKeys(ops, before) && Grew(ops, before, once, provider, id)
    ensures MergeKeeps(ops, before, provider) <==> exists x | x in once :: Owns(ops, once, x, ops.key(provider))
    ensures !MergeKeeps(ops, before, provider) ==> once.Keys == before.Keys
  {
    hide HasKind;
    if id !in before {
      assert Owns(ops, once, id, ops.key(provider));
    } else {
      assert Owns(ops, before, id, ops.key(provider));
      assert forall x | x in before && x != id :: !Owns(ops, once, x, ops.key(provider));
      assert MergeKeeps(ops, before, provider) <==> Owns(ops, once, id, ops.key(provider));
    }
  }

  lemma GrowsExactlyWithoutOwner<P>(ops: Ops<P>, before: Profiles<P>, after: Profiles<P>, provider: P, id: string)
    requires Grew(ops, before, after, provider, id)
    ensures if exists x | x in before :: Owns(ops, before, x, ops.key(provider)) then after.Keys == before.Keys
            else before.Keys < after.Keys && |after| == |before| + 1
  {
    hide HasKind;
    if id in before {
      assert Owns(ops, before, id, ops.key(provider));
    } else {
      assert |after.Keys| == |before.Keys| + 1;
    }
  }

  // ----- default flags -----

  predicate IsDefaultOf<P>(ops: Ops<P>, profiles: Profiles<P>, id: string, kind: string) {
    id in profiles && profiles[id].defaultForKind && ops.kind(profiles[id].provider) == kind
  }

  predicate HasDefault<P>(ops: Ops<P>, profiles: Profiles<P>, kind: string) {
    exists d | d in profiles :: IsDefaultOf(ops, profiles, d, kind)
  }

  ghost predicate AtMostOneDefault<P>(ops: Ops<P>, profiles: Profiles<P>) {
    forall a, b, kind | IsDefaultOf(ops, profiles, a, kind) && IsDefaultOf(ops, profiles, b, kind) :: a == b
  }

  /** Every kind that occurs has exactly one default profile. */
  ghost predicate OneDefaultPerKind<P>(ops: Ops<P>, profiles: Profiles<P>) {
    && AtMostOneDefault(ops, profiles)
    && (forall kind | HasKind(ops, profiles, kind) :: HasDefault(ops, profiles, kind))
  }

  /** Merging into a provider of the same identity keeps the kind, whatever becomes of the identity. */
  ghost predicate KeepsKind<P(!new)>(ops: Ops<P>) {
    forall a, b | ops.key(a) == ops.key(b) :: ops.kind(ops.merge(a, b)) == ops.kind(a)
  }

  lemma GrewKeepsDefaults<P(!new)>(ops: Ops<P>, before: Profiles<P>, after: Profiles<P>, provider: P, id: string)
    requires KeepsKind(ops) && Grew(ops, before, after, provider, id) && OneDefaultPerKind(ops, before)
    ensures OneDefaultPerKind(ops, after)
  {
    hide OneDefaultPerKind, HasKind;
    if id in before {
      MergeKeepsDefaults(ops, before, after);
    } else {
      AddKeepsDefaults(ops, before, after, id);
    }
  }

  predicate SameDefaults<P>(ops: Ops<P>, before: Profiles<P>, after: Profiles<P>) {
    forall x | x in before :: x in after && after[x].defaultForKind == before[x].defaultForKind
                              && ops.kind(after[x].provider) == ops.kind(before[x].provider)
  }

  lemma MergeKeepsDefaults<P>(ops: Ops<P>, before: Profiles<P>, after: Profiles<P>)
    requires OneDefaultPerKind(ops, before) && after.Keys == before.Keys && SameDefaults(ops, before, after)
    ensures OneDefaultPerKind(ops, after)
  {
    forall kind | HasKind(ops, after, kind) ensures HasDefault(ops, after, kind) {
      assert HasKind(ops, before, kind);
      var d :| d in before && IsDefaultOf(ops, before, d, kind);
      assert IsDefaultOf(ops, after, d, kind);
    }
    forall a, b, kind | IsDefaultOf(ops, after, a, kind) && IsDefaultOf(ops, after, b, kind) ensures a == b {
      assert IsDefaultOf(ops, before, a, kind) && IsDefaultOf(ops, before, b, kind);
    }
  }

  lemma AddKeepsDefaults<P>(ops: Ops<P>, before: Profiles<P>, after: Profiles<P>, id: string)
    requires OneDefaultPerKind(ops, before) && SameDefaults(ops, before, after)
    requires id !in before && after.Keys == before.Keys + {id}
    requires after[id].defaultForKind <==> !HasKind(ops, before, ops.kind(after[id].provider))
    ensures OneDefaultPerKind(ops, after)
  {
    forall kind | HasKind(ops, after, kind) ensures HasDefault(ops, after, kind) {
      AddHasDefault(ops, before, after, id, kind);
    }
    forall a, b, kind | IsDefaultOf(ops, after, a, kind) && IsDefaultOf(ops, after, b, kind) ensures a == b {
      AddNoRival(ops, before, after, id, a, b, kind);
    }
  }

  lemma AddHasDefault<P>(ops: Ops<P>, before: Profiles<P>, after: Profiles<P>, id: string, kind: string)
    requires HasKind(ops, before, kind) ==> HasDefault(ops, before, kind)
    requires SameDefaults(ops, before, after) && after.Keys == before.Keys + {id} && HasKind(ops, after, kind)
    requires after[id].defaultForKind <==> !HasKind(ops, before, ops.kind(after[id].provider))
    ensures HasDefault(ops, after, kind)
  {
    if HasKind(ops, before, kind) {
      var d :| d in before && IsDefaultOf(ops, before, d, kind);
      assert IsDefaultOf(ops, after, d, kind);
    } else {
      assert IsDefaultOf(ops, after, id, kind);
    }
  }

  lemma AddNoRival<P>(ops: Ops<P>, before: Profiles<P>, after: Profiles<P>, id: string, a: string, b: string,
                      kind: string)
    requires AtMostOneDefault(ops, before)
    requires SameDefaults(ops, before, after) && id !in before && after.Keys == before.Keys + {id}
    requires after[id].defaultForKind <==> !HasKind(ops, before, ops.kind(after[id].provider))
    requires IsDefaultOf(ops, after, a, kind) && IsDefaultOf(ops, after, b, kind)
    ensures a == b
  {
    if a != id && b != id {
      assert IsDefaultOf(ops, before, a, kind) && IsDefaultOf(ops, before, b, kind);
    }
  }

  lemma {:induction false} RunKeepsDefaults<P(!new)>(ops: Ops<P>, before: Profiles<P>, choices: seq<Choice<P>>)
    requires KeepsKind(ops) && OneDefaultPerKind(ops, before)
    ensures OneDefaultPerKind(ops, InsertAll(ops, before, choices).0)
  {
    if |choices| > 0 {
      var c, front := choices[|choices| - 1], choices[..|choices| - 1];
      RunKeepsDefaults(ops, before, front);
      var mid := InsertAll(ops, before, front).0;
      hide Insert, Grew, OneDefaultPerKind, KeepsKind;
      InsertGrows(ops, mid, c.config, Some(c.profileId));
      var (after, id) := Insert(ops, mid, c.config, Some(c.profileId));
      GrewKeepsDefaults(ops, mid, after, c.config, id);
    }
  }
}
