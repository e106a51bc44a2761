/**
 The identity of a provider and how two providers of one identity are merged.

 Only the fields the identity depends on are modelled. Merging does not always keep the
 identity; the exact condition is below, and so is the import that goes wrong without it.
 */
module ProviderMerge {
  import opened Text
  import I = ProviderImport
  import Apply = ProviderApply

  /** Kind names are fixed words without a bar. */
  type KindName = s: string | '|' !in s

  /** What a kind's built-in profile says. */
  datatype KindProfile = KindProfile(id: string, baseUrl: string, chatPath: string)
  type Table = KindName -> KindProfile

  datatype Provider = Provider(kind: KindName, model: string, baseUrl: string, chatPath: string,
                               endpoint: Option<string>)

  // ----- identity -----

  function LowerChar(c: char): char {
    if 'A' <= c <= 'Z' then (c as int + 32) as char else c
  }

  function Lower(s: string): string {
    if s == "" then "" else [LowerChar(s[0])] + Lower(s[1..])
  }

  function Norm(s: string): string {
    Lower(Trim(s))
  }

  predicate IsAlnum(c: char) {
    'a' <= c <= 'z' || 'A' <= c <= 'Z' || '0' <= c <= '9'
  }

  /** The segment after reading `raw`: letters and digits in lower case, other runs as one dash. */
  function Dashed(raw: string): (string, bool) {
    if raw == "" then ("", false)
    else
      var (before, dash) := Dashed(raw[..|raw| - 1]);
      var c := raw[|raw| - 1];
      if IsAlnum(c) then (before + [LowerChar(c)], false)
      else if before != "" && !dash then (before + "-", true)
      else (before, dash)
  }

  function DropDashes(s: string): string {
    if s != "" && s[|s| - 1] == '-' then DropDashes(s[..|s| - 1]) else s
  }

  function Segment(raw: string): Option<string> {
    var s := DropDashes(Dashed(Trim(raw)).0);
    if s == "" then None else Some(s)
  }

  method NormalizeSegment(raw: string) returns (r: Option<string>)
    ensures r == Segment(raw)
  {
    var text := Trim(raw);
    var normalized, previousWasDash := "", false;
    var i := 0;
    while i < |text|
      invariant i <= |text|
      invariant (normalized, previousWasDash) == Dashed(text[..i])
    {
      assert text[..i + 1][..i] == text[..i];
      if IsAlnum(text[i]) {
        normalized := normalized + [LowerChar(text[i])];
        previousWasDash := false;
      } else if normalized != "" && !previousWasDash {
        normalized := normalized + "-";
        previousWasDash := true;
      }
      i := i + 1;
    }
    assert text[..|text|] == text;
    while normalized != "" && normalized[|normalized| - 1] == '-'
      invariant DropDashes(normalized) == DropDashes(Dashed(text).0)
      decreases |normalized|
    {
      normalized := normalized[..|normalized| - 1];
    }
    r := if normalized == "" then None else Some(normalized);
  }

  // ----- what a segment is -----

  predicate IsSegmentChar(c: char) {
    'a' <= c <= 'z' || '0' <= c <= '9' || c == '-'
  }

  /** Lower-case letters, digits and single dashes, the first of them not a dash. */
  predicate IsSegmentStart(s: string) {
    && (forall i | 0 <= i < |s| :: IsSegmentChar(s[i]))
    && (forall i | 0 < i < |s| :: !(s[i - 1] == '-' && s[i] == '-'))
    && (s != "" ==> s[0] != '-')
  }

  predicate EndsInDash(s: string) {
    s != "" && s[|s| - 1] == '-'
  }

  predicate IsSegment(s: string) {
    s != "" && IsSegmentStart(s) && !EndsInDash(s)
  }

  lemma {:induction false} DashedMeaning(raw: string)
    ensures IsSegmentStart(Dashed(raw).0) && Dashed(raw).1 == EndsInDash(Dashed(raw).0)
    ensures Dashed(raw).0 != "" <==> exists i | 0 <= i < |raw| :: IsAlnum(raw[i])
  {
    if raw != "" {
      var front, c := raw[..|raw| - 1], raw[|raw| - 1];
      DashedMeaning(front);
      assert raw == front + [c];
      assert (exists i | 0 <= i < |raw| :: IsAlnum(raw[i])) <==>
             (exists i | 0 <= i < |front| :: IsAlnum(front[i])) || IsAlnum(c);
    }
  }

  lemma DropDashesMeaning(s: string)
    requires IsSegmentStart(s)
    ensures DropDashes(s) == if EndsInDash(s) then s[..|s| - 1] else s
    ensures s != "" ==> IsSegment(DropDashes(s))
  {
    if EndsInDash(s) {
      assert |s| > 1 && s[|s| - 2] != '-';
    }
  }

  lemma {:induction false} DashedOfSegment(s: string)
    requires IsSegmentStart(s)
    ensures Dashed(s) == (s, EndsInDash(s))
  {
    if s != "" {
      DashedOfSegment(s[..|s| - 1]);
      assert s == s[..|s| - 1] + [s[|s| - 1]];
    }
  }

  /**
   A segment holds letters and digits in lower case, single dashes between them and none at
   the ends; there is one exactly when there is a letter or digit; and a segment is its own.
   */
  lemma SegmentMeaning(raw: string)
    ensures Segment(raw).Some? ==> IsSegment(Segment(raw).value)
    ensures Segment(raw).Some? <==> exists i | 0 <= i < |Trim(raw)| :: IsAlnum(Trim(raw)[i])
    ensures IsSegment(raw) ==> Segment(raw) == Some(raw)
  {
    DashedMeaning(Trim(raw));
    DropDashesMeaning(Dashed(Trim(raw)).0);
    if IsSegment(raw) {
      DashedOfSegment(raw);
      DropDashesMeaning(raw);
    }
  }

  function Model(p: Provider): string {
    match Segment(p.model)
    case Some(s) => s
    case None => "auto"
  }

  predicate HasEndpoint(p: Provider) {
    p.endpoint.Some? && Trim(p.endpoint.value) != ""
  }

  function Endpoint(p: Provider): string {
    if HasEndpoint(p) then Norm(p.endpoint.value) else Norm(p.baseUrl) + Norm(p.chatPath)
  }

  function MergeKey(p: Provider): string {
    p.kind + "|" + Endpoint(p) + "|" + Model(p)
  }

  lemma {:induction false} NoBarInDashed(raw: string)
    ensures '|' !in Dashed(raw).0
  {
    if raw != "" {
      NoBarInDashed(raw[..|raw| - 1]);
    }
  }

  lemma {:induction false} NoBarInDropDashes(s: string)
    requires '|' !in s
    ensures '|' !in DropDashes(s)
  {
    if s != "" && s[|s| - 1] == '-' {
      NoBarInDropDashes(s[..|s| - 1]);
    }
  }

  lemma NoBarInModel(p: Provider)
    ensures '|' !in Model(p)
  {
    NoBarInDashed(Trim(p.model));
    NoBarInDropDashes(Dashed(Trim(p.model)).0);
  }

  lemma FirstBar(x: string, s: string, y: string, t: string)
    requires '|' !in x && '|' !in y && x + "|" + s == y + "|" + t
    ensures x == y && s == t
  {
    var w := x + "|" + s;
    assert w[|x|] == '|' && w[|y|] == '|';
    assert forall i | 0 <= i < |x| :: w[i] == x[i] != '|';
    assert forall i | 0 <= i < |y| :: w[i] == y[i] != '|';
    assert x == w[..|x|] && s == w[|x| + 1..] && y == w[..|y|] && t == w[|y| + 1..];
  }

  lemma LastBar(s: string, x: string, t: string, y: string)
    requires '|' !in x && '|' !in y && s + "|" + x == t + "|" + y
    ensures s == t && x == y
  {
    var w := s + "|" + x;
    assert w[|s|] == '|' && w[|t|] == '|';
    assert forall i | |s| < i < |w| :: w[i] == x[i - |s| - 1] != '|';
    assert forall i | |t| < i < |w| :: w[i] == y[i - |t| - 1] != '|';
    assert s == w[..|s|] && x == w[|s| + 1..] && t == w[..|t|] && y == w[|t| + 1..];
  }

  /** Providers share an identity exactly when kind, endpoint and model agree; no bar in an endpoint can forge one. */
  lemma KeyParts(a: Provider, b: Provider)
    ensures MergeKey(a) == MergeKey(b) <==> a.kind == b.kind && Endpoint(a) == Endpoint(b) && Model(a) == Model(b)
  {
    hide Endpoint, Model;
    if MergeKey(a) == MergeKey(b) {
      NoBarInModel(a);
      NoBarInModel(b);
      LastBar(a.kind + "|" + Endpoint(a), Model(a), b.kind + "|" + Endpoint(b), Model(b));
      FirstBar(a.kind, Endpoint(a), b.kind, Endpoint(b));
    }
  }

  // ----- merging -----

  function TrimSlashes(s: string): string {
    if s != "" && s[|s| - 1] == '/' then TrimSlashes(s[..|s| - 1]) else s
  }

  function ApiPath(path: string): string {
    var t := Trim(path);
    if t == "" then "" else if t[0] == '/' then t else "/" + t
  }

  predicate BaseIsDefault(table: Table, p: Provider) {
    Trim(p.baseUrl) == "" || TrimSlashes(Trim(p.baseUrl)) == TrimSlashes(Trim(table(p.kind).baseUrl))
  }

  predicate PathIsDefault(table: Table, p: Provider) {
    Trim(p.chatPath) == "" || ApiPath(p.chatPath) == ApiPath(table(p.kind).chatPath)
  }

  predicate TakesBase(table: Table, a: Provider, b: Provider) {
    a.kind == b.kind && BaseIsDefault(table, a) && !BaseIsDefault(table, b)
  }

  predicate TakesPath(table: Table, a: Provider, b: Provider) {
    a.kind == b.kind && PathIsDefault(table, a) && !PathIsDefault(table, b)
  }

  predicate ModelIsOpen(p: Provider) {
    Trim(p.model) == "" || Lower(p.model) == "auto"
  }

  function Merge(table: Table, a: Provider, b: Provider): Provider {
    Provider(a.kind,
             if ModelIsOpen(a) then b.model else a.model,
             if TakesBase(table, a, b) then b.baseUrl else a.baseUrl,
             if TakesPath(table, a, b) then b.chatPath else a.chatPath,
             if a.endpoint.None? then b.endpoint else a.endpoint)
  }

  /**
   When merging keeps the identity. An endpoint settles it. Otherwise the URL is base and
   path run together, and a part taken over must not disagree with the part that stays.
   */
  predicate KeepsKey(table: Table, a: Provider, b: Provider) {
    || HasEndpoint(a)
    || (a.endpoint.None? && HasEndpoint(b))
    || match (TakesBase(table, a, b), TakesPath(table, a, b)) {
         case (false, false) => true
         case (true, false) => Norm(a.baseUrl) == Norm(b.baseUrl)
         case (false, true) => Norm(a.chatPath) == Norm(b.chatPath)
         case (true, true) =>
           !HasEndpoint(b) || Norm(a.baseUrl) + Norm(a.chatPath) == Norm(b.baseUrl) + Norm(b.chatPath)
       }
  }

  lemma CancelRight(a: string, b: string, c: string)
    ensures a + c == b + c <==> a == b
  {
    if a + c == b + c {
      assert |a| == |b|;
      assert a == (a + c)[..|a|] && b == (b + c)[..|b|];
    }
  }

  lemma CancelLeft(a: string, b: string, c: string)
    ensures c + a == c + b <==> a == b
  {
    if c + a == c + b {
      assert a == (c + a)[|c|..] && b == (c + b)[|c|..];
    }
  }

  /** Merging providers of one identity keeps that identity exactly under the condition above. */
  lemma MergeKeepsKeyExactly(table: Table, a: Provider, b: Provider)
    requires MergeKey(a) == MergeKey(b)
    ensures MergeKey(Merge(table, a, b)) == MergeKey(a) <==> KeepsKey(table, a, b)
  {
    hide MergeKey, Segment, Norm, Trim, Lower, BaseIsDefault, PathIsDefault;
    KeyParts(a, b);
    KeyParts(Merge(table, a, b), a);
    CancelRight(Norm(a.baseUrl), Norm(b.baseUrl), Norm(a.chatPath));
    CancelLeft(Norm(a.chatPath), Norm(b.chatPath), Norm(a.baseUrl));
  }

  // ----- an identity that moves -----

  lemma {:induction false} LowerOfLower(s: string)
    requires forall i | 0 <= i < |s| :: !('A' <= s[i] <= 'Z')
    ensures Lower(s) == s
  {
    if s != "" {
      LowerOfLower(s[1..]);
    }
  }

  lemma NormOfPlain(s: string)
    requires s != "" && !IsWhitespace(s[0]) && !IsWhitespace(s[|s| - 1])
    requires forall i | 0 <= i < |s| :: !('A' <= s[i] <= 'Z')
    ensures Trim(s) == s && Norm(s) == s
  {
    LowerOfLower(s);
  }

  /** One URL cut in two ways, the first with the kind's own base. */
  function CutEarly(kind: KindName, base: string, middle: string, end: string): Provider {
    Provider(kind, "auto", base, middle + end, None)
  }

  function CutLate(kind: KindName, base: string, middle: string, end: string): Provider {
    Provider(kind, "auto", base + middle, end, None)
  }

  predicate IsPlain(s: string) {
    Trim(s) == s && Norm(s) == s
  }

  predicate Resplits(table: Table, kind: KindName, base: string, middle: string, end: string) {
    && IsPlain(base) && IsPlain(middle + end) && IsPlain(base + middle) && IsPlain(end)
    && table(kind).baseUrl == base && middle + end != "" && ApiPath(middle + end) != ApiPath(table(kind).chatPath)
    && base + middle != "" && TrimSlashes(base + middle) != TrimSlashes(base)
  }

  /** The base is taken over, the path stays, and the merged provider has another identity. */
  lemma ResplitMovesKey(table: Table, kind: KindName, base: string, middle: string, end: string)
    requires Resplits(table, kind, base, middle, end)
    ensures var a, b := CutEarly(kind, base, middle, end), CutLate(kind, base, middle, end);
            MergeKey(a) == MergeKey(b) && MergeKey(Merge(table, a, b)) != MergeKey(b)
  {
    hide MergeKey, TakesBase, TakesPath, Norm, Resplits;
    ResplitSharesKey(table, kind, base, middle, end);
    ResplitTakesBase(table, kind, base, middle, end);
    MergeKeepsKeyExactly(table, CutEarly(kind, base, middle, end), CutLate(kind, base, middle, end));
  }

  lemma ResplitSharesKey(table: Table, kind: KindName, base: string, middle: string, end: string)
    requires Resplits(table, kind, base, middle, end)
    ensures var a, b := CutEarly(kind, base, middle, end), CutLate(kind, base, middle, end);
            MergeKey(a) == MergeKey(b) && Norm(a.baseUrl) != Norm(b.baseUrl)
  {
    hide TrimSlashes, Trim, Norm, ApiPath, MergeKey, Lower;
    var early, late, path := base, base + middle, middle + end;
    CutAnywhere(base, middle, end);
    assert early != late;
    SameUrlSharesKey(Provider(kind, "auto", early, path, None), Provider(kind, "auto", late, end, None));
  }

  lemma CutAnywhere(a: string, b: string, c: string)
    ensures a + (b + c) == (a + b) + c
  {}

  lemma SameUrlSharesKey(a: Provider, b: Provider)
    requires a.kind == b.kind && a.model == b.model && a.endpoint.None? && b.endpoint.None?
    requires Norm(a.baseUrl) + Norm(a.chatPath) == Norm(b.baseUrl) + Norm(b.chatPath)
    ensures MergeKey(a) == MergeKey(b)
  {
    hide Norm, Segment;
  }

  lemma ResplitTakesBase(table: Table, kind: KindName, base: string, middle: string, end: string)
    requires Resplits(table, kind, base, middle, end)
    ensures var a, b := CutEarly(kind, base, middle, end), CutLate(kind, base, middle, end);
            TakesBase(table, a, b) && !TakesPath(table, a, b)
  {
    hide Norm, Trim, ApiPath, TrimSlashes;
  }

  function RealOps(table: Table): I.Ops<Provider> {
    I.Ops(MergeKey, (a: Provider, b: Provider) => Merge(table, a, b), (p: Provider) => p.kind,
          (p: Provider) => table(p.kind).id)
  }

  /** The profile of the provider's identity, if there is one, can take it in without moving. */
  predicate CanTakeIn(table: Table, profiles: I.Profiles<Provider>, provider: Provider) {
    forall id | id in profiles && MergeKey(profiles[id].provider) == MergeKey(provider) ::
      KeepsKey(table, profiles[id].provider, provider)
  }

  /** With real merging: a choice imported twice is still one profile exactly under this condition. */
  lemma RealReimportOneExactly(table: Table, before: I.Profiles<Provider>, c: I.Choice<Provider>)
    requires I.DistinctKeys(RealOps(table), before)
    ensures var once := I.InsertAll(RealOps(table), before, [c]).0;
            var twice := I.InsertAll(RealOps(table), once, [c]).0;
            && (twice.Keys == once.Keys <==> CanTakeIn(table, before, c.config))
            && (twice.Keys != once.Keys ==> once.Keys == before.Keys && |twice| == |once| + 1)
  {
    hide MergeKey, Merge, KeepsKey, I.InsertAll;
    var ops := RealOps(table);
    forall id | id in before && MergeKey(before[id].provider) == MergeKey(c.config)
      ensures MergeKey(Merge(table, before[id].provider, c.config)) == MergeKey(c.config) <==>
              KeepsKey(table, before[id].provider, c.config)
    {
      MergeKeepsKeyExactly(table, before[id].provider, c.config);
    }
    assert forall id :: I.Owns(ops, before, id, MergeKey(c.config)) <==>
                        id in before && MergeKey(before[id].provider) == MergeKey(c.config);
    assert I.MergeKeeps(ops, before, c.config) <==> CanTakeIn(table, before, c.config);
    hide I.MergeKeeps, CanTakeIn;
    I.ReimportOneExactly(ops, before, c);
  }

  /** Importing such a provider twice adds it as a second profile, although identities were distinct. */
  lemma ResplitImportsTwice(table: Table, kind: KindName, base: string, middle: string, end: string, choiceId: string)
    requires Resplits(table, kind, base, middle, end)
    ensures var ops := RealOps(table);
            var before := map["main" := I.Profile(true, CutEarly(kind, base, middle, end))];
            var choices := [I.Choice(choiceId, CutLate(kind, base, middle, end))];
            var once := I.InsertAll(ops, before, choices).0;
            && I.DistinctKeys(ops, before)
            && once.Keys == {"main"}
            && |I.InsertAll(ops, once, choices).0| == 2
  {
    hide Resplits, MergeKey, Merge, KeepsKey, I.InsertAll;
    var a, b := CutEarly(kind, base, middle, end), CutLate(kind, base, middle, end);
    ResplitMovesKey(table, kind, base, middle, end);
    MergeKeepsKeyExactly(table, a, b);
    var before := map["main" := I.Profile(true, a)];
    assert before["main"].provider == a && !CanTakeIn(table, before, b);
    RealReimportOneExactly(table, before, I.Choice(choiceId, b));
  }

  const OPENAI_BASE := "https://api.openai.com"
  const OPENAI_PATH := "/v1/chat/completions"

  /** The built-in profile of the kind openai with a custom path, and the same URL cut one step later. */
  lemma ResplitExample(table: Table)
    requires table("openai") == KindProfile("openai", OPENAI_BASE, OPENAI_PATH)
    ensures var ops := RealOps(table);
            var before := map["main" := I.Profile(true, Provider("openai", "auto", OPENAI_BASE, "/v2" + "/x", None))];
            var choices := [I.Choice("openai", Provider("openai", "auto", OPENAI_BASE + "/v2", "/x", None))];
            var once := I.InsertAll(ops, before, choices).0;
            once.Keys == {"main"} && |I.InsertAll(ops, once, choices).0| == 2
  {
    hide IsLowerText, Resplits, Merge, MergeKey, I.InsertAll;
    OpenAiTexts();
    LowerTextsResplit(table, "openai", OPENAI_BASE, "/v2", "/x");
    ResplitImportsTwice(table, "openai", OPENAI_BASE, "/v2", "/x", "openai");
  }

  /** Text in lower case that neither starts nor ends with white space, nor ends with a slash. */
  predicate IsLowerText(s: string) {
    && s != "" && !IsWhitespace(s[0]) && !IsWhitespace(s[|s| - 1]) && s[|s| - 1] != '/'
    && forall i | 0 <= i < |s| :: !('A' <= s[i] <= 'Z')
  }

  lemma OpenAiTexts()
    ensures IsLowerText(OPENAI_BASE) && IsLowerText("/v2") && IsLowerText("/x") && IsLowerText(OPENAI_PATH)
    ensures OPENAI_PATH[0] == '/'
  {
    assert IsLowerText(OPENAI_BASE);
    assert IsLowerText("/v2") && IsLowerText("/x");
  }

  lemma LowerTextsResplit(table: Table, kind: KindName, base: string, middle: string, end: string)
    requires IsLowerText(base) && IsLowerText(middle) && IsLowerText(end) && IsLowerText(table(kind).chatPath)
    requires middle[0] == '/' && table(kind).chatPath[0] == '/' && |middle + end| != |table(kind).chatPath|
    requires table(kind).baseUrl == base
    ensures Resplits(table, kind, base, middle, end)
  {
    hide Norm, Trim, IsLowerText, ApiPath, TrimSlashes, IsPlain;
    LowerTextAppend(base, middle);
    LowerTextAppend(middle, end);
    LowerTextIsPlain(base);
    LowerTextIsPlain(end);
    LowerTextIsPlain(base + middle);
    LowerTextIsPlain(middle + end);
    LowerTextIsPlain(table(kind).chatPath);
  }

  lemma LowerTextAppend(a: string, b: string)
    requires IsLowerText(a) && IsLowerText(b)
    ensures IsLowerText(a + b) && a + b != a && (a + b)[0] == a[0]
  {}

  lemma LowerTextIsPlain(s: string)
    requires IsLowerText(s)
    ensures s != "" && IsPlain(s) && TrimSlashes(s) == s && (s[0] == '/' ==> ApiPath(s) == s)
  {
    NormOfPlain(s);
  }

  // ----- one default per kind -----

  /** Merging never changes a provider's kind, so every import keeps exactly one default per kind. */
  lemma RealImportKeepsOneDefaultPerKind(table: Table, before: I.Profiles<Provider>, choices: seq<I.Choice<Provider>>,
                                         active: Option<string>, after: I.Profiles<Provider>)
    requires I.OneDefaultPerKind(RealOps(table), before)
    requires var inserted := I.InsertAll(RealOps(table), before, choices).0;
             if active.Some? && active.value in inserted
             then Apply.OnlyDefault(RealOps(table), inserted, after, active.value) else after == inserted
    ensures I.OneDefaultPerKind(RealOps(table), after)
  {
    hide I.OneDefaultPerKind, I.InsertAll, Apply.OnlyDefault, MergeKey;
    assert I.KeepsKind(RealOps(table));
    Apply.ImportKeepsOneDefaultPerKind(RealOps(table), before, choices, active, after);
  }

  // ----- imports whose identities stay put -----

  /** How the providers of one identity write their URL: the base, and whether an endpoint may stand for it. */
  datatype Style = Style(base: string, endpoints: bool)

  predicate BlankEndpoint(p: Provider) {
    p.endpoint.Some? && !HasEndpoint(p)
  }

  /** The provider writes its URL in the style `f` gives for its identity. */
  predicate InStyle(f: string -> Style, p: Provider) {
    var style := f(MergeKey(p));
    && (HasEndpoint(p) ==> style.endpoints)
    && (BlankEndpoint(p) ==> !style.endpoints)
    && (!HasEndpoint(p) ==> style.base == Norm(p.baseUrl))
  }

  lemma RealOpsKeepIdentity(table: Table, f: string -> Style)
    ensures I.KeepsIdentity(RealOps(table), (p: Provider) => InStyle(f, p))
  {
    forall a, b | InStyle(f, a) && InStyle(f, b) && MergeKey(a) == MergeKey(b)
      ensures InStyle(f, Merge(table, a, b)) && MergeKey(Merge(table, a, b)) == MergeKey(a)
    {
      StyledMergeKeeps(table, f, a, b);
    }
    hide InStyle, MergeKey;
  }

  lemma StyledMergeKeeps(table: Table, f: string -> Style, a: Provider, b: Provider)
    requires InStyle(f, a) && InStyle(f, b) && MergeKey(a) == MergeKey(b)
    ensures var m := Merge(table, a, b); InStyle(f, m) && MergeKey(m) == MergeKey(a)
  {
    hide MergeKey, Segment, Norm, Trim, Lower, BaseIsDefault, PathIsDefault;
    KeyParts(a, b);
    if !HasEndpoint(a) && !HasEndpoint(b) {
      CancelLeft(Norm(a.chatPath), Norm(b.chatPath), Norm(a.baseUrl));
    }
    MergeKeepsKeyExactly(table, a, b);
  }

  /** No two providers of one identity cut their URL differently, or have one a blank and one a real endpoint. */
  predicate SplitAlike(ps: set<Provider>) {
    forall p, q | p in ps && q in ps && MergeKey(p) == MergeKey(q) ::
      && (!HasEndpoint(p) && !HasEndpoint(q) ==> Norm(p.baseUrl) == Norm(q.baseUrl))
      && !(BlankEndpoint(p) && HasEndpoint(q))
  }

  ghost function StyleIn(ps: set<Provider>, key: string): Style {
    Style(if exists p | p in ps :: MergeKey(p) == key && !HasEndpoint(p)
          then
            var p :| p in ps && MergeKey(p) == key && !HasEndpoint(p);
            Norm(p.baseUrl)
          else "",
          exists p | p in ps :: MergeKey(p) == key && HasEndpoint(p))
  }

  lemma SplitAlikeInStyle(ps: set<Provider>, p: Provider)
    requires SplitAlike(ps) && p in ps
    ensures InStyle(key => StyleIn(ps, key), p)
  {
    hide Norm, MergeKey, HasEndpoint;
    assert StyleIn(ps, MergeKey(p)).endpoints <==> exists q | q in ps :: MergeKey(q) == MergeKey(p) && HasEndpoint(q);
    if !HasEndpoint(p) {
      assert StyleIn(ps, MergeKey(p)).base == Norm(p.baseUrl);
    }
  }

  function AllProviders(profiles: I.Profiles<Provider>, choices: seq<I.Choice<Provider>>): set<Provider> {
    (set id | id in profiles :: profiles[id].provider) + (set c | c in choices :: c.config)
  }

  /** With real merging: importing twice is stable whenever providers of one identity write their URL alike. */
  lemma RealReimportIsStable(table: Table, before: I.Profiles<Provider>, choices: seq<I.Choice<Provider>>)
    requires SplitAlike(AllProviders(before, choices))
    requires I.DistinctKeys(RealOps(table), before)
    ensures var ops := RealOps(table);
            var (after, ids) := I.InsertAll(ops, before, choices);
            var (again, ids') := I.InsertAll(ops, after, choices);
            again.Keys == after.Keys && ids' == ids
  {
    hide InStyle, SplitAlike, MergeKey, Merge, StyleIn, I.InsertAll;
    var ps := AllProviders(before, choices);
    var f: string -> Style := key => StyleIn(ps, key);
    var ok := (p: Provider) => InStyle(f, p);
    RealOpsKeepIdentity(table, f);
    forall id | id in before ensures ok(before[id].provider) {
      SplitAlikeInStyle(ps, before[id].provider);
    }
    forall i | 0 <= i < |choices| ensures ok(choices[i].config) {
      assert choices[i] in choices;
      SplitAlikeInStyle(ps, choices[i].config);
    }
    I.ReimportIsStable(RealOps(table), ok, before, choices);
  }
}
