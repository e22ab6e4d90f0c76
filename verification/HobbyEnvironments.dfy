/**
 The attestation of a hobby environment: what was planned for a deployment, and the metadata the
 deployment service reported for it, held together by one digest.

 JSON texts are the trees they stand for. `AttestationBinds` shows which plan and metadata an attestation
 is verified for: those it was made from, or others of the same digest. `OnePhase` is why the phase, which
 is not part of the digest, needs no place in it.
 */
module HobbyEnvironments {
  import opened Decimals
  import opened Text
  import opened Wrappers

  // ---- Entities ----

  datatype Surface = Public | Ops

  datatype Phase = GeneratedOriginScansOff | CanonicalOriginScansOff | CanonicalOriginScansOn

  datatype Sensitivity = Plain | Sensitive

  datatype Variable = Variable(name: string, value: string, sensitivity: Sensitivity)

  datatype Plan = Plan(surface: Surface, phase: Phase, variables: seq<Variable>, names: seq<string>)

  datatype Kind = Encrypted | SensitiveKind

  /** Target, branch, configuration and custom environments have one possible value each. */
  datatype RemoteVariable = RemoteVariable(name: string, id: string, updatedAt: string, kind: Kind)

  datatype Snapshot = Snapshot(surface: Surface, projectId: string, variables: seq<RemoteVariable>)

  /** What the digest is of. */
  datatype Material = Material(
    surface: Surface, projectId: string, variables: seq<Variable>, remote: seq<RemoteVariable>)

  datatype Attestation = Attestation(surface: Surface, projectId: string, remote: seq<RemoteVariable>, proof: string)

  /** A number is held as the text `String` gives for it. */
  datatype Json =
    | Null
    | Bool(value: bool)
    | Num(text: string)
    | Str(s: string)
    | Arr(items: seq<Json>)
    | Obj(fields: map<string, Json>)

  /** Digests, locale order, URL parsing and the checks that do not depend on the phase. */
  datatype Setting = Setting(
    hash: Material -> string,
    compare: (string, string) -> int,
    originOf: string -> Option<string>,
    otherChecks: (Surface, map<string, string>) -> bool,
    allowlist: Surface -> seq<string>)

  // ---- The plan ----

  const GENERATED_ORIGIN := "https://trendsfast.vercel.app"
  const CANONICAL_ORIGIN := "https://trendsfast.com"
  const OPS_ORIGIN := "https://trendsfast-ops.vercel.app"

  function PublicOrigin(phase: Phase): string {
    if phase == GeneratedOriginScansOff then GENERATED_ORIGIN else CANONICAL_ORIGIN
  }

  function ScansEnabled(phase: Phase): string {
    if phase == CanonicalOriginScansOn then "true" else "false"
  }

  function ProjectId(surface: Surface): string {
    if surface == Public then "prj_nYn6zjWW4BcKd03QaVO6LTOF3CSC" else "prj_EYAjX2Nyd1jUXSjfWVTVoI320nnU"
  }

  function SurfaceName(surface: Surface): string {
    if surface == Public then "public" else "ops"
  }

  /** `Object.fromEntries`: a later entry of a name replaces an earlier one. */
  function ValuesOf(variables: seq<Variable>): map<string, string> {
    if variables == [] then map[]
    else
      var last := variables[|variables| - 1];
      ValuesOf(variables[..|variables| - 1])[last.name := last.value]
  }

  predicate Holds(values: map<string, string>, name: string, value: string) {
    name in values && values[name] == value
  }

  predicate IsOrigin(setting: Setting, values: map<string, string>, name: string, origin: string) {
    setting.originOf(if name in values then values[name] else "") == Some(origin)
  }

  /** `assertPlan`, with the checks of `validateSelectedValues` that read the phase. */
  predicate PlanIsValid(setting: Setting, p: Plan) {
    var values := ValuesOf(p.variables);
    && |p.variables| == |p.names| && (forall i :: 0 <= i < |p.names| ==> p.names[i] == p.variables[i].name)
    && Holds(values, "PUBLIC_SCANS_ENABLED", ScansEnabled(p.phase))
    && Holds(values, "TRENDSFAST_SURFACE", SurfaceName(p.surface))
    && IsOrigin(setting, values, "APP_URL", if p.surface == Public then PublicOrigin(p.phase) else OPS_ORIGIN)
    && IsOrigin(setting, values, "PUBLIC_APP_URL", PublicOrigin(p.phase))
    && setting.otherChecks(p.surface, values)
  }

  /** The values of a valid plan determine its phase, and so the whole plan. */
  lemma OnePhase(setting: Setting, p: Plan, q: Plan)
    requires PlanIsValid(setting, p) && PlanIsValid(setting, q)
    requires p.surface == q.surface && p.variables == q.variables
    ensures p == q
  {
    assert p.names == q.names;
    assert |GENERATED_ORIGIN| != |CANONICAL_ORIGIN|;
    assert "true"[0] != "false"[0];
  }

  // ---- What the deployment service reports ----

  function Field(j: Json, name: string): Option<Json> {
    if j.Obj? && name in j.fields then Some(j.fields[name]) else None
  }

  function TextField(j: Json, name: string, other: string): Option<Json> {
    match Field(j, name)
    case Some(Str(_)) => Field(j, name)
    case _ => Field(j, other)
  }

  predicate IsText(j: Option<Json>) {
    j.Some? && j.value.Str? && j.value.s != ""
  }

  predicate IsNullOrAbsent(j: Option<Json>) {
    j == None || j == Some(Null)
  }

  const PRODUCTION := Arr([Str("production")])

  /** `normalizedUpdatedAt`; a number that is not finite is refused. */
  function UpdatedAt(j: Option<Json>): Option<string> {
    match j
    case Some(Str(s)) => if Trim(s) == "" then None else Some(s)
    case Some(Num(t)) => if t == "Infinity" || t == "-Infinity" then None else Some(t)
    case _ => None
  }

  function KindOf(j: Option<Json>): Option<Kind> {
    if j == Some(Str("encrypted")) then Some(Encrypted)
    else if j == Some(Str("sensitive")) then Some(SensitiveKind)
    else None
  }

  /** One entry, if it is complete and targets production only. */
  function Entry(e: Json): (r: Option<RemoteVariable>)
    ensures r.Some? ==> r.value.name != "" && r.value.id != "" && r.value.updatedAt != ""
  {
    var name, id := TextField(e, "key", "name"), TextField(e, "id", "_id");
    var custom := Field(e, "customEnvironmentIds");
    var updatedAt, kind := UpdatedAt(Field(e, "updatedAt")), KindOf(Field(e, "type"));
    if IsText(name) && IsText(id)
      && Field(e, "decrypted") == Some(Bool(false)) && Field(e, "target") == Some(PRODUCTION)
      && IsNullOrAbsent(Field(e, "gitBranch")) && IsNullOrAbsent(Field(e, "configurationId"))
      && (IsNullOrAbsent(custom) || custom == Some(Arr([]))) && kind.Some? && updatedAt.Some? && updatedAt.value != ""
    then Some(RemoteVariable(name.value.s, id.value.s, updatedAt.value, kind.value))
    else None
  }

  /** The listing is an object that hides nothing and has one page. */
  predicate IsComplete(j: Json) {
    && j.Obj? && j.fields.Keys <= {"envs", "hiddenProductionEnvCount", "pagination"}
    && "envs" in j.fields && j.fields["envs"].Arr?
    && Field(j, "hiddenProductionEnvCount") == Some(Num("0"))
    && ("pagination" in j.fields ==>
        var page := j.fields["pagination"];
        && page.Obj? && page.fields.Keys == {"count", "next", "prev"}
        && page.fields["count"] == Num(Shown(|j.fields["envs"].items|))
        && page.fields["next"] == Null && page.fields["prev"] == Null)
  }

  predicate DistinctNames(vs: seq<RemoteVariable>) {
    forall i, k :: 0 <= i < k < |vs| ==> vs[i].name != vs[k].name
  }

  /** The order `localeCompare` gives, in which different texts may be equal. */
  ghost predicate IsOrder(compare: (string, string) -> int) {
    && (forall a, b :: compare(a, b) <= 0 || compare(b, a) <= 0)
    && (forall a, b, c :: compare(a, b) <= 0 && compare(b, c) <= 0 ==> compare(a, c) <= 0)
  }

  predicate Sorted(compare: (string, string) -> int, vs: seq<RemoteVariable>) {
    forall i, k :: 0 <= i < k < |vs| ==> compare(vs[i].name, vs[k].name) <= 0
  }

  function Insert(compare: (string, string) -> int, v: RemoteVariable, vs: seq<RemoteVariable>)
    : (r: seq<RemoteVariable>)
    ensures multiset(r) == multiset(vs) + multiset{v}
  {
    if vs == [] || compare(v.name, vs[0].name) <= 0 then [v] + vs
    else
      assert vs == [vs[0]] + vs[1..];
      [vs[0]] + Insert(compare, v, vs[1..])
  }

  function Sort(compare: (string, string) -> int, vs: seq<RemoteVariable>): (r: seq<RemoteVariable>)
    ensures multiset(r) == multiset(vs)
  {
    if vs == [] then []
    else
      assert vs == [vs[0]] + vs[1..];
      Insert(compare, vs[0], Sort(compare, vs[1..]))
  }

  lemma Prepended(compare: (string, string) -> int, v: RemoteVariable, vs: seq<RemoteVariable>)
    requires Sorted(compare, vs) && forall x <- vs :: compare(v.name, x.name) <= 0
    ensures Sorted(compare, [v] + vs)
  {}

  lemma {:induction false} InsertSorted(compare: (string, string) -> int, v: RemoteVariable, vs: seq<RemoteVariable>)
    requires IsOrder(compare) && Sorted(compare, vs)
    ensures Sorted(compare, Insert(compare, v, vs))
  {
    if vs == [] || compare(v.name, vs[0].name) <= 0 {
      forall x | x in vs ensures compare(v.name, x.name) <= 0 {
        assert x != vs[0] ==> compare(vs[0].name, x.name) <= 0;
      }
      Prepended(compare, v, vs);
    } else {
      InsertSorted(compare, v, vs[1..]);
      var rest := Insert(compare, v, vs[1..]);
      forall x | x in rest ensures compare(vs[0].name, x.name) <= 0 {
        assert x in multiset(rest);
        assert x == v || x in vs[1..];
      }
      Prepended(compare, vs[0], rest);
    }
  }

  lemma {:induction false} SortSorted(compare: (string, string) -> int, vs: seq<RemoteVariable>)
    requires IsOrder(compare)
    ensures Sorted(compare, Sort(compare, vs))
  {
    if vs != [] {
      SortSorted(compare, vs[1..]);
      InsertSorted(compare, vs[0], Sort(compare, vs[1..]));
    }
  }

  const INCOMPLETE := "Vercel environment metadata was hidden, incomplete or malformed"

  function Parsed(entries: seq<Json>): seq<Option<RemoteVariable>> {
    seq(|entries|, i requires 0 <= i < |entries| => Entry(entries[i]))
  }

  /** All the entries of a complete listing, each once and in order. */
  ghost predicate IsSnapshotOf(setting: Setting, surface: Surface, j: Json, s: Snapshot) {
    && IsComplete(j) && s.surface == surface && s.projectId == ProjectId(surface)
    && (forall v :: v in s.variables <==> exists e <- j.fields["envs"].items :: Entry(e) == Some(v))
    && DistinctNames(s.variables)
    && (IsOrder(setting.compare) ==> Sorted(setting.compare, s.variables))
  }

  /** `parseRemoteEnvironment` */
  method ParseRemoteEnvironment(setting: Setting, surface: Surface, j: Json) returns (r: Result<Snapshot>)
    ensures r.Ok? <==>
      && IsComplete(j)
      && (forall e <- j.fields["envs"].items :: Entry(e).Some?)
      && (forall i, k :: 0 <= i < k < |j.fields["envs"].items| ==>
        Entry(j.fields["envs"].items[i]).value.name != Entry(j.fields["envs"].items[k]).value.name)
    ensures r.Ok? ==> IsSnapshotOf(setting, surface, j, r.value)
  {
    hide Entry, Sort, Sorted, ProjectId, IsOrder;
    if !IsComplete(j) {
      return Err(INCOMPLETE);
    }
    var entries := j.fields["envs"].items;
    var result: seq<RemoteVariable> := [];
    var names: set<string> := {};
    for i := 0 to |entries|
      invariant |result| == i && forall k :: 0 <= k < i ==> Entry(entries[k]) == Some(result[k])
      invariant names == set v | v in result :: v.name
      invariant DistinctNames(result)
    {
      var entry := Entry(entries[i]);
      if entry == None || entry.value.name in names {
        return Err(INCOMPLETE);
      }
      result, names := result + [entry.value], names + {entry.value.name};
    }
    var sorted := Sort(setting.compare, result);
    if IsOrder(setting.compare) {
      SortSorted(setting.compare, result);
    }
    SameNames(sorted, result);
    return Ok(Snapshot(surface, ProjectId(surface), sorted));
  }

  lemma SameNames(a: seq<RemoteVariable>, b: seq<RemoteVariable>)
    requires multiset(a) == multiset(b) && DistinctNames(b)
    ensures forall v :: v in a <==> v in b
    ensures DistinctNames(a)
  {
    assert forall v :: v in a <==> v in multiset(a);
    assert forall v :: v in b <==> v in multiset(b);
    forall i, k | 0 <= i < k < |a| ensures a[i].name != a[k].name {
      if a[i].name == a[k].name {
        assert a[i] in b && a[k] in b;
        assert a[i] == a[k];
        assert a == a[..i] + [a[i]] + a[i + 1..k] + [a[k]] + a[k + 1..];
        assert multiset(b)[a[i]] >= 2;
        AtMostOnce(b, a[i]);
      }
    }
  }

  lemma {:induction false} AtMostOnce(b: seq<RemoteVariable>, v: RemoteVariable)
    requires DistinctNames(b)
    ensures multiset(b)[v] <= 1
  {
    if b != [] {
      AtMostOnce(b[1..], v);
      assert b == [b[0]] + b[1..];
      if v == b[0] {
        assert v !in b[1..];
      }
    }
  }

  // ---- The reported metadata against the plan ----

  function ByName(vs: seq<RemoteVariable>): (m: map<string, RemoteVariable>)
    ensures m.Keys == set v | v in vs :: v.name
  {
    if vs == [] then map[]
    else
      var last := vs[|vs| - 1];
      assert vs == vs[..|vs| - 1] + [last];
      ByName(vs[..|vs| - 1])[last.name := last]
  }

  function PlanByName(vs: seq<Variable>): map<string, Variable> {
    if vs == [] then map[] else PlanByName(vs[..|vs| - 1])[vs[|vs| - 1].name := vs[|vs| - 1]]
  }

  function ExpectedKind(v: Variable): Kind {
    if v.sensitivity == Plain then Encrypted else SensitiveKind
  }

  /** `assertProductionEnvironmentMetadata` */
  predicate MetadataMatches(setting: Setting, p: Plan, s: Snapshot, requireExactNames: bool) {
    var remote, planned := ByName(s.variables), PlanByName(p.variables);
    && s.surface == p.surface && s.projectId == ProjectId(p.surface)
    && (forall name <- remote :: name in setting.allowlist(p.surface))
    && (forall name <- remote | name in planned :: remote[name].kind == ExpectedKind(planned[name]))
    && (requireExactNames ==> |remote| == |p.names| && forall name <- p.names :: name in remote)
  }

  // ---- The attestation ----

  const INVALID_PLAN := "The Hobby environment plan is inconsistent"
  const METADATA_MISMATCH := "Vercel environment metadata does not match the plan"
  const MALFORMED := "The private Hobby environment attestation was malformed"
  const NOT_CURRENT := "The private Hobby environment attestation does not match current Vercel metadata"
  const NOT_EXACT := "The private Hobby environment attestation does not match the exact local plan"

  function MaterialOf(p: Plan, s: Snapshot): Material {
    Material(p.surface, ProjectId(p.surface), p.variables, s.variables)
  }

  function KindName(kind: Kind): string {
    if kind == Encrypted then "encrypted" else "sensitive"
  }

  function RemoteJson(v: RemoteVariable): Json {
    Obj(map["name" := Str(v.name), "id" := Str(v.id), "updatedAt" := Str(v.updatedAt), "type" := Str(KindName(v.kind)),
            "target" := PRODUCTION, "gitBranch" := Null, "configurationId" := Null, "customEnvironmentIds" := Arr([])])
  }

  function RemoteJsons(vs: seq<RemoteVariable>): seq<Json> {
    seq(|vs|, i requires 0 <= i < |vs| => RemoteJson(vs[i]))
  }

  /** `createHobbyEnvironmentAttestation` */
  function Create(setting: Setting, p: Plan, s: Snapshot): Result<Json> {
    if !PlanIsValid(setting, p) then Err(INVALID_PLAN)
    else if !MetadataMatches(setting, p, s, true) then Err(METADATA_MISMATCH)
    else
      Ok(AttestationJson(SurfaceName(p.surface), ProjectId(p.surface), RemoteJsons(s.variables),
                         setting.hash(MaterialOf(p, s))))
  }

  function AttestationJson(surface: string, projectId: string, remote: seq<Json>, proof: string): Json {
    Obj(map["schemaVersion" := Num("1"), "surface" := Str(surface), "projectId" := Str(projectId),
            "remoteVariables" := Arr(remote), "proofSha256" := Str(proof)])
  }

  /** `parseAttestedRemoteVariable` */
  function ParseVariable(j: Json): Option<RemoteVariable> {
    var kind := KindOf(Field(j, "type"));
    if j.Obj? && j.fields.Keys == VARIABLE_KEYS
      && IsText(Some(j.fields["name"])) && IsText(Some(j.fields["id"])) && IsText(Some(j.fields["updatedAt"]))
      && kind.Some? && j.fields["target"] == PRODUCTION && j.fields["gitBranch"] == Null
      && j.fields["configurationId"] == Null && j.fields["customEnvironmentIds"] == Arr([])
    then Some(RemoteVariable(j.fields["name"].s, j.fields["id"].s, j.fields["updatedAt"].s, kind.value))
    else None
  }

  function ParseVariables(items: seq<Json>): Option<seq<RemoteVariable>> {
    if items == [] then Some([])
    else
      match (ParseVariable(items[0]), ParseVariables(items[1..]))
      case (Some(v), Some(vs)) => Some([v] + vs)
      case _ => None
  }

  /** Of distinct names, each before the next. */
  predicate InOrder(compare: (string, string) -> int, vs: seq<RemoteVariable>) {
    DistinctNames(vs) && forall i :: 0 < i < |vs| ==> compare(vs[i - 1].name, vs[i].name) < 0
  }

  predicate IsHex(c: char) {
    'a' <= c <= 'f' || '0' <= c <= '9'
  }

  predicate IsProof(text: string) {
    |text| == 64 && forall c <- text :: IsHex(c)
  }

  /** `parseHobbyEnvironmentAttestation` */
  function Parse(setting: Setting, j: Json): Option<Attestation> {
    if j.Obj? && j.fields.Keys == ATTESTATION_KEYS
      && j.fields["schemaVersion"] == Num("1")
      && (j.fields["surface"] == Str("public") || j.fields["surface"] == Str("ops"))
      && j.fields["projectId"].Str? && j.fields["remoteVariables"].Arr? && j.fields["proofSha256"].Str?
      && IsProof(j.fields["proofSha256"].s)
    then
      match ParseVariables(j.fields["remoteVariables"].items)
      case Some(vs) =>
        if InOrder(setting.compare, vs)
        then Some(Attestation(if j.fields["surface"] == Str("public") then Public else Ops,
                              j.fields["projectId"].s, vs, j.fields["proofSha256"].s))
        else None
      case None => None
    else None
  }

  /** `verifyHobbyEnvironmentAttestation`: why it refuses, if it does. */
  function Refusal(setting: Setting, p: Plan, s: Snapshot, source: Json): Option<string> {
    if !PlanIsValid(setting, p) then Some(INVALID_PLAN)
    else if !MetadataMatches(setting, p, s, true) then Some(METADATA_MISMATCH)
    else
      match Parse(setting, source)
      case None => Some(MALFORMED)
      case Some(a) =>
        if a.surface != p.surface || a.projectId != ProjectId(p.surface) || a.remote != s.variables
        then Some(NOT_CURRENT)
        else if a.proof != setting.hash(MaterialOf(p, s)) then Some(NOT_EXACT)
        else None
  }

  predicate IsPresent(v: RemoteVariable) {
    v.name != "" && v.id != "" && v.updatedAt != ""
  }

  predicate AllPresent(vs: seq<RemoteVariable>) {
    forall v <- vs :: IsPresent(v)
  }

  /** What `parseAttestedRemoteVariable` and the order demand. */
  predicate WellFormed(compare: (string, string) -> int, vs: seq<RemoteVariable>) {
    InOrder(compare, vs) && AllPresent(vs)
  }

  const VARIABLE_KEYS :=
    {"configurationId", "customEnvironmentIds", "gitBranch", "id", "name", "target", "type", "updatedAt"}

  lemma RemoteFields(v: RemoteVariable)
    ensures var j := RemoteJson(v);
      && j.Obj? && j.fields.Keys == VARIABLE_KEYS
      && j.fields["name"] == Str(v.name) && j.fields["id"] == Str(v.id) && j.fields["updatedAt"] == Str(v.updatedAt)
      && j.fields["type"] == Str(KindName(v.kind)) && j.fields["target"] == PRODUCTION
      && j.fields["gitBranch"] == Null && j.fields["configurationId"] == Null
      && j.fields["customEnvironmentIds"] == Arr([])
  {}

  lemma KindIsRead(kind: Kind)
    ensures KindOf(Some(Str(KindName(kind)))) == Some(kind)
  {
    assert "encrypted"[0] != "sensitive"[0];
  }

  lemma VariableParses(v: RemoteVariable)
    ensures ParseVariable(RemoteJson(v)) == if IsPresent(v) then Some(v) else None
  {
    hide RemoteJson, KindOf, KindName;
    RemoteFields(v);
    KindIsRead(v.kind);
  }

  lemma {:induction false} VariablesParse(vs: seq<RemoteVariable>)
    ensures ParseVariables(RemoteJsons(vs)) ==
      if AllPresent(vs) then Some(vs) else None
  {
    hide ParseVariable, RemoteJson, IsPresent;
    if vs != [] {
      VariableParses(vs[0]);
      VariablesParse(vs[1..]);
      assert RemoteJsons(vs)[1..] == RemoteJsons(vs[1..]);
      assert vs == [vs[0]] + vs[1..];
    }
  }

  const ATTESTATION_KEYS := {"projectId", "proofSha256", "remoteVariables", "schemaVersion", "surface"}

  lemma AttestationFields(surface: string, projectId: string, remote: seq<Json>, proof: string)
    ensures var j := AttestationJson(surface, projectId, remote, proof);
      && j.Obj? && j.fields.Keys == ATTESTATION_KEYS
      && j.fields["schemaVersion"] == Num("1") && j.fields["surface"] == Str(surface)
      && j.fields["projectId"] == Str(projectId) && j.fields["remoteVariables"] == Arr(remote)
      && j.fields["proofSha256"] == Str(proof)
  {}

  lemma SurfaceIsRead(surface: Surface)
    ensures SurfaceName(surface) == "public" || SurfaceName(surface) == "ops"
    ensures surface == if SurfaceName(surface) == "public" then Public else Ops
  {
    assert "public"[0] != "ops"[0];
  }

  lemma AttestationParses(setting: Setting, surface: Surface, projectId: string, remote: seq<Json>, proof: string)
    requires IsProof(proof)
    ensures Parse(setting, AttestationJson(SurfaceName(surface), projectId, remote, proof)) ==
      match ParseVariables(remote)
      case Some(vs) => if InOrder(setting.compare, vs) then Some(Attestation(surface, projectId, vs, proof)) else None
      case None => None
  {
    hide AttestationJson, ParseVariables, InOrder, IsProof, SurfaceName;
    AttestationFields(SurfaceName(surface), projectId, remote, proof);
    SurfaceIsRead(surface);
  }

  /** An attestation that is created can be read, and then as it was written, exactly when the metadata is in order. */
  lemma CreatedParses(setting: Setting, p: Plan, s: Snapshot)
    requires Create(setting, p, s).Ok? && IsProof(setting.hash(MaterialOf(p, s)))
    ensures Parse(setting, Create(setting, p, s).value) ==
      if WellFormed(setting.compare, s.variables)
      then Some(Attestation(p.surface, ProjectId(p.surface), s.variables, setting.hash(MaterialOf(p, s))))
      else None
  {
    hide PlanIsValid, MetadataMatches, Parse, ParseVariables, RemoteJsons, IsProof, InOrder, AllPresent;
    VariablesParse(s.variables);
    AttestationParses(setting, p.surface, ProjectId(p.surface), RemoteJsons(s.variables),
                      setting.hash(MaterialOf(p, s)));
  }

  predicate TellsApart(compare: (string, string) -> int, names: seq<string>) {
    forall a <- names, b <- names | a != b :: compare(a, b) != 0
  }

  /** Metadata that was parsed and matches a plan is in order, if the order tells allowed names apart. */
  lemma ParsedIsInOrder(setting: Setting, p: Plan, s: Snapshot)
    requires Sorted(setting.compare, s.variables) && DistinctNames(s.variables)
    requires MetadataMatches(setting, p, s, true) && TellsApart(setting.compare, setting.allowlist(p.surface))
    ensures InOrder(setting.compare, s.variables)
  {
    hide PlanByName, ExpectedKind, ProjectId;
    forall i | 0 < i < |s.variables| ensures setting.compare(s.variables[i - 1].name, s.variables[i].name) < 0 {
      var a, b := s.variables[i - 1], s.variables[i];
      assert a.name in ByName(s.variables) && b.name in ByName(s.variables);
    }
  }

  lemma VerifiedExactly(setting: Setting, p: Plan, s: Snapshot, q: Plan, t: Snapshot)
    requires Create(setting, p, s).Ok? && IsProof(setting.hash(MaterialOf(p, s)))
    requires WellFormed(setting.compare, s.variables)
    ensures Refusal(setting, q, t, Create(setting, p, s).value) == None <==>
      && PlanIsValid(setting, q) && MetadataMatches(setting, q, t, true)
      && q.surface == p.surface && t.variables == s.variables
      && setting.hash(MaterialOf(q, t)) == setting.hash(MaterialOf(p, s))
  {
    hide PlanIsValid, MetadataMatches, Parse, AttestationJson, IsProof, WellFormed, MaterialOf;
    CreatedParses(setting, p, s);
  }

  lemma OneSnapshot(setting: Setting, p: Plan, s: Snapshot, q: Plan, t: Snapshot)
    requires MetadataMatches(setting, p, s, true) && MetadataMatches(setting, q, t, true)
    ensures q.surface == p.surface && t.variables == s.variables <==> t == s
  {}

  /**
   An attestation is verified for the plan and metadata it was made from, and for no others, unless the
   same metadata and different variables have the same digest.
   */
  lemma AttestationBinds(setting: Setting, p: Plan, s: Snapshot, q: Plan, t: Snapshot)
    requires Create(setting, p, s).Ok? && IsProof(setting.hash(MaterialOf(p, s)))
    requires WellFormed(setting.compare, s.variables)
    ensures Refusal(setting, q, t, Create(setting, p, s).value) == None <==>
      || (q == p && t == s)
      || (PlanIsValid(setting, q) && MetadataMatches(setting, q, t, true) && t == s && q.surface == p.surface
          && q.variables != p.variables && MaterialOf(q, t) != MaterialOf(p, s)
          && setting.hash(MaterialOf(q, t)) == setting.hash(MaterialOf(p, s)))
  {
    hide PlanIsValid, MetadataMatches, Refusal, IsProof, WellFormed, AttestationJson;
    VerifiedExactly(setting, p, s, q, t);
    assert PlanIsValid(setting, p) && MetadataMatches(setting, p, s, true);
    if MetadataMatches(setting, q, t, true) {
      OneSnapshot(setting, p, s, q, t);
    }
    if PlanIsValid(setting, q) && q.surface == p.surface && q.variables == p.variables {
      OnePhase(setting, p, q);
    }
  }

  lemma SnapshotIsPresent(setting: Setting, surface: Surface, j: Json, s: Snapshot)
    requires IsSnapshotOf(setting, surface, j, s)
    ensures AllPresent(s.variables)
  {
    hide Entry, Sorted, IsOrder, IsPresent;
    forall v <- s.variables ensures IsPresent(v) {
      var e :| e in j.fields["envs"].items && Entry(e) == Some(v);
      EntryIsPresent(e, v);
    }
  }

  lemma EntryIsPresent(e: Json, v: RemoteVariable)
    requires Entry(e) == Some(v)
    ensures IsPresent(v)
  {}

  /**
   From the listing to the verification: for a valid plan that what was parsed matches, an attestation is
   created, can be read, is verified for that plan and that listing, and for others only as above.
   */
  lemma ParsedIsAttested(setting: Setting, p: Plan, j: Json, s: Snapshot, q: Plan, t: Snapshot)
    requires IsOrder(setting.compare) && TellsApart(setting.compare, setting.allowlist(p.surface))
    requires IsSnapshotOf(setting, p.surface, j, s) && IsProof(setting.hash(MaterialOf(p, s)))
    requires PlanIsValid(setting, p) && MetadataMatches(setting, p, s, true)
    ensures Create(setting, p, s).Ok? && Refusal(setting, p, s, Create(setting, p, s).value) == None
    ensures Refusal(setting, q, t, Create(setting, p, s).value) == None <==>
      || (q == p && t == s)
      || (PlanIsValid(setting, q) && MetadataMatches(setting, q, t, true) && t == s && q.surface == p.surface
          && q.variables != p.variables && MaterialOf(q, t) != MaterialOf(p, s)
          && setting.hash(MaterialOf(q, t)) == setting.hash(MaterialOf(p, s)))
  {
    hide PlanIsValid, MetadataMatches, Refusal, IsProof, IsComplete, Entry, IsOrder, MaterialOf;
    SnapshotIsPresent(setting, p.surface, j, s);
    ParsedIsInOrder(setting, p, s);
    AttestationBinds(setting, p, s, q, t);
    AttestationBinds(setting, p, s, p, s);
  }

  // ---- What is accepted, field by field ----

  predicate HasField(j: Json, name: string, value: Json) {
    j.Obj? && name in j.fields && j.fields[name] == value
  }

  predicate LacksField(j: Json, name: string) {
    !j.Obj? || name !in j.fields || j.fields[name] == Null
  }

  /** A text under the first of two names, or under the second if the first has no text. */
  predicate HasText(j: Json, name: string, other: string, text: string) {
    text != "" && if HasString(j, name) then HasField(j, name, Str(text)) else HasField(j, other, Str(text))
  }

  predicate HasString(j: Json, name: string) {
    j.Obj? && name in j.fields && j.fields[name].Str?
  }

  /**
   The reported entries that are accepted: encrypted or sensitive, never decrypted, for production and for
   nothing else, and what is taken from them.
   */
  lemma EntryExactly(e: Json, v: RemoteVariable)
    ensures Entry(e) == Some(v) <==>
      && HasText(e, "key", "name", v.name) && HasText(e, "id", "_id", v.id)
      && HasField(e, "decrypted", Bool(false)) && HasField(e, "target", Arr([Str("production")]))
      && HasField(e, "type", Str(if v.kind == Encrypted then "encrypted" else "sensitive"))
      && LacksField(e, "gitBranch") && LacksField(e, "configurationId")
      && (LacksField(e, "customEnvironmentIds") || HasField(e, "customEnvironmentIds", Arr([])))
      && ((HasField(e, "updatedAt", Str(v.updatedAt)) && Trim(v.updatedAt) != "")
          || (HasField(e, "updatedAt", Num(v.updatedAt)) && v.updatedAt !in ["", "Infinity", "-Infinity"]))
  {
    hide Trim;
    TextIsText(e, "key", "name", v.name);
    TextIsText(e, "id", "_id", v.id);
    KindIsRead(v.kind);
    UpdatedAtIs(e, v.updatedAt);
    TypeIs(e, v.kind);
    hide TextField, IsText, HasText, UpdatedAt, KindOf, KindName;
    assert Trim("") == "" by { TrimNothing(); }
  }

  lemma TrimNothing()
    ensures Trim("") == ""
  {}

  lemma TextIsText(e: Json, name: string, other: string, text: string)
    ensures HasText(e, name, other, text) <==>
      IsText(TextField(e, name, other)) && TextField(e, name, other).value.s == text
  {}

  lemma UpdatedAtIs(e: Json, text: string)
    ensures UpdatedAt(Field(e, "updatedAt")) == Some(text) && text != "" <==>
      || (HasField(e, "updatedAt", Str(text)) && Trim(text) != "")
      || (HasField(e, "updatedAt", Num(text)) && text !in ["", "Infinity", "-Infinity"])
  {
    TrimNothing();
    hide Trim;
  }

  lemma TypeIs(e: Json, kind: Kind)
    ensures KindOf(Field(e, "type")) == Some(kind) <==>
      HasField(e, "type", Str(if kind == Encrypted then "encrypted" else "sensitive"))
  {
    assert "encrypted"[0] != "sensitive"[0];
  }

  /** A complete listing of these entries, with or without a description of its one page. */
  function Listing(items: seq<Json>, paged: bool): Json {
    if !paged then Obj(map["envs" := Arr(items), "hiddenProductionEnvCount" := Num("0")])
    else
      Obj(map["envs" := Arr(items), "hiddenProductionEnvCount" := Num("0"),
              "pagination" := Obj(map["count" := Num(Shown(|items|)), "next" := Null, "prev" := Null])])
  }

  lemma CompleteExactly(j: Json)
    ensures IsComplete(j) <==> exists items: seq<Json>, paged: bool :: j == Listing(items, paged)
  {
    hide Shown;
    if IsComplete(j) {
      ListingHasFields(j, j.fields["envs"].items);
    }
    forall items: seq<Json>, paged: bool | j == Listing(items, paged) ensures IsComplete(j) {
      ListingIsComplete(items, paged);
    }
  }

  lemma ListingIsComplete(items: seq<Json>, paged: bool)
    ensures IsComplete(Listing(items, paged))
  {
    hide Shown;
    if paged {
      var page := Obj(map["count" := Num(Shown(|items|)), "next" := Null, "prev" := Null]);
      assert Listing(items, paged).fields["pagination"] == page;
      assert page.fields.Keys == {"count", "next", "prev"};
    }
  }

  lemma ListingHasFields(j: Json, items: seq<Json>)
    requires IsComplete(j) && j.fields["envs"] == Arr(items)
    ensures j == Listing(items, "pagination" in j.fields)
  {
    hide Shown;
    var listing := Listing(items, "pagination" in j.fields);
    if "pagination" in j.fields {
      var page := Obj(map["count" := Num(Shown(|items|)), "next" := Null, "prev" := Null]);
      assert j.fields["pagination"].fields == page.fields;
      assert j.fields.Keys == {"envs", "hiddenProductionEnvCount", "pagination"};
    } else {
      assert j.fields.Keys == {"envs", "hiddenProductionEnvCount"};
    }
    assert j.fields == listing.fields;
  }

  // ---- When an attestation is created ----

  /** The last of the variables with a name, as in an object made from entries. */
  ghost predicate IsLast(vs: seq<Variable>, i: nat) {
    i < |vs| && forall k :: i < k < |vs| ==> vs[k].name != vs[i].name
  }

  ghost predicate IsAssigned(vs: seq<Variable>, name: string, value: string) {
    exists i: nat :: IsLast(vs, i) && vs[i].name == name && vs[i].value == value
  }

  lemma LastNext(vs: seq<Variable>, v: Variable, i: nat)
    ensures IsLast(vs + [v], i) <==> i == |vs| || (IsLast(vs, i) && vs[i].name != v.name)
  {
    if i < |vs| {
      assert (vs + [v])[|vs|] == v && (vs + [v])[i] == vs[i];
      if IsLast(vs, i) && vs[i].name != v.name {
        forall k | i < k < |vs + [v]| ensures (vs + [v])[k].name != vs[i].name {}
      }
      if IsLast(vs + [v], i) {
        forall k | i < k < |vs| ensures vs[k].name != vs[i].name {
          assert (vs + [v])[k] == vs[k];
        }
      }
    }
  }

  lemma {:induction false} LastIsValue(vs: seq<Variable>, i: nat)
    requires IsLast(vs, i)
    ensures vs[i].name in ValuesOf(vs) && ValuesOf(vs)[vs[i].name] == vs[i].value
    ensures vs[i].name in PlanByName(vs) && PlanByName(vs)[vs[i].name] == vs[i]
  {
    var init, last := vs[..|vs| - 1], vs[|vs| - 1];
    assert vs == init + [last];
    LastNext(init, last, i);
    if i < |init| {
      LastIsValue(init, i);
    }
  }

  lemma {:induction false} NamesHaveLast(vs: seq<Variable>, name: string)
    ensures name in ValuesOf(vs) <==> name in PlanByName(vs)
    ensures name in ValuesOf(vs) ==> exists i: nat :: IsLast(vs, i) && vs[i].name == name
  {
    if vs != [] {
      var init, last := vs[..|vs| - 1], vs[|vs| - 1];
      assert vs == init + [last];
      NamesHaveLast(init, name);
      LastNext(init, last, |init|);
      if name != last.name && name in ValuesOf(init) {
        var i: nat :| IsLast(init, i) && init[i].name == name;
        LastNext(init, last, i);
      }
    }
  }

  lemma AssignedIsHeld(vs: seq<Variable>, name: string, value: string)
    ensures Holds(ValuesOf(vs), name, value) <==> IsAssigned(vs, name, value)
  {
    NamesHaveLast(vs, name);
    if name in ValuesOf(vs) {
      var i: nat :| IsLast(vs, i) && vs[i].name == name;
      LastIsValue(vs, i);
    }
    forall i: nat | IsLast(vs, i) && vs[i].name == name ensures Holds(ValuesOf(vs), name, vs[i].value) {
      LastIsValue(vs, i);
    }
  }

  /** The origin of the URL a variable holds; a missing one counts as empty. */
  ghost predicate HasOrigin(setting: Setting, vs: seq<Variable>, name: string, origin: string) {
    if exists value :: IsAssigned(vs, name, value)
    then forall value :: IsAssigned(vs, name, value) ==> setting.originOf(value) == Some(origin)
    else setting.originOf("") == Some(origin)
  }

  lemma OriginIsHeld(setting: Setting, vs: seq<Variable>, name: string, origin: string)
    ensures IsOrigin(setting, ValuesOf(vs), name, origin) <==> HasOrigin(setting, vs, name, origin)
  {
    forall value: string {
      AssignedIsHeld(vs, name, value);
    }
    if name in ValuesOf(vs) {
      assert IsAssigned(vs, name, ValuesOf(vs)[name]);
    }
    hide IsAssigned;
  }

  /** What of a plan depends on its phase and its surface. */
  ghost predicate IsPlanned(setting: Setting, p: Plan) {
    var ops := "https://trendsfast-ops.vercel.app";
    var origin :=
      if p.phase == GeneratedOriginScansOff then "https://trendsfast.vercel.app" else "https://trendsfast.com";
    && |p.names| == |p.variables| && (forall i :: 0 <= i < |p.names| ==> p.names[i] == p.variables[i].name)
    && IsAssigned(p.variables, "PUBLIC_SCANS_ENABLED", if p.phase == CanonicalOriginScansOn then "true" else "false")
    && IsAssigned(p.variables, "TRENDSFAST_SURFACE", if p.surface == Public then "public" else "ops")
    && HasOrigin(setting, p.variables, "APP_URL", if p.surface == Public then origin else ops)
    && HasOrigin(setting, p.variables, "PUBLIC_APP_URL", origin)
    && setting.otherChecks(p.surface, ValuesOf(p.variables))
  }

  lemma PlannedIsValid(setting: Setting, p: Plan)
    ensures PlanIsValid(setting, p) <==> IsPlanned(setting, p)
  {
    AssignedIsHeld(p.variables, "PUBLIC_SCANS_ENABLED", ScansEnabled(p.phase));
    AssignedIsHeld(p.variables, "TRENDSFAST_SURFACE", SurfaceName(p.surface));
    OriginIsHeld(setting, p.variables, "APP_URL", if p.surface == Public then PublicOrigin(p.phase) else OPS_ORIGIN);
    OriginIsHeld(setting, p.variables, "PUBLIC_APP_URL", PublicOrigin(p.phase));
    hide IsAssigned, HasOrigin, Holds, IsOrigin, ValuesOf;
  }

  /** The listing of the plan's project, with exactly the plan's names, all of them allowed and of the right kind. */
  ghost predicate IsDeployed(setting: Setting, p: Plan, s: Snapshot) {
    && s.surface == p.surface
    && s.projectId
      == (if p.surface == Public then "prj_nYn6zjWW4BcKd03QaVO6LTOF3CSC" else "prj_EYAjX2Nyd1jUXSjfWVTVoI320nnU")
    && (forall v <- s.variables :: v.name in setting.allowlist(p.surface))
    && (forall v <- s.variables, i: nat :: IsLast(p.variables, i) && p.variables[i].name == v.name ==>
      v.kind == if p.variables[i].sensitivity == Plain then Encrypted else SensitiveKind)
    && |s.variables| == |p.names| && (forall name <- p.names :: exists v <- s.variables :: v.name == name)
  }

  lemma {:induction false} ByNameHas(vs: seq<RemoteVariable>)
    requires DistinctNames(vs)
    ensures |ByName(vs)| == |vs|
    ensures forall v <- vs :: v.name in ByName(vs) && ByName(vs)[v.name] == v
    ensures forall name <- ByName(vs) :: ByName(vs)[name] in vs && ByName(vs)[name].name == name
  {
    if vs != [] {
      var init, last := vs[..|vs| - 1], vs[|vs| - 1];
      assert vs == init + [last];
      ByNameHas(init);
    }
  }

  lemma DeployedMatches(setting: Setting, p: Plan, s: Snapshot)
    requires DistinctNames(s.variables)
    ensures MetadataMatches(setting, p, s, true) <==> IsDeployed(setting, p, s)
  {
    ByNameHas(s.variables);
    KindsMatch(p, s);
    NamesMatch(p, s);
    hide ByName, PlanByName, IsLast, ExpectedKind, DistinctNames;
  }

  lemma NamesMatch(p: Plan, s: Snapshot)
    requires DistinctNames(s.variables)
    ensures forall name :: name in ByName(s.variables) <==> exists v <- s.variables :: v.name == name
  {
    ByNameHas(s.variables);
  }

  lemma KindsMatch(p: Plan, s: Snapshot)
    requires DistinctNames(s.variables)
    ensures var remote, planned := ByName(s.variables), PlanByName(p.variables);
      (forall name <- remote | name in planned :: remote[name].kind == ExpectedKind(planned[name])) <==>
      forall v <- s.variables, i: nat :: IsLast(p.variables, i) && p.variables[i].name == v.name ==>
        v.kind == if p.variables[i].sensitivity == Plain then Encrypted else SensitiveKind
  {
    var remote, planned := ByName(s.variables), PlanByName(p.variables);
    ByNameHas(s.variables);
    forall i: nat | IsLast(p.variables, i)
      ensures p.variables[i].name in planned && planned[p.variables[i].name] == p.variables[i]
    {
      LastIsValue(p.variables, i);
    }
    forall name | name in planned
      ensures exists i: nat :: IsLast(p.variables, i) && p.variables[i].name == name
    {
      NamesHaveLast(p.variables, name);
    }
    hide ByName, PlanByName, IsLast;
  }

  /** An attestation is created for exactly the plans that hold what they should, as they are deployed. */
  lemma CreatesExactly(setting: Setting, p: Plan, s: Snapshot)
    requires DistinctNames(s.variables)
    ensures Create(setting, p, s).Ok? <==> IsPlanned(setting, p) && IsDeployed(setting, p, s)
  {
    PlannedIsValid(setting, p);
    DeployedMatches(setting, p, s);
    hide PlanIsValid, MetadataMatches, IsPlanned, IsDeployed, AttestationJson;
  }

  // ---- When an attestation is read ----

  /** An attested variable as it is written. */
  function WrittenVariable(v: RemoteVariable): Json {
    Obj(map["name" := Str(v.name), "id" := Str(v.id), "updatedAt" := Str(v.updatedAt),
            "type" := Str(if v.kind == Encrypted then "encrypted" else "sensitive"),
            "target" := Arr([Str("production")]), "gitBranch" := Null, "configurationId" := Null,
            "customEnvironmentIds" := Arr([])])
  }

  /** An attestation as it is written. */
  function WrittenAttestation(a: Attestation): Json {
    Obj(map["schemaVersion" := Num("1"), "surface" := Str(if a.surface == Public then "public" else "ops"),
            "projectId" := Str(a.projectId), "proofSha256" := Str(a.proof),
            "remoteVariables" := Arr(seq(|a.remote|, i requires 0 <= i < |a.remote| => WrittenVariable(a.remote[i])))])
  }

  lemma WrittenIsJson(v: RemoteVariable)
    ensures WrittenVariable(v) == RemoteJson(v)
  {}

  lemma WrittenIsAttestation(a: Attestation)
    ensures WrittenAttestation(a)
         == AttestationJson(SurfaceName(a.surface), a.projectId, RemoteJsons(a.remote), a.proof)
  {
    hide WrittenVariable, RemoteJson;
    forall v {
      WrittenIsJson(v);
    }
    assert seq(|a.remote|, i requires 0 <= i < |a.remote| => WrittenVariable(a.remote[i])) == RemoteJsons(a.remote);
  }

  /** A variable that is read is one that is written so, and not otherwise. */
  lemma VariableIsWritten(j: Json, v: RemoteVariable)
    ensures ParseVariable(j) == Some(v) <==> j == WrittenVariable(v) && IsPresent(v)
  {
    WrittenIsJson(v);
    VariableParses(v);
    if ParseVariable(j) == Some(v) {
      ParsedFields(j, v);
    }
  }

  lemma ParsedFields(j: Json, v: RemoteVariable)
    requires ParseVariable(j) == Some(v)
    ensures j == RemoteJson(v) && IsPresent(v)
  {
    RemoteFields(v);
    TypeIs(j, v.kind);
    assert j.fields.Keys == RemoteJson(v).fields.Keys;
    hide RemoteJson;
    forall name | name in VARIABLE_KEYS ensures j.fields[name] == RemoteJson(v).fields[name] {}
    assert j.fields == RemoteJson(v).fields;
  }

  lemma {:induction false} VariablesAreWritten(items: seq<Json>, vs: seq<RemoteVariable>)
    requires ParseVariables(items) == Some(vs)
    ensures items == RemoteJsons(vs) && AllPresent(vs)
  {
    hide ParseVariable, RemoteJson, WrittenVariable, IsPresent;
    if items != [] {
      VariableIsWritten(items[0], vs[0]);
      WrittenIsJson(vs[0]);
      VariablesAreWritten(items[1..], vs[1..]);
      assert items == [items[0]] + items[1..] && vs == [vs[0]] + vs[1..];
    }
  }

  /**
   Reading accepts nothing but what is written for some surface, project, proof of 64 hexadecimal digits, and
   complete variables in strict order; and it gives back just that.
   */
  lemma ReadsOnlyWritten(setting: Setting, j: Json, a: Attestation)
    ensures Parse(setting, j) == Some(a) <==>
      && j == WrittenAttestation(a)
      && |a.proof| == 64 && (forall c <- a.proof :: 'a' <= c <= 'f' || '0' <= c <= '9')
      && (forall i :: 0 < i < |a.remote| ==> setting.compare(a.remote[i - 1].name, a.remote[i].name) < 0)
      && (forall i, k :: 0 <= i < k < |a.remote| ==> a.remote[i].name != a.remote[k].name)
      && (forall v <- a.remote :: v.name != "" && v.id != "" && v.updatedAt != "")
  {
    WrittenIsAttestation(a);
    VariablesParse(a.remote);
    if IsProof(a.proof) {
      AttestationParses(setting, a.surface, a.projectId, RemoteJsons(a.remote), a.proof);
    }
    if Parse(setting, j) == Some(a) {
      AttestationIsWritten(setting, j, a);
    }
    hide Parse, ParseVariables, WrittenAttestation, AttestationJson, RemoteJsons;
  }

  lemma AttestationIsWritten(setting: Setting, j: Json, a: Attestation)
    requires Parse(setting, j) == Some(a)
    ensures j == AttestationJson(SurfaceName(a.surface), a.projectId, RemoteJsons(a.remote), a.proof)
    ensures IsProof(a.proof) && WellFormed(setting.compare, a.remote)
  {
    VariablesAreWritten(j.fields["remoteVariables"].items, a.remote);
    var written := AttestationJson(SurfaceName(a.surface), a.projectId, RemoteJsons(a.remote), a.proof);
    AttestationFields(SurfaceName(a.surface), a.projectId, RemoteJsons(a.remote), a.proof);
    SurfaceIsRead(a.surface);
    hide AttestationJson, RemoteJsons, ParseVariables, InOrder, IsProof, AllPresent;
    forall name | name in ATTESTATION_KEYS ensures j.fields[name] == written.fields[name] {}
    assert j.fields == written.fields;
  }

  /**
   Verification accepts one attestation for a plan and a listing and no other: the one that is created from
   them, if that can be read at all.
   */
  lemma VerifiesExactly(setting: Setting, p: Plan, s: Snapshot, source: Json)
    requires DistinctNames(s.variables)
    ensures Refusal(setting, p, s, source) == None <==>
      && IsPlanned(setting, p) && IsDeployed(setting, p, s)
      && source == WrittenAttestation(Attestation(p.surface, s.projectId, s.variables, setting.hash(MaterialOf(p, s))))
      && Parse(setting, source).Some?
  {
    PlannedIsValid(setting, p);
    DeployedMatches(setting, p, s);
    hide PlanIsValid, IsPlanned, IsDeployed, MaterialOf, WrittenAttestation;
    if PlanIsValid(setting, p) && MetadataMatches(setting, p, s, true) {
      MatchedProject(setting, p, s);
      if Parse(setting, source).Some? {
        VerifiedText(setting, p, s, source, Parse(setting, source).value);
      }
    }
    hide Parse, MetadataMatches, ProjectId;
  }

  lemma VerifiedText(setting: Setting, p: Plan, s: Snapshot, source: Json, a: Attestation)
    requires PlanIsValid(setting, p) && MetadataMatches(setting, p, s, true) && Parse(setting, source) == Some(a)
    ensures Refusal(setting, p, s, source) == None <==>
      source == WrittenAttestation(
        Attestation(p.surface, ProjectId(p.surface), s.variables, setting.hash(MaterialOf(p, s))))
  {
    hide PlanIsValid, MetadataMatches, Parse, WrittenAttestation, MaterialOf, ProjectId;
    ParsedIsWritten(setting, source, a);
    OneAttestation(a, Attestation(p.surface, ProjectId(p.surface), s.variables, setting.hash(MaterialOf(p, s))));
  }

  lemma MatchedProject(setting: Setting, p: Plan, s: Snapshot)
    requires MetadataMatches(setting, p, s, true)
    ensures s.projectId == ProjectId(p.surface)
  {}

  lemma ParsedIsWritten(setting: Setting, j: Json, a: Attestation)
    requires Parse(setting, j) == Some(a)
    ensures j == WrittenAttestation(a) && AllPresent(a.remote)
  {
    hide Parse, WrittenAttestation, AttestationJson, InOrder, IsProof;
    AttestationIsWritten(setting, j, a);
    WrittenIsAttestation(a);
  }

  /** Different attestations are written differently. */
  lemma OneAttestation(a: Attestation, b: Attestation)
    requires AllPresent(a.remote)
    ensures WrittenAttestation(a) == WrittenAttestation(b) <==> a == b
  {
    WrittenIsAttestation(a);
    WrittenIsAttestation(b);
    AttestationFields(SurfaceName(a.surface), a.projectId, RemoteJsons(a.remote), a.proof);
    AttestationFields(SurfaceName(b.surface), b.projectId, RemoteJsons(b.remote), b.proof);
    SurfaceIsRead(a.surface);
    SurfaceIsRead(b.surface);
    VariablesParse(a.remote);
    VariablesParse(b.remote);
    hide WrittenAttestation, AttestationJson, RemoteJsons, ParseVariables, SurfaceName;
  }
}
