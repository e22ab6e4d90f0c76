/**
 The inventories of the password rotation, and what `materializePlannedInventories` plans for them: the
 passwords of eight database roles, in four files. What a file holds is what reading its text gives.

 `MaterializePlannedInventories` is proved to plan exactly for well-formed inventories and passwords that
 are fresh and unique, and then the four inventories in full.
 */
module RoleRotation {
  import opened Collections
  import opened Text
  import opened Wrappers

  datatype Kind = Migrator | Public | Member | Ops | Worker | Billing | Auth | Retention

  const ROLES := [Migrator, Public, Member, Ops, Worker, Billing, Auth, Retention]
  const URL_ROLE_KINDS := [Public, Member, Ops, Worker, Billing, Auth, Retention]

  /** The variables of the inventories. */
  datatype Variable = PasswordOf(kind: Kind) | UrlOf(kind: Kind) | DirectUrl | OtherVariable(name: string)

  /** The endpoints a URL may be pinned to. */
  datatype Endpoint = RuntimePooler(kind: Kind) | MigratorPooler | MigratorDirect

  /** A value is a URL of the pinned shape, or any other text. */
  datatype Value = Plain(text: string) | Url(endpoint: Endpoint, password: string)

  type Inventory = map<Variable, Value>

  type Passwords = map<Kind, string>

  predicate IsPasswordChar(c: char) {
    'A' <= c <= 'Z' || 'a' <= c <= 'z' || '0' <= c <= '9' || c == '_' || c == '-'
  }

  predicate IsPassword(s: string) {
    |s| == 64 && forall c <- s :: IsPasswordChar(c)
  }

  /** One password for every role, of the form the generator gives them. */
  ghost predicate AreGenerated(p: Passwords) {
    forall k: Kind :: k in p && IsPassword(p[k])
  }

  ghost predicate AreUnique(p: Passwords) {
    forall j: Kind, k: Kind :: j in p && k in p && j != k ==> p[j] != p[k]
  }

  // ---- Planning ----

  /** `parsePinnedUrl` for a role: the runtime endpoint of that role, or one of the migrator's two. */
  predicate IsPinned(v: Value, kind: Kind) {
    && v.Url? && v.password != ""
    && (if kind == Migrator then v.endpoint == MigratorPooler || v.endpoint == MigratorDirect
        else v.endpoint == RuntimePooler(kind))
  }

  predicate HasPinned(inventory: Inventory, name: Variable, kind: Kind) {
    name in inventory && IsPinned(inventory[name], kind)
  }

  /** `roleSecrets[...]?.trim()` */
  predicate IsPresent(inventory: Inventory, name: Variable) {
    name in inventory && (inventory[name].Url? || Trim(inventory[name].text) != "")
  }

  function SecretNames(): set<Variable> {
    set k | k in ROLES :: PasswordOf(k)
  }

  function UrlNames(): set<Variable> {
    set k | k in URL_ROLE_KINDS :: UrlOf(k)
  }

  datatype Inventories = Inventories(
    secrets: Inventory, urls: Inventory, migrator: Inventory, production: Inventory)

  /** Everything planning checks before it looks at the new passwords. */
  ghost predicate WellFormed(i: Inventories) {
    && i.secrets.Keys == SecretNames() && i.urls.Keys == UrlNames() && i.migrator.Keys == {DirectUrl}
    && (forall k: Kind :: IsPresent(i.secrets, PasswordOf(k)))
    && ArePinned(i.urls, i.production)
    && HasPinned(i.migrator, DirectUrl, Migrator)
  }

  ghost predicate ArePinned(urls: Inventory, production: Inventory) {
    forall k <- URL_ROLE_KINDS :: HasPinned(urls, UrlOf(k), k) && HasPinned(production, UrlOf(k), k)
  }

  ghost predicate IsFresh(secrets: Inventory, p: Passwords)
    requires AreGenerated(p)
  {
    forall k: Kind :: PasswordOf(k) in secrets ==> secrets[PasswordOf(k)] != Plain(p[k])
  }

  /** The secrets inventory records exactly these passwords. */
  ghost predicate Records(secrets: Inventory, p: Passwords) {
    forall k: Kind :: k in p && PasswordOf(k) in secrets && secrets[PasswordOf(k)] == Plain(p[k])
  }

  /** A pinned URL with its password replaced; anything else is refused. */
  function UpdateUrl(inventory: Inventory, name: Variable, kind: Kind, password: string): Option<Value> {
    if HasPinned(inventory, name, kind) && password != "" then Some(inventory[name].(password := password)) else None
  }

  ghost function Plan(i: Inventories, p: Passwords): Inventories
    requires AreGenerated(p) && WellFormed(i)
  {
    var urls := WithPasswords(i.urls, UrlNames(), p);
    Inventories(
      map k | k in SecretNames() :: Plain(p[k.kind]),
      urls,
      map[DirectUrl := i.migrator[DirectUrl].(password := p[Migrator])],
      i.production + urls)
  }

  /** `materializePlannedInventories`: the four inventories a rotation to `p` will write, or a refusal. */
  ghost function Planned(i: Inventories, p: Passwords): Option<Inventories>
    requires AreGenerated(p)
  {
    if WellFormed(i) && AreUnique(p) && IsFresh(i.secrets, p) then Some(Plan(i, p)) else None
  }

  lemma AllKinds(k: Kind)
    ensures k in ROLES && (k != Migrator ==> k in URL_ROLE_KINDS)
  {
    match k
    case Migrator => assert ROLES[0] == k;
    case Public => assert ROLES[1] == k && URL_ROLE_KINDS[0] == k;
    case Member => assert ROLES[2] == k && URL_ROLE_KINDS[1] == k;
    case Ops => assert ROLES[3] == k && URL_ROLE_KINDS[2] == k;
    case Worker => assert ROLES[4] == k && URL_ROLE_KINDS[3] == k;
    case Billing => assert ROLES[5] == k && URL_ROLE_KINDS[4] == k;
    case Auth => assert ROLES[6] == k && URL_ROLE_KINDS[5] == k;
    case Retention => assert ROLES[7] == k && URL_ROLE_KINDS[6] == k;
  }

  lemma ValuesSplit(p: Passwords, k: Kind)
    requires k in p
    ensures p.Values == (p - {k}).Values + {p[k]}
  {
    var rest := p - {k};
    forall v <- p.Values
      ensures v in rest.Values + {p[k]}
    {
      var j :| j in p && p[j] == v;
      if j != k {
        assert j in rest && rest[j] == v;
      }
    }
    forall v <- rest.Values
      ensures v in p.Values
    {
      var j :| j in rest && rest[j] == v;
      assert j in p;
    }
  }

  /** As many values as keys means no two keys share one. */
  lemma {:induction false} ValuesCountKeys(p: Passwords)
    ensures |p.Values| <= |p|
    ensures |p.Values| == |p| <==> AreUnique(p)
    decreases p.Keys
  {
    if k :| k in p {
      var rest := p - {k};
      ValuesCountKeys(rest);
      ValuesSplit(p, k);
      if p[k] in rest.Values {
        var j :| j in rest && rest[j] == p[k];
        assert rest.Values + {p[k]} == rest.Values;
        assert !AreUnique(p);
      } else {
        forall j | j in rest
          ensures p[j] != p[k]
        {
          assert rest[j] in rest.Values;
        }
        assert forall j :: j in p ==> j == k || (j in rest && rest[j] == p[j]);
        assert AreUnique(p) ==> AreUnique(rest);
      }
    } else {
      assert p.Values == {};
    }
  }

  /** The variable of a runtime role holds a URL of that role, with a password. */
  ghost predicate IsRuntimeUrl(inventory: Inventory, k: Kind) {
    && UrlOf(k) in inventory && inventory[UrlOf(k)].Url? && inventory[UrlOf(k)].password != ""
    && inventory[UrlOf(k)].endpoint == RuntimePooler(k)
  }

  /** Each of the three private files holds the variables of the roles and no other. */
  ghost predicate HoldsRoleNames(i: Inventories) {
    && (forall name: Variable :: name in i.secrets <==> name.PasswordOf?)
    && (forall name: Variable :: name in i.urls <==> name.UrlOf? && name.kind != Migrator)
    && (forall name: Variable :: name in i.migrator <==> name == DirectUrl)
  }

  /** Every role has a password that is not blank, and its URLs, also the copies in production, are its own. */
  ghost predicate HoldsRoleValues(i: Inventories)
    requires HoldsRoleNames(i)
  {
    && (forall k: Kind :: i.secrets[PasswordOf(k)].Url? || Trim(i.secrets[PasswordOf(k)].text) != "")
    && (forall k: Kind | k != Migrator :: IsRuntimeUrl(i.urls, k) && IsRuntimeUrl(i.production, k))
    && i.migrator[DirectUrl].Url? && i.migrator[DirectUrl].password != ""
    && i.migrator[DirectUrl].endpoint in {MigratorPooler, MigratorDirect}
  }

  /** When a rotation to `p` is planned, from the files and passwords alone. */
  lemma PlansExactly(i: Inventories, p: Passwords)
    requires AreGenerated(p)
    ensures Planned(i, p).Some? <==>
      && HoldsRoleNames(i) && HoldsRoleValues(i)
      && (forall j: Kind, k: Kind | j != k :: p[j] != p[k])
      && (forall k: Kind :: i.secrets[PasswordOf(k)] != Plain(p[k]))
  {
    WellFormedExactly(i);
    UniqueAndFreshExactly(i.secrets, p);
    hide AreUnique, IsFresh, IsPassword, WellFormed, HoldsRoleValues, Plan;
  }

  lemma WellFormedExactly(i: Inventories)
    ensures WellFormed(i) <==> HoldsRoleNames(i) && HoldsRoleValues(i)
  {
    NamesExactly(i);
    PinnedExactly(i.urls, i.production);
    hide SecretNames, UrlNames, ArePinned, IsRuntimeUrl, Trim;
  }

  lemma UniqueAndFreshExactly(secrets: Inventory, p: Passwords)
    requires AreGenerated(p)
    ensures forall k: Kind :: k in p
    ensures AreUnique(p) <==> forall j: Kind, k: Kind | j != k :: p[j] != p[k]
    ensures IsFresh(secrets, p) <==>
      forall k: Kind :: PasswordOf(k) in secrets ==> secrets[PasswordOf(k)] != Plain(p[k])
  {}

  lemma NamesExactly(i: Inventories)
    ensures i.secrets.Keys == SecretNames() <==> forall name: Variable :: name in i.secrets <==> name.PasswordOf?
    ensures i.urls.Keys == UrlNames() <==>
      forall name: Variable :: name in i.urls <==> name.UrlOf? && name.kind != Migrator
    ensures i.migrator.Keys == {DirectUrl} <==> forall name: Variable :: name in i.migrator <==> name == DirectUrl
  {
    RoleNames();
    hide SecretNames, UrlNames;
    assert i.secrets.Keys == SecretNames() <==> forall name :: name in i.secrets.Keys <==> name in SecretNames();
    assert i.urls.Keys == UrlNames() <==> forall name :: name in i.urls.Keys <==> name in UrlNames();
  }

  lemma PinnedExactly(urls: Inventory, production: Inventory)
    ensures ArePinned(urls, production) <==>
      forall k: Kind | k != Migrator :: IsRuntimeUrl(urls, k) && IsRuntimeUrl(production, k)
  {
    forall k: Kind | k != Migrator
      ensures HasPinned(urls, UrlOf(k), k) <==> IsRuntimeUrl(urls, k)
      ensures HasPinned(production, UrlOf(k), k) <==> IsRuntimeUrl(production, k)
    {}
    hide HasPinned, IsRuntimeUrl;
    forall k: Kind {
      AllKinds(k);
    }
  }

  lemma RoleNames()
    ensures forall name: Variable :: name in SecretNames() <==> name.PasswordOf?
    ensures forall name: Variable :: name in UrlNames() <==> name.UrlOf? && name.kind != Migrator
  {
    forall k: Kind {
      AllKinds(k);
    }
    assert Migrator !in URL_ROLE_KINDS;
  }

  /**
   What a plan changes: the passwords, in the variables of the roles and nowhere else. Every inventory keeps
   its names, every URL its endpoint, and the production inventory all its other values.
   */
  lemma PlanChangesPasswordsOnly(i: Inventories, p: Passwords)
    requires AreGenerated(p) && Planned(i, p).Some?
    ensures var next := Planned(i, p).value;
      && next.secrets.Keys == i.secrets.Keys && next.urls.Keys == i.urls.Keys
      && next.migrator.Keys == i.migrator.Keys && next.production.Keys == i.production.Keys
      && (forall k: Kind :: PasswordOf(k) in next.secrets && next.secrets[PasswordOf(k)] == Plain(p[k]))
      && (forall k: Kind | k != Migrator ::
        && UrlOf(k) in next.urls && next.urls[UrlOf(k)] == Url(RuntimePooler(k), p[k])
        && UrlOf(k) in next.production && next.production[UrlOf(k)] == Url(RuntimePooler(k), p[k]))
      && i.migrator[DirectUrl].Url? && next.migrator[DirectUrl] == Url(i.migrator[DirectUrl].endpoint, p[Migrator])
      && (forall name <- i.production :: !name.UrlOf? || name.kind == Migrator ==>
        next.production[name] == i.production[name])
  {
    RoleNames();
    PlannedSecrets(i, p);
    PlannedUrls(i, p);
    PlannedProduction(i, p);
    PlannedMigrator(i, p);
    hide IsPassword, SecretNames, UrlNames, ArePinned, Plan, IsPresent;
    forall name <- i.production | !name.UrlOf? || name.kind == Migrator ensures name !in i.urls {}
    assert i.urls.Keys == UrlNames();
  }

  lemma PlannedMigrator(i: Inventories, p: Passwords)
    requires AreGenerated(p) && WellFormed(i)
    ensures i.migrator[DirectUrl].Url? && Plan(i, p).migrator.Keys == i.migrator.Keys
    ensures Plan(i, p).migrator[DirectUrl] == Url(i.migrator[DirectUrl].endpoint, p[Migrator])
  {}

  lemma PlannedSecrets(i: Inventories, p: Passwords)
    requires AreGenerated(p) && WellFormed(i)
    ensures Plan(i, p).secrets.Keys == i.secrets.Keys
    ensures forall k: Kind ::
      PasswordOf(k) in Plan(i, p).secrets && Plan(i, p).secrets[PasswordOf(k)] == Plain(p[k])
  {
    RoleNames();
    hide IsPassword, SecretNames, UrlNames, ArePinned;
  }

  lemma PlannedUrls(i: Inventories, p: Passwords)
    requires AreGenerated(p) && WellFormed(i)
    ensures Plan(i, p).urls.Keys == i.urls.Keys
    ensures forall k: Kind | k != Migrator ::
      UrlOf(k) in Plan(i, p).urls && Plan(i, p).urls[UrlOf(k)] == Url(RuntimePooler(k), p[k])
  {
    RoleNames();
    PinnedExactly(i.urls, i.production);
    hide IsPassword, SecretNames, UrlNames, ArePinned;
    forall k: Kind | k != Migrator
      ensures UrlOf(k) in i.urls && i.urls[UrlOf(k)].Url? && i.urls[UrlOf(k)].endpoint == RuntimePooler(k)
    {
      assert IsRuntimeUrl(i.urls, k);
    }
  }

  lemma PlannedProduction(i: Inventories, p: Passwords)
    requires AreGenerated(p) && WellFormed(i)
    ensures Plan(i, p).production.Keys == i.production.Keys
    ensures forall name <- i.production ::
      Plan(i, p).production[name] == if name in Plan(i, p).urls then Plan(i, p).urls[name] else i.production[name]
    ensures forall k: Kind | k != Migrator :: UrlOf(k) in i.production
  {
    RoleNames();
    PinnedExactly(i.urls, i.production);
    hide IsPassword, SecretNames, UrlNames, ArePinned;
    forall name <- Plan(i, p).urls ensures name in i.production {
      assert IsRuntimeUrl(i.production, name.kind);
    }
  }

  method MaterializePlannedInventories(i: Inventories, p: Passwords) returns (r: Option<Inventories>)
    requires AreGenerated(p)
    ensures r == Planned(i, p)
    ensures r.Some? ==>
      && r.value.production.Keys == i.production.Keys
      && (forall name <- i.production :: !name.UrlOf? || name.kind == Migrator ==>
        r.value.production[name] == i.production[name])
  {
    if Planned(i, p).Some? {
      PlanChangesPasswordsOnly(i, p);
    }
    if i.secrets.Keys != SecretNames() || i.urls.Keys != UrlNames() || i.migrator.Keys != {DirectUrl} {
      return None;
    }
    var present := RequireCurrentRoleSecrets(i.secrets);
    if !present {
      return None;
    }
    var accepted := AreFreshAndUnique(i.secrets, p);
    if !accepted {
      return None;
    }
    var secrets := ReplaceSecrets(i.secrets, p);
    var updated := ReplaceUrls(i.urls, i.production, p);
    if updated == None {
      return None;
    }
    var migratorUrl := UpdateUrl(i.migrator, DirectUrl, Migrator, p[Migrator]);
    if migratorUrl == None {
      return None;
    }
    var migrator := i.migrator[DirectUrl := migratorUrl.value];
    SingleUpdate(i.migrator, migratorUrl.value);
    r := Some(Inventories(secrets, updated.value.0, migrator, updated.value.1));
  }

  lemma SingleUpdate(migrator: Inventory, url: Value)
    requires migrator.Keys == {DirectUrl}
    ensures migrator[DirectUrl := url] == map[DirectUrl := url]
  {}

  method AreFreshAndUnique(secrets: Inventory, p: Passwords) returns (accepted: bool)
    requires AreGenerated(p)
    ensures accepted <==> AreUnique(p) && IsFresh(secrets, p)
  {
    ValuesCountKeys(p);
    CountKinds(p);
    var reused := SomeReused(secrets, p);
    accepted := |p.Values| == |ROLES| && !reused;
  }

  lemma CountKinds(p: Passwords)
    requires AreGenerated(p)
    ensures |p| == |ROLES|
  {
    hide IsPassword;
    forall k: Kind ensures k in ROLES && k in p {
      AllKinds(k);
    }
    DistinctCount(ROLES, p.Keys);
  }

  method RequireCurrentRoleSecrets(secrets: Inventory) returns (present: bool)
    ensures present <==> forall k: Kind :: IsPresent(secrets, PasswordOf(k))
  {
    for n := 0 to |ROLES|
      invariant forall m :: 0 <= m < n ==> IsPresent(secrets, PasswordOf(ROLES[m]))
    {
      if !IsPresent(secrets, PasswordOf(ROLES[n])) {
        return false;
      }
    }
    forall k: Kind
      ensures IsPresent(secrets, PasswordOf(k))
    {
      AllKinds(k);
    }
    return true;
  }

  method SomeReused(secrets: Inventory, p: Passwords) returns (reused: bool)
    requires AreGenerated(p)
    ensures reused <==> !IsFresh(secrets, p)
  {
    for n := 0 to |ROLES|
      invariant forall m :: 0 <= m < n ==>
        (PasswordOf(ROLES[m]) in secrets ==> secrets[PasswordOf(ROLES[m])] != Plain(p[ROLES[m]]))
    {
      var name := PasswordOf(ROLES[n]);
      if name in secrets && secrets[name] == Plain(p[ROLES[n]]) {
        return true;
      }
    }
    forall k: Kind
      ensures PasswordOf(k) in secrets ==> secrets[PasswordOf(k)] != Plain(p[k])
    {
      AllKinds(k);
    }
    return false;
  }

  method ReplaceSecrets(old_: Inventory, p: Passwords) returns (secrets: Inventory)
    requires AreGenerated(p) && old_.Keys == SecretNames()
    ensures secrets == map k | k in SecretNames() :: Plain(p[k.kind])
  {
    secrets := old_;
    for n := 0 to |ROLES|
      invariant secrets.Keys == SecretNames()
      invariant forall m :: 0 <= m < n ==> secrets[PasswordOf(ROLES[m])] == Plain(p[ROLES[m]])
    {
      secrets := secrets[PasswordOf(ROLES[n]) := Plain(p[ROLES[n]])];
    }
  }

  /** The URLs with the password of each one's role. */
  ghost function WithPasswords(urls: Inventory, names: set<Variable>, p: Passwords): Inventory
    requires AreGenerated(p) && forall name <- names :: name.UrlOf? && name in urls && urls[name].Url?
  {
    map name | name in names :: urls[name].(password := p[name.kind])
  }

  ghost function FirstUrls(n: nat): set<Variable>
    requires n <= |URL_ROLE_KINDS|
  {
    set k | k in URL_ROLE_KINDS[..n] :: UrlOf(k)
  }

  lemma FirstUrlsStep(n: nat)
    requires n < |URL_ROLE_KINDS|
    ensures FirstUrls(n + 1) == FirstUrls(n) + {UrlOf(URL_ROLE_KINDS[n])}
    ensures UrlOf(URL_ROLE_KINDS[n]) !in FirstUrls(n)
    ensures FirstUrls(|URL_ROLE_KINDS|) == UrlNames()
  {
    assert URL_ROLE_KINDS[..n + 1] == URL_ROLE_KINDS[..n] + [URL_ROLE_KINDS[n]];
    assert URL_ROLE_KINDS[..|URL_ROLE_KINDS|] == URL_ROLE_KINDS;
    UrlKindsDistinct();
  }

  lemma WithPasswordsStep(base: Inventory, urls: Inventory, names: set<Variable>, name: Variable, p: Passwords)
    requires AreGenerated(p) && name !in names
    requires forall n <- names + {name} :: n.UrlOf? && n in urls && urls[n].Url?
    ensures (base + WithPasswords(urls, names, p))[name := urls[name].(password := p[name.kind])]
         == base + WithPasswords(urls, names + {name}, p)
    ensures name in base ==> (base + WithPasswords(urls, names, p))[name] == base[name]
  {}

  lemma UrlKindsDistinct()
    ensures forall i, j :: 0 <= i < j < |URL_ROLE_KINDS| ==> URL_ROLE_KINDS[i] != URL_ROLE_KINDS[j]
  {}

  ghost predicate ArePinnedUpTo(urls: Inventory, production: Inventory, n: nat)
    requires n <= |URL_ROLE_KINDS|
  {
    forall name <- FirstUrls(n) ::
      name.UrlOf? && HasPinned(urls, name, name.kind) && HasPinned(production, name, name.kind)
  }

  /** The URLs and the production copy after the first `n` URLs were replaced. */
  ghost predicate IsReplacedUpTo(
    oldUrls: Inventory, oldProduction: Inventory, n: nat, p: Passwords, urls: Inventory, production: Inventory)
    requires AreGenerated(p) && n <= |URL_ROLE_KINDS|
  {
    && ArePinnedUpTo(oldUrls, oldProduction, n)
    && urls == oldUrls + WithPasswords(oldUrls, FirstUrls(n), p)
    && production == oldProduction + WithPasswords(oldUrls, FirstUrls(n), p)
  }

  /** One turn of the loop: the canonical copy and the separate production copy must both be pinned. */
  method ReplaceUrl(ghost oldUrls: Inventory, ghost oldProduction: Inventory, n: nat, p: Passwords,
                    urls: Inventory, production: Inventory) returns (r: Option<(Inventory, Inventory)>)
    requires AreGenerated(p) && n < |URL_ROLE_KINDS|
    requires IsReplacedUpTo(oldUrls, oldProduction, n, p, urls, production)
    ensures r.Some? <==> ArePinnedUpTo(oldUrls, oldProduction, n + 1)
    ensures r.Some? ==> IsReplacedUpTo(oldUrls, oldProduction, n + 1, p, r.value.0, r.value.1)
  {
    var k := URL_ROLE_KINDS[n];
    FirstUrlsStep(n);
    PinnedStep(oldUrls, oldProduction, n);
    NotYetReplaced(oldUrls, oldUrls, FirstUrls(n), UrlOf(k), p);
    NotYetReplaced(oldProduction, oldUrls, FirstUrls(n), UrlOf(k), p);
    assert p[k] != "";
    hide WithPasswords, ArePinnedUpTo, IsPassword;
    var nextUrl := UpdateUrl(urls, UrlOf(k), k, p[k]);
    if nextUrl == None || UpdateUrl(production, UrlOf(k), k, p[k]) == None {
      return None;
    }
    PinnedAreUrls(oldUrls, oldProduction, n + 1);
    WithPasswordsStep(oldUrls, oldUrls, FirstUrls(n), UrlOf(k), p);
    WithPasswordsStep(oldProduction, oldUrls, FirstUrls(n), UrlOf(k), p);
    r := Some((urls[UrlOf(k) := nextUrl.value], production[UrlOf(k) := nextUrl.value]));
  }

  lemma PinnedStep(urls: Inventory, production: Inventory, n: nat)
    requires n < |URL_ROLE_KINDS|
    ensures var k := URL_ROLE_KINDS[n];
      ArePinnedUpTo(urls, production, n + 1) <==>
        ArePinnedUpTo(urls, production, n) && HasPinned(urls, UrlOf(k), k) && HasPinned(production, UrlOf(k), k)
  {
    hide IsPinned;
    FirstUrlsStep(n);
  }

  lemma PinnedAreUrls(urls: Inventory, production: Inventory, n: nat)
    requires n <= |URL_ROLE_KINDS| && ArePinnedUpTo(urls, production, n)
    ensures forall name <- FirstUrls(n) :: name.UrlOf? && name in urls && urls[name].Url?
  {}

  /** What is not among the names is as it was. */
  lemma NotYetReplaced(base: Inventory, urls: Inventory, names: set<Variable>, name: Variable, p: Passwords)
    requires AreGenerated(p) && name !in names
    requires forall n <- names :: n.UrlOf? && n in urls && urls[n].Url?
    ensures name in base + WithPasswords(urls, names, p) <==> name in base
    ensures name in base ==> (base + WithPasswords(urls, names, p))[name] == base[name]
  {}

  method ReplaceUrls(oldUrls: Inventory, oldProduction: Inventory, p: Passwords)
    returns (r: Option<(Inventory, Inventory)>)
    requires AreGenerated(p) && oldUrls.Keys == UrlNames()
    ensures r.Some? <==> ArePinned(oldUrls, oldProduction)
    ensures r.Some? ==>
      && (forall name <- UrlNames() :: oldUrls[name].Url?)
      && r.value.0 == WithPasswords(oldUrls, UrlNames(), p)
      && r.value.1 == oldProduction + r.value.0
  {
    var urls, production := oldUrls, oldProduction;
    NothingReplaced(oldUrls, oldProduction, p);
    for n := 0 to |URL_ROLE_KINDS|
      invariant IsReplacedUpTo(oldUrls, oldProduction, n, p, urls, production)
    {
      var next := ReplaceUrl(oldUrls, oldProduction, n, p, urls, production);
      if next == None {
        PinnedMeansUpTo(oldUrls, oldProduction, n + 1);
        return None;
      }
      urls, production := next.value.0, next.value.1;
    }
    AllReplaced(oldUrls, oldProduction, p, urls, production);
    r := Some((urls, production));
  }

  lemma NothingReplaced(oldUrls: Inventory, oldProduction: Inventory, p: Passwords)
    requires AreGenerated(p)
    ensures IsReplacedUpTo(oldUrls, oldProduction, 0, p, oldUrls, oldProduction)
  {
    assert FirstUrls(0) == {};
    assert WithPasswords(oldUrls, {}, p) == map[];
  }

  lemma AllReplaced(
    oldUrls: Inventory, oldProduction: Inventory, p: Passwords, urls: Inventory, production: Inventory)
    requires AreGenerated(p) && oldUrls.Keys == UrlNames()
    requires IsReplacedUpTo(oldUrls, oldProduction, |URL_ROLE_KINDS|, p, urls, production)
    ensures ArePinned(oldUrls, oldProduction) && forall name <- UrlNames() :: oldUrls[name].Url?
    ensures urls == WithPasswords(oldUrls, UrlNames(), p) && production == oldProduction + urls
  {
    FirstUrlsStep(0);
    AllUrlsPinned(oldUrls, oldProduction);
    AllPinnedAreUrls(oldUrls, oldProduction);
    WithPasswordsCovers(oldUrls, p);
    hide IsPinned, ArePinned, WithPasswords, UrlNames, FirstUrls, ArePinnedUpTo;
  }

  lemma WithPasswordsCovers(urls: Inventory, p: Passwords)
    requires AreGenerated(p) && urls.Keys == UrlNames()
    requires forall name <- UrlNames() :: name.UrlOf? && name in urls && urls[name].Url?
    ensures urls + WithPasswords(urls, UrlNames(), p) == WithPasswords(urls, UrlNames(), p)
  {
    hide IsPassword;
  }

  lemma AllPinnedAreUrls(urls: Inventory, production: Inventory)
    requires ArePinned(urls, production)
    ensures forall name <- UrlNames() :: name.UrlOf? && name in urls && urls[name].Url?
  {
    forall name <- UrlNames() ensures name.UrlOf? && name in urls && urls[name].Url? {
      assert HasPinned(urls, UrlOf(name.kind), name.kind);
    }
  }

  lemma PinnedMeansUpTo(urls: Inventory, production: Inventory, n: nat)
    requires n <= |URL_ROLE_KINDS|
    ensures ArePinned(urls, production) ==> ArePinnedUpTo(urls, production, n)
  {}

  lemma AllUrlsPinned(urls: Inventory, production: Inventory)
    requires ArePinnedUpTo(urls, production, |URL_ROLE_KINDS|)
    ensures ArePinned(urls, production)
  {
    FirstUrlsStep(0);
    forall k <- URL_ROLE_KINDS
      ensures HasPinned(urls, UrlOf(k), k) && HasPinned(production, UrlOf(k), k)
    {
      assert UrlOf(k) in UrlNames();
    }
  }
}
