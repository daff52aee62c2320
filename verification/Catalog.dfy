/** The managed account catalog as a value: what each committed transaction does to the policy row,
    the account and endpoint rows and the credential bindings.  Account names are normalised
    before they get here, and a binding row is keyed by its locator, which is drawn with its id. */
module Catalogs {
  import opened Wrappers

  type Id = nat
  type Locator = nat
  type Secret = string

  datatype Role = Incoming | Outgoing

  datatype Status = ACTIVE | CLEANUP_REQUIRED | SUPERSEDED

  datatype Policy = Policy(attachmentDownload: bool, allowedRecipients: seq<string>, allowedSenders: seq<string>)

  datatype Profile = Profile(fullName: string, emailAddress: string, saveToSent: bool, sentFolder: Option<string>)

  datatype Account = Account(name: string, profile: Profile, enabled: bool, revision: nat, removed: bool)

  datatype Endpoint = Endpoint(
    host: string, port: int, useSsl: bool, startSsl: bool, verifySsl: bool, userName: string)

  datatype Binding = Binding(account: Id, role: Role, status: Status)

  const ACCOUNT_LIMIT := 1000

  /** `names` is the unique index on the account name; it keeps the names of removed accounts. */
  datatype Catalog = Catalog(
    revision: nat, policy: Policy, names: map<string, Id>, accounts: map<Id, Account>,
    endpoints: map<Id, map<Role, Endpoint>>, bindings: map<Locator, Binding>)

  datatype Reply<+T> = Done(value: T) | Conflict | Rejected

  function ActiveIn(c: Catalog, id: Id, role: Role): set<Locator> {
    set l | l in c.bindings && c.bindings[l] == Binding(id, role, ACTIVE)
  }

  ghost predicate Consistent(c: Catalog) {
    0 < c.revision && AccountsSound(c.names, c.accounts, c.endpoints) && BindingsSound(c.accounts, c.bindings)
  }

  ghost predicate AccountsSound(names: map<string, Id>, accounts: map<Id, Account>, endpoints: map<Id, map<Role, Endpoint>>) {
    && (forall n :: n in names ==> names[n] in accounts && accounts[names[n]].name == n)
    && (forall id :: id in accounts ==> AccountSound(names, accounts[id], id) && id in endpoints)
  }

  predicate AccountSound(names: map<string, Id>, a: Account, id: Id) {
    && a.name in names && names[a.name] == id
    && 0 < a.revision
    && (a.removed ==> !a.enabled)
  }

  /** One ACTIVE credential per account and role, and only for accounts that are not removed. */
  ghost predicate BindingsSound(accounts: map<Id, Account>, bindings: map<Locator, Binding>) {
    && (forall l :: l in bindings ==> OwnerSound(accounts, bindings[l]))
    && (forall l, k :: l in bindings && k in bindings && bindings[l].status == ACTIVE && bindings[l] == bindings[k] ==>
          l == k)
  }

  predicate OwnerSound(accounts: map<Id, Account>, b: Binding) {
    b.account in accounts && (b.status == ACTIVE ==> !accounts[b.account].removed)
  }

  /** The live account of that name. */
  function Lookup(c: Catalog, name: string): Option<Id> {
    if name in c.names && c.names[name] in c.accounts && !c.accounts[c.names[name]].removed
    then Some(c.names[name]) else None
  }

  /** Both endpoint rows are matched by an active credential, and incoming mail has one. */
  predicate Complete(c: Catalog, id: Id) {
    && id in c.endpoints
    && Incoming in c.endpoints[id] && ActiveIn(c, id, Incoming) != {}
    && (Outgoing in c.endpoints[id] <==> ActiveIn(c, id, Outgoing) != {})
  }

  function WithAccount(c: Catalog, id: Id, a: Account): Catalog {
    c.(accounts := c.accounts[id := a])
  }

  function Revised(a: Account): Account {
    a.(revision := a.revision + 1)
  }

  predicate EndpointAllowed(e: Endpoint) {
    1 <= e.port <= 65535 && !(e.useSsl && e.startSsl)
  }

  predicate ProfileAllowed(p: Profile) {
    p.fullName != "" && p.emailAddress != ""
  }

  function LiveAccounts(c: Catalog): set<Id> {
    set id | id in c.accounts && !c.accounts[id].removed
  }

  function UpdatePolicy(c: Catalog, expected: nat, policy: Policy): Reply<Catalog> {
    if expected < 1 then Rejected
    else if c.revision != expected then Conflict
    else Done(c.(revision := c.revision + 1, policy := policy))
  }

  function RolesOf(incoming: Endpoint, outgoing: Option<Endpoint>): map<Role, Endpoint> {
    if outgoing.Some? then map[Incoming := incoming, Outgoing := outgoing.value] else map[Incoming := incoming]
  }

  function AddAccount(
    c: Catalog, id: Id, name: string, profile: Profile, incoming: Endpoint, outgoing: Option<Endpoint>,
    expected: Option<nat>): Reply<Catalog>
  {
    if name == "" || !ProfileAllowed(profile) then Rejected
    else if expected.Some? && expected.value != c.revision then Conflict
    else if ACCOUNT_LIMIT <= |LiveAccounts(c)| || name in c.names then Rejected
    else if !EndpointAllowed(incoming) || (outgoing.Some? && !EndpointAllowed(outgoing.value)) then Rejected
    else Done(c.(
      revision := c.revision + 1,
      names := c.names[name := id],
      accounts := c.accounts[id := Account(name, profile, true, 1, false)],
      endpoints := c.endpoints[id := RolesOf(incoming, outgoing)]))
  }

  /** The columns of a profile to be set; the others stay. */
  datatype ProfileChange = ProfileChange(
    fullName: Option<string>, emailAddress: Option<string>, saveToSent: Option<bool>,
    sentFolder: Option<Option<string>>)
  {
    predicate Allowed() {
      (fullName.Some? ==> fullName.value != "") && (emailAddress.Some? ==> emailAddress.value != "")
    }
  }

  const NO_COLUMNS := ProfileChange(None, None, None, None)

  function NewValue<T>(current: T, change: Option<T>): T {
    if change.Some? then change.value else current
  }

  function NewProfile(p: Profile, change: ProfileChange): Profile {
    Profile(NewValue(p.fullName, change.fullName), NewValue(p.emailAddress, change.emailAddress),
            NewValue(p.saveToSent, change.saveToSent), NewValue(p.sentFolder, change.sentFolder))
  }

  datatype Change = Change(
    name: Option<string>, profile: ProfileChange, incoming: Option<Endpoint>, outgoing: Option<Endpoint>,
    removeOutgoing: bool)
  {
    predicate Allowed() {
      && (name.Some? || profile != NO_COLUMNS || incoming.Some? || outgoing.Some? || removeOutgoing)
      && (name.Some? ==> name.value != "") && profile.Allowed()
      && !(outgoing.Some? && removeOutgoing)
    }
  }

  function NewEndpoints(current: map<Role, Endpoint>, change: Change): map<Role, Endpoint> {
    var kept := if change.removeOutgoing then current - {Outgoing} else current;
    var changedIn := if change.incoming.Some? then kept[Incoming := change.incoming.value] else kept;
    if change.outgoing.Some? then changedIn[Outgoing := change.outgoing.value] else changedIn
  }

  predicate EndpointsAllowed(change: Change) {
    && (change.incoming.Some? ==> EndpointAllowed(change.incoming.value))
    && (change.outgoing.Some? ==> EndpointAllowed(change.outgoing.value))
  }

  predicate HasUnfinished(c: Catalog, id: Id, role: Role) {
    exists l :: l in c.bindings && c.bindings[l].account == id && c.bindings[l].role == role
                && c.bindings[l].status != SUPERSEDED
  }

  function UpdatedAccount(a: Account, change: Change): Account {
    Account(NewValue(a.name, change.name), NewProfile(a.profile, change.profile), a.enabled, a.revision + 1, a.removed)
  }

  function Changed(c: Catalog, id: Id, change: Change): Catalog
    requires id in c.accounts && id in c.endpoints
  {
    var a := UpdatedAccount(c.accounts[id], change);
    c.(names := (c.names - {c.accounts[id].name})[a.name := id],
       accounts := c.accounts[id := a],
       endpoints := c.endpoints[id := NewEndpoints(c.endpoints[id], change)])
  }

  function UpdateAccount(c: Catalog, name: string, expected: nat, change: Change): Reply<Catalog>
    requires Consistent(c)
  {
    if expected < 1 || !change.Allowed() then Rejected
    else if change.name.Some? && change.name.value != name && change.name.value in c.names then Rejected
    else match Lookup(c, name)
      case None => Rejected
      case Some(id) =>
        if c.accounts[id].revision != expected then Conflict
        else if change.removeOutgoing && HasUnfinished(c, id, Outgoing) then Rejected
        else if !EndpointsAllowed(change) then Rejected
        else if c.accounts[id].enabled && !Complete(Changed(c, id, change), id) then Rejected
        else Done(Changed(c, id, change))
  }

  function DisableAccount(c: Catalog, name: string, expected: nat): Reply<Catalog> {
    match Lookup(c, name)
    case None => Rejected
    case Some(id) =>
      if expected < 1 || !c.accounts[id].enabled || c.accounts[id].revision != expected then Rejected
      else Done(WithAccount(c, id, Revised(c.accounts[id]).(enabled := false)))
  }

  /** The second transaction of enabling; the first only looked up the id and read the secrets. */
  function EnableAccount(c: Catalog, id: Id, expected: nat): Reply<Catalog> {
    if id !in c.accounts || c.accounts[id].removed || c.accounts[id].enabled then Conflict
    else if c.accounts[id].revision != expected || !Complete(c, id) then Conflict
    else Done(WithAccount(c, id, Revised(c.accounts[id]).(enabled := true)))
  }

  function Demoted(bindings: map<Locator, Binding>, which: set<Locator>): map<Locator, Binding> {
    map l | l in bindings :: if l in which then bindings[l].(status := CLEANUP_REQUIRED) else bindings[l]
  }

  /** What activation writes: the old credential of the role steps down and the new one is ACTIVE. */
  function Activated(c: Catalog, id: Id, role: Role, locator: Locator): Catalog
    requires id in c.accounts
  {
    c.(bindings := Demoted(c.bindings, ActiveIn(c, id, role))[locator := Binding(id, role, ACTIVE)],
       accounts := c.accounts[id := Revised(c.accounts[id])])
  }

  predicate MayActivate(c: Catalog, id: Id, role: Role, expected: nat) {
    && id in c.accounts && !c.accounts[id].removed && c.accounts[id].revision == expected
    && id in c.endpoints && role in c.endpoints[id]
  }

  function Unfinished(c: Catalog, id: Id): set<Locator> {
    set l | l in c.bindings && c.bindings[l].account == id && c.bindings[l].status != SUPERSEDED
  }

  function SoftRemove(c: Catalog, name: string, expected: nat): Reply<Catalog> {
    match Lookup(c, name)
    case None => if expected < 1 then Rejected else Conflict
    case Some(id) =>
      if expected < 1 then Rejected
      else if c.accounts[id].revision != expected then Conflict
      else Done(c.(
        bindings := Demoted(c.bindings, Unfinished(c, id)),
        accounts := c.accounts[id := Revised(c.accounts[id]).(enabled := false, removed := true)]))
  }

  function RemoveSecret(c: Catalog, name: string, role: Role, expected: nat): Reply<Catalog> {
    match Lookup(c, name)
    case None => Rejected
    case Some(id) =>
      if expected < 1 then Rejected
      else if c.accounts[id].revision != expected then Conflict
      else if c.accounts[id].enabled || ActiveIn(c, id, role) == {} then Rejected
      else Done(c.(
        bindings := Demoted(c.bindings, ActiveIn(c, id, role)),
        accounts := c.accounts[id := Revised(c.accounts[id])]))
  }

  function Outstanding(c: Catalog): set<Locator> {
    set l | l in c.bindings && c.bindings[l].status == CLEANUP_REQUIRED
  }

  /** Claiming cleanup work moves the catalog revision if there is any. */
  function ClaimCleanup(c: Catalog, expected: Option<nat>): Reply<Catalog> {
    if expected.Some? && expected.value != c.revision then Conflict
    else Done(if Outstanding(c) == {} then c else c.(revision := c.revision + 1))
  }

  /** Marking touches only rows still waiting for it. */
  function SupersededRows(bindings: map<Locator, Binding>, which: set<Locator>): map<Locator, Binding> {
    map l | l in bindings ::
      if l in which && bindings[l].status == CLEANUP_REQUIRED then bindings[l].(status := SUPERSEDED) else bindings[l]
  }

  function Superseded(c: Catalog, which: set<Locator>): Catalog {
    c.(bindings := SupersededRows(c.bindings, which))
  }

  /** Every transaction on the catalog. */
  datatype Tx =
    | TxPolicy(catalogRevision: nat, policy: Policy)
    | TxAdd(id: Id, name: string, profile: Profile, incoming: Endpoint, outgoing: Option<Endpoint>,
            reviewed: Option<nat>)
    | TxUpdate(name: string, expected: nat, change: Change)
    | TxDisable(name: string, expected: nat)
    | TxEnable(id: Id, expected: nat)
    | TxActivate(id: Id, role: Role, expected: nat, locator: Locator)
    | TxSoftRemove(name: string, expected: nat)
    | TxRemoveSecret(name: string, role: Role, expected: nat)
    | TxClaim(reviewed: Option<nat>)
    | TxSupersede(which: set<Locator>)

  /** New ids and locators are random and never drawn twice. */
  predicate FreshNames(c: Catalog, tx: Tx) {
    && (tx.TxAdd? ==> tx.id !in c.accounts)
    && (tx.TxActivate? ==> tx.locator !in c.bindings)
  }

  function Commit(c: Catalog, tx: Tx): Reply<Catalog>
    requires Consistent(c)
  {
    match tx
    case TxPolicy(expected, policy) => UpdatePolicy(c, expected, policy)
    case TxAdd(id, name, profile, incoming, outgoing, reviewed) =>
      AddAccount(c, id, name, profile, incoming, outgoing, reviewed)
    case TxUpdate(name, expected, change) => UpdateAccount(c, name, expected, change)
    case TxDisable(name, expected) => DisableAccount(c, name, expected)
    case TxEnable(id, expected) => EnableAccount(c, id, expected)
    case TxActivate(id, role, expected, locator) =>
      if MayActivate(c, id, role, expected) then Done(Activated(c, id, role, locator)) else Conflict
    case TxSoftRemove(name, expected) => SoftRemove(c, name, expected)
    case TxRemoveSecret(name, role, expected) => RemoveSecret(c, name, role, expected)
    case TxClaim(reviewed) => ClaimCleanup(c, reviewed)
    case TxSupersede(which) => Done(Superseded(c, which))
  }

  /** Everything the account revision stands for. */
  datatype Authority = Authority(
    account: Account, endpoints: map<Role, Endpoint>, incoming: set<Locator>, outgoing: set<Locator>)

  function AuthorityOf(c: Catalog, id: Id): Authority
    requires id in c.accounts && id in c.endpoints
  {
    Authority(c.accounts[id], c.endpoints[id], ActiveIn(c, id, Incoming), ActiveIn(c, id, Outgoing))
  }

  /** Revisions name content.  They only grow, and as long as one stays the same so does everything
      it stands for; accounts are never deleted and never come back from removal. */
  ghost predicate Evolves(c: Catalog, c': Catalog) {
    && Consistent(c) && Consistent(c')
    && c.revision <= c'.revision
    && (c.revision == c'.revision ==> c.policy == c'.policy && c.accounts.Keys == c'.accounts.Keys)
    && c.accounts.Keys <= c'.accounts.Keys
    && forall id :: id in c.accounts ==> AccountEvolves(c, c', id)
  }

  ghost predicate AccountEvolves(c: Catalog, c': Catalog, id: Id)
    requires Consistent(c) && Consistent(c') && id in c.accounts && c.accounts.Keys <= c'.accounts.Keys
  {
    && c.accounts[id].revision <= c'.accounts[id].revision
    && (c.accounts[id].revision == c'.accounts[id].revision ==> AuthorityOf(c, id) == AuthorityOf(c', id))
    && (c.accounts[id].removed ==> c'.accounts[id].removed)
  }

  lemma EvolvesIsTransitive(a: Catalog, b: Catalog, c: Catalog)
    requires Evolves(a, b) && Evolves(b, c)
    ensures Evolves(a, c)
  {
  }

  lemma OthersKeepActive(c: Catalog, c': Catalog, id: Id, which: set<Locator>)
    requires forall l :: l in which ==> l in c.bindings && c.bindings[l].account == id
    requires c'.bindings == Demoted(c.bindings, which)
    ensures forall other, role :: other != id ==> ActiveIn(c', other, role) == ActiveIn(c, other, role)
  {
  }

  lemma SameBindings(c: Catalog, c': Catalog)
    requires c.bindings == c'.bindings
    ensures forall id, role :: ActiveIn(c', id, role) == ActiveIn(c, id, role)
  {
  }

  lemma ActivatedEvolves(c: Catalog, id: Id, role: Role, expected: nat, locator: Locator)
    requires Consistent(c) && MayActivate(c, id, role, expected) && locator !in c.bindings
    ensures Evolves(c, Activated(c, id, role, locator))
  {
    var c' := Activated(c, id, role, locator);
    ActivatedIsConsistent(c, id, role, expected, locator);
    var demoted := c.(bindings := Demoted(c.bindings, ActiveIn(c, id, role)));
    OthersKeepActive(c, demoted, id, ActiveIn(c, id, role));
    forall other | other in c.accounts ensures AccountEvolves(c, c', other) {
      if other != id {
        assert ActiveIn(c', other, Incoming) == ActiveIn(demoted, other, Incoming);
        assert ActiveIn(c', other, Outgoing) == ActiveIn(demoted, other, Outgoing);
      }
    }
  }

  lemma ActivatedIsConsistent(c: Catalog, id: Id, role: Role, expected: nat, locator: Locator)
    requires Consistent(c) && MayActivate(c, id, role, expected) && locator !in c.bindings
    ensures Consistent(Activated(c, id, role, locator))
  {
    var c' := Activated(c, id, role, locator);
    var demoted := Demoted(c.bindings, ActiveIn(c, id, role));
    forall l | l in demoted ensures demoted[l] != Binding(id, role, ACTIVE) {
      assert l in ActiveIn(c, id, role) <==> c.bindings[l] == Binding(id, role, ACTIVE);
    }
    forall l, k | l in c'.bindings && k in c'.bindings && c'.bindings[l].status == ACTIVE && c'.bindings[l] == c'.bindings[k]
      ensures l == k
    {
      if l != locator && k != locator {
        assert c.bindings[l] == c'.bindings[l] && c.bindings[k] == c'.bindings[k];
      }
    }
  }

  /** Stepping down every listed credential of one account, whose revision moves. */
  lemma DemotedEvolves(c: Catalog, id: Id, which: set<Locator>, a: Account)
    requires Consistent(c) && id in c.accounts
    requires forall l :: l in which ==> l in c.bindings && c.bindings[l].account == id
    requires a.name == c.accounts[id].name && a.revision == c.accounts[id].revision + 1
    requires c.accounts[id].removed ==> a.removed
    requires a.removed ==> !a.enabled && Unfinished(c, id) <= which
    ensures Evolves(c, c.(bindings := Demoted(c.bindings, which), accounts := c.accounts[id := a]))
  {
    var c' := c.(bindings := Demoted(c.bindings, which), accounts := c.accounts[id := a]);
    OthersKeepActive(c, c', id, which);
    DemotedIsConsistent(c, id, which, a);
    forall other | other in c.accounts ensures AccountEvolves(c, c', other) {
    }
  }

  lemma DemotedIsConsistent(c: Catalog, id: Id, which: set<Locator>, a: Account)
    requires Consistent(c) && id in c.accounts
    requires forall l :: l in which ==> l in c.bindings && c.bindings[l].account == id
    requires a.name == c.accounts[id].name && 0 < a.revision
    requires c.accounts[id].removed ==> a.removed
    requires a.removed ==> !a.enabled && Unfinished(c, id) <= which
    ensures Consistent(c.(bindings := Demoted(c.bindings, which), accounts := c.accounts[id := a]))
  {
  }

  lemma WithAccountEvolves(c: Catalog, id: Id, a: Account)
    requires Consistent(c) && id in c.accounts
    requires a.name == c.accounts[id].name && a.revision == c.accounts[id].revision + 1
    requires !a.removed && !c.accounts[id].removed
    ensures Evolves(c, WithAccount(c, id, a))
  {
  }

  lemma AddedEvolves(c: Catalog, tx: Tx)
    requires Consistent(c) && tx.TxAdd? && FreshNames(c, tx) && Commit(c, tx).Done?
    ensures Evolves(c, Commit(c, tx).value)
  {
    SameBindings(c, Commit(c, tx).value);
  }

  lemma UpdatedEvolves(c: Catalog, name: string, expected: nat, change: Change)
    requires Consistent(c) && UpdateAccount(c, name, expected, change).Done?
    ensures Evolves(c, UpdateAccount(c, name, expected, change).value)
  {
    var id := Lookup(c, name).value;
    var c' := Changed(c, id, change);
    SameBindings(c, c');
  }

  lemma SupersededEvolves(c: Catalog, which: set<Locator>)
    requires Consistent(c)
    ensures Evolves(c, Superseded(c, which))
  {
    var c' := Superseded(c, which);
    forall id, role ensures ActiveIn(c', id, role) == ActiveIn(c, id, role) {
      forall l ensures l in ActiveIn(c', id, role) <==> l in ActiveIn(c, id, role) {
      }
    }
  }

  lemma FlagEvolves(c: Catalog, tx: Tx)
    requires Consistent(c) && (tx.TxDisable? || tx.TxEnable?) && Commit(c, tx).Done?
    ensures Evolves(c, Commit(c, tx).value)
  {
    var id := if tx.TxEnable? then tx.id else Lookup(c, tx.name).value;
    WithAccountEvolves(c, id, Revised(c.accounts[id]).(enabled := tx.TxEnable?));
  }

  lemma RemovalEvolves(c: Catalog, name: string, expected: nat)
    requires Consistent(c) && SoftRemove(c, name, expected).Done?
    ensures Evolves(c, SoftRemove(c, name, expected).value)
  {
    var id := Lookup(c, name).value;
    DemotedEvolves(c, id, Unfinished(c, id), Revised(c.accounts[id]).(enabled := false, removed := true));
  }

  lemma SecretRemovalEvolves(c: Catalog, name: string, role: Role, expected: nat)
    requires Consistent(c) && RemoveSecret(c, name, role, expected).Done?
    ensures Evolves(c, RemoveSecret(c, name, role, expected).value)
  {
    var id := Lookup(c, name).value;
    DemotedEvolves(c, id, ActiveIn(c, id, role), Revised(c.accounts[id]));
  }

  lemma CatalogRowEvolves(c: Catalog, c': Catalog)
    requires Consistent(c) && c.revision < c'.revision && c' == c.(revision := c'.revision, policy := c'.policy)
    ensures Evolves(c, c')
  {
  }

  lemma EvolvesIsReflexive(c: Catalog)
    requires Consistent(c)
    ensures Evolves(c, c)
  {
  }

  /** Every transaction that commits respects the revisions. */
  lemma CommitEvolves(c: Catalog, tx: Tx)
    requires Consistent(c) && FreshNames(c, tx) && Commit(c, tx).Done?
    ensures Evolves(c, Commit(c, tx).value)
  {
    match tx
    case TxPolicy(_, _) => CatalogRowEvolves(c, Commit(c, tx).value);
    case TxAdd(_, _, _, _, _, _) => AddedEvolves(c, tx);
    case TxUpdate(name, expected, change) => UpdatedEvolves(c, name, expected, change);
    case TxDisable(_, _) => FlagEvolves(c, tx);
    case TxEnable(_, _) => FlagEvolves(c, tx);
    case TxActivate(id, role, expected, locator) => ActivatedEvolves(c, id, role, expected, locator);
    case TxSoftRemove(name, expected) => RemovalEvolves(c, name, expected);
    case TxRemoveSecret(name, role, expected) => SecretRemovalEvolves(c, name, role, expected);
    case TxClaim(_) =>
      if Outstanding(c) == {} {
        EvolvesIsReflexive(c);
      } else {
        CatalogRowEvolves(c, Commit(c, tx).value);
      }
    case TxSupersede(which) => SupersededEvolves(c, which);
  }

  /** Enabled implies complete.  A newly added account is enabled before it has credentials; once it
      is complete, or disabled, it is settled. */
  predicate Settled(c: Catalog, id: Id) {
    id in c.accounts && (c.accounts[id].enabled ==> Complete(c, id))
  }

  /** Once settled, always settled: no transaction leaves an enabled account incomplete. */
  lemma SettledStays(c: Catalog, tx: Tx, id: Id)
    requires Consistent(c) && FreshNames(c, tx) && Commit(c, tx).Done? && Settled(c, id)
    ensures Settled(Commit(c, tx).value, id)
  {
    var c' := Commit(c, tx).value;
    CommitEvolves(c, tx);
    assert AccountEvolves(c, c', id);
    if c.accounts[id].revision != c'.accounts[id].revision && c'.accounts[id].enabled {
      TouchedStaysComplete(c, tx, id);
    }
  }

  /** The only transactions that revise an account and leave it enabled check or keep completeness. */
  lemma TouchedStaysComplete(c: Catalog, tx: Tx, id: Id)
    requires Consistent(c) && FreshNames(c, tx) && Commit(c, tx).Done? && Settled(c, id)
    requires var c' := Commit(c, tx).value;
      id in c'.accounts && c.accounts[id].revision != c'.accounts[id].revision && c'.accounts[id].enabled
    ensures Complete(Commit(c, tx).value, id)
  {
    var c' := Commit(c, tx).value;
    match tx
    case TxEnable(_, _) => SameBindings(c, c');
    case TxActivate(_, role, _, locator) => ActivationCompletes(c, id, role, locator);
    case _ =>
  }

  lemma ActivationCompletes(c: Catalog, id: Id, role: Role, locator: Locator)
    requires id in c.accounts && id in c.endpoints && role in c.endpoints[id] && locator !in c.bindings
    requires Complete(c, id)
    ensures Complete(Activated(c, id, role, locator), id)
  {
    var c' := Activated(c, id, role, locator);
    assert locator in ActiveIn(c', id, role);
    forall other | other != role ensures ActiveIn(c', id, other) == ActiveIn(c, id, other) {
      forall l ensures l in ActiveIn(c', id, other) <==> l in ActiveIn(c, id, other) {
      }
    }
  }
}
