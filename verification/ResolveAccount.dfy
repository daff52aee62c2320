/** Resolving an account for use.  The authority is read with several separate SELECTs, three times,
    around the secret store reads, while every other party goes on; equal reads are accepted. */
module ResolveAccount {
  import opened Catalogs
  import opened CredentialRuns
  import opened Wrappers

  /** What one pass over the tables saw, each part at its own moment. */
  datatype Snapshot = Snapshot(catalogRevision: nat, policy: Policy, id: Id, authority: Authority)

  datatype Resolution = Resolution(
    policy: Policy, account: Account, endpoints: map<Role, Endpoint>, secrets: map<Role, Secret>,
    id: Id, accountRevision: nat, catalogRevision: nat)

  const FIRST := 0
  const SECOND := 4
  const SECRETS := 8
  const LAST := 10
  const MOMENTS := 14

  /** The systems in which the statements run, in order; any number of events happen in between. */
  ghost predicate Unfolds(at: seq<System>) {
    |at| == MOMENTS && exists states, events, n: seq<nat> :: Visits(states, events, n, at)
  }

  ghost predicate Visits(states: seq<System>, events: seq<Event>, n: seq<nat>, at: seq<System>) {
    && Run(states, events) && |n| == |at|
    && (forall i :: 0 <= i < |n| ==> n[i] < |states| && at[i] == states[n[i]])
    && (forall i, j :: 0 <= i <= j < |n| ==> n[i] <= n[j])
  }

  lemma LaterIsConsistent(at: seq<System>, i: nat, j: nat)
    requires Unfolds(at) && i <= j < MOMENTS
    ensures Inv(at[i]) && Inv(at[j]) && Evolves(at[i].catalog, at[j].catalog) && GivenStays(at[i], at[j])
  {
    var states, events, n :| Visits(states, events, n, at);
    InitialInv(states[0]);
    PathIsSound(states, events, n[i], n[j]);
  }

  /** One pass: the catalog row, the account row, its endpoints and its ACTIVE bindings, read at four
      moments from `start` on. */
  function Read(at: seq<System>, start: nat, name: string, roles: set<Role>): Option<Snapshot>
    requires start + 4 <= |at|
  {
    var catalog := at[start].catalog;
    var c := at[start + 1].catalog;
    var id := Lookup(c, name);
    if id.None? || !c.accounts[id.value].enabled then None
    else
      var bindings := at[start + 3].catalog;
      var endpoints := EndpointsOf(at[start + 2].catalog, id.value);
      var authority := Authority(
        c.accounts[id.value], endpoints, ActiveIn(bindings, id.value, Incoming), ActiveIn(bindings, id.value, Outgoing));
      if Usable(authority, roles) then Some(Snapshot(catalog.revision, catalog.policy, id.value, authority)) else None
  }

  function EndpointsOf(c: Catalog, id: Id): map<Role, Endpoint> {
    if id in c.endpoints then c.endpoints[id] else map[]
  }

  function Credential(authority: Authority, role: Role): set<Locator> {
    if role == Incoming then authority.incoming else authority.outgoing
  }

  predicate Usable(authority: Authority, roles: set<Role>) {
    && Incoming in authority.endpoints && authority.incoming != {}
    && (Outgoing in authority.endpoints <==> authority.outgoing != {})
    && forall role :: role in roles ==> role in authority.endpoints && Credential(authority, role) != {}
  }

  ghost predicate HeldFor(authority: Authority, role: Role, store: map<Locator, Secret>, value: Secret) {
    exists l :: l in Credential(authority, role) && Holds(store, l, value)
  }

  function SecretMoment(role: Role): nat {
    if role == Incoming then SECRETS else SECRETS + 1
  }

  /** The secret store may be unreachable; otherwise it answers with what it holds. */
  method ReadSecret(authority: Authority, role: Role, store: map<Locator, Secret>, reachable: bool)
    returns (r: Option<Secret>)
    requires Credential(authority, role) != {}
    ensures r.Some? ==> HeldFor(authority, role, store, r.value)
    ensures reachable && Credential(authority, role) <= store.Keys ==> r.Some?
  {
    var l :| l in Credential(authority, role);
    r := if reachable && l in store then Some(store[l]) else None;
  }

  method ReadSecrets(authority: Authority, roles: set<Role>, at: seq<System>, reachable: map<Role, bool>)
    returns (r: Option<map<Role, Secret>>)
    requires |at| == MOMENTS && Usable(authority, roles) && reachable.Keys == {Incoming, Outgoing}
    ensures r.Some? ==> SecretsRead(authority, roles, at, r.value)
    ensures SecretsPresent(authority, roles, at) && AllReachable(roles, reachable) ==> r.Some?
  {
    var secrets: map<Role, Secret> := map[];
    if Incoming in roles {
      var value := ReadSecret(authority, Incoming, at[SecretMoment(Incoming)].store, reachable[Incoming]);
      if value.None? {
        return None;
      }
      secrets := secrets[Incoming := value.value];
    }
    if Outgoing in roles {
      var value := ReadSecret(authority, Outgoing, at[SecretMoment(Outgoing)].store, reachable[Outgoing]);
      if value.None? {
        return None;
      }
      secrets := secrets[Outgoing := value.value];
    }
    r := Some(secrets);
  }

  ghost predicate SecretsRead(authority: Authority, roles: set<Role>, at: seq<System>, secrets: map<Role, Secret>)
    requires |at| == MOMENTS
  {
    && secrets.Keys == roles
    && forall role :: role in roles ==> HeldFor(authority, role, at[SecretMoment(role)].store, secrets[role])
  }

  predicate AllReachable(roles: set<Role>, reachable: map<Role, bool>) {
    forall role :: role in roles ==> role in reachable && reachable[role]
  }

  predicate SecretsPresent(authority: Authority, roles: set<Role>, at: seq<System>)
    requires |at| == MOMENTS
  {
    forall role :: role in roles ==> Credential(authority, role) <= at[SecretMoment(role)].store.Keys
  }

  function ToResolution(s: Snapshot, secrets: map<Role, Secret>): Resolution {
    Resolution(s.policy, s.authority.account, s.authority.endpoints, secrets,
               s.id, s.authority.account.revision, s.catalogRevision)
  }

  /** Whatever other parties do between its statements, an answer combines nothing stale: all of it
      belongs to the state of the last read of the catalog row. */
  method Resolve(name: string, roles: set<Role>, at: seq<System>, reachable: map<Role, bool>)
    returns (r: Option<Resolution>)
    requires Unfolds(at) && reachable.Keys == {Incoming, Outgoing}
    ensures r.Some? ==> IsAuthorityOf(at[LAST], r.value, name, roles)
    ensures r.Some? ==> Undisturbed(at, name, roles)
    ensures Undisturbed(at, name, roles) && AllReachable(roles, reachable) && SafeWhileReading(at) ==> r.Some?
  {
    if Undisturbed(at, name, roles) && SafeWhileReading(at) {
      SecretsArePresent(at, name, roles);
    }
    var initial := Read(at, FIRST, name, roles);
    if initial.None? || Read(at, SECOND, name, roles) != initial {
      return None;
    }
    var secrets := ReadSecrets(initial.value.authority, roles, at, reachable);
    if secrets.None? {
      return None;
    }
    var current := Read(at, LAST, name, roles);
    if current != initial {
      return None;
    }
    OneState(at, name, roles);
    SecretsBelong(at, name, roles, secrets.value);
    r := Some(ToResolution(current.value, secrets.value));
  }

  /** All three passes find a usable account and agree. */
  predicate Undisturbed(at: seq<System>, name: string, roles: set<Role>)
    requires |at| == MOMENTS
  {
    && Read(at, FIRST, name, roles).Some?
    && Read(at, SECOND, name, roles) == Read(at, FIRST, name, roles)
    && Read(at, LAST, name, roles) == Read(at, FIRST, name, roles)
  }

  /** No credential in use has lost its secret, as without a misread rollback none ever does. */
  ghost predicate SafeWhileReading(at: seq<System>)
    requires |at| == MOMENTS
  {
    Safe(at[SecretMoment(Incoming)]) && Safe(at[SecretMoment(Outgoing)])
  }

  /** If the passes agree, the credentials they saw could be read from the store in between. */
  lemma SecretsArePresent(at: seq<System>, name: string, roles: set<Role>)
    requires Unfolds(at) && Undisturbed(at, name, roles) && SafeWhileReading(at)
    ensures SecretsPresent(Read(at, FIRST, name, roles).value.authority, roles, at)
  {
    var s := Read(at, FIRST, name, roles).value;
    OneState(at, name, roles);
    forall role, l | role in roles && l in Credential(s.authority, role)
      ensures l in at[SecretMoment(role)].store
    {
      CredentialIsGiven(at, s.id, s.authority, role, l);
    }
  }

  /** Everything in the answer is what one single state of the catalog says: the policy, the enabled
      account and its endpoints, and for each role the value given for its ACTIVE credential. */
  ghost predicate IsAuthorityOf(s: System, r: Resolution, name: string, roles: set<Role>) {
    && Consistent(s.catalog)
    && r.catalogRevision == s.catalog.revision && r.policy == s.catalog.policy
    && Lookup(s.catalog, name) == Some(r.id)
    && r.account == s.catalog.accounts[r.id] && r.account.enabled
    && r.accountRevision == r.account.revision
    && r.endpoints == s.catalog.endpoints[r.id]
    && r.secrets.Keys == roles
    && forall role :: role in roles ==> IsGiven(s, r.id, role, r.secrets[role])
  }

  ghost predicate IsGiven(s: System, id: Id, role: Role, value: Secret) {
    exists l :: l in ActiveIn(s.catalog, id, role) && l in s.given && s.given[l] == value
  }

  /** Two equal passes are passes over one state, although each was torn: between the two reads of the
      account row, and between the two reads of the catalog row, nothing that was read changed. */
  lemma OneState(at: seq<System>, name: string, roles: set<Role>)
    requires Unfolds(at)
    requires Read(at, FIRST, name, roles).Some? && Read(at, LAST, name, roles) == Read(at, FIRST, name, roles)
    ensures var s := Read(at, LAST, name, roles).value;
      var c := at[LAST].catalog;
      && Consistent(c)
      && s.catalogRevision == c.revision && s.policy == c.policy
      && Lookup(c, name) == Some(s.id)
      && s.authority == AuthorityOf(c, s.id) && s.authority.account.enabled
  {
    var s := Read(at, FIRST, name, roles).value;
    SameAuthority(at, FIRST + 1, FIRST + 2, LAST + 1, s.id);
    SameAuthority(at, FIRST + 1, FIRST + 3, LAST + 1, s.id);
    SameAuthority(at, FIRST + 1, LAST, LAST + 1, s.id);
  }

  /** An account row read twice with one revision is the row at every moment in between. */
  lemma SameAuthority(at: seq<System>, i: nat, j: nat, k: nat, id: Id)
    requires Unfolds(at) && i <= j <= k < MOMENTS
    requires id in at[i].catalog.accounts && id in at[k].catalog.accounts
    requires at[i].catalog.accounts[id].revision == at[k].catalog.accounts[id].revision
    ensures Consistent(at[i].catalog) && Consistent(at[j].catalog) && id in at[j].catalog.accounts
    ensures AuthorityOf(at[j].catalog, id) == AuthorityOf(at[i].catalog, id)
  {
    LaterIsConsistent(at, i, j);
    LaterIsConsistent(at, j, k);
    assert AccountEvolves(at[i].catalog, at[j].catalog, id);
    assert AccountEvolves(at[j].catalog, at[k].catalog, id);
  }

  lemma SecretsBelong(at: seq<System>, name: string, roles: set<Role>, secrets: map<Role, Secret>)
    requires Unfolds(at)
    requires Read(at, FIRST, name, roles).Some? && Read(at, LAST, name, roles) == Read(at, FIRST, name, roles)
    requires SecretsRead(Read(at, FIRST, name, roles).value.authority, roles, at, secrets)
    ensures forall role :: role in roles ==>
      IsGiven(at[LAST], Read(at, LAST, name, roles).value.id, role, secrets[role])
  {
    var s := Read(at, FIRST, name, roles).value;
    OneState(at, name, roles);
    forall role | role in roles ensures IsGiven(at[LAST], s.id, role, secrets[role]) {
      var l :| l in Credential(s.authority, role) && Holds(at[SecretMoment(role)].store, l, secrets[role]);
      CredentialIsGiven(at, s.id, s.authority, role, l);
    }
  }

  /** A credential that is ACTIVE around the read of its secret holds the value it was given, or none. */
  lemma CredentialIsGiven(at: seq<System>, id: Id, authority: Authority, role: Role, l: Locator)
    requires Unfolds(at) && id in at[LAST].catalog.accounts && id in at[LAST].catalog.endpoints
    requires id in at[FIRST + 1].catalog.accounts && id in at[LAST + 1].catalog.accounts
    requires at[FIRST + 1].catalog.accounts[id].revision == at[LAST + 1].catalog.accounts[id].revision
    requires authority == AuthorityOf(at[LAST].catalog, id) && l in Credential(authority, role)
    ensures l in at[LAST].given
    ensures l in at[SecretMoment(role)].store ==> at[LAST].given[l] == at[SecretMoment(role)].store[l]
    ensures Safe(at[SecretMoment(role)]) ==> l in at[SecretMoment(role)].store
  {
    var k := SecretMoment(role);
    SameAuthority(at, FIRST + 1, k, LAST + 1, id);
    SameAuthority(at, FIRST + 1, LAST, LAST + 1, id);
    LaterIsConsistent(at, k, LAST);
    assert BindingKept(at[k].catalog.bindings[l], l, at[k].store, at[k].given);
  }
}
