/** What the catalog transactions mean to their callers: what they leave alone, what they guarantee
    afterwards, and that of several writers with the same expected revision at most one succeeds. */
module CatalogEffects {
  import opened Catalogs
  import opened Wrappers

  /** A transaction commits on one catalog and leaves the other. */
  ghost predicate Commits(c: Catalog, tx: Tx, c': Catalog) {
    Consistent(c) && FreshNames(c, tx) && Commit(c, tx) == Done(c')
  }

  lemma NameOf(c: Catalog, id: Id)
    requires Consistent(c) && id in c.accounts && !c.accounts[id].removed
    ensures Lookup(c, c.accounts[id].name) == Some(id)
  {
  }

  /** The account whose revision a transaction moves, if any. */
  function Touches(c: Catalog, tx: Tx): Option<Id> {
    match tx
    case TxAdd(id, _, _, _, _, _) => Some(id)
    case TxUpdate(name, _, _) => Lookup(c, name)
    case TxDisable(name, _) => Lookup(c, name)
    case TxEnable(id, _) => Some(id)
    case TxActivate(id, _, _, _) => Some(id)
    case TxSoftRemove(name, _) => Lookup(c, name)
    case TxRemoveSecret(name, _, _) => Lookup(c, name)
    case _ => None
  }

  function AccountBump(tx: Tx): nat {
    if tx.TxPolicy? || tx.TxClaim? || tx.TxSupersede? then 0 else 1
  }

  function CatalogBump(c: Catalog, tx: Tx): nat {
    if tx.TxPolicy? || tx.TxAdd? || (tx.TxClaim? && Outstanding(c) != {}) then 1 else 0
  }

  function AddBump(tx: Tx): nat {
    if tx.TxAdd? then 1 else 0
  }

  /** What one committed transaction does to the counters: exactly one step each. */
  lemma CommitCounts(c: Catalog, tx: Tx)
    requires Consistent(c) && FreshNames(c, tx) && Commit(c, tx).Done?
    ensures var c' := Commit(c, tx).value;
      && c'.revision == c.revision + CatalogBump(c, tx)
      && |c'.accounts| == |c.accounts| + AddBump(tx)
      && (Touches(c, tx).Some? <==> AccountBump(tx) == 1)
      && (Touches(c, tx).None? ==> c'.accounts == c.accounts)
      && (Touches(c, tx).Some? ==> BumpsOnly(c, c', Touches(c, tx).value))
  {
    if AccountBump(tx) == 1 {
      AccountTxShape(c, tx);
      var c' := Commit(c, tx).value;
      var id := Touches(c, tx).value;
      OneRow(c, c', id, c'.accounts[id]);
    }
  }

  /** An account transaction rewrites one live row, or adds one, and moves its revision by one. */
  lemma AccountTxShape(c: Catalog, tx: Tx)
    requires Consistent(c) && FreshNames(c, tx) && Commit(c, tx).Done? && AccountBump(tx) == 1
    ensures Touches(c, tx).Some?
    ensures var c' := Commit(c, tx).value;
      var id := Touches(c, tx).value;
      && id in c'.accounts && c'.accounts == c.accounts[id := c'.accounts[id]]
      && (id in c.accounts <==> !tx.TxAdd?)
      && c'.accounts[id].revision == (if id in c.accounts then c.accounts[id].revision else 0) + 1
      && (id in c.accounts ==> !c.accounts[id].removed)
      && c'.revision == c.revision + CatalogBump(c, tx)
  {
  }

  lemma OneRow(c: Catalog, c': Catalog, id: Id, a: Account)
    requires c'.accounts == c.accounts[id := a] && id in c'.accounts
    requires a.revision == (if id in c.accounts then c.accounts[id].revision else 0) + 1
    requires id in c.accounts ==> !c.accounts[id].removed
    ensures BumpsOnly(c, c', id)
    ensures |c'.accounts| == |c.accounts| + (if id in c.accounts then 0 else 1)
  {
  }

  predicate BumpsOnly(c: Catalog, c': Catalog, id: Id) {
    && id in c'.accounts
    && c'.accounts.Keys == c.accounts.Keys + {id}
    && c'.accounts[id].revision == (if id in c.accounts then c.accounts[id].revision else 0) + 1
    && (id in c.accounts ==> !c.accounts[id].removed)
    && forall other :: other in c.accounts && other != id ==> c'.accounts[other] == c.accounts[other]
  }

  lemma NewSize<K, V>(m: map<K, V>, k: K, v: V)
    ensures |m[k := v]| == |m| + (if k in m then 0 else 1)
  {
  }

  /** The revision of an account that a transaction insists on. */
  function ExpectedRevision(tx: Tx): Option<nat> {
    match tx
    case TxUpdate(_, expected, _) => Some(expected)
    case TxDisable(_, expected) => Some(expected)
    case TxEnable(_, expected) => Some(expected)
    case TxActivate(_, _, expected, _) => Some(expected)
    case TxSoftRemove(_, expected) => Some(expected)
    case TxRemoveSecret(_, _, expected) => Some(expected)
    case _ => None
  }

  /** The catalog revision that a transaction insists on. */
  function ExpectedCatalog(tx: Tx): Option<nat> {
    match tx
    case TxPolicy(expected, _) => Some(expected)
    case TxAdd(_, _, _, _, _, reviewed) => reviewed
    case TxClaim(reviewed) => reviewed
    case _ => None
  }

  lemma DoneMatches(c: Catalog, tx: Tx)
    requires Consistent(c) && Commit(c, tx).Done?
    ensures ExpectedCatalog(tx).Some? ==> ExpectedCatalog(tx) == Some(c.revision)
    ensures ExpectedRevision(tx).Some? ==>
      Touches(c, tx).Some? && Touches(c, tx).value in c.accounts
      && ExpectedRevision(tx) == Some(c.accounts[Touches(c, tx).value].revision)
  {
  }

  /** No update is lost.  Once a writer has committed at a revision of an account, every other writer
      that carries the same revision of that account fails, whatever else was committed in between;
      and likewise for writers that carry the same catalog revision. */
  lemma StaleWritersLose(c: Catalog, tx: Tx, later: Catalog, other: Tx)
    requires Consistent(c) && FreshNames(c, tx) && Commit(c, tx).Done? && Evolves(Commit(c, tx).value, later)
    requires SameExpectation(c, tx, later, other)
    ensures !Commit(later, other).Done?
  {
    var c' := Commit(c, tx).value;
    CommitCounts(c, tx);
    DoneMatches(c, tx);
    if Touches(c, tx).Some? {
      assert AccountEvolves(c', later, Touches(c, tx).value);
    }
    if Commit(later, other).Done? {
      DoneMatches(later, other);
    }
  }

  predicate SameExpectation(c: Catalog, tx: Tx, later: Catalog, other: Tx) {
    || (ExpectedRevision(tx).Some? && ExpectedRevision(other) == ExpectedRevision(tx)
        && Touches(later, other) == Touches(c, tx))
    || (CatalogBump(c, tx) == 1 && ExpectedCatalog(tx).Some? && ExpectedCatalog(other) == ExpectedCatalog(tx))
  }

  /** Two catalogs differ at most in one account and its endpoints. */
  predicate SameElsewhere(c: Catalog, c': Catalog, id: Id) {
    && c'.accounts - {id} == c.accounts - {id} && c'.endpoints - {id} == c.endpoints - {id}
    && c'.bindings == c.bindings
  }

  /** A changed endpoint is the one asked for, a removed one is gone, any other stays as it was. */
  predicate EndpointsFollow(current: map<Role, Endpoint>, changed: map<Role, Endpoint>, change: Change) {
    && (if change.incoming.Some? then Incoming in changed && changed[Incoming] == change.incoming.value
        else SameAt(current, changed, Incoming))
    && (if change.outgoing.Some? then Outgoing in changed && changed[Outgoing] == change.outgoing.value
        else if change.removeOutgoing then Outgoing !in changed
        else SameAt(current, changed, Outgoing))
  }

  /** Each column named by the change has the new value, each other one the old. */
  predicate ProfileFollows(p: Profile, p': Profile, change: ProfileChange) {
    && (if change.fullName.Some? then p'.fullName == change.fullName.value else p'.fullName == p.fullName)
    && (if change.emailAddress.Some? then p'.emailAddress == change.emailAddress.value
        else p'.emailAddress == p.emailAddress)
    && (if change.saveToSent.Some? then p'.saveToSent == change.saveToSent.value else p'.saveToSent == p.saveToSent)
    && (if change.sentFolder.Some? then p'.sentFolder == change.sentFolder.value else p'.sentFolder == p.sentFolder)
  }

  predicate SameAt(m: map<Role, Endpoint>, n: map<Role, Endpoint>, role: Role) {
    (role in m <==> role in n) && (role in m ==> m[role] == n[role])
  }

  /** An accepted update moves one revision by one and is found under the new name only; it touches no
      other account and no credential, keeps what it does not name, never leaves an enabled account
      incomplete and never takes the server away from under a credential. */
  lemma UpdateIsConfined(c: Catalog, name: string, expected: nat, change: Change)
    requires Consistent(c) && UpdateAccount(c, name, expected, change).Done?
    ensures Lookup(c, name).Some?
    ensures var c' := UpdateAccount(c, name, expected, change).value;
      var id := Lookup(c, name).value;
      && id in c'.accounts && id in c'.endpoints
      && SameElsewhere(c, c', id) && c'.policy == c.policy && c'.revision == c.revision
      && c.accounts[id].revision == expected && c'.accounts[id].revision == expected + 1
      && c'.accounts[id].enabled == c.accounts[id].enabled && !c'.accounts[id].removed
      && ProfileFollows(c.accounts[id].profile, c'.accounts[id].profile, change.profile)
      && EndpointsFollow(c.endpoints[id], c'.endpoints[id], change)
      && (c'.accounts[id].enabled ==> Complete(c', id))
      && (change.removeOutgoing ==> !HasUnfinished(c', id, Outgoing))
  {
  }

  lemma UpdateMovesTheName(c: Catalog, name: string, expected: nat, change: Change)
    requires Consistent(c) && UpdateAccount(c, name, expected, change).Done?
    ensures var c' := UpdateAccount(c, name, expected, change).value;
      && Lookup(c', c'.accounts[Lookup(c, name).value].name) == Lookup(c, name)
      && (change.name.Some? && change.name.value != name ==> Lookup(c', name) == None)
      && forall other :: other != name && change.name != Some(other) ==> Lookup(c', other) == Lookup(c, other)
  {
    var c' := UpdateAccount(c, name, expected, change).value;
    var id := Lookup(c, name).value;
    forall other | other != name && change.name != Some(other) ensures Lookup(c', other) == Lookup(c, other) {
      assert other in c.names ==> c.accounts[c.names[other]].name == other;
    }
  }

  /** An added account is enabled, at revision 1 and found under its name, which no account had, not even
      a removed one; nothing else changes. */
  lemma AddIsConfined(
    c: Catalog, id: Id, name: string, profile: Profile, incoming: Endpoint, outgoing: Option<Endpoint>,
    expected: Option<nat>)
    requires Consistent(c) && id !in c.accounts
    requires AddAccount(c, id, name, profile, incoming, outgoing, expected).Done?
    ensures var c' := AddAccount(c, id, name, profile, incoming, outgoing, expected).value;
      && Lookup(c', name) == Some(id) && c'.accounts[id] == Account(name, profile, true, 1, false)
      && SameElsewhere(c, c', id) && c'.policy == c.policy && c'.revision == c.revision + 1
      && (forall other :: other in c.accounts ==> c.accounts[other].name != name)
  {
    NameUnused(c, name);
  }

  /** It is still incomplete, and the limit on live accounts holds with it. */
  lemma AddedIsIncomplete(
    c: Catalog, id: Id, name: string, profile: Profile, incoming: Endpoint, outgoing: Option<Endpoint>,
    expected: Option<nat>)
    requires Consistent(c) && id !in c.accounts
    requires AddAccount(c, id, name, profile, incoming, outgoing, expected).Done?
    ensures var c' := AddAccount(c, id, name, profile, incoming, outgoing, expected).value;
      && !Complete(c', id) && !Settled(c', id)
      && |LiveAccounts(c')| == |LiveAccounts(c)| + 1 <= ACCOUNT_LIMIT
  {
    var c' := AddAccount(c, id, name, profile, incoming, outgoing, expected).value;
    assert LiveAccounts(c') == LiveAccounts(c) + {id};
    NoCredentials(c, id);
    assert ActiveIn(c', id, Incoming) == ActiveIn(c, id, Incoming);
  }

  lemma NameUnused(c: Catalog, name: string)
    requires Consistent(c) && name !in c.names
    ensures forall other :: other in c.accounts ==> c.accounts[other].name != name
  {
    forall other | other in c.accounts ensures c.accounts[other].name != name {
      assert AccountSound(c.names, c.accounts[other], other);
    }
  }

  lemma NoCredentials(c: Catalog, id: Id)
    requires Consistent(c) && id !in c.accounts
    ensures forall role :: ActiveIn(c, id, role) == {}
  {
    forall l | l in c.bindings ensures c.bindings[l].account != id {
      assert OwnerSound(c.accounts, c.bindings[l]);
    }
  }

  /** A disabled account keeps its credentials and servers and cannot be disabled twice; it is settled,
      so that no transaction will ever enable it incomplete. */
  lemma DisableIsConfined(c: Catalog, name: string, expected: nat)
    requires Consistent(c) && DisableAccount(c, name, expected).Done?
    ensures Lookup(c, name).Some?
    ensures var c' := DisableAccount(c, name, expected).value;
      var id := Lookup(c, name).value;
      && SameElsewhere(c, c', id) && c'.policy == c.policy && c'.revision == c.revision
      && c.accounts[id].enabled && c.accounts[id].revision == expected
      && c'.accounts[id] == c.accounts[id].(enabled := false, revision := expected + 1)
      && c'.endpoints == c.endpoints && Settled(c', id)
      && !DisableAccount(c', name, expected + 1).Done?
  {
  }

  /** A policy update leaves the authority of every account alone. */
  lemma PolicyIsConfined(c: Catalog, expected: nat, policy: Policy)
    requires Consistent(c) && UpdatePolicy(c, expected, policy).Done?
    ensures var c' := UpdatePolicy(c, expected, policy).value;
      && c'.policy == policy && c'.revision == c.revision + 1 && c'.accounts.Keys == c.accounts.Keys
      && forall id :: id in c.accounts ==> AuthorityOf(c', id) == AuthorityOf(c, id)
  {
    SameBindings(c, UpdatePolicy(c, expected, policy).value);
  }
}
