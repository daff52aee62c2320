/** When transactions are accepted, and what they leave: the steps from which example runs are built. */
module CatalogSteps {
  import opened CatalogEffects
  import opened Catalogs
  import opened Collections
  import opened Wrappers

  predicate InUse(c: Catalog, id: Id) {
    id in c.accounts && !c.accounts[id].removed
  }

  lemma FreeName(c: Catalog, n: string)
    requires Consistent(c) && forall id :: id in c.accounts ==> c.accounts[id].name != n
    ensures n !in c.names
  {
  }

  function Added(c: Catalog, id: Id, name: string, p: Profile, e: Endpoint): Catalog {
    c.(revision := c.revision + 1, names := c.names[name := id],
       accounts := c.accounts[id := Account(name, p, true, 1, false)],
       endpoints := c.endpoints[id := RolesOf(e, None)])
  }

  lemma Adds(c: Catalog, id: Id, name: string, p: Profile, e: Endpoint, reviewed: Option<nat>)
    requires Consistent(c) && id !in c.accounts && name != "" && (reviewed.None? || reviewed.value == c.revision)
    requires forall other :: other in c.accounts ==> c.accounts[other].name != name
    requires |c.accounts| < ACCOUNT_LIMIT && ProfileAllowed(p) && EndpointAllowed(e)
    ensures Commits(c, TxAdd(id, name, p, e, None, reviewed), Added(c, id, name, p, e))
    ensures Consistent(Added(c, id, name, p, e))
  {
    FreeName(c, name);
    SubsetSize(LiveAccounts(c), c.accounts.Keys);
    AddedEvolves(c, TxAdd(id, name, p, e, None, reviewed));
  }

  lemma GivesCredential(c: Catalog, id: Id, locator: Locator)
    requires Consistent(c) && InUse(c, id) && Incoming in c.endpoints[id] && locator !in c.bindings
    ensures var c' := Activated(c, id, Incoming, locator);
      && Commits(c, TxActivate(id, Incoming, c.accounts[id].revision, locator), c') && Consistent(c')
      && ActiveIn(c', id, Incoming) == {locator}
      && (Outgoing !in c.endpoints[id] && ActiveIn(c, id, Outgoing) == {} ==> Complete(c', id))
  {
    var c' := Activated(c, id, Incoming, locator);
    ActivatedIsConsistent(c, id, Incoming, c.accounts[id].revision, locator);
    assert locator in ActiveIn(c', id, Incoming);
    forall l | l in ActiveIn(c', id, Incoming) ensures l == locator {
      assert c'.bindings[l] == c'.bindings[locator];
    }
    forall l ensures l in ActiveIn(c', id, Outgoing) <==> l in ActiveIn(c, id, Outgoing) {
    }
  }

  /** A change of the name or of profile columns. */
  predicate Cosmetic(change: Change) {
    change.Allowed() && change.incoming.None? && change.outgoing.None? && !change.removeOutgoing
  }

  lemma Updates(c: Catalog, id: Id, change: Change)
    requires Consistent(c) && InUse(c, id) && Cosmetic(change) && (c.accounts[id].enabled ==> Complete(c, id))
    requires change.name.Some? ==> forall other :: other in c.accounts ==> c.accounts[other].name != change.name.value
    ensures var c' := Changed(c, id, change);
      && Commits(c, TxUpdate(c.accounts[id].name, c.accounts[id].revision, change), c') && Consistent(c')
      && forall other :: Complete(c', other) <==> Complete(c, other)
  {
    var name := c.accounts[id].name;
    var c' := Changed(c, id, change);
    NameOf(c, id);
    if change.name.Some? {
      FreeName(c, change.name.value);
    }
    assert c'.endpoints == c.endpoints && c'.bindings == c.bindings;
    SameBindings(c, c');
    UpdatedEvolves(c, name, c.accounts[id].revision, change);
  }

  function Disabled(c: Catalog, id: Id): Catalog
    requires id in c.accounts
  {
    WithAccount(c, id, Revised(c.accounts[id]).(enabled := false))
  }

  lemma Disables(c: Catalog, id: Id)
    requires Consistent(c) && InUse(c, id) && c.accounts[id].enabled
    ensures Commits(c, TxDisable(c.accounts[id].name, c.accounts[id].revision), Disabled(c, id))
    ensures Consistent(Disabled(c, id))
  {
    NameOf(c, id);
    FlagEvolves(c, TxDisable(c.accounts[id].name, c.accounts[id].revision));
  }
}
