/** What the import does not notice, by example.  Each run begins with an empty catalog, passes through
    the moment at which the plan was made and the one at which the accounts were listed, and ends with
    a fence that accepts. */
module ImportMisses {
  import opened CatalogEffects
  import opened CatalogSteps
  import opened Catalogs
  import opened Collections
  import opened ImportCutover
  import opened ImportSteps
  import opened Wrappers

  const EMPTY := Catalog(1, Policy(false, [], []), map[], map[], map[], map[])

  /** Committed transactions lead from one catalog to the other. */
  ghost predicate Leads(c: Catalog, c': Catalog) {
    exists states, log :: Log(states, log) && states[0] == c && Last(states) == c'
  }

  lemma LeadsNowhere(c: Catalog)
    requires Consistent(c)
    ensures Leads(c, c)
  {
    assert Log([c], []) && [c][0] == c && Last([c]) == c;
  }

  lemma LeadsOn(c: Catalog, c': Catalog, tx: Tx, c'': Catalog)
    requires Leads(c, c') && Commits(c', tx, c'')
    ensures Leads(c, c'')
  {
    var states, log :| Log(states, log) && states[0] == c && Last(states) == c';
    var states', log' := states + [c''], log + [Entry(tx, false, 0)];
    forall i {:trigger log'[i]} | 0 <= i < |log'| ensures Commits(states'[i], log'[i].tx, states'[i + 1]) {
      if i < |log| {
        assert Commits(states[i], log[i].tx, states[i + 1]);
      }
    }
    assert Log(states', log') && states'[0] == c && Last(states') == c'';
  }

  function Renaming(n: string): Change {
    Change(Some(n), NO_COLUMNS, None, None, false)
  }

  function NewAddress(s: string): Change {
    Change(None, NO_COLUMNS.(emailAddress := Some(s)), None, None, false)
  }

  /** The plan says of each item what was so in this catalog. */
  predicate PlannedFrom(c: Catalog, items: seq<Item>) {
    DistinctNames(items) && forall i :: 0 <= i < |items| ==> PlannedItem(c, items[i])
  }

  predicate PlannedItem(c: Catalog, item: Item) {
    match item
    case Create(name, _, _, _) => name !in c.names
    case Resume(name, reviewed, missing) =>
      && GuardsRevision(c, name, reviewed) && missing != []
      && forall role :: role in missing ==> NeverSet(c, Lookup(c, name).value, role)
    case Same(name, reviewed) => GuardsRevision(c, name, reviewed) && Complete(c, Lookup(c, name).value)
  }

  predicate NeverSet(c: Catalog, id: Id, role: Role) {
    && id in c.endpoints && role in c.endpoints[id]
    && forall l :: l in c.bindings ==> !(c.bindings[l].account == id && c.bindings[l].role == role)
  }

  /** Before its first step the import finds its items as planned. */
  predicate ChecksOut(states: seq<Catalog>, log: seq<Entry>, items: seq<Item>, target: nat, q: nat)
    requires |states| == |log| + 1
  {
    && q <= |log| && OwnPart(log[..q]) == [] && states[q].revision == target
    && forall i :: 0 <= i < |items| ==> FoundAsPlanned(states[q], items[i])
  }

  predicate FoundAsPlanned(c: Catalog, item: Item) {
    if item.Create? then item.name !in c.names else GuardsRevision(c, item.name, item.reviewed)
  }

  /** No credential that the import has set leaves a row to be cleaned up, which it would report instead of
      going on to the fence. */
  predicate NoneLeft(states: seq<Catalog>, log: seq<Entry>)
    requires |states| == |log| + 1
  {
    forall i {:trigger log[i]} :: 0 <= i < |log| && log[i].own && log[i].tx.TxActivate? ==>
      forall l :: l in Last(states).bindings ==>
        Last(states).bindings[l] != Binding(log[i].tx.id, log[i].tx.role, CLEANUP_REQUIRED)
  }

  /** A run from an empty catalog over the plan and the listing to a fence that accepts, with all the work
      of the import done. */
  ghost predicate WholeRun(planned: Catalog, states: seq<Catalog>, log: seq<Entry>, items: seq<Item>, target: nat) {
    && Leads(EMPTY, planned) && planned.revision == target && PlannedFrom(planned, items)
    && Log(states, log) && Leads(planned, states[0])
    && (exists q :: ChecksOut(states, log, items, target, q))
    && OwnServes(states, log, items) && AllDone(OwnPart(log), items, false) && NoneLeft(states, log)
    && FenceAccepts(Last(states), states[0], items, target, false)
  }

  /** What a whole run takes when the plan has one item. */
  lemma OneItemRun(planned: Catalog, states: seq<Catalog>, log: seq<Entry>, item: Item, target: nat)
    requires Leads(EMPTY, planned) && planned.revision == target && PlannedItem(planned, item)
    requires Log(states, log) && Leads(planned, states[0])
    requires exists q :: ChecksOut(states, log, [item], target, q)
    requires OwnServes(states, log, [item]) && AllDone(OwnPart(log), [item], false) && NoneLeft(states, log)
    requires FenceAccepts(Last(states), states[0], [item], target, false)
    ensures WholeRun(planned, states, log, [item], target)
  {
  }

  /** The catalog after one account was added and given its credential. */
  lemma OneAccount(name: string, p: Profile, e: Endpoint) returns (c: Catalog)
    requires name != "" && ProfileAllowed(p) && EndpointAllowed(e)
    ensures Leads(EMPTY, c) && Consistent(c) && Complete(c, 1) && c.revision == 2
    ensures c.accounts == map[1 := Account(name, p, true, 2, false)] && c.bindings.Keys == {11}
    ensures c.endpoints.Keys == {1} && Outgoing !in c.endpoints[1] && Incoming in c.endpoints[1]
  {
    var added := Added(EMPTY, 1, name, p, e);
    LeadsNowhere(EMPTY);
    Adds(EMPTY, 1, name, p, e, None);
    LeadsOn(EMPTY, EMPTY, TxAdd(1, name, p, e, None, None), added);
    assert ActiveIn(added, 1, Outgoing) == {};
    GivesCredential(added, 1, 11);
    c := Activated(added, 1, Incoming, 11);
    LeadsOn(EMPTY, added, TxActivate(1, Incoming, 1, 11), c);
  }

  /** Somebody updates an account. */
  lemma Update(from: Catalog, c: Catalog, id: Id, change: Change) returns (c': Catalog)
    requires Leads(from, c) && Consistent(c) && InUse(c, id) && Cosmetic(change)
    requires c.accounts[id].enabled ==> Complete(c, id)
    requires change.name.Some? ==> forall other :: other in c.accounts ==> c.accounts[other].name != change.name.value
    ensures Commits(c, TxUpdate(c.accounts[id].name, c.accounts[id].revision, change), c')
    ensures Leads(from, c') && Consistent(c') && c'.revision == c.revision
    ensures c'.accounts == c.accounts[id := UpdatedAccount(c.accounts[id], change)]
    ensures c'.bindings == c.bindings && c'.endpoints == c.endpoints
    ensures forall other :: Complete(c', other) <==> Complete(c, other)
  {
    Updates(c, id, change);
    c' := Changed(c, id, change);
    LeadsOn(from, c, TxUpdate(c.accounts[id].name, c.accounts[id].revision, change), c');
    assert c'.endpoints == c.endpoints;
  }

  /** A run that the fence accepts although somebody else changed an account. */
  ghost predicate MissesAChange(planned: Catalog, states: seq<Catalog>, log: seq<Entry>, items: seq<Item>, target: nat) {
    WholeRun(planned, states, log, items, target) && !OthersAreQuiet(states, log)
  }

  function TakeoverLog(p: Profile, e: Endpoint): seq<Entry> {
    [Entry(TxUpdate("a", 3, Renaming("t")), false, 0), Entry(TxAdd(3, "a", p, e, None, Some(2)), true, 0),
     Entry(TxActivate(3, Incoming, 1, 13), true, 0)]
  }

  /** Planned while no account is called a; then account b is renamed to a, listed, renamed again, and the
      import creates its own account a. */
  lemma Takeover(p: Profile, e: Endpoint) returns (planned: Catalog, states: seq<Catalog>)
    requires ProfileAllowed(p) && EndpointAllowed(e)
    ensures Leads(EMPTY, planned) && planned.revision == 2 && "a" !in planned.names
    ensures Log(states, TakeoverLog(p, e)) && Leads(planned, states[0])
    ensures TakenOver(states, p)
  {
    planned := OneAccount("b", p, e);
    FreeName(planned, "a");
    LeadsNowhere(planned);
    var listed := Update(planned, planned, 1, Renaming("a"));
    var freed := Update(planned, listed, 1, Renaming("t"));
    states := TakeoverSteps(listed, freed, p, e);
  }

  lemma TakeoverSteps(listed: Catalog, freed: Catalog, p: Profile, e: Endpoint) returns (states: seq<Catalog>)
    requires ProfileAllowed(p) && EndpointAllowed(e) && Consistent(listed) && Consistent(freed)
    requires Commits(listed, TxUpdate("a", 3, Renaming("t")), freed)
    requires listed.accounts == map[1 := Account("a", p, true, 3, false)] && freed.revision == 2
    requires freed.accounts == map[1 := Account("t", p, true, 4, false)] && freed.bindings.Keys == {11}
    ensures Log(states, TakeoverLog(p, e)) && states[0] == listed && TakenOver(states, p)
  {
    FreeName(freed, "a");
    var added, last := OwnAccount(freed, p, e);
    states := [listed, freed, added, last];
    ThreeCommits(states, TakeoverLog(p, e));
  }

  /** The import creates its account. */
  lemma OwnAccount(freed: Catalog, p: Profile, e: Endpoint) returns (added: Catalog, last: Catalog)
    requires ProfileAllowed(p) && EndpointAllowed(e) && Consistent(freed) && "a" !in freed.names
    requires freed.accounts.Keys == {1} && freed.revision == 2 && freed.bindings.Keys == {11}
    ensures Commits(freed, TxAdd(3, "a", p, e, None, Some(2)), added) && Lookup(added, "a") == Some(3)
    ensures Commits(added, TxActivate(3, Incoming, 1, 13), last) && Lookup(last, "a") == Some(3) && last.revision == 3
    ensures last.accounts == freed.accounts[3 := Account("a", p, true, 2, false)]
    ensures forall l :: l in last.bindings ==> last.bindings[l] != Binding(3, Incoming, CLEANUP_REQUIRED)
  {
    added := Added(freed, 3, "a", p, e);
    NameUnused(freed, "a");
    Adds(freed, 3, "a", p, e, Some(2));
    last := FirstCredential(added);
    NewHasNoOldRows(freed, added, 3, 13);
  }

  lemma FirstCredential(added: Catalog) returns (last: Catalog)
    requires Consistent(added) && InUse(added, 3) && 13 !in added.bindings && Incoming in added.endpoints[3]
    ensures last == Activated(added, 3, Incoming, 13)
    ensures Commits(added, TxActivate(3, Incoming, added.accounts[3].revision, 13), last)
    ensures Lookup(added, added.accounts[3].name) == Lookup(last, added.accounts[3].name) == Some(3)
  {
    GivesCredential(added, 3, 13);
    last := Activated(added, 3, Incoming, 13);
    NameOf(added, 3);
    NameOf(last, 3);
  }

  /** The first credential of a new account replaces none. */
  lemma NewHasNoOldRows(c: Catalog, added: Catalog, id: Id, locator: Locator)
    requires Consistent(c) && id !in c.accounts && added.bindings == c.bindings && id in added.accounts
    ensures var last := Activated(added, id, Incoming, locator);
      forall l :: l in last.bindings ==> last.bindings[l] != Binding(id, Incoming, CLEANUP_REQUIRED)
  {
    var last := Activated(added, id, Incoming, locator);
    forall l | l in last.bindings ensures last.bindings[l] != Binding(id, Incoming, CLEANUP_REQUIRED) {
      assert l != locator ==> OwnerSound(c.accounts, c.bindings[l]);
    }
  }

  /** What each state of that run shows. */
  predicate TakenOver(states: seq<Catalog>, p: Profile) {
    && |states| == 4 && states[0].accounts == map[1 := Account("a", p, true, 3, false)]
    && states[1].accounts == map[1 := Account("t", p, true, 4, false)] && "a" !in states[1].names
    && states[1].revision == 2 && Lookup(states[2], "a") == Some(3)
    && states[3].revision == 3 && Lookup(states[3], "a") == Some(3)
    && states[3].accounts == map[1 := Account("t", p, true, 4, false), 3 := Account("a", p, true, 2, false)]
    && forall l :: l in states[3].bindings ==> states[3].bindings[l] != Binding(3, Incoming, CLEANUP_REQUIRED)
  }

  lemma ThreeCommits(states: seq<Catalog>, log: seq<Entry>)
    requires |states| == 4 && |log| == 3
    requires Commits(states[0], log[0].tx, states[1]) && Commits(states[1], log[1].tx, states[2])
    requires Commits(states[2], log[2].tx, states[3])
    ensures Log(states, log)
  {
  }

  lemma TakeoverPassesTheFence(first: Catalog, last: Catalog, p: Profile, e: Endpoint)
    requires first.accounts == map[1 := Account("a", p, true, 3, false)]
    requires last.accounts == map[1 := Account("t", p, true, 4, false), 3 := Account("a", p, true, 2, false)]
    requires Consistent(first) && Lookup(last, "a") == Some(3) && last.revision == 3
    ensures FenceAccepts(last, first, [Create("a", p, e, None)], 2, false)
  {
    OneCreate(first, "a", p, e);
    var expected := Expected([Create("a", p, e, None)], Listing(first));
    forall n | n in expected ensures GuardsName(last, n, expected[n]) {
      assert n == "a";
    }
  }

  lemma OneCreate(c: Catalog, name: string, p: Profile, e: Endpoint)
    ensures var items := [Create(name, p, e, None)];
      Creates(items) == 1 && OwnBumps(items) == 2 && Expected(items, Listing(c)) == Listing(c)[name := Known(2, true)]
  {
    var items := [Create(name, p, e, None)];
    assert items[..0] == [];
  }

  lemma TakeoverServes(states: seq<Catalog>, p: Profile, e: Endpoint)
    requires TakenOver(states, p)
    ensures OwnServes(states, TakeoverLog(p, e), [Create("a", p, e, None)])
  {
    var log, items := TakeoverLog(p, e), [Create("a", p, e, None)];
    assert ServesItem(states[1], log[1].tx, items, 0) && ServesItem(states[2], log[2].tx, items, 0);
  }

  lemma TakeoverChecksOut(states: seq<Catalog>, p: Profile, e: Endpoint)
    requires TakenOver(states, p)
    ensures exists q :: ChecksOut(states, TakeoverLog(p, e), [Create("a", p, e, None)], 2, q)
  {
    ThreeEntries(TakeoverLog(p, e));
    assert ChecksOut(states, TakeoverLog(p, e), [Create("a", p, e, None)], 2, 1);
  }

  /** An addition and an activation are all that one created account with one server takes. */
  lemma CreationIsDone(log: seq<Entry>, items: seq<Item>)
    requires |log| == 3 && !log[0].own && log[1].own && log[2].own
    requires log[1].tx.TxAdd? && log[1].item == 0 && log[2].tx.TxActivate?
    requires |items| == 1 && items[0].Create? && items[0].outgoing.None?
    ensures AllDone(OwnPart(log), items, false)
  {
    ThreeEntries(log);
    assert items[..0] == [];
    assert OwnBumps(items[..0]) == 0 && OwnBumps(items) == 2;
    assert Creates(items[..0]) == 0 && Creates(items) == 1;
    assert AddsFor(OwnPart(log), 0, 0);
    assert Served(OwnPart(log), items, 0);
  }

  lemma ThreeEntries(log: seq<Entry>)
    requires |log| == 3 && !log[0].own && log[1].own && log[2].own
    ensures OwnPart(log) == [Step(1, log[1].tx, log[1].item), Step(2, log[2].tx, log[2].item)]
    ensures OwnPart(log[..1]) == []
    ensures TallyOf(OwnPart(log)) == Plus(Plus(Tally(0, 0, 0), log[1].tx), log[2].tx)
  {
    assert log == [log[0], log[1], log[2]] && log[..1] == [log[0]];
    OwnOfThree(log[0], log[1], log[2]);
    TallyOfTwo(Step(1, log[1].tx, log[1].item), Step(2, log[2].tx, log[2].item));
  }

  lemma OwnOfThree(a: Entry, b: Entry, c: Entry)
    requires !a.own && b.own && c.own
    ensures OwnPart([a]) == []
    ensures OwnPart([a, b, c]) == [Step(1, b.tx, b.item), Step(2, c.tx, c.item)]
  {
    OwnGrows([], a);
    assert [] + [a] == [a];
    OwnGrows([a], b);
    assert [a] + [b] == [a, b];
    OwnGrows([a, b], c);
    assert [a, b] + [c] == [a, b, c];
  }

  lemma TallyOfTwo(s: Step, t: Step)
    ensures TallyOf([s, t]) == Plus(Plus(Tally(0, 0, 0), s.tx), t.tx)
  {
    TallyAppends([], s);
    assert [] + [s] == [s];
    TallyAppends([s], t);
    assert [s] + [t] == [s, t];
  }

  /** Why no account to be created may be listed: if one already is under its name, its expectation
      takes the place of the listed one, and renaming that account goes unnoticed. */
  lemma CreatedOverListedIsNotNoticed(p: Profile, e: Endpoint)
    requires ProfileAllowed(p) && EndpointAllowed(e)
    ensures exists planned, states, log, target :: MissesAChange(planned, states, log, [Create("a", p, e, None)], target)
  {
    var log, items := TakeoverLog(p, e), [Create("a", p, e, None)];
    var planned, states := Takeover(p, e);
    TakeoverPassesTheFence(states[0], states[3], p, e);
    TakeoverServes(states, p, e);
    TakeoverChecksOut(states, p, e);
    CreationIsDone(log, items);
    TakeoverIsSeen(states, p, e);
    OneItemRun(planned, states, log, items[0], 2);
    assert MissesAChange(planned, states, log, items, 2);
  }

  lemma TakeoverIsSeen(states: seq<Catalog>, p: Profile, e: Endpoint)
    requires TakenOver(states, p)
    ensures NoneLeft(states, TakeoverLog(p, e)) && !OthersAreQuiet(states, TakeoverLog(p, e))
  {
    assert states[0].accounts[1] != states[1].accounts[1];
    assert !SameView(states[0], states[0 + 1]);
  }

  /** A second account is added, without a credential. */
  lemma SecondAccount(c: Catalog, name: string, p: Profile, e: Endpoint) returns (c': Catalog)
    requires Leads(EMPTY, c) && Consistent(c) && c.accounts.Keys == {1} && c.bindings.Keys == {11}
    requires name != "" && name != c.accounts[1].name && ProfileAllowed(p) && EndpointAllowed(e)
    ensures Leads(EMPTY, c') && Consistent(c') && c'.revision == c.revision + 1
    ensures c'.accounts == c.accounts[2 := Account(name, p, true, 1, false)] && c'.bindings == c.bindings
    ensures NeverSet(c', 2, Incoming) && Outgoing !in c'.endpoints[2] && ActiveIn(c', 2, Outgoing) == {}
    ensures 1 in c'.endpoints && c'.endpoints[1] == c.endpoints[1] && (Complete(c, 1) ==> Complete(c', 1))
  {
    c' := Added(c, 2, name, p, e);
    Adds(c, 2, name, p, e, None);
    LeadsOn(EMPTY, c, TxAdd(2, name, p, e, None, None), c');
    SameBindings(c, c');
    NoCredentials(c, 2);
    forall l | l in c'.bindings ensures c'.bindings[l].account != 2 {
      assert OwnerSound(c.accounts, c.bindings[l]);
    }
  }

  /** Somebody disables an account. */
  lemma Disable(from: Catalog, c: Catalog, id: Id) returns (c': Catalog)
    requires Leads(from, c) && Consistent(c) && InUse(c, id) && c.accounts[id].enabled
    ensures Leads(from, c') && Consistent(c')
    ensures c' == c.(accounts := c.accounts[id := Revised(c.accounts[id]).(enabled := false)])
    ensures forall other :: Complete(c', other) <==> Complete(c, other)
  {
    Disables(c, id);
    c' := Disabled(c, id);
    LeadsOn(from, c, TxDisable(c.accounts[id].name, c.accounts[id].revision), c');
    SameBindings(c, c');
  }

  /** An account without a credential, disabled and twice updated. */
  lemma PlannedForCatchup(p: Profile, e: Endpoint) returns (planned: Catalog)
    requires ProfileAllowed(p) && EndpointAllowed(e)
    ensures Leads(EMPTY, planned) && Consistent(planned) && planned.revision == 3 && planned.bindings.Keys == {11}
    ensures planned.accounts.Keys == {1, 2} && planned.accounts[1] == Account("b", p, true, 2, false)
    ensures Updated(planned.accounts[2], "a", false, 4) && NeverSet(planned, 2, Incoming) && Complete(planned, 1)
    ensures 1 in planned.endpoints && Incoming in planned.endpoints[1]
  {
    var first := OneAccount("b", p, e);
    var both := SecondAccount(first, "a", p, e);
    var off := Disable(EMPTY, both, 2);
    var once := Update(EMPTY, off, 2, NewAddress("x"));
    planned := Update(EMPTY, once, 2, NewAddress("y"));
  }

  predicate Updated(a: Account, name: string, enabled: bool, revision: nat) {
    a.name == name && a.enabled == enabled && a.revision == revision && !a.removed
  }

  /** Somebody gives the reviewed name to the other account. */
  lemma ListedForCatchup(planned: Catalog, p: Profile) returns (listed: Catalog)
    requires Consistent(planned) && Complete(planned, 1) && planned.accounts.Keys == {1, 2}
    requires planned.accounts[1] == Account("b", p, true, 2, false) && Updated(planned.accounts[2], "a", false, 4)
    ensures Leads(planned, listed) && Consistent(listed) && Complete(listed, 1) && listed.revision == planned.revision
    ensures listed.bindings == planned.bindings && listed.endpoints == planned.endpoints
    ensures listed.accounts.Keys == {1, 2} && listed.accounts[1] == Account("a", p, true, 3, false)
    ensures Updated(listed.accounts[2], "t", false, 5)
  {
    LeadsNowhere(planned);
    var freed := Update(planned, planned, 2, Renaming("t"));
    listed := Update(planned, freed, 1, Renaming("a"));
  }

  const CATCHUP_LOG := [
    Entry(TxUpdate("a", 3, NewAddress("z")), false, 0), Entry(TxActivate(1, Incoming, 4, 13), true, 0),
    Entry(TxSupersede({11}), true, 0)]

  /** Somebody brings the other account up to the reviewed revision, and the import sets its credential,
      deleting and marking the one it replaces. */
  lemma CatchupSteps(listed: Catalog, p: Profile) returns (states: seq<Catalog>)
    requires Consistent(listed) && Complete(listed, 1) && listed.bindings.Keys == {11} && listed.accounts.Keys == {1, 2}
    requires listed.accounts[1] == Account("a", p, true, 3, false) && Updated(listed.accounts[2], "t", false, 5)
    requires Incoming in listed.endpoints[1]
    ensures Log(states, CATCHUP_LOG) && states[0] == listed && CaughtUp(states)
  {
    LeadsNowhere(listed);
    var later := Update(listed, listed, 1, NewAddress("z"));
    NameOf(later, 1);
    var active, last := OwnCredential(later);
    states := [listed, later, active, last];
    ThreeCommits(states, CATCHUP_LOG);
  }

  lemma OwnCredential(c: Catalog) returns (active: Catalog, last: Catalog)
    requires Consistent(c) && c.bindings.Keys == {11} && c.accounts.Keys == {1, 2} && InUse(c, 2)
    requires Updated(c.accounts[1], "a", true, 4) && Incoming in c.endpoints[1]
    ensures Commits(c, TxActivate(1, Incoming, 4, 13), active) && Commits(active, TxSupersede({11}), last)
    ensures Consistent(last) && last.accounts == c.accounts[1 := Revised(c.accounts[1])] && last.revision == c.revision
    ensures Lookup(last, "a") == Some(1) && Lookup(last, c.accounts[2].name) == Some(2)
    ensures forall l :: l in last.bindings ==> last.bindings[l] != Binding(1, Incoming, CLEANUP_REQUIRED)
  {
    GivesCredential(c, 1, 13);
    active := Activated(c, 1, Incoming, 13);
    last := OwnMark(active);
    NameOf(last, 1);
    NameOf(last, 2);
  }

  lemma OwnMark(active: Catalog) returns (last: Catalog)
    requires Consistent(active) && active.bindings.Keys == {11, 13} && active.bindings[13].status == ACTIVE
    ensures Commits(active, TxSupersede({11}), last) && Consistent(last)
    ensures last == active.(bindings := last.bindings)
    ensures forall l :: l in last.bindings ==> last.bindings[l] != Binding(1, Incoming, CLEANUP_REQUIRED)
  {
    SupersededEvolves(active, {11});
    last := Superseded(active, {11});
  }

  /** What each state of that run shows. */
  predicate CaughtUp(states: seq<Catalog>) {
    && |states| == 4 && 1 in states[0].accounts && 1 in states[1].accounts
    && states[0].accounts[1].revision == 3 && states[1].accounts[1].revision == 4
    && states[1].revision == states[0].revision == states[3].revision
    && Lookup(states[1], "a") == Some(1) && Lookup(states[3], "a") == Some(1) && Lookup(states[3], "t") == Some(2)
    && Updated(states[3].accounts[1], "a", true, 5) && Updated(states[3].accounts[2], "t", false, 5)
    && forall l :: l in states[3].bindings ==> states[3].bindings[l] != Binding(1, Incoming, CLEANUP_REQUIRED)
  }

  function CatchupItem(): Item {
    Resume("a", 4, [Incoming])
  }

  lemma CatchupPassesTheFence(first: Catalog, last: Catalog)
    requires Consistent(first) && first.accounts.Keys == {1, 2}
    requires first.accounts[1].name == "a" && Updated(first.accounts[2], "t", false, 5)
    requires Lookup(last, "a") == Some(1) && Lookup(last, "t") == Some(2) && last.revision == 3
    requires Updated(last.accounts[1], "a", true, 5) && Updated(last.accounts[2], "t", false, 5)
    ensures FenceAccepts(last, first, [CatchupItem()], 3, false)
  {
    OneResume(first);
    var expected := Expected([CatchupItem()], Listing(first));
    forall n | n in expected ensures GuardsName(last, n, expected[n]) {
      assert n == "a" || n == "t";
    }
  }

  lemma OneResume(c: Catalog)
    ensures var items := [CatchupItem()];
      && Creates(items) == 0 && OwnBumps(items) == 1
      && Expected(items, Listing(c)) == Listing(c)["a" := Known(5, true)]
  {
    var items := [CatchupItem()];
    assert items[..0] == [];
  }

  lemma CatchupServes(states: seq<Catalog>)
    requires CaughtUp(states)
    ensures OwnServes(states, CATCHUP_LOG, [CatchupItem()])
  {
    var log, items := CATCHUP_LOG, [CatchupItem()];
    assert ServesItem(states[1], log[1].tx, items, 0) && ServesItem(states[2], log[2].tx, items, 0);
  }

  lemma CatchupChecksOut(states: seq<Catalog>)
    requires CaughtUp(states) && states[0].revision == 3
    ensures exists q :: ChecksOut(states, CATCHUP_LOG, [CatchupItem()], 3, q)
  {
    ThreeEntries(CATCHUP_LOG);
    assert ChecksOut(states, CATCHUP_LOG, [CatchupItem()], 3, 1);
  }

  /** An activation and the marking of what it replaced are all that one resumed account with one missing
      credential takes. */
  lemma ResumptionIsDone(log: seq<Entry>, items: seq<Item>)
    requires |log| == 3 && !log[0].own && log[1].own && log[2].own
    requires log[1].tx.TxActivate? && log[1].item == 0 && log[2].tx.TxSupersede?
    requires |items| == 1 && items[0].Resume? && items[0].reviewed == log[1].tx.expected && |items[0].missing| == 1
    ensures AllDone(OwnPart(log), items, false)
  {
    ThreeEntries(log);
    assert items[..0] == [];
    assert OwnBumps(items[..0]) == 0 && OwnBumps(items) == 1;
    assert Creates(items[..0]) == 0 && Creates(items) == 0;
    assert ResumesFor(OwnPart(log), 0, 0, items[0].reviewed);
    assert Served(OwnPart(log), items, 0);
  }

  lemma CatchupIsSeen(states: seq<Catalog>)
    requires CaughtUp(states)
    ensures NoneLeft(states, CATCHUP_LOG) && !OthersAreQuiet(states, CATCHUP_LOG)
  {
    assert states[0].accounts[1] != states[1].accounts[1];
    assert !SameView(states[0], states[0 + 1]);
  }

  /** Why no account to be resumed may be listed at an older revision than was reviewed: the changes by
      somebody else that bring it up to that revision go unnoticed. */
  lemma ResumedOverOlderIsNotNoticed(p: Profile, e: Endpoint)
    requires ProfileAllowed(p) && EndpointAllowed(e)
    ensures exists planned, states, log, item: Item, target ::
      item.Resume? && MissesAChange(planned, states, log, [item], target)
  {
    var planned := PlannedForCatchup(p, e);
    NameOf(planned, 2);
    var listed := ListedForCatchup(planned, p);
    var states := CatchupSteps(listed, p);
    CatchupPassesTheFence(listed, states[3]);
    CatchupServes(states);
    CatchupChecksOut(states);
    ResumptionIsDone(CATCHUP_LOG, [CatchupItem()]);
    CatchupIsSeen(states);
    OneItemRun(planned, states, CATCHUP_LOG, CatchupItem(), 3);
    assert MissesAChange(planned, states, CATCHUP_LOG, [CatchupItem()], 3);
  }

  /** A run in which nobody changes anything since the listing and yet another account than the reviewed
      one is selected. */
  ghost predicate SelectsAnother(planned: Catalog, states: seq<Catalog>, log: seq<Entry>, item: Item, target: nat) {
    && WholeRun(planned, states, log, [item], target) && OthersAreQuiet(states, log)
    && Lookup(planned, item.name).Some? && !IsSelected(Last(states), item.name, Shown(planned, planned))
    && Lookup(Last(states), item.name).Some?
    && Last(states).accounts[Lookup(Last(states), item.name).value].profile
         != planned.accounts[Lookup(planned, item.name).value].profile
  }

  lemma PlannedForSwap(p: Profile, q: Profile, e: Endpoint) returns (planned: Catalog)
    requires ProfileAllowed(p) && ProfileAllowed(q) && EndpointAllowed(e)
    ensures Leads(EMPTY, planned) && Consistent(planned) && planned.revision == 3
    ensures planned.accounts.Keys == {1, 2} && Updated(planned.accounts[1], "a", true, 3)
    ensures Updated(planned.accounts[2], "b", true, 2) && planned.accounts[2].profile == q
    ensures planned.accounts[1].profile.fullName == p.fullName
    ensures Complete(planned, 1) && Complete(planned, 2)
  {
    var first := OneAccount("a", p, e);
    var both := SecondAccount(first, "b", q, e);
    var second := SecondCredential(both);
    planned := Update(EMPTY, second, 1, NewAddress("x"));
  }

  lemma SecondCredential(c: Catalog) returns (c': Catalog)
    requires Leads(EMPTY, c) && Consistent(c) && c.bindings.Keys == {11} && InUse(c, 2) && Complete(c, 1)
    requires NeverSet(c, 2, Incoming) && Outgoing !in c.endpoints[2] && ActiveIn(c, 2, Outgoing) == {}
    ensures Leads(EMPTY, c') && Consistent(c') && c'.revision == c.revision
    ensures c'.accounts == c.accounts[2 := Revised(c.accounts[2])] && Complete(c', 1) && Complete(c', 2)
  {
    GivesCredential(c, 2, 12);
    c' := Activated(c, 2, Incoming, 12);
    LeadsOn(EMPTY, c, TxActivate(2, Incoming, c.accounts[2].revision, 12), c');
    OthersActive(c, 2, 1, 12);
  }

  lemma OthersActive(c: Catalog, id: Id, other: Id, locator: Locator)
    requires id in c.accounts && other != id && locator !in c.bindings
    ensures forall role :: ActiveIn(Activated(c, id, Incoming, locator), other, role) == ActiveIn(c, other, role)
  {
    var c' := Activated(c, id, Incoming, locator);
    forall role ensures ActiveIn(c', other, role) == ActiveIn(c, other, role) {
      forall l ensures l in ActiveIn(c', other, role) <==> l in ActiveIn(c, other, role) {
      }
    }
  }

  /** Somebody frees the name of the first account and gives it to the second. */
  lemma Swap(planned: Catalog) returns (listed: Catalog)
    requires Consistent(planned) && Complete(planned, 1) && Complete(planned, 2) && planned.accounts.Keys == {1, 2}
    requires Updated(planned.accounts[1], "a", true, 3) && Updated(planned.accounts[2], "b", true, 2)
    ensures Leads(planned, listed) && Consistent(listed) && listed.revision == planned.revision
    ensures Lookup(listed, "a") == Some(2) && listed.accounts[2].revision == 3
    ensures listed.accounts[2].profile == planned.accounts[2].profile
  {
    LeadsNowhere(planned);
    var freed := Update(planned, planned, 1, Renaming("t"));
    listed := Update(planned, freed, 2, Renaming("a"));
    NameOf(listed, 2);
  }

  /** What quiet cannot tell: two renamings by somebody else between showing and listing the accounts put
      another account behind the reviewed name, and it is selected with a profile nobody reviewed. */
  lemma SwappedNamesAreNotNoticed(p: Profile, q: Profile, e: Endpoint)
    requires ProfileAllowed(p) && ProfileAllowed(q) && EndpointAllowed(e) && p.fullName != q.fullName
    ensures exists planned, states, log, target :: SelectsAnother(planned, states, log, Same("a", 3), target)
  {
    var planned := PlannedForSwap(p, q, e);
    NameOf(planned, 1);
    LeadsNowhere(planned);
    var listed := Swap(planned);
    NothingToDo(listed, "a", 3);
    OneItemRun(planned, [listed], [], Same("a", 3), 3);
    assert SelectsAnother(planned, [listed], [], Same("a", 3), 3);
  }

  lemma NothingToDo(c: Catalog, name: string, reviewed: nat)
    requires Consistent(c) && GuardsRevision(c, name, reviewed)
    ensures FenceAccepts(c, c, [Same(name, reviewed)], c.revision, false)
    ensures AllDone(OwnPart([]), [Same(name, reviewed)], false) && Log([c], [])
    ensures ChecksOut([c], [], [Same(name, reviewed)], c.revision, 0)
  {
    var items := [Same(name, reviewed)];
    assert items[..0] == [];
    assert Expected(items[..0], Listing(c)) == Listing(c) && Creates(items[..0]) == 0;
    assert Expected(items, Listing(c)) == Listing(c) && Creates(items) == 0 && OwnBumps(items) == 0;
    assert Served(OwnPart([]), items, 0);
    forall n | n in Listing(c) ensures GuardsName(c, n, Listing(c)[n]) {
    }
  }
}
