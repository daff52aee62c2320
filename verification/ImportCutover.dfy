/** Importing legacy accounts into the managed catalog.  Between any two calls of the import other
    managed writers may commit; only at the end is everything fenced, and the fence sees nothing but
    revisions.  This module shows what that is enough for. */
module ImportCutover {
  import opened Collections
  import opened CatalogEffects
  import opened Catalogs
  import Bootstrap
  import opened Wrappers

  ghost function Sum<K>(m: map<K, nat>): nat {
    if m == map[] then 0 else var k :| k in m; m[k] + Sum(m - {k})
  }

  lemma {:induction false} SumPick<K>(m: map<K, nat>, k: K)
    requires k in m
    ensures Sum(m) == m[k] + Sum(m - {k})
    decreases |m|
  {
    var j :| j in m && Sum(m) == m[j] + Sum(m - {j});
    if j != k {
      SumPick(m - {j}, k);
      SumPick(m - {k}, j);
      assert m - {j} - {k} == m - {k} - {j};
    }
  }

  lemma SumSet<K>(m: map<K, nat>, k: K, v: nat)
    ensures Sum(m[k := v]) == Sum(m) - (if k in m then m[k] else 0) + v
  {
    SumPick(m[k := v], k);
    assert m[k := v] - {k} == m - {k};
    if k in m {
      SumPick(m, k);
    } else {
      assert m - {k} == m;
    }
  }

  /** Summing by another, one-to-one key makes no difference. */
  lemma {:induction false} SumRenamed<K, L>(m: map<K, nat>, n: map<L, nat>, f: map<K, L>)
    requires f.Keys == m.Keys && f.Values == n.Keys
    requires forall k, j :: k in f && j in f && f[k] == f[j] ==> k == j
    requires forall k :: k in f ==> m[k] == n[f[k]]
    ensures Sum(m) == Sum(n) && |m| == |n|
    decreases |m|
  {
    if m == map[] {
      assert n.Keys == {};
      assert n == map[];
    } else {
      var k :| k in m;
      var g := f - {k};
      forall l ensures l in g.Values <==> l in (n - {f[k]}).Keys {
        if l in n - {f[k]} {
          var j :| j in f && f[j] == l;
          assert j in g && g[j] == l;
        }
      }
      SumRenamed(m - {k}, n - {f[k]}, g);
      SumPick(m, k);
      SumPick(n, f[k]);
    }
  }

  /** A committed transaction, by the import itself for one of its items or by somebody else. */
  datatype Entry = Entry(tx: Tx, own: bool, item: nat)

  ghost predicate Log(states: seq<Catalog>, log: seq<Entry>) {
    && |states| == |log| + 1
    && Consistent(states[0])
    && forall i {:trigger log[i]} :: 0 <= i < |log| ==> Commits(states[i], log[i].tx, states[i + 1])
  }

  function AccountTotal(log: seq<Entry>, own: bool): nat {
    if log == [] then 0
    else AccountTotal(log[..|log| - 1], own) + (if Final(log).own == own then AccountBump(Final(log).tx) else 0)
  }

  function AddTotal(log: seq<Entry>, own: bool): nat {
    if log == [] then 0
    else AddTotal(log[..|log| - 1], own) + (if Final(log).own == own then AddBump(Final(log).tx) else 0)
  }

  function CatalogTotal(states: seq<Catalog>, log: seq<Entry>, own: bool): nat
    requires |states| == |log| + 1
  {
    if log == [] then 0
    else
      var n := |log| - 1;
      CatalogTotal(states[..n + 1], log[..n], own)
        + (if log[n].own == own then CatalogBump(states[n], log[n].tx) else 0)
  }

  function Final(log: seq<Entry>): Entry
    requires log != []
  {
    log[|log| - 1]
  }

  lemma LogInit(states: seq<Catalog>, log: seq<Entry>)
    requires Log(states, log) && log != []
    ensures var n := |log| - 1; Log(states[..n + 1], log[..n]) && Commits(states[n], log[n].tx, states[n + 1])
  {
  }

  lemma {:induction false} LogCounts(states: seq<Catalog>, log: seq<Entry>)
    requires Log(states, log)
    ensures Evolves(states[0], Last(states))
    ensures Last(states).revision ==
      states[0].revision + CatalogTotal(states, log, true) + CatalogTotal(states, log, false)
    ensures |Last(states).accounts| == |states[0].accounts| + AddTotal(log, true) + AddTotal(log, false)
    decreases |log|
  {
    if log == [] {
      EvolvesIsReflexive(states[0]);
    } else {
      var n := |log| - 1;
      LogInit(states, log);
      LogCounts(states[..n + 1], log[..n]);
      CommitCounts(states[n], log[n].tx);
      CommitEvolves(states[n], log[n].tx);
      EvolvesIsTransitive(states[0], states[n], states[n + 1]);
    }
  }

  lemma {:induction false} AddsMoveTheCatalog(states: seq<Catalog>, log: seq<Entry>, own: bool)
    requires |states| == |log| + 1
    ensures AddTotal(log, own) <= CatalogTotal(states, log, own)
  {
    if log != [] {
      AddsMoveTheCatalog(states[..|log|], log[..|log| - 1], own);
    }
  }

  /** Revisions of the given accounts, as far as they exist yet. */
  function RevisionsOf(c: Catalog, ids: set<Id>): map<Id, nat> {
    map id | id in ids && id in c.accounts :: c.accounts[id].revision
  }

  /** If all touched accounts are among `ids`, each account transaction adds exactly one to the sum of
      their revisions. */
  lemma {:induction false} LogSum(states: seq<Catalog>, log: seq<Entry>, ids: set<Id>)
    requires Log(states, log)
    requires forall i :: 0 <= i < |log| ==> TouchesWithin(states[i], log[i].tx, ids)
    ensures Sum(RevisionsOf(Last(states), ids)) ==
      Sum(RevisionsOf(states[0], ids)) + AccountTotal(log, true) + AccountTotal(log, false)
    decreases |log|
  {
    if log != [] {
      var n := |log| - 1;
      LogInit(states, log);
      forall i | 0 <= i < n ensures TouchesWithin(states[..n + 1][i], log[..n][i].tx, ids) {
        assert TouchesWithin(states[i], log[i].tx, ids);
      }
      LogSum(states[..n + 1], log[..n], ids);
      assert TouchesWithin(states[n], log[n].tx, ids);
      StepSum(states[n], log[n].tx, ids);
    }
  }

  predicate TouchesWithin(c: Catalog, tx: Tx, ids: set<Id>) {
    Touches(c, tx).Some? ==> Touches(c, tx).value in ids
  }

  lemma StepSum(c: Catalog, tx: Tx, ids: set<Id>)
    requires Consistent(c) && FreshNames(c, tx) && Commit(c, tx).Done? && TouchesWithin(c, tx, ids)
    ensures Sum(RevisionsOf(Commit(c, tx).value, ids)) == Sum(RevisionsOf(c, ids)) + AccountBump(tx)
  {
    var c' := Commit(c, tx).value;
    CommitCounts(c, tx);
    if Touches(c, tx).Some? {
      BumpSum(c, c', Touches(c, tx).value, ids);
    }
  }

  lemma BumpSum(c: Catalog, c': Catalog, id: Id, ids: set<Id>)
    requires BumpsOnly(c, c', id) && id in ids
    ensures Sum(RevisionsOf(c', ids)) == Sum(RevisionsOf(c, ids)) + 1
  {
    assert RevisionsOf(c', ids) == RevisionsOf(c, ids)[id := c'.accounts[id].revision];
    SumSet(RevisionsOf(c, ids), id, c'.accounts[id].revision);
  }

  /** What the preview and the fence know about one account. */
  datatype Known = Known(revision: nat, enabled: bool)

  predicate Live(c: Catalog, name: string) {
    Lookup(c, name).Some?
  }

  /** The answer of list_accounts, one single SELECT. */
  function Listing(c: Catalog): map<string, Known> {
    map n | n in c.names && Live(c, n) :: Known(c.accounts[c.names[n]].revision, c.accounts[c.names[n]].enabled)
  }

  /** import_cutover_guard: the expected catalog revision and, by name, each expected account. */
  predicate Guard(c: Catalog, catalogRevision: nat, expected: map<string, Known>) {
    && c.revision == catalogRevision
    && forall n :: n in expected ==> GuardsName(c, n, expected[n])
  }

  predicate GuardsName(c: Catalog, name: string, known: Known) {
    match Lookup(c, name)
    case None => false
    case Some(id) => c.accounts[id].revision == known.revision && c.accounts[id].enabled == known.enabled
  }

  function RevisionsBy(known: map<string, Known>): map<string, nat> {
    map n | n in known :: known[n].revision
  }

  /** One reviewed legacy account, and what the import will do about it: create it with all its
      credentials, set its missing credentials, or only check it. */
  datatype Item =
    | Create(name: string, profile: Profile, incoming: Endpoint, outgoing: Option<Endpoint>)
    | Resume(name: string, reviewed: nat, missing: seq<Role>)
    | Same(name: string, reviewed: nat)

  /** The number of credentials to set. */
  function Roles(item: Item): nat {
    match item
    case Create(_, _, _, outgoing) => if outgoing.Some? then 2 else 1
    case Resume(_, _, missing) => |missing|
    case Same(_, _) => 0
  }

  function Creates(items: seq<Item>): nat {
    if items == [] then 0 else Creates(items[..|items| - 1]) + (if items[|items| - 1].Create? then 1 else 0)
  }

  /** The account transactions the import makes for its items. */
  function OwnBumps(items: seq<Item>): nat {
    if items == [] then 0
    else
      var item := items[|items| - 1];
      OwnBumps(items[..|items| - 1]) + (if item.Create? then 1 else 0) + Roles(item)
  }

  predicate DistinctNames(items: seq<Item>) {
    forall i, j :: 0 <= i < j < |items| ==> items[i].name != items[j].name
  }

  /** The reviewed plan and the listing were taken at different moments; this says that the listing does
      not contradict the plan. */
  predicate Fits(items: seq<Item>, listed: map<string, Known>) {
    forall i :: 0 <= i < |items| ==> FitsItem(items[i], listed)
  }

  predicate FitsItem(item: Item, listed: map<string, Known>) {
    && (item.Create? ==> item.name !in listed)
    && (item.Resume? ==> item.name in listed && item.reviewed <= listed[item.name].revision)
  }

  /** The revisions expected after the first items, by name. */
  function Expected(items: seq<Item>, listed: map<string, Known>): map<string, Known> {
    if items == [] then listed
    else
      var item := items[|items| - 1];
      var before := Expected(items[..|items| - 1], listed);
      if item.Same? then before else before[item.name := Expects(item)]
  }

  function Expects(item: Item): Known
    requires !item.Same?
  {
    Known((if item.Create? then 1 else item.reviewed) + Roles(item), true)
  }

  lemma {:induction false} ExpectedElsewhere(items: seq<Item>, listed: map<string, Known>, n: string)
    requires forall i :: 0 <= i < |items| ==> items[i].name != n
    ensures n in Expected(items, listed) <==> n in listed
    ensures n in listed ==> Expected(items, listed)[n] == listed[n]
  {
    if items != [] {
      ExpectedElsewhere(items[..|items| - 1], listed, n);
    }
  }

  /** If the listing fits the plan, one account is expected for each listed and each created one, and
      the expected revisions add up to no more than the listed ones and the import's own steps. */
  lemma {:induction false} ExpectedTotals(items: seq<Item>, listed: map<string, Known>)
    requires DistinctNames(items) && Fits(items, listed)
    ensures |Expected(items, listed)| == |listed| + Creates(items)
    ensures Sum(RevisionsBy(Expected(items, listed))) <= Sum(RevisionsBy(listed)) + OwnBumps(items)
  {
    if items != [] {
      var n := |items| - 1;
      var item, init := items[n], items[..n];
      var before := Expected(init, listed);
      forall i | 0 <= i < |init| ensures FitsItem(init[i], listed) {
        assert FitsItem(items[i], listed);
      }
      ExpectedTotals(init, listed);
      assert FitsItem(item, listed);
      if !item.Same? {
        ExpectedElsewhere(init, listed, item.name);
        SetKnown(before, item.name, Expects(item));
      }
    }
  }

  lemma SetKnown(known: map<string, Known>, n: string, k: Known)
    ensures |known[n := k]| == |known| + (if n in known then 0 else 1)
    ensures Sum(RevisionsBy(known[n := k])) ==
      Sum(RevisionsBy(known)) - (if n in known then known[n].revision else 0) + k.revision
  {
    NewSize(known, n, k);
    assert RevisionsBy(known[n := k]) == RevisionsBy(known)[n := k.revision];
    SumSet(RevisionsBy(known), n, k.revision);
  }

  /** The import's own committed transactions are those it reports. */
  predicate OwnIs(states: seq<Catalog>, log: seq<Entry>, items: seq<Item>, updatePolicy: bool)
    requires |states| == |log| + 1
  {
    && AddTotal(log, true) == Creates(items)
    && AccountTotal(log, true) == OwnBumps(items)
    && CatalogTotal(states, log, true) == Creates(items) + (if updatePolicy then 1 else 0)
  }

  /** Nothing that authority depends on differs. */
  predicate SameView(c: Catalog, c': Catalog) {
    && c.revision == c'.revision && c.policy == c'.policy && c.names == c'.names
    && c.accounts == c'.accounts && c.endpoints == c'.endpoints
    && ActiveBindings(c) == ActiveBindings(c')
  }

  function ActiveBindings(c: Catalog): map<Locator, Binding> {
    map l | l in c.bindings && c.bindings[l].status == ACTIVE :: c.bindings[l]
  }

  /** The import sees only its own writes.  `states[0]` is the catalog at the preview's listing and the
      last state the catalog under the fence.  If the fence accepts what `apply` expects, every
      transaction that somebody else committed in between has changed nothing but bookkeeping. */
  lemma CutoverSeesOnlyItself(
    states: seq<Catalog>, log: seq<Entry>, items: seq<Item>, target: nat, updatePolicy: bool)
    requires Log(states, log) && OwnIs(states, log, items, updatePolicy)
    requires target <= states[0].revision && DistinctNames(items) && Fits(items, Listing(states[0]))
    requires FenceAccepts(Last(states), states[0], items, target, updatePolicy)
    ensures forall i :: 0 <= i < |log| && !log[i].own ==> SameView(states[i], states[i + 1])
    ensures Sum(RevisionsBy(Expected(items, Listing(states[0])))) ==
      Sum(RevisionsBy(Listing(states[0]))) + OwnBumps(items)
    ensures target == states[0].revision
  {
    var first, last := states[0], Last(states);
    var expected := Expected(items, Listing(first));
    ExpectedTotals(items, Listing(first));
    LogCounts(states, log);
    AddsMoveTheCatalog(states, log, false);
    assert CatalogTotal(states, log, false) == 0;
    var ids := GuardedIds(last, expected);
    GuardedIdsAreAll(first, last, expected, Creates(items));
    forall i | 0 <= i < |log| ensures TouchesWithin(states[i], log[i].tx, ids) {
      TouchedIsGuarded(states, log, ids, i);
    }
    LogSum(states, log, ids);
    GuardedSum(last, expected);
    ListedSum(first, last, ids);
    assert AccountTotal(log, false) == 0;
    forall i | 0 <= i < |log| && !log[i].own ensures SameView(states[i], states[i + 1]) {
      NoBump(states, log, i);
      assert Commits(states[i], log[i].tx, states[i + 1]);
      QuietStep(states[i], log[i].tx);
    }
  }

  predicate FenceAccepts(last: Catalog, first: Catalog, items: seq<Item>, target: nat, updatePolicy: bool) {
    Guard(last, target + Creates(items) + (if updatePolicy then 1 else 0), Expected(items, Listing(first)))
  }

  function GuardedIds(c: Catalog, expected: map<string, Known>): set<Id> {
    set n | n in expected && n in c.names :: c.names[n]
  }

  lemma QuietStep(c: Catalog, tx: Tx)
    requires Consistent(c) && Commit(c, tx).Done? && AccountBump(tx) == 0 && CatalogBump(c, tx) == 0
    ensures SameView(c, Commit(c, tx).value)
  {
  }

  lemma {:induction false} NoBump(states: seq<Catalog>, log: seq<Entry>, i: nat)
    requires |states| == |log| + 1 && i < |log| && !log[i].own
    requires AccountTotal(log, false) == 0 && CatalogTotal(states, log, false) == 0
    ensures AccountBump(log[i].tx) == 0 && CatalogBump(states[i], log[i].tx) == 0
    decreases |log|
  {
    var n := |log| - 1;
    if i < n {
      NoBump(states[..n + 1], log[..n], i);
    }
  }

  function NameToId(c: Catalog, names: set<string>): map<string, Id>
    requires names <= c.names.Keys
  {
    map n | n in names :: c.names[n]
  }

  lemma NamesAreOneToOne(c: Catalog, names: set<string>)
    requires Consistent(c) && names <= c.names.Keys
    ensures var f := NameToId(c, names);
      forall n, k :: n in f && k in f && f[n] == f[k] ==> n == k
  {
  }

  /** Summing the expected revisions by name is summing the fenced revisions by id. */
  lemma GuardedSum(c: Catalog, expected: map<string, Known>)
    requires Consistent(c) && forall n :: n in expected ==> GuardsName(c, n, expected[n])
    ensures Sum(RevisionsBy(expected)) == Sum(RevisionsOf(c, GuardedIds(c, expected)))
    ensures |expected| == |GuardedIds(c, expected)|
  {
    NamesAreOneToOne(c, expected.Keys);
    GuardedKeys(c, expected);
    SumRenamed(RevisionsBy(expected), RevisionsOf(c, GuardedIds(c, expected)), NameToId(c, expected.Keys));
    assert RevisionsBy(expected).Keys == expected.Keys;
  }

  lemma GuardedKeys(c: Catalog, expected: map<string, Known>)
    requires Consistent(c) && expected.Keys <= c.names.Keys
    ensures RevisionsOf(c, GuardedIds(c, expected)).Keys == GuardedIds(c, expected)
    ensures NameToId(c, expected.Keys).Values == GuardedIds(c, expected)
  {
    var f := NameToId(c, expected.Keys);
    forall id ensures id in f.Values <==> id in GuardedIds(c, expected) {
      if id in GuardedIds(c, expected) {
        var n :| n in expected && c.names[n] == id;
        assert f[n] == id;
      }
    }
  }

  /** The accounts live at the listing are the fenced ones that existed then. */
  lemma ListedSum(c: Catalog, last: Catalog, ids: set<Id>)
    requires Evolves(c, last)
    requires forall id :: id in last.accounts ==> (id in ids <==> id !in c.accounts || !c.accounts[id].removed)
    ensures Sum(RevisionsBy(Listing(c))) == Sum(RevisionsOf(c, ids))
  {
    var listed := Listing(c);
    GuardedSum(c, listed);
    ListedIds(c);
    assert RevisionsOf(c, ids) == RevisionsOf(c, LiveAccounts(c));
  }

  lemma ListedIds(c: Catalog)
    requires Consistent(c)
    ensures GuardedIds(c, Listing(c)) == LiveAccounts(c)
  {
  }

  /** The fenced accounts are exactly those that were live at the listing and those added since: there
      are too many fenced names for anything to be missing. */
  lemma GuardedIdsAreAll(first: Catalog, last: Catalog, expected: map<string, Known>, added: nat)
    requires Evolves(first, last) && |last.accounts| <= |first.accounts| + added
    requires |expected| == |Listing(first)| + added
    requires forall n :: n in expected ==> GuardsName(last, n, expected[n])
    ensures var ids := GuardedIds(last, expected);
      forall id :: id in last.accounts ==> (id in ids <==> id !in first.accounts || !first.accounts[id].removed)
  {
    var ids := GuardedIds(last, expected);
    var all := LiveAccounts(first) + (last.accounts.Keys - first.accounts.Keys);
    forall id | id in ids ensures id in all {
      GuardedIsLive(first, last, expected, id);
    }
    NewAccounts(first, last, added);
    GuardedCount(first, last, expected);
    SubsetOfEqualSize(ids, all);
    assert forall id :: id in last.accounts ==> (id in all <==> id !in first.accounts || id in LiveAccounts(first));
  }

  lemma GuardedCount(first: Catalog, last: Catalog, expected: map<string, Known>)
    requires Consistent(first) && Consistent(last)
    requires forall n :: n in expected ==> GuardsName(last, n, expected[n])
    ensures |GuardedIds(last, expected)| == |expected| && |LiveAccounts(first)| == |Listing(first)|
  {
    GuardedSum(last, expected);
    GuardedSum(first, Listing(first));
    ListedIds(first);
  }

  lemma GuardedIsLive(first: Catalog, last: Catalog, expected: map<string, Known>, id: Id)
    requires Evolves(first, last) && id in GuardedIds(last, expected)
    requires forall n :: n in expected ==> GuardsName(last, n, expected[n])
    ensures id in last.accounts && (id in first.accounts ==> !first.accounts[id].removed)
  {
  }

  lemma NewAccounts(first: Catalog, last: Catalog, added: nat)
    requires first.accounts.Keys <= last.accounts.Keys && |last.accounts| <= |first.accounts| + added
    ensures |LiveAccounts(first) + (last.accounts.Keys - first.accounts.Keys)| <= |LiveAccounts(first)| + added
  {
  }

  lemma TouchedIsGuarded(states: seq<Catalog>, log: seq<Entry>, ids: set<Id>, i: nat)
    requires Log(states, log) && i < |log|
    requires forall id :: id in Last(states).accounts ==>
      (id in ids <==> id !in states[0].accounts || !states[0].accounts[id].removed)
    ensures TouchesWithin(states[i], log[i].tx, ids)
  {
    PartCounts(states, log, i);
    assert Commits(states[i], log[i].tx, states[i + 1]);
    CommitCounts(states[i], log[i].tx);
    match Touches(states[i], log[i].tx)
    case None =>
    case Some(id) =>
      assert id in states[0].accounts ==> AccountEvolves(states[0], states[i], id);
      assert id in states[i + 1].accounts;
  }

  lemma PartCounts(states: seq<Catalog>, log: seq<Entry>, i: nat)
    requires Log(states, log) && i < |log|
    ensures Evolves(states[0], states[i]) && Evolves(states[i + 1], Last(states))
  {
    assert Log(states[..i + 1], log[..i]);
    LogCounts(states[..i + 1], log[..i]);
    TailIsLog(states, log, i + 1);
    LogCounts(states[i + 1..], log[i + 1..]);
  }

  lemma TailIsLog(states: seq<Catalog>, log: seq<Entry>, i: nat)
    requires Log(states, log) && 0 < i <= |log|
    ensures Log(states[i..], log[i..])
  {
    assert Commits(states[i - 1], log[i - 1].tx, states[i]);
    CommitEvolves(states[i - 1], log[i - 1].tx);
    forall k {:trigger log[i..][k]} | 0 <= k < |log[i..]|
      ensures Commits(states[i..][k], log[i..][k].tx, states[i..][k + 1])
    {
      assert Commits(states[i + k], log[i + k].tx, states[i + k + 1]);
    }
  }

  /** What is reviewed of one account, apart from its credentials. */
  datatype Config = Config(name: string, profile: Profile, enabled: bool, removed: bool, endpoints: map<Role, Endpoint>)

  function ConfigOf(c: Catalog, id: Id): Config
    requires id in c.accounts && id in c.endpoints
  {
    var a := c.accounts[id];
    Config(a.name, a.profile, a.enabled, a.removed, c.endpoints[id])
  }

  /** The import itself only adds accounts, sets credentials, marks replaced ones and updates the policy. */
  predicate OwnKinds(log: seq<Entry>) {
    forall i :: 0 <= i < |log| && log[i].own ==> OwnKind(log[i].tx)
  }

  predicate OwnKind(tx: Tx) {
    tx.TxAdd? || tx.TxActivate? || tx.TxSupersede? || tx.TxPolicy?
  }

  ghost predicate OthersAreQuiet(states: seq<Catalog>, log: seq<Entry>)
    requires |states| == |log| + 1
  {
    forall i :: 0 <= i < |log| && !log[i].own ==> SameView(states[i], states[i + 1])
  }

  lemma HeadIsQuiet(states: seq<Catalog>, log: seq<Entry>, n: nat)
    requires |states| == |log| + 1 && n <= |log| && OwnKinds(log) && OthersAreQuiet(states, log)
    ensures OwnKinds(log[..n]) && OthersAreQuiet(states[..n + 1], log[..n])
  {
  }

  lemma TailIsQuiet(states: seq<Catalog>, log: seq<Entry>, n: nat)
    requires |states| == |log| + 1 && n <= |log| && OwnKinds(log) && OthersAreQuiet(states, log)
    ensures OwnKinds(log[n..]) && OthersAreQuiet(states[n..], log[n..])
  {
  }

  lemma {:induction false} ConfigStays(states: seq<Catalog>, log: seq<Entry>, id: Id)
    requires Log(states, log) && OwnKinds(log) && OthersAreQuiet(states, log)
    requires id in states[0].accounts
    ensures Consistent(Last(states)) && id in Last(states).accounts
    ensures ConfigOf(Last(states), id) == ConfigOf(states[0], id)
    ensures states[0].accounts[id].revision <= Last(states).accounts[id].revision
    decreases |log|
  {
    if log != [] {
      var n := |log| - 1;
      LogInit(states, log);
      HeadIsQuiet(states, log, n);
      ConfigStays(states[..n + 1], log[..n], id);
      CommitEvolves(states[n], log[n].tx);
      StepKeepsConfig(states[n], log[n], states[n + 1], id);
    }
  }

  lemma StepKeepsConfig(c: Catalog, e: Entry, c': Catalog, id: Id)
    requires Commits(c, e.tx, c') && id in c.accounts && id in c.endpoints
    requires if e.own then OwnKind(e.tx) else SameView(c, c')
    ensures id in c'.accounts && id in c'.endpoints
    ensures ConfigOf(c', id) == ConfigOf(c, id) && c.accounts[id].revision <= c'.accounts[id].revision
  {
  }

  /** What the preview was shown of an account, in two reads: the row at one moment and its servers at a
      later one. */
  datatype Shown = Shown(row: Catalog, rest: Catalog)

  ghost predicate ShownBefore(v: Shown, name: string, listed: Catalog) {
    Lookup(v.row, name).Some? && Evolves(v.row, v.rest) && Evolves(v.rest, listed)
  }

  function ConfigShown(v: Shown, id: Id): Config
    requires id in v.row.accounts && id in v.rest.endpoints
  {
    var a := v.row.accounts[id];
    Config(a.name, a.profile, a.enabled, a.removed, v.rest.endpoints[id])
  }

  /** The name stands for the account that was shown, configured as it was shown. */
  predicate IsSelected(c: Catalog, name: string, v: Shown)
    requires Lookup(v.row, name).Some?
  {
    var id := Lookup(v.row, name).value;
    && Lookup(c, name) == Some(id) && id in c.endpoints && id in v.rest.endpoints
    && ConfigOf(c, id) == ConfigShown(v, id)
  }

  /** A reviewed account that already existed: if its name still had the reviewed revision at some moment
      q of the import, it is selected as it was reviewed if and only if its name meant that account when
      the accounts were listed. */
  lemma ReviewedConfigurationIsSelected(states: seq<Catalog>, log: seq<Entry>, name: string, v: Shown, q: nat)
    requires Log(states, log) && OwnKinds(log) && OthersAreQuiet(states, log) && ShownBefore(v, name, states[0])
    requires q <= |log| && GuardsRevision(states[q], name, v.row.accounts[Lookup(v.row, name).value].revision)
    ensures IsSelected(Last(states), name, v) <==> Lookup(states[0], name) == Lookup(v.row, name)
  {
    var id := Lookup(v.row, name).value;
    EvolvesIsTransitive(v.row, v.rest, states[0]);
    assert id in states[0].accounts;
    ConfigStays(states, log, id);
    if Lookup(states[0], name) == Some(id) {
      ListedIsShown(states, log, name, v, q);
      NameOf(Last(states), id);
    } else if IsSelected(Last(states), name, v) {
      NameOf(states[0], id);
      assert false;
    }
  }

  lemma ListedIsShown(states: seq<Catalog>, log: seq<Entry>, name: string, v: Shown, q: nat)
    requires Log(states, log) && OwnKinds(log) && OthersAreQuiet(states, log) && ShownBefore(v, name, states[0])
    requires Lookup(states[0], name) == Lookup(v.row, name)
    requires q <= |log| && GuardsRevision(states[q], name, v.row.accounts[Lookup(v.row, name).value].revision)
    ensures var id := Lookup(v.row, name).value;
      id in v.rest.endpoints && ConfigOf(states[0], id) == ConfigShown(v, id)
  {
    var id := Lookup(v.row, name).value;
    assert Log(states[..q + 1], log[..q]);
    HeadIsQuiet(states, log, q);
    ConfigStays(states[..q + 1], log[..q], id);
    NameOf(states[q], id);
    assert AccountEvolves(v.row, v.rest, id) && AccountEvolves(v.rest, states[0], id);
  }

  predicate GuardsRevision(c: Catalog, name: string, revision: nat) {
    Lookup(c, name).Some? && c.accounts[c.names[name]].revision == revision
  }

  /** A created account is selected as it was reviewed. */
  lemma CreatedConfigurationIsSelected(states: seq<Catalog>, log: seq<Entry>, i: nat)
    requires Log(states, log) && OwnKinds(log) && OthersAreQuiet(states, log)
    requires i < |log| && log[i].own && log[i].tx.TxAdd?
    ensures Consistent(Last(states))
    ensures var tx := log[i].tx;
      && Lookup(Last(states), tx.name) == Some(tx.id)
      && ConfigOf(Last(states), tx.id) ==
           Config(tx.name, tx.profile, true, false, RolesOf(tx.incoming, tx.outgoing))
  {
    var tx := log[i].tx;
    assert Commits(states[i], tx, states[i + 1]);
    TailIsLog(states, log, i + 1);
    TailIsQuiet(states, log, i + 1);
    ConfigStays(states[i + 1..], log[i + 1..], tx.id);
    NameOf(Last(states), tx.id);
  }

  function LegacySelection(path: string, revision: nat): Bootstrap.ReadResult {
    Bootstrap.Readable(Bootstrap.Selection(Bootstrap.Legacy, Some(path), revision, true))
  }

  /** From legacy to managed mode, with the same database and at the next revision. */
  predicate Switches(was: Bootstrap.ReadResult, now: Bootstrap.ReadResult, path: string, revision: nat) {
    && was == LegacySelection(path, revision)
    && now == Bootstrap.Readable(Bootstrap.Selection(Bootstrap.Managed, Some(path), revision + 1, true))
  }

  /** The last step of the import, under the lock of the selection file and the fence of the catalog:
      it switches to managed mode only from the very selection it was given, with the reviewed settings
      and secrets unchanged and the fence accepted, and otherwise leaves the selection alone. */
  method GuardedImportCutover(
    file: Bootstrap.SelectionFile, target: string, expectedRevision: nat, sourceUnchanged: bool, secretsUnchanged: bool,
    catalog: Catalog, catalogRevision: nat, expected: map<string, Known>, fault: Bootstrap.Fault) returns (ok: bool)
    requires file.Valid()
    modifies file
    ensures file.Valid()
    ensures ok ==> Switches(old(file.Current()), file.Current(), target, expectedRevision)
    ensures ok ==> sourceUnchanged && secretsUnchanged && Guard(catalog, catalogRevision, expected)
    ensures !ok && fault != Bootstrap.RaisesAfter ==> file.Current() == old(file.Current())
    ensures !ok && fault == Bootstrap.NoFault ==>
      || old(file.Current()) != LegacySelection(target, expectedRevision)
      || !sourceUnchanged || !secretsUnchanged || !Guard(catalog, catalogRevision, expected)
  {
    var current := file.Current();
    if current.Broken? || current.selection.revision != expectedRevision || current.selection.mode != Bootstrap.Legacy
       || current.selection.db != Some(target) {
      return false;
    }
    if !sourceUnchanged || !secretsUnchanged || !Guard(catalog, catalogRevision, expected) {
      return false;
    }
    Bootstrap.ReadIsSound(file.disk, file.paths);
    var written := file.Write(Bootstrap.Managed, Some(target), Some(expectedRevision), None, fault);
    ok := written.Written?;
  }
}
