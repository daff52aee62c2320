/** The stateful catalog adapter, one call at a time: the calls that do more than one transaction, and
    those that also work on the secret store.  A call that is a single transaction is given as a
    function in module Catalogs; how calls interleave is the subject of module CredentialRuns. */
module ManagedStore {
  import opened Collections
  import opened Catalogs
  import opened CredentialRuns
  import opened Wrappers

  /** What one deletion does to the secret store, and whether it reports success. */
  datatype Deletion = Deletion(gone: bool, reported: bool)

  datatype CleanupReport = CleanupReport(examined: nat, cleaned: nat, remaining: nat)

  datatype RemovalReport = RemovalReport(revision: nat, examined: nat, cleaned: nat, cleanupRequired: nat)

  predicate Durable(outcome: CommitOutcome) {
    outcome == Committed || outcome == RaisedAfterCommit
  }

  /** What is on disk afterwards. */
  function Settling(c: Catalog, reply: Reply<Catalog>, outcome: CommitOutcome): Catalog {
    if reply.Done? && Durable(outcome) then reply.value else c
  }

  const CLEANUP_LIMIT := 100

  class ManagedCatalog {
    var revision: nat
    var policy: Policy
    var names: map<string, Id>
    var accounts: map<Id, Account>
    var endpoints: map<Id, map<Role, Endpoint>>
    var bindings: map<Locator, Binding>
    var secrets: map<Locator, Secret>

    constructor ()
      ensures Consistent(Contents()) && Contents().accounts == map[] && Contents().bindings == map[] && secrets == map[]
    {
      revision, policy := 1, Policy(false, [], []);
      names, accounts, endpoints, bindings, secrets := map[], map[], map[], map[], map[];
    }

    function Contents(): Catalog
      reads this
    {
      Catalog(revision, policy, names, accounts, endpoints, bindings)
    }

    /** The first transaction finds a complete account, the secrets are read outside any transaction,
        and the second checks everything again. */
    method EnableAccount(name: string, expected: nat, readable: set<Locator>, commit: CommitOutcome)
      returns (r: Reply<nat>)
      requires Consistent(Contents())
      modifies this`accounts
      ensures r.Done? ==> BecameEnabled(old(Contents()), name, expected, readable * secrets.Keys, Contents())
      ensures r.Done? <==> commit == Committed && MayEnable(old(Contents()), name, expected, readable * secrets.Keys)
      ensures r.Done? ==> r.value == expected + 1
      ensures !r.Done? && commit != RaisedAfterCommit ==> Contents() == old(Contents())
    {
      var found := Lookup(Contents(), name);
      if expected < 1 || found.None? || accounts[found.value].enabled {
        return Rejected;
      }
      var id := found.value;
      if accounts[id].revision != expected {
        return Conflict;
      }
      if !Complete(Contents(), id) {
        return Rejected;
      }
      var used := ActiveIn(Contents(), id, Incoming) + ActiveIn(Contents(), id, Outgoing);
      if exists l :: l in used && (l !in readable || l !in secrets) {
        return Rejected;
      }
      var second := Catalogs.EnableAccount(Contents(), id, expected);
      if !second.Done? {
        return Conflict;
      }
      if Durable(commit) {
        accounts := second.value.accounts;
        SameBindings(old(Contents()), Contents());
      }
      r := if commit == Committed then Done(expected + 1) else Rejected;
    }

    /** Activation demotes the old credential of the role, adds the new one and reports which secret
        is now to be deleted; with secrets in the same file the new value is part of the commit. */
    method Activate(
      id: Id, role: Role, expected: nat, locator: Locator, value: Secret, sameFile: bool, commit: CommitOutcome)
      returns (accepted: bool, replaced: Option<Locator>)
      requires Consistent(Contents()) && locator !in bindings
      modifies this`accounts, this`bindings, this`secrets
      ensures accepted == (MayActivate(old(Contents()), id, role, expected) && commit != NotCommitted)
      ensures replaced.Some? ==> accepted
      ensures accepted ==>
        ActiveIn(old(Contents()), id, role) == if replaced.Some? then {replaced.value} else {}
      ensures Contents() ==
        if accepted && Durable(commit) then Activated(old(Contents()), id, role, locator) else old(Contents())
      ensures secrets == if accepted && Durable(commit) && sameFile then old(secrets)[locator := value] else old(secrets)
      ensures Consistent(Contents())
    {
      if !MayActivate(Contents(), id, role, expected) || commit == NotCommitted {
        return false, None;
      }
      ActivatedIsConsistent(Contents(), id, role, expected, locator);
      replaced := None;
      var demoted := bindings;
      var current := Binding(id, role, ACTIVE);
      if l :| l in bindings && bindings[l] == current {
        replaced := Some(l);
        demoted := bindings[l := current.(status := CLEANUP_REQUIRED)];
      }
      OnlyOneStepsDown(Contents(), id, role, replaced, demoted);
      if Durable(commit) {
        bindings := demoted[locator := current];
        accounts := accounts[id := Revised(accounts[id])];
        if sameFile {
          secrets := secrets[locator := value];
        }
      }
      accepted := true;
    }

    /** Delete the claimed secrets one at a time, marking each that the store says is gone.  `meanwhile` are
        the rows that others had marked by the time it was their turn; those are not counted. */
    method CleanupCredentials(
      limit: nat, expected: Option<nat>, picked: seq<Locator>, meanwhile: set<Locator>, delete: Locator -> Deletion,
      mark: Locator -> CommitOutcome) returns (r: Reply<CleanupReport>)
      requires Consistent(Contents())
      requires Picks(picked, Outstanding(Contents()), limit)
      modifies this`revision, this`bindings, this`secrets
      ensures r.Rejected? <==> !(1 <= limit <= CLEANUP_LIMIT)
      ensures r.Conflict? <==> !r.Rejected? && expected.Some? && expected.value != old(revision)
      ensures !r.Done? ==> Contents() == old(Contents()) && secrets == old(secrets)
      ensures r.Done? ==>
        && Contents() ==
             Superseded(Superseded(ClaimCleanup(old(Contents()), expected).value, meanwhile), MarkedAmong(picked, delete, mark))
        && secrets == old(secrets) - GoneAmong(picked, delete)
        && r.value.examined == |picked| && r.value.cleaned == |CountedAmong(picked, delete, mark) - meanwhile|
        && r.value.remaining == |picked| - r.value.cleaned
    {
      if !(1 <= limit <= CLEANUP_LIMIT) {
        return Rejected;
      }
      if expected.Some? && expected.value != revision {
        return Conflict;
      }
      if picked != [] {
        assert picked[0] in Outstanding(Contents());
        revision := revision + 1;
      }
      assert Contents() == ClaimCleanup(old(Contents()), expected).value;
      StillWaiting(bindings, meanwhile, CountedAmong(picked, delete, mark));
      bindings := SupersededRows(bindings, meanwhile);
      var cleaned: nat;
      bindings, secrets, cleaned := DeleteAndMark(bindings, secrets, picked, delete, mark);
      r := Done(CleanupReport(|picked|, cleaned, |picked| - cleaned));
    }

    static method DeleteAndMark(
      rows: map<Locator, Binding>, store: map<Locator, Secret>, picked: seq<Locator>, delete: Locator -> Deletion,
      mark: Locator -> CommitOutcome)
      returns (rows': map<Locator, Binding>, store': map<Locator, Secret>, cleaned: nat)
      requires Distinct(picked)
      ensures rows' == SupersededRows(rows, MarkedAmong(picked, delete, mark))
      ensures store' == store - GoneAmong(picked, delete)
      ensures cleaned == |Waiting(rows, CountedAmong(picked, delete, mark))| <= |picked|
    {
      rows', store', cleaned := rows, store, 0;
      assert SupersededRows(rows, {}) == rows;
      for n := 0 to |picked|
        invariant rows' == SupersededRows(rows, MarkedAmong(picked[..n], delete, mark))
        invariant store' == store - GoneAmong(picked[..n], delete)
        invariant cleaned == |Waiting(rows, CountedAmong(picked[..n], delete, mark))| <= n
      {
        var l := picked[n];
        NextGone(store, picked, n, delete);
        NextMarked(rows, picked, n, delete, mark);
        NextCounted(rows, picked, n, delete, mark);
        var changed := if IsWaiting(rows', l) then 1 else 0;
        if delete(l).gone {
          store' := store' - {l};
        }
        if delete(l).reported && Durable(mark(l)) {
          rows' := MarkOne(rows', l);
        }
        if delete(l).reported && mark(l) == Committed {
          cleaned := cleaned + changed;
        }
      }
      assert picked[..|picked|] == picked;
    }

    /** Removal demotes every unfinished credential and disables the account in one commit; then it
        deletes what it can and marks the deleted ones together, except those that others had marked in
        the meantime. */
    method SoftRemoveAccount(
      name: string, expected: nat, picked: seq<Locator>, meanwhile: set<Locator>, delete: Locator -> Deletion,
      commit: CommitOutcome, mark: CommitOutcome) returns (r: Reply<RemovalReport>)
      requires Consistent(Contents())
      requires forall id :: Lookup(Contents(), name) == Some(id) ==> Picks(picked, Unfinished(Contents(), id), CLEANUP_LIMIT)
      modifies this`accounts, this`bindings, this`secrets
      ensures var reply := SoftRemove(old(Contents()), name, expected);
        && r.Done? == (reply.Done? && commit == Committed)
        && (!r.Done? ==> Contents() == Settling(old(Contents()), reply, commit) && secrets == old(secrets))
        && (r.Done? ==>
              && Contents() ==
                   Superseded(Superseded(reply.value, meanwhile), if Durable(mark) then ReportedAmong(picked, delete) else {})
              && secrets == old(secrets) - GoneAmong(picked, delete)
              && r.value.revision == expected + 1 && r.value.examined == |picked|
              && r.value.cleaned == (if mark == Committed then |ReportedAmong(picked, delete) - meanwhile| else 0)
              && r.value.cleanupRequired + r.value.cleaned ==
                   |Unfinished(old(Contents()), Lookup(old(Contents()), name).value)|)
    {
      var removed := RemoveRow(name, expected, commit);
      match removed {
        case Conflict => r := Conflict;
        case Rejected => r := Rejected;
        case Done(total) =>
          UnfinishedWait(old(Contents()), name, expected);
          ghost var id := Lookup(old(Contents()), name).value;
          var cleaned := CleanUpRemoved(Unfinished(old(Contents()), id), picked, meanwhile, delete, mark);
          r := Done(RemovalReport(expected + 1, |picked|, cleaned, total - cleaned));
      }
    }

    /** The transaction of a removal, which also counts the credentials to be cleaned up. */
    method RemoveRow(name: string, expected: nat, commit: CommitOutcome) returns (r: Reply<nat>)
      requires Consistent(Contents())
      modifies this`accounts, this`bindings
      ensures var reply := SoftRemove(old(Contents()), name, expected);
        && r.Done? == (reply.Done? && commit == Committed)
        && (r.Done? ==> r.value == |Unfinished(old(Contents()), Lookup(old(Contents()), name).value)|)
        && Contents() == Settling(old(Contents()), reply, commit)
    {
      var found := Lookup(Contents(), name);
      if expected < 1 {
        return Rejected;
      }
      if found.None? || accounts[found.value].revision != expected {
        return Conflict;
      }
      var id := found.value;
      var total := |Unfinished(Contents(), id)|;
      if Durable(commit) {
        bindings := Demoted(bindings, Unfinished(Contents(), id));
        accounts := accounts[id := Revised(accounts[id]).(enabled := false, removed := true)];
      }
      r := if commit == Committed then Done(total) else Rejected;
    }

    /** What removal does after its own commit. */
    method CleanUpRemoved(
      ghost unfinished: set<Locator>, picked: seq<Locator>, meanwhile: set<Locator>, delete: Locator -> Deletion,
      mark: CommitOutcome) returns (cleaned: nat)
      requires forall l :: l in picked ==> l in unfinished && IsWaiting(bindings, l)
      modifies this`bindings, this`secrets
      ensures bindings ==
        SupersededRows(SupersededRows(old(bindings), meanwhile), if Durable(mark) then ReportedAmong(picked, delete) else {})
      ensures secrets == old(secrets) - GoneAmong(picked, delete)
      ensures cleaned == if mark == Committed then |ReportedAmong(picked, delete) - meanwhile| else 0
      ensures cleaned <= |unfinished|
    {
      var deleted: set<Locator>;
      secrets, deleted := DeleteAll(secrets, picked, delete);
      SubsetSize(deleted - meanwhile, unfinished);
      bindings, cleaned := MarkTogether(bindings, meanwhile, deleted, mark);
    }

    /** Marking all deleted credentials in one transaction, after others have marked theirs. */
    static method MarkTogether(
      rows: map<Locator, Binding>, meanwhile: set<Locator>, deleted: set<Locator>, mark: CommitOutcome)
      returns (rows': map<Locator, Binding>, cleaned: nat)
      requires forall l :: l in deleted ==> IsWaiting(rows, l)
      ensures rows' == SupersededRows(SupersededRows(rows, meanwhile), if Durable(mark) then deleted else {})
      ensures cleaned == if mark == Committed then |deleted - meanwhile| else 0
    {
      StillWaiting(rows, meanwhile, deleted);
      rows' := SupersededRows(rows, meanwhile);
      cleaned := if mark == Committed then |Waiting(rows', deleted)| else 0;
      assert SupersededRows(rows', {}) == rows';
      if Durable(mark) {
        rows' := SupersededRows(rows', deleted);
      }
    }

    static method DeleteAll(store: map<Locator, Secret>, picked: seq<Locator>, delete: Locator -> Deletion)
      returns (store': map<Locator, Secret>, deleted: set<Locator>)
      ensures store' == store - GoneAmong(picked, delete)
      ensures deleted == ReportedAmong(picked, delete)
    {
      store', deleted := store, {};
      for n := 0 to |picked|
        invariant store' == store - GoneAmong(picked[..n], delete)
        invariant deleted == ReportedAmong(picked[..n], delete)
      {
        NextGone(store, picked, n, delete);
        assert picked[..n + 1] == picked[..n] + [picked[n]];
        if delete(picked[n]).gone {
          store' := store' - {picked[n]};
        }
        if delete(picked[n]).reported {
          deleted := deleted + {picked[n]};
        }
      }
      assert picked[..|picked|] == picked;
    }
  }

  predicate Distinct(picked: seq<Locator>) {
    forall i, j :: 0 <= i < j < |picked| ==> picked[i] != picked[j]
  }

  /** The oldest rows first, up to the limit; which ones those are is left open. */
  ghost predicate Picks(picked: seq<Locator>, from: set<Locator>, limit: nat) {
    && Distinct(picked)
    && (forall l :: l in picked ==> l in from)
    && |picked| == if |from| <= limit then |from| else limit
  }

  /** The account exists, is disabled and complete at the expected revision, and its secrets can be read. */
  predicate MayEnable(c: Catalog, name: string, expected: nat, readable: set<Locator>) {
    match Lookup(c, name)
    case None => false
    case Some(id) =>
      && 1 <= expected && EnableAccount(c, id, expected).Done?
      && ActiveIn(c, id, Incoming) + ActiveIn(c, id, Outgoing) <= readable
  }

  /** The named account went from disabled to enabled, complete and with readable credentials. */
  ghost predicate BecameEnabled(c: Catalog, name: string, expected: nat, readable: set<Locator>, c': Catalog) {
    match Lookup(c, name)
    case None => false
    case Some(id) =>
      && EnableAccount(c, id, expected) == Done(c')
      && ActiveIn(c', id, Incoming) + ActiveIn(c', id, Outgoing) <= readable
  }

  function GoneAmong(picked: seq<Locator>, delete: Locator -> Deletion): set<Locator> {
    set l | l in picked && delete(l).gone
  }

  function ReportedAmong(picked: seq<Locator>, delete: Locator -> Deletion): set<Locator> {
    set l | l in picked && delete(l).reported
  }

  function MarkedAmong(picked: seq<Locator>, delete: Locator -> Deletion, mark: Locator -> CommitOutcome): set<Locator> {
    set l | l in picked && delete(l).reported && Durable(mark(l))
  }

  function CountedAmong(picked: seq<Locator>, delete: Locator -> Deletion, mark: Locator -> CommitOutcome): set<Locator> {
    set l | l in picked && delete(l).reported && mark(l) == Committed
  }

  function MarkOne(bindings: map<Locator, Binding>, l: Locator): map<Locator, Binding> {
    if IsWaiting(bindings, l) then bindings[l := bindings[l].(status := SUPERSEDED)] else bindings
  }

  lemma OnlyOneStepsDown(c: Catalog, id: Id, role: Role, replaced: Option<Locator>, demoted: map<Locator, Binding>)
    requires Consistent(c)
    requires replaced.Some? ==> replaced.value in ActiveIn(c, id, role)
    requires replaced.Some? ==> demoted == c.bindings[replaced.value := Binding(id, role, CLEANUP_REQUIRED)]
    requires replaced.None? ==> ActiveIn(c, id, role) == {} && demoted == c.bindings
    ensures ActiveIn(c, id, role) == if replaced.Some? then {replaced.value} else {}
    ensures demoted == Demoted(c.bindings, ActiveIn(c, id, role))
  {
  }

  lemma NextGone(store: map<Locator, Secret>, picked: seq<Locator>, n: nat, delete: Locator -> Deletion)
    requires n < |picked|
    ensures store - GoneAmong(picked[..n + 1], delete) ==
      (store - GoneAmong(picked[..n], delete)) - (if delete(picked[n]).gone then {picked[n]} else {})
  {
  }

  lemma NextMarked(
    rows: map<Locator, Binding>, picked: seq<Locator>, n: nat, delete: Locator -> Deletion,
    mark: Locator -> CommitOutcome)
    requires n < |picked|
    ensures var before := SupersededRows(rows, MarkedAmong(picked[..n], delete, mark));
      SupersededRows(rows, MarkedAmong(picked[..n + 1], delete, mark)) ==
        if delete(picked[n]).reported && Durable(mark(picked[n])) then MarkOne(before, picked[n]) else before
  {
  }

  /** The rows of these credentials that an update of waiting rows changes. */
  function Waiting(rows: map<Locator, Binding>, which: set<Locator>): set<Locator> {
    set l | l in which && IsWaiting(rows, l)
  }

  /** Of rows that all wait, those still wait that nobody else marked in the meantime. */
  lemma StillWaiting(rows: map<Locator, Binding>, meanwhile: set<Locator>, which: set<Locator>)
    requires forall l :: l in which ==> IsWaiting(rows, l)
    ensures Waiting(SupersededRows(rows, meanwhile), which) == which - meanwhile
  {
  }

  /** A credential that is counted adds one if its row still waits, which is as it was: it is not among
      those already marked. */
  lemma NextCounted(
    rows: map<Locator, Binding>, picked: seq<Locator>, n: nat, delete: Locator -> Deletion,
    mark: Locator -> CommitOutcome)
    requires n < |picked| && Distinct(picked)
    ensures |Waiting(rows, CountedAmong(picked[..n + 1], delete, mark))| ==
      |Waiting(rows, CountedAmong(picked[..n], delete, mark))|
        + (if delete(picked[n]).reported && mark(picked[n]) == Committed
              && IsWaiting(SupersededRows(rows, MarkedAmong(picked[..n], delete, mark)), picked[n]) then 1 else 0)
  {
    var l, counted := picked[n], CountedAmong(picked[..n], delete, mark);
    CountedGrows(picked, n, delete, mark);
    NotBefore(picked, n);
    if delete(l).reported && mark(l) == Committed {
      WaitingGrows(rows, counted, l);
    } else {
      assert CountedAmong(picked[..n + 1], delete, mark) == counted;
    }
  }

  lemma WaitingGrows(rows: map<Locator, Binding>, which: set<Locator>, l: Locator)
    requires l !in which
    ensures |Waiting(rows, which + {l})| == |Waiting(rows, which)| + (if IsWaiting(rows, l) then 1 else 0)
  {
    assert Waiting(rows, which + {l}) == Waiting(rows, which) + (if IsWaiting(rows, l) then {l} else {});
  }

  predicate IsWaiting(rows: map<Locator, Binding>, l: Locator) {
    l in rows && rows[l].status == CLEANUP_REQUIRED
  }

  lemma CountedGrows(picked: seq<Locator>, n: nat, delete: Locator -> Deletion, mark: Locator -> CommitOutcome)
    requires n < |picked|
    ensures CountedAmong(picked[..n + 1], delete, mark) == CountedAmong(picked[..n], delete, mark)
      + (if delete(picked[n]).reported && mark(picked[n]) == Committed then {picked[n]} else {})
  {
  }

  lemma NotBefore(picked: seq<Locator>, n: nat)
    requires n < |picked| && Distinct(picked)
    ensures picked[n] !in picked[..n]
  {
  }

  lemma UnfinishedWait(c: Catalog, name: string, expected: nat)
    requires SoftRemove(c, name, expected).Done?
    ensures forall l :: l in Unfinished(c, Lookup(c, name).value) ==>
      IsWaiting(SoftRemove(c, name, expected).value.bindings, l)
  {
  }
}
