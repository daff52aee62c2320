/** The import at work: it reads the shared catalog, checks what it reviewed and commits its own
    transactions, and before every single one of its calls other writers may commit theirs. */
module ImportRun {
  import Bootstrap
  import opened Catalogs
  import opened Collections
  import opened ImportCutover
  import opened ImportSteps
  import opened Wrappers

  datatype Fault = Works | FailsBefore | RaisesAfter

  /** What happens around one call of the import: the transactions others try before it, how the call
      itself fares, and the id it draws. */
  datatype Turn = Turn(others: seq<Tx>, fault: Fault, drawn: nat)

  datatype Outcome = Raised | Active(attention: bool)

  /** One import and the catalog file that it shares with all other writers: the catalog as it is now,
      and the transactions committed since the accounts were listed for the preview. */
  class Import {
    const items: seq<Item>
    ghost const listed: Catalog
    var catalog: Catalog
    var coming: seq<Turn>
    ghost var states: seq<Catalog>
    ghost var log: seq<Entry>

    /** For each checked item the moment at which its account had the reviewed revision. */
    ghost var checked: map<nat, nat>

    constructor (listed: Catalog, items: seq<Item>, turns: seq<Turn>)
      requires Consistent(listed)
      ensures Valid() && this.listed == listed && this.items == items && coming == turns
      ensures states == [listed] && log == [] && checked == map[]
    {
      this.listed, this.items, catalog, coming := listed, items, listed, turns;
      states, log, checked := [listed], [], map[];
    }

    ghost predicate Valid()
      reads this
    {
      && Log(states, log) && states[0] == listed && Last(states) == catalog && Consistent(catalog)
      && OwnServes(states, log, items) && ChecksHold(states, items, checked)
    }

    /** The import's own steps so far. */
    ghost function Own(): seq<Step>
      reads this
    {
      OwnPart(log)
    }

    /** A transaction commits. */
    method Record(tx: Tx, own: bool, item: nat)
      requires Valid() && FreshNames(catalog, tx) && Commit(catalog, tx).Done?
      requires own ==> ServesItem(catalog, tx, items, item)
      modifies `catalog, `states, `log
      ensures Valid() && catalog == Commit(old(catalog), tx).value
      ensures Own() == if own then old(Own()) + [Step(old(|log|), tx, item)] else old(Own())
    {
      CommitEvolves(catalog, tx);
      LogAppends(states, log, catalog, Entry(tx, own, item), items);
      ChecksStay(states, Commit(catalog, tx).value, items, checked);
      catalog := Commit(catalog, tx).value;
      states, log := states + [catalog], log + [Entry(tx, own, item)];
    }

    /** Somebody else's transaction commits, or is refused and changes nothing. */
    method OtherCommits(tx: Tx)
      requires Valid()
      modifies `catalog, `states, `log
      ensures Valid() && Own() == old(Own()) && Evolves(old(catalog), catalog)
    {
      EvolvesIsReflexive(catalog);
      if FreshNames(catalog, tx) && Commit(catalog, tx).Done? {
        CommitEvolves(catalog, tx);
        Record(tx, false, 0);
      }
    }

    method OthersAct() returns (fault: Fault, drawn: nat)
      requires Valid()
      modifies `catalog, `coming, `states, `log
      ensures Valid() && Own() == old(Own()) && Evolves(old(catalog), catalog)
    {
      fault, drawn := Works, 0;
      EvolvesIsReflexive(catalog);
      if coming != [] {
        var turn := coming[0];
        coming, fault, drawn := coming[1..], turn.fault, turn.drawn;
        for n := 0 to |turn.others|
          invariant Valid() && Own() == old(Own()) && Evolves(old(catalog), catalog)
        {
          ghost var before := catalog;
          OtherCommits(turn.others[n]);
          EvolvesIsTransitive(old(catalog), before, catalog);
        }
      }
    }

    /** One SELECT of the import. */
    method Read() returns (c: Catalog, ok: bool)
      requires Valid()
      modifies `catalog, `coming, `states, `log
      ensures Valid() && Own() == old(Own()) && Evolves(old(catalog), catalog) && c == catalog
    {
      var fault, _ := OthersAct();
      c, ok := catalog, fault == Works;
    }

    /** One transaction of the import, on behalf of an item. */
    method Attempt(tx: Tx, item: nat) returns (done: bool)
      requires Valid()
      requires FreshNames(catalog, tx) && Commit(catalog, tx).Done? ==> ServesItem(catalog, tx, items, item)
      modifies `catalog, `coming, `states, `log
      ensures Valid()
      ensures done <==> FreshNames(old(catalog), tx) && Commit(old(catalog), tx).Done?
      ensures Own() == if done then old(Own()) + [Step(old(|log|), tx, item)] else old(Own())
      ensures catalog == if done then Commit(old(catalog), tx).value else old(catalog)
    {
      done := FreshNames(catalog, tx) && Commit(catalog, tx).Done?;
      if done {
        Record(tx, true, item);
      }
    }

    /** The account still has the reviewed revision, or there is none of that name, live or removed. */
    method TargetIs(name: string, reviewed: Option<nat>) returns (ok: bool)
      requires Valid()
      modifies `catalog, `coming, `states, `log
      ensures Valid() && Own() == old(Own())
      ensures ok && reviewed.Some? ==> GuardsRevision(catalog, name, reviewed.value)
    {
      var c, read := Read();
      if !read || (Lookup(c, name).Some? <==> reviewed.None?) {
        return false;
      }
      var shown, readAgain := Read();
      if !readAgain {
        return false;
      }
      match reviewed {
        case None => ok := name !in shown.names || Lookup(shown, name).Some?;
        case Some(revision) => ok := GuardsRevision(shown, name, revision);
      }
    }

    /** The check before each step: the account, the revision of the catalog, and what else is checked
        there by way of one more call that may fail: the selected database, the legacy secret and the
        fingerprint of the legacy settings. */
    method Recheck(name: string, reviewed: Option<nat>, revision: nat) returns (ok: bool)
      requires Valid()
      modifies `catalog, `coming, `states, `log
      ensures Valid() && Own() == old(Own())
    {
      ok := TargetIs(name, reviewed);
      if ok {
        var c, read := Read();
        ok := read && c.revision == revision;
      }
      if ok {
        var _, read := Read();
        ok := read;
      }
    }

    /** Activation of a stored secret, as the second half of setting it: the account found at `found`
        still has its name if it still has its revision. */
    method Activate(i: nat, id: Id, role: Role, expected: nat, locator: Locator, ghost found: Catalog)
      returns (ok: bool, replaced: set<Locator>)
      requires Valid() && i < |items| && !items[i].Same?
      requires Evolves(found, catalog) && GuardsRevision(found, items[i].name, expected)
      requires Lookup(found, items[i].name) == Some(id)
      modifies `catalog, `coming, `states, `log
      ensures Valid()
      ensures ok ==> SetNow(old(Own()), Own(), i, expected)
      ensures !ok ==> Own() == old(Own())
    {
      ok, replaced := false, {};
      ghost var before := catalog;
      var fault, _ := OthersAct();
      EvolvesIsTransitive(found, before, catalog);
      if fault != FailsBefore {
        replaced := ActiveIn(catalog, id, role);
        StillNamed(found, catalog, items[i].name, id, role, expected);
        ok := Attempt(TxActivate(id, role, expected, locator), i);
      }
    }

    /** Deleting a replaced secret and marking its row; then whether the role still has rows to clean. */
    method Finish(i: nat, id: Id, role: Role, replaced: set<Locator>) returns (attention: bool)
      requires Valid()
      modifies `catalog, `coming, `states, `log
      ensures Valid() && Marked(old(Own()), Own(), i)
    {
      attention := false;
      if replaced != {} {
        var fault, _ := OthersAct();
        attention := fault != Works;
        if fault != FailsBefore {
          var _ := Attempt(TxSupersede(replaced), i);
        }
      }
      var c, read := Read();
      attention := attention || !read || exists l :: l in c.bindings && c.bindings[l] == Binding(id, role, CLEANUP_REQUIRED);
    }

    /** Looking up the account by its name and the endpoint by its role, in two reads. */
    method Find(name: string, role: Role, expected: nat) returns (id: Option<Id>, ghost found: Catalog)
      requires Valid()
      modifies `catalog, `coming, `states, `log
      ensures Valid() && Own() == old(Own()) && Evolves(found, catalog)
      ensures id.Some? ==> GuardsRevision(found, name, expected) && Lookup(found, name) == id
    {
      var c, read := Read();
      id, found := None, c;
      if read && 1 <= expected && GuardsRevision(c, name, expected) {
        id := Lookup(c, name);
      }
      var d, readAgain := Read();
      if id.Some? && !(readAgain && id.value in d.endpoints && role in d.endpoints[id.value]) {
        id := None;
      }
    }

    /** Storing and activating one credential: the account is looked up by its name, the secret stored
        under a drawn locator and then activated, and a replaced credential deleted and marked. */
    method SetSecret(i: nat, role: Role, expected: nat) returns (r: Outcome)
      requires Valid() && i < |items| && !items[i].Same?
      modifies `catalog, `coming, `states, `log
      ensures Valid() && Grew(old(Own()), Own(), i)
      ensures r.Active? ==> SetOnce(old(Own()), Own(), i, expected)
    {
      r := Raised;
      var id, found := Find(items[i].name, role, expected);
      if id.None? {
        return;
      }
      ghost var before := catalog;
      var fault, locator := OthersAct();
      if fault != Works {
        return;
      }
      EvolvesIsTransitive(found, before, catalog);
      var ok, replaced := Activate(i, id.value, role, expected, locator, found);
      if ok {
        ghost var active := Own();
        var attention := Finish(i, id.value, role, replaced);
        SetThenMarked(old(Own()), active, Own(), i, expected);
        r := Active(attention);
      }
    }

    /** The addition of an account, with the expected catalog revision as its condition. */
    method Add(i: nat, revision: nat) returns (ok: bool)
      requires Valid() && i < |items| && items[i].Create?
      modifies `catalog, `coming, `states, `log
      ensures Valid() && Grew(old(Own()), Own(), i)
      ensures ok ==> AddedNow(old(Own()), Own(), i)
    {
      var item := items[i];
      var fault, id := OthersAct();
      if fault == FailsBefore {
        return false;
      }
      ok := Attempt(TxAdd(id, item.name, item.profile, item.incoming, item.outgoing, Some(revision)), i);
      ok := ok && fault == Works;
    }

    /** Creating an account: one addition, then its credentials. */
    method CreateItem(i: nat, revision: nat) returns (r: Outcome, next: nat)
      requires Valid() && i < |items| && items[i].Create?
      modifies `catalog, `coming, `states, `log
      ensures Valid() && Grew(old(Own()), Own(), i)
      ensures r.Active? ==> ItemDone(old(Own()), Own(), items, i) && next == Expects(items[i]).revision
    {
      r, next := Raised, 1;
      var checks := if items[i].outgoing.Some? then 3 else 2;
      for n := 0 to checks
        invariant Valid() && Own() == old(Own())
      {
        var ok := Recheck(items[i].name, None, revision);
        if !ok {
          return;
        }
      }
      var added := Add(i, revision);
      if added {
        r, next := SetBoth(i, old(Own()));
      }
    }

    /** The credentials of a new account. */
    method SetBoth(i: nat, ghost own0: seq<Step>) returns (r: Outcome, next: nat)
      requires Valid() && i < |items| && items[i].Create? && AddedNow(own0, Own(), i)
      modifies `catalog, `coming, `states, `log
      ensures Valid() && Grew(own0, Own(), i)
      ensures r.Active? ==> ItemDone(own0, Own(), items, i) && next == Expects(items[i]).revision
    {
      ghost var own1 := Own();
      r := SetSecret(i, Incoming, 1);
      next := 2;
      ghost var own2 := Own();
      GrewTwice(own0, own1, own2, i);
      if r.Active? && items[i].outgoing.Some? {
        var outgoing := SetSecret(i, Outgoing, 2);
        r := if outgoing.Raised? then Raised else Active(r.attention || outgoing.attention);
        next := 3;
        GrewTwice(own0, own2, Own(), i);
      }
      if r.Active? {
        CreatedDone(own0, own1, own2, Own(), items, i);
      }
    }

    /** Setting the missing credentials of an account, one after the other. */
    method ResumeItem(i: nat, revision: nat) returns (r: Outcome, next: nat)
      requires Valid() && i < |items| && items[i].Resume? && items[i].missing != [] && Below(Own(), i)
      modifies `catalog, `coming, `states, `log
      ensures Valid() && Grew(old(Own()), Own(), i)
      ensures r.Active? ==> ItemDone(old(Own()), Own(), items, i) && next == Expects(items[i]).revision
    {
      r, next := Active(false), items[i].reviewed;
      for m := 0 to |items[i].missing|
        invariant Valid() && Grew(old(Own()), Own(), i)
        invariant r.Active? && next == items[i].reviewed + m
        invariant Resumed(old(Own()), Own(), i, items[i].reviewed, m)
      {
        for n := 0 to 2
          invariant Valid() && Grew(old(Own()), Own(), i) && Resumed(old(Own()), Own(), i, items[i].reviewed, m)
        {
          var ok := Recheck(items[i].name, Some(next), revision);
          if !ok {
            return Raised, next;
          }
        }
        ghost var before := Own();
        var one := SetSecret(i, items[i].missing[m], next);
        GrewTwice(old(Own()), before, Own(), i);
        if one.Raised? {
          return Raised, next;
        }
        ResumedNext(old(Own()), before, Own(), i, items[i].reviewed, m);
        r, next := Active(r.attention || one.attention), next + 1;
      }
      assert ResumesFor(Own(), |old(Own())|, i, items[i].reviewed);
    }

    /** An unchanged account is only read: its secrets are compared with the legacy ones. */
    method CheckItem(i: nat, revision: nat) returns (ok: bool)
      requires Valid() && i < |items| && items[i].Same?
      modifies `catalog, `coming, `states, `log
      ensures Valid() && Own() == old(Own())
    {
      for n := 0 to 3
        invariant Valid() && Own() == old(Own())
      {
        ok := Recheck(items[i].name, Some(items[i].reviewed), revision);
        if !ok {
          return;
        }
      }
      var _, same := Read();
      ok := same;
    }

    /** The target of one item is as it was previewed. */
    method ItemIs(n: nat) returns (ok: bool)
      requires Valid() && n < |items|
      modifies this
      ensures Valid() && Own() == old(Own())
      ensures ok && CheckedBelow(items, old(checked).Keys, n) ==> CheckedBelow(items, checked.Keys, n + 1)
    {
      ok := TargetIs(items[n].name, if items[n].Create? then None else Some(items[n].reviewed));
      if ok && !items[n].Create? {
        CheckedNow(states, items, checked, n);
        checked := checked[n := |states| - 1];
      }
    }

    method ItemsAre() returns (ok: bool)
      requires Valid()
      modifies this
      ensures Valid() && Own() == old(Own()) && (ok ==> CheckedBelow(items, checked.Keys, |items|))
    {
      for n := 0 to |items|
        invariant Valid() && Own() == old(Own()) && CheckedBelow(items, checked.Keys, n)
      {
        ok := ItemIs(n);
        if !ok {
          return;
        }
      }
      ok := true;
    }

    /** The target is as it was previewed: the catalog revision, then every account, then the catalog
        revision again. */
    method SnapshotIs(target: nat) returns (ok: bool)
      requires Valid()
      modifies this
      ensures Valid() && Own() == old(Own())
      ensures ok ==> CheckedBelow(items, checked.Keys, |items|)
    {
      var c, read := Read();
      if !read || c.revision != target {
        return false;
      }
      var same := ItemsAre();
      if !same {
        return false;
      }
      var again, readAgain := Read();
      ok := readAgain && again.revision == target;
    }

    method OneItem(n: nat, revision: nat, checkSame: bool) returns (r: Outcome, next: nat)
      requires Valid() && n < |items| && Below(Own(), n) && (items[n].Resume? ==> items[n].missing != [])
      modifies `catalog, `coming, `states, `log
      ensures Valid()
      ensures r.Active? ==> ItemDone(old(Own()), Own(), items, n)
      ensures r.Active? && !items[n].Same? ==> next == Expects(items[n]).revision
    {
      r, next := Active(false), 0;
      match items[n] {
        case Create(_, _, _, _) =>
          r, next := CreateItem(n, revision);
        case Resume(_, _, _) =>
          r, next := ResumeItem(n, revision);
        case Same(_, _) =>
          if checkSame {
            var ok := CheckItem(n, revision);
            r := if ok then r else Raised;
          }
      }
    }

    /** The loop over the accounts: the work, and what the fence is to expect afterwards. */
    method DoItems(target: nat, known: map<string, Known>, checkSame: bool)
      returns (r: Outcome, revision: nat, expected: map<string, Known>)
      requires Valid() && Own() == [] && ResumesHaveWork(items)
      modifies `catalog, `coming, `states, `log
      ensures Valid()
      ensures r.Active? ==> DoneUpTo(Own(), items, |items|, target, revision, known, expected)
    {
      r, revision, expected := Active(false), target, known;
      for n := 0 to |items|
        invariant Valid() && r.Active? && DoneUpTo(Own(), items, n, target, revision, known, expected)
      {
        ghost var before := Own();
        var one, next := OneItem(n, revision, checkSame);
        if one.Raised? {
          r := Raised;
          return;
        }
        ItemAdvances(before, Own(), items, n, target, revision, known, expected);
        r := Active(r.attention || one.attention);
        if items[n].Create? {
          revision := revision + 1;
        }
        if !items[n].Same? {
          expected := expected[items[n].name := Known(next, true)];
        }
      }
    }

    method DoPolicy(revision: nat, policy: Policy) returns (ok: bool)
      requires Valid() && AllDone(Own(), items, false)
      modifies `catalog, `coming, `states, `log
      ensures Valid() && (ok ==> AllDone(Own(), items, true))
    {
      var c, read := Read();
      if !read || c.revision != revision {
        return false;
      }
      var fault, _ := OthersAct();
      if fault == FailsBefore {
        return false;
      }
      ghost var before := Own();
      ok := Attempt(TxPolicy(revision, policy), |items|);
      if ok {
        PolicyAdvances(before, Own(), items);
      }
      ok := ok && fault == Works;
    }

    /** The steps before the fence: the snapshot is checked, then the items are done, then the policy. */
    method Prepare(target: nat, known: map<string, Known>, policy: Option<Policy>, conflicts: bool, unsupported: bool)
      returns (r: Outcome, revision: nat, expected: map<string, Known>)
      requires Valid() && Own() == [] && ResumesHaveWork(items)
      modifies this
      ensures Valid()
      ensures r.Active? ==> CheckedBelow(items, checked.Keys, |items|) && AllDone(Own(), items, policy.Some?)
      ensures r.Active? ==> revision == target + Creates(items) + (if policy.Some? then 1 else 0)
      ensures r.Active? ==> expected == Expected(items, known)
    {
      r, revision, expected := Raised, target, known;
      var same := SnapshotIs(target);
      if !same || conflicts {
        return;
      }
      r, revision, expected := DoItems(target, known, !unsupported);
      assert items[..|items|] == items;
      if r.Active? && policy.Some? {
        var ok := DoPolicy(revision, policy.value);
        r := if ok then r else Raised;
        revision := revision + 1;
      }
    }

    /** The fence: what others do first they have done, and from then on they wait. */
    method Cutover(
      file: Bootstrap.SelectionFile, ghost shown: seq<Shown>, ghost target: nat, ghost updatePolicy: bool,
      selection: nat, path: string,
      sourceUnchanged: bool, secretsUnchanged: bool, revision: nat, expected: map<string, Known>, fault: Bootstrap.Fault)
      returns (r: Report)
      requires Valid() && AllDone(Own(), items, updatePolicy) && target <= listed.revision
      requires ShowsItems(shown, items, listed) && CheckedBelow(items, checked.Keys, |items|)
      requires DistinctNames(items) && file.Valid() && expected == Expected(items, Listing(listed))
      requires revision == target + Creates(items) + (if updatePolicy then 1 else 0)
      modifies `catalog, `coming, `states, `log, file
      ensures file.Valid() && Valid() && Own() == old(Own()) && (r == Failed || r == Reported(true, false))
      ensures r.Reported? ==> Switched(shown, target, updatePolicy)
      ensures r.Reported? ==> Switches(old(file.Current()), file.Current(), path, selection)
      ensures r.Failed? && fault != Bootstrap.RaisesAfter ==> file.Current() == old(file.Current())
    {
      var before, _ := OthersAct();
      if before != Works {
        return Failed;
      }
      var switched := GuardedImportCutover(
        file, path, selection, sourceUnchanged, secretsUnchanged, catalog, revision, expected, fault);
      r := if switched then Reported(true, false) else Failed;
      if switched {
        Accepted(states, log, items, target, updatePolicy);
        ReviewedAreSelected(states, log, items, shown, checked);
      }
    }

    /** What a switch to managed mode means: the fence accepted, and then all others were quiet if and
        only if the listing fits the plan; every created account is then selected as reviewed, and every
        other one exactly if its name meant the account that was reviewed when the accounts were listed. */
    ghost predicate Switched(shown: seq<Shown>, target: nat, updatePolicy: bool)
      requires Valid() && ShowsItems(shown, items, listed)
      reads this
    {
      && FenceAccepts(catalog, listed, items, target, updatePolicy)
      && (OthersAreQuiet(states, log) <==> Fits(items, Listing(listed)))
      && (OthersAreQuiet(states, log) ==>
            forall i :: 0 <= i < |items| && items[i].Create? ==> SelectedAs(catalog, items[i]))
      && (OthersAreQuiet(states, log) ==> ReviewsKept(states[0], catalog, items, shown))
    }

    /** The whole import.  `seen` is the selection as read before the fence; the fence reads it again. */
    method Apply(
      file: Bootstrap.SelectionFile, target: nat, known: map<string, Known>, policy: Option<Policy>, conflicts: bool,
      unsupported: bool, seen: Bootstrap.Selection, path: string, sourceUnchanged: bool, secretsUnchanged: bool,
      fault: Bootstrap.Fault, ghost shown: seq<Shown>) returns (r: Report)
      requires ShowsItems(shown, items, listed)
      requires Valid() && log == [] && known == Listing(listed) && target <= listed.revision
      requires DistinctNames(items) && ResumesHaveWork(items) && file.Valid()
      modifies this, file
      ensures Valid() && file.Valid()
      ensures r.Reported? ==> AllDone(Own(), items, policy.Some?)
      ensures r.Reported? ==> (r.switched <==> !unsupported && !r.attention && seen.mode == Bootstrap.Legacy)
      ensures r.Reported? && r.switched ==> Switched(shown, target, policy.Some?)
      ensures r.Reported? && r.switched ==> Switches(old(file.Current()), file.Current(), path, seen.revision)
      ensures !(r.Reported? && r.switched) && fault != Bootstrap.RaisesAfter ==> file.Current() == old(file.Current())
    {
      var prepared, revision, expected := Prepare(target, known, policy, conflicts, unsupported);
      if prepared.Raised? {
        return Failed;
      }
      if unsupported || prepared.attention || seen.mode != Bootstrap.Legacy {
        return Reported(false, prepared.attention);
      }
      r := Cutover(
        file, shown, target, policy.Some?, seen.revision, path, sourceUnchanged, secretsUnchanged, revision, expected, fault);
    }
  }

  predicate ResumesHaveWork(items: seq<Item>) {
    forall i :: 0 <= i < |items| && items[i].Resume? ==> items[i].missing != []
  }

  datatype Report = Failed | Reported(switched: bool, attention: bool)
}
