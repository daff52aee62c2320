/** A run that comes to a misread rollback and loses a secret in use. */
module CredentialMisses {
  import opened CatalogEffects
  import opened CatalogSteps
  import opened Catalogs
  import opened Collections
  import opened CredentialRuns
  import opened Wrappers

  lemma RunsOn(states: seq<System>, events: seq<Event>, s: System, event: Event)
    requires Run(states, events) && Last(states) == s && Consistent(s.catalog) && EventEnabled(s, event)
    ensures Run(states + [After(s, event)], events + [event])
    ensures Last(states + [After(s, event)]) == After(s, event)
  {
    var states', events' := states + [After(s, event)], events + [event];
    forall i {:trigger events'[i]} | 0 <= i < |events'| ensures Steps(states'[i], events'[i], states'[i + 1]) {
      if i < |events| {
        assert Steps(states[i], events[i], states[i + 1]);
      }
    }
  }

  /** Runs reach the system. */
  ghost predicate Reached(s: System) {
    exists states, events :: Run(states, events) && Last(states) == s
  }

  lemma ReachesNext(s: System, event: Event)
    requires Reached(s) && Consistent(s.catalog) && EventEnabled(s, event)
    ensures Reached(After(s, event))
  {
    var states, events :| Run(states, events) && Last(states) == s;
    RunsOn(states, events, s, event);
  }

  /** An account with one server is added. */
  lemma OneAccount(p: Profile, e: Endpoint) returns (s: System)
    requires ProfileAllowed(p) && EndpointAllowed(e)
    ensures Reached(s) && Consistent(s.catalog) && s.sameFile && s.drawn == {} && s.tasks == map[] && s.given == map[]
    ensures s.catalog.accounts == map[1 := Account("a", p, true, 1, false)] && s.catalog.bindings == map[]
    ensures 1 in s.catalog.endpoints && Incoming in s.catalog.endpoints[1]
  {
    var empty := Catalog(1, Policy(false, [], []), map[], map[], map[], map[]);
    var start := System(true, empty, map[], map[], {}, map[]);
    assert Run([start], []) && Last([start]) == start;
    Adds(empty, 1, "a", p, e, None);
    ReachesNext(start, Transact(TxAdd(1, "a", p, e, None, None)));
    s := After(start, Transact(TxAdd(1, "a", p, e, None, None)));
  }

  /** A worker sets the incoming credential of an account. */
  lemma SetsCredential(s: System, t: nat, locator: Locator, value: Secret) returns (s': System)
    requires Reached(s) && Consistent(s.catalog) && s.sameFile && t !in s.tasks && value != ""
    requires locator !in s.drawn && locator !in s.catalog.bindings && InUse(s.catalog, 1)
    requires 1 in s.catalog.endpoints && Incoming in s.catalog.endpoints[1]
    ensures Reached(s') && Consistent(s'.catalog)
    ensures s'.catalog == Activated(s.catalog, 1, Incoming, locator) && s'.sameFile && s'.drawn == s.drawn + {locator}
    ensures s'.given == s.given[locator := value] && s'.tasks.Keys == s.tasks.Keys + {t}
    ensures ActiveIn(s'.catalog, 1, Incoming) == {locator}
  {
    var target := Target(1, Incoming, s.catalog.accounts[1].revision, locator, value);
    GivesCredential(s.catalog, 1, locator);
    ReachesNext(s, Begin(t, target));
    var begun := After(s, Begin(t, target));
    ReachesNext(begun, Activate(t, Committed));
    s' := After(begun, Activate(t, Committed));
  }

  /** Two activations of one role are enough: if the commit of the second one fails and the database rolls
      it back by itself, the next deletion takes away the secret of the first, which is still in use. */
  lemma MisreadIsReached(p: Profile, e: Endpoint)
    requires ProfileAllowed(p) && EndpointAllowed(e)
    ensures exists s: System, l: Locator ::
      && Reached(s) && l in s.catalog.bindings && s.catalog.bindings[l].status == ACTIVE
      && l in s.given && l !in s.store
  {
    var added := OneAccount(p, e);
    var first := SetsCredential(added, 0, 11, "s");
    var begin, misread := Begin(1, Target(1, Incoming, 2, 12, "t")), Activate(1, RolledBackByDatabase);
    ReachesNext(first, begin);
    var begun := After(first, begin);
    ReachesNext(begun, misread);
    var end := Loses(begun, 1, 11);
    assert 11 in ActiveIn(first.catalog, 1, Incoming);
  }

  lemma Loses(s: System, t: nat, l: Locator) returns (end: System)
    requires Consistent(s.catalog) && EventEnabled(s, Activate(t, RolledBackByDatabase))
    requires Misread(s, Activate(t, RolledBackByDatabase)) && Replaced(s, s.tasks[t].target) == {l}
    requires Reached(After(s, Activate(t, RolledBackByDatabase)))
    ensures Reached(end) && end.catalog == s.catalog && end.given == s.given && l !in end.store
  {
    var unseen := After(s, Activate(t, RolledBackByDatabase));
    ReachesNext(unseen, Delete(t, l, true, true));
    end := After(unseen, Delete(t, l, true, true));
  }
}
