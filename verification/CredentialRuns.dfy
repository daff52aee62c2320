/** Whole runs over the two stores of a managed catalog.  Each transaction and each call to the
    secret store is one step; any number of tasks take turns; a task may stop for ever after any
    step; and every call may fail with or without effect. */
module CredentialRuns {
  import opened Catalogs
  import opened Wrappers

  /** A commit succeeds; or fails with the transaction still open, to be rolled back; or raises
      although it is durable; or fails and the database has already rolled it back by itself. */
  datatype CommitOutcome = Committed | NotCommitted | RaisedAfterCommit | RolledBackByDatabase

  datatype Target = Target(id: Id, role: Role, expected: nat, locator: Locator, value: Secret)

  /** What a task will do next. */
  datatype Task =
    | Storing(target: Target)
    | Checking(target: Target)
    | Activating(target: Target)
    | Discarding(locator: Locator)
    | Sweeping(todo: set<Locator>, cleaned: set<Locator>)

  /** `sameFile` says that secrets are rows of the catalog database.  `given` remembers the value each
      activation was called with, and `drawn` every locator so far. */
  datatype System = System(
    sameFile: bool, catalog: Catalog, store: map<Locator, Secret>, given: map<Locator, Secret>,
    drawn: set<Locator>, tasks: map<nat, Task>)

  datatype Event =
    | Begin(task: nat, target: Target)
    | Put(task: nat, stored: Option<Secret>, returned: bool)
    | Check(task: nat, answered: bool)
    | Activate(task: nat, outcome: CommitOutcome)
    | Discard(task: nat, gone: bool)
    | Transact(tx: Tx)
    | StartSweep(task: nat, todo: set<Locator>)
    | Delete(task: nat, locator: Locator, gone: bool, reported: bool)
    | Mark(task: nat, applied: bool)
    | Stop(task: nat)

  predicate Initial(s: System) {
    && s.catalog.revision == 1 && s.catalog.names == map[] && s.catalog.accounts == map[]
    && s.catalog.endpoints == map[] && s.catalog.bindings == map[]
    && s.store == map[] && s.given == map[] && s.drawn == {} && s.tasks == map[]
  }

  predicate EventEnabled(s: System, event: Event) {
    match event
    case Begin(t, target) => t !in s.tasks && target.locator !in s.drawn && target.value != ""
    case Put(t, _, _) => t in s.tasks && s.tasks[t].Storing?
    case Check(t, _) => t in s.tasks && s.tasks[t].Checking?
    case Activate(t, _) => t in s.tasks && s.tasks[t].Activating?
    case Discard(t, _) => t in s.tasks && s.tasks[t].Discarding?
    case Transact(tx) => !tx.TxActivate? && !tx.TxSupersede? && FreshNames(s.catalog, tx)
    case StartSweep(t, todo) => t !in s.tasks && todo <= Outstanding(s.catalog)
    case Delete(t, l, gone, reported) =>
      && t in s.tasks && s.tasks[t].Sweeping? && l in s.tasks[t].todo
      && (reported ==> gone || l !in s.store)
    case Mark(t, _) => t in s.tasks && s.tasks[t].Sweeping?
    case Stop(t) => t in s.tasks
  }

  predicate Accepted(s: System, target: Target) {
    MayActivate(s.catalog, target.id, target.role, target.expected)
  }

  /** The credentials an activation replaces. */
  function Replaced(s: System, target: Target): set<Locator> {
    ActiveIn(s.catalog, target.id, target.role)
  }

  /** After a failed activation an external store is asked to drop the new value. */
  function GivenUp(s: System, t: nat, target: Target): System {
    if s.sameFile then s.(tasks := s.tasks - {t}) else s.(tasks := s.tasks[t := Discarding(target.locator)])
  }

  function AfterActivate(s: System, t: nat, target: Target, outcome: CommitOutcome): System {
    if !Accepted(s, target) || outcome == NotCommitted then GivenUp(s, t, target)
    else
      var next := s.(tasks := s.tasks[t := Sweeping(Replaced(s, target), {})]);
      if outcome == RolledBackByDatabase then next
      else next.(
        catalog := Activated(s.catalog, target.id, target.role, target.locator),
        store := if s.sameFile then s.store[target.locator := target.value] else s.store,
        given := s.given[target.locator := target.value])
  }

  ghost function After(s: System, event: Event): System
    requires Consistent(s.catalog) && EventEnabled(s, event)
  {
    match event
    case Begin(t, target) =>
      s.(drawn := s.drawn + {target.locator},
         tasks := s.tasks[t := if s.sameFile then Activating(target) else Storing(target)])
    case Put(t, stored, returned) =>
      var target := s.tasks[t].target;
      s.(store := if stored.Some? then s.store[target.locator := stored.value] else s.store,
         tasks := s.tasks[t := if returned then Checking(target) else Discarding(target.locator)])
    case Check(t, answered) =>
      var target := s.tasks[t].target;
      var verified := answered && target.locator in s.store && s.store[target.locator] == target.value;
      s.(tasks := s.tasks[t := if verified then Activating(target) else Discarding(target.locator)])
    case Activate(t, outcome) => AfterActivate(s, t, s.tasks[t].target, outcome)
    case Discard(t, gone) =>
      s.(store := if gone then s.store - {s.tasks[t].locator} else s.store, tasks := s.tasks - {t})
    case Transact(tx) =>
      var reply := Commit(s.catalog, tx);
      if reply.Done? then s.(catalog := reply.value) else s
    case StartSweep(t, todo) => s.(tasks := s.tasks[t := Sweeping(todo, {})])
    case Delete(t, l, gone, reported) =>
      var sweep := s.tasks[t];
      s.(store := if gone then s.store - {l} else s.store,
         tasks := s.tasks[t := Sweeping(sweep.todo - {l}, if reported then sweep.cleaned + {l} else sweep.cleaned)])
    case Mark(t, applied) =>
      var sweep := s.tasks[t];
      s.(catalog := if applied then Superseded(s.catalog, sweep.cleaned) else s.catalog,
         tasks := s.tasks[t := Sweeping(sweep.todo, {})])
    case Stop(t) => s.(tasks := s.tasks - {t})
  }

  /** The locator a task still carries as its own: nobody else knows it yet. */
  function Carries(task: Task): set<Locator> {
    if task.Sweeping? then {} else if task.Discarding? then {task.locator} else {task.target.locator}
  }

  predicate TaskSound(
    sameFile: bool, bindings: map<Locator, Binding>, store: map<Locator, Secret>, drawn: set<Locator>, task: Task)
  {
    && Carries(task) <= drawn
    && Carries(task) !! bindings.Keys
    && (task.Activating? && !sameFile ==> Holds(store, task.target.locator, task.target.value))
    && (task.Sweeping? ==>
          && task.todo <= bindings.Keys
          && task.cleaned <= bindings.Keys && task.cleaned !! store.Keys)
    && (sameFile ==> task.Activating? || task.Sweeping?)
  }

  predicate Holds(store: map<Locator, Secret>, l: Locator, value: Secret) {
    l in store && store[l] == value
  }

  /** An ACTIVE credential reads back as it was given or not at all; a SUPERSEDED one is gone. */
  predicate BindingKept(b: Binding, l: Locator, store: map<Locator, Secret>, given: map<Locator, Secret>) {
    && (b.status == ACTIVE ==> l in given && (l in store ==> store[l] == given[l]))
    && (b.status == SUPERSEDED ==> l !in store)
  }

  predicate BindingsKept(
    bindings: map<Locator, Binding>, store: map<Locator, Secret>, given: map<Locator, Secret>, drawn: set<Locator>)
  {
    bindings.Keys <= drawn && forall l :: l in bindings ==> BindingKept(bindings[l], l, store, given)
  }

  predicate TasksSound(
    sameFile: bool, bindings: map<Locator, Binding>, store: map<Locator, Secret>, drawn: set<Locator>,
    tasks: map<nat, Task>)
  {
    forall t :: t in tasks ==> TaskSound(sameFile, bindings, store, drawn, tasks[t])
  }

  predicate Apart(tasks: map<nat, Task>) {
    forall t, u :: t in tasks && u in tasks && t != u ==> Carries(tasks[t]) !! Carries(tasks[u])
  }

  /** What holds in every run, whatever fails. */
  ghost predicate Inv(s: System) {
    && Consistent(s.catalog)
    && BindingsKept(s.catalog.bindings, s.store, s.given, s.drawn)
    && TasksSound(s.sameFile, s.catalog.bindings, s.store, s.drawn, s.tasks)
    && Apart(s.tasks)
    && s.given.Keys <= s.catalog.bindings.Keys
    && (s.sameFile ==> s.store.Keys <= s.catalog.bindings.Keys)
  }

  lemma InitialInv(s: System)
    requires Initial(s)
    ensures Inv(s)
  {
  }

  lemma TasksStayApart(tasks: map<nat, Task>, t: nat, task: Task)
    requires Apart(tasks) && t in tasks && Carries(task) <= Carries(tasks[t])
    ensures Apart(tasks[t := task]) && Apart(tasks - {t})
  {
  }

  lemma BeginKeepsInv(s: System, t: nat, target: Target)
    requires Inv(s) && EventEnabled(s, Begin(t, target))
    ensures Inv(After(s, Begin(t, target)))
  {
    var s' := After(s, Begin(t, target));
    MoreDrawn(s, target.locator);
    NewTaskIsApart(s, t, s'.tasks[t]);
  }

  lemma MoreDrawn(s: System, l: Locator)
    requires Inv(s)
    ensures BindingsKept(s.catalog.bindings, s.store, s.given, s.drawn + {l})
    ensures TasksSound(s.sameFile, s.catalog.bindings, s.store, s.drawn + {l}, s.tasks)
  {
  }

  lemma NewTaskIsApart(s: System, t: nat, task: Task)
    requires Inv(s) && t !in s.tasks && Carries(task) !! s.drawn
    ensures Apart(s.tasks[t := task])
  {
    forall u | u in s.tasks ensures Carries(s.tasks[u]) !! Carries(task) {
      assert TaskSound(s.sameFile, s.catalog.bindings, s.store, s.drawn, s.tasks[u]);
    }
  }

  /** Changing only a locator carried by a task, in an external store, disturbs nobody else. */
  lemma OwnSecretChanges(s: System, t: nat, store: map<Locator, Secret>)
    requires Inv(s) && t in s.tasks && !s.sameFile
    requires forall l :: l !in Carries(s.tasks[t]) ==> (l in store <==> l in s.store)
    requires forall l :: l in store && l !in Carries(s.tasks[t]) ==> store[l] == s.store[l]
    ensures BindingsKept(s.catalog.bindings, store, s.given, s.drawn)
    ensures TasksSound(s.sameFile, s.catalog.bindings, store, s.drawn, s.tasks - {t})
  {
    var bindings := s.catalog.bindings;
    assert TaskSound(s.sameFile, bindings, s.store, s.drawn, s.tasks[t]);
    forall l | l in bindings ensures BindingKept(bindings[l], l, store, s.given) {
      assert BindingKept(bindings[l], l, s.store, s.given) && l !in Carries(s.tasks[t]);
    }
    forall u | u in s.tasks - {t} ensures TaskSound(s.sameFile, bindings, store, s.drawn, s.tasks[u]) {
      assert TaskSound(s.sameFile, bindings, s.store, s.drawn, s.tasks[u]);
      assert Carries(s.tasks[u]) !! Carries(s.tasks[t]);
      if s.tasks[u].Activating? {
        assert s.tasks[u].target.locator in Carries(s.tasks[u]);
      }
    }
  }

  lemma StoreStepsKeepInv(s: System, event: Event)
    requires Inv(s) && EventEnabled(s, event) && (event.Put? || event.Check? || event.Discard?)
    ensures Inv(After(s, event))
  {
    var t := event.task;
    var s' := After(s, event);
    assert TaskSound(s.sameFile, s.catalog.bindings, s.store, s.drawn, s.tasks[t]);
    OwnSecretChanges(s, t, s'.store);
    TasksStayApart(s.tasks, t, if event.Discard? then s.tasks[t] else s'.tasks[t]);
    forall u | u in s'.tasks ensures TaskSound(s.sameFile, s.catalog.bindings, s'.store, s.drawn, s'.tasks[u]) {
      if u != t {
        assert u in s.tasks - {t} && (s.tasks - {t})[u] == s'.tasks[u];
      }
    }
  }

  /** Credentials only move out of use: the rows stay, none becomes ACTIVE, none leaves SUPERSEDED, and
      only what is already gone from the store becomes SUPERSEDED. */
  predicate OnlyRetires(bindings: map<Locator, Binding>, bindings': map<Locator, Binding>, store: map<Locator, Secret>) {
    && bindings.Keys == bindings'.Keys
    && forall l :: l in bindings ==> Retires(bindings[l].status, bindings'[l].status, l !in store)
  }

  predicate Retires(before: Status, after: Status, absent: bool) {
    after == before || (after == CLEANUP_REQUIRED && before == ACTIVE) || (after == SUPERSEDED && before != ACTIVE && absent)
  }

  lemma RetiringKeepsInv(s: System, c: Catalog)
    requires Inv(s) && Consistent(c) && OnlyRetires(s.catalog.bindings, c.bindings, s.store)
    ensures Inv(s.(catalog := c))
  {
    forall l | l in c.bindings ensures BindingKept(c.bindings[l], l, s.store, s.given) {
      assert BindingKept(s.catalog.bindings[l], l, s.store, s.given);
      assert Retires(s.catalog.bindings[l].status, c.bindings[l].status, l !in s.store);
    }
  }

  lemma TransactKeepsInv(s: System, tx: Tx)
    requires Inv(s) && EventEnabled(s, Transact(tx))
    ensures Inv(After(s, Transact(tx)))
  {
    if Commit(s.catalog, tx).Done? {
      CommitEvolves(s.catalog, tx);
      TxOnlyRetires(s.catalog, tx, s.store);
      RetiringKeepsInv(s, Commit(s.catalog, tx).value);
    }
  }

  lemma TxOnlyRetires(c: Catalog, tx: Tx, store: map<Locator, Secret>)
    requires Consistent(c) && FreshNames(c, tx) && !tx.TxActivate? && !tx.TxSupersede? && Commit(c, tx).Done?
    ensures OnlyRetires(c.bindings, Commit(c, tx).value.bindings, store)
  {
  }

  lemma SweepStepsKeepInv(s: System, event: Event)
    requires Inv(s) && EventEnabled(s, event) && (event.StartSweep? || event.Stop?)
    ensures Inv(After(s, event))
  {
  }

  lemma DeleteKeepsInv(s: System, t: nat, locator: Locator, gone: bool, reported: bool)
    requires Inv(s) && EventEnabled(s, Delete(t, locator, gone, reported))
    ensures Inv(After(s, Delete(t, locator, gone, reported)))
  {
    var s' := After(s, Delete(t, locator, gone, reported));
    assert TaskSound(s.sameFile, s.catalog.bindings, s.store, s.drawn, s.tasks[t]);
    TasksStayApart(s.tasks, t, s'.tasks[t]);
    BindingsKeptWithout(s.catalog.bindings, s.store, s.given, s.drawn, locator);
    TasksSoundWithout(s.sameFile, s.catalog.bindings, s.store, s.drawn, s.tasks, locator);
    OneTaskChanges(s.sameFile, s.catalog.bindings, s'.store, s.drawn, s.tasks, t, s'.tasks[t]);
  }

  lemma OneTaskChanges(
    sameFile: bool, bindings: map<Locator, Binding>, store: map<Locator, Secret>, drawn: set<Locator>,
    tasks: map<nat, Task>, t: nat, task: Task)
    requires TasksSound(sameFile, bindings, store, drawn, tasks) && TaskSound(sameFile, bindings, store, drawn, task)
    ensures TasksSound(sameFile, bindings, store, drawn, tasks[t := task])
  {
  }

  lemma BindingsKeptWithout(
    bindings: map<Locator, Binding>, store: map<Locator, Secret>, given: map<Locator, Secret>, drawn: set<Locator>,
    l: Locator)
    requires BindingsKept(bindings, store, given, drawn)
    ensures BindingsKept(bindings, store - {l}, given, drawn)
  {
  }

  /** A locator with a row is carried by nobody, so removing it from the store disturbs no task. */
  lemma TasksSoundWithout(
    sameFile: bool, bindings: map<Locator, Binding>, store: map<Locator, Secret>, drawn: set<Locator>,
    tasks: map<nat, Task>, l: Locator)
    requires TasksSound(sameFile, bindings, store, drawn, tasks) && l in bindings
    ensures TasksSound(sameFile, bindings, store - {l}, drawn, tasks)
  {
    forall t | t in tasks ensures TaskSound(sameFile, bindings, store - {l}, drawn, tasks[t]) {
      assert TaskSound(sameFile, bindings, store, drawn, tasks[t]);
      assert tasks[t].Activating? ==> tasks[t].target.locator in Carries(tasks[t]);
    }
  }

  lemma MarkingOnlyRetires(c: Catalog, cleaned: set<Locator>, store: map<Locator, Secret>)
    requires cleaned !! store.Keys
    ensures OnlyRetires(c.bindings, Superseded(c, cleaned).bindings, store)
    ensures OnlyRetires(c.bindings, c.bindings, store)
  {
  }

  lemma MarkKeepsInv(s: System, t: nat, applied: bool)
    requires Inv(s) && EventEnabled(s, Mark(t, applied))
    ensures Inv(After(s, Mark(t, applied)))
  {
    var sweep := s.tasks[t];
    assert TaskSound(s.sameFile, s.catalog.bindings, s.store, s.drawn, sweep);
    if applied {
      SupersededEvolves(s.catalog, sweep.cleaned);
      MarkingOnlyRetires(s.catalog, sweep.cleaned, s.store);
      RetiringKeepsInv(s, Superseded(s.catalog, sweep.cleaned));
      ForgetKeepsInv(s.(catalog := Superseded(s.catalog, sweep.cleaned)), t);
    } else {
      ForgetKeepsInv(s, t);
    }
  }

  lemma ForgetKeepsInv(s: System, t: nat)
    requires Inv(s) && t in s.tasks && s.tasks[t].Sweeping?
    ensures Inv(s.(tasks := s.tasks[t := Sweeping(s.tasks[t].todo, {})]))
  {
  }

  /** The one commit failure the recovery code misreads. */
  predicate Misread(s: System, event: Event)
    requires EventEnabled(s, event)
  {
    && event.Activate? && event.outcome == RolledBackByDatabase
    && Accepted(s, s.tasks[event.task].target)
    && Replaced(s, s.tasks[event.task].target) != {}
  }

  lemma ActivateKeepsInv(s: System, t: nat, outcome: CommitOutcome)
    requires Inv(s) && EventEnabled(s, Activate(t, outcome))
    ensures Inv(After(s, Activate(t, outcome)))
  {
    var target := s.tasks[t].target;
    if !Accepted(s, target) || outcome == NotCommitted {
      GivenUpKeepsInv(s, t);
    } else if outcome == RolledBackByDatabase {
      MisreadKeepsInv(s, t);
    } else {
      ActivatedKeepsInv(s, t, outcome);
    }
  }

  lemma MisreadKeepsInv(s: System, t: nat)
    requires Inv(s) && t in s.tasks && s.tasks[t].Activating? && Accepted(s, s.tasks[t].target)
    ensures Inv(AfterActivate(s, t, s.tasks[t].target, RolledBackByDatabase))
  {
    TasksStayApart(s.tasks, t, Sweeping(Replaced(s, s.tasks[t].target), {}));
  }

  lemma GivenUpKeepsInv(s: System, t: nat)
    requires Inv(s) && t in s.tasks && s.tasks[t].Activating?
    ensures Inv(GivenUp(s, t, s.tasks[t].target))
  {
  }

  lemma ActivatedKeepsInv(s: System, t: nat, outcome: CommitOutcome)
    requires Inv(s) && t in s.tasks && s.tasks[t].Activating? && Accepted(s, s.tasks[t].target)
    requires outcome == Committed || outcome == RaisedAfterCommit
    ensures Inv(AfterActivate(s, t, s.tasks[t].target, outcome))
  {
    var target := s.tasks[t].target;
    var s' := AfterActivate(s, t, target, outcome);
    assert TaskSound(s.sameFile, s.catalog.bindings, s.store, s.drawn, s.tasks[t]);
    assert target.locator in Carries(s.tasks[t]);
    ActivatedIsConsistent(s.catalog, target.id, target.role, target.expected, target.locator);
    ActivatedKeepsBindings(s, t, outcome);
    TasksStayApart(s.tasks, t, Sweeping(Replaced(s, target), {}));
    forall u | u in s'.tasks
      ensures TaskSound(s.sameFile, s'.catalog.bindings, s'.store, s.drawn, s'.tasks[u])
    {
      if u != t {
        OtherTaskStaysSound(s, t, u, outcome);
      }
    }
  }

  lemma ActivatedKeepsBindings(s: System, t: nat, outcome: CommitOutcome)
    requires Inv(s) && t in s.tasks && s.tasks[t].Activating? && Accepted(s, s.tasks[t].target)
    requires outcome == Committed || outcome == RaisedAfterCommit
    ensures var s' := AfterActivate(s, t, s.tasks[t].target, outcome);
      BindingsKept(s'.catalog.bindings, s'.store, s'.given, s'.drawn)
  {
    var target := s.tasks[t].target;
    var s' := AfterActivate(s, t, target, outcome);
    assert TaskSound(s.sameFile, s.catalog.bindings, s.store, s.drawn, s.tasks[t]);
    assert target.locator in Carries(s.tasks[t]);
    forall l | l in s'.catalog.bindings ensures BindingKept(s'.catalog.bindings[l], l, s'.store, s'.given) {
      if l != target.locator {
        assert BindingKept(s.catalog.bindings[l], l, s.store, s.given);
      }
    }
  }

  lemma OtherTaskStaysSound(s: System, t: nat, u: nat, outcome: CommitOutcome)
    requires Inv(s) && t in s.tasks && s.tasks[t].Activating? && Accepted(s, s.tasks[t].target)
    requires outcome == Committed || outcome == RaisedAfterCommit
    requires u in s.tasks && u != t
    ensures var s' := AfterActivate(s, t, s.tasks[t].target, outcome);
      TaskSound(s.sameFile, s'.catalog.bindings, s'.store, s.drawn, s.tasks[u])
  {
    var target := s.tasks[t].target;
    var s' := AfterActivate(s, t, target, outcome);
    assert TaskSound(s.sameFile, s.catalog.bindings, s.store, s.drawn, s.tasks[t]);
    assert TaskSound(s.sameFile, s.catalog.bindings, s.store, s.drawn, s.tasks[u]);
    assert target.locator in Carries(s.tasks[t]) && Carries(s.tasks[u]) !! Carries(s.tasks[t]);
  }

  /** Every event keeps what holds in every run, a misread rollback included. */
  lemma EventKeepsInv(s: System, event: Event)
    requires Inv(s) && EventEnabled(s, event)
    ensures Inv(After(s, event))
  {
    match event
    case Begin(t, target) => BeginKeepsInv(s, t, target);
    case Put(_, _, _) => StoreStepsKeepInv(s, event);
    case Check(_, _) => StoreStepsKeepInv(s, event);
    case Activate(t, outcome) => ActivateKeepsInv(s, t, outcome);
    case Discard(_, _) => StoreStepsKeepInv(s, event);
    case Transact(tx) => TransactKeepsInv(s, tx);
    case StartSweep(_, _) => SweepStepsKeepInv(s, event);
    case Delete(t, l, gone, reported) => DeleteKeepsInv(s, t, l, gone, reported);
    case Mark(t, applied) => MarkKeepsInv(s, t, applied);
    case Stop(_) => SweepStepsKeepInv(s, event);
  }

  /** Every ACTIVE credential can be read, and none is scheduled for deletion. */
  ghost predicate Safe(s: System) {
    && (forall l :: l in s.catalog.bindings && s.catalog.bindings[l].status == ACTIVE ==> l in s.store)
    && (forall t :: t in s.tasks && s.tasks[t].Sweeping? ==> Unused(s.catalog.bindings, s.tasks[t].todo))
  }

  predicate Unused(bindings: map<Locator, Binding>, locators: set<Locator>) {
    forall l :: l in locators && l in bindings ==> bindings[l].status != ACTIVE
  }

  /** Activation keeps this exactly when the database did not roll back a replacement by itself: then
      the code takes the rollback for a commit and schedules the still ACTIVE credential for deletion. */
  lemma ActivationIsSafe(s: System, t: nat, outcome: CommitOutcome)
    requires Inv(s) && Safe(s) && EventEnabled(s, Activate(t, outcome))
    ensures Safe(After(s, Activate(t, outcome))) <==> !Misread(s, Activate(t, outcome))
  {
    if Misread(s, Activate(t, outcome)) {
      MisreadIsUnsafe(s, t);
    } else if Accepted(s, s.tasks[t].target) && (outcome == Committed || outcome == RaisedAfterCommit) {
      ActivatedIsSafe(s, t, outcome);
    } else {
      UncommittedIsSafe(s, t, outcome);
    }
  }

  lemma UncommittedIsSafe(s: System, t: nat, outcome: CommitOutcome)
    requires Safe(s) && t in s.tasks && s.tasks[t].Activating?
    requires Accepted(s, s.tasks[t].target) ==> outcome == NotCommitted || outcome == RolledBackByDatabase
    requires Accepted(s, s.tasks[t].target) && outcome == RolledBackByDatabase ==> Replaced(s, s.tasks[t].target) == {}
    ensures Safe(AfterActivate(s, t, s.tasks[t].target, outcome))
  {
    IdleIsSafe(s, AfterActivate(s, t, s.tasks[t].target, outcome), t);
  }

  lemma MisreadIsUnsafe(s: System, t: nat)
    requires Consistent(s.catalog) && EventEnabled(s, Activate(t, RolledBackByDatabase))
    requires Misread(s, Activate(t, RolledBackByDatabase))
    ensures !Safe(After(s, Activate(t, RolledBackByDatabase)))
  {
    var s' := After(s, Activate(t, RolledBackByDatabase));
    var l :| l in Replaced(s, s.tasks[t].target);
    assert s'.tasks[t] == Sweeping(Replaced(s, s.tasks[t].target), {}) && s'.catalog == s.catalog;
    assert !Unused(s'.catalog.bindings, s'.tasks[t].todo);
  }

  lemma IdleIsSafe(s: System, s': System, t: nat)
    requires Safe(s) && s'.catalog == s.catalog && s'.store == s.store && s'.tasks - {t} == s.tasks - {t}
    requires t in s'.tasks && s'.tasks[t].Sweeping? ==> s'.tasks[t].todo == {}
    ensures Safe(s')
  {
    forall u | u in s'.tasks && u != t ensures u in s.tasks && s'.tasks[u] == s.tasks[u] {
      assert u in s'.tasks - {t};
    }
  }

  lemma ActivatedIsSafe(s: System, t: nat, outcome: CommitOutcome)
    requires Inv(s) && Safe(s) && t in s.tasks && s.tasks[t].Activating? && Accepted(s, s.tasks[t].target)
    requires outcome == Committed || outcome == RaisedAfterCommit
    ensures Safe(AfterActivate(s, t, s.tasks[t].target, outcome))
  {
    var target := s.tasks[t].target;
    var s' := AfterActivate(s, t, target, outcome);
    assert TaskSound(s.sameFile, s.catalog.bindings, s.store, s.drawn, s.tasks[t]);
    forall u | u in s'.tasks && s'.tasks[u].Sweeping? ensures Unused(s'.catalog.bindings, s'.tasks[u].todo) {
      if u != t {
        assert TaskSound(s.sameFile, s.catalog.bindings, s.store, s.drawn, s.tasks[u]);
        assert target.locator in Carries(s.tasks[t]) && target.locator !in s.tasks[u].todo;
      }
    }
  }

  /** Every other event keeps it too. */
  lemma EventKeepsSafe(s: System, event: Event)
    requires Inv(s) && Safe(s) && EventEnabled(s, event) && !Misread(s, event)
    ensures Safe(After(s, event))
  {
    match event
    case Activate(t, outcome) => ActivationIsSafe(s, t, outcome);
    case Transact(tx) =>
      if Commit(s.catalog, tx).Done? {
        TxOnlyRetires(s.catalog, tx, s.store);
        RetiringKeepsSafe(s, Commit(s.catalog, tx).value);
      }
    case Begin(_, _) => StoringKeepsSafe(s, event);
    case Put(_, _, _) => StoringKeepsSafe(s, event);
    case Check(_, _) => StoringKeepsSafe(s, event);
    case Discard(_, _) => StoringKeepsSafe(s, event);
    case _ => SweepingKeepsSafe(s, event);
  }

  lemma StoringKeepsSafe(s: System, event: Event)
    requires Inv(s) && Safe(s) && EventEnabled(s, event)
    requires event.Begin? || event.Put? || event.Check? || event.Discard?
    ensures Safe(After(s, event))
  {
    if event.Discard? {
      OwnLocatorHasNoRow(s, event.task);
    }
  }

  lemma SweepingKeepsSafe(s: System, event: Event)
    requires Inv(s) && Safe(s) && EventEnabled(s, event)
    requires event.StartSweep? || event.Delete? || event.Mark? || event.Stop?
    ensures Safe(After(s, event))
  {
  }

  lemma OwnLocatorHasNoRow(s: System, t: nat)
    requires Inv(s) && t in s.tasks
    ensures Carries(s.tasks[t]) !! s.catalog.bindings.Keys
  {
    assert TaskSound(s.sameFile, s.catalog.bindings, s.store, s.drawn, s.tasks[t]);
  }

  lemma RetiringKeepsSafe(s: System, c: Catalog)
    requires Safe(s) && OnlyRetires(s.catalog.bindings, c.bindings, s.store)
    ensures Safe(s.(catalog := c))
  {
    forall l | l in c.bindings && c.bindings[l].status == ACTIVE ensures s.catalog.bindings[l].status == ACTIVE {
      assert Retires(s.catalog.bindings[l].status, c.bindings[l].status, l !in s.store);
    }
  }

  /** What the misread rollback costs: the next deletion of that worker takes away a secret in use. */
  lemma MisreadLosesSecret(s: System, t: nat)
    requires Consistent(s.catalog) && EventEnabled(s, Activate(t, RolledBackByDatabase))
    requires Misread(s, Activate(t, RolledBackByDatabase))
    ensures var s' := After(s, Activate(t, RolledBackByDatabase));
      && s'.catalog == s.catalog
      && exists l :: l in Replaced(s, s.tasks[t].target) && EventEnabled(s', Delete(t, l, true, true))
           && s'.catalog.bindings[l].status == ACTIVE && l !in After(s', Delete(t, l, true, true)).store
  {
    var l :| l in Replaced(s, s.tasks[t].target);
    var s' := After(s, Activate(t, RolledBackByDatabase));
    assert EventEnabled(s', Delete(t, l, true, true));
  }

  /** Any events in any order. */
  ghost predicate Path(states: seq<System>, events: seq<Event>) {
    && |states| == |events| + 1
    && forall i {:trigger events[i]} :: 0 <= i < |events| ==> Steps(states[i], events[i], states[i + 1])
  }

  ghost predicate Steps(s: System, event: Event, s': System) {
    Consistent(s.catalog) && EventEnabled(s, event) && s' == After(s, event)
  }

  ghost predicate Run(states: seq<System>, events: seq<Event>) {
    Path(states, events) && Initial(states[0])
  }

  predicate GivenStays(s: System, s': System) {
    forall l :: l in s.given ==> l in s'.given && s'.given[l] == s.given[l]
  }

  lemma ActivateEvolves(s: System, t: nat, outcome: CommitOutcome)
    requires Inv(s) && EventEnabled(s, Activate(t, outcome))
    ensures Evolves(s.catalog, AfterActivate(s, t, s.tasks[t].target, outcome).catalog)
    ensures GivenStays(s, AfterActivate(s, t, s.tasks[t].target, outcome))
  {
    var target := s.tasks[t].target;
    EvolvesIsReflexive(s.catalog);
    assert TaskSound(s.sameFile, s.catalog.bindings, s.store, s.drawn, s.tasks[t]);
    assert target.locator in Carries(s.tasks[t]);
    if Accepted(s, target) {
      ActivatedEvolves(s.catalog, target.id, target.role, target.expected, target.locator);
    }
  }

  lemma EventEvolves(s: System, event: Event)
    requires Inv(s) && EventEnabled(s, event)
    ensures Evolves(s.catalog, After(s, event).catalog) && GivenStays(s, After(s, event))
  {
    if event.Activate? {
      ActivateEvolves(s, event.task, event.outcome);
    } else if event.Transact? && Commit(s.catalog, event.tx).Done? {
      CommitEvolves(s.catalog, event.tx);
    } else if event.Mark? && event.applied {
      SupersededEvolves(s.catalog, s.tasks[event.task].cleaned);
    } else {
      EvolvesIsReflexive(s.catalog);
    }
  }

  /** Along a path every state is sound, revisions name content and values given never change. */
  lemma {:induction false} PathIsSound(states: seq<System>, events: seq<Event>, i: nat, j: nat)
    requires Path(states, events) && Inv(states[0]) && i <= j < |states|
    ensures Inv(states[i]) && Inv(states[j])
    ensures Evolves(states[i].catalog, states[j].catalog)
    ensures GivenStays(states[i], states[j])
    decreases j
  {
    if j == 0 {
      EvolvesIsReflexive(states[0].catalog);
    } else {
      PathIsSound(states, events, j - 1, j - 1);
      assert Steps(states[j - 1], events[j - 1], states[j]);
      EventKeepsInv(states[j - 1], events[j - 1]);
      EventEvolves(states[j - 1], events[j - 1]);
      if i < j {
        PathIsSound(states, events, i, j - 1);
        EvolvesIsTransitive(states[i].catalog, states[j - 1].catalog, states[j].catalog);
      } else {
        EvolvesIsReflexive(states[j].catalog);
      }
    }
  }

  lemma StateIsSound(states: seq<System>, events: seq<Event>, n: nat)
    requires Run(states, events) && n < |states|
    ensures Inv(states[n])
    ensures n < |events| ==> Steps(states[n], events[n], states[n + 1])
  {
    InitialInv(states[0]);
    PathIsSound(states, events, 0, n);
  }

  /** Revisions name content over whole runs: the same account id with the same revision has the same
      row, endpoints and ACTIVE credentials at both moments, the same catalog revision means the same
      policy and the same accounts, and a removed account stays removed, disabled and without an
      ACTIVE credential. */
  lemma RevisionsNameContent(states: seq<System>, events: seq<Event>, i: nat, j: nat, id: Id)
    requires Run(states, events) && i <= j < |states|
    requires id in states[i].catalog.accounts
    ensures var c, c' := states[i].catalog, states[j].catalog;
      && Consistent(c) && Consistent(c')
      && (c.revision == c'.revision ==> c.policy == c'.policy && c.accounts.Keys == c'.accounts.Keys)
      && id in c'.accounts
      && (c.accounts[id].revision == c'.accounts[id].revision ==> AuthorityOf(c, id) == AuthorityOf(c', id))
      && (c.accounts[id].removed ==>
            c'.accounts[id].removed && !c'.accounts[id].enabled && forall r :: ActiveIn(c', id, r) == {})
  {
    InitialInv(states[0]);
    PathIsSound(states, events, i, j);
    var c' := states[j].catalog;
    assert AccountEvolves(states[i].catalog, c', id);
    forall l | l in c'.bindings && c'.bindings[l].account == id && c'.accounts[id].removed
      ensures c'.bindings[l].status != ACTIVE
    {
      assert OwnerSound(c'.accounts, c'.bindings[l]);
    }
  }

  /** An account that was once complete, or disabled, is complete whenever it is enabled later. */
  lemma {:induction false} SettledForEver(states: seq<System>, events: seq<Event>, i: nat, j: nat, id: Id)
    requires Run(states, events) && i <= j < |states| && Settled(states[i].catalog, id)
    ensures Settled(states[j].catalog, id)
    decreases j
  {
    if i < j {
      SettledForEver(states, events, i, j - 1, id);
      StateIsSound(states, events, j - 1);
      EventKeepsSettled(states[j - 1], events[j - 1], id);
    }
  }

  lemma EventKeepsSettled(s: System, event: Event, id: Id)
    requires Inv(s) && EventEnabled(s, event) && Settled(s.catalog, id)
    ensures Settled(After(s, event).catalog, id)
  {
    if event.Activate? {
      ActivationKeepsSettled(s, event.task, event.outcome, id);
    } else if event.Transact? && Commit(s.catalog, event.tx).Done? {
      SettledStays(s.catalog, event.tx, id);
    } else if event.Mark? {
      SettledStays(s.catalog, TxSupersede(s.tasks[event.task].cleaned), id);
    }
  }

  lemma ActivationKeepsSettled(s: System, t: nat, outcome: CommitOutcome, id: Id)
    requires Inv(s) && EventEnabled(s, Activate(t, outcome)) && Settled(s.catalog, id)
    ensures Settled(After(s, Activate(t, outcome)).catalog, id)
  {
    var target := s.tasks[t].target;
    assert TaskSound(s.sameFile, s.catalog.bindings, s.store, s.drawn, s.tasks[t]);
    assert target.locator in Carries(s.tasks[t]);
    if Accepted(s, target) {
      SettledStays(s.catalog, TxActivate(target.id, target.role, target.expected, target.locator), id);
    }
  }

  /** This event makes an activation of the locator with the value durable. */
  predicate Activates(s: System, event: Event, l: Locator, value: Secret) {
    && event.Activate? && event.task in s.tasks && s.tasks[event.task].Activating?
    && Accepted(s, s.tasks[event.task].target) && (event.outcome == Committed || event.outcome == RaisedAfterCommit)
    && s.tasks[event.task].target.locator == l && s.tasks[event.task].target.value == value
  }

  /** At step k an activation of this locator with this value became durable. */
  ghost predicate ActivatedAt(states: seq<System>, events: seq<Event>, k: int, l: Locator, value: Secret) {
    0 <= k < |events| < |states| && Activates(states[k], events[k], l, value)
  }

  lemma GivenByActivate(s: System, t: nat, outcome: CommitOutcome, l: Locator)
    requires t in s.tasks && s.tasks[t].Activating?
    requires l in AfterActivate(s, t, s.tasks[t].target, outcome).given
    ensures var value := AfterActivate(s, t, s.tasks[t].target, outcome).given[l];
      Activates(s, Activate(t, outcome), l, value) || (l in s.given && s.given[l] == value)
  {
  }

  lemma GivenOrActivated(s: System, event: Event, l: Locator)
    requires Inv(s) && EventEnabled(s, event) && l in After(s, event).given
    ensures Activates(s, event, l, After(s, event).given[l]) || (l in s.given && s.given[l] == After(s, event).given[l])
  {
    if event.Activate? {
      GivenByActivate(s, event.task, event.outcome, l);
    } else {
      assert After(s, event).given == s.given;
    }
  }

  lemma {:induction false} GivenByActivation(states: seq<System>, events: seq<Event>, n: nat, l: Locator)
    returns (k: nat)
    requires Run(states, events) && n < |states| && l in states[n].given
    ensures k < n && ActivatedAt(states, events, k, l, states[n].given[l])
  {
    assert n != 0;
    k := n - 1;
    var s, event := states[k], events[k];
    StateIsSound(states, events, k);
    GivenOrActivated(s, event, l);
    if !Activates(s, event, l, states[n].given[l]) {
      k := GivenByActivation(states, events, n - 1, l);
    }
  }

  /** Some commit before step n was a rollback that was taken for a success. */
  ghost predicate MisreadBefore(states: seq<System>, events: seq<Event>, n: nat) {
    exists k :: 0 <= k < n && k < |events| < |states| && MisreadAt(states[k], events[k])
  }

  predicate MisreadAt(s: System, event: Event) {
    EventEnabled(s, event) && Misread(s, event)
  }

  lemma {:induction false} SafeUnlessMisread(states: seq<System>, events: seq<Event>, n: nat)
    requires Run(states, events) && n < |states| && !MisreadBefore(states, events, n)
    ensures Safe(states[n])
  {
    if n != 0 {
      SafeUnlessMisread(states, events, n - 1);
      StateIsSound(states, events, n - 1);
      assert !MisreadAt(states[n - 1], events[n - 1]);
      EventKeepsSafe(states[n - 1], events[n - 1]);
    }
  }

  /** The two stores agree.  In every run an ACTIVE credential reads back as the very value of the
      activation that made it durable, or not at all; a SUPERSEDED one is gone from the store; each
      account and role has at most one ACTIVE credential; and with secrets in the same file none is
      without its row.  And every ACTIVE credential can be read, unless a rollback was misread. */
  lemma CredentialsAreKept(states: seq<System>, events: seq<Event>, n: nat)
    requires Run(states, events) && n < |states|
    ensures var s := states[n];
      && (forall l :: l in s.catalog.bindings && s.catalog.bindings[l].status == ACTIVE && l in s.store ==>
            exists k :: k < n && ActivatedAt(states, events, k, l, s.store[l]))
      && (forall l :: l in s.catalog.bindings && s.catalog.bindings[l].status == SUPERSEDED ==> l !in s.store)
      && (forall id, role :: |ActiveIn(s.catalog, id, role)| <= 1)
      && (s.sameFile ==> s.store.Keys <= s.catalog.bindings.Keys)
    ensures !MisreadBefore(states, events, n) ==>
      forall l :: l in states[n].catalog.bindings && states[n].catalog.bindings[l].status == ACTIVE ==> l in states[n].store
  {
    StateIsSound(states, events, n);
    var s := states[n];
    forall l | l in s.catalog.bindings && s.catalog.bindings[l].status == ACTIVE && l in s.store
      ensures exists k :: k < n && ActivatedAt(states, events, k, l, s.store[l])
    {
      assert BindingKept(s.catalog.bindings[l], l, s.store, s.given);
      var k := GivenByActivation(states, events, n, l);
    }
    forall l | l in s.catalog.bindings && s.catalog.bindings[l].status == SUPERSEDED ensures l !in s.store {
      assert BindingKept(s.catalog.bindings[l], l, s.store, s.given);
    }
    forall id, role ensures |ActiveIn(s.catalog, id, role)| <= 1 {
      AtMostOne(s.catalog, id, role);
    }
    if !MisreadBefore(states, events, n) {
      SafeUnlessMisread(states, events, n);
    }
  }

  lemma AtMostOne(c: Catalog, id: Id, role: Role)
    requires Consistent(c)
    ensures |ActiveIn(c, id, role)| <= 1
  {
    var active := ActiveIn(c, id, role);
    if active != {} {
      var l :| l in active;
      forall k | k in active ensures k == l {
        assert c.bindings[k] == c.bindings[l];
      }
      assert active == {l};
    }
  }
}
