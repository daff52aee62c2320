/** What the import's own transactions do for its items, and what the final fence is worth: exactly
    when it has seen every change by somebody else. */
module ImportSteps {
  import opened CatalogEffects
  import opened Catalogs
  import opened Collections
  import opened ImportCutover
  import opened Wrappers

  /** A transaction of the import for one of its items, and its place in the log. */
  datatype Step = Step(at: nat, tx: Tx, item: nat)

  function OwnPart(log: seq<Entry>): seq<Step> {
    if log == [] then []
    else
      var n := |log| - 1;
      OwnPart(log[..n]) + (if log[n].own then [Step(n, log[n].tx, log[n].item)] else [])
  }

  /** What a transaction of the import does for one item, at the catalog it commits on. */
  predicate ServesItem(c: Catalog, tx: Tx, items: seq<Item>, i: nat) {
    match tx
    case TxAdd(_, name, profile, incoming, outgoing, _) =>
      i < |items| && items[i] == Create(name, profile, incoming, outgoing)
    case TxActivate(id, _, _, _) =>
      i < |items| && !items[i].Same? && Lookup(c, items[i].name) == Some(id)
    case TxPolicy(_, _) => true
    case TxSupersede(_) => true
    case _ => false
  }

  /** Everything the import commits is for one of its items, or updates the policy, or marks a replaced
      credential. */
  predicate OwnServes(states: seq<Catalog>, log: seq<Entry>, items: seq<Item>)
    requires |states| == |log| + 1
  {
    forall i {:trigger log[i]} :: 0 <= i < |log| && log[i].own ==> ServesItem(states[i], log[i].tx, items, log[i].item)
  }

  lemma LogAppends(states: seq<Catalog>, log: seq<Entry>, c: Catalog, e: Entry, items: seq<Item>)
    requires Log(states, log) && Last(states) == c && Consistent(c) && OwnServes(states, log, items)
    requires FreshNames(c, e.tx) && Commit(c, e.tx).Done? && (e.own ==> ServesItem(c, e.tx, items, e.item))
    ensures var states', log' := states + [Commit(c, e.tx).value], log + [e];
      && Log(states', log') && OwnServes(states', log', items)
      && OwnPart(log') == OwnPart(log) + (if e.own then [Step(|log|, e.tx, e.item)] else [])
  {
    LogGrows(states, log, c, e);
    ServesGrows(states, log, Commit(c, e.tx).value, e, items);
    OwnGrows(log, e);
  }

  lemma LogGrows(states: seq<Catalog>, log: seq<Entry>, c: Catalog, e: Entry)
    requires Log(states, log) && Last(states) == c && Consistent(c)
    requires FreshNames(c, e.tx) && Commit(c, e.tx).Done?
    ensures Log(states + [Commit(c, e.tx).value], log + [e])
  {
    var states', log' := states + [Commit(c, e.tx).value], log + [e];
    forall i {:trigger log'[i]} | 0 <= i < |log'| ensures Commits(states'[i], log'[i].tx, states'[i + 1]) {
      if i < |log| {
        assert Commits(states[i], log[i].tx, states[i + 1]);
      }
    }
  }

  lemma ServesGrows(states: seq<Catalog>, log: seq<Entry>, c': Catalog, e: Entry, items: seq<Item>)
    requires |states| == |log| + 1 && OwnServes(states, log, items)
    requires e.own ==> ServesItem(Last(states), e.tx, items, e.item)
    ensures OwnServes(states + [c'], log + [e], items)
  {
    var states', log' := states + [c'], log + [e];
    forall i {:trigger log'[i]} | 0 <= i < |log'| && log'[i].own
      ensures ServesItem(states'[i], log'[i].tx, items, log'[i].item)
    {
      if i < |log| {
        assert ServesItem(states[i], log[i].tx, items, log[i].item);
      }
    }
  }

  lemma OwnGrows(log: seq<Entry>, e: Entry)
    ensures OwnPart(log + [e]) == OwnPart(log) + (if e.own then [Step(|log|, e.tx, e.item)] else [])
  {
    assert (log + [e])[..|log|] == log;
  }

  /** An account that still has its revision still has its name. */
  lemma StillNamed(found: Catalog, c: Catalog, name: string, id: Id, role: Role, expected: nat)
    requires Evolves(found, c) && Lookup(found, name) == Some(id) && found.accounts[id].revision == expected
    ensures MayActivate(c, id, role, expected) ==> Lookup(c, name) == Some(id)
  {
    if MayActivate(c, id, role, expected) {
      assert AccountEvolves(found, c, id);
      NameOf(c, id);
    }
  }

  predicate Sets(s: Step, i: nat, expected: nat) {
    s.item == i && s.tx.TxActivate? && s.tx.expected == expected
  }

  /** Nothing is taken back, and what is new is for the item at hand. */
  predicate Grew(own0: seq<Step>, own: seq<Step>, i: nat) {
    |own0| <= |own| && own[..|own0|] == own0 && forall j :: |own0| <= j < |own| ==> own[j].item == i
  }

  /** At most one marking of replaced credentials. */
  predicate Marked(own0: seq<Step>, own: seq<Step>, i: nat) {
    || own == own0
    || (|own| == |own0| + 1 && own[..|own0|] == own0 && own[|own0|].tx.TxSupersede? && own[|own0|].item == i)
  }

  predicate SetNow(own0: seq<Step>, own: seq<Step>, i: nat, expected: nat) {
    |own| == |own0| + 1 && own[..|own0|] == own0 && Sets(own[|own0|], i, expected)
  }

  /** One credential set, at that revision of the account. */
  predicate SetOnce(own0: seq<Step>, own: seq<Step>, i: nat, expected: nat) {
    && |own0| < |own| && own[..|own0|] == own0 && Sets(own[|own0|], i, expected)
    && Marked(own[..|own0| + 1], own, i)
  }

  lemma SetThenMarked(own0: seq<Step>, own1: seq<Step>, own2: seq<Step>, i: nat, expected: nat)
    requires SetNow(own0, own1, i, expected) && Marked(own1, own2, i)
    ensures Grew(own0, own2, i) && SetOnce(own0, own2, i, expected)
  {
    assert own2[..|own1|] == own1;
    assert own2[..|own0|] == own1[..|own0|];
  }

  /** How many steps of each kind. */
  datatype Tally = Tally(adds: nat, bumps: nat, moves: nat)

  function TallyOf(own: seq<Step>): Tally {
    if own == [] then Tally(0, 0, 0)
    else Plus(TallyOf(own[..|own| - 1]), own[|own| - 1].tx)
  }

  function Plus(t: Tally, tx: Tx): Tally {
    Tally(t.adds + AddBump(tx), t.bumps + AccountBump(tx), t.moves + (if tx.TxPolicy? || tx.TxAdd? then 1 else 0))
  }

  lemma {:induction false} TallyCounts(states: seq<Catalog>, log: seq<Entry>, items: seq<Item>)
    requires |states| == |log| + 1 && OwnServes(states, log, items)
    ensures TallyOf(OwnPart(log)) == Tally(AddTotal(log, true), AccountTotal(log, true), CatalogTotal(states, log, true))
  {
    if log == [] {
      assert OwnPart(log) == [];
    } else {
      var n := |log| - 1;
      TallyCounts(states[..n + 1], log[..n], items);
      if log[n].own {
        assert ServesItem(states[n], log[n].tx, items, log[n].item);
        assert OwnPart(log)[..|OwnPart(log)| - 1] == OwnPart(log[..n]);
        assert TallyOf(OwnPart(log)) == Plus(TallyOf(OwnPart(log[..n])), log[n].tx);
      } else {
        assert OwnPart(log) == OwnPart(log[..n]);
      }
    }
  }

  /** The import has done its work for an item: added the account, or set its first credential at the
      reviewed revision. */
  ghost predicate Served(own: seq<Step>, items: seq<Item>, i: nat)
    requires i < |items|
  {
    match items[i]
    case Create(_, _, _, _) => exists k :: AddsFor(own, k, i)
    case Resume(_, reviewed, _) => exists k :: ResumesFor(own, k, i, reviewed)
    case Same(_, _) => true
  }

  ghost predicate AllServed(own: seq<Step>, items: seq<Item>) {
    forall i :: 0 <= i < |items| ==> Served(own, items, i)
  }

  predicate AddsFor(own: seq<Step>, k: nat, i: nat) {
    k < |own| && own[k].tx.TxAdd? && own[k].item == i
  }

  predicate ResumesFor(own: seq<Step>, k: nat, i: nat, reviewed: nat) {
    && k < |own| && Sets(own[k], i, reviewed)
    && forall j :: 0 <= j < k && own[j].tx.TxActivate? ==> own[j].item != i
  }

  /** All steps so far were for earlier items. */
  predicate Below(own: seq<Step>, n: nat) {
    forall j :: 0 <= j < |own| ==> own[j].item < n
  }

  /** The item at hand is done: added if it was to be, and with each of its credentials set once. */
  ghost predicate ItemDone(own0: seq<Step>, own: seq<Step>, items: seq<Item>, i: nat)
    requires i < |items|
  {
    Grew(own0, own, i) && Served(own, items, i) && TallyOf(own) == WithItem(TallyOf(own0), items[i])
  }

  function WithItem(t: Tally, item: Item): Tally {
    var added := if item.Create? then 1 else 0;
    Tally(t.adds + added, t.bumps + added + Roles(item), t.moves + added)
  }

  lemma GrewTwice(own0: seq<Step>, own1: seq<Step>, own2: seq<Step>, i: nat)
    requires Grew(own0, own1, i) && Grew(own1, own2, i)
    ensures Grew(own0, own2, i)
  {
    assert own2[..|own0|] == own1[..|own0|];
    forall j | |own0| <= j < |own2| ensures own2[j].item == i {
      assert j < |own1| ==> own2[..|own1|][j] == own1[j];
    }
  }

  lemma TallyAppends(own: seq<Step>, s: Step)
    ensures TallyOf(own + [s]) == Plus(TallyOf(own), s.tx)
  {
    assert (own + [s])[..|own|] == own;
  }

  /** Setting a credential is one step on its account, whether or not a replaced one was marked. */
  lemma SetIsOneBump(own0: seq<Step>, own: seq<Step>, i: nat, expected: nat)
    requires SetOnce(own0, own, i, expected)
    ensures TallyOf(own) == TallyOf(own0).(bumps := TallyOf(own0).bumps + 1)
  {
    var once := own[..|own0| + 1];
    assert once == own0 + [own[|own0|]];
    TallyAppends(own0, own[|own0|]);
    if own != once {
      assert own == once + [own[|own0| + 1]];
      TallyAppends(once, own[|own0| + 1]);
    }
  }

  /** An addition and one credential for each of its endpoints. */
  lemma CreatedDone(
    own0: seq<Step>, own1: seq<Step>, own2: seq<Step>, own3: seq<Step>, items: seq<Item>, i: nat)
    requires i < |items| && items[i].Create?
    requires AddedNow(own0, own1, i) && Grew(own1, own2, i) && Grew(own2, own3, i) && SetOnce(own1, own2, i, 1)
    requires if items[i].outgoing.Some? then SetOnce(own2, own3, i, 2) else own3 == own2
    ensures ItemDone(own0, own3, items, i)
  {
    assert own1 == own0 + [own1[|own0|]];
    TallyAppends(own0, own1[|own0|]);
    SetIsOneBump(own1, own2, i, 1);
    if items[i].outgoing.Some? {
      SetIsOneBump(own2, own3, i, 2);
    }
    GrewTwice(own0, own1, own2, i);
    GrewTwice(own0, own2, own3, i);
    assert AddsFor(own1, |own0|, i);
    StaysServed(own1, own2, items, i);
    StaysServed(own2, own3, items, i);
  }

  predicate AddedNow(own0: seq<Step>, own: seq<Step>, i: nat) {
    |own| == |own0| + 1 && own[..|own0|] == own0 && own[|own0|].tx.TxAdd? && own[|own0|].item == i
  }

  lemma FirstSet(own0: seq<Step>, own: seq<Step>, i: nat, reviewed: nat)
    requires SetOnce(own0, own, i, reviewed) && Below(own0, i)
    ensures ResumesFor(own, |own0|, i, reviewed)
  {
    forall j | 0 <= j < |own0| ensures own[j].item != i {
      assert own[..|own0|][j] == own0[j];
    }
  }

  /** So many credentials of a resumed account have been set. */
  predicate Resumed(own0: seq<Step>, own: seq<Step>, i: nat, reviewed: nat, m: nat) {
    && TallyOf(own) == TallyOf(own0).(bumps := TallyOf(own0).bumps + m)
    && (if m == 0 then own == own0 else ResumesFor(own, |own0|, i, reviewed))
  }

  lemma ResumedNext(own0: seq<Step>, before: seq<Step>, own: seq<Step>, i: nat, reviewed: nat, m: nat)
    requires Resumed(own0, before, i, reviewed, m) && Below(own0, i) && Grew(before, own, i)
    requires SetOnce(before, own, i, reviewed + m)
    ensures Resumed(own0, own, i, reviewed, m + 1)
  {
    SetIsOneBump(before, own, i, reviewed + m);
    if m == 0 {
      FirstSet(own0, own, i, reviewed);
    } else {
      FirstStaysFirst(before, own, |own0|, i, reviewed);
    }
  }

  lemma FirstStaysFirst(own: seq<Step>, later: seq<Step>, k: nat, i: nat, reviewed: nat)
    requires ResumesFor(own, k, i, reviewed) && |own| <= |later| && later[..|own|] == own
    ensures ResumesFor(later, k, i, reviewed)
  {
    forall j | 0 <= j <= k ensures later[j] == own[j] {
      assert later[..|own|][j] == own[j];
    }
  }

  lemma StaysServed(own: seq<Step>, later: seq<Step>, items: seq<Item>, i: nat)
    requires i < |items| && Served(own, items, i) && |own| <= |later| && later[..|own|] == own
    ensures Served(later, items, i)
  {
    match items[i]
    case Create(_, _, _, _) =>
      var k: nat :| AddsFor(own, k, i);
      assert later[..|own|][k] == own[k];
      assert AddsFor(later, k, i);
    case Resume(_, reviewed, _) =>
      var k: nat :| ResumesFor(own, k, i, reviewed);
      FirstStaysFirst(own, later, k, i, reviewed);
    case Same(_, _) =>
  }

  lemma PlannedNext(items: seq<Item>, n: nat)
    requires n < |items|
    ensures Planned(items[..n + 1], false) == WithItem(Planned(items[..n], false), items[n])
  {
    assert items[..n + 1][..n] == items[..n];
  }

  lemma ExpectedNext(items: seq<Item>, n: nat, listed: map<string, Known>)
    requires n < |items|
    ensures Expected(items[..n + 1], listed) ==
      var before := Expected(items[..n], listed);
      if items[n].Same? then before else before[items[n].name := Expects(items[n])]
  {
    assert items[..n + 1][..n] == items[..n];
  }

  lemma {:induction false} StepInLog(states: seq<Catalog>, log: seq<Entry>, items: seq<Item>, k: nat)
    requires Log(states, log) && OwnServes(states, log, items) && k < |OwnPart(log)|
    ensures var s := OwnPart(log)[k];
      && s.at < |log| && log[s.at] == Entry(s.tx, true, s.item) && OwnPart(log[..s.at]) == OwnPart(log)[..k]
      && ServesItem(states[s.at], s.tx, items, s.item) && Commits(states[s.at], s.tx, states[s.at + 1])
    decreases |log|
  {
    var n := |log| - 1;
    if k < |OwnPart(log[..n])| {
      LogInit(states, log);
      StepInLog(states[..n + 1], log[..n], items, k);
      assert log[..n][..OwnPart(log)[k].at] == log[..OwnPart(log)[k].at];
    } else {
      assert OwnPart(log)[..k] == OwnPart(log[..n]);
    }
  }

  lemma OwnKindsOf(states: seq<Catalog>, log: seq<Entry>, items: seq<Item>)
    requires |states| == |log| + 1 && OwnServes(states, log, items)
    ensures OwnKinds(log)
  {
    forall i | 0 <= i < |log| && log[i].own ensures OwnKind(log[i].tx) {
      assert ServesItem(states[i], log[i].tx, items, log[i].item);
    }
  }

  /** No addition and no activation is for an item of that name. */
  predicate Spares(own: seq<Step>, items: seq<Item>, name: string) {
    forall j :: 0 <= j < |own| && own[j].item < |items| && (own[j].tx.TxAdd? || own[j].tx.TxActivate?) ==>
      items[own[j].item].name != name
  }

  lemma HeadServes(states: seq<Catalog>, log: seq<Entry>, items: seq<Item>, n: nat)
    requires |states| == |log| + 1 && n <= |log| && OwnServes(states, log, items) && OthersAreQuiet(states, log)
    ensures OwnServes(states[..n + 1], log[..n], items) && OthersAreQuiet(states[..n + 1], log[..n])
  {
    forall i {:trigger log[..n][i]} | 0 <= i < n && log[..n][i].own
      ensures ServesItem(states[..n + 1][i], log[..n][i].tx, items, log[..n][i].item)
    {
      assert ServesItem(states[i], log[i].tx, items, log[i].item);
    }
  }

  /** While the others are quiet, an account that the import has not yet touched is as it was listed. */
  lemma {:induction false} UntouchedIsAsListed(
    states: seq<Catalog>, log: seq<Entry>, items: seq<Item>, name: string, id: Id)
    requires Log(states, log) && OwnServes(states, log, items) && OthersAreQuiet(states, log)
    requires Spares(OwnPart(log), items, name) && Lookup(Last(states), name) == Some(id)
    ensures Lookup(states[0], name) == Some(id) && states[0].accounts[id] == Last(states).accounts[id]
    decreases |log|
  {
    if log != [] {
      var n := |log| - 1;
      LogInit(states, log);
      HeadServes(states, log, items, n);
      SparesInit(log, items, name);
      StepSpares(states, log, items, name, id);
      UntouchedIsAsListed(states[..n + 1], log[..n], items, name, id);
    }
  }

  lemma {:induction false} SparesInit(log: seq<Entry>, items: seq<Item>, name: string)
    requires log != [] && Spares(OwnPart(log), items, name)
    ensures Spares(OwnPart(log[..|log| - 1]), items, name)
    ensures log[|log| - 1].own ==> SparesEntry(log[|log| - 1], items, name)
  {
    var n := |log| - 1;
    var init := OwnPart(log[..n]);
    forall j | 0 <= j < |init| && init[j].item < |items| && (init[j].tx.TxAdd? || init[j].tx.TxActivate?)
      ensures items[init[j].item].name != name
    {
      assert OwnPart(log)[j] == init[j];
    }
    if log[n].own {
      assert OwnPart(log)[|init|] == Step(n, log[n].tx, log[n].item);
    }
  }

  predicate SparesEntry(e: Entry, items: seq<Item>, name: string) {
    e.item < |items| && (e.tx.TxAdd? || e.tx.TxActivate?) ==> items[e.item].name != name
  }

  lemma StepSpares(states: seq<Catalog>, log: seq<Entry>, items: seq<Item>, name: string, id: Id)
    requires Log(states, log) && OwnServes(states, log, items) && OthersAreQuiet(states, log) && log != []
    requires log[|log| - 1].own ==> SparesEntry(log[|log| - 1], items, name)
    requires Lookup(Last(states), name) == Some(id)
    ensures var c := states[|log| - 1];
      Lookup(c, name) == Some(id) && c.accounts[id] == Last(states).accounts[id]
  {
    var n := |log| - 1;
    assert Commits(states[n], log[n].tx, states[n + 1]);
    if log[n].own {
      assert ServesItem(states[n], log[n].tx, items, log[n].item);
      OwnStepSpares(states[n], log[n], items, name, id);
    } else {
      assert SameView(states[n], states[n + 1]);
    }
  }

  lemma OwnStepSpares(c: Catalog, e: Entry, items: seq<Item>, name: string, id: Id)
    requires Consistent(c) && FreshNames(c, e.tx) && Commit(c, e.tx).Done?
    requires ServesItem(c, e.tx, items, e.item) && SparesEntry(e, items, name)
    requires Lookup(Commit(c, e.tx).value, name) == Some(id)
    ensures Lookup(c, name) == Some(id) && c.accounts[id] == Commit(c, e.tx).value.accounts[id]
  {
  }

  /** The import frees no name, and neither do others that are quiet. */
  lemma {:induction false} NamesStay(states: seq<Catalog>, log: seq<Entry>, items: seq<Item>, name: string)
    requires Log(states, log) && OwnServes(states, log, items) && OthersAreQuiet(states, log)
    requires name in states[0].names
    ensures name in Last(states).names
    decreases |log|
  {
    if log != [] {
      var n := |log| - 1;
      LogInit(states, log);
      HeadServes(states, log, items, n);
      NamesStay(states[..n + 1], log[..n], items, name);
      assert log[n].own ==> ServesItem(states[n], log[n].tx, items, log[n].item);
      assert !log[n].own ==> SameView(states[n], states[n + 1]);
    }
  }

  /** If all others are quiet, the import could only do its work because the listing fitted the plan. */
  lemma QuietRunsFit(states: seq<Catalog>, log: seq<Entry>, items: seq<Item>)
    requires Log(states, log) && OwnServes(states, log, items) && OthersAreQuiet(states, log)
    requires DistinctNames(items) && AllServed(OwnPart(log), items)
    ensures Fits(items, Listing(states[0]))
  {
    forall i | 0 <= i < |items| ensures FitsItem(items[i], Listing(states[0])) {
      assert Served(OwnPart(log), items, i);
      match items[i]
      case Create(_, _, _, _) => CreatedFits(states, log, items, i);
      case Resume(_, _, _) => ResumedFits(states, log, items, i);
      case Same(_, _) =>
    }
  }

  lemma CreatedFits(states: seq<Catalog>, log: seq<Entry>, items: seq<Item>, i: nat)
    requires Log(states, log) && OwnServes(states, log, items) && OthersAreQuiet(states, log)
    requires i < |items| && items[i].Create? && Served(OwnPart(log), items, i)
    ensures items[i].name !in Listing(states[0])
  {
    var k: nat :| AddsFor(OwnPart(log), k, i);
    StepInLog(states, log, items, k);
    CreatedAt(states, log, items, i, OwnPart(log)[k].at);
  }

  lemma CreatedAt(states: seq<Catalog>, log: seq<Entry>, items: seq<Item>, i: nat, at: nat)
    requires at < |log| && Log(states, log) && OwnServes(states, log, items) && OthersAreQuiet(states, log)
    requires i < |items| && items[i].Create? && log[at].own && log[at].tx.TxAdd? && log[at].item == i
    ensures items[i].name !in Listing(states[0])
  {
    assert Commits(states[at], log[at].tx, states[at + 1]);
    assert ServesItem(states[at], log[at].tx, items, i);
    HeadServes(states, log, items, at);
    assert Log(states[..at + 1], log[..at]);
    if items[i].name in states[0].names {
      NamesStay(states[..at + 1], log[..at], items, items[i].name);
    }
  }

  /** Before its first credential the import has not touched a resumed account. */
  lemma SparesBefore(states: seq<Catalog>, log: seq<Entry>, items: seq<Item>, i: nat, k: nat)
    requires Log(states, log) && OwnServes(states, log, items)
    requires DistinctNames(items) && i < |items| && items[i].Resume? && ResumesFor(OwnPart(log), k, i, items[i].reviewed)
    ensures Spares(OwnPart(log)[..k], items, items[i].name)
  {
    var own := OwnPart(log);
    forall j | 0 <= j < k && own[j].item < |items| && (own[j].tx.TxAdd? || own[j].tx.TxActivate?)
      ensures items[own[j].item].name != items[i].name
    {
      StepInLog(states, log, items, j);
      assert own[j].item != i;
    }
  }

  lemma ResumedFits(states: seq<Catalog>, log: seq<Entry>, items: seq<Item>, i: nat)
    requires Log(states, log) && OwnServes(states, log, items) && OthersAreQuiet(states, log)
    requires DistinctNames(items) && i < |items| && items[i].Resume? && Served(OwnPart(log), items, i)
    ensures var listed := Listing(states[0]);
      items[i].name in listed && listed[items[i].name].revision == items[i].reviewed
  {
    var k: nat :| ResumesFor(OwnPart(log), k, i, items[i].reviewed);
    StepInLog(states, log, items, k);
    SparesBefore(states, log, items, i, k);
    ResumedAt(states, log, items, i, OwnPart(log)[k].at);
  }

  lemma ResumedAt(states: seq<Catalog>, log: seq<Entry>, items: seq<Item>, i: nat, at: nat)
    requires at < |log| && Log(states, log) && OwnServes(states, log, items) && OthersAreQuiet(states, log)
    requires i < |items| && items[i].Resume? && Spares(OwnPart(log[..at]), items, items[i].name)
    requires log[at].own && Sets(Step(at, log[at].tx, log[at].item), i, items[i].reviewed)
    ensures var listed := Listing(states[0]);
      items[i].name in listed && listed[items[i].name].revision == items[i].reviewed
  {
    assert Commits(states[at], log[at].tx, states[at + 1]);
    assert ServesItem(states[at], log[at].tx, items, i);
    HeadServes(states, log, items, at);
    assert Log(states[..at + 1], log[..at]);
    UntouchedIsAsListed(states[..at + 1], log[..at], items, items[i].name, log[at].tx.id);
  }

  /** What the fence is worth, exactly.  When the import has done its work and the fence accepts, all
      others were quiet if and only if the listing fits the plan: no account to be created was already
      listed, and no account to be resumed was listed at an older revision than was reviewed. */
  lemma FenceIsExact(states: seq<Catalog>, log: seq<Entry>, items: seq<Item>, target: nat, updatePolicy: bool)
    requires Log(states, log) && OwnServes(states, log, items) && AllServed(OwnPart(log), items)
    requires TallyOf(OwnPart(log)) == Planned(items, updatePolicy)
    requires target <= states[0].revision && DistinctNames(items)
    requires FenceAccepts(Last(states), states[0], items, target, updatePolicy)
    ensures OthersAreQuiet(states, log) <==> Fits(items, Listing(states[0]))
  {
    if Fits(items, Listing(states[0])) {
      TallyCounts(states, log, items);
      CutoverSeesOnlyItself(states, log, items, target, updatePolicy);
    }
    if OthersAreQuiet(states, log) {
      QuietRunsFit(states, log, items);
    }
  }

  function Planned(items: seq<Item>, updatePolicy: bool): Tally {
    Tally(Creates(items), OwnBumps(items), Creates(items) + (if updatePolicy then 1 else 0))
  }

  /** An account created from a reviewed item, as that item describes it. */
  predicate SelectedAs(c: Catalog, item: Item)
    requires item.Create?
  {
    match Lookup(c, item.name)
    case None => false
    case Some(id) =>
      id in c.endpoints
      && ConfigOf(c, id) == Config(item.name, item.profile, true, false, RolesOf(item.incoming, item.outgoing))
  }

  lemma CreatedAreSelected(states: seq<Catalog>, log: seq<Entry>, items: seq<Item>, i: nat)
    requires Log(states, log) && OwnServes(states, log, items) && OthersAreQuiet(states, log)
    requires i < |items| && items[i].Create? && Served(OwnPart(log), items, i)
    ensures SelectedAs(Last(states), items[i])
  {
    var k: nat :| AddsFor(OwnPart(log), k, i);
    StepInLog(states, log, items, k);
    OwnKindsOf(states, log, items);
    CreatedConfigurationIsSelected(states, log, OwnPart(log)[k].at);
  }

  /** So many items are done, and the expectations have grown with them. */
  ghost predicate DoneUpTo(
    own: seq<Step>, items: seq<Item>, n: nat, target: nat, revision: nat, listed: map<string, Known>,
    expected: map<string, Known>)
    requires n <= |items|
  {
    && Below(own, n) && TallyOf(own) == Planned(items[..n], false)
    && revision == target + Creates(items[..n]) && expected == Expected(items[..n], listed)
    && forall i :: 0 <= i < n ==> Served(own, items, i)
  }

  lemma ItemAdvances(
    own0: seq<Step>, own: seq<Step>, items: seq<Item>, n: nat, target: nat, revision: nat,
    listed: map<string, Known>, expected: map<string, Known>)
    requires n < |items| && DoneUpTo(own0, items, n, target, revision, listed, expected)
    requires ItemDone(own0, own, items, n)
    ensures DoneUpTo(own, items, n + 1, target, revision + (if items[n].Create? then 1 else 0), listed,
      if items[n].Same? then expected else expected[items[n].name := Expects(items[n])])
  {
    PlannedNext(items, n);
    ExpectedNext(items, n, listed);
    forall i | 0 <= i < n + 1 ensures Served(own, items, i) {
      if i < n {
        StaysServed(own0, own, items, i);
      }
    }
    forall j | 0 <= j < |own| ensures own[j].item < n + 1 {
      assert j < |own0| ==> own[..|own0|][j] == own0[j];
    }
  }

  /** The import has done all it reports. */
  ghost predicate AllDone(own: seq<Step>, items: seq<Item>, updatePolicy: bool) {
    AllServed(own, items) && TallyOf(own) == Planned(items, updatePolicy)
  }

  lemma PolicyAdvances(own0: seq<Step>, own: seq<Step>, items: seq<Item>)
    requires AllDone(own0, items, false)
    requires |own| == |own0| + 1 && own[..|own0|] == own0 && own[|own0|].tx.TxPolicy?
    ensures AllDone(own, items, true)
  {
    assert own == own0 + [own[|own0|]];
    TallyAppends(own0, own[|own0|]);
    forall i | 0 <= i < |items| ensures Served(own, items, i) {
      StaysServed(own0, own, items, i);
    }
  }

  /** What follows for an import that has done its work once the fence has accepted. */
  lemma Accepted(states: seq<Catalog>, log: seq<Entry>, items: seq<Item>, target: nat, updatePolicy: bool)
    requires Log(states, log) && OwnServes(states, log, items) && AllDone(OwnPart(log), items, updatePolicy)
    requires target <= states[0].revision && DistinctNames(items)
    requires FenceAccepts(Last(states), states[0], items, target, updatePolicy)
    ensures OthersAreQuiet(states, log) <==> Fits(items, Listing(states[0]))
    ensures OthersAreQuiet(states, log) ==>
      forall i :: 0 <= i < |items| && items[i].Create? ==> SelectedAs(Last(states), items[i])
  {
    FenceIsExact(states, log, items, target, updatePolicy);
    if OthersAreQuiet(states, log) {
      forall i | 0 <= i < |items| && items[i].Create? ensures SelectedAs(Last(states), items[i]) {
        CreatedAreSelected(states, log, items, i);
      }
    }
  }

  /** The moments at which each checked item had its reviewed revision. */
  predicate ChecksHold(states: seq<Catalog>, items: seq<Item>, checked: map<nat, nat>) {
    forall i :: i in checked ==> CheckHolds(states, items, i, checked[i])
  }

  predicate CheckHolds(states: seq<Catalog>, items: seq<Item>, i: nat, q: nat) {
    i < |items| && !items[i].Create? && q < |states| && GuardsRevision(states[q], items[i].name, items[i].reviewed)
  }

  predicate CheckedBelow(items: seq<Item>, checked: set<nat>, n: nat)
    requires n <= |items|
  {
    forall i :: 0 <= i < n && !items[i].Create? ==> i in checked
  }

  lemma ChecksStay(states: seq<Catalog>, c: Catalog, items: seq<Item>, checked: map<nat, nat>)
    requires ChecksHold(states, items, checked)
    ensures ChecksHold(states + [c], items, checked)
  {
    forall i | i in checked ensures CheckHolds(states + [c], items, i, checked[i]) {
      assert CheckHolds(states, items, i, checked[i]);
    }
  }

  lemma CheckedNow(states: seq<Catalog>, items: seq<Item>, checked: map<nat, nat>, n: nat)
    requires ChecksHold(states, items, checked) && n < |items| && !items[n].Create? && states != []
    requires GuardsRevision(Last(states), items[n].name, items[n].reviewed)
    ensures ChecksHold(states, items, checked[n := |states| - 1])
  {
    forall i | i in checked ensures CheckHolds(states, items, i, checked[i]) {
    }
  }

  /** What the preview was shown of each account that already existed. */
  ghost predicate ShowsItems(shown: seq<Shown>, items: seq<Item>, listed: Catalog) {
    |shown| == |items| && forall i :: 0 <= i < |items| && !items[i].Create? ==> ShowsItem(shown[i], items[i], listed)
  }

  ghost predicate ShowsItem(v: Shown, item: Item, listed: Catalog)
    requires !item.Create?
  {
    ShownBefore(v, item.name, listed) && GuardsRevision(v.row, item.name, item.reviewed)
  }

  /** Each reviewed account that already existed is selected as reviewed exactly if its name meant it when
      the accounts were listed. */
  ghost predicate ReviewsKept(listed: Catalog, c: Catalog, items: seq<Item>, shown: seq<Shown>)
    requires ShowsItems(shown, items, listed)
  {
    forall i :: 0 <= i < |items| && !items[i].Create? ==>
      assert ShowsItem(shown[i], items[i], listed);
      (IsSelected(c, items[i].name, shown[i]) <==> Lookup(listed, items[i].name) == Lookup(shown[i].row, items[i].name))
  }

  lemma ReviewedAreSelected(
    states: seq<Catalog>, log: seq<Entry>, items: seq<Item>, shown: seq<Shown>, checked: map<nat, nat>)
    requires Log(states, log) && OwnServes(states, log, items) && ShowsItems(shown, items, states[0])
    requires ChecksHold(states, items, checked) && CheckedBelow(items, checked.Keys, |items|)
    ensures OthersAreQuiet(states, log) ==> ReviewsKept(states[0], Last(states), items, shown)
  {
    if OthersAreQuiet(states, log) {
      OwnKindsOf(states, log, items);
      forall i | 0 <= i < |items| && !items[i].Create?
        ensures ShowsItem(shown[i], items[i], states[0])
        ensures IsSelected(Last(states), items[i].name, shown[i]) <==>
          Lookup(states[0], items[i].name) == Lookup(shown[i].row, items[i].name)
      {
        assert CheckHolds(states, items, i, checked[i]);
        ReviewedConfigurationIsSelected(states, log, items[i].name, shown[i], checked[i]);
      }
    }
  }
}
