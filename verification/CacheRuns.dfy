/** Whole runs of the metadata cache.  The server, any number of readers and writers, and the
    projection tables take turns in every order: an observation may be written late, repeatedly,
    out of order or never, and a merge may pair a baseline with a much later delta. */
module CacheRuns {
  import opened Collections
  import opened Imap
  import opened MetadataTables
  import opened MetadataMerge
  import opened Wrappers

  datatype Observed = Observed(key: Key, observation: Observation)

  datatype Held = Held(key: Key, baseline: IncrementalBaseline)

  datatype Kept = Kept(key: Key, uidvalidity: nat, email: Email)

  /** `server` holds each mailbox's whole history.  `observed`, `held` and `kept` are what clients
      still have in memory: finished observations, baselines read, and rows kept for a refresh. */
  datatype System = System(
    server: map<Key, seq<Mailbox>>, tables: Tables, observed: set<Observed>, held: set<Held>, kept: set<Kept>)

  datatype Event =
    | ServerActs(key: Key, action: Action)
    | Observe(key: Key, observation: Observation)
    | ReadBaseline(key: Key, uidvalidity: nat)
    | ReadPartial(key: Key, uidvalidity: nat)
    | Merge(from: Held, delta: UidDelta, rowLimit: nat)
    | Write(what: Observed, rowLimit: nat, commit: CommitOutcome)
    | InvalidateMailboxes(keys: set<Key>)
    | InvalidateAccount(account: string)
    | DropAccount(account: string)

  predicate Initial(s: System) {
    && s.tables == Tables(map[], map[], map[])
    && s.observed == {} && s.held == {} && s.kept == {}
    && forall k :: k in s.server ==> |s.server[k]| == 1 && s.server[k][0].Valid()
  }

  /** A row fetched in some state of its epoch or kept from an earlier read of that epoch.  When the
      epoch is already over, nothing is assumed of it: a refresh that straddles a renumbering and
      then loses a batch reports rows of the new epoch under the old number. */
  ghost predicate FetchedOrKept(s: System, key: Key, uidvalidity: nat, e: Email)
    requires key in s.server && 0 < |s.server[key]|
  {
    TrueRow(s.server[key], uidvalidity, e) || Kept(key, uidvalidity, e) in s.kept
  }

  /** A complete observation carries the status of the state it was made in and has one dated row
      for each message of that state.  A partial one promises no more than true rows. */
  ghost predicate CanObserve(s: System, key: Key, o: Observation)
    requires key in s.server && 0 < |s.server[key]|
  {
    var now := Last(s.server[key]);
    && (o.state.uidvalidity.Some? ==>
          forall i :: 0 <= i < |o.emails| ==> FetchedOrKept(s, key, o.state.uidvalidity.value, o.emails[i]))
    && (o.complete ==>
          && o.state == now.Status()
          && Distinct(Uids(o.emails)) && Elements(Uids(o.emails)) == now.messages.Keys && HaveInternalDates(o.emails))
  }

  function ToSnapshot(o: Observation): Snapshot
    requires o.state.uidvalidity.Some? && o.state.uidnext.Some?
  {
    Snapshot(o.delimiter, o.attributes, o.state.uidvalidity.value, o.state.uidnext.value, o.state.messageCount,
             o.emails, o.complete)
  }

  function ToBaseline(b: Baseline): IncrementalBaseline {
    IncrementalBaseline(MailboxState(Some(b.uidvalidity), Some(b.uidnext), b.messageCount), b.highUid, b.emails)
  }

  function KeepAll(key: Key, uidvalidity: nat, emails: seq<Email>): set<Kept> {
    set e | e in emails :: Kept(key, uidvalidity, e)
  }

  ghost predicate EventEnabled(s: System, event: Event) {
    match event
    case ServerActs(key, action) =>
      key in s.server && 0 < |s.server[key]| && Enabled(Last(s.server[key]), action)
    case Observe(key, o) =>
      key in s.server && 0 < |s.server[key]| && CanObserve(s, key, o)
    case ReadBaseline(key, v) => BaselineRead(s.tables, key, v).Some?
    case ReadPartial(key, v) => PartialRead(s.tables, key, v).Some?
    case Merge(from, delta, rowLimit) =>
      && from in s.held
      && from.key in s.server && 0 < |s.server[from.key]|
      && DeltaOf(Last(s.server[from.key]), from.key.name, Floor(from.baseline), delta)
      && Mergeable(from.key.name, from.baseline, delta, rowLimit)
    case Write(what, _, _) =>
      what in s.observed && what.observation.state.uidvalidity.Some? && what.observation.state.uidnext.Some?
    case InvalidateMailboxes(_) => true
    case InvalidateAccount(_) => true
    case DropAccount(_) => true
  }

  ghost function After(s: System, event: Event): System
    requires EventEnabled(s, event)
  {
    match event
    case ServerActs(key, action) =>
      s.(server := s.server[key := s.server[key] + [Apply(Last(s.server[key]), action)]])
    case Observe(key, o) => s.(observed := s.observed + {Observed(key, o)})
    case ReadBaseline(key, v) =>
      var b := BaselineRead(s.tables, key, v).value;
      s.(held := s.held + {Held(key, ToBaseline(b))}, kept := s.kept + KeepAll(key, v, b.emails))
    case ReadPartial(key, v) => s.(kept := s.kept + KeepAll(key, v, PartialRead(s.tables, key, v).value))
    case Merge(from, delta, _) =>
      s.(observed := s.observed + {Observed(from.key, Merged(from, delta))})
    case Write(what, rowLimit, commit) =>
      var w := ToSnapshot(what.observation);
      if Acceptable(w, rowLimit) && commit != NotCommitted
      then s.(tables := Replaced(s.tables, what.key, w)) else s
    case InvalidateMailboxes(keys) => s.(tables := WithoutCoverage(s.tables, keys))
    case InvalidateAccount(account) => s.(tables := WithoutCoverage(s.tables, AccountKeys(s.tables, account)))
    case DropAccount(account) => s.(tables := WithoutAccount(s.tables, account))
  }

  /** A row that was true of its epoch at some moment, or whose epoch is over. */
  ghost predicate TrueRow(h: seq<Mailbox>, uidvalidity: nat, e: Email)
    requires 0 < |h|
  {
    uidvalidity < Last(h).uidvalidity || exists i :: 0 <= i < |h| && TrueAt(h[i], uidvalidity, e)
  }

  predicate TrueAt(m: Mailbox, uidvalidity: nat, e: Email) {
    m.uidvalidity == uidvalidity && e.uid in m.messages && Agrees(e, m.messages[e.uid])
  }

  ghost predicate TrueObservation(h: seq<Mailbox>, o: Observation)
    requires 0 < |h|
  {
    && (o.state.uidvalidity.Some? ==>
          forall i :: 0 <= i < |o.emails| ==> TrueRow(h, o.state.uidvalidity.value, o.emails[i]))
    && (o.complete ==> exists i :: 0 <= i < |h| && CompleteAt(h[i], o))
  }

  predicate CompleteAt(m: Mailbox, o: Observation) {
    o.state == m.Status() && Lists(o.emails, m.messages) && HaveInternalDates(o.emails)
  }

  ghost predicate TrueBaseline(h: seq<Mailbox>, b: IncrementalBaseline) {
    exists i :: 0 <= i < |h| && BaselineOf(h[i], b)
  }

  /** Stored rows are exactly the messages of a state. */
  predicate RowsOf(m: Mailbox, rows: map<nat, Row>) {
    && rows.Keys == m.messages.Keys
    && forall u :: u in rows ==> rows[u].internalDate.Some? && Agrees(EmailOf(u, rows[u]), m.messages[u])
  }

  predicate CoverageMatches(m: Mailbox, c: Coverage, rows: map<nat, Row>) {
    && c.uidvalidity == m.uidvalidity
    && c.uidnext == m.uidnext
    && c.messageCount == |m.messages|
    && RowsOf(m, rows)
  }

  /** COMPLETE coverage is a memory of one past state of the server. */
  ghost predicate TrueCoverage(h: seq<Mailbox>, t: Tables, key: Key)
    requires MailboxId(key) in t.coverage
  {
    var c := t.coverage[MailboxId(key)];
    c.completeness == COMPLETE ==>
      exists i :: 0 <= i < |h| && CoverageMatches(h[i], c, t.RowsAt(key, c.uidvalidity))
  }

  ghost predicate TrueTables(server: map<Key, seq<Mailbox>>, t: Tables) {
    && t.Consistent()
    && (forall e :: e in t.messages ==> e.mailbox.key in server && 0 < |server[e.mailbox.key]|)
    && (forall e, u :: e in t.messages && u in t.messages[e] ==>
          TrueRow(server[e.mailbox.key], e.uidvalidity, EmailOf(u, t.messages[e][u])))
    && (forall id :: id in t.coverage ==> id.key in server && TrueCoverage(server[id.key], t, id.key))
  }

  ghost predicate Inv(s: System) {
    && (forall k :: k in s.server ==> History(s.server[k]))
    && (forall o :: o in s.observed ==>
          o.key in s.server && 0 < |s.server[o.key]| && TrueObservation(s.server[o.key], o.observation))
    && (forall b :: b in s.held ==> b.key in s.server && TrueBaseline(s.server[b.key], b.baseline))
    && (forall k :: k in s.kept ==>
          k.key in s.server && 0 < |s.server[k.key]| && TrueRow(s.server[k.key], k.uidvalidity, k.email))
    && TrueTables(s.server, s.tables)
  }

  lemma InitialInv(s: System)
    requires Initial(s)
    ensures Inv(s)
  {
  }

  /** Everything true of a history stays true when the server acts again. */
  lemma ServerActsKeepsInv(s: System, key: Key, action: Action)
    requires Inv(s) && EventEnabled(s, ServerActs(key, action))
    ensures Inv(After(s, ServerActs(key, action)))
  {
    var h := s.server[key];
    var next := Apply(Last(h), action);
    assert Step(Last(h), next);
    HistoryExtends(h, next);
    HistoryIsMonotone(h + [next], |h| - 1, |h|);
    forall v, e | TrueRow(h, v, e) ensures TrueRow(h + [next], v, e) {
      TrueRowStaysTrue(h, h + [next], v, e);
    }
    forall o | TrueObservation(h, o) ensures TrueObservation(h + [next], o) {
      ObservationStaysTrue(h, next, o);
    }
    forall b | TrueBaseline(h, b) ensures TrueBaseline(h + [next], b) {
      BaselineStaysTrue(h, next, b);
    }
    if MailboxId(key) in s.tables.coverage {
      CoverageStaysTrue(h, next, s.tables, key);
    }
  }

  lemma ObservationStaysTrue(h: seq<Mailbox>, next: Mailbox, o: Observation)
    requires History(h) && Last(h).uidvalidity <= next.uidvalidity && TrueObservation(h, o)
    ensures TrueObservation(h + [next], o)
  {
    forall v, e | TrueRow(h, v, e) ensures TrueRow(h + [next], v, e) {
      TrueRowStaysTrue(h, h + [next], v, e);
    }
    if o.complete {
      var i :| 0 <= i < |h| && CompleteAt(h[i], o);
      assert CompleteAt((h + [next])[i], o);
    }
  }

  lemma BaselineStaysTrue(h: seq<Mailbox>, next: Mailbox, b: IncrementalBaseline)
    requires TrueBaseline(h, b)
    ensures TrueBaseline(h + [next], b)
  {
    var i :| 0 <= i < |h| && BaselineOf(h[i], b);
    assert BaselineOf((h + [next])[i], b);
  }

  lemma CoverageStaysTrue(h: seq<Mailbox>, next: Mailbox, t: Tables, key: Key)
    requires MailboxId(key) in t.coverage && TrueCoverage(h, t, key)
    ensures TrueCoverage(h + [next], t, key)
  {
    var c := t.coverage[MailboxId(key)];
    if c.completeness == COMPLETE {
      var i :| 0 <= i < |h| && CoverageMatches(h[i], c, t.RowsAt(key, c.uidvalidity));
      assert CoverageMatches((h + [next])[i], c, t.RowsAt(key, c.uidvalidity));
    }
  }

  lemma TrueRowStaysTrue(h: seq<Mailbox>, h': seq<Mailbox>, v: nat, e: Email)
    requires 0 < |h| <= |h'| && h <= h' && Last(h).uidvalidity <= Last(h').uidvalidity && TrueRow(h, v, e)
    ensures TrueRow(h', v, e)
  {
  }

  lemma ObserveKeepsInv(s: System, key: Key, o: Observation)
    requires Inv(s) && EventEnabled(s, Observe(key, o))
    ensures Inv(After(s, Observe(key, o)))
  {
    var h := s.server[key];
    var now := Last(h);
    var n := |h| - 1;
    if o.state.uidvalidity.Some? {
      forall i | 0 <= i < |o.emails| ensures TrueRow(h, o.state.uidvalidity.value, o.emails[i]) {
        assert FetchedOrKept(s, key, o.state.uidvalidity.value, o.emails[i]);
      }
    }
    if o.complete {
      forall i | 0 <= i < |o.emails|
        ensures o.emails[i].uid in now.messages && Agrees(o.emails[i], now.messages[o.emails[i].uid])
      {
        assert Uids(o.emails)[i] in Elements(Uids(o.emails));
        TrueRowIsCurrent(h, o.emails[i]);
      }
      CompleteIsTrue(h, n, o);
    }
  }

  /** UIDs are never reused inside an epoch: a row that was ever true of the current epoch and whose
      message still exists is true now. */
  lemma TrueRowIsCurrent(h: seq<Mailbox>, e: Email)
    requires History(h) && TrueRow(h, Last(h).uidvalidity, e) && e.uid in Last(h).messages
    ensures Agrees(e, Last(h).messages[e.uid])
  {
    var i :| 0 <= i < |h| && TrueAt(h[i], Last(h).uidvalidity, e);
    HistoryIsMonotone(h, i, i);
    HistoryIsMonotone(h, i, |h| - 1);
  }

  lemma MergeKeepsInv(s: System, from: Held, delta: UidDelta, rowLimit: nat)
    requires Inv(s) && EventEnabled(s, Merge(from, delta, rowLimit))
    ensures Inv(After(s, Merge(from, delta, rowLimit)))
  {
    MergedIsTrue(s.server[from.key], from, delta, rowLimit);
  }

  function Merged(from: Held, delta: UidDelta): Observation {
    Observation(delta.state, delta.mailbox, delta.delimiter, delta.attributes, from.baseline.emails + delta.emails, true)
  }

  lemma MergedIsTrue(h: seq<Mailbox>, from: Held, delta: UidDelta, rowLimit: nat)
    requires History(h) && TrueBaseline(h, from.baseline)
    requires DeltaOf(Last(h), from.key.name, Floor(from.baseline), delta)
    requires Mergeable(from.key.name, from.baseline, delta, rowLimit)
    ensures TrueObservation(h, Merged(from, delta))
  {
    var i :| 0 <= i < |h| && BaselineOf(h[i], from.baseline);
    MergedIsComplete(h, i, from, delta, rowLimit);
    LastIsTrue(h, Merged(from, delta));
  }

  lemma LastIsTrue(h: seq<Mailbox>, o: Observation)
    requires 0 < |h| && CompleteAt(Last(h), o)
    ensures TrueObservation(h, o)
  {
    CompleteIsTrue(h, |h| - 1, o);
  }

  lemma MergedIsComplete(h: seq<Mailbox>, i: nat, from: Held, delta: UidDelta, rowLimit: nat)
    requires History(h) && i < |h| && BaselineOf(h[i], from.baseline)
    requires DeltaOf(Last(h), from.key.name, Floor(from.baseline), delta)
    requires Mergeable(from.key.name, from.baseline, delta, rowLimit)
    ensures CompleteAt(Last(h), Merged(from, delta))
  {
    MergeIsExact(h, i, |h| - 1, from.key.name, from.baseline, delta, rowLimit);
    JoinedDates(from.baseline.emails, delta.emails);
  }

  lemma JoinedDates(a: seq<Email>, b: seq<Email>)
    requires HaveInternalDates(a) && HaveInternalDates(b)
    ensures HaveInternalDates(a + b)
  {
  }

  lemma CompleteIsTrue(h: seq<Mailbox>, n: nat, o: Observation)
    requires n < |h| && CompleteAt(h[n], o)
    ensures TrueObservation(h, o)
  {
  }

  /** Reading rows out of the tables yields true rows, and a baseline of a past state. */
  lemma ReadRowsAreTrue(s: System, key: Key, uidvalidity: nat)
    requires Inv(s) && key in s.tables.mailboxes && MailboxId(key) in s.tables.coverage
    requires s.tables.coverage[MailboxId(key)].uidvalidity == uidvalidity
    ensures forall e :: e in DescendingEmails(s.tables.RowsAt(key, uidvalidity)) ==>
      TrueRow(s.server[key], uidvalidity, e)
  {
    var rows := s.tables.RowsAt(key, uidvalidity);
    var uids := Descending(rows.Keys);
    DescendingAllIn(rows);
    forall e | e in DescendingEmails(rows) ensures TrueRow(s.server[key], uidvalidity, e) {
      var i :| 0 <= i < |uids| && e == EmailOf(uids[i], rows[uids[i]]);
      assert uids[i] in rows;
    }
  }

  lemma ReadBaselineKeepsInv(s: System, key: Key, uidvalidity: nat)
    requires Inv(s) && EventEnabled(s, ReadBaseline(key, uidvalidity))
    ensures Inv(After(s, ReadBaseline(key, uidvalidity)))
  {
    ReadRowsAreTrue(s, key, uidvalidity);
    BaselineReadIsTrue(s.server, s.tables, key, uidvalidity);
  }

  lemma BaselineReadIsTrue(server: map<Key, seq<Mailbox>>, t: Tables, key: Key, uidvalidity: nat)
    requires TrueTables(server, t) && BaselineRead(t, key, uidvalidity).Some?
    ensures key in server && TrueBaseline(server[key], ToBaseline(BaselineRead(t, key, uidvalidity).value))
  {
    var h := server[key];
    var c := t.coverage[MailboxId(key)];
    var rows := t.RowsAt(key, uidvalidity);
    assert TrueCoverage(h, t, key);
    var i :| 0 <= i < |h| && CoverageMatches(h[i], c, rows);
    RowsList(h[i], rows);
    LoadedHighUid(rows);
    assert BaselineOf(h[i], ToBaseline(BaselineRead(t, key, uidvalidity).value));
  }

  lemma RowsList(m: Mailbox, rows: map<nat, Row>)
    requires RowsOf(m, rows)
    ensures Lists(DescendingEmails(rows), m.messages) && HaveInternalDates(DescendingEmails(rows))
  {
    var emails := DescendingEmails(rows);
    var uids := Descending(rows.Keys);
    LoadedHighUid(rows);
    DescendingElements(rows.Keys);
    DescendingOrder(rows.Keys);
    DescendingAllIn(rows);
    forall i | 0 <= i < |emails|
      ensures emails[i].uid in m.messages && Agrees(emails[i], m.messages[emails[i].uid]) && emails[i].internalDate.Some?
    {
      assert uids[i] in rows;
    }
  }

  lemma ReadPartialKeepsInv(s: System, key: Key, uidvalidity: nat)
    requires Inv(s) && EventEnabled(s, ReadPartial(key, uidvalidity))
    ensures Inv(After(s, ReadPartial(key, uidvalidity)))
  {
    ReadRowsAreTrue(s, key, uidvalidity);
  }

  lemma WriteKeepsInv(s: System, what: Observed, rowLimit: nat, commit: CommitOutcome)
    requires Inv(s) && EventEnabled(s, Write(what, rowLimit, commit))
    ensures Inv(After(s, Write(what, rowLimit, commit)))
  {
    var w := ToSnapshot(what.observation);
    if Acceptable(w, rowLimit) && commit != NotCommitted {
      WrittenTablesAreTrue(s.server, s.tables, what.key, what.observation, rowLimit);
    }
  }

  lemma WrittenTablesAreTrue(
    server: map<Key, seq<Mailbox>>, t: Tables, key: Key, o: Observation, rowLimit: nat)
    requires TrueTables(server, t) && key in server && 0 < |server[key]| && TrueObservation(server[key], o)
    requires o.state.uidvalidity.Some? && o.state.uidnext.Some? && Acceptable(ToSnapshot(o), rowLimit)
    ensures TrueTables(server, Replaced(t, key, ToSnapshot(o)))
  {
    var w := ToSnapshot(o);
    var t' := Replaced(t, key, w);
    ReplacedIsConsistent(t, key, w);
    forall e, u | e in t'.messages && u in t'.messages[e]
      ensures e.mailbox.key in server && TrueRow(server[e.mailbox.key], e.uidvalidity, EmailOf(u, t'.messages[e][u]))
    {
      if e == Epoch(MailboxId(key), w.uidvalidity) {
        WrittenRowIsTrue(server[key], o, u);
      } else {
        assert e in t.messages && t'.messages[e] == t.messages[e];
      }
    }
    forall id | id in t'.coverage ensures id.key in server && TrueCoverage(server[id.key], t', id.key) {
      if id == MailboxId(key) {
        WrittenCoverageIsTrue(server[key], t, key, o);
      } else {
        OtherCoverageStaysTrue(server, t, key, w, id);
      }
    }
  }

  lemma OtherCoverageStaysTrue(server: map<Key, seq<Mailbox>>, t: Tables, key: Key, w: Snapshot, id: MailboxId)
    requires TrueTables(server, t) && Storable(w.emails)
    requires id != MailboxId(key) && id in Replaced(t, key, w).coverage
    ensures id.key in server && TrueCoverage(server[id.key], Replaced(t, key, w), id.key)
  {
  }

  lemma WrittenRowIsTrue(h: seq<Mailbox>, o: Observation, u: nat)
    requires 0 < |h| && TrueObservation(h, o)
    requires o.state.uidvalidity.Some? && Storable(o.emails) && u in RowsByUid(o.emails)
    ensures TrueRow(h, o.state.uidvalidity.value, EmailOf(u, RowsByUid(o.emails)[u]))
  {
    RowsByUidAreExact(o.emails);
    var i :| 0 <= i < |o.emails| && Uids(o.emails)[i] == u;
    assert IsRowFor(RowsByUid(o.emails), o.emails[i]);
    assert EmailOf(u, RowsByUid(o.emails)[u]) == o.emails[i];
  }

  lemma WrittenCoverageIsTrue(h: seq<Mailbox>, t: Tables, key: Key, o: Observation)
    requires 0 < |h| && TrueObservation(h, o) && Storable(o.emails)
    requires o.state.uidvalidity.Some? && o.state.uidnext.Some?
    ensures TrueCoverage(h, Replaced(t, key, ToSnapshot(o)), key)
  {
    var t' := Replaced(t, key, ToSnapshot(o));
    assert t'.RowsAt(key, o.state.uidvalidity.value) == RowsByUid(o.emails);
    if o.complete {
      var i :| 0 <= i < |h| && CompleteAt(h[i], o);
      ListedRows(h[i], o.emails);
      assert CoverageMatches(h[i], t'.coverage[MailboxId(key)], RowsByUid(o.emails));
    }
  }

  lemma ListedRows(m: Mailbox, emails: seq<Email>)
    requires Lists(emails, m.messages) && HaveInternalDates(emails) && Storable(emails)
    ensures RowsOf(m, RowsByUid(emails))
  {
    var rows := RowsByUid(emails);
    RowsByUidAreExact(emails);
    assert rows.Keys == Elements(Uids(emails));
    forall u | u in rows ensures rows[u].internalDate.Some? && Agrees(EmailOf(u, rows[u]), m.messages[u]) {
      var k :| 0 <= k < |emails| && Uids(emails)[k] == u;
      assert IsRowFor(rows, emails[k]);
    }
  }

  lemma LessCoverageKeepsInv(s: System, keys: set<Key>)
    requires Inv(s)
    ensures Inv(s.(tables := WithoutCoverage(s.tables, keys)))
  {
  }

  lemma DropAccountKeepsInv(s: System, account: string)
    requires Inv(s)
    ensures Inv(s.(tables := WithoutAccount(s.tables, account)))
  {
    var t' := WithoutAccount(s.tables, account);
    forall e | e in t'.messages ensures t'.Owned(e.mailbox, e.uidvalidity) {
      assert s.tables.Owned(e.mailbox, e.uidvalidity);
    }
    forall id | id in t'.coverage
      ensures t'.Owned(id, t'.coverage[id].uidvalidity) && TrueCoverage(s.server[id.key], t', id.key)
    {
      assert s.tables.Owned(id, s.tables.coverage[id].uidvalidity);
      assert id == MailboxId(id.key) && TrueCoverage(s.server[id.key], s.tables, id.key);
      assert t'.RowsAt(id.key, t'.coverage[id].uidvalidity) == s.tables.RowsAt(id.key, t'.coverage[id].uidvalidity);
    }
  }

  lemma EventKeepsInv(s: System, event: Event)
    requires Inv(s) && EventEnabled(s, event)
    ensures Inv(After(s, event))
  {
    match event
    case ServerActs(key, action) => ServerActsKeepsInv(s, key, action);
    case Observe(key, o) => ObserveKeepsInv(s, key, o);
    case ReadBaseline(key, v) => ReadBaselineKeepsInv(s, key, v);
    case ReadPartial(key, v) => ReadPartialKeepsInv(s, key, v);
    case Merge(from, delta, rowLimit) => MergeKeepsInv(s, from, delta, rowLimit);
    case Write(what, rowLimit, commit) => WriteKeepsInv(s, what, rowLimit, commit);
    case InvalidateMailboxes(keys) => LessCoverageKeepsInv(s, keys);
    case InvalidateAccount(account) => LessCoverageKeepsInv(s, AccountKeys(s.tables, account));
    case DropAccount(account) => DropAccountKeepsInv(s, account);
  }

  /** Enabled events in any order, one after the other. */
  ghost predicate Path(states: seq<System>, events: seq<Event>) {
    && |states| == |events| + 1
    && forall i :: 0 <= i < |events| ==> EventEnabled(states[i], events[i]) && states[i + 1] == After(states[i], events[i])
  }

  /** A finite run is a path from an initial system. */
  ghost predicate Run(states: seq<System>, events: seq<Event>) {
    Path(states, events) && Initial(states[0])
  }

  ghost predicate Reaches(s: System, s': System) {
    exists states, events :: Path(states, events) && states[0] == s && Last(states) == s'
  }

  /** Along a path the invariant is kept and every history only grows. */
  lemma {:induction false} PathKeepsInv(states: seq<System>, events: seq<Event>)
    requires Path(states, events) && Inv(states[0])
    ensures Inv(Last(states))
    ensures forall k :: k in states[0].server ==>
      k in Last(states).server && states[0].server[k] <= Last(states).server[k]
    decreases |events|
  {
    if events != [] {
      var n := |events| - 1;
      PathKeepsInv(states[..n + 1], events[..n]);
      assert Last(states[..n + 1]) == states[n];
      EventKeepsInv(states[n], events[n]);
    }
  }

  lemma ReachesGrows(s: System, s': System, key: Key)
    requires Inv(s) && Reaches(s, s') && key in s.server
    ensures Inv(s') && key in s'.server && s.server[key] <= s'.server[key]
  {
    var states, events :| Path(states, events) && states[0] == s && Last(states) == s';
    PathKeepsInv(states, events);
  }

  lemma RunKeepsInv(states: seq<System>, events: seq<Event>)
    requires Run(states, events)
    ensures Inv(Last(states))
  {
    InitialInv(states[0]);
    PathKeepsInv(states, events);
  }

  /** A hit is a memory of some state that had the requested status. */
  lemma HitIsAPastState(
    server: map<Key, seq<Mailbox>>, t: Tables, key: Key, uidvalidity: nat, uidnext: nat, messageCount: nat)
    returns (i: nat)
    requires TrueTables(server, t) && CompleteRead(t, key, uidvalidity, uidnext, messageCount).Some?
    ensures key in server && i < |server[key]|
    ensures server[key][i].Status() == MailboxState(Some(uidvalidity), Some(uidnext), messageCount)
    ensures Lists(CompleteRead(t, key, uidvalidity, uidnext, messageCount).value, server[key][i].messages)
    ensures HaveInternalDates(CompleteRead(t, key, uidvalidity, uidnext, messageCount).value)
  {
    var c := t.coverage[MailboxId(key)];
    var rows := t.RowsAt(key, uidvalidity);
    assert TrueCoverage(server[key], t, key);
    i :| 0 <= i < |server[key]| && CoverageMatches(server[key][i], c, rows);
    RowsList(server[key][i], rows);
  }

  /** A hit for the status the mailbox had at any moment lists that moment's messages. */
  lemma HitListsTheQualifiedState(server: map<Key, seq<Mailbox>>, t: Tables, key: Key, at: nat)
    requires TrueTables(server, t) && key in server && History(server[key]) && at < |server[key]|
    requires HitFor(t, key, server[key][at]).Some?
    ensures Lists(HitFor(t, key, server[key][at]).value, server[key][at].messages)
    ensures HaveInternalDates(HitFor(t, key, server[key][at]).value)
  {
    var h := server[key];
    var i := HitIsAPastState(server, t, key, h[at].uidvalidity, h[at].uidnext, |h[at].messages|);
    if i <= at {
      StatusNamesContents(h, i, i, at);
    } else {
      StatusNamesContents(h, at, at, i);
    }
  }

  /** What the cache answers when it is qualified by a mailbox state. */
  ghost function HitFor(t: Tables, key: Key, m: Mailbox): Option<seq<Email>> {
    CompleteRead(t, key, m.uidvalidity, m.uidnext, |m.messages|)
  }

  /** The cache agrees with the mailbox over every run: in every reachable system, if the complete
      read is a hit for the mailbox's current status, its rows are exactly the messages now in the
      mailbox, each once, with their current headers. */
  lemma CacheAgreesWithMailbox(states: seq<System>, events: seq<Event>, key: Key)
    requires Run(states, events) && key in Last(states).server && 0 < |Last(states).server[key]|
    requires HitFor(Last(states).tables, key, Last(Last(states).server[key])).Some?
    ensures var now := Last(Last(states).server[key]);
      Lists(HitFor(Last(states).tables, key, now).value, now.messages)
  {
    RunKeepsInv(states, events);
    InvGivesAgreement(Last(states), key);
  }

  lemma InvGivesAgreement(s: System, key: Key)
    requires Inv(s) && key in s.server && 0 < |s.server[key]|
    requires HitFor(s.tables, key, Last(s.server[key])).Some?
    ensures Lists(HitFor(s.tables, key, Last(s.server[key])).value, Last(s.server[key]).messages)
  {
    HitListsTheQualifiedState(s.server, s.tables, key, |s.server[key]| - 1);
  }
}
