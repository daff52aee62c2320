/** The metadata query workflow: qualify the cache, extend it, refresh it or hand over to the
    provider.  Every other party may act between any two of its port calls. */
module MetadataQuery {
  import opened Collections
  import opened Imap
  import opened MetadataTables
  import opened MetadataMerge
  import opened CacheRuns
  import opened Paging
  import opened Wrappers

  datatype Answer<+T> = Got(value: T) | Failed | TooBroad

  datatype Account = Account(managed: bool, localSearch: bool)

  /** What each port answers during one call.  A port that is never asked may hold any answer. */
  datatype Ports = Ports(
    indexOpens: bool,
    firstAccess: Answer<Matcher>,
    state: Answer<MailboxState>,
    complete: Answer<Option<seq<Email>>>,
    secondAccess: Answer<Matcher>,
    baseline: Answer<Option<Baseline>>,
    delta: nat -> Answer<UidDelta>,
    partial: Answer<Option<seq<Email>>>,
    snapshot: (seq<Email>, Option<nat>) -> Answer<Observation>,
    stored: bool,
    flags: bool,
    provider: Answer<Response>)

  /** Where an answer comes from. */
  datatype Evidence = Cached | Extended | Refreshed | Delegated

  datatype Result =
    | Page(response: Response, evidence: Evidence, writeFailed: bool)
    | Invalid
    | ProjectionError
    | ProviderError
    | QueryTooBroad

  datatype Loaded =
    | Loaded(snapshot: Observation, incremental: bool, refreshFlags: bool)
    | UseProvider
    | Raise(error: Result)

  /** The systems in which the ports are asked, in order. */
  const STATUS := 0
  const READ := 1
  const BASELINE := 2
  const DELTA := 3
  const PARTIAL_ROWS := 4
  const SNAPSHOT := 5
  const MOMENTS := 6

  /** Any number of events, by anyone, lead from one system to the next. */
  ghost predicate Unfolds(at: seq<System>, key: Key) {
    && |at| == MOMENTS
    && Inv(at[0])
    && key in at[0].server
    && forall k :: 0 < k < |at| ==> Reaches(at[k - 1], at[k])
  }

  lemma UnfoldsTo(at: seq<System>, key: Key, i: nat, k: nat)
    requires Unfolds(at, key) && i <= k < |at|
    ensures Inv(at[k]) && key in at[i].server && key in at[k].server && at[i].server[key] <= at[k].server[key]
    ensures 0 < |at[i].server[key]|
    decreases k
  {
    if i < k {
      UnfoldsTo(at, key, i, k - 1);
      assert Reaches(at[k - 1], at[k]);
      ReachesGrows(at[k - 1], at[k], key);
    } else if 0 < k {
      UnfoldsTo(at, key, k - 1, k - 1);
      assert Reaches(at[k - 1], at[k]);
      ReachesGrows(at[k - 1], at[k], key);
    }
  }

  /** A state as a client may see it: a server can leave out either counter. */
  predicate Shows(m: Mailbox, state: MailboxState) {
    && state.messageCount == |m.messages|
    && (state.uidvalidity.Some? ==> state.uidvalidity.value == m.uidvalidity)
    && (state.uidnext.Some? ==> state.uidnext.value == m.uidnext)
  }

  predicate EpochObserved(state: MailboxState) {
    state.uidvalidity.Some? && state.uidnext.Some?
  }

  ghost predicate Now(s: System, key: Key, m: Mailbox) {
    key in s.server && 0 < |s.server[key]| && m == Last(s.server[key])
  }

  /** What the ports may be trusted with.  A status is the status of that moment, the projection
      answers from its tables, a resumable delta is a stable fetch, and a refresh fetches its rows,
      except those it was given to retain for the epoch it observes. */
  ghost predicate Truthful(ports: Ports, key: Key, at: seq<System>)
    requires Unfolds(at, key)
  {
    && (forall m :: ports.state.Got? && Now(at[STATUS], key, m) ==> Shows(m, ports.state.value))
    && (ports.state.Got? && ports.complete.Got? && EpochObserved(ports.state.value) ==>
          ports.complete.value == ReadFor(at[READ].tables, key, ports.state.value))
    && (ports.state.Got? && ports.baseline.Got? && ports.state.value.uidvalidity.Some? ==>
          ports.baseline.value == BaselineRead(at[BASELINE].tables, key, ports.state.value.uidvalidity.value))
    && (forall floor, m :: Now(at[DELTA], key, m) ==> TrueDelta(ports.delta(floor), key, floor, m))
    && (ports.state.Got? && ports.partial.Got? && ports.state.value.uidvalidity.Some? ==>
          ports.partial.value == PartialRead(at[PARTIAL_ROWS].tables, key, ports.state.value.uidvalidity.value))
    && (forall retained, v :: key in at[SNAPSHOT].server && 0 < |at[SNAPSHOT].server[key]| ==>
          TrueRefresh(ports.snapshot(retained, v), at[SNAPSHOT].server[key], retained, v))
  }

  ghost function ReadFor(t: Tables, key: Key, state: MailboxState): Option<seq<Email>>
    requires EpochObserved(state)
  {
    CompleteRead(t, key, state.uidvalidity.value, state.uidnext.value, state.messageCount)
  }

  predicate TrueDelta(answer: Answer<UidDelta>, key: Key, floor: nat, m: Mailbox) {
    answer.Got? && answer.value.resumable && EpochObserved(answer.value.state) && answer.value.mailbox == key.name ==>
      DeltaOf(m, key.name, floor, answer.value)
  }

  ghost predicate TrueRefresh(
    answer: Answer<Observation>, h: seq<Mailbox>, retained: seq<Email>, retainedEpoch: Option<nat>)
    requires 0 < |h|
  {
    answer.Got? ==>
      var o := answer.value;
      && (forall i :: 0 <= i < |o.emails| ==> FetchedOrRetained(h, o.state, o.emails[i], retained, retainedEpoch))
      && (o.complete ==>
            && Shows(Last(h), o.state)
            && Distinct(Uids(o.emails)) && Elements(Uids(o.emails)) == Last(h).messages.Keys
            && HaveInternalDates(o.emails)
            && (o.state.uidvalidity.None? ==> AllAgree(o.emails, Last(h).messages)))
  }

  /** A retained row is used only for the very UIDVALIDITY it was stored under. */
  ghost predicate FetchedOrRetained(
    h: seq<Mailbox>, state: MailboxState, e: Email, retained: seq<Email>, retainedEpoch: Option<nat>)
    requires 0 < |h|
  {
    state.uidvalidity.Some? ==>
      || TrueRow(h, state.uidvalidity.value, e)
      || (e in retained && retainedEpoch == state.uidvalidity)
  }

  /** The checks every provider observation passes before it is used. */
  predicate SnapshotValid(query: Query, o: Observation, rowLimit: nat) {
    && o.state.uidvalidity != Some(0) && o.state.uidnext != Some(0)
    && o.mailbox == query.key.name
    && |o.emails| <= rowLimit
    && 0 !in Uids(o.emails) && Distinct(Uids(o.emails))
    && (o.complete ==>
          && |o.emails| == o.state.messageCount
          && (o.state.uidnext.Some? ==> forall u :: u in Uids(o.emails) ==> u < o.state.uidnext.value)
          && HaveInternalDates(o.emails))
  }

  /** Rows kept for a refresh; a To query keeps only rows that stored that header. */
  function ReusableRows(query: Query, rows: seq<Email>): (kept: seq<Email>)
    ensures forall e :: e in kept ==> e in rows
  {
    if !Given(query.toAddress) || rows == [] then rows
    else (if rows[0].headers.toAddresses.Some? then [rows[0]] else []) + ReusableRows(query, rows[1..])
  }

  /** The snapshot is a complete listing of one state within the call. */
  ghost predicate Witnessed(at: seq<System>, key: Key, o: Observation)
    requires Unfolds(at, key)
  {
    exists m :: Moment(at, key, m) && Lists(o.emails, m.messages) && HaveInternalDates(o.emails)
  }

  /** A state the mailbox was in at some point between the first port call and the last. */
  ghost predicate Moment(at: seq<System>, key: Key, m: Mailbox)
    requires Unfolds(at, key)
  {
    UnfoldsTo(at, key, 0, SNAPSHOT);
    var h := at[SNAPSHOT].server[key];
    exists i :: |at[STATUS].server[key]| - 1 <= i < |h| && m == h[i]
  }

  lemma LastIsMoment(at: seq<System>, key: Key, k: nat)
    requires Unfolds(at, key) && k < MOMENTS
    ensures key in at[k].server && 0 < |at[k].server[key]| && Moment(at, key, Last(at[k].server[key]))
  {
    UnfoldsTo(at, key, 0, k);
    UnfoldsTo(at, key, k, SNAPSHOT);
    UnfoldsTo(at, key, 0, SNAPSHOT);
    var h := at[SNAPSHOT].server[key];
    assert h[|at[k].server[key]| - 1] == Last(at[k].server[key]);
  }

  /** A page that was not delegated is the page of one of those states, filtered with the sender policy
      that the account authority gave for this very access. */
  ghost predicate ServesAMoment(query: Query, ports: Ports, at: seq<System>, r: Result)
    requires query.Valid() && Unfolds(at, query.key)
  {
    r.Page? && r.evidence != Delegated ==>
      && PolicyFor(ports, r.evidence).Got?
      && exists m :: Moment(at, query.key, m) && r.response == MailboxPage(query, PolicyFor(ports, r.evidence).value, m)
  }

  /** A hit is filtered as the first access says, everything loaded afterwards as the second. */
  function PolicyFor(ports: Ports, evidence: Evidence): Answer<Matcher> {
    if evidence == Cached then ports.firstAccess else ports.secondAccess
  }

  /** An observation the cache may store: its rows are true, and if it claims completeness it is. */
  ghost predicate MayBeStored(at: seq<System>, key: Key, o: Observation)
    requires Unfolds(at, key)
  {
    UnfoldsTo(at, key, SNAPSHOT, SNAPSHOT);
    EpochObserved(o.state) ==> TrueObservation(at[SNAPSHOT].server[key], o)
  }

  /** A hit serves the very state that qualified it. */
  lemma CachedRows(ports: Ports, key: Key, at: seq<System>, m: Mailbox)
    requires Unfolds(at, key) && Truthful(ports, key, at)
    requires ports.state.Got? && EpochObserved(ports.state.value)
    requires ports.complete.Got? && ports.complete.value.Some?
    requires Now(at[STATUS], key, m)
    ensures Lists(ports.complete.value.value, m.messages) && HaveInternalDates(ports.complete.value.value)
  {
    UnfoldsTo(at, key, STATUS, READ);
    var h := at[READ].server[key];
    var n := |at[STATUS].server[key]| - 1;
    assert h[n] == m;
    assert HitFor(at[READ].tables, key, h[n]) == ports.complete.value;
    HitListsTheQualifiedState(at[READ].server, at[READ].tables, key, n);
  }

  /** An append-only extension lists the state its delta was fetched in. */
  lemma ExtendedRows(ports: Ports, key: Key, at: seq<System>, rowLimit: nat, b: Baseline, delta: UidDelta)
    requires Unfolds(at, key) && Truthful(ports, key, at)
    requires ports.state.Got? && ports.state.value.uidvalidity.Some?
    requires ports.baseline == Got(Some(b))
    requires ports.delta(Floor(ToBaseline(b))) == Got(delta)
    requires Mergeable(key.name, ToBaseline(b), delta, rowLimit)
    ensures var o := Observation(delta.state, delta.mailbox, delta.delimiter, delta.attributes, b.emails + delta.emails, true);
      Witnessed(at, key, o) && MayBeStored(at, key, o)
  {
    var baseline := ToBaseline(b);
    var i := BaselineMoment(ports, key, at, b);
    var h := at[DELTA].server[key];
    var n := |h| - 1;
    assert Now(at[DELTA], key, h[n]);
    assert TrueDelta(ports.delta(Floor(baseline)), key, Floor(baseline), h[n]);
    UnfoldsTo(at, key, DELTA, DELTA);
    MergeIsExact(h, i, n, key.name, baseline, delta, rowLimit);
    LastIsMoment(at, key, DELTA);
    var o := Observation(delta.state, delta.mailbox, delta.delimiter, delta.attributes, b.emails + delta.emails, true);
    JoinedDates(b.emails, delta.emails);
    assert CompleteAt(h[n], o);
    CompleteStaysTrue(at, key, DELTA, o);
  }

  lemma BaselineMoment(ports: Ports, key: Key, at: seq<System>, b: Baseline) returns (i: nat)
    requires Unfolds(at, key) && Truthful(ports, key, at)
    requires ports.state.Got? && ports.state.value.uidvalidity.Some?
    requires ports.baseline == Got(Some(b))
    ensures key in at[DELTA].server && i < |at[DELTA].server[key]|
    ensures BaselineOf(at[DELTA].server[key][i], ToBaseline(b))
  {
    UnfoldsTo(at, key, BASELINE, DELTA);
    var earlier := at[BASELINE].server[key];
    TablesAreTrue(at, key, BASELINE);
    BaselineReadIsTrue(at[BASELINE].server, at[BASELINE].tables, key, ports.state.value.uidvalidity.value);
    i :| 0 <= i < |earlier| && BaselineOf(earlier[i], ToBaseline(b));
  }

  lemma TablesAreTrue(at: seq<System>, key: Key, k: nat)
    requires Unfolds(at, key) && k < MOMENTS
    ensures TrueTables(at[k].server, at[k].tables)
  {
    UnfoldsTo(at, key, k, k);
  }

  /** What was completely observed at one moment is a true observation for ever after. */
  lemma CompleteStaysTrue(at: seq<System>, key: Key, k: nat, o: Observation)
    requires Unfolds(at, key) && k < MOMENTS
    requires key in at[k].server && 0 < |at[k].server[key]| && CompleteAt(Last(at[k].server[key]), o)
    ensures MayBeStored(at, key, o)
  {
    UnfoldsTo(at, key, k, SNAPSHOT);
    var h := at[SNAPSHOT].server[key];
    var n := |at[k].server[key]| - 1;
    assert h[n] == Last(at[k].server[key]);
    CompleteIsTrue(h, n, o);
  }

  /** Rows to retain are true rows of the epoch they are retained for. */
  ghost predicate Retainable(h: seq<Mailbox>, retained: seq<Email>, v: Option<nat>)
    requires 0 < |h|
  {
    v.Some? ==> forall e :: e in retained ==> TrueRow(h, v.value, e)
  }

  lemma RefreshedRows(
    key: Key, at: seq<System>, answer: Answer<Observation>, retained: seq<Email>, v: Option<nat>)
    requires Unfolds(at, key) && key in at[SNAPSHOT].server && 0 < |at[SNAPSHOT].server[key]|
    requires Retainable(at[SNAPSHOT].server[key], retained, v)
    requires answer.Got? && TrueRefresh(answer, at[SNAPSHOT].server[key], retained, v)
    ensures answer.value.complete ==> Witnessed(at, key, answer.value)
    ensures MayBeStored(at, key, answer.value)
  {
    var o := answer.value;
    var h := at[SNAPSHOT].server[key];
    UnfoldsTo(at, key, SNAPSHOT, SNAPSHOT);
    forall i | 0 <= i < |o.emails| && o.state.uidvalidity.Some?
      ensures TrueRow(h, o.state.uidvalidity.value, o.emails[i])
    {
      assert FetchedOrRetained(h, o.state, o.emails[i], retained, v);
    }
    if o.complete {
      RefreshLists(h, o);
      LastIsMoment(at, key, SNAPSHOT);
      if EpochObserved(o.state) {
        assert CompleteAt(h[|h| - 1], o);
      }
    }
  }

  lemma RefreshLists(h: seq<Mailbox>, o: Observation)
    requires History(h) && o.complete && Shows(Last(h), o.state)
    requires Distinct(Uids(o.emails)) && Elements(Uids(o.emails)) == Last(h).messages.Keys
    requires o.state.uidvalidity.None? ==> AllAgree(o.emails, Last(h).messages)
    requires o.state.uidvalidity.Some? ==>
      forall i :: 0 <= i < |o.emails| ==> TrueRow(h, o.state.uidvalidity.value, o.emails[i])
    ensures Lists(o.emails, Last(h).messages)
  {
    if o.state.uidvalidity.Some? {
      forall i | 0 <= i < |o.emails|
        ensures o.emails[i].uid in Last(h).messages && Agrees(o.emails[i], Last(h).messages[o.emails[i].uid])
      {
        assert Uids(o.emails)[i] in Elements(Uids(o.emails));
        TrueRowIsCurrent(h, o.emails[i]);
      }
    }
  }

  /** Rows read at one moment, from a baseline or a partial window, may be retained until the end. */
  lemma ReadRowsAreRetainable(at: seq<System>, key: Key, k: nat, v: nat, emails: seq<Email>, retained: seq<Email>)
    requires Unfolds(at, key) && k < MOMENTS
    requires
      || (BaselineRead(at[k].tables, key, v).Some? && emails == BaselineRead(at[k].tables, key, v).value.emails)
      || PartialRead(at[k].tables, key, v) == Some(emails)
    requires forall e :: e in retained ==> e in emails
    ensures key in at[SNAPSHOT].server && 0 < |at[SNAPSHOT].server[key]|
    ensures Retainable(at[SNAPSHOT].server[key], retained, Some(v))
  {
    HistoryGrows(at, key, k);
    ReadIsDescending(at[k].tables, key, v, emails);
    RowsReadAreTrue(at, key, k, v);
    var h, h' := at[k].server[key], at[SNAPSHOT].server[key];
    forall e | e in retained ensures TrueRow(h', v, e) {
      TrueRowStaysTrue(h, h', v, e);
    }
  }

  lemma HistoryGrows(at: seq<System>, key: Key, k: nat)
    requires Unfolds(at, key) && k < MOMENTS
    ensures key in at[k].server && key in at[SNAPSHOT].server
    ensures 0 < |at[k].server[key]| && at[k].server[key] <= at[SNAPSHOT].server[key]
    ensures Last(at[k].server[key]).uidvalidity <= Last(at[SNAPSHOT].server[key]).uidvalidity
  {
    UnfoldsTo(at, key, k, SNAPSHOT);
    var h, h' := at[k].server[key], at[SNAPSHOT].server[key];
    assert h'[|h| - 1] == Last(h);
    HistoryIsMonotone(h', |h| - 1, |h'| - 1);
  }

  lemma ReadIsDescending(t: Tables, key: Key, v: nat, emails: seq<Email>)
    requires
      || (BaselineRead(t, key, v).Some? && emails == BaselineRead(t, key, v).value.emails)
      || PartialRead(t, key, v) == Some(emails)
    ensures key in t.mailboxes && MailboxId(key) in t.coverage && t.coverage[MailboxId(key)].uidvalidity == v
    ensures emails == DescendingEmails(t.RowsAt(key, v))
  {
  }

  lemma RowsReadAreTrue(at: seq<System>, key: Key, k: nat, v: nat)
    requires Unfolds(at, key) && k < MOMENTS && key in at[k].server && 0 < |at[k].server[key]|
    requires key in at[k].tables.mailboxes && MailboxId(key) in at[k].tables.coverage
    requires at[k].tables.coverage[MailboxId(key)].uidvalidity == v
    ensures forall e :: e in DescendingEmails(at[k].tables.RowsAt(key, v)) ==> TrueRow(at[k].server[key], v, e)
  {
    UnfoldsTo(at, key, k, k);
    ReadRowsAreTrue(at[k], key, v);
  }

  method FetchMailboxSnapshot(
    query: Query, ports: Ports, retained: seq<Email>, retainedEpoch: Option<nat>, requireEvidence: bool,
    ghost at: seq<System>) returns (r: Loaded)
    requires Unfolds(at, query.key) && Truthful(ports, query.key, at)
    requires forall h :: LastServer(at, query.key, h) ==> Retainable(h, retained, retainedEpoch)
    ensures LoadedTruly(at, query.key, r)
    ensures requireEvidence ==> !r.UseProvider?
    ensures r.Loaded? <==> ports.snapshot(retained, retainedEpoch).Got?
    ensures r.Loaded? ==> r == Loaded(ports.snapshot(retained, retainedEpoch).value, false, retained != [])
    ensures r.Raise? ==> r.error == QueryTooBroad || (requireEvidence && r.error == ProviderError)
  {
    UnfoldsTo(at, query.key, SNAPSHOT, SNAPSHOT);
    var answer := ports.snapshot(retained, retainedEpoch);
    match answer
    case TooBroad => r := Raise(QueryTooBroad);
    case Failed => r := if requireEvidence then Raise(ProviderError) else UseProvider;
    case Got(o) =>
      assert LastServer(at, query.key, at[SNAPSHOT].server[query.key]);
      RefreshedRows(query.key, at, answer, retained, retainedEpoch);
      r := Loaded(o, false, retained != []);
  }

  ghost predicate LastServer(at: seq<System>, key: Key, h: seq<Mailbox>)
    requires |at| == MOMENTS
  {
    key in at[SNAPSHOT].server && h == at[SNAPSHOT].server[key] && 0 < |h|
  }

  /** Whatever was loaded is fit to answer from if complete, and fit to store. */
  ghost predicate LoadedTruly(at: seq<System>, key: Key, r: Loaded)
    requires Unfolds(at, key)
  {
    r.Loaded? ==> (r.snapshot.complete ==> Witnessed(at, key, r.snapshot)) && MayBeStored(at, key, r.snapshot)
  }

  /** The cached epoch can be extended: both counters were seen, there is a baseline with room left, and
      what the provider has above its high-water mark merges into an answerable listing. */
  predicate Extends(query: Query, ports: Ports, rowLimit: nat) {
    && ports.state.Got? && EpochObserved(ports.state.value)
    && ports.baseline.Got? && ports.baseline.value.Some? && ports.baseline.value.value.messageCount < rowLimit
    && var held := ToBaseline(ports.baseline.value.value);
       var delta := ports.delta(Floor(held));
       && delta.Got? && Mergeable(query.key.name, held, delta.value, rowLimit)
       && CanAnswer(query, held.emails + delta.value.emails)
  }

  function Extension(query: Query, ports: Ports, rowLimit: nat): Observation
    requires Extends(query, ports, rowLimit)
  {
    var held := ToBaseline(ports.baseline.value.value);
    var delta := ports.delta(Floor(held)).value;
    Observation(delta.state, delta.mailbox, delta.delimiter, delta.attributes, held.emails + delta.emails, true)
  }

  /** Otherwise a refresh keeps the usable rows of the observed epoch, of a baseline before a window. */
  function RowsToKeep(query: Query, ports: Ports): seq<Email>
    requires ports.state.Got?
  {
    if ports.state.value.uidvalidity.None? then []
    else if ports.baseline.Got? && ports.baseline.value.Some? then ReusableRows(query, ports.baseline.value.value.emails)
    else if ports.partial.Got? && ports.partial.value.Some? then ReusableRows(query, ports.partial.value.value)
    else []
  }

  function Refresh(query: Query, ports: Ports): Answer<Observation>
    requires ports.state.Got?
  {
    var kept := RowsToKeep(query, ports);
    ports.snapshot(kept, if kept == [] then None else ports.state.value.uidvalidity)
  }

  /** Nothing on the way to a refresh failed in a way that ends the load. */
  ghost predicate MayRefresh(ports: Ports) {
    && ports.baseline.Got? && ports.partial.Got?
    && forall floor :: !ports.delta(floor).TooBroad?
  }

  /** Extend a complete cached epoch if that is provably exact, else refresh, reusing rows of the
      same epoch. */
  method LoadMailboxSnapshot(
    query: Query, account: Account, ports: Ports, state: MailboxState, requireEvidence: bool, rowLimit: nat,
    ghost at: seq<System>) returns (r: Loaded)
    requires Unfolds(at, query.key) && Truthful(ports, query.key, at) && ports.state == Got(state)
    ensures LoadedTruly(at, query.key, r)
    ensures Extends(query, ports, rowLimit) ==> r == Loaded(Extension(query, ports, rowLimit), true, false)
    ensures !Extends(query, ports, rowLimit) && r.Loaded? ==>
      Refresh(query, ports) == Got(r.snapshot) && !r.incremental && r.refreshFlags == (RowsToKeep(query, ports) != [])
    ensures MayRefresh(ports) && Refresh(query, ports).Got? ==> r.Loaded?
    ensures requireEvidence ==> !r.UseProvider?
    ensures r.Raise? ==>
      || r.error == QueryTooBroad
      || (r.error == ProviderError && requireEvidence)
      || (r.error == ProjectionError && account.managed && !requireEvidence)
  {
    if state.uidvalidity.None? {
      r := FetchMailboxSnapshot(query, ports, [], None, requireEvidence, at);
      return;
    }
    var v := state.uidvalidity.value;
    var baseline: Option<Baseline> := None;
    if ports.baseline.Got? {
      baseline := ports.baseline.value;
    } else if !requireEvidence {
      r := if account.managed then Raise(ProjectionError) else UseProvider;
      return;
    }
    if baseline.Some? && state.uidnext.Some? && baseline.value.messageCount < rowLimit {
      var held := ToBaseline(baseline.value);
      var delta := ports.delta(Floor(held));
      if delta.TooBroad? {
        return Raise(QueryTooBroad);
      }
      if delta.Got? {
        var merged := MergeAppendOnlySnapshot(query.key.name, held, delta.value, rowLimit);
        if merged.Some? && CanAnswer(query, merged.value.emails) {
          ExtendedRows(ports, query.key, at, rowLimit, baseline.value, delta.value);
          return Loaded(merged.value, true, false);
        }
      }
    }
    var retained: seq<Email> := [];
    if baseline.Some? {
      retained := ReusableRows(query, baseline.value.emails);
      ReadRowsAreRetainable(at, query.key, BASELINE, v, baseline.value.emails, retained);
    } else if ports.partial.Got? {
      if ports.partial.value.Some? {
        retained := ReusableRows(query, ports.partial.value.value);
        ReadRowsAreRetainable(at, query.key, PARTIAL_ROWS, v, ports.partial.value.value, retained);
      }
    } else if !requireEvidence {
      r := if account.managed then Raise(ProjectionError) else UseProvider;
      return;
    }
    r := FetchMailboxSnapshot(query, ports, retained, if retained == [] then None else Some(v), requireEvidence, at);
  }

  method ProviderFallback(ports: Ports, writeFailed: bool) returns (r: Result)
    ensures r == if ports.provider.Got? then Page(ports.provider.value, Delegated, writeFailed) else ProviderError
  {
    r := if ports.provider.Got? then Page(ports.provider.value, Delegated, writeFailed) else ProviderError;
  }

  predicate UsesLocalSearch(query: Query, account: Account) {
    account.localSearch && query.IsHeaderText()
  }

  predicate LocalSearchRejected(query: Query) {
    (Given(query.subject) || Given(query.fromAddress) || Given(query.toAddress)) && !query.IsHeaderText()
  }

  /** The cache has a complete listing for the observed status and it can answer the query. */
  predicate CacheHit(query: Query, account: Account, ports: Ports) {
    && query.Valid() && !(account.localSearch && LocalSearchRejected(query))
    && (query.IndexSupported() || UsesLocalSearch(query, account))
    && ports.indexOpens && ports.firstAccess.Got?
    && ports.state.Got? && EpochObserved(ports.state.value)
    && ports.complete.Got? && ports.complete.value.Some? && CanAnswer(query, ports.complete.value.value)
  }

  /** The page was computed from this complete observation of one state within the call. */
  ghost predicate AnswersFrom(query: Query, ports: Ports, at: seq<System>, o: Observation, r: Result)
    requires Unfolds(at, query.key)
  {
    && query.Valid() && r.Page? && ports.secondAccess.Got?
    && o.complete && Witnessed(at, query.key, o) && CanAnswer(query, o.emails)
    && r.response == PageResponse(query, ports.secondAccess.value, o.emails)
  }

  /** The flags of the rows of a page are read afresh; for an empty page nothing is asked. */
  predicate FlagsRead(response: Response, ports: Ports) {
    response.entries == [] || ports.flags
  }

  /** The cached page, with the flags of its rows read afresh. */
  function CachedAnswer(query: Query, ports: Ports): Result
    requires query.Valid() && ports.firstAccess.Got? && ports.complete.Got? && ports.complete.value.Some?
  {
    var response := PageResponse(query, ports.firstAccess.value, ports.complete.value.value);
    if FlagsRead(response, ports) then Page(response, Cached, false) else ProviderError
  }

  predicate HandsOver(ports: Ports, o: Observation, handed: Option<Observation>) {
    handed == if ports.indexOpens && EpochObserved(o.state) then Some(o) else None
  }

  /** What is handed to the cache is valid, dated by an observed epoch and true. */
  ghost predicate HandedTruly(query: Query, at: seq<System>, rowLimit: nat, handed: Option<Observation>)
    requires Unfolds(at, query.key)
  {
    handed.Some? ==>
      && EpochObserved(handed.value.state) && SnapshotValid(query, handed.value, rowLimit)
      && MayBeStored(at, query.key, handed.value)
  }

  predicate FromObservation(r: Result) {
    r.Page? && (r.evidence == Extended || r.evidence == Refreshed)
  }

  /** What was loaded is valid and complete, can answer the query, and stale flags could be read afresh. */
  predicate Answerable(query: Query, ports: Ports, loaded: Loaded, rowLimit: nat)
    requires query.Valid() && ports.secondAccess.Got?
  {
    && loaded.Loaded? && SnapshotValid(query, loaded.snapshot, rowLimit)
    && loaded.snapshot.complete && CanAnswer(query, loaded.snapshot.emails)
    && (loaded.incremental || loaded.refreshFlags ==>
          FlagsRead(PageResponse(query, ports.secondAccess.value, loaded.snapshot.emails), ports))
  }

  function LoadedAnswer(query: Query, ports: Ports, loaded: Loaded): Result
    requires query.Valid() && ports.secondAccess.Got? && loaded.Loaded?
  {
    Page(PageResponse(query, ports.secondAccess.value, loaded.snapshot.emails),
         if loaded.incremental then Extended else Refreshed,
         ports.indexOpens && EpochObserved(loaded.snapshot.state) && !ports.stored)
  }

  /** Validate what was loaded, hand it to the cache and answer from it if it is complete. */
  method AnswerLoaded(query: Query, ports: Ports, loaded: Loaded, local: bool, rowLimit: nat, ghost at: seq<System>)
    returns (r: Result, handed: Option<Observation>)
    requires query.Valid() && ports.secondAccess.Got? && Unfolds(at, query.key)
    requires LoadedTruly(at, query.key, loaded) && (local ==> !loaded.UseProvider?)
    requires loaded.Raise? ==> loaded.error in {QueryTooBroad, ProviderError, ProjectionError}
    ensures ServesAMoment(query, ports, at, r) && HandedTruly(query, at, rowLimit, handed)
    ensures r.Page? ==> r.evidence != Cached && (local ==> r.evidence != Delegated)
    ensures r.Page? && r.evidence == Delegated ==> ports.provider == Got(r.response)
    ensures FromObservation(r) ==> exists o :: AnswersFrom(query, ports, at, o, r) && HandsOver(ports, o, handed)
    ensures r.Page? && r.writeFailed ==> handed.Some? && !ports.stored
    ensures Answerable(query, ports, loaded, rowLimit) ==> r == LoadedAnswer(query, ports, loaded)
    ensures r.ProjectionError? ==> loaded == Raise(ProjectionError)
    ensures !r.Invalid?
  {
    handed := None;
    match loaded
    case Raise(error) => r := error;
    case UseProvider => r := ProviderFallback(ports, false);
    case Loaded(snapshot, incremental, refreshFlags) =>
      if !SnapshotValid(query, snapshot, rowLimit) {
        return ProviderError, None;
      }
      var writeFailed := false;
      if ports.indexOpens && EpochObserved(snapshot.state) {
        handed := Some(snapshot);
        writeFailed := !ports.stored;
      }
      if snapshot.complete && CanAnswer(query, snapshot.emails) {
        LoadedPage(query, ports.secondAccess.value, at, snapshot);
        var response := PageResponse(query, ports.secondAccess.value, snapshot.emails);
        r := if (incremental || refreshFlags) && !FlagsRead(response, ports) then ProviderError
             else Page(response, if incremental then Extended else Refreshed, writeFailed);
        assert r.Page? ==> AnswersFrom(query, ports, at, snapshot, r) && HandsOver(ports, snapshot, handed);
      } else if local {
        r := QueryTooBroad;
      } else {
        r := ProviderFallback(ports, writeFailed);
      }
  }

  /** The call gets past the cache without a hit and without a failure that ends it. */
  predicate Loads(query: Query, account: Account, ports: Ports) {
    && query.Valid() && !(account.localSearch && LocalSearchRejected(query))
    && (query.IndexSupported() || UsesLocalSearch(query, account))
    && ports.indexOpens && ports.firstAccess.Got? && ports.state.Got? && ports.complete.Got?
    && !CacheHit(query, account, ports) && ports.secondAccess.Got?
  }

  /** What it then loads, when nothing fails: the extension if there is one, a refresh otherwise. */
  ghost function WouldLoad(query: Query, ports: Ports, rowLimit: nat): Option<Loaded>
    requires ports.state.Got?
  {
    if Extends(query, ports, rowLimit) then Some(Loaded(Extension(query, ports, rowLimit), true, false))
    else if MayRefresh(ports) && Refresh(query, ports).Got? then
      Some(Loaded(Refresh(query, ports).value, false, RowsToKeep(query, ports) != []))
    else None
  }

  /** How far a call gets before it loads anything. */
  datatype Qualified = Stop(result: Result) | Hit | Load

  /** Open the cache, ask the provider for the mailbox status and look for a complete listing of it. */
  method Qualify(query: Query, account: Account, ports: Ports) returns (r: Qualified)
    ensures r.Hit? <==> CacheHit(query, account, ports)
    ensures Loads(query, account, ports) ==> r.Load?
    ensures r.Load? ==>
      && query.Valid() && !(account.localSearch && LocalSearchRejected(query)) && ports.state.Got?
      && (ports.indexOpens || UsesLocalSearch(query, account))
    ensures r.Stop? ==> StopsSafely(query, account, ports, r.result)
  {
    if !query.Valid() || (account.localSearch && LocalSearchRejected(query)) {
      return Stop(Invalid);
    }
    var local := UsesLocalSearch(query, account);
    if !query.IndexSupported() && !local {
      var fallback := ProviderFallback(ports, false);
      return Stop(fallback);
    }
    if !ports.indexOpens && !local {
      if account.managed {
        return Stop(ProjectionError);
      }
      var fallback := ProviderFallback(ports, false);
      return Stop(fallback);
    }
    if !ports.firstAccess.Got? {
      return Stop(ProviderError);
    }
    if !ports.state.Got? {
      if local {
        return Stop(ProviderError);
      }
      var fallback := ProviderFallback(ports, false);
      return Stop(fallback);
    }
    var indexed: Option<seq<Email>> := None;
    if ports.indexOpens && EpochObserved(ports.state.value) {
      if ports.complete.Got? {
        indexed := ports.complete.value;
      } else if !local {
        if account.managed {
          return Stop(ProjectionError);
        }
        var fallback := ProviderFallback(ports, false);
        return Stop(fallback);
      }
    }
    r := if indexed.Some? && CanAnswer(query, indexed.value) then Hit else Load;
  }

  /** A call that stops early delegates to the provider or reports an error, each only where it may. */
  predicate StopsSafely(query: Query, account: Account, ports: Ports, r: Result) {
    && (r.Invalid? <==> !query.Valid() || (account.localSearch && LocalSearchRejected(query)))
    && (r.Page? ==>
          r.evidence == Delegated && ports.provider == Got(r.response) && !r.writeFailed
          && !UsesLocalSearch(query, account))
    && (r.ProjectionError? ==> account.managed && !UsesLocalSearch(query, account))
  }

  /** Resolve the account again, load the mailbox and answer from what was loaded. */
  method LoadAndAnswer(query: Query, account: Account, ports: Ports, rowLimit: nat, ghost at: seq<System>)
    returns (r: Result, handed: Option<Observation>)
    requires query.Valid() && Unfolds(at, query.key) && Truthful(ports, query.key, at)
    requires ports.state.Got? && (ports.indexOpens || UsesLocalSearch(query, account))
    ensures ServesAMoment(query, ports, at, r) && HandedTruly(query, at, rowLimit, handed)
    ensures r.Page? ==> r.evidence != Cached && (UsesLocalSearch(query, account) ==> r.evidence != Delegated)
    ensures r.Page? && r.evidence == Delegated ==> ports.provider == Got(r.response)
    ensures FromObservation(r) ==> exists o :: AnswersFrom(query, ports, at, o, r) && HandsOver(ports, o, handed)
    ensures LoadsAsExpected(query, account, ports, rowLimit, r)
    ensures r.Page? && r.writeFailed ==> handed.Some? && !ports.stored
    ensures r.ProjectionError? ==> account.managed && !UsesLocalSearch(query, account)
    ensures !r.Invalid?
  {
    if !ports.secondAccess.Got? {
      return ProviderError, None;
    }
    var local := UsesLocalSearch(query, account);
    var loaded: Loaded;
    if ports.indexOpens {
      loaded := LoadMailboxSnapshot(query, account, ports, ports.state.value, local, rowLimit, at);
    } else {
      loaded := FetchMailboxSnapshot(query, ports, [], None, true, at);
    }
    r, handed := AnswerLoaded(query, ports, loaded, local, rowLimit, at);
  }

  /** When nothing fails, the extension is served if there is one, and the refresh otherwise. */
  ghost predicate LoadsAsExpected(query: Query, account: Account, ports: Ports, rowLimit: nat, r: Result) {
    Loads(query, account, ports) && WouldLoad(query, ports, rowLimit).Some? ==>
      var loaded := WouldLoad(query, ports, rowLimit).value;
      Answerable(query, ports, loaded, rowLimit) ==> r == LoadedAnswer(query, ports, loaded)
  }

  /** What one call answers.  A page that was not delegated to the provider is exactly the page of
      the mailbox in some state it had during the call, whatever the cache held and whoever wrote
      to it meanwhile; a cache hit is served from the cache; a local header search is never silently
      delegated; and the cache is handed only observations that keep it truthful. */
  method Execute(query: Query, account: Account, ports: Ports, rowLimit: nat, ghost at: seq<System>)
    returns (r: Result, handed: Option<Observation>)
    requires Unfolds(at, query.key) && Truthful(ports, query.key, at)
    ensures r.Invalid? <==> !query.Valid() || (account.localSearch && LocalSearchRejected(query))
    ensures query.Valid() ==> ServesAMoment(query, ports, at, r)
    ensures CacheHit(query, account, ports) ==> handed.None? && r == CachedAnswer(query, ports)
    ensures r.Page? && r.evidence == Cached ==> CacheHit(query, account, ports)
    ensures r.Page? && r.evidence == Delegated ==> ports.provider == Got(r.response)
    ensures FromObservation(r) ==> exists o :: AnswersFrom(query, ports, at, o, r) && HandsOver(ports, o, handed)
    ensures LoadsAsExpected(query, account, ports, rowLimit, r)
    ensures UsesLocalSearch(query, account) && r.Page? ==> r.evidence != Delegated
    ensures r.ProjectionError? ==> account.managed && !UsesLocalSearch(query, account)
    ensures r.Page? && r.writeFailed ==> handed.Some? && !ports.stored
    ensures HandedTruly(query, at, rowLimit, handed)
  {
    handed := None;
    var qualified := Qualify(query, account, ports);
    match qualified
    case Stop(result) => r := result;
    case Hit =>
      CachedPage(query, ports, at);
      r := CachedAnswer(query, ports);
    case Load => r, handed := LoadAndAnswer(query, account, ports, rowLimit, at);
  }

  lemma CachedPage(query: Query, ports: Ports, at: seq<System>)
    requires query.Valid() && Unfolds(at, query.key) && Truthful(ports, query.key, at)
    requires ports.firstAccess.Got? && ports.state.Got? && EpochObserved(ports.state.value)
    requires ports.complete.Got? && ports.complete.value.Some? && CanAnswer(query, ports.complete.value.value)
    ensures ServesAMoment(query, ports, at, CachedAnswer(query, ports))
  {
    LastIsMoment(at, query.key, STATUS);
    var m := Last(at[STATUS].server[query.key]);
    CachedRows(ports, query.key, at, m);
    ListingGivesMailboxPage(query, ports.firstAccess.value, ports.complete.value.value, m);
  }

  lemma LoadedPage(query: Query, matcher: Matcher, at: seq<System>, o: Observation)
    requires query.Valid() && Unfolds(at, query.key) && Witnessed(at, query.key, o) && CanAnswer(query, o.emails)
    ensures exists m ::
      Moment(at, query.key, m) && PageResponse(query, matcher, o.emails) == MailboxPage(query, matcher, m)
  {
    var m :| Moment(at, query.key, m) && Lists(o.emails, m.messages) && HaveInternalDates(o.emails);
    ListingGivesMailboxPage(query, matcher, o.emails, m);
  }

  /** An observation the query handed over may be written by any later event of the run: adding it
      to what clients hold keeps the invariant of the cache. */
  lemma HandedObservationKeepsInv(at: seq<System>, key: Key, o: Observation)
    requires Unfolds(at, key) && MayBeStored(at, key, o) && EpochObserved(o.state)
    ensures var s := at[SNAPSHOT]; Inv(s.(observed := s.observed + {Observed(key, o)}))
  {
    UnfoldsTo(at, key, SNAPSHOT, SNAPSHOT);
  }
}
