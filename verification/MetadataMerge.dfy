/** Extending a complete cached projection by the UIDs above its high-water mark, and what a
    provider observation says about the mailbox it was taken from. */
module MetadataMerge {
  import opened Collections
  import opened Imap
  import opened MetadataTables
  import opened Wrappers

  /** A provider's snapshot of one mailbox. */
  datatype Observation = Observation(
    state: MailboxState, mailbox: string, delimiter: Option<string>, attributes: seq<string>, emails: seq<Email>,
    complete: bool)

  datatype IncrementalBaseline = IncrementalBaseline(state: MailboxState, highUid: Option<nat>, emails: seq<Email>)

  /** The messages above a high-water mark; `resumable` only if the fetch was complete and stable. */
  datatype UidDelta = UidDelta(
    state: MailboxState, mailbox: string, delimiter: Option<string>, attributes: seq<string>, emails: seq<Email>,
    uidvalidityChanged: bool, resumable: bool)

  function Floor(baseline: IncrementalBaseline): nat {
    if baseline.highUid.None? then 0 else baseline.highUid.value
  }

  /** Whether a baseline is internally sound: dated rows, distinct positive UIDs, count and
      high-water mark as recorded. */
  predicate SoundBaseline(baseline: IncrementalBaseline) {
    && baseline.state.messageCount == |baseline.emails|
    && HaveInternalDates(baseline.emails)
    && 0 !in Uids(baseline.emails)
    && Distinct(Uids(baseline.emails))
    && Greatest(Uids(baseline.emails)) == baseline.highUid
  }

  predicate HaveInternalDates(emails: seq<Email>) {
    forall i :: 0 <= i < |emails| ==> emails[i].internalDate.Some?
  }

  predicate Mergeable(mailbox: string, baseline: IncrementalBaseline, delta: UidDelta, rowLimit: nat) {
    && delta.resumable
    && !delta.uidvalidityChanged
    && baseline.state.uidvalidity.Some?
    && delta.state.uidvalidity == baseline.state.uidvalidity
    && delta.state.uidnext.Some?
    && delta.mailbox == mailbox
    && SoundBaseline(baseline)
    && HaveInternalDates(delta.emails)
    && Distinct(Uids(delta.emails))
    && (forall u :: u in Uids(delta.emails) ==> Floor(baseline) < u < delta.state.uidnext.value)
    && delta.state.messageCount == baseline.state.messageCount + |delta.emails|
    && delta.state.messageCount <= rowLimit
  }

  /** The checks of the baseline, with the set of its UIDs. */
  method CheckBaseline(baseline: IncrementalBaseline) returns (seen: Option<set<nat>>)
    ensures seen == if SoundBaseline(baseline) then Some(Elements(Uids(baseline.emails))) else None
    ensures seen.Some? ==> BaselineUidsFit(Uids(baseline.emails), Floor(baseline))
  {
    if baseline.state.messageCount != |baseline.emails| {
      return None;
    }
    if exists i :: 0 <= i < |baseline.emails| && baseline.emails[i].internalDate.None? {
      return None;
    }
    GreatestIsBound(Uids(baseline.emails));
    seen := ScanBaseline(baseline.emails, Floor(baseline));
    if baseline.emails != [] && (baseline.highUid.None? || Greatest(Uids(baseline.emails)) != baseline.highUid) {
      return None;
    }
    if baseline.emails == [] && baseline.highUid.Some? {
      return None;
    }
  }

  /** Two scans with early exits that share the set of UIDs seen so far. */
  method MergeAppendOnlySnapshot(
    mailbox: string, baseline: IncrementalBaseline, delta: UidDelta, rowLimit: nat) returns (r: Option<Observation>)
    ensures r == if Mergeable(mailbox, baseline, delta, rowLimit)
                 then Some(Observation(delta.state, delta.mailbox, delta.delimiter, delta.attributes,
                                       baseline.emails + delta.emails, true))
                 else None
  {
    if !delta.resumable || delta.uidvalidityChanged {
      return None;
    }
    if baseline.state.uidvalidity.None? || delta.state.uidvalidity.None? || delta.state.uidnext.None? {
      return None;
    }
    if delta.mailbox != mailbox || delta.state.uidvalidity != baseline.state.uidvalidity {
      return None;
    }
    var floor := Floor(baseline);
    var seen := CheckBaseline(baseline);
    if seen.None? {
      return None;
    }
    var merged := ScanDelta(delta.emails, floor, delta.state.uidnext.value, seen.value);
    if merged.None? {
      return None;
    }
    if delta.state.messageCount != baseline.state.messageCount + |delta.emails| {
      return None;
    }
    SeenCount(baseline.emails, delta.emails, floor);
    if rowLimit < |merged.value| {
      return None;
    }
    r := Some(Observation(delta.state, delta.mailbox, delta.delimiter, delta.attributes,
                          baseline.emails + delta.emails, true));
  }

  predicate BaselineUidsFit(uids: seq<nat>, floor: nat) {
    Distinct(uids) && forall u :: u in uids ==> 0 < u <= floor
  }

  method ScanBaseline(emails: seq<Email>, floor: nat) returns (seen: Option<set<nat>>)
    ensures seen == if BaselineUidsFit(Uids(emails), floor) then Some(Elements(Uids(emails))) else None
  {
    var uids := Uids(emails);
    var found: set<nat> := {};
    for n := 0 to |emails|
      invariant BaselineUidsFit(uids[..n], floor)
      invariant found == Elements(uids[..n])
    {
      var uid := emails[n].uid;
      assert uids[n] == uid;
      if uid == 0 || uid in found || floor < uid {
        assert uids[n] in uids;
        return None;
      }
      assert uids[..n + 1] == uids[..n] + [uid];
      found := found + {uid};
    }
    assert uids[..|emails|] == uids;
    return Some(found);
  }

  predicate DeltaUidsFit(emails: seq<Email>, floor: nat, uidnext: nat, seen: set<nat>) {
    && HaveInternalDates(emails)
    && Distinct(Uids(emails))
    && forall u :: u in Uids(emails) ==> floor < u < uidnext && u !in seen
  }

  method ScanDelta(emails: seq<Email>, floor: nat, uidnext: nat, seen: set<nat>) returns (all: Option<set<nat>>)
    ensures all == if DeltaUidsFit(emails, floor, uidnext, seen) then Some(seen + Elements(Uids(emails))) else None
  {
    var uids := Uids(emails);
    var found := seen;
    for n := 0 to |emails|
      invariant DeltaUidsFit(emails[..n], floor, uidnext, seen)
      invariant found == seen + Elements(uids[..n])
    {
      var uid := emails[n].uid;
      assert uids[n] == uid && uids[n] in uids;
      assert Uids(emails[..n]) == uids[..n];
      if uid <= floor || uidnext <= uid || uid in found {
        return None;
      }
      if emails[n].internalDate.None? {
        return None;
      }
      assert uids[..n + 1] == uids[..n] + [uid];
      assert Uids(emails[..n + 1]) == uids[..n + 1];
      found := found + {uid};
    }
    assert emails[..|emails|] == emails && uids[..|emails|] == uids;
    return Some(found);
  }

  lemma GreatestIsBound(uids: seq<nat>)
    ensures uids == [] ==> Greatest(uids) == None
    ensures uids != [] ==> Greatest(uids).Some? && forall u :: u in uids ==> u <= Greatest(uids).value
  {
    assert forall u :: u in uids ==> u in Elements(uids);
  }

  lemma SeenCount(held: seq<Email>, added: seq<Email>, floor: nat)
    requires BaselineUidsFit(Uids(held), floor)
    requires Distinct(Uids(added)) && forall u :: u in Uids(added) ==> floor < u
    ensures |Elements(Uids(held)) + Elements(Uids(added))| == |held| + |added|
  {
    DistinctCount(Uids(held));
    DistinctCount(Uids(added));
    assert Elements(Uids(held)) * Elements(Uids(added)) == {};
  }

  /** A projected row says nothing the message does not say. */
  predicate Agrees(e: Email, m: Message) {
    && e.headers.subject == m.subject
    && e.headers.sender == m.sender
    && e.headers.recipients == m.recipients
    && (e.headers.toAddresses.Some? ==> e.headers.toAddresses.value == m.toAddresses)
    && e.date == Some(m.date)
    && (e.internalDate.Some? ==> e.internalDate.value == m.internalDate)
  }

  predicate AllAgree(emails: seq<Email>, messages: map<nat, Message>) {
    forall i :: 0 <= i < |emails| ==> emails[i].uid in messages && Agrees(emails[i], messages[emails[i].uid])
  }

  /** The emails list every message of the mailbox, each once. */
  predicate Lists(emails: seq<Email>, messages: map<nat, Message>) {
    AllAgree(emails, messages) && Distinct(Uids(emails)) && Elements(Uids(emails)) == messages.Keys
  }

  function MessagesAbove(m: Mailbox, floor: nat): map<nat, Message> {
    map u | u in m.messages && floor < u :: m.messages[u]
  }

  /** A baseline read back from a complete observation of this state. */
  predicate BaselineOf(m: Mailbox, baseline: IncrementalBaseline) {
    && baseline.state == m.Status()
    && Lists(baseline.emails, m.messages)
    && baseline.highUid == Greatest(Uids(baseline.emails))
  }

  /** A stable fetch of everything above the floor in this state. */
  predicate DeltaOf(m: Mailbox, mailbox: string, floor: nat, delta: UidDelta) {
    && delta.state == m.Status()
    && delta.mailbox == mailbox
    && delta.resumable && !delta.uidvalidityChanged
    && Lists(delta.emails, MessagesAbove(m, floor))
    && HaveInternalDates(delta.emails)
  }

  predicate NothingExpunged(m: Mailbox, m': Mailbox) {
    m.messages.Keys <= m'.messages.Keys
  }

  /** The merge loses nothing and invents nothing.  If the baseline observed an earlier state
      completely and the delta is what now lies above its high-water mark, the two together list
      the mailbox exactly whenever the merge is returned; and with dated rows it is returned
      exactly when the epoch is the same, no baseline message is gone and the rows fit. */
  lemma MergeIsExact(
    h: seq<Mailbox>, i: nat, j: nat, mailbox: string, baseline: IncrementalBaseline, delta: UidDelta, rowLimit: nat)
    requires History(h) && i <= j < |h|
    requires BaselineOf(h[i], baseline) && DeltaOf(h[j], mailbox, Floor(baseline), delta)
    ensures Mergeable(mailbox, baseline, delta, rowLimit) ==> Lists(baseline.emails + delta.emails, h[j].messages)
    ensures Mergeable(mailbox, baseline, delta, rowLimit) <==>
      && HaveInternalDates(baseline.emails)
      && h[i].uidvalidity == h[j].uidvalidity
      && NothingExpunged(h[i], h[j])
      && |h[j].messages| <= rowLimit
  {
    HistoryIsMonotone(h, i, i);
    HistoryIsMonotone(h, i, j);
    BaselineBounds(h[i], baseline);
    DistinctCount(Uids(baseline.emails));
    DistinctCount(Uids(delta.emails));
    var above := MessagesAbove(h[j], Floor(baseline));
    assert |above.Keys| == |delta.emails| && above.Keys == Elements(Uids(delta.emails));
    forall u | u in Uids(delta.emails) ensures Floor(baseline) < u < h[j].uidnext {
      assert u in Elements(Uids(delta.emails));
    }
    if h[i].uidvalidity == h[j].uidvalidity {
      CountSplits(h[i], h[j], Floor(baseline));
      if NothingExpunged(h[i], h[j]) {
        MergedLists(h[i], h[j], baseline.emails, delta.emails, Floor(baseline));
      }
    }
  }

  lemma BaselineBounds(m: Mailbox, baseline: IncrementalBaseline)
    requires m.Valid() && BaselineOf(m, baseline)
    ensures SoundBaseline(baseline) <==> HaveInternalDates(baseline.emails)
    ensures forall u :: u in m.messages ==> 0 < u <= Floor(baseline)
    ensures Floor(baseline) < m.uidnext
  {
    DistinctCount(Uids(baseline.emails));
    GreatestIsBound(Uids(baseline.emails));
    assert forall u :: u in Uids(baseline.emails) <==> u in Elements(Uids(baseline.emails));
    if Uids(baseline.emails) != [] {
      assert Uids(baseline.emails)[0] in Elements(Uids(baseline.emails));
      assert Floor(baseline) in m.messages;
    }
  }

  /** Below the high-water mark a later state of the epoch only loses messages; so the count grew
      by exactly the number of new UIDs if and only if nothing below was lost. */
  lemma CountSplits(m: Mailbox, m': Mailbox, floor: nat)
    requires Earlier(m, m') && m.uidvalidity == m'.uidvalidity
    requires floor < m.uidnext && forall u :: u in m.messages ==> u <= floor
    ensures |m'.messages| == |m.messages| + |MessagesAbove(m', floor)| <==> NothingExpunged(m, m')
  {
    var below := KeysUpTo(m', floor);
    SplitAtFloor(m', floor);
    forall u | u in below ensures u in m.messages {
    }
    if |below| == |m.messages.Keys| {
      SubsetOfEqualSize(below, m.messages.Keys);
    } else if NothingExpunged(m, m') {
      assert m.messages.Keys <= below;
      SubsetSize(m.messages.Keys, below);
      SubsetSize(below, m.messages.Keys);
    }
  }

  function KeysUpTo(m: Mailbox, floor: nat): set<nat> {
    set u | u in m.messages && u <= floor
  }

  lemma SplitAtFloor(m: Mailbox, floor: nat)
    ensures |m.messages| == |KeysUpTo(m, floor)| + |MessagesAbove(m, floor)|
  {
    var above := MessagesAbove(m, floor).Keys;
    assert KeysUpTo(m, floor) + above == m.messages.Keys && KeysUpTo(m, floor) !! above;
    assert |m.messages| == |m.messages.Keys|;
  }

  lemma MergedLists(m: Mailbox, m': Mailbox, held: seq<Email>, added: seq<Email>, floor: nat)
    requires Earlier(m, m') && m.uidvalidity == m'.uidvalidity && NothingExpunged(m, m')
    requires floor < m.uidnext && forall u :: u in m.messages ==> u <= floor
    requires Lists(held, m.messages) && Lists(added, MessagesAbove(m', floor))
    ensures Lists(held + added, m'.messages)
  {
    var all := held + added;
    var above := MessagesAbove(m', floor);
    assert Uids(all) == Uids(held) + Uids(added);
    forall n | 0 <= n < |all| ensures all[n].uid in m'.messages && Agrees(all[n], m'.messages[all[n].uid]) {
      if n < |held| {
        assert held[n].uid in m.messages;
      } else {
        assert all[n] == added[n - |held|] && added[n - |held|].uid in above;
      }
    }
    assert Elements(Uids(all)) == Elements(Uids(held)) + Elements(Uids(added));
    forall u | u in m'.messages ensures u in Elements(Uids(all)) {
      assert floor < u ==> u in above;
    }
    forall a, b | 0 <= a < b < |all| ensures Uids(all)[a] != Uids(all)[b] {
      if a < |held| && |held| <= b {
        assert Uids(held)[a] in Elements(Uids(held));
        assert Uids(added)[b - |held|] in Elements(Uids(added));
      } else if |held| <= a {
        assert Uids(added)[a - |held|] != Uids(added)[b - |held|];
      }
    }
  }
}
