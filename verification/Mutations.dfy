/** Mutation workflows and the metadata cache: an effect that may have started is followed by dropping
    the coverage of the mailboxes it touched, or by a report that reconciliation is needed. */
module Mutations {
  import opened MetadataTables
  import opened MetadataStore
  import opened MutationResults
  import opened Wrappers

  function MakeBatch(targets: seq<Target>, reconciliation: bool): Batch {
    Batch(targets, reconciliation || SomeUnknown(targets))
  }

  predicate SomeUnknown(targets: seq<Target>) {
    exists i :: 0 <= i < |targets| && targets[i].status == Unknown
  }

  predicate MayHaveStarted(b: Batch) {
    exists i :: 0 <= i < |b.targets| && b.targets[i].status != NotDone
  }

  /** How the provider call ends. */
  datatype Provider = Answers(batch: Batch) | TimesOut | Raises

  /** What the caller gets. */
  datatype Run = Reported(batch: Batch) | Thrown

  /** A message number of at most ten digits. */
  predicate IsUid(s: string) {
    1 <= |s| <= 10 && forall i :: 0 <= i < |s| ==> '0' <= s[i] <= '9'
  }

  /** What the command checked of its messages before anything else. */
  predicate ValidUids(uids: seq<string>) {
    1 <= |uids| <= MAX_TARGETS && forall i :: 0 <= i < |uids| ==> IsUid(uids[i])
  }

  /** No read path trusts the mailbox any more, whatever status it is asked with. */
  ghost predicate Untrusted(t: Tables, key: Key) {
    && (forall v, n, c :: CompleteRead(t, key, v, n, c) == None)
    && (forall v :: BaselineRead(t, key, v) == None && PartialRead(t, key, v) == None)
  }

  ghost predicate AllUntrusted(t: Tables, account: string, mailboxes: seq<string>) {
    forall i :: 0 <= i < |mailboxes| ==> Untrusted(t, Key(account, mailboxes[i]))
  }

  lemma DroppedIsUntrusted(t: Tables, account: string, mailboxes: seq<string>)
    ensures AllUntrusted(WithoutCoverage(t, set n | n in mailboxes :: Key(account, n)), account, mailboxes)
  {
  }

  /** Failures of the projection never hide what the provider did. */
  method Invalidate(index: MetadataIndex, account: string, mailboxes: seq<string>, opens: bool, commit: CommitOutcome)
    returns (ok: bool)
    requires index.Contents().Consistent()
    modifies index
    ensures index.Contents().Consistent()
    ensures ok ==> AllUntrusted(index.Contents(), account, mailboxes)
    ensures ok <==> opens && (commit == Committed || mailboxes == [])
    ensures index.Contents() == old(index.Contents())
      || index.Contents() == WithoutCoverage(old(index.Contents()), set n | n in mailboxes :: Key(account, n))
  {
    if !opens {
      return false;
    }
    var r := index.InvalidateMailboxes(account, mailboxes, commit);
    DroppedIsUntrusted(old(index.Contents()), account, mailboxes);
    if mailboxes == [] {
      assert forall id :: id in old(index.Contents()).coverage ==> id.key !in (set n | n in mailboxes :: Key(account, n));
      assert WithoutCoverage(old(index.Contents()), set n | n in mailboxes :: Key(account, n)) == old(index.Contents());
    }
    ok := r == Written;
  }

  /** Flags, tags and deletion name one mailbox, a move or an archive two.  A reported run with a
      succeeded or unknown target has left no trusted coverage of any of them, or says that
      reconciliation is needed; a run without one has not touched the cache.  It throws only for what
      the provider does; once the cache was touched, a report follows. */
  method RunBatch(
    index: MetadataIndex, account: string, uids: seq<string>, mailboxes: seq<string>, to: Destination,
    provider: Provider, opens: bool, commit: CommitOutcome) returns (r: Run)
    requires index.Contents().Consistent() && ValidUids(uids)
    requires to.MovedTo? || to.ArchivedTo? ==> ValidMailbox(to.mailbox)
    requires provider.Answers? ==> provider.batch == MakeBatch(provider.batch.targets, provider.batch.reconciliation)
    modifies index
    ensures r.Thrown? <==> provider.Raises? || (provider.Answers? && !ValidTargets(provider.batch.targets))
    ensures r.Thrown? ==> index.Contents() == old(index.Contents())
    ensures r.Reported? ==> ValidBatch(r.batch, to)
    ensures r.Reported? && MayHaveStarted(r.batch) ==>
      r.batch.reconciliation || AllUntrusted(index.Contents(), account, mailboxes)
    ensures r.Reported? && !MayHaveStarted(r.batch) ==> index.Contents() == old(index.Contents())
    ensures r.Reported? ==> r.batch.targets == if provider.Answers? then provider.batch.targets else AllUnknown(uids)
    ensures provider.TimesOut? ==> r.batch.reconciliation
    ensures r.Reported? && provider.Answers? ==> (r.batch.reconciliation <==>
      || provider.batch.reconciliation
      || (MayHaveStarted(provider.batch) && mailboxes != [] && !(opens && commit == Committed))
      || (MayHaveStarted(provider.batch) && !opens))
    ensures index.Contents().Consistent()
  {
    if provider.Raises? {
      return Thrown;
    }
    var batch := if provider.TimesOut? then MakeBatch(AllUnknown(uids), true) else provider.batch;
    UidsAreTargets(uids);
    if ValidTargets(batch.targets) {
      BatchAlwaysFits(batch, Nowhere);
      BatchAlwaysFits(batch, to);
    }
    if !ValidBatch(batch, Nowhere) {
      return Thrown;
    }
    if !MayHaveStarted(batch) {
      return Reported(batch);
    }
    var invalidated := Invalidate(index, account, mailboxes, opens, commit);
    batch := MakeBatch(batch.targets, batch.reconciliation || !invalidated);
    BatchAlwaysFits(batch, to);
    r := Reported(batch);
  }

  function AllUnknown(uids: seq<string>): seq<Target> {
    seq(|uids|, i requires 0 <= i < |uids| => Target(uids[i], Unknown, Some("provider-timeout")))
  }

  /** What is reported after a timeout passes the checks, and names every message. */
  lemma UidsAreTargets(uids: seq<string>)
    requires ValidUids(uids)
    ensures ValidTargets(AllUnknown(uids)) && SomeUnknown(AllUnknown(uids)) && MayHaveStarted(MakeBatch(AllUnknown(uids), true))
  {
    var targets := AllUnknown(uids);
    BytesAtMost("provider-timeout");
    forall i | 0 <= i < |uids| ensures ValidTarget(targets[i]) {
      assert IsUid(uids[i]);
      BytesAtMost(uids[i]);
      assert !IsWhite(uids[i][0]);
    }
    assert targets[0].status == Unknown;
  }

  /** How saving the copy of a sent message ends. */
  datatype Saving = Saves(copy: Copy) | SavingTimesOut | SavingRefused | SavingRaises

  /** What the caller gets: a report, or an exception in its place. */
  datatype Sending = SentReported(send: Send) | SentMalformed

  predicate Ambiguous(delivery: Delivery, copy: Copy) {
    copy.status == CopyUnknown || SomeUnknown(delivery.targets)
  }

  predicate Accepted(delivery: Delivery) {
    exists i :: 0 <= i < |delivery.targets| && delivery.targets[i].status == Succeeded
  }

  /** The copy is only saved of an accepted message that the provider still holds. */
  predicate Saved(delivery: Delivery, hasMessage: bool, permitted: bool) {
    Accepted(delivery) && hasMessage && permitted
  }

  /** A copy that may have been stored, in a mailbox the provider named. */
  predicate MayBeStored(copy: Copy) {
    (copy.status == Stored || copy.status == CopyUnknown) && copy.mailbox.Some?
  }

  /** The result agrees with what happened to the copy. */
  predicate CopyFits(copy: Copy, delivery: Delivery, hasMessage: bool, permitted: bool, saving: Saving) {
    if !Accepted(delivery) || !hasMessage then copy == Copy(Skipped, None, None)
    else if !permitted || saving.SavingRefused? then copy.status == CopyFailed && copy.mailbox.None?
    else if saving.Saves? then copy == saving.copy
    else copy.status == CopyUnknown && copy.mailbox.None?
  }

  /** The provider's answer about the copy does not pass its check. */
  predicate Malformed(delivery: Delivery, hasMessage: bool, permitted: bool, saving: Saving) {
    Saved(delivery, hasMessage, permitted) && saving.Saves? && !ValidCopy(saving.copy)
  }

  /** Completing a send after its delivery was checked.  The delivery evidence is part of every report, and
      there is one exactly if the answer about the copy is well formed.  A copy that may have been stored
      leaves its mailbox untrusted or asks for reconciliation. */
  method CompleteSend(
    index: MetadataIndex, account: string, delivery: Delivery, hasMessage: bool, permitted: bool, saving: Saving,
    opens: bool, commit: CommitOutcome) returns (r: Sending)
    requires index.Contents().Consistent() && ValidDelivery(delivery)
    modifies index
    ensures r.SentMalformed? <==> Malformed(delivery, hasMessage, permitted, saving)
    ensures r.SentReported? ==> ValidSend(r.send) && r.send.delivery == delivery
    ensures r.SentReported? ==> CopyFits(r.send.copy, delivery, hasMessage, permitted, saving)
    ensures r.SentReported? ==> (r.send.reconciliation <==>
      || Ambiguous(delivery, r.send.copy)
      || (Saved(delivery, hasMessage, permitted) && MayBeStored(r.send.copy) && !(opens && commit == Committed)))
    ensures r.SentReported? && Saved(delivery, hasMessage, permitted) && MayBeStored(r.send.copy) ==>
      r.send.reconciliation || Untrusted(index.Contents(), Key(account, r.send.copy.mailbox.value))
    ensures r.SentMalformed? || !MayBeStored(r.send.copy) ==> index.Contents() == old(index.Contents())
    ensures index.Contents().Consistent()
  {
    if !Accepted(delivery) || !hasMessage || !permitted || !saving.Saves? {
      var copy := WithoutAnswer(delivery, hasMessage, permitted, saving);
      return Completed(delivery, copy, copy.status == CopyUnknown && saving.SavingTimesOut?);
    }
    if !ValidCopy(saving.copy) {
      return SentMalformed;
    }
    var stale := false;
    if MayBeStored(saving.copy) {
      var ok := Invalidate(index, account, [saving.copy.mailbox.value], opens, commit);
      assert ok ==> Untrusted(index.Contents(), Key(account, [saving.copy.mailbox.value][0]));
      stale := !ok;
    }
    r := Completed(delivery, saving.copy, stale);
  }

  /** What is reported of the copy if the provider was not asked or gave no answer. */
  function WithoutAnswer(delivery: Delivery, hasMessage: bool, permitted: bool, saving: Saving): (copy: Copy)
    requires Saved(delivery, hasMessage, permitted) ==> !saving.Saves?
    ensures ValidCopy(copy) && copy.mailbox.None? && CopyFits(copy, delivery, hasMessage, permitted, saving)
  {
    if !Accepted(delivery) || !hasMessage then Copy(Skipped, None, None)
    else if !permitted then Note(CopyFailed, "sent-copy-unavailable")
    else if saving.SavingRefused? then Note(CopyFailed, "mutation-policy")
    else if saving.SavingTimesOut? then Note(CopyUnknown, "provider-timeout")
    else Note(CopyUnknown, "sent-copy")
  }

  /** A copy that has only a short remark. */
  function Note(status: CopyStatus, detail: string): (copy: Copy)
    requires |detail| <= 24 && forall i :: 0 <= i < |detail| ==> !IsControl(detail[i])
    ensures ValidCopy(copy)
  {
    BytesAtMost(detail);
    Copy(status, None, Some(detail))
  }

  /** The report of a checked delivery and a checked copy, which passes the check of the whole. */
  function Completed(delivery: Delivery, copy: Copy, reconciliation: bool): (r: Sending)
    requires ValidDelivery(delivery) && ValidCopy(copy)
    ensures r.SentReported? && ValidSend(r.send)
  {
    var send := Send(delivery, copy, reconciliation || Ambiguous(delivery, copy));
    SendAlwaysFits(send);
    SentReported(send)
  }

  /** A remark of the built-in provider is a short word of letters, digits and hyphens. */
  predicate IsRemark(s: string) {
    |s| <= 24 && forall i :: 0 <= i < |s| ==> 'a' <= s[i] <= 'z' || '0' <= s[i] <= '9' || s[i] == '-'
  }

  /** It names only mailboxes that pass the check of mailbox names. */
  predicate FromBuiltIn(copy: Copy) {
    (copy.mailbox.Some? ==> ValidMailbox(copy.mailbox.value)) && (copy.detail.Some? ==> IsRemark(copy.detail.value))
  }

  /** With the built-in provider the evidence of a delivery always reaches the caller. */
  lemma BuiltInIsNeverMalformed(delivery: Delivery, hasMessage: bool, permitted: bool, saving: Saving)
    requires saving.Saves? ==> FromBuiltIn(saving.copy)
    ensures !Malformed(delivery, hasMessage, permitted, saving)
  {
    if saving.Saves? && saving.copy.detail.Some? {
      BytesAtMost(saving.copy.detail.value);
    }
  }

  /** With another provider it may not: a stored copy in a mailbox whose name ends in a line feed hides that
      the message was delivered. */
  lemma MalformedCopyHidesDelivery()
    ensures exists delivery: Delivery, copy: Copy ::
      && ValidDelivery(delivery) && Accepted(delivery) && copy.status == Stored
      && Malformed(delivery, true, true, Saves(copy))
  {
    var delivery := Delivery([Target("a", Succeeded, None)], None);
    var copy := Copy(Stored, Some("Sent\n"), None);
    BytesAtMost("a");
    assert !IsWhite("a"[0]);
    assert ValidTarget(delivery.targets[0]);
    DeliveryAlwaysFits(delivery);
    assert delivery.targets[0].status == Succeeded;
    assert IsControl("Sent\n"[4]);
    assert Malformed(delivery, true, true, Saves(copy));
  }
}
