/** The stateful adapter over the projection tables.  Each method is one transaction: it works on
    copies of the tables and publishes them at its commit. */
module MetadataStore {
  import opened MetadataTables
  import opened Wrappers

  const PAGE := 100

  class MetadataIndex {
    var mailboxes: map<Key, MailboxRow>
    var messages: map<Epoch, map<nat, Row>>
    var coverage: map<MailboxId, Coverage>

    constructor ()
      ensures Contents() == Tables(map[], map[], map[]) && Contents().Consistent()
    {
      mailboxes, messages, coverage := map[], map[], map[];
    }

    function Contents(): Tables
      reads this
    {
      Tables(mailboxes, messages, coverage)
    }

    /** Upserts every row, drops rows of an older epoch and rows outside the snapshot, then upserts
        the coverage row.  A rejected snapshot and a failed commit leave the tables alone. */
    method WriteSnapshot(key: Key, w: Snapshot, rowLimit: nat, commit: CommitOutcome) returns (r: WriteResult)
      requires Contents().Consistent()
      modifies this
      ensures r == Written <==> Acceptable(w, rowLimit) && commit == Committed
      ensures Contents() ==
        if Acceptable(w, rowLimit) && commit != NotCommitted then Replaced(old(Contents()), key, w) else old(Contents())
      ensures Contents().Consistent()
    {
      var observed := Uids(w.emails);
      if !CoverageValid(w, rowLimit) || w.uidvalidity == 0 || w.uidnext == 0 {
        return Failed;
      }
      var rewritten := Rewrite(Contents(), key, w);
      if rewritten.None? {
        return Failed;
      }
      ReplacedIsConsistent(Contents(), key, w);
      if commit != NotCommitted {
        mailboxes, messages, coverage :=
          rewritten.value.mailboxes, rewritten.value.messages, rewritten.value.coverage;
      }
      r := if commit == Committed then Written else Failed;
    }

    /** The statements of the transaction, applied in order to a copy of the tables. */
    static method Rewrite(t: Tables, key: Key, w: Snapshot) returns (r: Option<Tables>)
      requires t.Consistent() && 0 !in Uids(w.emails) && Distinct(Uids(w.emails))
      ensures r == if Dated(w.emails) then Some(Replaced(t, key, w)) else None
    {
      var observed := Uids(w.emails);
      var id := if key in t.mailboxes then t.mailboxes[key].id else MailboxId(key);
      var epoch := Epoch(id, w.uidvalidity);
      var messages, coverage := t.messages, t.coverage;
      if key in t.mailboxes && t.mailboxes[key].uidvalidity != w.uidvalidity {
        messages := Purged(messages, id);
        coverage := coverage - {id};
      }
      ghost var purged := messages;
      var stored := if epoch in messages then messages[epoch] else map[];
      var upserted := UpsertRows(stored, w.emails);
      if upserted.None? {
        return None;
      }
      KeptRows(stored, w.emails);
      PurgeLeavesOthers(t, key, w, purged, RowsByUid(w.emails));
      messages := messages[epoch := Retained(upserted.value, observed)];
      coverage := coverage[id := Coverage(
        w.uidvalidity, w.uidnext, w.messageCount, Least(observed), Greatest(observed),
        if w.complete then COMPLETE else PARTIAL)];
      var mailboxes := t.mailboxes[key := MailboxRow(id, w.uidvalidity, w.delimiter, w.attributes)];
      assert coverage == t.coverage[id := CoverageOf(w)];
      return Some(Tables(mailboxes, messages, coverage));
    }

    /** INSERT … ON CONFLICT DO UPDATE for each email; a missing date aborts the transaction. */
    static method UpsertRows(stored: map<nat, Row>, emails: seq<Email>) returns (rows: Option<map<nat, Row>>)
      ensures rows.Some? <==> Dated(emails)
      ensures rows.Some? ==> rows.value == stored + RowsByUid(emails)
    {
      var current := stored;
      for n := 0 to |emails|
        invariant Dated(emails[..n])
        invariant current == stored + RowsByUid(emails[..n])
      {
        if emails[n].date.None? {
          return None;
        }
        assert emails[..n + 1][..n] == emails[..n];
        current := current[emails[n].uid := RowOf(emails[n])];
      }
      assert emails[..|emails|] == emails;
      return Some(current);
    }

    /** The keyset loop over pages of 100 rows terminates and returns the full descending select. */
    method LoadProjectedEmails(key: Key, uidvalidity: nat) returns (emails: seq<Email>)
      ensures emails == DescendingEmails(Contents().RowsAt(key, uidvalidity))
    {
      emails := [];
      var epoch := Epoch(MailboxId(key), uidvalidity);
      if epoch !in messages {
        return;
      }
      var rows := messages[epoch];
      ghost var all := DescendingEmails(rows);
      var cursor: Option<nat> := None;
      while true
        invariant |emails| <= |all| && emails == all[..|emails|]
        invariant cursor == if emails == [] then None else Some(emails[|emails| - 1].uid)
        decreases |all| - |emails|
      {
        var page := SelectPage(rows, cursor);
        PageContinues(rows, |emails|);
        if page == [] {
          break;
        }
        emails := emails + EmailsOf(page, rows);
        cursor := Some(page[|page| - 1]);
      }
    }

    method ReadComplete(key: Key, uidvalidity: nat, uidnext: nat, messageCount: nat)
      returns (r: Option<seq<Email>>)
      requires Contents().Consistent()
      ensures r == CompleteRead(Contents(), key, uidvalidity, uidnext, messageCount)
    {
      if key !in mailboxes || mailboxes[key].uidvalidity != uidvalidity || mailboxes[key].id !in coverage {
        return None;
      }
      var c := coverage[mailboxes[key].id];
      if c.uidvalidity != uidvalidity || c.uidnext != uidnext || c.messageCount != messageCount
         || c.completeness != COMPLETE {
        return None;
      }
      var emails := LoadProjectedEmails(key, uidvalidity);
      r := if |emails| != messageCount then None else Some(emails);
    }

    method ReadIncrementalBaseline(key: Key, uidvalidity: nat) returns (r: Option<Baseline>)
      requires Contents().Consistent()
      ensures r == BaselineRead(Contents(), key, uidvalidity)
    {
      if key !in mailboxes || mailboxes[key].uidvalidity != uidvalidity || mailboxes[key].id !in coverage {
        return None;
      }
      var c := coverage[mailboxes[key].id];
      if c.uidvalidity != uidvalidity || c.completeness != COMPLETE {
        return None;
      }
      var emails := LoadProjectedEmails(key, uidvalidity);
      if |emails| != c.messageCount {
        return None;
      }
      var observed := Uids(emails);
      LoadedHighUid(Contents().RowsAt(key, uidvalidity));
      if observed != [] && c.highUid != Greatest(observed) {
        return None;
      }
      if observed == [] && c.highUid.Some? {
        return None;
      }
      r := Some(Baseline(uidvalidity, c.uidnext, c.messageCount, c.highUid, emails));
    }

    method ReadPartialEmails(key: Key, uidvalidity: nat) returns (r: Option<seq<Email>>)
      requires Contents().Consistent()
      ensures r == PartialRead(Contents(), key, uidvalidity)
    {
      if key !in mailboxes || mailboxes[key].uidvalidity != uidvalidity || mailboxes[key].id !in coverage {
        return None;
      }
      var c := coverage[mailboxes[key].id];
      if c.uidvalidity != uidvalidity || c.completeness != PARTIAL {
        return None;
      }
      var emails := LoadProjectedEmails(key, uidvalidity);
      r := if emails == [] then None else Some(emails);
    }

    method InvalidateMailboxes(account: string, names: seq<string>, commit: CommitOutcome) returns (r: WriteResult)
      requires Contents().Consistent()
      modifies this
      ensures r == Written <==> commit == Committed || names == []
      ensures Contents() ==
        if commit != NotCommitted then WithoutCoverage(old(Contents()), set n | n in names :: Key(account, n))
        else old(Contents())
      ensures Contents().Consistent()
    {
      if names == [] {
        assert Contents().coverage == WithoutCoverage(Contents(), set n | n in names :: Key(account, n)).coverage;
        return Written;
      }
      if commit != NotCommitted {
        coverage := map id | id in coverage && !(id.key in mailboxes && id.key.account == account && id.key.name in names)
          :: coverage[id];
        assert forall id :: id in old(coverage) ==>
          (id.key in (set n | n in names :: Key(account, n)) <==> id.key.account == account && id.key.name in names);
      }
      r := if commit == Committed then Written else Failed;
    }

    method InvalidateAccount(account: string, commit: CommitOutcome) returns (r: WriteResult)
      requires Contents().Consistent()
      modifies this
      ensures r == Written <==> commit == Committed
      ensures Contents() ==
        if commit != NotCommitted then WithoutCoverage(old(Contents()), AccountKeys(old(Contents()), account))
        else old(Contents())
      ensures Contents().Consistent()
    {
      if commit != NotCommitted {
        coverage := map id | id in coverage && !(id.key in mailboxes && id.key.account == account) :: coverage[id];
      }
      r := if commit == Committed then Written else Failed;
    }
  }

  /** SELECT … WHERE the epoch [AND uid < cursor] ORDER BY uid DESC LIMIT 100. */
  function SelectPage(rows: map<nat, Row>, cursor: Option<nat>): seq<nat> {
    var uids := Descending(if cursor.None? then rows.Keys else Below(rows.Keys, cursor.value));
    if |uids| <= PAGE then uids else uids[..PAGE]
  }

  /** A page taken below the n-th email is the next piece of the full select, empty only at its end. */
  lemma PageContinues(rows: map<nat, Row>, n: nat)
    requires n <= |DescendingEmails(rows)|
    ensures var all := DescendingEmails(rows);
      var page := SelectPage(rows, if n == 0 then None else Some(all[n - 1].uid));
      && AllIn(page, rows)
      && (page == [] <==> n == |all|)
      && n + |page| <= |all| && all[..n] + EmailsOf(page, rows) == all[..n + |page|]
      && (page != [] ==> page[|page| - 1] == all[n + |page| - 1].uid)
  {
    var uids := Descending(rows.Keys);
    var all := DescendingEmails(rows);
    assert |all| == |uids| && (0 < n ==> all[n - 1].uid == uids[n - 1]);
    PageOfUids(rows, n);
    DescendingAllIn(rows);
    var page := SelectPage(rows, if n == 0 then None else Some(uids[n - 1]));
    EmailsOfSlice(uids, rows, n, n + |page|);
    SlicesMeet(all, n, n + |page|);
  }

  lemma SlicesMeet<T>(s: seq<T>, i: nat, j: nat)
    requires i <= j <= |s|
    ensures s[..i] + s[i..j] == s[..j]
  {
  }

  lemma EmailsOfSlice(uids: seq<nat>, rows: map<nat, Row>, i: nat, j: nat)
    requires AllIn(uids, rows) && i <= j <= |uids|
    ensures AllIn(uids[i..j], rows)
    ensures EmailsOf(uids[i..j], rows) == EmailsOf(uids, rows)[i..j]
  {
  }

  lemma PageOfUids(rows: map<nat, Row>, n: nat)
    requires n <= |Descending(rows.Keys)|
    ensures var uids := Descending(rows.Keys);
      var page := SelectPage(rows, if n == 0 then None else Some(uids[n - 1]));
      n + |page| <= |uids| && page == uids[n..n + |page|] && (page == [] <==> n == |uids|)
  {
    if 0 < n {
      DescendingContinues(rows.Keys, n);
    }
  }

  /** DELETE … WHERE uid NOT IN (…). */
  function Retained(rows: map<nat, Row>, uids: seq<nat>): map<nat, Row> {
    map u | u in rows && u in uids :: rows[u]
  }

  lemma KeptRows(stored: map<nat, Row>, emails: seq<Email>)
    requires Storable(emails)
    ensures Retained(stored + RowsByUid(emails), Uids(emails)) == RowsByUid(emails)
  {
    RowsByUidAreExact(emails);
  }

  /** Whether or not an older epoch is purged, writing this epoch leaves the message table as
      `Replaced` describes it. */
  lemma PurgeLeavesOthers(
    t: Tables, key: Key, w: Snapshot, purged: map<Epoch, map<nat, Row>>, rows: map<nat, Row>)
    requires t.Consistent()
    requires purged ==
      if key in t.mailboxes && t.mailboxes[key].uidvalidity != w.uidvalidity
      then Purged(t.messages, MailboxId(key)) else t.messages
    ensures purged[Epoch(MailboxId(key), w.uidvalidity) := rows]
      == Purged(t.messages, MailboxId(key))[Epoch(MailboxId(key), w.uidvalidity) := rows]
  {
  }
}
