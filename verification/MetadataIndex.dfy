/** The SQLite projection of mailbox metadata: three tables, changed in place by
    `MetadataIndex`, and what each transaction means for the tables as a whole. */
module MetadataTables {
  import opened Collections
  import opened Wrappers

  datatype Key = Key(account: string, name: string)

  /** The primary key of a mailbox row: a UUID derived from account and name, here taken to be
      collision free. */
  datatype MailboxId = MailboxId(key: Key)

  datatype Headers = Headers(
    subject: string, sender: string, recipients: seq<string>, toAddresses: Option<seq<string>>)

  /** One metadata dictionary as providers return it.  An `email_id` that is not a decimal number
      is represented by a UID of 0, which every check rejects in the same way. */
  datatype Email = Email(uid: nat, headers: Headers, date: Option<int>, internalDate: Option<int>, flags: seq<string>)

  datatype Row = Row(headers: Headers, date: int, internalDate: Option<int>, flags: seq<string>)

  datatype MailboxRow = MailboxRow(
    id: MailboxId, uidvalidity: nat, delimiter: Option<string>, attributes: seq<string>)

  /** The leading columns of the message table's primary key; the UID completes it. */
  datatype Epoch = Epoch(mailbox: MailboxId, uidvalidity: nat)

  datatype Completeness = PARTIAL | COMPLETE

  datatype Coverage = Coverage(
    uidvalidity: nat, uidnext: nat, messageCount: nat, lowUid: Option<nat>, highUid: Option<nat>,
    completeness: Completeness)

  /** The message table is held by epoch and then by UID, the order of its primary key. */
  datatype Tables = Tables(
    mailboxes: map<Key, MailboxRow>, messages: map<Epoch, map<nat, Row>>, coverage: map<MailboxId, Coverage>)
  {
    /** References and epochs line up: every message row and coverage row belongs to a mailbox row
        and carries that mailbox's UIDVALIDITY. */
    ghost predicate Consistent() {
      && (forall k :: k in mailboxes ==> mailboxes[k].id == MailboxId(k) && 0 < mailboxes[k].uidvalidity)
      && (forall e :: e in messages ==> Owned(e.mailbox, e.uidvalidity))
      && (forall e :: e in messages ==> 0 !in messages[e])
      && (forall id :: id in coverage ==> Owned(id, coverage[id].uidvalidity))
    }

    predicate Owned(id: MailboxId, uidvalidity: nat) {
      id.key in mailboxes && mailboxes[id.key].uidvalidity == uidvalidity
    }

    /** The rows stored for one mailbox in one epoch. */
    function RowsAt(key: Key, uidvalidity: nat): map<nat, Row> {
      var e := Epoch(MailboxId(key), uidvalidity);
      if e in messages then messages[e] else map[]
    }
  }

  /** Everything one call of write_snapshot is given. */
  datatype Snapshot = Snapshot(
    delimiter: Option<string>, attributes: seq<string>, uidvalidity: nat, uidnext: nat, messageCount: nat,
    emails: seq<Email>, complete: bool)

  datatype Baseline = Baseline(
    uidvalidity: nat, uidnext: nat, messageCount: nat, highUid: Option<nat>, emails: seq<Email>)

  /** A commit can succeed, fail with nothing changed, or raise although the change is durable. */
  datatype CommitOutcome = Committed | NotCommitted | RaisedAfterCommit

  datatype WriteResult = Written | Failed

  function Uids(emails: seq<Email>): (uids: seq<nat>)
    ensures |uids| == |emails|
    ensures forall i :: 0 <= i < |emails| ==> uids[i] == emails[i].uid
  {
    seq(|emails|, i requires 0 <= i < |emails| => emails[i].uid)
  }

  predicate Distinct<T(==)>(s: seq<T>) {
    forall i, j :: 0 <= i < j < |s| ==> s[i] != s[j]
  }

  function Elements<T>(s: seq<T>): set<T> {
    set x | x in s
  }

  lemma {:induction false} DistinctCount<T>(s: seq<T>)
    requires Distinct(s)
    ensures |Elements(s)| == |s|
  {
    if s != [] {
      DistinctCount(s[1..]);
      assert Elements(s) == {s[0]} + Elements(s[1..]);
    }
  }

  /** The checks of _validate_snapshot_coverage: bounded, positive and distinct UIDs, and for a
      complete snapshot the provider's count and counter. */
  predicate CoverageValid(w: Snapshot, rowLimit: nat) {
    && |w.emails| <= rowLimit
    && 0 !in Uids(w.emails)
    && Distinct(Uids(w.emails))
    && (w.complete ==> |w.emails| == w.messageCount && forall u :: u in Uids(w.emails) ==> u < w.uidnext)
  }

  /** When write_snapshot can succeed: valid coverage, the table constraints, and a date in every row. */
  predicate Acceptable(w: Snapshot, rowLimit: nat) {
    CoverageValid(w, rowLimit) && 0 < w.uidvalidity && 0 < w.uidnext && Dated(w.emails)
  }

  predicate Dated(emails: seq<Email>) {
    forall i :: 0 <= i < |emails| ==> emails[i].date.Some?
  }

  function RowOf(e: Email): Row
    requires e.date.Some?
  {
    Row(e.headers, e.date.value, e.internalDate, e.flags)
  }

  function EmailOf(uid: nat, row: Row): Email {
    Email(uid, row.headers, Some(row.date), row.internalDate, row.flags)
  }

  predicate Storable(emails: seq<Email>) {
    0 !in Uids(emails) && Distinct(Uids(emails)) && Dated(emails)
  }

  predicate IsRowFor(rows: map<nat, Row>, e: Email) {
    e.date.Some? && e.uid in rows && rows[e.uid] == RowOf(e)
  }

  /** The rows a list of emails stands for, keyed by UID. */
  ghost function RowsByUid(emails: seq<Email>): map<nat, Row>
    requires Dated(emails)
  {
    if emails == [] then map[]
    else
      var last := emails[|emails| - 1];
      RowsByUid(emails[..|emails| - 1])[last.uid := RowOf(last)]
  }

  /** Each email has its row, and there is no other row. */
  lemma {:induction false} RowsByUidAreExact(emails: seq<Email>)
    requires Storable(emails)
    ensures |RowsByUid(emails)| == |emails|
    ensures forall u :: u in RowsByUid(emails) <==> u in Uids(emails)
    ensures forall i :: 0 <= i < |emails| ==> IsRowFor(RowsByUid(emails), emails[i])
  {
    if emails != [] {
      var n := |emails| - 1;
      var init := emails[..n];
      assert Uids(emails) == Uids(init) + [emails[n].uid];
      assert Uids(emails)[n] != 0;
      assert Storable(init);
      RowsByUidAreExact(init);
      assert emails[n].uid !in Uids(init);
      forall i | 0 <= i < |emails| ensures IsRowFor(RowsByUid(emails), emails[i]) {
        if i < n {
          assert IsRowFor(RowsByUid(init), init[i]);
          assert Uids(emails)[i] != Uids(emails)[n];
        }
      }
    }
  }

  /** The meaning of write_snapshot: this mailbox's rows become exactly the snapshot's rows, its
      coverage row describes the snapshot, and no other mailbox is touched. */
  ghost function Replaced(t: Tables, key: Key, w: Snapshot): Tables
    requires Storable(w.emails)
  {
    var id := MailboxId(key);
    Tables(
      t.mailboxes[key := MailboxRow(id, w.uidvalidity, w.delimiter, w.attributes)],
      Purged(t.messages, id)[Epoch(id, w.uidvalidity) := RowsByUid(w.emails)],
      t.coverage[id := CoverageOf(w)])
  }

  /** DELETE … WHERE mailbox_id = id. */
  function Purged(messages: map<Epoch, map<nat, Row>>, id: MailboxId): map<Epoch, map<nat, Row>> {
    map e | e in messages && e.mailbox != id :: messages[e]
  }

  ghost function CoverageOf(w: Snapshot): Coverage {
    Coverage(w.uidvalidity, w.uidnext, w.messageCount, Least(Uids(w.emails)), Greatest(Uids(w.emails)),
      if w.complete then COMPLETE else PARTIAL)
  }

  function Least(uids: seq<nat>): Option<nat> {
    if uids == [] then None else assert uids[0] in Elements(uids); Some(Min(Elements(uids)))
  }

  function Greatest(uids: seq<nat>): Option<nat> {
    if uids == [] then None else assert uids[0] in Elements(uids); Some(Max(Elements(uids)))
  }

  /** All rows of one epoch as emails, newest UID first: one full descending select. */
  ghost function DescendingEmails(rows: map<nat, Row>): seq<Email> {
    DescendingAllIn(rows);
    EmailsOf(Descending(rows.Keys), rows)
  }

  function EmailsOf(uids: seq<nat>, rows: map<nat, Row>): (emails: seq<Email>)
    requires AllIn(uids, rows)
    ensures |emails| == |uids|
  {
    seq(|uids|, i requires 0 <= i < |uids| => EmailOf(uids[i], rows[uids[i]]))
  }

  predicate AllIn(uids: seq<nat>, rows: map<nat, Row>) {
    forall u :: u in uids ==> u in rows
  }

  function Min(s: set<nat>): (m: nat)
    requires s != {}
    ensures m in s && forall x :: x in s ==> m <= x
  {
    MinExists(s);
    var m :| m in s && forall x :: x in s ==> m <= x;
    m
  }

  lemma MinExists(s: set<nat>)
    requires s != {}
    ensures exists m :: m in s && forall x :: x in s ==> m <= x
  {
    var x :| x in s;
    MinBelow(s, x);
  }

  lemma {:induction false} MinBelow(s: set<nat>, x: nat)
    requires x in s
    ensures exists m :: m in s && forall x :: x in s ==> m <= x
  {
    if y :| y in s && y < x {
      MinBelow(s, y);
    } else {
      assert forall y :: y in s ==> x <= y;
    }
  }

  function Max(s: set<nat>): (m: nat)
    requires s != {}
    ensures m in s && forall x :: x in s ==> x <= m
  {
    MaxExists(s);
    var m :| m in s && forall x :: x in s ==> x <= m;
    m
  }

  lemma MaxExists(s: set<nat>)
    requires s != {}
    ensures exists m :: m in s && forall x :: x in s ==> x <= m
  {
    var x :| x in s;
    MaxAbove(s, x);
  }

  function Above(s: set<nat>, x: nat): set<nat> {
    set y | y in s && x < y
  }

  lemma {:induction false} MaxAbove(s: set<nat>, x: nat)
    requires x in s
    ensures exists m :: m in s && forall x :: x in s ==> x <= m
    decreases |Above(s, x)|
  {
    if y :| y in s && x < y {
      assert y in Above(s, x) && Above(s, y) <= Above(s, x) - {y};
      SubsetSize(Above(s, y), Above(s, x) - {y});
      MaxAbove(s, y);
    } else {
      assert forall y :: y in s ==> y <= x;
    }
  }

  /** The elements of a set from the largest down. */
  function Descending(s: set<nat>): (r: seq<nat>)
    ensures |r| == |s|
  {
    if s == {} then [] else [Max(s)] + Descending(s - {Max(s)})
  }

  lemma {:induction false} DescendingElements(s: set<nat>)
    ensures Elements(Descending(s)) == s
  {
    if s != {} {
      DescendingElements(s - {Max(s)});
      assert Elements(Descending(s)) == {Max(s)} + Elements(Descending(s - {Max(s)}));
    }
  }

  lemma DescendingAllIn(rows: map<nat, Row>)
    ensures AllIn(Descending(rows.Keys), rows)
  {
    DescendingElements(rows.Keys);
    assert forall u :: u in Descending(rows.Keys) ==> u in Elements(Descending(rows.Keys));
  }

  lemma {:induction false} DescendingOrder(s: set<nat>)
    ensures forall i, j :: 0 <= i < j < |Descending(s)| ==> Descending(s)[i] > Descending(s)[j]
  {
    if s != {} {
      var rest := s - {Max(s)};
      DescendingOrder(rest);
      DescendingElements(rest);
      assert forall i :: 0 <= i < |Descending(rest)| ==> Descending(rest)[i] in Elements(Descending(rest));
    }
  }

  /** Restarting below the last value seen continues the descending order where it stopped. */
  lemma {:induction false} DescendingContinues(s: set<nat>, n: nat)
    requires 0 < n <= |Descending(s)|
    ensures Descending(Below(s, Descending(s)[n - 1])) == Descending(s)[n..]
    decreases n
  {
    var top := Max(s);
    var rest := s - {top};
    assert Descending(s) == [top] + Descending(rest);
    if n == 1 {
      assert Below(s, top) == rest;
    } else {
      DescendingContinues(rest, n - 1);
      var cut := Descending(rest)[n - 2];
      assert cut == Descending(s)[n - 1];
      DescendingElements(rest);
      assert cut in Elements(Descending(rest));
      assert Below(s, cut) == Below(rest, cut);
      assert Descending(s)[n..] == Descending(rest)[n - 1..];
    }
  }

  function Below(s: set<nat>, cursor: nat): set<nat> {
    set x | x in s && x < cursor
  }

  /** What read_complete answers for the given tables. */
  ghost function CompleteRead(t: Tables, key: Key, uidvalidity: nat, uidnext: nat, messageCount: nat)
    : Option<seq<Email>>
  {
    var id := MailboxId(key);
    if key in t.mailboxes && t.mailboxes[key].uidvalidity == uidvalidity
       && id in t.coverage && t.coverage[id].uidvalidity == uidvalidity
       && t.coverage[id].uidnext == uidnext && t.coverage[id].messageCount == messageCount
       && t.coverage[id].completeness == COMPLETE
       && |t.RowsAt(key, uidvalidity)| == messageCount
    then Some(DescendingEmails(t.RowsAt(key, uidvalidity)))
    else None
  }

  /** What read_incremental_baseline answers: complete coverage of this epoch whose recorded high
      UID is the largest stored one, whatever UIDNEXT has become. */
  ghost function BaselineRead(t: Tables, key: Key, uidvalidity: nat): Option<Baseline>
  {
    var id := MailboxId(key);
    if key in t.mailboxes && t.mailboxes[key].uidvalidity == uidvalidity
       && id in t.coverage && t.coverage[id].uidvalidity == uidvalidity
       && t.coverage[id].completeness == COMPLETE
    then
      var c := t.coverage[id];
      var rows := t.RowsAt(key, uidvalidity);
      if |rows| == c.messageCount && c.highUid == (if rows == map[] then None else Some(Max(rows.Keys)))
      then Some(Baseline(uidvalidity, c.uidnext, c.messageCount, c.highUid, DescendingEmails(rows)))
      else None
    else None
  }

  /** What read_partial_emails answers: the rows of a PARTIAL window, if it has any. */
  ghost function PartialRead(t: Tables, key: Key, uidvalidity: nat): Option<seq<Email>>
  {
    var id := MailboxId(key);
    if key in t.mailboxes && t.mailboxes[key].uidvalidity == uidvalidity
       && id in t.coverage && t.coverage[id].uidvalidity == uidvalidity
       && t.coverage[id].completeness == PARTIAL
       && t.RowsAt(key, uidvalidity) != map[]
    then Some(DescendingEmails(t.RowsAt(key, uidvalidity)))
    else None
  }

  /** Coverage is dropped for the named mailboxes; the projected rows stay. */
  function WithoutCoverage(t: Tables, keys: set<Key>): Tables {
    t.(coverage := map id | id in t.coverage && id.key !in keys :: t.coverage[id])
  }

  function AccountKeys(t: Tables, account: string): set<Key> {
    set k | k in t.mailboxes && k.account == account
  }

  /** Updating a managed account's incoming endpoint deletes its mailbox rows; the message and
      coverage rows go with them. */
  function WithoutAccount(t: Tables, account: string): Tables {
    Tables(
      map k | k in t.mailboxes && k.account != account :: t.mailboxes[k],
      map e | e in t.messages && e.mailbox.key.account != account :: t.messages[e],
      map id | id in t.coverage && id.key.account != account :: t.coverage[id])
  }

  /** Nothing about one mailbox differs between two versions of the tables. */
  ghost predicate SameMailbox(t: Tables, t': Tables, k: Key) {
    && (k in t.mailboxes <==> k in t'.mailboxes)
    && (k in t.mailboxes ==> t.mailboxes[k] == t'.mailboxes[k])
    && (MailboxId(k) in t.coverage <==> MailboxId(k) in t'.coverage)
    && (MailboxId(k) in t.coverage ==> t.coverage[MailboxId(k)] == t'.coverage[MailboxId(k)])
    && forall v :: t.RowsAt(k, v) == t'.RowsAt(k, v)
  }

  lemma ReplacedIsExact(t: Tables, key: Key, w: Snapshot, rowLimit: nat)
    requires t.Consistent() && Acceptable(w, rowLimit)
    ensures var t' := Replaced(t, key, w);
      && t'.Consistent()
      && t'.RowsAt(key, w.uidvalidity) == RowsByUid(w.emails)
      && (forall v :: v != w.uidvalidity ==> t'.RowsAt(key, v) == map[])
      && forall other :: other != key ==> SameMailbox(t, t', other)
  {
    var t' := Replaced(t, key, w);
    assert t'.Consistent() by {
      ReplacedIsConsistent(t, key, w);
    }
    forall v | v != w.uidvalidity ensures t'.RowsAt(key, v) == map[] {
      assert Epoch(MailboxId(key), v) !in t'.messages;
    }
    forall other | other != key ensures SameMailbox(t, t', other) {
      OthersUntouched(t, key, w, other);
    }
  }

  lemma ReplacedIsConsistent(t: Tables, key: Key, w: Snapshot)
    requires t.Consistent() && Storable(w.emails) && 0 < w.uidvalidity
    ensures Replaced(t, key, w).Consistent()
  {
    var t' := Replaced(t, key, w);
    RowsByUidAreExact(w.emails);
    forall e | e in t'.messages ensures t'.Owned(e.mailbox, e.uidvalidity) && 0 !in t'.messages[e] {
      if e == Epoch(MailboxId(key), w.uidvalidity) {
        assert t'.messages[e] == RowsByUid(w.emails);
      } else {
        assert e in t.messages && e.mailbox != MailboxId(key) && t'.messages[e] == t.messages[e];
        assert t.Owned(e.mailbox, e.uidvalidity) && e.mailbox.key != key;
      }
    }
    forall id | id in t'.coverage ensures t'.Owned(id, t'.coverage[id].uidvalidity) {
      if id != MailboxId(key) {
        assert id in t.coverage && id.key != key;
      }
    }
  }

  lemma OthersUntouched(t: Tables, key: Key, w: Snapshot, other: Key)
    requires Storable(w.emails) && other != key
    ensures SameMailbox(t, Replaced(t, key, w), other)
  {
  }

  /** Reading straight back what was written as complete returns every row of the snapshot. */
  lemma WriteThenRead(t: Tables, key: Key, w: Snapshot, rowLimit: nat)
    requires t.Consistent() && Acceptable(w, rowLimit) && w.complete
    ensures var t' := Replaced(t, key, w);
      && CompleteRead(t', key, w.uidvalidity, w.uidnext, w.messageCount)
           == Some(DescendingEmails(RowsByUid(w.emails)))
      && BaselineRead(t', key, w.uidvalidity) == Some(Baseline(
           w.uidvalidity, w.uidnext, w.messageCount, Greatest(Uids(w.emails)), DescendingEmails(RowsByUid(w.emails))))
      && PartialRead(t', key, w.uidvalidity) == None
  {
    ReplacedIsExact(t, key, w, rowLimit);
    RowsByUidAreExact(w.emails);
    HighUid(w.emails);
  }

  lemma HighUid(emails: seq<Email>)
    requires Storable(emails)
    ensures Greatest(Uids(emails)) == if RowsByUid(emails) == map[] then None else Some(Max(RowsByUid(emails).Keys))
  {
    RowsByUidAreExact(emails);
    assert RowsByUid(emails).Keys == Elements(Uids(emails));
    if RowsByUid(emails) == map[] {
      assert |RowsByUid(emails)| == 0;
    } else {
      assert Uids(emails)[0] in Elements(Uids(emails));
    }
  }

  lemma LoadedHighUid(rows: map<nat, Row>)
    ensures Uids(DescendingEmails(rows)) == Descending(rows.Keys)
    ensures Greatest(Uids(DescendingEmails(rows))) == if rows == map[] then None else Some(Max(rows.Keys))
  {
    DescendingElements(rows.Keys);
    assert rows != map[] ==> rows.Keys != {};
    assert rows.Keys == {} <==> Descending(rows.Keys) == [];
  }
}
