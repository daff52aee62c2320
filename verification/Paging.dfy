/** Filtering, ordering and slicing of metadata rows into response pages. */
module Paging {
  import opened Imap
  import opened MetadataTables
  import opened MetadataMerge
  import opened Wrappers

  /** The part of a metadata query the local pager looks at.  `otherFilters` says that a date, flag,
      body, attachment or keyword filter is present. */
  datatype Query = Query(
    key: Key, page: nat, pageSize: nat, descending: bool,
    subject: Option<string>, fromAddress: Option<string>, toAddress: Option<string>, otherFilters: bool)
  {
    predicate Valid() {
      1 <= page && 1 <= pageSize <= 100
    }

    predicate IndexSupported() {
      subject.None? && fromAddress.None? && toAddress.None? && !otherFilters
    }

    predicate IsHeaderText() {
      (Given(subject) || Given(fromAddress) || Given(toAddress)) && !otherFilters
    }
  }

  /** Python's truth of an optional string. */
  predicate Given(o: Option<string>) {
    o.Some? && o.value != ""
  }

  /** Sender allow-listing and case-insensitive containment of decoded headers, left abstract. */
  datatype Matcher = Matcher(senderAllowed: string -> bool, contains: (string, seq<string>) -> bool)

  /** To predicates can be answered only by rows that stored the To header on its own. */
  predicate CanAnswer(query: Query, emails: seq<Email>) {
    Given(query.toAddress) ==> forall i :: 0 <= i < |emails| ==> emails[i].headers.toAddresses.Some?
  }

  predicate HeaderMatches(query: Query, matcher: Matcher, h: Headers) {
    && (Given(query.subject) ==> matcher.contains(query.subject.value, [h.subject]))
    && (Given(query.fromAddress) ==> matcher.contains(query.fromAddress.value, [h.sender]))
    && (Given(query.toAddress) ==>
          h.toAddresses.Some? && matcher.contains(query.toAddress.value, h.toAddresses.value))
  }

  predicate Visible(query: Query, matcher: Matcher, e: Email) {
    && (query.IsHeaderText() ==> HeaderMatches(query, matcher, e.headers))
    && matcher.senderAllowed(e.headers.sender)
  }

  function VisibleRows(query: Query, matcher: Matcher, emails: seq<Email>): seq<Email> {
    if emails == [] then []
    else (if Visible(query, matcher, emails[0]) then [emails[0]] else []) + VisibleRows(query, matcher, emails[1..])
  }

  const EARLIEST: int := -62135596800000000
  const LATEST: int := 253402300799999999

  datatype SortKey = SortKey(group: bool, instant: int, uid: nat)

  /** Undated rows get the group that sorts last in the chosen direction. */
  function SortKeyOf(e: Email, descending: bool): SortKey {
    if e.internalDate.Some? then SortKey(descending, e.internalDate.value, e.uid)
    else SortKey(!descending, if descending then EARLIEST else LATEST, e.uid)
  }

  predicate KeyLess(a: SortKey, b: SortKey) {
    || (!a.group && b.group)
    || (a.group == b.group && a.instant < b.instant)
    || (a.group == b.group && a.instant == b.instant && a.uid < b.uid)
  }

  predicate Precedes(a: Email, b: Email, descending: bool) {
    if descending then KeyLess(SortKeyOf(b, true), SortKeyOf(a, true))
    else KeyLess(SortKeyOf(a, false), SortKeyOf(b, false))
  }

  /** On rows with different UIDs the order is strict and total, so no tie is left to the sort. */
  lemma PrecedesIsStrictTotalOrder(a: Email, b: Email, c: Email, descending: bool)
    ensures !Precedes(a, a, descending)
    ensures Precedes(a, b, descending) && Precedes(b, c, descending) ==> Precedes(a, c, descending)
    ensures a.uid != b.uid ==> (Precedes(a, b, descending) <==> !Precedes(b, a, descending))
    ensures a.internalDate.Some? && b.internalDate.None? ==> Precedes(a, b, descending)
  {
  }

  function Insert(e: Email, rows: seq<Email>, descending: bool): seq<Email> {
    if rows == [] || Precedes(e, rows[0], descending) then [e] + rows
    else [rows[0]] + Insert(e, rows[1..], descending)
  }

  function Sort(rows: seq<Email>, descending: bool): seq<Email> {
    if rows == [] then [] else Insert(rows[0], Sort(rows[1..], descending), descending)
  }

  /** Ascending by sort key, or descending when asked for: no row stands after one it precedes. */
  predicate InOrder(rows: seq<Email>, descending: bool) {
    rows == [] || (IsFirst(rows[0], rows[1..], descending) && InOrder(rows[1..], descending))
  }

  predicate IsFirst(e: Email, rows: seq<Email>, descending: bool) {
    forall x :: x in rows ==> !Precedes(x, e, descending)
  }

  /** Rows with the same UID are the same row. */
  predicate UidsIdentify(rows: seq<Email>) {
    forall x, y :: x in rows && y in rows && x.uid == y.uid ==> x == y
  }

  lemma SameElements<T>(a: seq<T>, b: seq<T>)
    requires multiset(a) == multiset(b)
    ensures |a| == |b| && forall x :: x in a <==> x in b
  {
    assert |multiset(a)| == |multiset(b)|;
    forall x ensures x in a <==> x in b {
      assert x in a <==> x in multiset(a);
      assert x in b <==> x in multiset(b);
    }
  }

  lemma {:induction false} InsertIsOrdered(e: Email, rows: seq<Email>, descending: bool)
    requires InOrder(rows, descending)
    ensures multiset(Insert(e, rows, descending)) == multiset(rows) + multiset{e}
    ensures InOrder(Insert(e, rows, descending), descending)
  {
    if rows == [] {
    } else if Precedes(e, rows[0], descending) {
      forall x | x in rows ensures !Precedes(x, e, descending) {
        assert x == rows[0] || x in rows[1..];
        PrecedesIsStrictTotalOrder(x, e, rows[0], descending);
      }
      assert ([e] + rows)[1..] == rows;
    } else {
      InsertIsOrdered(e, rows[1..], descending);
      InsertBehindHead(e, rows, Insert(e, rows[1..], descending), descending);
    }
  }

  lemma InsertBehindHead(e: Email, rows: seq<Email>, tail: seq<Email>, descending: bool)
    requires rows != [] && IsFirst(rows[0], rows[1..], descending) && !Precedes(e, rows[0], descending)
    requires multiset(tail) == multiset(rows[1..]) + multiset{e} && InOrder(tail, descending)
    ensures multiset([rows[0]] + tail) == multiset(rows) + multiset{e}
    ensures InOrder([rows[0]] + tail, descending)
  {
    assert rows == [rows[0]] + rows[1..];
    assert multiset(tail) == multiset(rows[1..] + [e]);
    SameElements(tail, rows[1..] + [e]);
    assert ([rows[0]] + tail)[1..] == tail;
  }

  lemma {:induction false} SortIsOrdered(rows: seq<Email>, descending: bool)
    ensures multiset(Sort(rows, descending)) == multiset(rows)
    ensures InOrder(Sort(rows, descending), descending)
  {
    if rows != [] {
      assert rows == [rows[0]] + rows[1..];
      SortIsOrdered(rows[1..], descending);
      InsertIsOrdered(rows[0], Sort(rows[1..], descending), descending);
    }
  }

  /** Only one arrangement of the same rows is in order: what the pager shows cannot depend on the
      order in which rows were stored or fetched. */
  lemma {:induction false} OrderIsUnique(a: seq<Email>, b: seq<Email>, descending: bool)
    requires InOrder(a, descending) && InOrder(b, descending) && multiset(a) == multiset(b)
    requires UidsIdentify(a)
    ensures a == b
  {
    SameElements(a, b);
    if a != [] {
      assert a == [a[0]] + a[1..] && b == [b[0]] + b[1..];
      assert a[0] in b && b[0] in a;
      assert a[0].uid == b[0].uid by {
        PrecedesIsStrictTotalOrder(a[0], b[0], a[0], descending);
      }
      assert multiset(a[1..]) == multiset(a) - multiset{a[0]};
      assert multiset(b[1..]) == multiset(b) - multiset{b[0]};
      assert forall x :: x in a[1..] ==> x in a;
      OrderIsUnique(a[1..], b[1..], descending);
    }
  }

  /** Undated rows come after every dated row in both directions. */
  lemma {:induction false} UndatedComeLast(rows: seq<Email>, descending: bool, i: nat, j: nat)
    requires InOrder(rows, descending) && i < j < |rows|
    ensures rows[i].internalDate.None? ==> rows[j].internalDate.None?
  {
    if i == 0 {
      assert rows[j] == rows[1..][j - 1];
      PrecedesIsStrictTotalOrder(rows[j], rows[i], rows[i], descending);
    } else {
      UndatedComeLast(rows[1..], descending, i - 1, j - 1);
    }
  }

  datatype Entry = Entry(uid: nat, subject: string, sender: string, recipients: seq<string>, date: Option<int>)

  /** The part of a response row that does not come from a fresh flag read. */
  function EntryOf(e: Email): Entry {
    Entry(e.uid, e.headers.subject, e.headers.sender, e.headers.recipients, e.date)
  }

  function EntriesOf(rows: seq<Email>): (entries: seq<Entry>)
    ensures |entries| == |rows|
    ensures forall i :: 0 <= i < |rows| ==> entries[i] == EntryOf(rows[i])
  {
    seq(|rows|, i requires 0 <= i < |rows| => EntryOf(rows[i]))
  }

  datatype Response = Response(entries: seq<Entry>, total: nat)

  function Slice<T>(s: seq<T>, start: nat, size: nat): seq<T> {
    if |s| <= start then [] else if |s| <= start + size then s[start..] else s[start..start + size]
  }

  function PageResponse(query: Query, matcher: Matcher, emails: seq<Email>): Response
    requires query.Valid()
  {
    var visible := Sort(VisibleRows(query, matcher, emails), query.descending);
    Response(EntriesOf(Slice(visible, (query.page - 1) * query.pageSize, query.pageSize)), |visible|)
  }

  /** The entries of pages 1 to n, one after the other. */
  function Pages(query: Query, matcher: Matcher, emails: seq<Email>, n: nat): seq<Entry>
    requires query.Valid()
  {
    if n == 0 then []
    else Pages(query, matcher, emails, n - 1) + PageResponse(query.(page := n), matcher, emails).entries
  }

  lemma {:induction false} PagesArePrefix(query: Query, matcher: Matcher, emails: seq<Email>, n: nat)
    requires query.Valid()
    ensures Pages(query, matcher, emails, n)
      == Slice(EntriesOf(Sort(VisibleRows(query, matcher, emails), query.descending)), 0, n * query.pageSize)
  {
    if n != 0 {
      var entries := EntriesOf(Sort(VisibleRows(query, matcher, emails), query.descending));
      var start := (n - 1) * query.pageSize;
      NextPageStart(n, query.pageSize);
      PagesArePrefix(query, matcher, emails, n - 1);
      PageIsSlice(query, matcher, emails, n, start);
      SlicesJoin(entries, start, query.pageSize);
    }
  }

  lemma PageIsSlice(query: Query, matcher: Matcher, emails: seq<Email>, n: nat, start: nat)
    requires query.Valid() && 0 < n && start == (n - 1) * query.pageSize
    ensures PageResponse(query.(page := n), matcher, emails).entries
      == Slice(EntriesOf(Sort(VisibleRows(query, matcher, emails), query.descending)), start, query.pageSize)
  {
    SameVisibleRows(query.(page := n), query, matcher, emails);
    SliceOfEntries(Sort(VisibleRows(query, matcher, emails), query.descending), start, query.pageSize);
  }

  lemma NextPageStart(n: nat, size: nat)
    requires 0 < n
    ensures n * size == (n - 1) * size + size && 0 <= (n - 1) * size
  {
  }

  lemma SlicesJoin<T>(s: seq<T>, start: nat, size: nat)
    ensures Slice(s, 0, start) + Slice(s, start, size) == Slice(s, 0, start + size)
  {
  }

  lemma SliceOfEntries(rows: seq<Email>, start: nat, size: nat)
    ensures EntriesOf(Slice(rows, start, size)) == Slice(EntriesOf(rows), start, size)
  {
  }

  lemma {:induction false} SameVisibleRows(q: Query, r: Query, matcher: Matcher, emails: seq<Email>)
    requires q == r.(page := q.page)
    ensures VisibleRows(q, matcher, emails) == VisibleRows(r, matcher, emails)
  {
    if emails != [] {
      SameVisibleRows(q, r, matcher, emails[1..]);
    }
  }

  /** `rows` holds each visible row as often as `emails` does, and nothing else. */
  ghost predicate Filtered(query: Query, matcher: Matcher, emails: seq<Email>, rows: seq<Email>) {
    forall e :: e in emails || e in rows ==>
      multiset(rows)[e] == if Visible(query, matcher, e) then multiset(emails)[e] else 0
  }

  lemma {:induction false} VisibleAreFiltered(query: Query, matcher: Matcher, emails: seq<Email>)
    ensures Filtered(query, matcher, emails, VisibleRows(query, matcher, emails))
  {
    if emails != [] {
      assert emails == [emails[0]] + emails[1..];
      VisibleAreFiltered(query, matcher, emails[1..]);
      assert multiset(emails) == multiset{emails[0]} + multiset(emails[1..]);
    }
  }

  /** Paging is a partition: enough pages, in turn, show every visible row exactly as often as it
      occurs, in the requested order, and every page reports the same total. */
  lemma PagesPartitionVisibleRows(query: Query, matcher: Matcher, emails: seq<Email>, n: nat)
    requires query.Valid() && |emails| <= n * query.pageSize
    ensures exists rows ::
      && InOrder(rows, query.descending)
      && Pages(query, matcher, emails, n) == EntriesOf(rows)
      && Filtered(query, matcher, emails, rows)
      && forall k :: 1 <= k ==> PageResponse(query.(page := k), matcher, emails).total == |rows|
  {
    var visible := VisibleRows(query, matcher, emails);
    var rows := Sort(visible, query.descending);
    SortIsOrdered(visible, query.descending);
    VisibleAreFiltered(query, matcher, emails);
    VisibleAreFewer(query, matcher, emails);
    SameElements(rows, visible);
    PagesAreAll(query, matcher, emails, n);
    forall k | 1 <= k ensures PageResponse(query.(page := k), matcher, emails).total == |rows| {
      SameVisibleRows(query, query.(page := k), matcher, emails);
    }
  }

  lemma PagesAreAll(query: Query, matcher: Matcher, emails: seq<Email>, n: nat)
    requires query.Valid() && |Sort(VisibleRows(query, matcher, emails), query.descending)| <= n * query.pageSize
    ensures Pages(query, matcher, emails, n) == EntriesOf(Sort(VisibleRows(query, matcher, emails), query.descending))
  {
    PagesArePrefix(query, matcher, emails, n);
    WholeSlice(EntriesOf(Sort(VisibleRows(query, matcher, emails), query.descending)), n * query.pageSize);
  }

  lemma WholeSlice<T>(s: seq<T>, size: nat)
    requires |s| <= size
    ensures Slice(s, 0, size) == s
  {
  }

  lemma {:induction false} VisibleAreFewer(query: Query, matcher: Matcher, emails: seq<Email>)
    ensures |VisibleRows(query, matcher, emails)| <= |emails|
  {
    if emails != [] {
      VisibleAreFewer(query, matcher, emails[1..]);
    }
  }

  /** A message as the most complete row for it would look. */
  function FullRow(uid: nat, m: Message): Email {
    Email(uid, Headers(m.subject, m.sender, m.recipients, Some(m.toAddresses)), Some(m.date), Some(m.internalDate), [])
  }

  function FullRows(uids: seq<nat>, messages: map<nat, Message>): (rows: seq<Email>)
    requires forall u :: u in uids ==> u in messages
    ensures |rows| == |uids|
    ensures forall i :: 0 <= i < |uids| ==> rows[i] == FullRow(uids[i], messages[uids[i]])
  {
    seq(|uids|, i requires 0 <= i < |uids| => FullRow(uids[i], messages[uids[i]]))
  }

  /** The page of a mailbox itself, with no cache in between. */
  ghost function MailboxPage(query: Query, matcher: Matcher, m: Mailbox): Response
    requires query.Valid()
  {
    DescendingElements(m.messages.Keys);
    assert forall u :: u in Descending(m.messages.Keys) ==> u in Elements(Descending(m.messages.Keys));
    PageResponse(query, matcher, FullRows(Descending(m.messages.Keys), m.messages))
  }

  /** Two rows the pager cannot tell apart. */
  predicate Alike(query: Query, matcher: Matcher, a: Email, b: Email) {
    && EntryOf(a) == EntryOf(b)
    && a.internalDate == b.internalDate
    && (Visible(query, matcher, a) <==> Visible(query, matcher, b))
  }

  predicate AllAlike(query: Query, matcher: Matcher, a: seq<Email>, b: seq<Email>) {
    |a| == |b| && forall i :: 0 <= i < |a| ==> Alike(query, matcher, a[i], b[i])
  }

  lemma {:induction false} VisibleAlike(query: Query, matcher: Matcher, a: seq<Email>, b: seq<Email>)
    requires AllAlike(query, matcher, a, b)
    ensures AllAlike(query, matcher, VisibleRows(query, matcher, a), VisibleRows(query, matcher, b))
  {
    if a != [] {
      assert Alike(query, matcher, a[0], b[0]);
      VisibleAlike(query, matcher, a[1..], b[1..]);
    }
  }

  lemma AlikeOrder(
    query: Query, matcher: Matcher, x: Email, y: Email, a: Email, b: Email, descending: bool)
    requires Alike(query, matcher, x, y) && Alike(query, matcher, a, b)
    ensures Precedes(x, a, descending) <==> Precedes(y, b, descending)
  {
  }

  lemma ConsAlike(query: Query, matcher: Matcher, x: Email, y: Email, a: seq<Email>, b: seq<Email>)
    requires Alike(query, matcher, x, y) && AllAlike(query, matcher, a, b)
    ensures AllAlike(query, matcher, [x] + a, [y] + b)
  {
  }

  lemma TailAlike(query: Query, matcher: Matcher, a: seq<Email>, b: seq<Email>)
    requires AllAlike(query, matcher, a, b) && a != []
    ensures Alike(query, matcher, a[0], b[0]) && AllAlike(query, matcher, a[1..], b[1..])
  {
  }

  lemma {:induction false} InsertAlike(
    query: Query, matcher: Matcher, x: Email, y: Email, a: seq<Email>, b: seq<Email>, descending: bool)
    requires Alike(query, matcher, x, y) && AllAlike(query, matcher, a, b)
    ensures AllAlike(query, matcher, Insert(x, a, descending), Insert(y, b, descending))
  {
    if a == [] {
      ConsAlike(query, matcher, x, y, a, b);
    } else {
      TailAlike(query, matcher, a, b);
      AlikeOrder(query, matcher, x, y, a[0], b[0], descending);
      if Precedes(x, a[0], descending) {
        ConsAlike(query, matcher, x, y, a, b);
      } else {
        InsertAlike(query, matcher, x, y, a[1..], b[1..], descending);
        ConsAlike(query, matcher, a[0], b[0], Insert(x, a[1..], descending), Insert(y, b[1..], descending));
      }
    }
  }

  lemma {:induction false} SortAlike(query: Query, matcher: Matcher, a: seq<Email>, b: seq<Email>, descending: bool)
    requires AllAlike(query, matcher, a, b)
    ensures AllAlike(query, matcher, Sort(a, descending), Sort(b, descending))
  {
    if a != [] {
      SortAlike(query, matcher, a[1..], b[1..], descending);
      InsertAlike(query, matcher, a[0], b[0], Sort(a[1..], descending), Sort(b[1..], descending), descending);
    }
  }

  lemma AlikePages(query: Query, matcher: Matcher, a: seq<Email>, b: seq<Email>)
    requires query.Valid() && AllAlike(query, matcher, a, b)
    ensures PageResponse(query, matcher, a) == PageResponse(query, matcher, b)
  {
    VisibleAlike(query, matcher, a, b);
    var v, w := VisibleRows(query, matcher, a), VisibleRows(query, matcher, b);
    SortAlike(query, matcher, v, w, query.descending);
    var r, q := Sort(v, query.descending), Sort(w, query.descending);
    var start := (query.page - 1) * query.pageSize;
    SliceOfEntries(r, start, query.pageSize);
    SliceOfEntries(q, start, query.pageSize);
    assert EntriesOf(r) == EntriesOf(q);
  }

  lemma PermutedPages(query: Query, matcher: Matcher, a: seq<Email>, b: seq<Email>)
    requires query.Valid() && multiset(a) == multiset(b) && UidsIdentify(a)
    ensures PageResponse(query, matcher, a) == PageResponse(query, matcher, b)
  {
    var v, w := VisibleRows(query, matcher, a), VisibleRows(query, matcher, b);
    VisibleAreFiltered(query, matcher, a);
    VisibleAreFiltered(query, matcher, b);
    SameElements(a, b);
    SameFilter(query, matcher, a, b, v, w);
    SortIsOrdered(v, query.descending);
    SortIsOrdered(w, query.descending);
    SameElements(v, Sort(v, query.descending));
    VisibleAmong(query, matcher, a);
    OrderIsUnique(Sort(v, query.descending), Sort(w, query.descending), query.descending);
  }

  lemma SameFilter(query: Query, matcher: Matcher, a: seq<Email>, b: seq<Email>, v: seq<Email>, w: seq<Email>)
    requires multiset(a) == multiset(b) && Filtered(query, matcher, a, v) && Filtered(query, matcher, b, w)
    ensures multiset(v) == multiset(w)
  {
  }

  lemma {:induction false} VisibleAmong(query: Query, matcher: Matcher, emails: seq<Email>)
    ensures forall e :: e in VisibleRows(query, matcher, emails) ==> e in emails
  {
    if emails != [] {
      VisibleAmong(query, matcher, emails[1..]);
    }
  }

  lemma DistinctPermutation<T>(a: seq<T>, b: seq<T>)
    requires Distinct(a) && Distinct(b) && Elements(a) == Elements(b)
    ensures multiset(a) == multiset(b)
  {
    DistinctMultiset(a);
    DistinctMultiset(b);
  }

  lemma {:induction false} DistinctMultiset<T>(s: seq<T>)
    requires Distinct(s)
    ensures multiset(s) == multiset(Elements(s))
  {
    if s != [] {
      DistinctMultiset(s[1..]);
      assert s == [s[0]] + s[1..];
      assert s[0] !in s[1..];
      assert Elements(s) == {s[0]} + Elements(s[1..]);
    }
  }

  /** A cached page equals a fresh page: any complete listing of a mailbox, cached, refreshed or
      merged, in any order, gives the page the mailbox itself would give. */
  lemma ListingGivesMailboxPage(query: Query, matcher: Matcher, emails: seq<Email>, m: Mailbox)
    requires query.Valid()
    requires Lists(emails, m.messages) && HaveInternalDates(emails) && CanAnswer(query, emails)
    ensures PageResponse(query, matcher, emails) == MailboxPage(query, matcher, m)
  {
    var uids := Uids(emails);
    var down := Descending(m.messages.Keys);
    assert forall u :: u in uids ==> u in Elements(uids);
    var full := FullRows(uids, m.messages);
    forall i | 0 <= i < |emails| ensures Alike(query, matcher, emails[i], full[i]) {
      assert Agrees(emails[i], m.messages[emails[i].uid]);
    }
    AlikePages(query, matcher, emails, full);
    DescendingElements(m.messages.Keys);
    DescendingOrder(m.messages.Keys);
    assert forall u :: u in down ==> u in Elements(down);
    DistinctPermutation(uids, down);
    FullRowsPermute(uids, down, m.messages);
    PermutedPages(query, matcher, full, FullRows(down, m.messages));
  }

  lemma FullRowsPermute(a: seq<nat>, b: seq<nat>, messages: map<nat, Message>)
    requires multiset(a) == multiset(b)
    requires forall u :: u in a || u in b ==> u in messages
    ensures multiset(FullRows(a, messages)) == multiset(FullRows(b, messages))
    ensures UidsIdentify(FullRows(a, messages))
  {
    FullRowsCount(a, messages);
    FullRowsCount(b, messages);
  }

  // How often row e comes out of a list of UIDs.
  ghost function Copies(e: Email, uids: seq<nat>, messages: map<nat, Message>): nat {
    if e.uid in messages && e == FullRow(e.uid, messages[e.uid]) then multiset(uids)[e.uid] else 0
  }

  lemma {:induction false} FullRowsCount(uids: seq<nat>, messages: map<nat, Message>)
    requires forall u :: u in uids ==> u in messages
    ensures forall e :: multiset(FullRows(uids, messages))[e] == Copies(e, uids, messages)
  {
    if uids != [] {
      FullRowsCount(uids[1..], messages);
      assert uids == [uids[0]] + uids[1..];
      assert FullRows(uids, messages) == [FullRow(uids[0], messages[uids[0]])] + FullRows(uids[1..], messages);
    }
  }
}
