/** The mail server, as section 2.3.1.1 of RFC 3501 describes it: a mailbox is a
    finite map from UIDs to immutable messages, together with the epoch number
    UIDVALIDITY and the allocation counter UIDNEXT.  A history lists the states one
    mailbox went through; every cache claim of the project is stated over histories. */
module Imap {

  import opened Collections
  import opened Wrappers

  /** The headers of a message.  They never change while the UID exists. */
  datatype Message = Message(
    subject: string, sender: string, recipients: seq<string>, toAddresses: seq<string>, date: int, internalDate: int)

  datatype Mailbox = Mailbox(uidvalidity: nat, uidnext: nat, messages: map<nat, Message>)
  {
    predicate Valid() {
      && 0 < uidvalidity
      && 0 < uidnext
      && forall u :: u in messages ==> 0 < u < uidnext
    }

    /** The STATUS answer used to qualify a cached projection. */
    function Status(): MailboxState {
      MailboxState(Some(uidvalidity), Some(uidnext), |messages|)
    }
  }

  /** What a client sees of a mailbox; a server may omit either counter. */
  datatype MailboxState = MailboxState(uidvalidity: Option<nat>, uidnext: Option<nat>, messageCount: nat)

  /** One server action.  Arriving messages take UIDs at or above UIDNEXT, which then moves
      past them (also when they are expunged again at once); an expunge leaves UIDNEXT
      alone; losing the UID table starts a larger UIDVALIDITY. */
  datatype Action =
    | Append(uid: nat, message: Message, next: nat)
    | AppendThenExpunge(next: nat)
    | Expunge(uids: set<nat>)
    | ChangeFlags
    | NewEpoch(reset: Mailbox)

  predicate Enabled(m: Mailbox, a: Action) {
    match a
    case Append(uid, _, next) => m.uidnext <= uid < next
    case AppendThenExpunge(next) => m.uidnext < next
    case Expunge(_) => true
    case ChangeFlags => true
    case NewEpoch(reset) => reset.Valid() && m.uidvalidity < reset.uidvalidity
  }

  function Apply(m: Mailbox, a: Action): Mailbox
    requires Enabled(m, a)
  {
    match a
    case Append(uid, message, next) => Mailbox(m.uidvalidity, next, m.messages[uid := message])
    case AppendThenExpunge(next) => m.(uidnext := next)
    case Expunge(uids) => m.(messages := m.messages - uids)
    case ChangeFlags => m
    case NewEpoch(reset) => reset
  }

  ghost predicate Step(m: Mailbox, m': Mailbox) {
    exists a: Action :: Enabled(m, a) && Apply(m, a) == m'
  }

  /** A nonempty sequence of states, each reached from the one before by a server action. */
  ghost predicate History(h: seq<Mailbox>) {
    && 0 < |h|
    && h[0].Valid()
    && forall i :: 0 < i < |h| ==> Step(h[i - 1], h[i])
  }

  /** What one state says about a later one: epochs only grow, and inside one epoch UIDNEXT
      only grows and a UID below the old UIDNEXT still names the old message or is gone. */
  ghost predicate Earlier(m: Mailbox, m': Mailbox) {
    && m.uidvalidity <= m'.uidvalidity
    && (m.uidvalidity == m'.uidvalidity ==>
          && m.uidnext <= m'.uidnext
          && forall u :: u in m'.messages && u < m.uidnext ==> u in m.messages && m.messages[u] == m'.messages[u])
  }

  lemma {:induction false} HistoryIsMonotone(h: seq<Mailbox>, i: nat, j: nat)
    requires History(h) && i <= j < |h|
    ensures h[j].Valid() && Earlier(h[i], h[j])
    decreases j
  {
    if j == 0 {
      assert i == 0;
    } else {
      HistoryIsMonotone(h, j - 1, j - 1);
      assert Step(h[j - 1], h[j]);
      if i < j {
        HistoryIsMonotone(h, i, j - 1);
      }
    }
  }

  lemma HistoryExtends(h: seq<Mailbox>, m: Mailbox)
    requires History(h) && Step(Last(h), m)
    ensures History(h + [m])
  {
  }

  /** The qualification rule of the cache.  Within one history, UIDVALIDITY, UIDNEXT and the
      message count together name the mailbox contents: two states that agree on the three
      numbers hold the same messages under the same UIDs, and so does every state between. */
  lemma StatusNamesContents(h: seq<Mailbox>, i: nat, k: nat, j: nat)
    requires History(h) && i <= k <= j < |h|
    requires h[i].Status() == h[j].Status()
    ensures h[i] == h[k] == h[j]
  {
    HistoryIsMonotone(h, i, j);
    HistoryIsMonotone(h, i, k);
    HistoryIsMonotone(h, k, j);
    SubmapOfEqualSize(h[j].messages, h[i].messages);
    assert forall u :: u in h[j].messages ==> u in h[k].messages && u in h[i].messages;
    assert h[j].messages.Keys <= h[k].messages.Keys <= h[i].messages.Keys;
    assert h[k].messages == h[i].messages;
  }

  /** Neither half of that rule can be dropped: the count with UIDVALIDITY alone is matched by a
      replacement, and UIDVALIDITY with UIDNEXT alone is matched by an expunge. */
  lemma EachNumberIsNeeded(x: Message, y: Message)
    ensures exists h: seq<Mailbox> :: History(h) && AgreeExceptOnUidnext(h) && h[0].messages != Last(h).messages
    ensures exists h: seq<Mailbox> :: History(h) && AgreeExceptOnCount(h) && h[0].messages != Last(h).messages
  {
    var a := Mailbox(1, 2, map[1 := x]);
    var b := Apply(a, Expunge({1}));
    var c := Apply(b, Append(2, y, 3));
    assert Enabled(a, Expunge({1})) && Enabled(b, Append(2, y, 3));
    assert b.messages == map[] && c.messages == map[2 := y];
    assert 1 in a.messages && 1 !in c.messages && 1 !in b.messages;
    assert Step(a, b) && Step(b, c);
    var replaced := [a, b, c];
    assert replaced[0] == a && replaced[1] == b && replaced[2] == c;
    assert History(replaced) && AgreeExceptOnUidnext(replaced);
    var expunged := [a, b];
    assert expunged[0] == a && expunged[1] == b;
    assert History(expunged) && AgreeExceptOnCount(expunged);
  }

  predicate AgreeExceptOnUidnext(h: seq<Mailbox>) {
    0 < |h| && h[0].uidvalidity == Last(h).uidvalidity && |h[0].messages| == |Last(h).messages|
  }

  predicate AgreeExceptOnCount(h: seq<Mailbox>) {
    0 < |h| && h[0].uidvalidity == Last(h).uidvalidity && h[0].uidnext == Last(h).uidnext
  }
}
