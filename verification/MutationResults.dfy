/** What mutation services report, how it is rendered as JSON, and the checks it passes through.  The
    checks of the parts leave so much room that the check of the whole can never fail. */
module MutationResults {
  import opened Wrappers

  datatype Status = Succeeded | NotDone | Unknown

  datatype Target = Target(name: string, status: Status, detail: Option<string>)

  /** The constructor turns any unknown target into a need for reconciliation. */
  datatype Batch = Batch(targets: seq<Target>, reconciliation: bool)

  /** The copy of a sent message that is stored after delivery. */
  datatype CopyStatus = Skipped | Stored | CopyFailed | CopyUnknown

  datatype Copy = Copy(status: CopyStatus, mailbox: Option<string>, detail: Option<string>)

  /** What the outgoing server did, and the identifier of the message if it took it. */
  datatype Delivery = Delivery(targets: seq<Target>, messageId: Option<string>)

  datatype Send = Send(delivery: Delivery, copy: Copy, reconciliation: bool)

  /** Where a batch was moved to, if the service reports that. */
  datatype Destination = Nowhere | MovedTo(mailbox: string) | ArchivedTo(mailbox: string)

  const MAX_TARGETS := 100
  const ADDRESS_BYTES := 1024
  const MAILBOX_BYTES := 1024
  const DETAIL_BYTES := 4096
  const HEADER_BYTES := 64 * 1024
  const RESPONSE_BYTES := 8 * 1024 * 1024

  predicate IsControl(c: char) {
    c as int < 0x20 || c as int == 0x7F
  }

  /** White space as it is stripped from a string; the control characters among it are refused anyway. */
  predicate IsWhite(c: char) {
    var i := c as int;
    || 0x09 <= i <= 0x0D || 0x1C <= i <= 0x20 || i == 0x85 || i == 0xA0 || i == 0x1680 || 0x2000 <= i <= 0x200A
    || i == 0x2028 || i == 0x2029 || i == 0x202F || i == 0x205F || i == 0x3000
  }

  /** The bytes of a character in UTF-8. */
  function Width(c: char): nat {
    if c as int < 0x80 then 1 else if c as int < 0x800 then 2 else if c as int < 0x10000 then 3 else 4
  }

  function Bytes(s: string): nat {
    if s == "" then 0 else Bytes(s[..|s| - 1]) + Width(s[|s| - 1])
  }

  /** validate_controlled_string */
  predicate Controlled(s: string, limit: nat, allowEmpty: bool) {
    && (allowEmpty || exists i :: 0 <= i < |s| && !IsWhite(s[i]))
    && (forall i :: 0 <= i < |s| ==> !IsControl(s[i]))
    && Bytes(s) <= limit
  }

  predicate ValidDetail(detail: Option<string>) {
    detail.Some? ==> Controlled(detail.value, DETAIL_BYTES, true)
  }

  predicate ValidTargets(targets: seq<Target>) {
    |targets| <= MAX_TARGETS && forall i :: 0 <= i < |targets| ==> ValidTarget(targets[i])
  }

  predicate ValidTarget(t: Target) {
    Controlled(t.name, ADDRESS_BYTES, false) && ValidDetail(t.detail)
  }

  predicate ValidMessageId(id: Option<string>) {
    id.Some? ==> Controlled(id.value, HEADER_BYTES, false)
  }

  predicate ValidMailbox(name: string) {
    Controlled(name, MAILBOX_BYTES, false)
  }

  predicate ValidCopy(copy: Copy) {
    (copy.mailbox.Some? ==> ValidMailbox(copy.mailbox.value)) && ValidDetail(copy.detail)
  }

  /** The four checks of results, each of the parts and of the rendered whole. */
  predicate ValidBatch(b: Batch, to: Destination) {
    ValidTargets(b.targets) && Bytes(BatchJson(b, to)) <= RESPONSE_BYTES
  }

  predicate ValidDelivery(d: Delivery) {
    ValidTargets(d.targets) && ValidMessageId(d.messageId) && Bytes(DeliveryJson(d)) <= RESPONSE_BYTES
  }

  predicate ValidSend(s: Send) {
    && ValidTargets(s.delivery.targets) && ValidCopy(s.copy) && ValidMessageId(s.delivery.messageId)
    && Bytes(SendJson(s)) <= RESPONSE_BYTES
  }

  function Escape(s: string): string {
    if s == "" then "" else Escape(s[..|s| - 1]) + EscapeChar(s[|s| - 1])
  }

  /** Section 7 of RFC 8259; a control character that has a short form is written in it, which is
      shorter still. */
  function EscapeChar(c: char): string {
    if c == '\"' || c == '\\' then ['\\', c]
    else if c == '\n' then "\\n"
    else if c == '\r' then "\\r"
    else if c == '\t' then "\\t"
    else if c as int == 8 then "\\b"
    else if c as int == 12 then "\\f"
    else if c as int < 0x20 then "\\u00" + [Digit(c as int / 16), Digit(c as int % 16)]
    else [c]
  }

  function Digit(i: nat): char
    requires i < 16
  {
    "0123456789abcdef"[i]
  }

  function Quoted(s: string): string {
    "\"" + Escape(s) + "\""
  }

  function OrNull(s: Option<string>): string {
    if s.Some? then Quoted(s.value) else "null"
  }

  function Flag(b: bool): string {
    if b then "true" else "false"
  }

  function Join(parts: seq<string>): string {
    if parts == [] then "" else if |parts| == 1 then parts[0] else parts[0] + "," + Join(parts[1..])
  }

  function Field(key: string, value: string): string {
    "\"" + key + "\":" + value
  }

  function Object(fields: seq<string>): string {
    "{" + Join(fields) + "}"
  }

  function List(values: seq<string>): string {
    "[" + Join(values) + "]"
  }

  function StatusName(status: Status): string {
    match status
    case Succeeded => "succeeded"
    case NotDone => "failed"
    case Unknown => "unknown"
  }

  function CopyStatusName(status: CopyStatus): string {
    match status
    case Skipped => "skipped"
    case Stored => "succeeded"
    case CopyFailed => "failed"
    case CopyUnknown => "unknown"
  }

  function TargetJson(t: Target): string {
    Object([Field("target", Quoted(t.name)), Field("status", Quoted(StatusName(t.status))), Field("detail", OrNull(t.detail))])
  }

  function TargetsJson(targets: seq<Target>): string {
    List(seq(|targets|, i requires 0 <= i < |targets| => TargetJson(targets[i])))
  }

  function BatchJson(b: Batch, to: Destination): string {
    var outcomes := Field("outcomes", TargetsJson(b.targets));
    var reconciliation := Field("reconciliation_needed", Flag(b.reconciliation));
    match to
    case Nowhere => Object([outcomes, reconciliation])
    case MovedTo(mailbox) => Object([outcomes, reconciliation, Field("destination_mailbox", Quoted(mailbox))])
    case ArchivedTo(mailbox) =>
      Object([Field("batch", Object([outcomes, reconciliation])), Field("archive_mailbox", Quoted(mailbox))])
  }

  function DeliveryJson(d: Delivery): string {
    Object([Field("outcomes", TargetsJson(d.targets)), Field("message_id", OrNull(d.messageId))])
  }

  function CopyJson(copy: Copy): string {
    Object([Field("status", Quoted(CopyStatusName(copy.status))), Field("mailbox", OrNull(copy.mailbox)),
            Field("detail", OrNull(copy.detail))])
  }

  function SendJson(s: Send): string {
    Object([Field("delivery", TargetsJson(s.delivery.targets)), Field("sent_copy", CopyJson(s.copy)),
            Field("reconciliation_needed", Flag(s.reconciliation)), Field("message_id", OrNull(s.delivery.messageId))])
  }

  lemma {:induction false} BytesOfBoth(a: string, b: string)
    ensures Bytes(a + b) == Bytes(a) + Bytes(b)
  {
    if b == "" {
      assert a + b == a;
    } else {
      assert (a + b)[..|a + b| - 1] == a + b[..|b| - 1];
      BytesOfBoth(a, b[..|b| - 1]);
    }
  }

  lemma {:induction false} BytesAtMost(s: string)
    ensures Bytes(s) <= 4 * |s|
  {
    if s != "" {
      BytesAtMost(s[..|s| - 1]);
    }
  }

  /** Without control characters escaping at most doubles a text. */
  lemma {:induction false} EscapeDoubles(s: string)
    requires forall i :: 0 <= i < |s| ==> !IsControl(s[i])
    ensures Bytes(Escape(s)) <= 2 * Bytes(s)
  {
    if s != "" {
      var init, c := s[..|s| - 1], s[|s| - 1];
      EscapeDoubles(init);
      BytesOfBoth(Escape(init), EscapeChar(c));
      OneEscaped(c);
    }
  }

  lemma OneEscaped(c: char)
    requires !IsControl(c)
    ensures Bytes(EscapeChar(c)) <= 2 * Width(c)
  {
    assert [c][..0] == "" && ['\\', c][..1] == ['\\'] && ['\\'][..0] == "";
    assert Bytes([c]) == Width(c) && Bytes(['\\']) == 1;
    assert Bytes(['\\', c]) == 1 + Width(c);
  }

  lemma QuotedAtMost(s: string, limit: nat)
    requires Bytes(s) <= limit && forall i :: 0 <= i < |s| ==> !IsControl(s[i])
    ensures Bytes(Quoted(s)) <= 2 * limit + 8
  {
    EscapeDoubles(s);
    BytesOfBoth("\"" + Escape(s), "\"");
    BytesOfBoth("\"", Escape(s));
    BytesAtMost("\"");
  }

  lemma OrNullAtMost(s: Option<string>, limit: nat)
    requires s.Some? ==> Bytes(s.value) <= limit && forall i :: 0 <= i < |s.value| ==> !IsControl(s.value[i])
    ensures Bytes(OrNull(s)) <= 2 * limit + 16
  {
    if s.Some? {
      QuotedAtMost(s.value, limit);
    } else {
      BytesAtMost("null");
    }
  }

  lemma FieldAtMost(key: string, value: string)
    ensures Bytes(Field(key, value)) <= 4 * |key| + 12 + Bytes(value)
  {
    BytesOfBoth("\"" + key + "\":", value);
    BytesAtMost("\"" + key + "\":");
  }

  /** More than any rendered target takes. */
  const TARGET_BYTES := 11_000

  lemma {:induction false} JoinAtMost(parts: seq<string>)
    requires forall i :: 0 <= i < |parts| ==> Bytes(parts[i]) <= TARGET_BYTES
    ensures Bytes(Join(parts)) <= |parts| * (TARGET_BYTES + 4)
  {
    if 1 < |parts| {
      JoinAtMost(parts[1..]);
      JoinedHead(parts);
    }
  }

  lemma JoinedHead(parts: seq<string>)
    requires 1 < |parts|
    ensures Bytes(Join(parts)) <= Bytes(parts[0]) + 4 + Bytes(Join(parts[1..]))
  {
    BytesOfBoth(parts[0] + ",", Join(parts[1..]));
    BytesOfBoth(parts[0], ",");
    BytesAtMost(",");
  }

  lemma Enclosed(a: string, s: string, b: string)
    requires |a| == |b| == 1
    ensures Bytes(a + s + b) <= Bytes(s) + 8
  {
    BytesOfBoth(a + s, b);
    BytesOfBoth(a, s);
    BytesAtMost(a);
    BytesAtMost(b);
  }

  lemma TwoFields(a: string, b: string)
    ensures Bytes(Object([a, b])) <= Bytes(a) + Bytes(b) + 12
  {
    Enclosed("{", Join([a, b]), "}");
    JoinedHead([a, b]);
    assert [a, b][1..] == [b];
  }

  lemma ThreeFields(a: string, b: string, c: string)
    ensures Bytes(Object([a, b, c])) <= Bytes(a) + Bytes(b) + Bytes(c) + 16
  {
    Enclosed("{", Join([a, b, c]), "}");
    JoinedHead([a, b, c]);
    assert [a, b, c][1..] == [b, c];
    JoinedHead([b, c]);
    assert [b, c][1..] == [c];
  }

  lemma FourFields(a: string, b: string, c: string, d: string)
    ensures Bytes(Object([a, b, c, d])) <= Bytes(a) + Bytes(b) + Bytes(c) + Bytes(d) + 20
  {
    Enclosed("{", Join([a, b, c, d]), "}");
    JoinedHead([a, b, c, d]);
    assert [a, b, c, d][1..] == [b, c, d];
    JoinedHead([b, c, d]);
    assert [b, c, d][1..] == [c, d];
    JoinedHead([c, d]);
    assert [c, d][1..] == [d];
  }

  lemma WordAtMost(word: string)
    requires |word| <= 9 && forall i :: 0 <= i < |word| ==> !IsControl(word[i])
    ensures Bytes(Quoted(word)) <= 80
  {
    BytesAtMost(word);
    QuotedAtMost(word, 36);
  }

  lemma TargetAtMost(t: Target)
    requires ValidTarget(t)
    ensures Bytes(TargetJson(t)) <= TARGET_BYTES
  {
    var name, status, detail := Quoted(t.name), Quoted(StatusName(t.status)), OrNull(t.detail);
    QuotedAtMost(t.name, ADDRESS_BYTES);
    WordAtMost(StatusName(t.status));
    OrNullAtMost(t.detail, DETAIL_BYTES);
    FieldAtMost("target", name);
    FieldAtMost("status", status);
    FieldAtMost("detail", detail);
    ThreeFields(Field("target", name), Field("status", status), Field("detail", detail));
  }

  lemma TargetsAtMost(targets: seq<Target>)
    requires ValidTargets(targets)
    ensures Bytes(TargetsJson(targets)) <= MAX_TARGETS * (TARGET_BYTES + 4) + 8
  {
    var parts := seq(|targets|, i requires 0 <= i < |targets| => TargetJson(targets[i]));
    forall i | 0 <= i < |parts| ensures Bytes(parts[i]) <= TARGET_BYTES {
      TargetAtMost(targets[i]);
    }
    JoinAtMost(parts);
    Enclosed("[", Join(parts), "]");
  }

  lemma CopyAtMost(copy: Copy)
    requires ValidCopy(copy)
    ensures Bytes(CopyJson(copy)) <= TARGET_BYTES
  {
    var status, mailbox, detail := Quoted(CopyStatusName(copy.status)), OrNull(copy.mailbox), OrNull(copy.detail);
    WordAtMost(CopyStatusName(copy.status));
    OrNullAtMost(copy.mailbox, MAILBOX_BYTES);
    OrNullAtMost(copy.detail, DETAIL_BYTES);
    FieldAtMost("status", status);
    FieldAtMost("mailbox", mailbox);
    FieldAtMost("detail", detail);
    ThreeFields(Field("status", status), Field("mailbox", mailbox), Field("detail", detail));
  }

  lemma FlagAtMost(b: bool)
    ensures Bytes(Flag(b)) <= 20
  {
    BytesAtMost(Flag(b));
  }

  /** A batch of valid targets passes the check of the whole, however it is reported. */
  lemma BatchAlwaysFits(b: Batch, to: Destination)
    requires ValidTargets(b.targets) && (to.MovedTo? || to.ArchivedTo? ==> ValidMailbox(to.mailbox))
    ensures ValidBatch(b, to)
  {
    var outcomes := Field("outcomes", TargetsJson(b.targets));
    var reconciliation := Field("reconciliation_needed", Flag(b.reconciliation));
    TargetsAtMost(b.targets);
    FlagAtMost(b.reconciliation);
    FieldAtMost("outcomes", TargetsJson(b.targets));
    FieldAtMost("reconciliation_needed", Flag(b.reconciliation));
    TwoFields(outcomes, reconciliation);
    if !to.Nowhere? {
      QuotedAtMost(to.mailbox, MAILBOX_BYTES);
      FieldAtMost("destination_mailbox", Quoted(to.mailbox));
      ThreeFields(outcomes, reconciliation, Field("destination_mailbox", Quoted(to.mailbox)));
      FieldAtMost("archive_mailbox", Quoted(to.mailbox));
      FieldAtMost("batch", Object([outcomes, reconciliation]));
      TwoFields(Field("batch", Object([outcomes, reconciliation])), Field("archive_mailbox", Quoted(to.mailbox)));
    }
  }

  lemma DeliveryAlwaysFits(d: Delivery)
    requires ValidTargets(d.targets) && ValidMessageId(d.messageId)
    ensures ValidDelivery(d)
  {
    TargetsAtMost(d.targets);
    OrNullAtMost(d.messageId, HEADER_BYTES);
    FieldAtMost("outcomes", TargetsJson(d.targets));
    FieldAtMost("message_id", OrNull(d.messageId));
    TwoFields(Field("outcomes", TargetsJson(d.targets)), Field("message_id", OrNull(d.messageId)));
  }

  /** The report of a checked delivery and a checked copy passes the check of the whole. */
  lemma SendAlwaysFits(s: Send)
    requires ValidDelivery(s.delivery) && ValidCopy(s.copy)
    ensures ValidSend(s)
  {
    var delivery, copy := TargetsJson(s.delivery.targets), CopyJson(s.copy);
    var id := OrNull(s.delivery.messageId);
    TargetsAtMost(s.delivery.targets);
    CopyAtMost(s.copy);
    FlagAtMost(s.reconciliation);
    OrNullAtMost(s.delivery.messageId, HEADER_BYTES);
    FieldAtMost("delivery", delivery);
    FieldAtMost("sent_copy", copy);
    FieldAtMost("reconciliation_needed", Flag(s.reconciliation));
    FieldAtMost("message_id", id);
    FourFields(Field("delivery", delivery), Field("sent_copy", copy),
      Field("reconciliation_needed", Flag(s.reconciliation)), Field("message_id", id));
  }
}
