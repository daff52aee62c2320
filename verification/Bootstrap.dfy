/** The selection file: which mode is in force and which managed database is chosen.  It lives in a
    sidecar next to the legacy settings file; an older combined layout kept it inside that file. */
module Bootstrap {
  import opened Collections
  import opened Wrappers

  /** A TOML value as far as the reader tells values apart. */
  datatype Value = Integer(i: int) | Boolean(b: bool) | Text(s: string) | Other

  type Table = map<string, Value>

  datatype FileState = Absent | Unparsable | Parsed(table: Table)

  datatype Disk = Disk(sidecar: FileState, source: FileState)

  datatype Mode = Legacy | Managed

  datatype Selection = Selection(mode: Mode, db: Option<string>, revision: nat, present: bool)

  /** Reading either gives a selection or reports a broken file. */
  datatype ReadResult = Readable(selection: Selection) | Broken

  const VERSION := 1

  const NOTHING_SELECTED := Selection(Legacy, None, 0, false)

  /** How the platform makes a path absolute; doing it twice changes nothing. */
  datatype Paths = Paths(absolute: string -> string)
  {
    ghost predicate Valid() {
      forall p :: absolute(absolute(p)) == absolute(p) && !Blank(absolute(p))
    }
  }

  predicate Blank(s: string) {
    forall i :: 0 <= i < |s| ==> s[i] in " \t\r\n"
  }

  function Get(t: Table, key: string): Option<Value> {
    if key in t then Some(t[key]) else None
  }

  function ParseMode(v: Option<Value>): Option<Mode> {
    if v == None || v == Some(Text("legacy")) then Some(Legacy)
    else if v == Some(Text("managed")) then Some(Managed)
    else None
  }

  function ParseRevision(v: Option<Value>): Option<nat> {
    if v == None then Some(0)
    else if v.value.Integer? && 0 <= v.value.i then Some(v.value.i)
    else None
  }

  /** The database named by a table, or None if the table is broken: a sidecar must say whether a
      database is selected, a combined file may use its older key. */
  function ParseDb(t: Table, sidecar: bool, mode: Mode, revision: nat, paths: Paths): Option<Option<string>> {
    var marker := Get(t, "managed_selection");
    var named := Get(t, "managed_db_location");
    if marker.Some? && !marker.value.Boolean? then None
    else if sidecar && marker.None? then None
    else if marker == Some(Boolean(false)) then
      if named.Some? then None else Some(None)
    else
      var location :=
        if named.None? && !sidecar && (mode == Managed || 0 < revision) then Get(t, "db_location") else named;
      if marker == Some(Boolean(true)) || location.Some? || mode == Managed then
        if location.Some? && location.value.Text? && !Blank(location.value.s)
        then Some(Some(paths.absolute(location.value.s))) else None
      else Some(None)
  }

  function ReadTable(t: Table, sidecar: bool, paths: Paths): ReadResult {
    var mode := ParseMode(Get(t, "mode"));
    var revision := ParseRevision(Get(t, "bootstrap_revision"));
    if mode.None? || revision.None? || Get(t, "bootstrap_version") != Some(Integer(VERSION)) then Broken
    else match ParseDb(t, sidecar, mode.value, revision.value, paths)
      case None => Broken
      case Some(db) =>
        if mode.value == Managed && db.None? then Broken
        else Readable(Selection(mode.value, db, revision.value, true))
  }

  function Read(d: Disk, paths: Paths): ReadResult {
    match d.sidecar
    case Parsed(t) => ReadTable(t, true, paths)
    case Unparsable => Broken
    case Absent =>
      match d.source
      case Parsed(t) =>
        if "bootstrap_version" in t then ReadTable(t, false, paths) else Readable(NOTHING_SELECTED)
      case _ => Readable(NOTHING_SELECTED)
  }

  /** The table written for a selection. */
  function Rendered(mode: Mode, db: Option<string>, revision: nat): Table {
    var t := map["bootstrap_version" := Integer(VERSION), "bootstrap_revision" := Integer(revision),
                 "mode" := Text(if mode == Managed then "managed" else "legacy"),
                 "managed_selection" := Boolean(db.Some?)];
    if db.Some? then t["managed_db_location" := Text(db.value)] else t
  }

  /** Every written file reads back as what was written. */
  lemma RenderedReadsBack(mode: Mode, db: Option<string>, revision: nat, source: FileState, paths: Paths)
    requires paths.Valid() && (mode == Managed ==> db.Some?)
    requires db.Some? ==> paths.absolute(db.value) == db.value
    ensures Read(Disk(Parsed(Rendered(mode, db, revision)), source), paths)
      == Readable(Selection(mode, db, revision, true))
  {
    var t := Rendered(mode, db, revision);
    assert Get(t, "managed_selection") == Some(Boolean(db.Some?));
    if db.Some? {
      assert paths.absolute(db.value) == db.value && !Blank(paths.absolute(db.value));
      assert Get(t, "managed_db_location") == Some(Text(db.value));
    }
  }

  /** A selection that exists names an absolute database, and managed mode always has one. */
  lemma ReadIsSound(d: Disk, paths: Paths)
    requires paths.Valid() && Read(d, paths).Readable?
    ensures var s := Read(d, paths).selection;
      && (s.mode == Managed ==> s.db.Some?)
      && (s.db.Some? ==> s.present && paths.absolute(s.db.value) == s.db.value)
  {
  }

  /** An atomic replacement may raise before or after it took effect. */
  datatype Fault = NoFault | RaisesBefore | RaisesAfter

  datatype WriteResult = Written(selection: Selection) | Stale | Refused | Failed

  class SelectionFile {
    var disk: Disk
    const paths: Paths

    /** What a reader sees after each of the operations so far. */
    ghost var seen: seq<ReadResult>

    constructor (initial: Disk, platform: Paths)
      requires platform.Valid()
      ensures Valid() && disk == initial && paths == platform && seen == [Read(initial, platform)]
    {
      disk, paths, seen := initial, platform, [Read(initial, platform)];
    }

    ghost predicate Valid()
      reads this
    {
      paths.Valid() && seen != [] && Last(seen) == Current() && Selections(seen)
    }

    function Current(): ReadResult
      reads this
    {
      Read(disk, paths)
    }

    /** Copy a combined file's selection into the sidecar; what is read does not change. */
    method Materialize(fault: Fault) returns (ok: bool)
      requires Valid()
      modifies this
      ensures Valid() && old(seen) <= seen
      ensures Current() == old(Current()) && disk.source == old(disk.source)
      ensures old(disk.sidecar).Absent? || disk.sidecar == old(disk.sidecar)
      ensures ok ==> old(Current()).Readable?
      ensures old(Current()).Readable? && fault == NoFault ==> ok
      ensures ok && old(Current()).selection.present ==> disk.sidecar.Parsed?
      ensures ok && !old(Current()).selection.present ==> disk == old(disk)
    {
      var current := Read(disk, paths);
      if current.Broken? {
        return false;
      }
      if !disk.sidecar.Absent? || !current.selection.present {
        return true;
      }
      var s := current.selection;
      ReadIsSound(disk, paths);
      RenderedReadsBack(s.mode, s.db, s.revision, disk.source, paths);
      if fault != RaisesBefore {
        disk := disk.(sidecar := Parsed(Rendered(s.mode, s.db, s.revision)));
      }
      seen := seen + [Current()];
      ok := fault == NoFault;
    }

    /** The atomic replacement of the sidecar by one with the next selection. */
    method Store(mode: Mode, db: Option<string>, revision: nat, fault: Fault)
      requires Valid() && (mode == Managed ==> db.Some?) && (db.Some? ==> paths.absolute(db.value) == db.value)
      requires Follows(Current(), Readable(Selection(mode, db, revision, true)))
      modifies this
      ensures Valid() && old(seen) <= seen
      ensures Current() == if fault == RaisesBefore then old(Current()) else Readable(Selection(mode, db, revision, true))
    {
      RenderedReadsBack(mode, db, revision, disk.source, paths);
      if fault != RaisesBefore {
        disk := disk.(sidecar := Parsed(Rendered(mode, db, revision)));
      }
      seen := seen + [Current()];
    }

    /** A selection write is refused if the caller saw another state.  On success the revision is one
        higher, the result is what a reader now sees, and a chosen database stays chosen. */
    method Write(
      mode: Mode, db: Option<string>, expectedRevision: Option<nat>, expectedExists: Option<bool>, fault: Fault)
      returns (r: WriteResult)
      requires Valid()
      modifies this
      ensures Valid() && old(seen) <= seen
      ensures r.Written? ==> Current() == Readable(r.selection)
      ensures r.Written? ==> Follows(old(Current()), Current())
      ensures r.Written? ==> r.selection.mode == mode && (db.Some? ==> r.selection.db == Some(paths.absolute(db.value)))
      ensures r.Written? && expectedRevision.Some? ==> expectedRevision.value == old(Current()).selection.revision
      ensures r.Written? && expectedExists.Some? ==> expectedExists.value == old(Current()).selection.present
      ensures !r.Written? ==>
        Current() == old(Current()) || (r.Failed? && fault == RaisesAfter && Follows(old(Current()), Current()))
      ensures r.Stale? || r.Refused? ==> disk == old(disk)
      ensures r.Stale? <==> old(Current()).Readable? && !Expected(old(Current()).selection, expectedRevision, expectedExists)
      ensures r.Refused? <==>
        old(Current()).Broken? || (!r.Stale? && mode == Managed && db.None? && old(Current()).selection.db.None?)
      ensures r.Failed? ==> fault != NoFault
    {
      var current := Read(disk, paths);
      if current.Broken? {
        return Refused;
      }
      var s := current.selection;
      if expectedRevision.Some? && s.revision != expectedRevision.value {
        return Stale;
      }
      if expectedExists.Some? && s.present != expectedExists.value {
        return Stale;
      }
      var selected := if db.Some? then db else s.db;
      if mode == Managed && selected.None? {
        return Refused;
      }
      var location := if selected.Some? then Some(paths.absolute(selected.value)) else None;
      ReadIsSound(disk, paths);
      Store(mode, location, s.revision + 1, fault);
      r := if fault == NoFault then Written(Selection(mode, location, s.revision + 1, true)) else Failed;
    }

    /** The legacy settings writer and reset: both first move a combined selection out of the file they
        are about to replace, so the selection survives. */
    method ReplaceSource(next: FileState, materializing: Fault, replacing: Fault) returns (ok: bool)
      requires Valid()
      requires next.Parsed? ==> "bootstrap_version" !in next.table
      modifies this
      ensures Valid() && old(seen) <= seen
      ensures old(disk.sidecar).Absent? || disk.sidecar == old(disk.sidecar)
      ensures Current() == old(Current())
      ensures ok ==> disk.source == next
      ensures old(Current()).Readable? && materializing == NoFault && replacing == NoFault ==> ok
    {
      var materialized := Materialize(materializing);
      if !materialized {
        return false;
      }
      if replacing != RaisesBefore {
        disk := disk.(source := next);
      }
      seen := seen + [Current()];
      ok := replacing == NoFault;
    }
  }

  /** The state a writer says it saw. */
  predicate Expected(s: Selection, revision: Option<nat>, present: Option<bool>) {
    && (revision.Some? ==> s.revision == revision.value)
    && (present.Some? ==> s.present == present.value)
  }

  /** One successful selection write. */
  predicate Follows(before: ReadResult, after: ReadResult) {
    && before.Readable? && after.Readable?
    && after.selection.present && after.selection.revision == before.selection.revision + 1
    && (before.selection.db.Some? ==> after.selection.db.Some?)
  }

  /** What the locked operations make of the selection, one after the other; every operation of a
      selection file keeps its history such. */
  predicate Selections(seen: seq<ReadResult>) {
    forall i :: 0 < i < |seen| ==> seen[i] == seen[i - 1] || Follows(seen[i - 1], seen[i])
  }

  /** Over any sequence of locked writers: the revision counts the successful writes, a chosen
      database is never dropped, and the same revision means the same selection, so a write that
      carries the revision it read succeeds only on the selection it read. */
  lemma {:induction false} RevisionsNameSelections(seen: seq<ReadResult>, i: nat, j: nat)
    requires Selections(seen) && i <= j < |seen|
    ensures seen[i].Readable? <==> seen[j].Readable?
    ensures seen[i].Readable? ==>
      && seen[j].selection.revision - seen[i].selection.revision == Writes(seen, i, j)
      && (seen[i].selection.db.Some? ==> seen[j].selection.db.Some?)
      && (seen[i].selection.revision == seen[j].selection.revision ==> seen[i] == seen[j])
    decreases j
  {
    if i < j {
      RevisionsNameSelections(seen, i, j - 1);
    }
  }

  /** The number of writes that took effect between two moments. */
  function Writes(seen: seq<ReadResult>, i: nat, j: nat): nat
    requires i <= j < |seen|
    decreases j
  {
    if i == j then 0 else Writes(seen, i, j - 1) + (if seen[j] == seen[j - 1] then 0 else 1)
  }
}
