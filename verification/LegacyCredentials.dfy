/** The legacy credential store: a settings file and the operating system's keyring hold the secrets
    together, and the keyring may fail at any call.  `history` lists every durable state of the two,
    so that a claim about all of history is a claim about every point at which the process may die. */
module LegacyCredentials {
  import opened Wrappers

  type Secret = string

  datatype Role = Incoming | Outgoing | ApiKey

  datatype Slot = Slot(account: string, role: Role)

  datatype Credential = Credential(slot: Slot, value: Secret)

  datatype Mode = Auto | Keyring | Plaintext

  /** The credentials of the settings file, in its order; a secret kept in the keyring is written as
      the sentinel. */
  datatype File = File(mode: Mode, credentials: seq<Credential>)

  type Entries = map<string, Secret>

  datatype World = World(file: File, entries: Entries)

  const SENTINEL := "__KEYRING__"

  function RoleName(role: Role): string {
    match role
    case Incoming => "incoming"
    case Outgoing => "outgoing"
    case ApiKey => "api_key"
  }

  function EntryKey(slot: Slot): string {
    slot.account + ":" + RoleName(slot.role)
  }

  lemma LastColon(slot: Slot)
    ensures var k := EntryKey(slot);
      k[|slot.account|] == ':' && forall i :: |slot.account| < i < |k| ==> k[i] != ':'
  {
  }

  /** Account names may contain colons, role names never do, so no two slots share an entry. */
  lemma EntryKeyIsInjective(a: Slot, b: Slot)
    requires EntryKey(a) == EntryKey(b)
    ensures a == b
  {
    LastColon(a);
    LastColon(b);
    var k, n := EntryKey(a), |a.account|;
    assert n == |b.account|;
    assert a.account == k[..n] && b.account == k[..n];
    assert RoleName(a.role) == k[n + 1..] && RoleName(b.role) == k[n + 1..];
  }

  predicate DistinctSlots(credentials: seq<Credential>) {
    forall i, j :: 0 <= i < j < |credentials| ==> credentials[i].slot != credentials[j].slot
  }

  predicate Resolvable(c: Credential, entries: Entries) {
    c.value == SENTINEL ==> EntryKey(c.slot) in entries
  }

  function ResolveOne(c: Credential, entries: Entries): Credential
    requires Resolvable(c, entries)
  {
    if c.value == SENTINEL then c.(value := entries[EntryKey(c.slot)]) else c
  }

  /** The stored credentials with every sentinel replaced by its keyring entry. */
  function Resolve(credentials: seq<Credential>, entries: Entries): Option<seq<Credential>> {
    if forall i :: 0 <= i < |credentials| ==> Resolvable(credentials[i], entries)
    then Some(seq(|credentials|, i requires 0 <= i < |credentials| => ResolveOne(credentials[i], entries)))
    else None
  }

  lemma ResolveIs(credentials: seq<Credential>, entries: Entries, expected: seq<Credential>)
    requires |expected| == |credentials|
    requires forall i :: 0 <= i < |credentials| ==>
      Resolvable(credentials[i], entries) && ResolveOne(credentials[i], entries) == expected[i]
    ensures Resolve(credentials, entries) == Some(expected)
    ensures forall i :: 0 <= i < |credentials| ==> expected[i].slot == credentials[i].slot
  {
    assert Resolve(credentials, entries).value == expected;
  }

  lemma Unresolved(credentials: seq<Credential>, entries: Entries, n: nat)
    requires n < |credentials| && !Resolvable(credentials[n], entries)
    ensures Resolve(credentials, entries) == None
  {
  }

  /** Loading for a migration ignores the mode of the file. */
  function MigrationLoad(w: World): Option<seq<Credential>> {
    if DistinctSlots(w.file.credentials) then Resolve(w.file.credentials, w.entries) else None
  }

  predicate HasSentinel(credentials: seq<Credential>) {
    exists i :: 0 <= i < |credentials| && credentials[i].value == SENTINEL
  }

  /** An ordinary load refuses a file whose effective mode is plaintext but which has sentinels. */
  function Load(w: World, override: Option<Mode>): Option<seq<Credential>> {
    var mode := if override.Some? then override.value else w.file.mode;
    if mode == Plaintext && HasSentinel(w.file.credentials) then None else MigrationLoad(w)
  }

  function Masked(credentials: seq<Credential>): (masked: seq<Credential>)
    ensures |masked| == |credentials|
  {
    seq(|credentials|, i requires 0 <= i < |credentials| => credentials[i].(value := SENTINEL))
  }

  /** How one backend call goes.  A write that raises may have left the entry alone, removed it or
      written it; a delete that raises may have removed it. */
  datatype Effect = Unchanged | Removed | Written

  datatype Error = OwnerEditConflict | NothingToDelete | OtherError

  datatype Behaviour = Works | Raises(effect: Effect, error: Error)

  datatype Outcome = Success | Raised(error: Error)

  datatype Looked = Found(value: Secret) | Missing | Unreadable

  predicate AllWork(script: seq<Behaviour>) {
    forall i :: 0 <= i < |script| ==> script[i] == Works
  }

  /** Of the coming calls only the second one fails: the first write after reading the old value. */
  predicate OnlyWriteFails(script: seq<Behaviour>) {
    1 < |script| && script[0].Works? && script[1].Raises? && AllWork(script[2..])
  }

  /** The entries differ from earlier ones at one key at most. */
  predicate OnlyAt(entries: Entries, entries': Entries, key: string) {
    entries - {key} == entries' - {key}
  }

  /** What a write attempt for this credential may have done: nothing if the entry already held it. */
  predicate Touched(entries: Entries, entries': Entries, c: Credential) {
    if HoldsCredential(entries, c) then entries' == entries else OnlyAt(entries, entries', EntryKey(c.slot))
  }

  predicate HoldsCredential(entries: Entries, c: Credential) {
    EntryKey(c.slot) in entries && entries[EntryKey(c.slot)] == c.value
  }

  class LegacyStore {
    var file: File
    var entries: Entries

    /** How the coming backend calls go; after the end of the script they work. */
    var script: seq<Behaviour>
    const darwin: bool
    ghost var history: seq<World>

    constructor (initial: World, behaviours: seq<Behaviour>, onDarwin: bool)
      ensures Now() == initial && script == behaviours && darwin == onDarwin && history == [initial]
    {
      file, entries, script, darwin, history := initial.file, initial.entries, behaviours, onDarwin, [initial];
    }

    function Now(): World
      reads this
    {
      World(file, entries)
    }

    /** The states since `start`, all of which the entries of this call went through. */
    ghost predicate Since(start: nat, was: Entries, key: string)
      reads this
    {
      && start <= |history|
      && forall i :: start <= i < |history| ==> history[i].file == file && OnlyAt(was, history[i].entries, key)
    }

    method Behave() returns (b: Behaviour)
      modifies this`script
      ensures b == (if old(script) == [] then Works else old(script)[0])
      ensures script == if old(script) == [] then [] else old(script)[1..]
      ensures AllWork(old(script)) ==> AllWork(script) && b == Works
    {
      b := Works;
      if script != [] {
        b, script := script[0], script[1..];
      }
    }

    method GetPassword(key: string) returns (r: Looked)
      modifies this`script
      ensures r == Unreadable || r == (if key in entries then Found(entries[key]) else Missing)
      ensures AllWork(old(script)) ==> AllWork(script) && r != Unreadable
      ensures OnlyWriteFails(old(script)) ==> script == old(script)[1..] && r != Unreadable
    {
      var b := Behave();
      r := if b.Raises? then Unreadable else if key in entries then Found(entries[key]) else Missing;
    }

    /** A write may pass through a moment without the entry, because one backend deletes and adds. */
    method SetPassword(key: string, value: Secret) returns (r: Outcome)
      modifies this`script, this`entries, this`history
      ensures r == Success ==> entries == old(entries)[key := value]
      ensures OnlyAt(old(entries), entries, key)
      ensures AllWork(old(script)) ==> AllWork(script) && r == Success
      ensures old(script) != [] && AllWork(old(script)[1..]) ==> AllWork(script)
      ensures old(history) <= history && Since(|old(history)|, old(entries), key)
    {
      var b := Behave();
      history := history + [World(file, entries - {key})];
      if b.Works? || b.effect == Written {
        entries := entries[key := value];
      } else if b.effect == Removed {
        entries := entries - {key};
      }
      history := history + [Now()];
      r := if b.Works? then Success else Raised(b.error);
    }

    method DeletePassword(key: string) returns (r: Outcome)
      modifies this`script, this`entries, this`history
      ensures r == Success ==> entries == old(entries) - {key}
      ensures entries == old(entries) || entries == old(entries) - {key}
      ensures AllWork(old(script)) ==> AllWork(script) && r == Success
      ensures old(history) <= history && Since(|old(history)|, old(entries), key)
    {
      var b := Behave();
      if b.Works? || b.effect == Removed {
        entries := entries - {key};
      }
      history := history + [Now()];
      r := if b.Works? then Success else Raised(b.error);
    }

    /** Rolling back never writes over an intact value, and if the backend works from here on the
        previous value is back. */
    method RestorePreviousSecret(key: string, previous: Option<Secret>, force: bool)
      modifies this`script, this`entries, this`history
      ensures OnlyAt(old(entries), entries, key)
      ensures previous.None? ==> entries == old(entries)
      ensures previous.Some? && AllWork(old(script)) ==> entries == old(entries)[key := previous.value]
      ensures old(history) <= history && Since(|old(history)|, old(entries), key)
    {
      if previous.None? {
        return;
      }
      var current := GetPassword(key);
      if current == Found(previous.value) {
        assert entries == entries[key := previous.value];
        return;
      }
      if current == Unreadable && !force {
        return;
      }
      var outcome := SetPassword(key, previous.value);
    }

    /** Success means the entry holds the value.  Whatever happens, no other entry is touched, and an
        entry that already holds the value is not touched either.  If only the write fails, whatever it
        did to the entry, a previous value is back afterwards. */
    method SetSecret(c: Credential) returns (ok: bool)
      modifies this`script, this`entries, this`history
      ensures ok ==> entries == old(entries)[EntryKey(c.slot) := c.value]
      ensures Touched(old(entries), entries, c)
      ensures old(history) <= history && Since(|old(history)|, old(entries), EntryKey(c.slot))
      ensures HoldsCredential(old(entries), c) ==> history == old(history)
      ensures AllWork(old(script)) ==> ok && AllWork(script)
      ensures OnlyWriteFails(old(script)) && EntryKey(c.slot) in old(entries) ==> ok || entries == old(entries)
    {
      var key := EntryKey(c.slot);
      var snapshot := GetPassword(key);
      if snapshot == Unreadable {
        return false;
      }
      if snapshot == Found(c.value) {
        assert entries == entries[key := c.value];
        return true;
      }
      var previous := if snapshot.Found? then Some(snapshot.value) else None;
      var outcome := SetPassword(key, c.value);
      if outcome == Success {
        return true;
      }
      if !(darwin && outcome.error == OwnerEditConflict) {
        if previous.Some? {
          OverwritingForgets(old(entries), entries, key, previous.value);
        }
        RestorePreviousSecret(key, previous, false);
        return false;
      }
      var deletion := DeletePassword(key);
      if deletion.Raised? && deletion.error != NothingToDelete {
        RestorePreviousSecret(key, previous, false);
        return false;
      }
      OverwritingForgets(old(entries), entries, key, c.value);
      outcome := SetPassword(key, c.value);
      if outcome == Success {
        return true;
      }
      RestorePreviousSecret(key, previous, true);
      ok := false;
    }

    /** The states since `start` differ from `was` only in entries of the first n credentials that did not
        hold their value. */
    ghost predicate Stepped(start: nat, was: Entries, credentials: seq<Credential>, n: nat)
      requires n <= |credentials|
      reads this
    {
      && start <= |history| && StepsOnlyAt(was, entries, credentials[..n])
      && forall i :: start <= i < |history| ==>
           history[i].file == file && StepsOnlyAt(was, history[i].entries, credentials[..n])
    }

    /** The next secret of a row of them. */
    method StoreNext(credentials: seq<Credential>, n: nat, ghost start: nat, ghost was: Entries) returns (ok: bool)
      requires n < |credentials| && DistinctSlots(credentials) && Stepped(start, was, credentials, n)
      modifies this`script, this`entries, this`history
      ensures Stepped(start, was, credentials, n + 1) && old(history) <= history
      ensures ok && Pushed(old(entries), credentials, n) ==> Pushed(entries, credentials, n + 1)
      ensures AllWork(old(script)) ==> ok && AllWork(script)
    {
      ghost var before, past := entries, |history|;
      ok := SetSecret(credentials[n]);
      NextStep(was, before, entries, credentials, n);
      forall i | start <= i < |history| ensures StepsOnlyAt(was, history[i].entries, credentials[..n + 1]) {
        if i < past {
          FewerSteps(was, history[i].entries, credentials, n);
        } else {
          NextStep(was, before, history[i].entries, credentials, n);
        }
      }
      if ok {
        PushedNext(before, entries, credentials, n);
      }
    }

    /** Every secret is pushed; failures are collected, not raised. */
    method StoreSecretsToKeyring(credentials: seq<Credential>) returns (failures: seq<Slot>)
      requires DistinctSlots(credentials)
      modifies this`script, this`entries, this`history
      ensures failures == [] ==> Pushed(entries, credentials, |credentials|)
      ensures AllWork(old(script)) ==> failures == []
      ensures StepsOnlyAt(old(entries), entries, credentials)
      ensures old(history) <= history
      ensures forall i :: |old(history)| <= i < |history| ==>
        history[i].file == file && StepsOnlyAt(old(entries), history[i].entries, credentials)
    {
      failures := [];
      for n := 0 to |credentials|
        invariant failures == [] ==> Pushed(entries, credentials, n)
        invariant AllWork(old(script)) ==> failures == [] && AllWork(script)
        invariant old(history) <= history && Stepped(|old(history)|, old(entries), credentials, n)
      {
        var ok := StoreNext(credentials, n, |old(history)|, old(entries));
        if !ok {
          failures := failures + [credentials[n].slot];
        }
      }
      assert credentials[..|credentials|] == credentials;
    }

    method LoadForMigration() returns (r: Option<seq<Credential>>, references: seq<Slot>)
      modifies this`script
      ensures r.Some? ==> r == MigrationLoad(Now()) && DistinctSlots(r.value) && references == Sentinels(file.credentials)
      ensures AllWork(old(script)) ==> r == MigrationLoad(Now()) && AllWork(script)
    {
      references := Sentinels(file.credentials);
      if !DistinctSlots(file.credentials) {
        return None, references;
      }
      var resolved: seq<Credential> := [];
      for n := 0 to |file.credentials|
        invariant forall i :: 0 <= i < n ==> Resolvable(file.credentials[i], entries)
        invariant |resolved| == n && (AllWork(old(script)) ==> AllWork(script))
        invariant forall i :: 0 <= i < n ==> resolved[i] == ResolveOne(file.credentials[i], entries)
      {
        var c := file.credentials[n];
        if c.value == SENTINEL {
          var looked := GetPassword(EntryKey(c.slot));
          if !looked.Found? {
            if looked.Missing? {
              Unresolved(file.credentials, entries, n);
            }
            return None, references;
          }
          c := c.(value := looked.value);
        }
        resolved := resolved + [c];
      }
      ResolveIs(file.credentials, entries, resolved);
      r := Some(resolved);
    }

    /** The file is replaced atomically; the write may raise before or after the replacement. */
    method WriteFile(next: File, behaviour: Behaviour) returns (ok: bool)
      modifies this`file, this`history
      ensures ok <==> behaviour == Works
      ensures file == if behaviour == Works || behaviour.effect == Written then next else old(file)
      ensures history == old(history) + [Now()]
    {
      if behaviour.Works? || behaviour.effect == Written {
        file := next;
      }
      history := history + [Now()];
      ok := behaviour.Works?;
    }

    /** Cleanup of entries the old file referred to; reported when they remain or cannot be checked. */
    method PurgeReferences(references: seq<Slot>) returns (remaining: seq<Slot>)
      modifies this`script, this`entries, this`history
      ensures old(history) <= history
      ensures forall i :: |old(history)| <= i < |history| ==> history[i].file == file
      ensures forall i :: 0 <= i < |references| && references[i] !in remaining ==> EntryKey(references[i]) !in entries
    {
      remaining := [];
      for n := 0 to |references|
        invariant old(history) <= history
        invariant forall i :: |old(history)| <= i < |history| ==> history[i].file == file
        invariant forall i :: 0 <= i < n && references[i] !in remaining ==> EntryKey(references[i]) !in entries
      {
        ghost var before := entries;
        var deletion := DeletePassword(EntryKey(references[n]));
        var looked := GetPassword(EntryKey(references[n]));
        if looked != Missing {
          remaining := remaining + [references[n]];
        }
      }
    }

    /** Store the secrets where the effective mode says, then replace the file.  When the call returns
        normally, an ordinary load with the override unchanged or removed gives back every secret; and
        a file whose mode is plaintext has no sentinel.  A call that raises has lost nothing that was
        stored, if what it stores again is what was stored.  Without failures it raises only when it
        would have to write the sentinel as a plain secret. */
    method StoreLocked(
      credentials: seq<Credential>, mode: Mode, override: Option<Mode>, usable: bool, write: Behaviour)
      returns (ok: bool)
      requires DistinctSlots(credentials)
      modifies this
      ensures ok ==> Load(Now(), override) == Some(credentials) && Load(Now(), None) == Some(credentials)
      ensures ok && file.mode == Plaintext ==> !HasSentinel(file.credentials)
      ensures ok ==> file.mode == (if override.Some? then override.value else mode)
      ensures ok ==> file.credentials == credentials || file.credentials == Masked(credentials)
      ensures ok && file.mode == Keyring ==> file.credentials == Masked(credentials)
      ensures AllWork(old(script)) && write == Works ==>
        (ok <==> !HasSentinel(credentials) || UsesKeyring(if override.Some? then override.value else mode, usable))
      ensures old(history) <= history
      ensures MigrationLoad(old(Now())) == Some(credentials) ==>
        forall i :: |old(history)| <= i < |history| ==> MigrationLoad(history[i]) == Some(credentials)
    {
      var effective := if override.Some? then override.value else mode;
      var useKeyring := UsesKeyring(effective, usable);
      ghost var start := Now();
      if useKeyring {
        var failures := StoreSecretsToKeyring(credentials);
        forall i | |old(history)| <= i < |history| && MigrationLoad(start) == Some(credentials)
          ensures MigrationLoad(history[i]) == Some(credentials)
        {
          StepKeepsLoad(start, credentials, history[i].entries);
        }
        if MigrationLoad(start) == Some(credentials) {
          StepKeepsLoad(start, credentials, entries);
        }
        if failures != [] {
          if effective == Keyring {
            return false;
          }
          useKeyring := false;
        }
      }
      if !useKeyring && HasSentinel(credentials) {
        return false;
      }
      var persisted := if override.Some? then effective else mode;
      var next := File(persisted, if useKeyring then Masked(credentials) else credentials);
      if useKeyring {
        MaskedResolve(credentials, entries);
      } else {
        PlainResolve(credentials, entries);
      }
      ok := WriteFile(next, write);
    }

    /** Moving the stored credentials to the keyring or to plaintext.  At every point at which the
        process may die, and whichever keyring calls fail, the file and the keyring together still
        give a migration load every original secret; and if nothing fails it succeeds exactly when the
        stored credentials can be loaded and none of them reads like the sentinel. */
    method MigrateCredentials(target: Mode, usable: bool, write: Behaviour)
      returns (ok: bool, remaining: seq<Slot>)
      requires target != Auto
      modifies this
      ensures old(history) <= history
      ensures MigrationLoad(old(Now())).Some? ==>
        forall i :: |old(history)| <= i < |history| ==> MigrationLoad(history[i]) == MigrationLoad(old(Now()))
      ensures ok ==> file.mode == target && MigrationLoad(Now()) == MigrationLoad(old(Now()))
      ensures AllWork(old(script)) && write == Works ==> (ok <==> Migratable(old(Now()), target))
      ensures ok && target == Plaintext ==> !HasSentinel(file.credentials)
      ensures ok && target == Keyring ==> forall i :: 0 <= i < |file.credentials| ==> file.credentials[i].value == SENTINEL
      ensures ok && target == Plaintext ==> Purged(Sentinels(old(file.credentials)), remaining, entries)
    {
      remaining := [];
      var loaded, references := LoadForMigration();
      if loaded.None? {
        return false, [];
      }
      ok := StoreLocked(loaded.value, target, Some(target), usable, write);
      if !ok || target != Plaintext {
        return;
      }
      PlainResolve(file.credentials, entries);
      assert file.credentials == loaded.value;
      ghost var past := |history|;
      remaining := PurgeReferences(references);
      forall i | past <= i < |history| ensures MigrationLoad(history[i]) == Some(loaded.value) {
        PlainResolve(loaded.value, history[i].entries);
      }
      PlainResolve(loaded.value, entries);
    }
  }

  predicate UsesKeyring(effective: Mode, usable: bool) {
    effective == Keyring || (effective == Auto && usable)
  }

  /** What a migration needs of the stored credentials if nothing fails. */
  predicate Migratable(w: World, target: Mode) {
    var loaded := MigrationLoad(w);
    loaded.Some? && (target == Plaintext ==> !HasSentinel(loaded.value))
  }

  predicate Purged(references: seq<Slot>, remaining: seq<Slot>, entries: Entries) {
    forall i :: 0 <= i < |references| && references[i] !in remaining ==> EntryKey(references[i]) !in entries
  }

  /** The slots whose secret the file leaves to the keyring. */
  function Sentinels(credentials: seq<Credential>): seq<Slot> {
    if credentials == [] then []
    else (if credentials[0].value == SENTINEL then [credentials[0].slot] else []) + Sentinels(credentials[1..])
  }

  lemma MaskedResolve(credentials: seq<Credential>, entries: Entries)
    requires DistinctSlots(credentials) && Pushed(entries, credentials, |credentials|)
    ensures DistinctSlots(Masked(credentials)) && Resolve(Masked(credentials), entries) == Some(credentials)
    ensures credentials != [] ==> HasSentinel(Masked(credentials))
  {
    forall i | 0 <= i < |credentials|
      ensures Resolvable(Masked(credentials)[i], entries) && ResolveOne(Masked(credentials)[i], entries) == credentials[i]
    {
      assert HoldsCredential(entries, credentials[i]);
    }
    ResolveIs(Masked(credentials), entries, credentials);
    assert credentials != [] ==> Masked(credentials)[0].value == SENTINEL;
  }

  lemma PlainResolve(credentials: seq<Credential>, entries: Entries)
    requires !HasSentinel(credentials)
    ensures Resolve(credentials, entries) == Some(credentials)
  {
    forall i | 0 <= i < |credentials|
      ensures Resolvable(credentials[i], entries) && ResolveOne(credentials[i], entries) == credentials[i]
    {
      assert credentials[i].value != SENTINEL;
    }
    ResolveIs(credentials, entries, credentials);
  }

  /** Pushing what a file resolves to does not disturb what that file resolves to: the entries behind
      its sentinels already hold their values. */
  lemma StepKeepsLoad(w: World, credentials: seq<Credential>, entries: Entries)
    requires MigrationLoad(w) == Some(credentials) && StepsOnlyAt(w.entries, entries, credentials)
    ensures MigrationLoad(w.(entries := entries)) == Some(credentials)
  {
    var stored := w.file.credentials;
    forall i | 0 <= i < |stored|
      ensures Resolvable(stored[i], entries) && ResolveOne(stored[i], entries) == credentials[i]
    {
      assert Resolvable(stored[i], w.entries) && credentials[i] == ResolveOne(stored[i], w.entries);
      if stored[i].value == SENTINEL {
        SentinelKeyIsSettled(w, credentials, i);
      }
    }
    ResolveIs(stored, entries, credentials);
  }

  lemma SentinelKeyIsSettled(w: World, credentials: seq<Credential>, i: nat)
    requires MigrationLoad(w) == Some(credentials) && i < |credentials| && w.file.credentials[i].value == SENTINEL
    ensures !IsKeyOf(EntryKey(credentials[i].slot), w.entries, credentials)
  {
    var stored := w.file.credentials;
    forall j | 0 <= j < |credentials| && EntryKey(credentials[j].slot) == EntryKey(credentials[i].slot)
      ensures HoldsCredential(w.entries, credentials[j])
    {
      EntryKeyIsInjective(credentials[j].slot, credentials[i].slot);
      assert stored[j].slot == credentials[j].slot && stored[i].slot == credentials[i].slot;
      assert j == i;
    }
  }

  lemma OverwritingForgets(entries: Entries, entries': Entries, key: string, value: Secret)
    requires OnlyAt(entries, entries', key)
    ensures entries[key := value] == entries'[key := value]
  {
    OnlyAtPointwise(entries, entries', key);
  }

  lemma OnlyAtPointwise(entries: Entries, entries': Entries, key: string)
    requires OnlyAt(entries, entries', key)
    ensures forall k :: k != key ==> (k in entries <==> k in entries') && (k in entries ==> entries[k] == entries'[k])
  {
    forall k | k != key ensures (k in entries <==> k in entries') && (k in entries ==> entries[k] == entries'[k]) {
      assert k in entries <==> k in entries - {key};
      assert k in entries' <==> k in entries' - {key};
    }
  }

  /** The first n credentials are in the keyring. */
  predicate Pushed(entries: Entries, credentials: seq<Credential>, n: nat)
    requires n <= |credentials|
  {
    forall i :: 0 <= i < n ==> HoldsCredential(entries, credentials[i])
  }

  predicate IsKeyOf(k: string, entries: Entries, credentials: seq<Credential>) {
    exists i :: 0 <= i < |credentials| && k == EntryKey(credentials[i].slot) && !HoldsCredential(entries, credentials[i])
  }

  /** Only entries of credentials that were not yet in the keyring may differ. */
  ghost predicate StepsOnlyAt(was: Entries, entries: Entries, credentials: seq<Credential>) {
    forall k :: !IsKeyOf(k, was, credentials) ==>
      (k in was <==> k in entries) && (k in was ==> was[k] == entries[k])
  }

  lemma FewerSteps(was: Entries, entries: Entries, credentials: seq<Credential>, n: nat)
    requires n < |credentials| && StepsOnlyAt(was, entries, credentials[..n])
    ensures StepsOnlyAt(was, entries, credentials[..n + 1])
  {
    forall k | IsKeyOf(k, was, credentials[..n]) ensures IsKeyOf(k, was, credentials[..n + 1]) {
      var i :| 0 <= i < n && k == EntryKey(credentials[..n][i].slot) && !HoldsCredential(was, credentials[..n][i]);
      assert credentials[..n + 1][i] == credentials[..n][i];
    }
  }

  lemma NextStep(was: Entries, before: Entries, entries: Entries, credentials: seq<Credential>, n: nat)
    requires n < |credentials| && DistinctSlots(credentials)
    requires StepsOnlyAt(was, before, credentials[..n]) && OnlyAt(before, entries, EntryKey(credentials[n].slot))
    requires HoldsCredential(before, credentials[n]) ==> entries == before
    ensures StepsOnlyAt(was, entries, credentials[..n + 1])
  {
    FewerSteps(was, before, credentials, n);
    var c := credentials[n];
    OnlyAtPointwise(before, entries, EntryKey(c.slot));
    if HoldsCredential(was, c) {
      NotAnEarlierKey(was, credentials, n);
      assert HoldsCredential(before, c);
    } else {
      assert credentials[..n + 1][n] == c;
      assert IsKeyOf(EntryKey(c.slot), was, credentials[..n + 1]);
    }
  }

  lemma NotAnEarlierKey(was: Entries, credentials: seq<Credential>, n: nat)
    requires n < |credentials| && DistinctSlots(credentials)
    ensures !IsKeyOf(EntryKey(credentials[n].slot), was, credentials[..n])
  {
    forall i | 0 <= i < n ensures EntryKey(credentials[i].slot) != EntryKey(credentials[n].slot) {
      if EntryKey(credentials[i].slot) == EntryKey(credentials[n].slot) {
        EntryKeyIsInjective(credentials[i].slot, credentials[n].slot);
      }
    }
  }

  lemma PushedNext(before: Entries, entries: Entries, credentials: seq<Credential>, n: nat)
    requires n < |credentials| && DistinctSlots(credentials)
    requires entries == before[EntryKey(credentials[n].slot) := credentials[n].value]
    ensures Pushed(before, credentials, n) ==> Pushed(entries, credentials, n + 1)
  {
    forall i | 0 <= i < n && HoldsCredential(before, credentials[i]) ensures HoldsCredential(entries, credentials[i]) {
      if EntryKey(credentials[i].slot) == EntryKey(credentials[n].slot) {
        EntryKeyIsInjective(credentials[i].slot, credentials[n].slot);
      }
    }
  }
}
