/** One protocol call: commands are executed in order on one connection and the first that does not
    succeed stops the run.  What the server, the authority checks and the transport do is a script. */
module ProtocolRun {
  import opened Wrappers

  datatype StepStatus = OK | ERROR | UNKNOWN | NOT_ATTEMPTED

  datatype RunStatus = COMPLETED | STOPPED | AMBIGUOUS

  datatype RunError = InvalidRequest | SetupFailed | SafeFailure | Interrupted | Rejected | ResultLimit

  /** One attempt to write to the wire: authority is checked again first, then the transport. */
  datatype Write = Write(authorised: bool, transportOpen: bool, bytes: nat)

  /** An exception carries a safe message of its own, or not. */
  datatype Ending = Replies(accepted: bool, large: bool) | Escapes(safe: bool)

  datatype Script = Script(authorised: bool, writes: seq<Write>, ending: Ending)

  datatype Closing = Quiet | Fails(safe: bool)

  /** A request as parsed, and the behaviour of everything around the commands.  The connection is closed
      after the commands and once more when it is left; a failure to connect or to invalidate says if
      its text is safe. */
  datatype Call = Call(
    parsed: bool, connects: Option<bool>, firstInvalidation: Option<bool>, steps: seq<Script>, closing: Closing,
    lastInvalidation: bool, leaving: Closing)

  datatype Result = Result(status: RunStatus, results: seq<StepStatus>, error: Option<RunError>, stale: bool)

  /** What a step told the service. */
  datatype Told = Told(accepted: bool, large: bool) | Thrown(safe: bool)

  class Session {
    var sent: bool
    ghost var written: nat

    constructor ()
      ensures !sent && written == 0
    {
      sent, written := false, 0;
    }

    method ResetStep()
      modifies this
      ensures !sent && written == 0
    {
      sent, written := false, 0;
    }

    /** `sent` is set after the authority check and before any byte. */
    method WriteWire(w: Write) returns (ok: bool)
      modifies this
      ensures ok <==> w.authorised && w.transportOpen
      ensures sent == (old(sent) || w.authorised)
      ensures written == old(written) + (if ok then w.bytes else 0)
    {
      if !w.authorised {
        return false;
      }
      sent := true;
      if !w.transportOpen {
        return false;
      }
      written := written + w.bytes;
      ok := true;
    }

    method ExecuteStep(script: Script) returns (r: Told)
      requires !sent && written == 0
      modifies this
      ensures written == BytesOf(script)
      ensures sent == MayHaveWritten(script)
      ensures r == (if Completes(script) then Told(script.ending.accepted, script.ending.large)
                    else if !script.authorised || !AllPass(script.writes) then Thrown(true)
                    else Thrown(script.ending.safe))
    {
      if !script.authorised {
        return Thrown(true);
      }
      for n := 0 to |script.writes|
        invariant AllPass(script.writes[..n])
        invariant written == Total(script.writes[..n])
        invariant sent == (0 < n)
      {
        FirstFailure(script.writes, n);
        assert script.writes[..n + 1][..n] == script.writes[..n];
        var ok := WriteWire(script.writes[n]);
        if !ok {
          return Thrown(true);
        }
      }
      FirstFailure(script.writes, |script.writes|);
      assert script.writes[..|script.writes|] == script.writes;
      r := if script.ending.Replies? then Told(script.ending.accepted, script.ending.large)
           else Thrown(script.ending.safe);
    }
  }

  predicate Passes(w: Write) {
    w.authorised && w.transportOpen
  }

  predicate AllPass(writes: seq<Write>) {
    forall i :: 0 <= i < |writes| ==> Passes(writes[i])
  }

  function Total(writes: seq<Write>): nat {
    if writes == [] then 0 else Total(writes[..|writes| - 1]) + writes[|writes| - 1].bytes
  }

  /** The bytes on the wire: those of the writes before the first that fails. */
  function BytesOf(script: Script): nat {
    if script.authorised then Total(Passing(script.writes)) else 0
  }

  function Passing(writes: seq<Write>): seq<Write> {
    if writes == [] || !Passes(writes[0]) then [] else [writes[0]] + Passing(writes[1..])
  }

  predicate MayHaveWritten(script: Script) {
    script.authorised && script.writes != [] && script.writes[0].authorised
  }

  predicate Completes(script: Script) {
    script.authorised && AllPass(script.writes) && script.ending.Replies?
  }

  lemma {:induction false} FirstFailure(writes: seq<Write>, n: nat)
    requires n <= |writes| && AllPass(writes[..n])
    ensures n == |writes| || !Passes(writes[n]) ==> Passing(writes) == writes[..n]
    decreases |writes|
  {
    if n != 0 {
      assert writes[..n][0] == writes[0] && Passes(writes[0]);
      assert writes[1..][..n - 1] == writes[..n][1..];
      FirstFailure(writes[1..], n - 1);
      assert writes[..n] == [writes[0]] + writes[1..][..n - 1];
    }
  }

  /** Evidence: a step that ends in an exception is `unknown` if the sent mark was set. */
  function StatusOf(script: Script): StepStatus {
    if Completes(script) then if script.ending.accepted then OK else ERROR
    else if MayHaveWritten(script) then UNKNOWN else ERROR
  }

  predicate Continues(script: Script) {
    StatusOf(script) == OK && !script.ending.large
  }

  /** The number of commands that are started. */
  function Started(steps: seq<Script>): nat {
    if steps == [] then 0 else if Continues(steps[0]) then 1 + Started(steps[1..]) else 1
  }

  lemma {:induction false} StartedIs(steps: seq<Script>, n: nat)
    requires n <= |steps| && forall i :: 0 <= i < n ==> Continues(steps[i])
    ensures n < |steps| && !Continues(steps[n]) ==> Started(steps) == n + 1
    ensures n == |steps| ==> Started(steps) == n
    decreases |steps|
  {
    if n != 0 {
      StartedIs(steps[1..], n - 1);
    }
  }

  /** Commands run at most once and in order: the ones before the last started one are ok, and those
      after it are not attempted.  `bytes` is what each command put on the wire. */
  method RunCommands(session: Session, steps: seq<Script>)
    returns (status: RunStatus, results: seq<StepStatus>, error: Option<RunError>, ghost bytes: seq<nat>)
    modifies session
    ensures |results| == |steps| == |bytes|
    ensures forall i :: 0 <= i < |steps| ==>
      results[i] == (if i < Started(steps) then StatusOf(steps[i]) else NOT_ATTEMPTED)
    ensures forall i :: 0 <= i < |steps| ==> bytes[i] == (if i < Started(steps) then BytesOf(steps[i]) else 0)
    ensures status == COMPLETED <==> forall i :: 0 <= i < |steps| ==> Continues(steps[i])
    ensures status == AMBIGUOUS <==> UNKNOWN in results
    ensures error.None? <==> status == COMPLETED
    ensures error != Some(SetupFailed) && error != Some(InvalidRequest)
  {
    results := seq(|steps|, _ => NOT_ATTEMPTED);
    bytes := seq(|steps|, _ => 0);
    for n := 0 to |steps|
      invariant |results| == |steps| == |bytes|
      invariant forall i :: 0 <= i < n ==> Continues(steps[i])
      invariant forall i :: 0 <= i < |steps| ==> results[i] == (if i < n then OK else NOT_ATTEMPTED)
      invariant forall i :: 0 <= i < |steps| ==> bytes[i] == (if i < n then BytesOf(steps[i]) else 0)
    {
      StartedIs(steps, n);
      session.ResetStep();
      var told := session.ExecuteStep(steps[n]);
      bytes := bytes[n := BytesOf(steps[n])];
      if told.Thrown? {
        results := results[n := if session.sent then UNKNOWN else ERROR];
        status := if session.sent then AMBIGUOUS else STOPPED;
        error := Some(if told.safe then SafeFailure else Interrupted);
        assert session.sent ==> results[n] == UNKNOWN;
        return;
      }
      results := results[n := if told.accepted then OK else ERROR];
      if told.large || !told.accepted {
        status, error := STOPPED, Some(if told.large then ResultLimit else Rejected);
        return;
      }
    }
    StartedIs(steps, |steps|);
    status, error := COMPLETED, None;
  }

  /** The whole call.  An exception around the commands overrides the error text.  `dropped` says whether
      the coverage was dropped after the commands; that it was not goes unreported exactly if closing
      the connection raised. */
  method Execute(call: Call) returns (r: Result, ghost bytes: seq<nat>, ghost dropped: bool)
    ensures |r.results| == |call.steps| == |bytes|
    ensures r.error == Some(InvalidRequest) <==> !call.parsed
    ensures SetUp(call) ==> forall i :: 0 <= i < |call.steps| ==>
      r.results[i] == (if i < Started(call.steps) then StatusOf(call.steps[i]) else NOT_ATTEMPTED)
    ensures SetUp(call) ==> forall i :: 0 <= i < |call.steps| ==>
      bytes[i] == (if i < Started(call.steps) then BytesOf(call.steps[i]) else 0)
    ensures SetUp(call) ==> (r.status == COMPLETED <==> forall i :: 0 <= i < |call.steps| ==> Continues(call.steps[i]))
    ensures !SetUp(call) ==>
      r.status == STOPPED && forall i :: 0 <= i < |bytes| ==> bytes[i] == 0 && r.results[i] == NOT_ATTEMPTED
    ensures r.status == AMBIGUOUS <==> UNKNOWN in r.results
    ensures r.error == Some(SetupFailed) <==> SaysNothingWasSent(call)
    ensures SetUp(call) && Escaping(call).None? ==> (r.error.None? <==> r.status == COMPLETED)
    ensures r.stale <==> SetUp(call) && call.closing.Quiet? && !call.lastInvalidation
    ensures SetUp(call) ==> (!dropped && !r.stale <==> call.closing.Fails?)
  {
    var nothing := seq(|call.steps|, _ => NOT_ATTEMPTED);
    bytes, dropped := seq(|call.steps|, _ => 0), false;
    if !call.parsed {
      r := Result(STOPPED, nothing, Some(InvalidRequest), false);
      return;
    }
    if call.connects.Some? {
      r := Result(STOPPED, nothing, Some(TextOf(call.connects.value)), false);
      return;
    }
    var escaping := call.firstInvalidation;
    if escaping.Some? {
      r := Result(STOPPED, nothing, None, false);
    } else {
      var session := new Session();
      var status, results, error;
      status, results, error, bytes := RunCommands(session, call.steps);
      if call.closing.Fails? {
        escaping := Some(call.closing.safe);
        r := Result(status, results, error, false);
      } else {
        dropped := call.lastInvalidation;
        r := Result(status, results, error, !call.lastInvalidation);
      }
    }
    if call.leaving.Fails? {
      escaping := Some(call.leaving.safe);
    }
    if escaping.Some? {
      r := r.(error := Some(TextOf(escaping.value)));
    }
  }

  function TextOf(safe: bool): RunError {
    if safe then SafeFailure else SetupFailed
  }

  /** Connecting and the first invalidation both succeeded. */
  predicate SetUp(call: Call) {
    call.parsed && call.connects.None? && call.firstInvalidation.None?
  }

  /** The exception that leaves the connection; one raised later takes the place of an earlier one. */
  function Escaping(call: Call): Option<bool> {
    if call.connects.Some? then call.connects
    else if call.leaving.Fails? then Some(call.leaving.safe)
    else if call.firstInvalidation.Some? then call.firstInvalidation
    else if call.closing.Fails? then Some(call.closing.safe)
    else None
  }

  /** When the call reports that setup failed and that no user command was sent. */
  predicate SaysNothingWasSent(call: Call) {
    call.parsed && Escaping(call) == Some(false)
  }

  /** The bytes the first n commands put on the wire. */
  function BytesUpTo(steps: seq<Script>, n: nat): nat {
    if n == 0 || steps == [] then 0 else BytesOf(steps[0]) + BytesUpTo(steps[1..], n - 1)
  }

  /** The bytes of a whole call. */
  function SentBytes(call: Call): nat {
    if SetUp(call) then BytesUpTo(call.steps, Started(call.steps)) else 0
  }

  /** That report is right exactly when no connection was set up or its first command wrote nothing:
      no command is accepted without having been written, so nothing later can have been sent. */
  lemma SetupReportIsRight(call: Call)
    requires SaysNothingWasSent(call)
    requires forall i :: 0 <= i < |call.steps| && Continues(call.steps[i]) ==> 0 < BytesOf(call.steps[i])
    ensures SentBytes(call) == 0 <==> !SetUp(call) || call.steps == [] || BytesOf(call.steps[0]) == 0
  {
    if call.steps != [] {
      var first, rest := call.steps[0], call.steps[1..];
      assert BytesUpTo(call.steps, Started(call.steps)) == BytesOf(first) + BytesUpTo(rest, Started(call.steps) - 1);
    }
  }

  /** A call for which it is wrong: one accepted command, then an error while closing. */
  lemma SetupReportCanBeWrong()
    ensures exists call :: SaysNothingWasSent(call) && 0 < SentBytes(call) && StatusOf(call.steps[0]) == OK
  {
    var w := Write(true, true, 6);
    var step := Script(true, [w], Replies(true, false));
    var call := Call(true, None, None, [step], Fails(false), true, Quiet);
    assert Passing([w]) == [w] + Passing([]);
    assert [w][..0] == [] && Total([w]) == 6;
    assert BytesOf(step) == 6 && Started([step]) == 1 + Started([]);
    assert [step][1..] == [];
    assert Started([step]) == 1 && BytesUpTo([step], 1) == 6 + BytesUpTo([], 0);
    assert SentBytes(call) == 6;
  }

  /** The shape of every run: ok steps, then at most one stopping step, then only steps that were not
      attempted; a step marked as an error by an exception put no byte on the wire. */
  lemma {:induction false} RunShape(steps: seq<Script>, i: nat)
    requires i < |steps|
    ensures i + 1 < Started(steps) ==> StatusOf(steps[i]) == OK
    ensures i < Started(steps) && StatusOf(steps[i]) == ERROR && !Completes(steps[i]) ==> BytesOf(steps[i]) == 0
    ensures Started(steps) <= |steps|
    decreases |steps|
  {
    if StatusOf(steps[i]) == ERROR && !Completes(steps[i]) {
      assert Passing(steps[i].writes) == [] || !steps[i].authorised;
    }
    if 0 < i {
      RunShape(steps[1..], i - 1);
      assert steps[1..][i - 1] == steps[i];
    } else if 1 < |steps| {
      RunShape(steps[1..], 0);
    }
  }
}
