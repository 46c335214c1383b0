/**
 A streamed compose operation whose client may leave at any moment: the process
 is drained to the end, logged as it ran, and its lock released once.
 */
module StreamingOperation {
  import opened Wrappers
  import opened OperationLock

  /** A frame of RunStreaming. */
  datatype Line =
    | Data(text: string)
    | Error(message: string)
    | Done(success: bool, outcome: string, reason: string)

  datatype Frame = Start | Phase | Output(line: Line)

  datatype Action = Pull | Up | Down | Restart

  /** What the handler's `result` holds before any done frame: the zero value. */
  const NO_RESULT: Line := Done(false, "", "")

  // --------------------------------------------------------------- what would be sent

  /** The stop phase of a restart: its successful done frame is not forwarded. */
  function StopFrames(lines: seq<Line>): seq<Frame> {
    if lines == [] then []
    else
      StopFrames(lines[..|lines| - 1])
      + if lines[|lines| - 1].Done? && lines[|lines| - 1].success then [] else [Output(lines[|lines| - 1])]
  }

  function AllFrames(lines: seq<Line>): seq<Frame> {
    seq(|lines|, i requires 0 <= i < |lines| => Output(lines[i]))
  }

  predicate StopFailed(lines: seq<Line>) {
    exists i :: 0 <= i < |lines| && lines[i].Done? && !lines[i].success
  }

  /** Every frame of the run, were the client to stay to the end. */
  function FullFrames(action: Action, stop: seq<Line>, main: seq<Line>): seq<Frame> {
    if action != Restart then [Start] + AllFrames(main)
    else if StopFailed(stop) then [Start] + StopFrames(stop)
    else [Start] + StopFrames(stop) + [Phase] + AllFrames(main)
  }

  /** The last done frame, or the one given if there is none. */
  function LastDone(lines: seq<Line>, before: Line): (r: Line)
    requires before.Done?
    ensures r.Done?
  {
    if lines == [] then before
    else if lines[|lines| - 1].Done? then lines[|lines| - 1]
    else LastDone(lines[..|lines| - 1], before)
  }

  function LastFailure(lines: seq<Line>, before: Line): (r: Line)
    requires before.Done?
    ensures r.Done?
  {
    if lines == [] then before
    else if lines[|lines| - 1].Done? && !lines[|lines| - 1].success then lines[|lines| - 1]
    else LastFailure(lines[..|lines| - 1], before)
  }

  /** The output text collected for the log. */
  function Collected(lines: seq<Line>): string {
    if lines == [] then ""
    else
      Collected(lines[..|lines| - 1])
      + if lines[|lines| - 1].Data? && lines[|lines| - 1].text != "" then lines[|lines| - 1].text + "\n" else ""
  }

  datatype LogRow = LogRow(outcome: string, reason: string, output: string)

  /** logRun: a run that sent no outcome is logged as failed. */
  function LogOf(result: Line, output: string): LogRow
    requires result.Done?
  {
    LogRow(if result.outcome == "" then "failed" else result.outcome, result.reason, output)
  }

  /** What is logged: the outcome the run sent, and "failed" for a run that sent none. */
  lemma LoggedOutcome(result: Line, output: string)
    requires result.Done?
    ensures LogOf(result, output).outcome == "failed" <==> result.outcome == "" || result.outcome == "failed"
    ensures result.outcome != "" ==> LogOf(result, output).outcome == result.outcome
    ensures LogOf(result, output).reason == result.reason && LogOf(result, output).output == output
  {
  }

  /** What the run is, whoever is watching. */
  function ExpectedLog(action: Action, stop: seq<Line>, main: seq<Line>): LogRow {
    if action != Restart then LogOf(LastDone(main, NO_RESULT), Collected(main))
    else if StopFailed(stop) then LogOf(LastFailure(stop, NO_RESULT), Collected(stop))
    else LogOf(LastDone(main, NO_RESULT), Collected(stop) + Collected(main))
  }

  // ------------------------------------------------------------------- the handler

  /** A process's frames, as its channel gives them; the process is stalled until they are all taken. */
  class Process {
    const lines: seq<Line>
    var taken: nat

    constructor (lines: seq<Line>)
      ensures this.lines == lines && taken == 0
    {
      this.lines, taken := lines, 0;
    }

    predicate Drained()
      reads this
    {
      taken == |lines|
    }
  }

  /** The browser's end of the socket: what reached it. */
  class Client {
    var delivered: seq<Frame>
    /** how many frames reach it before it is gone; None: it stays to the end */
    const patience: Option<nat>

    constructor (patience: Option<nat>)
      ensures delivered == [] && this.patience == patience
    {
      delivered, this.patience := [], patience;
    }
  }

  /** Of the frames offered, those that reach the client. */
  function Reached(patience: Option<nat>, sent: seq<Frame>): seq<Frame> {
    if patience.Some? && patience.value < |sent| then sent[..patience.value] else sent
  }

  /** What has been delivered when `sent` is everything offered so far; detached once a frame did not get through. */
  predicate Delivered(patience: Option<nat>, delivered: seq<Frame>, sent: seq<Frame>, detached: bool) {
    delivered == Reached(patience, sent) && (detached <==> patience.Some? && patience.value < |sent|)
  }

  /** Delivers the frame unless the client has left; the first failure ends all delivery. */
  method Send(client: Client, detached: bool, frame: Frame, ghost sent: seq<Frame>) returns (left: bool)
    requires Delivered(client.patience, client.delivered, sent, detached)
    modifies client
    ensures Delivered(client.patience, client.delivered, sent + [frame], left)
  {
    if detached { return true; }
    if client.patience == Some(|client.delivered|) { return true; }
    client.delivered := client.delivered + [frame];
    left := false;
  }

  lemma AllFramesAppend(lines: seq<Line>, i: nat)
    requires i < |lines|
    ensures AllFrames(lines[..i + 1]) == AllFrames(lines[..i]) + [Output(lines[i])]
  {
  }

  lemma NothingYet(before: Line)
    requires before.Done?
    ensures StopFrames([]) == [] && AllFrames([]) == [] && Collected([]) == "" && !StopFailed([])
    ensures LastFailure([], before) == before && LastDone([], before) == before
  {
  }

  /** One more line of the stop phase. */
  lemma StopStep(before: seq<Line>, line: Line)
    ensures StopFrames(before + [line])
         == StopFrames(before) + if line.Done? && line.success then [] else [Output(line)]
    ensures LastFailure(before + [line], NO_RESULT)
         == if line.Done? && !line.success then line else LastFailure(before, NO_RESULT)
    ensures StopFailed(before + [line]) <==> StopFailed(before) || (line.Done? && !line.success)
    ensures Collected(before + [line])
         == Collected(before) + if line.Data? && line.text != "" then line.text + "\n" else ""
  {
    var all := before + [line];
    assert all[..|all| - 1] == before && all[|before|] == line;
    if StopFailed(before) {
      var i :| 0 <= i < |before| && before[i].Done? && !before[i].success;
      assert all[i] == before[i];
    }
  }

  /** The stop phase, drained to the end whether or not the client is there. */
  method DrainStop(process: Process, client: Client, gone: bool, ghost sent: seq<Frame>)
    returns (detached: bool, failed: bool, result: Line, output: string)
    requires process.taken == 0 && Delivered(client.patience, client.delivered, sent, gone)
    modifies process, client
    ensures process.Drained()
    ensures Delivered(client.patience, client.delivered, sent + StopFrames(process.lines), detached)
    ensures failed == StopFailed(process.lines) && result == LastFailure(process.lines, NO_RESULT)
    ensures output == Collected(process.lines)
  {
    hide Delivered, StopFrames, Collected, LastFailure, StopFailed;
    detached, failed, result, output := gone, false, NO_RESULT, "";
    NothingYet(NO_RESULT);
    assert sent + StopFrames([]) == sent;
    while process.taken < |process.lines|
      invariant process.taken <= |process.lines|
      invariant Delivered(client.patience, client.delivered, sent + StopFrames(process.lines[..process.taken]),
                          detached)
      invariant failed == StopFailed(process.lines[..process.taken])
      invariant result == LastFailure(process.lines[..process.taken], NO_RESULT)
      invariant output == Collected(process.lines[..process.taken])
    {
      var line := process.lines[process.taken];
      ghost var before := process.lines[..process.taken];
      assert process.lines[..process.taken + 1] == before + [line];
      StopStep(before, line);
      process.taken := process.taken + 1;
      if line.Done? {
        if !line.success {
          detached := Send(client, detached, Output(line), sent + StopFrames(before));
          result, failed := line, true;
        }
      } else {
        if line.Data? && line.text != "" { output := output + (line.text + "\n"); }
        detached := Send(client, detached, Output(line), sent + StopFrames(before));
      }
      assert sent + StopFrames(before) + [Output(line)] == sent + (StopFrames(before) + [Output(line)]);
      assert StopFrames(before) + [] == StopFrames(before) && Collected(before) + "" == Collected(before);
    }
    assert process.lines[..process.taken] == process.lines;
  }

  method DrainMain(process: Process, client: Client, gone: bool, ghost sent: seq<Frame>, collected: string)
    returns (detached: bool, result: Line, output: string)
    requires process.taken == 0 && Delivered(client.patience, client.delivered, sent, gone)
    modifies process, client
    ensures process.Drained()
    ensures Delivered(client.patience, client.delivered, sent + AllFrames(process.lines), detached)
    ensures result == LastDone(process.lines, NO_RESULT)
    ensures output == collected + Collected(process.lines)
  {
    hide Delivered, AllFrames;
    detached, result, output := gone, NO_RESULT, collected;
    NothingYet(NO_RESULT);
    assert sent + AllFrames([]) == sent;
    while process.taken < |process.lines|
      invariant process.taken <= |process.lines|
      invariant Delivered(client.patience, client.delivered, sent + AllFrames(process.lines[..process.taken]), detached)
      invariant result == LastDone(process.lines[..process.taken], NO_RESULT)
      invariant output == collected + Collected(process.lines[..process.taken])
    {
      var line := process.lines[process.taken];
      ghost var before := process.lines[..process.taken];
      assert process.lines[..process.taken + 1] == before + [line];
      assert (before + [line])[..|before|] == before;
      AllFramesAppend(process.lines, process.taken);
      process.taken := process.taken + 1;
      if line.Done? {
        result := line;
      } else if line.Data? && line.text != "" {
        output := output + (line.text + "\n");
      }
      detached := Send(client, detached, Output(line), sent + AllFrames(before));
      assert sent + AllFrames(before) + [Output(line)] == sent + (AllFrames(before) + [Output(line)]);
    }
    assert process.lines[..process.taken] == process.lines;
  }

  /**
   The streaming body.  Whenever the client leaves, it got the full run up to then,
   and all of it if it stays, every process started is drained, and the log row is the run's own.
   */
  method StreamBody(action: Action, stop: Process, main: Process, client: Client) returns (log: LogRow)
    requires stop != main && stop.taken == 0 && main.taken == 0 && client.delivered == []
    modifies stop, main, client
    ensures client.delivered == Reached(client.patience, FullFrames(action, stop.lines, main.lines))
    ensures log == ExpectedLog(action, stop.lines, main.lines)
    ensures action == Restart ==> stop.Drained()
    ensures if action == Restart && StopFailed(stop.lines) then main.taken == 0 else main.Drained()
  {
    var detached := Send(client, false, Start, []);
    ghost var sent := [Start];
    var collected := "";
    if action == Restart {
      var failed, result;
      detached, failed, result, collected := DrainStop(stop, client, detached, sent);
      sent := sent + StopFrames(stop.lines);
      if failed { return LogOf(result, collected); }
      detached := Send(client, detached, Phase, sent);
      sent := sent + [Phase];
    }
    var result, output;
    detached, result, output := DrainMain(main, client, detached, sent, collected);
    log := LogOf(result, output);
  }

  /** What one other request does to the lock: it takes something, or gives back a token of its own. */
  method Other(lock: Lock, mine: nat)
    requires lock.Valid()
    modifies lock
    ensures lock.Valid() && lock.issued >= old(lock.issued)
    ensures forall id :: id in old(lock.locks) && old(lock.locks)[id].token == mine ==>
              id in lock.locks && lock.locks[id] == old(lock.locks)[id]
  {
    var id: string, token: nat := *, *;
    if * {
      var _ := lock.Acquire(id, "start", 0);
    } else if * {
      var _ := lock.AcquireExclusive("prune", 0);
    } else if token != mine {
      if * { lock.Release(id, token); } else { lock.ReleaseExclusive(token); }
    }
  }

  /** Any number of other requests, one after the other under the lock's mutex; none of them has this token. */
  method Others(lock: Lock, mine: nat)
    requires lock.Valid()
    modifies lock
    ensures lock.Valid() && lock.issued >= old(lock.issued)
    ensures forall id :: id in old(lock.locks) && old(lock.locks)[id].token == mine ==>
              id in lock.locks && lock.locks[id] == old(lock.locks)[id]
  {
    var steps: nat := *;
    while steps > 0
      invariant lock.Valid() && lock.issued >= old(lock.issued)
      invariant forall id :: id in old(lock.locks) && old(lock.locks)[id].token == mine ==>
                  id in lock.locks && lock.locks[id] == old(lock.locks)[id]
    {
      Other(lock, mine);
      steps := steps - 1;
    }
  }

  /**
   The whole request: refused while the stack is held; otherwise the body runs
   under the lock, and the stack is this request's own (`held`) until the first
   release, whatever other requests do meanwhile.  That release frees the stack
   and nothing else (`freed`), and the deferred second one leaves alone whatever
   others did since (`later`).
   */
  method HandleOperation(lock: Lock, id: string, kind: string, now: int, action: Action, stop: Process, main: Process,
                         client: Client)
    returns (log: Option<LogRow>, ghost held: map<string, Holder>, ghost freed: map<string, Holder>,
             ghost later: map<string, Holder>)
    requires lock.Valid() && stop != main && stop.taken == 0 && main.taken == 0 && client.delivered == []
    modifies lock, stop, main, client
    ensures lock.Valid()
    ensures log.None? <==> old(lock.exclusive).Some? || id in old(lock.locks)
    ensures log.None? ==> lock.locks == old(lock.locks) && client.delivered == [] && main.taken == 0
    ensures log.Some? ==> log.value == ExpectedLog(action, stop.lines, main.lines)
    ensures log.Some? ==> id in held && held[id] == Holder(old(lock.issued), kind, now)
    ensures log.Some? ==> freed == held - {id} && lock.locks == later
    ensures log.Some? ==>
      client.delivered == Reached(client.patience, FullFrames(action, stop.lines, main.lines))
  {
    held, freed, later := lock.locks, lock.locks, lock.locks;
    var token := lock.Acquire(id, kind, now);
    if token.None? { return None, held, freed, later; }
    var release := new Releaser(lock, id, token.value);
    // the body never touches the lock, so what others do during it can be said at one point
    var row := StreamBody(action, stop, main, client);
    Others(lock, token.value);
    held := lock.locks;
    release.Call();
    freed := lock.locks;
    Others(lock, token.value);
    later := lock.locks;
    release.Call();
    log := Some(row);
  }

  // ------------------------------------------------------------- one result, and last

  predicate NoDone(lines: seq<Line>) {
    forall i :: 0 <= i < |lines| ==> !lines[i].Done?
  }

  /** RunStreaming emits one done frame, last, or none when the command could not be started. */
  predicate EndsInDone(lines: seq<Line>) {
    NoDone(lines) || (lines != [] && lines[|lines| - 1].Done? && NoDone(lines[..|lines| - 1]))
  }

  /** Such runs: any output, alone or with one done frame after it. */
  lemma RunsEndInDone(output: seq<Line>, done: Line)
    requires NoDone(output) && done.Done?
    ensures EndsInDone(output) && EndsInDone(output + [done])
  {
    assert (output + [done])[..|output|] == output;
  }

  predicate IsDoneFrame(f: Frame) {
    f.Output? && f.line.Done?
  }

  /** At most one frame is a done frame, and it is the last. */
  predicate OneResultLast(frames: seq<Frame>) {
    forall i :: 0 <= i < |frames| - 1 ==> !IsDoneFrame(frames[i])
  }

  predicate NoResult(frames: seq<Frame>) {
    forall i :: 0 <= i < |frames| ==> !IsDoneFrame(frames[i])
  }

  lemma ResultAfter(first: seq<Frame>, later: seq<Frame>)
    requires NoResult(first) && OneResultLast(later)
    ensures OneResultLast(first + later)
  {
  }

  lemma {:induction false} StopFramesWithoutDone(lines: seq<Line>)
    requires NoDone(lines)
    ensures NoResult(StopFrames(lines))
  {
    if lines != [] { StopFramesWithoutDone(lines[..|lines| - 1]); }
  }

  /** The stop phase sends a result only when it failed, and then sends it last. */
  lemma StopFramesResult(lines: seq<Line>)
    requires EndsInDone(lines)
    ensures OneResultLast(StopFrames(lines)) && (!StopFailed(lines) ==> NoResult(StopFrames(lines)))
  {
    if NoDone(lines) {
      StopFramesWithoutDone(lines);
    } else {
      StopFramesWithoutDone(lines[..|lines| - 1]);
    }
  }

  lemma MainFramesResult(lines: seq<Line>)
    requires EndsInDone(lines)
    ensures OneResultLast(AllFrames(lines))
  {
  }

  /** A run sends at most one done frame, and sends it last. */
  lemma RunHasOneResultLast(action: Action, stop: seq<Line>, main: seq<Line>)
    requires EndsInDone(stop) && EndsInDone(main)
    ensures OneResultLast(FullFrames(action, stop, main))
  {
    StopFramesResult(stop);
    MainFramesResult(main);
    if action != Restart {
      ResultAfter([Start], AllFrames(main));
    } else if StopFailed(stop) {
      ResultAfter([Start], StopFrames(stop));
    } else {
      ResultAfter([Start] + StopFrames(stop) + [Phase], AllFrames(main));
    }
  }

  /** So does whatever part of it a leaving client got. */
  lemma PrefixHasOneResultLast(frames: seq<Frame>, part: seq<Frame>)
    requires OneResultLast(frames) && part <= frames
    ensures OneResultLast(part)
  {
    forall i | 0 <= i < |part| - 1 ensures !IsDoneFrame(part[i]) {
      assert part[i] == frames[i];
    }
  }

  /** The done frame a client got to see is the result that was logged. */
  lemma SeenResultIsLogged(action: Action, stop: seq<Line>, main: seq<Line>)
    requires EndsInDone(stop) && EndsInDone(main)
    requires var full := FullFrames(action, stop, main); IsDoneFrame(full[|full| - 1])
    ensures var full := FullFrames(action, stop, main);
            LogOf(full[|full| - 1].line, ExpectedLog(action, stop, main).output) == ExpectedLog(action, stop, main)
  {
    var full := FullFrames(action, stop, main);
    if action == Restart && StopFailed(stop) {
      assert stop == stop[..|stop| - 1] + [stop[|stop| - 1]];
    } else if main != [] {
      assert AllFrames(main)[|main| - 1] == Output(main[|main| - 1]);
    }
  }
}
