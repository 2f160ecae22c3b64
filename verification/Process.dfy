// The core as a child process: subprocessManager and boundedLogWriter in
// internal/services/singbox/process.go. Every critical section of its mutex is
// one step; processes may exit at any time.
module Process {
  import Collections
  import opened Text

  // ---- diagnostics ------------------------------------------------------------------

  const DIAGNOSTIC_MAX := 4096
  const TAIL_MAX := 8192

  function TrimDiagnostic(s: string): string {
    var t := TrimSpace(s);
    if |t| <= DIAGNOSTIC_MAX then t else TrimSpace(t[|t| - DIAGNOSTIC_MAX..])
  }

  // err: what Wait returned, if it was an error
  function ExitMessage(err: Option<string>, output: string): string {
    var msg := if err.Some? then "sing-box exited: " + err.value else "sing-box exited";
    TrimDiagnostic(if output != "" then msg + ": " + output else msg)
  }

  lemma {:induction false} TrimSpaceKeepsText(s: string, i: nat)
    requires i < |s| && !IsSpace(s[i])
    ensures TrimSpace(s) != ""
    decreases |s|
  {
    if IsSpace(s[0]) {
      TrimSpaceKeepsText(s[1..], i - 1);
    } else if IsSpace(s[|s| - 1]) {
      TrimSpaceKeepsText(s[..|s| - 1], i);
    }
  }

  lemma {:induction false} TrimDiagnosticKeepsText(s: string)
    requires |s| > 0 && !IsSpace(s[0])
    ensures TrimDiagnostic(s) != ""
  {
    hide IsSpace, TrimSpace;
    TrimSpaceKeepsText(s, 0);
    var t := TrimSpace(s);
    if |t| > DIAGNOSTIC_MAX {
      TrimSpaceKeepsText(t[|t| - DIAGNOSTIC_MAX..], DIAGNOSTIC_MAX - 1);
    }
  }

  // An exit is never reported as an empty message.
  lemma {:induction false} ExitMessageNonEmpty(err: Option<string>, output: string)
    ensures ExitMessage(err, output) != ""
  {
    var msg := if err.Some? then "sing-box exited: " + err.value else "sing-box exited";
    var s := if output != "" then msg + ": " + output else msg;
    assert s[0] == 's' && !IsSpace('s');
    TrimDiagnosticKeepsText(s);
    hide TrimDiagnostic;
  }

  // The message is the whole text when it fits, else what is left of its last
  // 4096 bytes without the white space in front.
  lemma {:induction false} ExitMessageExact(err: Option<string>, output: string)
    requires |output| > 0 ==> !IsSpace(output[|output| - 1])
    requires output == "" && err.Some? && |err.value| > 0 ==> !IsSpace(err.value[|err.value| - 1])
    requires output == "" ==> err != Some("")
    ensures var text := "sing-box exited" + (if err.Some? then ": " + err.value else "") + (if output != "" then ": " + output else "");
            var message := ExitMessage(err, output);
            && (|text| <= 4096 ==> message == text)
            && (|text| > 4096 ==> exists cut :: |text| - 4096 <= cut <= |text| && message == text[cut..]
                                                && AllSpace(text[|text| - 4096..cut]))
  {
    var text := "sing-box exited" + (if err.Some? then ": " + err.value else "") + (if output != "" then ": " + output else "");
    var msg := if err.Some? then "sing-box exited: " + err.value else "sing-box exited";
    assert "sing-box exited" + ": " == "sing-box exited: ";
    assert err.Some? ==> "sing-box exited" + (": " + err.value) == "sing-box exited: " + err.value;
    assert text == (if output != "" then msg + ": " + output else msg);
    TrimDiagnosticExact(text);
  }

  lemma {:induction false} TrimDiagnosticExact(s: string)
    requires |s| > 0 && !IsSpace(s[0]) && !IsSpace(s[|s| - 1])
    ensures |s| <= 4096 ==> TrimDiagnostic(s) == s
    ensures |s| > 4096 ==> exists cut :: |s| - 4096 <= cut <= |s| && TrimDiagnostic(s) == s[cut..] && AllSpace(s[|s| - 4096..cut])
  {
    hide IsSpace;
    if |s| > 4096 {
      var n := |s| - 4096;
      var cut := n;
      while cut < |s| && IsSpace(s[cut])
        invariant n <= cut <= |s| && forall i :: n <= i < cut ==> IsSpace(s[i])
      {
        cut := cut + 1;
      }
      assert s[n..] == s[n..cut] + s[cut..] + "";
      TrimSpaceExact(s[n..cut], s[cut..], "");
    }
  }

  class BoundedLogWriter {
    const max: nat
    var buf: string
    var forwarded: string // what the sink has been handed
    ghost var written: string

    ghost predicate Valid()
      reads this
    {
      max > 0 && buf == Collections.LastOf(written, max) && forwarded == written
    }

    constructor (max: int)
      ensures Valid() && written == "" && this.max == if max <= 0 then 8192 else max
    {
      this.max := if max <= 0 then TAIL_MAX else max;
      buf, forwarded, written := "", "", "";
    }

    // Whatever the writes, the buffer is the last max bytes of all of them.
    method Write(p: string) returns (n: nat)
      requires Valid()
      modifies this
      ensures Valid() && written == old(written) + p && n == |p|
    {
      forwarded := forwarded + p;
      buf := buf + p;
      if |buf| > max {
        buf := buf[|buf| - max..];
      }
      written := written + p;
      n := |p|;
    }
  }

  // ---- the manager --------------------------------------------------------------------

  // Processes are told apart by their exec.Cmd, not by a reusable pid.
  type Cmd = nat

  datatype Life = Life(exited: bool, terminated: bool) // terminated: SIGTERM was delivered

  datatype State = State(
    procs: map<Cmd, Life>,   // every process ever spawned
    cmd: Option<Cmd>,        // the one the manager tracks
    lastError: string,
    starting: Option<Cmd>,   // Start holds the mutex and waits out the settle time
    reapers: set<Cmd>)       // the processes a reap goroutine waits for

  datatype Step =
    | StartFails(message: string)            // exec failed
    | Spawn(c: Cmd)
    | SettleExited(message: string)          // the process exited within the settle time
    | SettleTimeout
    | StartNoop                              // already running
    | Stop(delivered: bool)
    | Exit(c: Cmd)
    | Reap(c: Cmd, message: string)

  predicate Exited(s: State, c: Cmd) {
    c in s.procs && s.procs[c].exited
  }

  predicate Enabled(s: State, step: Step) {
    match step
    case StartFails(message) => s.starting.None? && s.cmd.None? && message != ""
    case Spawn(c) => s.starting.None? && s.cmd.None? && c !in s.procs
    case SettleExited(message) => s.starting.Some? && Exited(s, s.starting.value) && message != ""
    case SettleTimeout => s.starting.Some?
    case StartNoop => s.starting.None? && s.cmd.Some?
    case Stop(delivered) => s.starting.None? && (delivered ==> s.cmd.Some? && s.cmd.value in s.procs)
    case Exit(c) => c in s.procs && !s.procs[c].exited
    case Reap(c, message) => s.starting.None? && c in s.reapers && Exited(s, c) && message != ""
  }

  function Do(s: State, step: Step): State
    requires Enabled(s, step)
  {
    match step
    case StartFails(message) => s.(lastError := message)
    case Spawn(c) => s.(procs := s.procs[c := Life(false, false)], cmd := Some(c), lastError := "", starting := Some(c))
    case SettleExited(message) => s.(cmd := None, lastError := message, starting := None)
    case SettleTimeout => s.(starting := None, reapers := s.reapers + {s.starting.value})
    case StartNoop => s
    case Stop(delivered) =>
      if delivered then s.(procs := s.procs[s.cmd.value := s.procs[s.cmd.value].(terminated := true)], cmd := None, lastError := "")
      else s
    case Exit(c) => s.(procs := s.procs[c := s.procs[c].(exited := true)])
    case Reap(c, message) =>
      var t := s.(reapers := s.reapers - {c});
      if s.cmd == Some(c) then t.(cmd := None, lastError := message) else t
  }

  ghost predicate Init(s: State) {
    s.procs == map[] && s.cmd.None? && s.starting.None? && s.reapers == {}
  }

  ghost predicate Run(ss: seq<State>, steps: seq<Step>) {
    && |ss| == |steps| + 1
    && Init(ss[0])
    && forall i :: 0 <= i < |steps| ==> Enabled(ss[i], steps[i]) && ss[i + 1] == Do(ss[i], steps[i])
  }

  predicate Loose(l: Life) {
    !l.exited && !l.terminated
  }

  ghost predicate Inv(s: State) {
    && (forall c :: c in s.procs && Loose(s.procs[c]) ==> s.cmd == Some(c))
    && (s.cmd.Some? ==>
          && s.lastError == ""
          && s.cmd.value in s.procs && !s.procs[s.cmd.value].terminated
          && (s.starting == s.cmd || s.cmd.value in s.reapers))
    && (s.starting.Some? ==> s.starting == s.cmd)
    && (forall c :: c in s.reapers ==> c in s.procs)
  }

  lemma {:induction false} StepKeepsInv(s: State, step: Step)
    requires Inv(s) && Enabled(s, step)
    ensures Inv(Do(s, step))
  {
  }

  lemma {:induction false} InvAlways(ss: seq<State>, steps: seq<Step>, i: nat)
    requires Run(ss, steps) && i < |ss|
    ensures Inv(ss[i])
  {
    if i > 0 {
      InvAlways(ss, steps, i - 1);
      StepKeepsInv(ss[i - 1], steps[i - 1]);
    }
  }

  // In every interleaving of starts, stops, restarts, exits and late reaps: a
  // process that has neither exited nor been sent SIGTERM is the tracked one, so
  // there is at most one; and a tracked process means no error is shown.
  lemma {:induction false} NoStrayProcess(ss: seq<State>, steps: seq<Step>, i: nat, c: Cmd)
    requires Run(ss, steps) && i < |ss| && c in ss[i].procs && Loose(ss[i].procs[c])
    ensures ss[i].cmd == Some(c) && ss[i].lastError == ""
    ensures forall d :: d in ss[i].procs && Loose(ss[i].procs[d]) ==> d == c
  {
    InvAlways(ss, steps, i);
  }

  // A tracked process is let go only by its own SIGTERM or after its own exit:
  // the reap of an older one never clears it or writes its error.
  lemma {:induction false} KeptUntilStoppedOrExited(ss: seq<State>, steps: seq<Step>, i: nat, c: Cmd)
    requires Run(ss, steps) && i < |steps| && ss[i].cmd == Some(c)
    ensures ss[i + 1].cmd == Some(c) ==> ss[i + 1].lastError == ""
    ensures ss[i + 1].cmd != Some(c) ==>
              && ss[i + 1].cmd.None?
              && ((steps[i] == Stop(true) && ss[i + 1].procs[c].terminated) || Exited(ss[i], c))
  {
    InvAlways(ss, steps, i);
    InvAlways(ss, steps, i + 1);
  }

  // An exit is never missed: whenever the mutex is free and the tracked process
  // has exited, its reap is waiting and takes it off.
  lemma {:induction false} ExitIsNoticed(ss: seq<State>, steps: seq<Step>, i: nat, message: string)
    requires Run(ss, steps) && i < |ss| && message != ""
    requires ss[i].cmd.Some? && Exited(ss[i], ss[i].cmd.value) && ss[i].starting.None?
    ensures var reap := Reap(ss[i].cmd.value, message);
            Enabled(ss[i], reap) && Do(ss[i], reap).cmd.None? && Do(ss[i], reap).lastError == message
  {
    InvAlways(ss, steps, i);
  }

  // A sequence of enabled steps.
  ghost predicate AllEnabled(s: State, steps: seq<Step>) {
    |steps| == 0 || (AllEnabled(s, steps[..|steps| - 1]) && Enabled(DoAll(s, steps[..|steps| - 1]), steps[|steps| - 1]))
  }

  ghost function DoAll(s: State, steps: seq<Step>): State {
    if |steps| == 0 then s
    else
      var t := DoAll(s, steps[..|steps| - 1]);
      if Enabled(t, steps[|steps| - 1]) then Do(t, steps[|steps| - 1]) else t
  }

  // The state t that s reaches by these steps, with the invariant intact.
  ghost predicate Held(s: State, steps: seq<Step>, t: State) {
    AllEnabled(s, steps) && t == DoAll(s, steps) && Inv(t)
  }

  lemma {:induction false} DoMore(s: State, steps: seq<Step>, step: Step)
    requires AllEnabled(s, steps) && Inv(DoAll(s, steps)) && Enabled(DoAll(s, steps), step)
    ensures Held(s, steps + [step], Do(DoAll(s, steps), step))
  {
    assert (steps + [step])[..|steps|] == steps;
    StepKeepsInv(DoAll(s, steps), step);
  }

  lemma {:induction false} DoOne(s: State, step: Step)
    requires Inv(s) && Enabled(s, step)
    ensures Held(s, [step], Do(s, step))
  {
    DoMore(s, [], step);
    assert [] + [step] == [step];
  }

  lemma {:induction false} NoSteps(s: State)
    requires Inv(s)
    ensures Held(s, [], s)
  {
  }

  lemma {:induction false} StartFailsStep(s: State, message: string)
    requires Inv(s) && s.starting.None? && s.cmd.None? && message != ""
    ensures Held(s, [StartFails(message)], s.(lastError := message))
  {
    DoOne(s, StartFails(message));
  }

  lemma {:induction false} SpawnStep(s: State, c: Cmd)
    requires Inv(s) && s.starting.None? && s.cmd.None? && c !in s.procs
    ensures Held(s, [Spawn(c)], s.(procs := s.procs[c := Life(false, false)], cmd := Some(c), lastError := "", starting := Some(c)))
  {
    DoOne(s, Spawn(c));
  }

  lemma {:induction false} ExitStep(s: State, steps: seq<Step>, t: State, c: Cmd)
    requires Held(s, steps, t) && c in t.procs && !t.procs[c].exited
    ensures Held(s, steps + [Exit(c)], t.(procs := t.procs[c := t.procs[c].(exited := true)]))
  {
    DoMore(s, steps, Exit(c));
  }

  lemma {:induction false} SettleExitedStep(s: State, steps: seq<Step>, t: State, message: string)
    requires Held(s, steps, t) && t.starting.Some? && Exited(t, t.starting.value) && message != ""
    ensures Held(s, steps + [SettleExited(message)], t.(cmd := None, lastError := message, starting := None))
  {
    DoMore(s, steps, SettleExited(message));
  }

  lemma {:induction false} SettleTimeoutStep(s: State, steps: seq<Step>, t: State)
    requires Held(s, steps, t) && t.starting.Some?
    ensures Held(s, steps + [SettleTimeout], t.(starting := None, reapers := t.reapers + {t.starting.value}))
  {
    DoMore(s, steps, SettleTimeout);
  }

  // ---- the manager's own code ------------------------------------------------------------

  datatype Settle = TimerFires | ExitSeen(err: Option<string>, output: string)

  class SubprocessManager {
    var procs: map<Cmd, Life>
    var cmd: Option<Cmd>
    var lastError: string
    var reapers: set<Cmd>

    // What the manager shows while nobody holds its mutex.
    ghost function View(): State
      reads this
    {
      State(procs, cmd, lastError, None, reapers)
    }

    constructor ()
      ensures Init(View())
    {
      procs, cmd, lastError, reapers := map[], None, "", {};
    }

    predicate Running()
      reads this
    {
      cmd.Some?
    }

    // spawned: the new process, or None when exec fails. meanwhile: the processes
    // that exit while Start waits; the select may still see the timer first.
    method Start(spawned: Option<Cmd>, execError: string, meanwhile: seq<Cmd>, settle: Settle) returns (ok: bool, ghost steps: seq<Step>)
      requires Inv(View()) && (spawned.Some? ==> spawned.value !in procs)
      requires forall i :: 0 <= i < |meanwhile| ==> meanwhile[i] in procs || Some(meanwhile[i]) == spawned
      requires settle.ExitSeen? && spawned.Some? ==> spawned.value in meanwhile
      modifies this
      ensures Held(old(View()), steps, View()) // so the invariant holds again
      ensures ok <==> old(cmd).Some? || (spawned.Some? && settle.TimerFires?)
      ensures ok && !old(cmd).Some? ==> cmd == spawned && lastError == ""
      ensures !ok ==> cmd.None? && lastError != ""
      ensures !ok && spawned.None? ==> lastError == "start sing-box: " + execError
      ensures !ok && spawned.Some? ==> settle.ExitSeen? && lastError == ExitMessage(settle.err, settle.output)
      ensures old(cmd).Some? ==> View() == old(View())
      ensures forall c :: c in old(procs) ==> c in procs && procs[c].terminated == old(procs)[c].terminated
      ensures cmd.Some? && !old(cmd).Some? ==> cmd == spawned
    {
      hide Inv, Do, Enabled, DoAll, AllEnabled, Held, ExitMessage;
      steps := [];
      NoSteps(View());
      if Running() {
        return true, steps;
      }
      if spawned.None? {
        lastError := "start sing-box: " + execError;
        steps := [StartFails(lastError)];
        StartFailsStep(old(View()), lastError);
        return false, steps;
      }
      var c := spawned.value;
      SpawnStep(View(), c);
      procs := procs[c := Life(false, false)];
      cmd := Some(c);
      lastError := "";
      steps := [Spawn(c)];
      for i := 0 to |meanwhile|
        invariant Held(old(View()), steps, State(procs, cmd, lastError, Some(c), reapers))
        invariant cmd == Some(c) && lastError == "" && procs.Keys == old(procs).Keys + {c}
        invariant forall j :: 0 <= j < i ==> procs[meanwhile[j]].exited
        invariant forall d :: d in old(procs) ==> procs[d].terminated == old(procs)[d].terminated
      {
        var d := meanwhile[i];
        if !procs[d].exited {
          ExitStep(old(View()), steps, State(procs, cmd, lastError, Some(c), reapers), d);
          procs := procs[d := procs[d].(exited := true)];
          steps := steps + [Exit(d)];
        }
      }
      match settle {
        case ExitSeen(err, output) =>
          ExitMessageNonEmpty(err, output);
          var msg := ExitMessage(err, output);
          SettleExitedStep(old(View()), steps, State(procs, cmd, lastError, Some(c), reapers), msg);
          steps := steps + [SettleExited(msg)];
          cmd := None;
          lastError := msg;
          ok := false;
        case TimerFires =>
          SettleTimeoutStep(old(View()), steps, State(procs, cmd, lastError, Some(c), reapers));
          steps := steps + [SettleTimeout];
          reapers := reapers + {c};
          ok := true;
      }
    }

    // delivered: whether the signal could be sent; it cannot once the process was waited for.
    method Stop(delivered: bool) returns (ok: bool, ghost step: Step)
      requires Inv(View())
      modifies this
      ensures Inv(View()) && Enabled(old(View()), step) && View() == Do(old(View()), step)
      ensures step == Step.Stop(old(cmd).Some? && delivered)
      ensures ok <==> !old(cmd).Some? || delivered
      ensures ok ==> cmd.None?
      ensures !ok ==> View() == old(View())
    {
      step := Step.Stop(Running() && delivered);
      StepKeepsInv(View(), step);
      if !Running() {
        return true, step;
      }
      if !delivered {
        return false, step;
      }
      procs := procs[cmd.value := procs[cmd.value].(terminated := true)];
      cmd := None;
      lastError := "";
      ok := true;
    }

    // The mutex is free between the two halves; here nothing else gets in between.
    method Restart(delivered: bool, spawned: Option<Cmd>, execError: string, meanwhile: seq<Cmd>, settle: Settle) returns (ok: bool)
      requires Inv(View()) && (spawned.Some? ==> spawned.value !in procs)
      requires forall i :: 0 <= i < |meanwhile| ==> meanwhile[i] in procs || Some(meanwhile[i]) == spawned
      requires settle.ExitSeen? && spawned.Some? ==> spawned.value in meanwhile
      modifies this
      ensures Inv(View())
      ensures ok <==> (!old(cmd).Some? || delivered) && spawned.Some? && settle.TimerFires?
      ensures ok ==> cmd == spawned && lastError == ""
      ensures old(cmd).Some? && !delivered ==> View() == old(View())
      ensures old(cmd).Some? && delivered ==>
                old(cmd).value in procs && procs[old(cmd).value].terminated && cmd != old(cmd)
    {
      var stopped, _ := Stop(delivered);
      if !stopped {
        return false;
      }
      ghost var steps;
      ok, steps := Start(spawned, execError, meanwhile, settle);
    }

    method Reap(c: Cmd, err: Option<string>, output: string)
      requires Inv(View()) && c in reapers && Exited(View(), c)
      modifies this
      ensures Inv(View())
      ensures var step := Step.Reap(c, ExitMessage(err, output));
              Enabled(old(View()), step) && View() == Do(old(View()), step)
      ensures old(cmd) != Some(c) ==> cmd == old(cmd) && lastError == old(lastError)
    {
      ExitMessageNonEmpty(err, output);
      StepKeepsInv(View(), Step.Reap(c, ExitMessage(err, output)));
      reapers := reapers - {c};
      if cmd != Some(c) {
        return;
      }
      cmd := None;
      lastError := ExitMessage(err, output);
    }
  }
}
