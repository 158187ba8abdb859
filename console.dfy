/** The console's session: the pause flag shared with the Ctrl-C handler, the
    remembered line that an empty line repeats, and the two channels to the
    emulator core, modelled as the list of commands sent so far, the queue of
    responses not yet taken, and the list of responses handled so far.

    The reply of the core to a command is a parameter: the core is assumed to
    put it on the response channel when the command is sent, behind whatever
    was already queued there. A response arriving on its own (a breakpoint
    hit, the answers to an interrupt) enters the queue through `Deliver`. */
module Console {
  import opened Common
  import opened Protocol
  import opened Parser
  import opened Dump
  import Words

  /** What one call of the line editor returns: a line, Ctrl-C at the prompt,
      end of input, or another editor error. */
  datatype Input = Line(text: string) | Interrupted | Eof | Failed

  /** The whole state of a session, as one value. */
  datatype SessionState = SessionState(
    paused: bool,
    lastCmd: Option<string>,
    sent: seq<DebugCmd>,
    pending: seq<DebugResp>,
    received: seq<DebugResp>,
    exited: bool)

  /** The console starts with the CPU paused. */
  const PauseAtStart: bool := true

  function Initial(): SessionState
  {
    SessionState(PauseAtStart, None, [], [], [], false)
  }

  /** The pause flag after one response is handled: only `HitBreakpoint` writes it. */
  function AfterResp(paused: bool, r: DebugResp): bool
  {
    paused || r.HitBreakpoint?
  }

  /** The pause flag after handling `rs` in order. */
  function PausedAfter(paused: bool, rs: seq<DebugResp>): bool
  {
    if rs == [] then paused else AfterResp(PausedAfter(paused, rs[..|rs| - 1]), rs[|rs| - 1])
  }

  /** `drain_rx`: every queued response is handled, oldest first. */
  function Drained(st: SessionState): SessionState
  {
    st.(paused := PausedAfter(st.paused, st.pending), pending := [], received := st.received + st.pending)
  }

  /** `handle_cmd`: a line that parses to a command for the core sends it and
      then takes exactly one response off the queue (the oldest one, which is
      the reply only when nothing else was queued) and handles it; `continue`
      clears the pause flag before sending. `exit` ends the process. Anything
      else sends nothing and receives nothing. */
  function AfterCmd(st: SessionState, line: string, reply: DebugResp): SessionState
  {
    match ParseLine(line)
    case Some(UiExit) => st.(exited := true)
    case Some(Core(c)) =>
      var flag := if c.Continue? then false else st.paused;
      var queue := st.pending + [reply];
      st.(paused := AfterResp(flag, queue[0]), sent := st.sent + [c],
          pending := queue[1..], received := st.received + [queue[0]])
    case _ => st
  }

  /** One round of the prompt loop in `start`: drain the queue, read, act.
      A non-empty line is handled and then remembered if the CPU is still
      paused (forgotten otherwise); an empty line repeats the remembered line
      and leaves the memory alone; end of input runs `continue`. The flag
      says whether the prompt loop is left. */
  function AfterPrompt(st: SessionState, input: Input, reply: DebugResp): (SessionState, bool)
  {
    var d := Drained(st);
    match input
    case Line(l) =>
      if l != "" then
        var s := AfterCmd(d, l, reply);
        (if s.exited then s else s.(lastCmd := if s.paused then Some(l) else None), false)
      else
        (match d.lastCmd
         case Some(prev) => AfterCmd(d, prev, reply)
         case None => d, false)
    case Interrupted => (d, true)
    case Eof => (AfterCmd(d, "continue", reply), true)
    case Failed => (d, true)
  }

  /** The Ctrl-C handler: set the flag, then send `Pause` and `GetState`. */
  function AfterInterrupt(st: SessionState): SessionState
  {
    st.(paused := true, sent := st.sent + [Pause, GetState])
  }

  /** The session invariant: the remembered line is never the empty line, so
      an empty line never repeats itself. */
  predicate Valid(st: SessionState)
  {
    st.lastCmd.Some? ==> st.lastCmd.value != ""
  }

  /** The flag after a run of responses is set exactly when it was set before
      or one of them is a `HitBreakpoint`. */
  lemma {:induction false} PausedAfterIff(paused: bool, rs: seq<DebugResp>)
    ensures PausedAfter(paused, rs) <==> paused || exists i :: 0 <= i < |rs| && rs[i].HitBreakpoint?
  {
    if rs != [] {
      var front := rs[..|rs| - 1];
      PausedAfterIff(paused, front);
      if exists i :: 0 <= i < |front| && front[i].HitBreakpoint? {
        var i :| 0 <= i < |front| && front[i].HitBreakpoint?;
        assert rs[i] == front[i];
      }
      if exists i :: 0 <= i < |rs| && rs[i].HitBreakpoint? {
        var i :| 0 <= i < |rs| && rs[i].HitBreakpoint?;
        if i < |front| {
          assert front[i] == rs[i];
        }
      }
    }
  }

  /** Handling the responses of two runs one after the other is handling the
      joined run. */
  lemma {:induction false} PausedAfterAppend(paused: bool, rs: seq<DebugResp>, more: seq<DebugResp>)
    ensures PausedAfter(paused, rs + more) == PausedAfter(PausedAfter(paused, rs), more)
    decreases |more|
  {
    if more == [] {
      assert rs + more == rs;
    } else {
      var front := more[..|more| - 1];
      assert (rs + more)[..|rs + more| - 1] == rs + front;
      PausedAfterAppend(paused, rs, front);
    }
  }

  /** The send/receive contract of `handle_cmd`: it sends at most one command,
      receives exactly as many responses as it sends, loses none of them, and
      sends one exactly when the line parses to a command for the core. */
  lemma DispatchContract(st: SessionState, line: string, reply: DebugResp)
    ensures var s := AfterCmd(st, line, reply);
      && |s.sent| - |st.sent| == |s.received| - |st.received|
      && (|s.sent| == |st.sent| + 1 <==> ParseLine(line).Some? && ParseLine(line).value.Core?)
      && (|s.sent| == |st.sent| ==> s == st || (ParseLine(line) == Some(UiExit) && s == st.(exited := true)))
      && (|s.sent| == |st.sent| + 1 ==>
            && s.sent == st.sent + [ParseLine(line).value.cmd]
            && s.received + s.pending == st.received + st.pending + [reply])
  {
    var s := AfterCmd(st, line, reply);
    if ParseLine(line).Some? && ParseLine(line).value.Core? {
      var queue := st.pending + [reply];
      assert s.received + s.pending == st.received + [queue[0]] + queue[1..];
      assert [queue[0]] + queue[1..] == queue;
    }
  }

  /** Only `continue` clears the flag; after it the flag is set again exactly
      when the response taken is a `HitBreakpoint`. No command sets the flag
      except through that response. */
  lemma OnlyContinueUnpauses(st: SessionState, line: string, reply: DebugResp)
    ensures var s := AfterCmd(st, line, reply);
      && (st.paused && !s.paused ==> ParseLine(line) == Some(Core(Continue)))
      && (ParseLine(line) == Some(Core(Continue)) ==>
            (s.paused <==> (st.pending + [reply])[0].HitBreakpoint?))
      && (!st.paused && s.paused ==> (st.pending + [reply])[0].HitBreakpoint?)
  {
  }

  /** A keyword without arguments, typed alone, parses to its command. */
  lemma KeywordLine(k: string)
    requires k in ZeroArgCommands
    ensures ParseLine(k) == Some(ZeroArgCommands[k])
  {
    ZeroArgKeywordsAreWords();
    Words.SplitJoin([k]);
    assert Words.Join([k]) == k;
    ParseZeroArg(k, []);
    assert [k] + [] == [k];
  }

  /** `help` sends nothing and changes nothing. */
  lemma HelpIsQuiet(st: SessionState, reply: DebugResp)
    ensures AfterCmd(st, "help", reply) == st
  {
    KeywordLine("help");
  }

  /** An empty or all-whitespace line sends nothing and changes nothing. */
  lemma BlankIsQuiet(st: SessionState, line: string, reply: DebugResp)
    requires forall i :: 0 <= i < |line| ==> Words.IsSpace(line[i])
    ensures AfterCmd(st, line, reply) == st
  {
    Words.SplitBlank(line);
    ParseRejectsUnknown([]);
  }

  /** A line whose first word is not a keyword sends nothing and changes nothing. */
  lemma UnknownIsQuiet(st: SessionState, line: string, reply: DebugResp)
    requires var ws := Words.Split(line);
      |ws| > 0 && ws[0] !in ZeroArgCommands && ws[0] !in DisassembleModes && ws[0] !in ArgCommands
    ensures AfterCmd(st, line, reply) == st
  {
    ParseRejectsUnknown(Words.Split(line));
  }

  /** At the prompt the queue has just been drained, so the response a
      command takes is its own reply and nothing stays queued. */
  lemma PromptTakesOwnReply(st: SessionState, l: string, reply: DebugResp)
    requires l != ""
    requires ParseLine(l).Some? && ParseLine(l).value.Core?
    ensures var s := AfterPrompt(st, Line(l), reply).0;
      && s.pending == []
      && s.received == st.received + st.pending + [reply]
      && s.sent == st.sent + [ParseLine(l).value.cmd]
  {
  }

  /** After a non-empty line the remembered line is that line when the CPU is
      still paused and nothing when it is not. */
  lemma PromptRemembers(st: SessionState, l: string, reply: DebugResp)
    requires !st.exited && l != "" && ParseLine(l) != Some(UiExit)
    ensures var (s, leave) := AfterPrompt(st, Line(l), reply);
      && !leave
      && s.lastCmd == (if s.paused then Some(l) else None)
  {
  }

  /** Pressing enter on an empty line is typing the remembered line again,
      except that the memory is kept even if the repeated command resumes the
      CPU; with nothing remembered it only drains the queue. */
  lemma EnterRepeats(st: SessionState, reply: DebugResp)
    ensures st.lastCmd.None? ==> AfterPrompt(st, Line(""), reply) == (Drained(st), false)
    ensures st.lastCmd.Some? ==>
      var again := AfterPrompt(st, Line(st.lastCmd.value), reply).0;
      AfterPrompt(st, Line(""), reply) == (again.(lastCmd := st.lastCmd), false)
  {
  }

  /** A line of spaces is not empty: it sends nothing but replaces the
      remembered line, so the empty line after it repeats nothing. */
  lemma BlankLineForgets(st: SessionState, w: string, reply1: DebugResp, reply2: DebugResp)
    requires st.paused && !st.exited
    requires w != "" && forall i :: 0 <= i < |w| ==> Words.IsSpace(w[i])
    ensures var s := AfterPrompt(st, Line(w), reply1).0;
      && s == Drained(st).(lastCmd := Some(w))
      && AfterPrompt(s, Line(""), reply2).0 == s
  {
    PausedAfterIff(st.paused, st.pending);
    BlankIsQuiet(Drained(st), w, reply1);
    BlankIsQuiet(Drained(st).(lastCmd := Some(w)), w, reply2);
  }

  /** End of input resumes the CPU and leaves the prompt loop: `Continue` is
      sent, and the CPU stays paused only if the reply is a `HitBreakpoint`. */
  lemma EofContinues(st: SessionState, reply: DebugResp)
    ensures var (s, leave) := AfterPrompt(st, Eof, reply);
      && leave
      && s.sent == st.sent + [Continue]
      && (s.paused <==> reply.HitBreakpoint?)
      && s.received == st.received + st.pending + [reply]
  {
    KeywordLine("continue");
  }

  /** Typing `c` or `continue` with a reply that is not a breakpoint hit
      resumes the CPU and forgets the remembered line. */
  lemma ContinueForgets(st: SessionState, k: string, reply: DebugResp)
    requires k == "c" || k == "continue"
    requires !st.exited && !reply.HitBreakpoint?
    ensures var (s, leave) := AfterPrompt(st, Line(k), reply);
      && !leave && !s.paused && s.lastCmd == None
      && s.sent == st.sent + [Continue]
  {
    KeywordLine(k);
  }

  /** Ctrl-C or an editor error at the prompt only leaves the prompt loop:
      the CPU stays paused, so the outer loop, after its own drain, comes
      straight back to the prompt. */
  lemma LeavingKeepsPaused(st: SessionState, input: Input, reply: DebugResp)
    requires st.paused
    requires input.Interrupted? || input.Failed?
    ensures var (s, leave) := AfterPrompt(st, input, reply);
      && leave && s.paused && s == Drained(st)
      && s.sent == st.sent && s.lastCmd == st.lastCmd
  {
    PausedAfterIff(st.paused, st.pending);
  }

  /** Every step keeps the remembered line non-empty. The console never
      remembers the empty line, so an empty line always repeats a real
      command or nothing, never itself: the remembered line is always one
      that was typed as a non-empty line (src/lib.rs:278-283). */
  lemma StepsKeepValid(st: SessionState, input: Input, reply: DebugResp, line: string)
    requires Valid(st)
    ensures Valid(AfterPrompt(st, input, reply).0)
    ensures Valid(AfterCmd(st, line, reply))
    ensures Valid(Drained(st)) && Valid(AfterInterrupt(st))
  {
  }

  /** The console's side of a session. The fields are the state the source
      keeps in the shared flag, the local `last_cmd` and the two channels. */
  class Session {
    var paused: bool
    var lastCmd: Option<string>
    var sent: seq<DebugCmd>
    var pending: seq<DebugResp>
    var received: seq<DebugResp>
    var exited: bool

    function State(): SessionState
      reads this
    {
      SessionState(paused, lastCmd, sent, pending, received, exited)
    }

    /** The start of `start`: paused, nothing remembered, nothing exchanged. */
    constructor ()
      ensures State() == Initial()
    {
      paused := PauseAtStart;
      lastCmd := None;
      sent := [];
      pending := [];
      received := [];
      exited := false;
    }

    /** `handle_debug_resp`: a `HitBreakpoint` sets the flag, a `Memory`
        response prints its dump, and nothing else touches the state. */
    method HandleResp(resp: DebugResp) returns (rows: seq<DumpRow>)
      modifies this`paused
      ensures paused == AfterResp(old(paused), resp)
      ensures resp.Memory? ==> IsDump(resp.start, resp.data, rows)
      ensures !resp.Memory? ==> rows == []
    {
      rows := [];
      match resp {
        case Memory(start, data) =>
          rows := DumpMemory(start, data);
        case HitBreakpoint =>
          paused := true;
        case _ =>
      }
    }

    /** `drain_rx`: take and handle responses until the queue is empty. */
    method DrainRx()
      modifies this`paused, this`pending, this`received
      ensures State() == Drained(old(State()))
    {
      ghost var queue := pending;
      ghost var flag := paused;
      while pending != []
        invariant |pending| <= |queue|
        invariant pending == queue[|queue| - |pending|..]
        invariant received == old(received) + queue[..|queue| - |pending|]
        invariant paused == PausedAfter(flag, queue[..|queue| - |pending|])
        decreases |pending|
      {
        ghost var done := queue[..|queue| - |pending|];
        var resp := pending[0];
        pending := pending[1..];
        received := received + [resp];
        var _ := HandleResp(resp);
        assert queue[..|queue| - |pending|] == done + [resp];
      }
      assert queue[..|queue|] == queue;
    }

    /** `handle_cmd` with the command language of the parser. */
    method HandleCmd(line: string, reply: DebugResp)
      modifies this
      ensures State() == AfterCmd(old(State()), line, reply)
    {
      var waitResponse := false;
      match ParseLine(line) {
        case Some(UiExit) =>
          exited := true;
        case Some(Core(c)) =>
          if c.Continue? {
            paused := false;
          }
          sent := sent + [c];
          pending := pending + [reply];
          waitResponse := true;
        case _ =>
      }
      if waitResponse {
        var resp := pending[0];
        pending := pending[1..];
        received := received + [resp];
        var _ := HandleResp(resp);
      }
    }

    /** One round of the prompt loop, which runs only while the CPU is paused. */
    method PromptStep(input: Input, reply: DebugResp) returns (leave: bool)
      requires paused && !exited
      modifies this
      ensures (State(), leave) == AfterPrompt(old(State()), input, reply)
    {
      DrainRx();
      leave := false;
      match input {
        case Line(l) =>
          if l != "" {
            HandleCmd(l, reply);
            if !exited {
              if paused {
                lastCmd := Some(l);
              } else {
                lastCmd := None;
              }
            }
          } else if lastCmd.Some? {
            HandleCmd(lastCmd.value, reply);
          }
        case Interrupted =>
          leave := true;
        case Eof =>
          HandleCmd("continue", reply);
          leave := true;
        case Failed =>
          leave := true;
      }
    }

    /** The outer loop's poll while the CPU runs: drain the queue. */
    method Poll()
      requires !exited
      modifies this
      ensures State() == Drained(old(State()))
    {
      DrainRx();
    }

    /** The Ctrl-C handler, taken as one atomic step. */
    method Interrupt()
      requires !exited
      modifies this`paused, this`sent
      ensures State() == AfterInterrupt(old(State()))
    {
      paused := true;
      sent := sent + [Pause];
      sent := sent + [GetState];
    }

    /** The core puts a response on the channel. */
    method Deliver(r: DebugResp)
      modifies this`pending
      ensures State() == old(State()).(pending := old(pending) + [r])
    {
      pending := pending + [r];
    }
  }
}
