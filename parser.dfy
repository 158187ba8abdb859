/** The command grammar: `parse_cmd` turns the whitespace-separated tokens of
    one console line into a command for the emulator core, a console-only
    action (`help`, `exit`), or nothing. Keywords are matched exactly and
    case-sensitively; numeric arguments use `ParseNumber`. */
module Parser {
  import opened Common
  import opened Numbers
  import opened Protocol
  import Words

  /** A parsed line: a command for the core, or one of the two console-only actions. */
  datatype Cmd = Core(cmd: DebugCmd) | UiHelp | UiExit

  /** The message every breakpoint set from the console carries. */
  const BreakMessage: string := "Cpu paused at breakpoint"

  /** The length of a memory dump when none (or a malformed one) is given. */
  const DefaultLength: U32 := 16

  /** How far past `start` a disassembly reaches when no end is given. */
  const DefaultSpan: nat := 0x20

  /** The keywords that take no argument, and what each one yields. */
  const ZeroArgCommands: map<string, Cmd> := map[
    "help" := UiHelp, "exit" := UiExit,
    "n" := Core(StepOver), "next" := Core(StepOver),
    "s" := Core(Step), "step" := Core(Step),
    "registers" := Core(GetRegisters),
    "." := Core(GetState), "state" := Core(GetState),
    "c" := Core(Continue), "continue" := Core(Continue)]

  /** The disassembly keywords and the addressing mode each one selects. */
  const DisassembleModes: map<string, Option<bool>> :=
    map["dis16" := Some(false), "dis24" := Some(true), "dis" := None, "disassemble" := None]

  /** The keywords that take arguments. */
  const ArgCommands: set<string> := {"info", "delete", "break", "mem", "memory"}

  /** The token at position `i`, or the empty token once the line has run out. */
  function Arg(tokens: seq<string>, i: nat): string
  {
    if i < |tokens| then tokens[i] else ""
  }

  /** The commands the grammar can produce: never `Pause` (only the interrupt
      sends it), and triggers only of the one form `break` builds. */
  predicate Parseable(c: Cmd)
  {
    match c
    case UiHelp => true
    case UiExit => true
    case Core(d) =>
      match d
      case Pause => false
      case AddTrigger(t) => t == Trigger(t.address, BreakMessage, false, [])
      case _ => true
  }

  /** The arms of `parse_cmd`'s match on the first token; the alternatives of
      one arm (`"n" | "next"`) share a keyword, and the disassembly arm
      carries the addressing mode its keyword selects. */
  datatype Keyword =
    | HelpKw | InfoKw | DeleteKw | BreakKw | ExitKw | NextKw | StepKw
    | RegistersKw | MemoryKw | StateKw | DisassembleKw(adl: Option<bool>) | ContinueKw

  function KeywordOf(tok: string): Option<Keyword>
  {
    match tok
    case "help" => Some(HelpKw)
    case "info" => Some(InfoKw)
    case "delete" => Some(DeleteKw)
    case "break" => Some(BreakKw)
    case "exit" => Some(ExitKw)
    case "n" => Some(NextKw)
    case "next" => Some(NextKw)
    case "s" => Some(StepKw)
    case "step" => Some(StepKw)
    case "registers" => Some(RegistersKw)
    case "mem" => Some(MemoryKw)
    case "memory" => Some(MemoryKw)
    case "." => Some(StateKw)
    case "state" => Some(StateKw)
    case "dis16" => Some(DisassembleKw(Some(false)))
    case "dis24" => Some(DisassembleKw(Some(true)))
    case "dis" => Some(DisassembleKw(None))
    case "disassemble" => Some(DisassembleKw(None))
    case "c" => Some(ContinueKw)
    case "continue" => Some(ContinueKw)
    case _ => None
  }

  /** `parse_cmd`: the first token picks the arm, and the arm reads at most
      the next two tokens. */
  function ParseCmd(tokens: seq<string>): (r: Option<Cmd>)
    ensures r.Some? ==> |tokens| > 0 && KeywordOf(tokens[0]).Some?
    ensures r.Some? ==> Parseable(r.value)
  {
    if tokens == [] then None
    else match KeywordOf(tokens[0])
      case None => None
      case Some(kw) => ParseArm(kw, Arg(tokens, 1), Arg(tokens, 2))
  }

  /** One arm of `parse_cmd`, given the two tokens after the keyword (empty
      where the line has run out). */
  function ParseArm(kw: Keyword, arg1: string, arg2: string): (r: Option<Cmd>)
    ensures r.Some? ==> Parseable(r.value)
  {
    match kw
      case HelpKw => Some(UiHelp)
      case InfoKw =>
        if arg1 == "breakpoints" then Some(Core(ListTriggers)) else None
      case DeleteKw =>
        (match ParseNumber(arg1)
         case Some(addr) => Some(Core(DeleteTrigger(addr)))
         case None => None)
      case BreakKw =>
        (match ParseNumber(arg1)
         case Some(addr) => Some(Core(AddTrigger(Trigger(addr, BreakMessage, false, []))))
         case None => None)
      case ExitKw => Some(UiExit)
      case NextKw => Some(Core(StepOver))
      case StepKw => Some(Core(Step))
      case RegistersKw => Some(Core(GetRegisters))
      case MemoryKw =>
        (match ParseNumber(arg1)
         case Some(start) =>
           var len := match ParseNumber(arg2) case Some(l) => l case None => DefaultLength;
           Some(Core(GetMemory(start, len)))
         case None => None)
      case StateKw => Some(Core(GetState))
      case DisassembleKw(adl) =>
        (match ParseNumber(arg1)
         case Some(start) =>
           var end := match ParseNumber(arg2) case Some(e) => e case None => Wrap32(start + DefaultSpan);
           Some(Core(Disassemble(adl, start, end)))
         case None => Some(Core(DisassemblePc(adl))))
      case ContinueKw => Some(Core(Continue))
  }

  /** A whole console line: split at whitespace, then parsed. */
  function ParseLine(line: string): Option<Cmd>
  {
    ParseCmd(Words.Split(line))
  }

  /** The keyword that selects an addressing mode for a disassembly. */
  function ModeKeyword(adl: Option<bool>): (k: string)
    ensures k in DisassembleModes && DisassembleModes[k] == adl
  {
    match adl
    case Some(false) => "dis16"
    case Some(true) => "dis24"
    case None => "disassemble"
  }

  /** A hexadecimal argument as an operator would type it. */
  function HexArg(n: U32): string
  {
    "&" + Hex(n)
  }

  /** A canonical token list for a command the grammar can produce. */
  function Render(c: Cmd): seq<string>
    requires Parseable(c)
  {
    match c
    case UiHelp => ["help"]
    case UiExit => ["exit"]
    case Core(d) =>
      match d
      case Continue => ["continue"]
      case Step => ["step"]
      case StepOver => ["next"]
      case AddTrigger(t) => ["break", HexArg(t.address)]
      case DeleteTrigger(a) => ["delete", HexArg(a)]
      case ListTriggers => ["info", "breakpoints"]
      case GetRegisters => ["registers"]
      case GetState => ["state"]
      case GetMemory(s, l) => ["memory", HexArg(s), HexArg(l)]
      case Disassemble(adl, s, e) => [ModeKeyword(adl), HexArg(s), HexArg(e)]
      case DisassemblePc(adl) => [ModeKeyword(adl)]
  }

  lemma HexArgParses(n: U32)
    ensures ParseNumber(HexArg(n)) == Some(n)
  {
    PrefixedHexRoundTrip(n, false);
  }

  /** Every command the grammar can produce is produced from its rendering:
      together with `ParseCmd`'s own contract, the grammar's image is exactly
      the `Parseable` commands. */
  lemma ParseRender(c: Cmd)
    requires Parseable(c)
    ensures ParseCmd(Render(c)) == Some(c)
  {
    match c
    case UiHelp => ParseZeroArg("help", []);
    case UiExit => ParseZeroArg("exit", []);
    case Core(d) =>
      match d
      case Continue => ParseZeroArg("continue", []);
      case Step => ParseZeroArg("step", []);
      case StepOver => ParseZeroArg("next", []);
      case AddTrigger(t) => ParseRenderBreak(t);
      case DeleteTrigger(a) => ParseRenderDelete(a);
      case ListTriggers => ParseInfo(["breakpoints"]);
      case GetRegisters => ParseZeroArg("registers", []);
      case GetState => ParseZeroArg("state", []);
      case GetMemory(s, l) => ParseRenderMemory(s, l);
      case Disassemble(adl, s, e) => ParseRenderDisassemble(adl, s, e);
      case DisassemblePc(adl) => ParseDisassemble(ModeKeyword(adl), "", "", []);
  }

  lemma ParseRenderBreak(t: Trigger)
    requires t == Trigger(t.address, BreakMessage, false, [])
    ensures ParseCmd(Render(Core(AddTrigger(t)))) == Some(Core(AddTrigger(t)))
  {
    HexArgParses(t.address);
    ParseBreak(HexArg(t.address), []);
    assert ["break", HexArg(t.address)] + [] == Render(Core(AddTrigger(t)));
  }

  lemma ParseRenderDelete(a: U32)
    ensures ParseCmd(Render(Core(DeleteTrigger(a)))) == Some(Core(DeleteTrigger(a)))
  {
    HexArgParses(a);
    ParseDelete(HexArg(a), []);
  }

  lemma ParseRenderMemory(s: U32, l: U32)
    ensures ParseCmd(Render(Core(GetMemory(s, l)))) == Some(Core(GetMemory(s, l)))
  {
    HexArgParses(s);
    HexArgParses(l);
    ParseMemory("memory", HexArg(s), HexArg(l), []);
  }

  lemma ParseRenderDisassemble(adl: Option<bool>, s: U32, e: U32)
    ensures ParseCmd(Render(Core(Disassemble(adl, s, e)))) == Some(Core(Disassemble(adl, s, e)))
  {
    HexArgParses(s);
    HexArgParses(e);
    ParseDisassemble(ModeKeyword(adl), HexArg(s), HexArg(e), []);
  }

  lemma HexArgIsWord(n: U32)
    ensures Words.IsWord(HexArg(n))
  {
    var h := Hex(n);
    forall i | 0 <= i < |h| ensures !Words.IsSpace(h[i]) {
      assert DigitValue(h[i], 16).Some?;
    }
  }

  predicate AllWords(ts: seq<string>)
  {
    forall k :: 0 <= k < |ts| ==> Words.IsWord(ts[k])
  }

  /** Every token of a rendering is a word. */
  lemma RenderWords(c: Cmd)
    requires Parseable(c)
    ensures AllWords(Render(c))
  {
    if c.Core? && (c.cmd.AddTrigger? || c.cmd.DeleteTrigger? || c.cmd.GetMemory? || c.cmd.Disassemble?) {
      RenderWordsWithArgs(c.cmd);
    } else {
      RenderWordsNoArgs(c);
    }
  }

  lemma RenderWordsNoArgs(c: Cmd)
    requires Parseable(c)
    requires !(c.Core? && (c.cmd.AddTrigger? || c.cmd.DeleteTrigger? || c.cmd.GetMemory? || c.cmd.Disassemble?))
    ensures AllWords(Render(c))
  {
    var r := Render(c);
    if c.Core? && c.cmd.ListTriggers? {
      PrintableWord("info");
      PrintableWord("breakpoints");
    } else {
      assert |r| == 1;
      PrintableWord(r[0]);
    }
  }

  /** A non-empty run of printable ASCII characters other than the space is a word. */
  lemma PrintableWord(w: string)
    requires |w| > 0 && forall i :: 0 <= i < |w| ==> '!' <= w[i] <= '~'
    ensures Words.IsWord(w)
  {
  }

  lemma ZeroArgKeywordsAreWords()
    ensures forall k :: k in ZeroArgCommands ==> Words.IsWord(k)
  {
    forall k | k in ZeroArgCommands
      ensures Words.IsWord(k)
    {
      PrintableWord(k);
    }
  }

  lemma RenderWordsWithArgs(d: DebugCmd)
    requires Parseable(Core(d))
    requires d.AddTrigger? || d.DeleteTrigger? || d.GetMemory? || d.Disassemble?
    ensures AllWords(Render(Core(d)))
  {
    match d
    case AddTrigger(t) => AddressedWords("break", t.address);
    case DeleteTrigger(a) => AddressedWords("delete", a);
    case GetMemory(s, l) => RangeWords("memory", s, l);
    case Disassemble(adl, s, e) => RangeWords(ModeKeyword(adl), s, e);
  }

  lemma AddressedWords(k: string, a: U32)
    requires k == "break" || k == "delete"
    ensures AllWords([k, HexArg(a)])
  {
    assert Words.IsWord("break") && Words.IsWord("delete");
    HexArgIsWord(a);
  }

  lemma RangeWords(k: string, s: U32, e: U32)
    requires k == "memory" || k in DisassembleModes
    ensures AllWords([k, HexArg(s), HexArg(e)])
  {
    assert Words.IsWord("memory") && Words.IsWord("dis16") && Words.IsWord("dis24");
    assert Words.IsWord("dis") && Words.IsWord("disassemble");
    HexArgIsWord(s);
    HexArgIsWord(e);
  }

  /** The rendering, typed as one line with single spaces, parses back too. */
  lemma ParseLineRender(c: Cmd)
    requires Parseable(c)
    ensures ParseLine(Words.Join(Render(c))) == Some(c)
  {
    RenderWords(c);
    Words.SplitJoin(Render(c));
    ParseRender(c);
  }

  /** A keyword that takes no argument yields its command whatever follows it. */
  lemma ParseZeroArg(k: string, rest: seq<string>)
    requires k in ZeroArgCommands
    ensures ParseCmd([k] + rest) == Some(ZeroArgCommands[k])
  {
    assert ([k] + rest)[0] == k;
  }

  /** `break` with a valid address sets a plain breakpoint there; a missing or
      malformed address is rejected. */
  lemma ParseBreak(a: string, rest: seq<string>)
    ensures ParseNumber(a).Some? ==>
      ParseCmd(["break", a] + rest) == Some(Core(AddTrigger(Trigger(ParseNumber(a).value, BreakMessage, false, []))))
    ensures ParseNumber(a).None? ==> ParseCmd(["break", a] + rest) == None
    ensures ParseCmd(["break"]) == None
  {
  }

  /** `delete` with a valid address deletes the trigger there; a missing or
      malformed address is rejected. */
  lemma ParseDelete(a: string, rest: seq<string>)
    ensures ParseNumber(a).Some? ==> ParseCmd(["delete", a] + rest) == Some(Core(DeleteTrigger(ParseNumber(a).value)))
    ensures ParseNumber(a).None? ==> ParseCmd(["delete", a] + rest) == None
    ensures ParseCmd(["delete"]) == None
  {
  }

  /** `info` lists the triggers only when followed by `breakpoints`. */
  lemma ParseInfo(rest: seq<string>)
    ensures ParseCmd(["info"] + rest) == if rest != [] && rest[0] == "breakpoints" then Some(Core(ListTriggers)) else None
  {
  }

  /** `mem`/`memory`: the start is required, the length defaults to 16 when
      it is missing or malformed. */
  lemma ParseMemory(k: string, s: string, l: string, rest: seq<string>)
    requires k == "mem" || k == "memory"
    ensures ParseCmd([k]) == None
    ensures ParseNumber(s).None? ==> ParseCmd([k, s] + rest) == None
    ensures ParseNumber(s).Some? ==> ParseCmd([k, s]) == Some(Core(GetMemory(ParseNumber(s).value, 16)))
    ensures ParseNumber(s).Some? ==>
      ParseCmd([k, s, l] + rest) == Some(Core(GetMemory(ParseNumber(s).value,
        if ParseNumber(l).Some? then ParseNumber(l).value else 16)))
  {
  }

  lemma DisassembleKeyword(k: string)
    requires k in DisassembleModes
    ensures KeywordOf(k) == Some(DisassembleKw(DisassembleModes[k]))
  {
  }

  /** The disassembly keywords: the keyword fixes the addressing mode, a valid
      start gives a range whose end defaults to `start + 0x20` (modulo 2^32),
      and a missing or malformed start means "from the program counter". None
      of them is ever rejected. */
  lemma ParseDisassemble(k: string, s: string, e: string, rest: seq<string>)
    requires k in DisassembleModes
    ensures ParseCmd([k] + rest).Some?
    ensures ParseCmd([k]) == Some(Core(DisassemblePc(DisassembleModes[k])))
    ensures ParseNumber(s).None? ==> ParseCmd([k, s] + rest) == Some(Core(DisassemblePc(DisassembleModes[k])))
    ensures ParseNumber(s).Some? ==>
      var start := ParseNumber(s).value;
      && ParseCmd([k, s]) == Some(Core(Disassemble(DisassembleModes[k], start, Wrap32(start + 0x20))))
      && ParseCmd([k, s, e] + rest) == Some(Core(Disassemble(DisassembleModes[k], start,
           if ParseNumber(e).Some? then ParseNumber(e).value else Wrap32(start + 0x20))))
  {
    DisassembleKeyword(k);
    assert ([k] + rest)[0] == k && ([k, s] + rest)[0] == k && ([k, s, e] + rest)[0] == k;
  }

  /** Below the top 32 bytes of the address space the default end of a
      disassembly is exactly `start + 0x20`. */
  lemma DisassembleDefaultEnd(start: U32)
    requires start <= 0xFFFF_FFDF
    ensures ParseCmd(["disassemble", HexArg(start)]) == Some(Core(Disassemble(None, start, start + 0x20)))
  {
    DisassembleKeyword("disassemble");
    HexArgParses(start);
    assert Arg(["disassemble", HexArg(start)], 2) == "";
  }

  /** The grammar reads at most three tokens: anything after them is ignored. */
  lemma ParseIgnoresExtraTokens(tokens: seq<string>, extra: seq<string>)
    requires |tokens| >= 3
    ensures ParseCmd(tokens + extra) == ParseCmd(tokens)
  {
    var t := tokens + extra;
    assert t != [] && t[0] == tokens[0];
    assert Arg(t, 1) == Arg(tokens, 1) && Arg(t, 2) == Arg(tokens, 2);
  }

  /** The keyword classification agrees with the two keyword tables: a token
      is a keyword exactly when one of the tables lists it. */
  lemma KeywordTables(k: string)
    ensures KeywordOf(k).Some? <==> k in ZeroArgCommands || k in DisassembleModes || k in ArgCommands
  {
  }

  /** An empty line and a line whose first token is not a keyword are
      rejected, whatever follows. */
  lemma ParseRejectsUnknown(tokens: seq<string>)
    requires tokens == [] || (tokens[0] !in ZeroArgCommands && tokens[0] !in DisassembleModes && tokens[0] !in ArgCommands)
    ensures ParseCmd(tokens) == None
  {
    if tokens != [] {
      KeywordTables(tokens[0]);
    }
  }
}
