# Agon Light emulator debugger console — command language and session model

This project models the debugger console of the Agon Light emulator. The
operator types commands at a `>>` prompt. The console parses each command,
sends it to the emulator core over a channel and prints the core's responses.
The model covers:

- the numeric literals of the command language (`parse_number` and the
  `u32::from_str_radix` it relies on), together with the renderings `{}`,
  `{:x}` and `{:06x}` that serve as its inverse;
- the splitting of a line into words (`split_whitespace`);
- the command grammar `parse_cmd`, which maps a word list to a core command,
  to `help`/`exit`, or to nothing;
- the hex dump printed for a `Memory` response;
- the session state:
  - the pause flag, which is shared with the Ctrl-C handler;
  - the remembered line, which an empty line repeats;
  - the two channels to the core;
  - the operations that change these: `handle_cmd`, `handle_debug_resp`,
    `drain_rx`, the rounds of the prompt loop in `start`, and the Ctrl-C
    handler.

Modules, in dependency order:

- `Common` (common.dfy): `Option`, the `U8`/`U32` widths and release-build u32
  wrap-around.
- `Numbers` (numbers.dfy): `FromStrRadix`, `ParseNumber`, the digit renderings
  and their round trips.
- `Protocol` (protocol.dfy): the shapes of the commands and responses that
  cross the channel.
- `Words` (words.dfy): `Split`, `Join` and their round trip.
- `Parser` (parser.dfy): the grammar, one lemma per arm, and a renderer `Render`
  with the round trip `ParseLine(Join(Render(c))) == Some(c)`.
- `Dump` (dump.dfy): the `Memory` dump. `DumpMemory` keeps the source's loop
  over the chunks, and `GutterOf` keeps its inner loop over a chunk's bytes.
  The inner loop that prints the hex column is not a loop here: each row
  stores its slice of the data, and `HexColumn` and `RowText` give the
  printed text. `DumpMemory` is proved against the specification `IsDump`.
- `Console` (console.dfy): the session as a value `SessionState` with pure step
  functions (`AfterCmd`, `Drained`, `AfterPrompt`, `AfterInterrupt`), the
  lemmas about them, and the class `Session` whose methods update its fields.
  Each method is proved equal to its step function.

The replies of the core are parameters. A command's reply is taken to join the
response queue at the moment the command is sent, behind anything already
queued. A response that arrives on its own, such as a breakpoint hit or the
answers to an interrupt, joins the queue through `Session.Deliver`.

Where the code and the documented protocol differ, the model follows the
code. The response handler in `src/lib.rs` matches on the older response set
(`HitBreakpoint`, `Breakpoints`, `Pong`, `Disassembly`, `State`, `Registers`,
`Memory`). The only response that changes the session is `HitBreakpoint`.
Newer notification variants are therefore not modelled.

## Model

| member | source | states |
|---|---|---|
| `Common.Wrap32` | src/parser.rs:76 | u32 addition in a release build: the sum itself below 2^32, the sum minus 2^32 when it overflows once |
| `Common.Wrap32Add` | src/lib.rs:193 | adding 16 to the wrapped running address `pos` is the same as wrapping the exact sum `start + 16 * k` |
| `Numbers.FromStrRadixRejects` | src/parser.rs:95 | `from_str_radix` fails on anything other than an optional `+` followed by one or more digits of the radix, including the empty string and a lone `+` |
| `Numbers.FromStrRadixAccepts` | src/parser.rs:100 | a well-formed literal (digits of either case) yields its value when that value is at most 0xFFFFFFFF, and is an overflow error otherwise |
| `Numbers.FromStrRadixSign` | src/parser.rs:98 | one leading `+` is accepted and ignored; a second one is an error |
| `Numbers.FromStrRadixDigits` | src/parser.rs:93-101 | the rendering of any `n` reads back as `n` when it fits in 32 bits, and as an error when it does not |
| `Numbers.FromStrRadixPadded` | src/lib.rs:178 | zero padding on the left does not change the value read back |
| `Numbers.ParseNumber` | src/parser.rs:93-102 | the empty token, a bare `&`/`$` and a bare `h`/`H` are errors |
| `Numbers.PrefixedHexRoundTrip` | src/parser.rs:94-95 | `&` or `$` followed by the hex digits of `a` (either case) parses to `a` or overflows; a bare prefix is an error |
| `Numbers.SuffixedHexRoundTrip` | src/parser.rs:97-98 | hex digits followed by `h` or `H` parse to their value; a bare suffix is an error |
| `Numbers.DecimalRoundTrip` | src/parser.rs:99-100 | an unmarked token is decimal: the decimal rendering of `a` parses to `a`; the empty token is an error |
| `Numbers.ParseNumberPrefixWins` | src/lib.rs:32-41 | the prefix test comes before the suffix test, so `&…h` keeps the `h` among its digits and is rejected; the copy in src/lib.rs is the same function and is modelled once |
| `Words.SplitYieldsWords` | src/lib.rs:44 | every token of a split line is non-empty and holds no Unicode whitespace |
| `Words.SplitBlank` | src/lib.rs:140 | a line of whitespace only has no tokens |
| `Words.SplitLeadingSpace` | src/lib.rs:44 | leading whitespace does not change the tokens |
| `Words.SplitJoin` | src/parser.rs:12-13 | splitting words joined by single spaces gives back the same words |
| `Parser.ParseCmd` | src/parser.rs:12-91 | a result only when the first token is a keyword; never `Pause`; every trigger it builds is the fixed breakpoint record |
| `Parser.ParseArm` | src/parser.rs:14-87 | each arm yields only commands of the forms the grammar can produce |
| `Parser.ParseZeroArg` | src/parser.rs:44-53 | `n`/`next`, `s`/`step`, `registers` (and `help`, `exit`, `.`/`state`, `c`/`continue` at lines 15, 44, 65-66 and 83-85) yield their command whatever tokens follow |
| `Parser.ParseInfo` | src/parser.rs:16-21 | `info` yields `ListTriggers` exactly when the next token is `breakpoints`, and nothing otherwise |
| `Parser.ParseDelete` | src/parser.rs:22-29 | `delete n` yields `DeleteTrigger(n)`; a missing or malformed address yields nothing |
| `Parser.ParseBreak` | src/parser.rs:30-42 | `break n` yields `AddTrigger{address: n, msg: "Cpu paused at breakpoint", once: false, actions: []}`; a missing or malformed address yields nothing |
| `Parser.ParseMemory` | src/parser.rs:54-64 | `mem`/`memory s [l]` yields `GetMemory{s, l}`; a missing or malformed length becomes 16; a missing or malformed start yields nothing |
| `Parser.ModeKeyword` | src/parser.rs:69-73 | each addressing mode has a disassembly keyword that maps back to it |
| `Parser.DisassembleKeyword` | src/parser.rs:68 | `dis16`, `dis24`, `dis` and `disassemble` select modes `Some(false)`, `Some(true)`, `None` and `None` |
| `Parser.ParseDisassemble` | src/parser.rs:74-81 | a valid start gives `Disassemble{adl, start, end}` with `end` defaulting to `start + 0x20` (wrapped); a missing or malformed start gives `DisassemblePc{adl}`; never nothing |
| `Parser.DisassembleDefaultEnd` | src/parser.rs:76 | below 0xFFFFFFE0 the default end is exactly `start + 0x20` |
| `Parser.ParseIgnoresExtraTokens` | src/parser.rs:13-87 | the grammar reads at most three tokens, so anything after them is ignored |
| `Parser.KeywordTables` | src/parser.rs:14-86 | a token is a keyword exactly when the zero-argument table, the disassembly table or the argument keywords list it |
| `Parser.ParseRejectsUnknown` | src/parser.rs:86-90 | an empty token list or an unknown first token yields nothing |
| `Parser.HexArgParses` | src/parser.rs:94 | `&` followed by the lower-case hex of a u32 parses back to it |
| `Parser.ParseRender` | src/parser.rs:12-91 | every command the grammar can produce has a token list that parses to exactly that command |
| `Parser.RenderWords` | src/parser.rs:14-85 | those token lists consist of words, so they survive joining and splitting |
| `Parser.ParseLineRender` | src/lib.rs:43-45 | typing the rendered command as one line, words separated by spaces, gives back the command |
| `Dump.GutterChar` | src/lib.rs:184-188 | a byte from 0x20 to 0x7F shows as itself; any other byte shows as a space; the gutter never holds a character below 0x20 or beyond ASCII, and DEL (0x7F) shows as itself |
| `Dump.GutterOf` | src/lib.rs:183-190 | the gutter loop builds exactly the gutter of the chunk |
| `Dump.DumpMemory` | src/lib.rs:175-194 | one row per 16-byte chunk; row `k` is labelled `start + 16 * k` (wrapped) and lists exactly chunk `k` with its gutter |
| `Dump.DumpPrefixExtend` | src/lib.rs:177-193 | appending the next chunk's row extends a correct prefix of the dump |
| `Dump.DumpShape` | src/lib.rs:177 | no rows for no data; every row holds 1 to 16 bytes and every row but the last holds exactly 16; without wrap-around row `k` is labelled `start + 16 * k` |
| `Dump.DumpCoversData` | src/lib.rs:179-181 | the rows' bytes, put together in order, are exactly the data |
| `Dump.LabelRoundTrip` | src/lib.rs:178 | a row label has at least six digits and, typed with a `&` prefix, names the row's address |
| `Dump.ByteHexRoundTrip` | src/lib.rs:180 | each byte's two hex digits read back as that byte |
| `Dump.RowTextLayout` | src/lib.rs:178-191 | a printed row is the label, `: `, the hex column with byte `i`'s two digits at offset `3 * i`, then `| ` and the gutter up to the end of the line |
| `Dump.HexColumnAt` | src/lib.rs:179-181 | the hex column takes three characters per byte: byte `i`'s digits at offset `3 * i`, then a space |
| `Console.PausedAfterIff` | src/lib.rs:196-199 | after handling a run of responses the flag is set exactly when it was set before or one of them is `HitBreakpoint` |
| `Console.PausedAfterAppend` | src/lib.rs:237-243 | handling two runs of responses one after the other is handling the joined run |
| `Console.DispatchContract` | src/lib.rs:143-146 | `handle_cmd` sends at most one command and receives exactly as many responses as it sends; it sends exactly when the line parses to a core command; no response is lost |
| `Console.OnlyContinueUnpauses` | src/lib.rs:128-132 | only `continue` clears the flag; after it the flag is set exactly when the response taken is `HitBreakpoint` |
| `Console.KeywordLine` | src/lib.rs:280 | a keyword without arguments typed alone parses to its command |
| `Console.HelpIsQuiet` | src/lib.rs:50-53 | `help` sends and changes nothing |
| `Console.BlankIsQuiet` | src/lib.rs:140 | an empty or all-whitespace line sends and changes nothing |
| `Console.UnknownIsQuiet` | src/lib.rs:134-137 | a line whose first word is not a keyword sends and changes nothing |
| `Console.PromptTakesOwnReply` | src/lib.rs:273-280 | the prompt drains the queue first; with no response arriving while the operator types, a command takes its own reply and nothing stays queued |
| `Console.PromptRemembers` | src/lib.rs:278-286 | after a non-empty line the remembered line is that line if the CPU is still paused, and nothing otherwise |
| `Console.EnterRepeats` | src/lib.rs:287-290 | an empty line has the effect of typing the remembered line again, but the memory itself is kept; with nothing remembered it only drains |
| `Console.BlankLineForgets` | src/lib.rs:278-286 | a line of spaces is not empty: it sends nothing but replaces the remembered line, so the next empty line repeats nothing |
| `Console.EofContinues` | src/lib.rs:295-298 | end of input sends `Continue` and leaves the prompt loop; the CPU stays paused only if the reply is `HitBreakpoint` |
| `Console.ContinueForgets` | src/lib.rs:128-133 | `c`/`continue` with a reply that is not a breakpoint hit resumes the CPU and clears the remembered line |
| `Console.LeavingKeepsPaused` | src/lib.rs:292-302 | Ctrl-C or an editor error at the prompt leaves the prompt loop with the CPU still paused and nothing sent |
| `Console.StepsKeepValid` | src/lib.rs:254-290 | every step keeps the remembered line non-empty, so an empty line never repeats itself |
| `Console.Session.constructor` | src/lib.rs:246-254 | a session starts paused, with nothing remembered and nothing exchanged |
| `Console.Session.HandleResp` | src/lib.rs:173-234 | `HitBreakpoint` sets the flag, and nothing else writes it; a `Memory` response prints its dump; other responses print nothing that is modelled |
| `Console.Session.DrainRx` | src/lib.rs:236-244 | handles queued responses oldest first until the queue is empty, without blocking |
| `Console.Session.HandleCmd` | src/lib.rs:43-147 | the new state is `AfterCmd`: send, then one blocking receive, only for a core command; `continue` clears the flag before sending; `exit` ends the session |
| `Console.Session.PromptStep` | src/lib.rs:273-303 | one round of the prompt loop, from the drain to the match on the editor's result |
| `Console.Session.Poll` | src/lib.rs:306-309 | the outer loop drains the queue while the CPU runs |
| `Console.Session.Interrupt` | src/lib.rs:263-268 | the Ctrl-C handler sets the flag and sends `Pause`, then `GetState` |
| `Console.Session.Deliver` | src/lib.rs:248 | a response from the core joins the back of the queue |

## Left out

- Terminal I/O: the `rustyline` editor and its history are replaced by an
  `Input` value per prompt round (`Line`, `Interrupted`, `Eof`, `Failed`).
  The empty line is `Line("")`.
- All printed text except the `Memory` dump is left out: `print_help`, the
  progress and error messages, `print_registers`, and the rendering of the
  `State`, `Registers`, `Breakpoints` and `Disassembly` responses. Register
  rendering depends on `ez80::Registers`, which is not part of this model.
  Those responses are received and recorded, and they leave the flag alone.
- Concurrency: the Ctrl-C handler runs on another thread. It is modelled as
  one atomic step, `Session.Interrupt`, that may come between any two other
  steps. The core's thread is modelled only through the replies it puts on
  the queue.
- Session.HandleCmd and Session.PromptStep are atomic: the model lets no
  interrupt in between their send and their blocking receive. In the source,
  Ctrl-C can fire while `handle_cmd` waits in `rx.recv()` (src/lib.rs:145),
  or before `in_debugger` is read at src/lib.rs:282. For example, `continue`
  gets a reply that is not a breakpoint hit, and Ctrl-C lands during the
  wait. The source then remembers `continue` with the flag set, and the next
  empty line sends `Continue` again. The model cannot reach that state, so
  `ContinueForgets` and the "nothing remembered" half of `PromptRemembers`
  hold only when no interrupt comes inside the round.
- Session.PromptStep also lets no response from the core arrive between the
  prompt's drain (src/lib.rs:274) and the command's receive
  (src/lib.rs:145), although `rl.readline` blocks in between while the
  operator types. In the source, a response can arrive there. An example is
  the `State` that answers the `GetState` sent by the Ctrl-C handler. The
  command's `rx.recv()` then takes that late response, and the command's
  own reply waits for the next drain. For example, a late `State` followed
  by `c` whose reply is `HitBreakpoint` leaves the source unpaused with
  nothing remembered until the next drain pauses it. `PromptTakesOwnReply`,
  `PromptRemembers` and `ContinueForgets` hold only under this assumption.
  `Session.Deliver` may still come between whole steps.
- Session.DrainRx, Session.HandleCmd and Session.PromptStep: the dump printed
  for a `Memory` response is stated per response, by `Session.HandleResp`.
  The session does not record the rows it has printed, so the contracts of
  these three say nothing about printed text.
- Transport failure: `tx.send(..).unwrap()` and `rx.recv().unwrap()` panic
  once the core's end of a channel is closed, and `rx.recv()` blocks forever
  when the core never answers. The model takes the reply as a parameter, so
  it assumes the core answers every command and never closes a channel.
- Timing: the 50 ms sleep of the outer loop is left out. The loop itself is
  left to the caller: `start` never returns, so the model offers its steps
  (`PromptStep` while paused, `Poll`) and not a loop that runs them.
- `std::process::exit(0)` is modelled as the terminal flag `exited`, after
  which no step may run.
- The keyword table of `handle_cmd` in src/lib.rs is not re-modelled. The
  model dispatches through `parse_cmd`. That table is an older copy of the
  grammar: it sends the older `SetBreak`/`ListBreaks`/`DeleteBreak` commands
  and has no `n`/`next`. Only its send/receive contract and its effect on
  the flag are kept.
- Numbers.FromStrRadix: the kind of a `ParseIntError` is not modelled, because
  every caller only distinguishes success from failure.
- Common.Wrap32: debug builds panic on u32 overflow, and release builds
  wrap. The model wraps, for `start + 0x20` and for `pos += 16`. In Rust,
  `unwrap_or(start + 0x20)` computes the default even when an end is given.
  A debug build therefore panics on `dis &FFFFFFF0 &FFFFFFFF`. The model
  does not capture that panic.
- Protocol.Action: the kinds of trigger action belong to the core. The
  console never builds one, so actions are kept only as opaque names.
- `IsSpace` follows Unicode's White_Space list, which is what
  `char::is_whitespace` tests. Normalisation and other Unicode details do not
  arise.
