# Aria console shell: a Dafny model

This project models the behaviour of the Aria front-end shell that can be stated and proved:

- **The scripted console.** It appears in two near-identical views:
  - the "Sovereign launcher" console (`Terminal.tsx`);
  - the "essence" console (`components/Terminal.tsx`).

  Both are one parameterised engine, `Console`, with two configurations, `PrimeConsole` and `NexusConsole`. A console has three parts:
  - a scrollback history;
  - an input buffer;
  - a busy flag.

  Submitting the input does the following:
  - It is ignored while the console is busy.
  - Otherwise the input is trimmed and lower-cased. Blank input does nothing.
  - `clear` wipes the history without echoing.
  - An immediate command appends an echo of the raw input after the prompt, then its reply lines.
  - A pipeline trigger raises the busy flag, appends a preamble at once, and then appends one scripted step per elapsed delay.

  The asynchronous loop of the source (`await` on a timer, then `addLines`) is modelled as a queue of pending step lines. The `Tick` transition drains that queue, one line per elapsed delay.
- **The render cascade.** Each view colours a history line by a priority-ordered `startsWith`/`includes` cascade (`LineStyle`). The two views use different orders.
- **The metrics update** of the application shell (`Metrics`, for `App.tsx`):
  - the uptime decomposition into hours, minutes and seconds, with JavaScript's truncating `%`;
  - the `"Xh Ym Zs"` text;
  - the clamped random walk of cpu and ram.
- **The boot screen** (`Boot`, for `components/BootScreen.tsx`): a 500 ms timer that reveals seven lines one per tick and advances the progress bar. The tick after the last line stops the timer and schedules completion.

Supporting modules:
- `Text` models JavaScript's `trim`, `toLowerCase`, `startsWith` and `includes` on strings.
- `Decimal` models integer-to-text conversion and reading it back.
- `Wrappers` provides `Option`.

## Model

| member | source | states |
|---|---|---|
| Text.TrimStart | Terminal.tsx:66 | the result is a suffix of the input; every dropped character is JavaScript whitespace; the result does not start with whitespace |
| Text.TrimEnd | Terminal.tsx:66 | the result is a prefix of the input; every dropped character is whitespace; the result does not end with whitespace |
| Text.TrimEmptyIffBlank | Terminal.tsx:66-67 | trimming leaves nothing exactly when the input is all whitespace, so `!cmd` rejects precisely the blank lines |
| Text.Trim | Terminal.tsx:66 | `trim()` is no longer than its input and neither starts nor ends with whitespace; its partner `Text.TrimIsSlice` shows it is a slice of the input with only whitespace cut off |
| Text.TrimIsSlice | Terminal.tsx:66 | the trimmed text is a contiguous slice `s[i..j]` of the input, and everything before `i` and after `j` is whitespace |
| Text.TrimPadded | Terminal.tsx:66 | a word that neither starts nor ends with whitespace is recovered from any whitespace padding around it |
| Text.ToLowerChar | Terminal.tsx:66 | the result is never a capital; a capital becomes a small letter of the same range (its code point plus 32); any other character is kept; whitespace is neither created nor removed |
| Text.ToLower | Terminal.tsx:66 | length is kept and each character is lowered on its own |
| Text.ToLowerIdempotent | Terminal.tsx:66 | lowering twice is lowering once |
| Text.ToLowerNoUpper | Terminal.tsx:66 | a string without capitals is unchanged |
| Text.StartsWith | Terminal.tsx:111 | `startsWith(p)` holds exactly when the text is `p` followed by the rest of the text |
| Text.StartsWithConcat | Terminal.tsx:111 | any text starts with each of its prefixes |
| Text.Includes | Terminal.tsx:107-109 | `includes` holds exactly when the needle occurs at some position |
| Text.IncludesInContext | Terminal.tsx:107 | a needle occurs in any text built around it |
| Console.Normalize | Terminal.tsx:66-67 | the command token is empty exactly when the raw input is blank |
| Console.PlainWordIsToken | Terminal.tsx:66 | a non-empty word with no whitespace and no capitals is its own normal form |
| Console.Init | Terminal.tsx:6-15 | the console mounts with the banner as its history, an empty input, idle, and the busy invariant holds |
| Console.AddLines | Terminal.tsx:24-26 | the history grows by exactly the given lines, appended at the end; nothing else changes |
| Console.Dispatch | Terminal.tsx:69-85 | the token resolves to nothing exactly when it is empty, and to the pipeline exactly when it is a trigger; a reply never comes from a trigger or from `clear` |
| Console.Resolve | Terminal.tsx:66-67 | a raw input asks for nothing exactly when it is blank |
| Console.Submit | Terminal.tsx:62-88 | a submission while busy changes nothing; `clear` empties history and input; every other command keeps the old history as a prefix; the input is kept or emptied; the busy invariant is preserved |
| Console.Tick | Terminal.tsx:55-59 | one delay appends at most one line; the input is untouched; the busy invariant is preserved; an idle console does not change |
| Console.Edit | Terminal.tsx:118-123 | typing sets the input to the typed text when the form is shown, cannot change it while the form is hidden (busy), and changes nothing else |
| Console.RunPreservesValid | Terminal.tsx:29 | after any sequence of typing, submissions and delays, the busy flag is up exactly while steps are queued |
| Console.ReachableValid | Terminal.tsx:15 | every console reachable from mount satisfies the busy invariant |
| Console.HistoryOnlyGrows | Terminal.tsx:24-26 | unless `clear` is submitted, the history only ever gains lines at the end |
| Console.BusyRejects | Terminal.tsx:64 | a submission while busy is rejected, not queued: the state is unchanged |
| Console.BlankIsNoOp | Terminal.tsx:66-67 | a blank submission changes nothing, and the input is not cleared |
| Console.EchoThenReply | Terminal.tsx:86-87 | an immediate command appends the prompt plus the raw, untrimmed input, then its reply, and empties the input |
| Console.ReplyNotEmpty | Terminal.tsx:75-85 | in a well-formed console every immediate reply has at least one line |
| Console.KnownReply | Terminal.tsx:76-80 | a registered token appends the echo and then its registered lines |
| Console.UnknownReplyLine | Terminal.tsx:83-84 | any other token appends the echo and then exactly one unknown-command line |
| Console.ClearWipes | Terminal.tsx:81-82 | `clear` empties history and input, without an echo |
| Console.NormalizePadded | Terminal.tsx:66 | a word padded with whitespace normalises to its lower-case form |
| Console.ClearAnyCasing | Terminal.tsx:81-82 | `clear` in any casing and with any surrounding whitespace wipes the history |
| Console.LaunchStarts | Terminal.tsx:28-35 | a trigger appends the preamble at once, queues every step in order, empties the input and raises the busy flag |
| Console.TicksDrain | Terminal.tsx:55-58 | `k` delays append the first `k` queued lines in order; the console stays busy while lines remain |
| Console.LaunchProgress | Terminal.tsx:28-59 | after `k` delays the history is the old history, the preamble and the first `k` steps; busy until the last |
| Console.LaunchCompletes | Terminal.tsx:28-60 | a whole run appends exactly preamble and steps and ends idle, and later delays add nothing |
| Console.LaunchExcludesCommands | Terminal.tsx:64 | every submission during a run is rejected |
| LineStyle.HoldsOneNeedle | Terminal.tsx:109 | a one-needle test is `includes` |
| LineStyle.HoldsTwoNeedles | Terminal.tsx:107 | a two-needle test is the disjunction of two `includes` |
| LineStyle.Classify | Terminal.tsx:105-115 | a line gets the style of the first rule that holds, or plain when none holds |
| LineStyle.EarlierRuleWins | Terminal.tsx:107-115 | once some rule holds, the style comes from a rule at or before it |
| LineStyle.FirstIndex | Terminal.tsx:107-115 | when a rule holds, a first holding rule exists at or before it |
| PrimeConsole.PrimeWellFormed | Terminal.tsx:69-85 | the launcher's tokens `nexus-launch`, `help`, `status` and `clear` do not overlap, and each reply is non-empty |
| PrimeConsole.PrimeHelp | Terminal.tsx:77-78 | `help` appends the echo, then three lines |
| PrimeConsole.PrimeStatus | Terminal.tsx:79-80 | `status` appends the echo, then three lines |
| PrimeConsole.PrimeUnknownDispatch | Terminal.tsx:83-84 | every other non-empty token gets the single fixed line `Comando no reconocido.` |
| PrimeConsole.PrimeUnknownResolve | Terminal.tsx:66-84 | a non-blank input whose token is none of the four known ones resolves to the fixed unknown-command line |
| PrimeConsole.PrimeUnknown | Terminal.tsx:83-87 | an unknown command appends the raw echo, then that fixed line |
| PrimeConsole.PrimeLaunchStarts | Terminal.tsx:29-35 | `nexus-launch` appends four lines at once; the first is the fixed echo, not the typed text |
| PrimeConsole.PrimeLaunchBusy | Terminal.tsx:29-59 | the console is busy through the first fifteen delays |
| PrimeConsole.PrimeLaunchCompletes | Terminal.tsx:28-60 | after fifteen delays exactly nineteen lines have been appended, in declaration order, and the console is idle |
| PrimeConsole.PrimeLaunchAnyCasing | Terminal.tsx:66-71 | the launch token in any casing and with any padding starts the launch |
| PrimeConsole.PrimeCascade | Terminal.tsx:107-115 | the launcher's rule table gives the same style as its conditional cascade: success words, then `PASOS`, then the prompt |
| PrimeConsole.PromptWithSuccessWordIsSuccess | Terminal.tsx:107-111 | a prompt line that mentions `ÉXITO` is shown as success, not as a prompt |
| PrimeConsole.CompletionLineIsSuccess | Terminal.tsx:44-107 | the launch's completion line is shown as success |
| NexusConsole.NexusWellFormed | components/Terminal.tsx:49-70 | the essence console's tokens do not overlap, and each reply is non-empty |
| NexusConsole.NexusHelp | components/Terminal.tsx:58-60 | `help` appends the echo, then five lines |
| NexusConsole.NexusStatus | components/Terminal.tsx:65-67 | `status` appends the echo, then four lines |
| NexusConsole.NexusUnknownDispatch | components/Terminal.tsx:68-69 | every other non-empty token is named in the reply `Desconozco la instrucción: <token>` |
| NexusConsole.NexusUnknownResolve | components/Terminal.tsx:46-69 | a non-blank input whose token is none of the five known ones resolves to a reply naming that token |
| NexusConsole.NexusUnknown | components/Terminal.tsx:68-73 | an unknown command echoes the raw input but names the trimmed, lower-cased token |
| NexusConsole.NexusTriggersAgree | components/Terminal.tsx:49-52 | `aria-sync` and `nexus-build`, in any casing, lead to the same console state |
| NexusConsole.NexusSyncStarts | components/Terminal.tsx:25-49 | either trigger appends three lines at once, the first always being the `aria-sync` echo |
| NexusConsole.NexusSyncBusy | components/Terminal.tsx:25-39 | the console is busy through the first four delays |
| NexusConsole.NexusSyncCompletes | components/Terminal.tsx:24-40 | after four delays exactly seven lines have been appended, in order, and the console is idle |
| NexusConsole.NexusCascade | components/Terminal.tsx:94-105 | the rule table gives the same style as the view's cascade: prompt, then `EXITOSA`, then `>` |
| NexusConsole.PromptBeatsSuccessWord | components/Terminal.tsx:96-99 | a prompt line that mentions `EXITOSA` stays a prompt line |
| NexusConsole.SyncEchoStyle | components/Terminal.tsx:26-96 | the pipeline's echo line is shown as a prompt line |
| NexusConsole.SyncBannerStyle | components/Terminal.tsx:31-98 | the pipeline's success line is shown as success |
| Decimal.NatToString | App.tsx:56 | decimal digits only, never empty, no leading zero, starting with `0` only for zero, one digit exactly below ten |
| Decimal.NatToStringValue | App.tsx:56 | the digits denote the number |
| Decimal.IntToString | App.tsx:56 | the text is the canonical numeral `${n}` prints: non-empty, `-` in front exactly for negative integers, otherwise digits, no leading zero and never `-0`; its partner `Decimal.ParseIntToString` reads it back and `Decimal.ParseIntCanonical` shows no other text reads as the same integer |
| Decimal.ParseIntToString | App.tsx:56 | an integer's decimal text reads back as the same integer |
| Decimal.CanonicalDigitsPrint | App.tsx:56 | a digit string without a leading zero (other than "0" itself) is exactly the numeral printed for its value |
| Decimal.ParseIntCanonical | App.tsx:56 | the parser accepts only canonical numerals: any text that reads as `i` is `IntToString(i)` |
| Decimal.IntToStringInjective | App.tsx:56 | distinct integers print differently |
| Metrics.JsRem | App.tsx:49-50 | `%` differs from the dividend by a multiple of the divisor, lies in `[0, b)` for a non-negative dividend and in `(-b, 0]` for a negative one, which pins down JavaScript's truncating remainder |
| Metrics.FloorDiv | App.tsx:48-50 | `Math.floor(a / b)` is the quotient `q` with `q*b <= a < q*b + b` |
| Metrics.Decompose | App.tsx:47-50 | for elapsed time of at least zero, minutes and seconds are below 60 and the hour count is the whole hours elapsed; negative elapsed time gives non-positive fields |
| Metrics.DecomposeRecomposes | App.tsx:48-50 | hours, minutes and seconds recompose to within one second below the elapsed time |
| Metrics.DecomposeOfWindow | App.tsx:48-50 | every in-range reading is produced by the milliseconds of its one-second window (the inverse) |
| Metrics.DecomposeMonotone | App.tsx:47-50 | more elapsed time never gives a lexicographically smaller reading |
| Metrics.SplitAt | App.tsx:56 | a split at the first separator rebuilds the text; this is a helper of the parser that reads the uptime text back, not something the source does |
| Metrics.FormatUptime | App.tsx:56 | the `Xh Ym Zs` text is unambiguous: it reads back as exactly the reading printed; with `Metrics.ParseUptimeExact` it is the only text that does |
| Metrics.ParseUptimeOfParts | App.tsx:56 | three numerals, each followed by its unit letter `h`, `m`, `s`, read back as the three numbers |
| Metrics.ParseUptimeExact | App.tsx:56 | any text that reads back as a reading is exactly the text printed for it, so the canonical `0h 5m 7s` is pinned and `00h 05m 07s` is excluded |
| Metrics.InitialUptimeHasOtherShape | App.tsx:33-56 | the initial uptime text `0h 0m` is not of the shape an update writes |
| Metrics.Clamp | App.tsx:54-55 | `Math.min(hi, Math.max(lo, x))` lies in the bounds, and is `x` when `x` already does |
| Metrics.Update | App.tsx:52-57 | after any draw, cpu lies in [2, 90] and ram in [20, 80]; disk is carried over; the uptime text reads back as the decomposed elapsed time |
| Metrics.UpdateStepIsSmall | App.tsx:54-55 | with draws in [0, 1), a reading already in bounds moves at most 2 down and less than 2 up (cpu), and at most 0.75 down and less than 0.75 up (ram) |
| Boot.Percent | components/BootScreen.tsx:25 | the bar's width `pct` satisfies `pct * n == 100 * k` for `k` of `n` lines, and lies in [0, 100] while `k <= n` |
| Boot.Tick | components/BootScreen.tsx:22-31 | a stopped timer does nothing; the timer stops exactly once the list is exhausted; logs only grow, one line at most; the screen stays consistent |
| Boot.TicksReveal | components/BootScreen.tsx:23-26 | after `k` ticks, for `k` up to the list length, the logs are the first `k` lines in order, and the step counter never passes the length |
| Boot.DoneIsFinal | components/BootScreen.tsx:28 | once the timer is cleared, no later tick changes anything |
| Boot.DoneIffExhausted | components/BootScreen.tsx:23-30 | completion is signalled after tick `k` exactly when `k` exceeds the number of lines |
| Boot.ProgressGrows | components/BootScreen.tsx:25 | the bar rises strictly with every revealed line |
| Boot.FullOnlyAtEnd | components/BootScreen.tsx:25 | the bar reads 100% exactly when the last line is revealed |
| Boot.Display | components/BootScreen.tsx:50 | `slice(-1)` shows at most one line, the last, and nothing only before the first tick |
| Boot.ShowsLatest | components/BootScreen.tsx:24-50 | after tick `k` the screen shows the line that tick revealed |
| Boot.BootSequenceRuns | components/BootScreen.tsx:10-31 | the seven boot lines end with the bar at 100% and the greeting on screen, and the timer stops on the eighth tick |

## Left out

- Chat panels (`AICore.tsx`, `components/AICore.tsx`): wrappers around an external generative-text service plus wall-clock timestamps. Nothing here is visible to the model.
- `Dashboard.tsx`, `components/Settings.tsx`, `components/Sidebar.tsx`, `EvolutionCore.tsx`: markup, chart rendering and form binding, with no logic to state.
- The `localStorage` and `JSON` persistence of the configuration in `App.tsx`: browser I/O.
- Timers, for three reasons:
  - Real timers (`setTimeout`, `setInterval`, `Date.now`) become explicit events. One `Tick` is one elapsed step delay, and one `Boot.Tick` is one firing of the 500 ms interval. The elapsed milliseconds are a parameter of `Metrics.Update`.
  - The delays themselves (600 ms, 700 ms, 500 ms, 1200 ms, 2000 ms) are kept only as data.
  - The effect cleanup that clears a timer on unmount is not modelled.
- React state batching, effects, scrolling, focus and styling. The `uppercase` CSS transform of the boot line is also left out.
- `Math.random`: each draw is an arbitrary real parameter of `Metrics.Update`.
- Metrics.Update: cpu and ram are exact reals, not IEEE doubles. Clamping keeps the bounds either way, but rounding of the step is not modelled.
- Boot.Tick: assumes the updater `prev => [...prev, bootSequence[currentStep]]` (components/BootScreen.tsx:24) reads `currentStep` before line 26 increments it. React computes such an updater at once only when the component has no pending update; otherwise it runs it while rendering, after the increment. In that case tick `k` would append `bootSequence[k]` instead of `bootSequence[k-1]`, and the last tick would append `undefined`, so the greeting would show for one tick and the screen would end on an empty line. Which case applies depends on the React version and on how the app is mounted, and neither is part of this model.
- Boot.Tick: progress is an exact rational, not an IEEE double. For seven lines the doubles differ from the rationals in the last bits, but 100 is exact in both.
- Text.ToLowerChar: lower-cases only ASCII and Latin-1 capitals. The rest of Unicode's case mapping is not modelled, including mappings that change length. Strings are sequences of characters rather than UTF-16 code units.
- The registry: the source has no registration step; its token tables are literal `if`/`switch` code, so duplicate tokens cannot be rejected at registration. `Console.WellFormed` states that the tokens do not overlap, and it is proved for both configurations.
- Console.Submit: an empty step list would raise and drop the busy flag in the same handler. The model never raises it in that case. Both configurations have non-empty step lists.
- Banner lines carry no semantic tags. Styles exist only for rendering, through `LineStyle`.
