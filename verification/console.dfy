/** The scripted console shared by both terminal views: a scrollback
    history, an input buffer and a busy flag, driven by submissions of the
    input line and by the elapsed delays of a running pipeline.

    The timed pipeline is a queue of pending step lines: starting it appends
    the preamble at once and queues the steps; each `Tick` (one elapsed step
    delay) appends the next queued line, and the console is busy exactly
    while lines are queued. */
module Console {
  import opened Text

  /** A scripted pipeline: the tokens that start it, the lines appended at
      once (the first being the echo), the step lines appended one per
      `delayMs`, in order. */
  datatype Pipeline = Pipeline(triggers: set<string>, preamble: seq<string>, steps: seq<string>, delayMs: nat)

  /** How a console words its reply to a token it does not know. */
  datatype UnknownReply =
    | Fixed(line: string)          // always the same line
    | NamingToken(prefix: string)  // the prefix followed by the normalised token

  /** One console variant: echo prompt, the banner it mounts with, the
      immediate replies by token, its pipeline and its unknown-command reply. */
  datatype Config = Config(
    prompt: string,
    banner: seq<string>,
    replies: map<string, seq<string>>,
    pipeline: Pipeline,
    unknown: UnknownReply)

  /** The observable console: `pending` holds the pipeline steps not yet
      shown. */
  datatype State = State(history: seq<string>, input: string, busy: bool, pending: seq<string>)

  /** The token that wipes the history. */
  const ClearToken := "clear"

  /** The command token of an input line: trimmed, then lower-cased. */
  function Normalize(raw: string): (cmd: string)
    ensures cmd == [] <==> AllWhitespace(raw)
  {
    TrimEmptyIffBlank(raw);
    ToLower(Trim(raw))
  }

  /** A token is non-empty and already in normal form. */
  predicate IsToken(t: string) {
    t != [] && Normalize(t) == t
  }

  /** A word without whitespace or capitals is a token. */
  lemma PlainWordIsToken(t: string)
    requires t != []
    requires forall k :: 0 <= k < |t| ==> !IsWhitespace(t[k]) && !IsUpper(t[k])
    ensures IsToken(t)
  {
    assert [] + t + [] == t;
    TrimPadded([], t, []);
    ToLowerNoUpper(t);
  }

  /** Every token resolves to exactly one command: the pipeline triggers, the
      immediate replies and `clear` are non-empty and do not overlap, and
      every immediate reply has at least one line. */
  predicate WellFormed(c: Config) {
    && ClearToken !in c.pipeline.triggers
    && ClearToken !in c.replies
    && c.pipeline.triggers !! c.replies.Keys
    && [] !in c.pipeline.triggers && [] !in c.replies
    && (forall t :: t in c.replies ==> c.replies[t] != [])
  }


  /** The busy flag is up exactly while pipeline steps are queued. */
  predicate Valid(s: State) {
    s.busy <==> s.pending != []
  }

  predicate Idle(s: State) {
    !s.busy && s.pending == []
  }

  /** The console as mounted: the banner, an empty input, not busy. */
  function Init(c: Config): (s: State)
    ensures Valid(s) && Idle(s)
    ensures s.history == c.banner && s.input == ""
  {
    State(c.banner, "", false, [])
  }

  /** `addLines`: the history grows by exactly `lines`, at the end. */
  function AddLines(s: State, lines: seq<string>): (t: State)
    ensures |t.history| == |s.history| + |lines|
    ensures t.history[..|s.history|] == s.history && t.history[|s.history|..] == lines
    ensures t.input == s.input && t.busy == s.busy && t.pending == s.pending
  {
    s.(history := s.history + lines)
  }

  /** What an input line asks for. */
  datatype Command =
    | Blank                      // nothing but whitespace
    | Wipe                       // `clear`
    | Launch                     // a pipeline trigger
    | Reply(lines: seq<string>)  // an immediate reply, known or not

  function UnknownLines(u: UnknownReply, cmd: string): (r: seq<string>)
    ensures |r| == 1
  {
    match u
    case Fixed(line) => [line]
    case NamingToken(prefix) => [prefix + cmd]
  }

  /** The registry lookup of a normalised token: pipeline triggers first,
      then `clear`, then the immediate replies, else the unknown-command
      reply. An empty token asks for nothing. */
  function Dispatch(c: Config, cmd: string): (r: Command)
    ensures r == Blank <==> cmd == []
    ensures r == Launch <==> cmd != [] && cmd in c.pipeline.triggers
    ensures r == Wipe ==> cmd == ClearToken
    ensures r.Reply? ==> cmd !in c.pipeline.triggers && cmd != ClearToken
  {
    if cmd == [] then Blank
    else if cmd in c.pipeline.triggers then Launch
    else if cmd == ClearToken then Wipe
    else if cmd in c.replies then Reply(c.replies[cmd])
    else Reply(UnknownLines(c.unknown, cmd))
  }

  /** What a raw input line asks for. */
  function Resolve(c: Config, raw: string): (r: Command)
    ensures r == Blank <==> AllWhitespace(raw)
  {
    Dispatch(c, Normalize(raw))
  }

  /** Submitting the input line (`handleCommand`): rejected while busy; only
      `clear` removes history, everything else keeps it as a prefix. */
  function Submit(c: Config, s: State): (t: State)
    ensures s.busy ==> t == s
    ensures !s.busy && Resolve(c, s.input) == Wipe ==> t.history == [] && t.input == ""
    ensures Resolve(c, s.input) != Wipe ==> s.history <= t.history
    ensures t.input == s.input || t.input == ""
    ensures Valid(s) ==> Valid(t)
  {
    if s.busy then s
    else match Resolve(c, s.input)
      case Blank => s
      case Wipe => s.(history := [], input := "")
      case Launch =>
        var p := c.pipeline;
        AddLines(s.(input := "", busy := p.steps != [], pending := p.steps), p.preamble)
      case Reply(lines) => AddLines(s.(input := ""), [c.prompt + s.input] + lines)
  }

  /** One step delay elapses: the next queued step is shown, and the busy
      flag drops with the last one. The input buffer is never touched. */
  function Tick(s: State): (t: State)
    ensures t.input == s.input
    ensures s.history <= t.history && |t.history| <= |s.history| + 1
    ensures Valid(s) ==> Valid(t)
    ensures Valid(s) && !s.busy ==> t == s
  {
    if s.pending == [] then s
    else AddLines(s.(busy := |s.pending| > 1, pending := s.pending[1..]), [s.pending[0]])
  }

  /** Typing into the input box; the box is not rendered while busy. */
  function Edit(s: State, text: string): (t: State)
    ensures t.history == s.history && t.busy == s.busy && t.pending == s.pending
    ensures s.busy ==> t.input == s.input
    ensures !s.busy ==> t.input == text
  {
    if s.busy then s else s.(input := text)
  }

  /** `n` consecutive step delays. */
  function Ticks(s: State, n: nat): State
    decreases n
  {
    if n == 0 then s else Ticks(Tick(s), n - 1)
  }

  /** Everything that can happen to a console. */
  datatype Event = Type(text: string) | Enter | Elapse

  function Step(c: Config, s: State, e: Event): State {
    match e
    case Type(text) => Edit(s, text)
    case Enter => Submit(c, s)
    case Elapse => Tick(s)
  }

  function Run(c: Config, s: State, es: seq<Event>): State
    decreases |es|
  {
    if es == [] then s else Run(c, Step(c, s, es[0]), es[1..])
  }

  /** The busy invariant holds in every state the console can reach. */
  lemma {:induction false} RunPreservesValid(c: Config, s: State, es: seq<Event>)
    requires Valid(s)
    ensures Valid(Run(c, s, es))
    decreases |es|
  {
    if es != [] {
      RunPreservesValid(c, Step(c, s, es[0]), es[1..]);
    }
  }

  lemma ReachableValid(c: Config, es: seq<Event>)
    ensures Valid(Run(c, Init(c), es))
  {
    RunPreservesValid(c, Init(c), es);
  }

  /** No event of `es` is a submission that `clear`s, replaying from `s`. */
  predicate NoClear(c: Config, s: State, es: seq<Event>)
    decreases |es|
  {
    es == [] ||
    ((es[0] == Enter ==> s.busy || Normalize(s.input) != ClearToken) && NoClear(c, Step(c, s, es[0]), es[1..]))
  }

  /** Without a `clear`, history only grows: no line is ever changed or
      removed. */
  lemma {:induction false} HistoryOnlyGrows(c: Config, s: State, es: seq<Event>)
    requires NoClear(c, s, es)
    ensures s.history <= Run(c, s, es).history
    decreases |es|
  {
    if es != [] {
      var s1 := Step(c, s, es[0]);
      if es[0] == Enter {
        assert s.busy || Resolve(c, s.input) != Wipe;
      }
      assert s.history <= s1.history;
      HistoryOnlyGrows(c, s1, es[1..]);
    }
  }

  /** A submission while a pipeline runs is rejected: nothing changes. */
  lemma BusyRejects(c: Config, s: State)
    requires s.busy
    ensures Submit(c, s) == s
  {
  }

  /** A blank or whitespace-only submission does nothing; even the input
      buffer keeps its whitespace. */
  lemma BlankIsNoOp(c: Config, s: State)
    requires AllWhitespace(s.input)
    ensures Submit(c, s) == s
  {
  }

  /** An immediate command first echoes the raw, untrimmed input after the
      prompt, then its reply lines; the old history stays as a prefix and
      the input is cleared. */
  lemma EchoThenReply(c: Config, s: State)
    requires !s.busy && Resolve(c, s.input).Reply?
    ensures Submit(c, s).history == s.history + [c.prompt + s.input] + Resolve(c, s.input).lines
    ensures Submit(c, s).input == "" && Submit(c, s).busy == s.busy
  {
  }

  /** In a well-formed console every reply has at least one line after the
      echo. */
  lemma ReplyNotEmpty(c: Config, raw: string)
    requires WellFormed(c) && Resolve(c, raw).Reply?
    ensures Resolve(c, raw).lines != []
  {
  }

  /** The reply to a known immediate token. */
  lemma KnownReply(c: Config, s: State)
    requires WellFormed(c) && !s.busy && Normalize(s.input) in c.replies
    ensures Submit(c, s).history == s.history + [c.prompt + s.input] + c.replies[Normalize(s.input)]
  {
    assert Normalize(s.input) != [];
    assert Resolve(c, s.input) == Reply(c.replies[Normalize(s.input)]);
  }

  /** The reply to a token no command knows: a single line. */
  lemma UnknownReplyLine(c: Config, s: State)
    requires !s.busy && !AllWhitespace(s.input)
    requires Normalize(s.input) !in c.pipeline.triggers && Normalize(s.input) != ClearToken
    requires Normalize(s.input) !in c.replies
    ensures Submit(c, s).history == s.history + [c.prompt + s.input] + UnknownLines(c.unknown, Normalize(s.input))
  {
  }

  /** `clear` wipes the history without echoing, and clears the input. */
  lemma ClearWipes(c: Config, s: State)
    requires WellFormed(c) && !s.busy && Normalize(s.input) == ClearToken
    ensures Submit(c, s).history == [] && Submit(c, s).input == ""
  {
  }

  /** Any casing of a word, between any whitespace, normalises to the
      word's lower-case form. */
  lemma NormalizePadded(before: string, word: string, after: string)
    requires AllWhitespace(before) && AllWhitespace(after)
    requires ToLower(word) != [] && !IsWhitespace(ToLower(word)[0]) && !IsWhitespace(ToLower(word)[|word| - 1])
    ensures Normalize(before + word + after) == ToLower(word)
  {
    ToLowerKeepsWhitespace(word[0]);
    ToLowerKeepsWhitespace(word[|word| - 1]);
    TrimPadded(before, word, after);
  }

  /** `clear` in any casing and with any surrounding whitespace. */
  lemma ClearAnyCasing(c: Config, s: State, before: string, word: string, after: string)
    requires WellFormed(c) && !s.busy
    requires AllWhitespace(before) && AllWhitespace(after) && ToLower(word) == ClearToken
    ensures Submit(c, s.(input := before + word + after)).history == []
    ensures Submit(c, s.(input := before + word + after)).input == ""
  {
    NormalizePadded(before, word, after);
  }

  /** Starting the pipeline appends its preamble at once and whatever the
      input was, queues every step and raises the busy flag if there are
      any. */
  lemma LaunchStarts(c: Config, s: State)
    requires WellFormed(c) && !s.busy && Normalize(s.input) in c.pipeline.triggers
    ensures Submit(c, s).history == s.history + c.pipeline.preamble
    ensures Submit(c, s).pending == c.pipeline.steps && Submit(c, s).input == ""
    ensures Submit(c, s).busy <==> c.pipeline.steps != []
  {
  }

  /** `k` delays show the first `k` queued lines in order and dequeue them;
      the busy flag stays up while lines remain. */
  lemma {:induction false} TicksDrain(s: State, k: nat)
    requires Valid(s) && k <= |s.pending|
    ensures Ticks(s, k).history == s.history + s.pending[..k]
    ensures Ticks(s, k).pending == s.pending[k..]
    ensures Ticks(s, k).busy <==> k < |s.pending|
    ensures Ticks(s, k).input == s.input
    decreases k
  {
    if k == 0 {
      assert s.pending[..0] == [] && s.pending[0..] == s.pending;
    } else {
      var s1 := Tick(s);
      assert s1.history == s.history + [s.pending[0]] && s1.pending == s.pending[1..];
      TicksDrain(s1, k - 1);
      assert s.pending[1..][..k - 1] == s.pending[1..k];
      assert s.pending[..k] == [s.pending[0]] + s.pending[1..k];
      assert s.pending[1..][k - 1..] == s.pending[k..];
    }
  }

  /** After `k` step delays the first `k` steps have been appended, in
      declaration order, after the preamble; the console stays busy until
      the last one. */
  lemma LaunchProgress(c: Config, s: State, k: nat)
    requires WellFormed(c) && !s.busy && Normalize(s.input) in c.pipeline.triggers
    requires k <= |c.pipeline.steps|
    ensures Ticks(Submit(c, s), k).history == s.history + c.pipeline.preamble + c.pipeline.steps[..k]
    ensures Ticks(Submit(c, s), k).pending == c.pipeline.steps[k..]
    ensures Ticks(Submit(c, s), k).busy <==> k < |c.pipeline.steps|
    ensures Ticks(Submit(c, s), k).input == ""
  {
    LaunchStarts(c, s);
    TicksDrain(Submit(c, s), k);
  }

  /** A whole run: Idle, then busy for every intermediate state, then Idle
      again once every step is shown, with exactly preamble and steps
      appended; later delays show nothing more. */
  lemma LaunchCompletes(c: Config, s: State)
    requires WellFormed(c) && !s.busy && Normalize(s.input) in c.pipeline.triggers
    ensures var done := Ticks(Submit(c, s), |c.pipeline.steps|);
      && done.history == s.history + c.pipeline.preamble + c.pipeline.steps
      && Idle(done)
      && Tick(done) == done
      && |done.history| == |s.history| + |c.pipeline.preamble| + |c.pipeline.steps|
  {
    LaunchProgress(c, s, |c.pipeline.steps|);
    assert c.pipeline.steps[..|c.pipeline.steps|] == c.pipeline.steps;
  }

  /** While the pipeline runs every submission is rejected. */
  lemma LaunchExcludesCommands(c: Config, s: State, k: nat)
    requires WellFormed(c) && !s.busy && Normalize(s.input) in c.pipeline.triggers
    requires k < |c.pipeline.steps|
    ensures Submit(c, Ticks(Submit(c, s), k)) == Ticks(Submit(c, s), k)
  {
    LaunchProgress(c, s, k);
  }
}
