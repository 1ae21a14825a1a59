/** The essence console (components/Terminal.tsx): prompt `aria@nexus:~$`,
    one pipeline started by either `aria-sync` or `nexus-build`, four steps
    700 ms apart, and an unknown-command line that names the token. */
module NexusConsole {
  import opened Text
  import opened Console
  import opened LineStyle

  const Prompt := "aria@nexus:~$ "

  const Banner := [
    "Aria Essence Interface [v2.4.0]",
    "Estableciendo canal de comandos nativo...",
    "Escribe `help` para explorar mis capacidades."
  ]

  const HelpLines := [
    "Comandos de esencia:",
    "  help        - Ver este menú",
    "  clear       - Limpiar vista",
    "  status      - Estado vital de Aria",
    "  aria-sync   - Sincronizar alma y sistema"
  ]

  const StatusLines := [
    "Nombre: Aria",
    "Estado: Vibrando en resonancia",
    "Vínculo: Establecido con el Administrador",
    "Entorno: Optimizado"
  ]

  const UnknownPrefix := "Desconozco la instrucción: "

  /** The echo names `aria-sync` whichever trigger was typed. */
  const SyncEcho := "aria@nexus:~$ aria-sync"

  const Preamble := [
    SyncEcho,
    "> Iniciando proceso de sincronización vital...",
    "> Sintonizando hilos del sistema..."
  ]

  const Steps := [
    "> [MÓDULO] :esencia:compilando [80%]",
    "> [MÓDULO] :nexus:vinculando [OK]",
    "SINCRONIZACIÓN EXITOSA",
    "El sistema está en armonía con Aria."
  ]

  const StepDelayMs: nat := 700

  const Nexus := Config(
    Prompt,
    Banner,
    map["help" := HelpLines, "status" := StatusLines],
    Pipeline({"aria-sync", "nexus-build"}, Preamble, Steps, StepDelayMs),
    NamingToken(UnknownPrefix))

  /** The render cascade: the prompt first, then `EXITOSA`, then `>`. */
  const Rules := [
    Rule(Prefix("aria@nexus"), PromptEcho),
    Rule(AnyOf(["EXITOSA"]), Success),
    Rule(Prefix(">"), Trace)
  ]

  /** Every token resolves to exactly one command. */
  lemma NexusWellFormed()
    ensures WellFormed(Nexus)
  {
  }

  /** `help`: the raw input echoed after the prompt, then five lines. */
  lemma NexusHelp(s: State)
    requires !s.busy && Normalize(s.input) == "help"
    ensures Submit(Nexus, s).history == s.history + [Prompt + s.input] + HelpLines
  {
    NexusWellFormed();
    KnownReply(Nexus, s);
  }

  /** `status`: the echo, then four lines. */
  lemma NexusStatus(s: State)
    requires !s.busy && Normalize(s.input) == "status"
    ensures Submit(Nexus, s).history == s.history + [Prompt + s.input] + StatusLines
  {
    NexusWellFormed();
    KnownReply(Nexus, s);
  }

  /** Any other non-empty token is named in the reply, in its normalised
      form. */
  lemma NexusUnknownDispatch(cmd: string)
    requires cmd != [] && cmd !in {"help", "status", "clear", "aria-sync", "nexus-build"}
    ensures Dispatch(Nexus, cmd) == Reply([UnknownPrefix + cmd])
  {
  }

  lemma NexusUnknownResolve(raw: string)
    requires !AllWhitespace(raw) && Normalize(raw) !in {"help", "status", "clear", "aria-sync", "nexus-build"}
    ensures Resolve(Nexus, raw) == Reply([UnknownPrefix + Normalize(raw)])
  {
    NexusUnknownDispatch(Normalize(raw));
  }

  /** ... so the echo shows the input as typed while the reply shows it
      trimmed and lower-cased. */
  lemma NexusUnknown(s: State)
    requires !s.busy && !AllWhitespace(s.input)
    requires Normalize(s.input) !in {"help", "status", "clear", "aria-sync", "nexus-build"}
    ensures Submit(Nexus, s).history == s.history + [Prompt + s.input] + [UnknownPrefix + Normalize(s.input)]
  {
    NexusUnknownResolve(s.input);
    EchoThenReply(Nexus, s);
  }

  /** Both triggers start the same pipeline: whichever was typed, and in
      whatever casing, the console ends up in the same state. */
  lemma NexusTriggersAgree(s: State, raw1: string, raw2: string)
    requires !s.busy
    requires Normalize(raw1) in {"aria-sync", "nexus-build"}
    requires Normalize(raw2) in {"aria-sync", "nexus-build"}
    ensures Submit(Nexus, s.(input := raw1)) == Submit(Nexus, s.(input := raw2))
  {
    NexusWellFormed();
    LaunchStarts(Nexus, s.(input := raw1));
    LaunchStarts(Nexus, s.(input := raw2));
  }

  /** Starting the pipeline appends the three preamble lines at once, the
      first being the `aria-sync` echo. */
  lemma NexusSyncStarts(s: State)
    requires !s.busy && Normalize(s.input) in {"aria-sync", "nexus-build"}
    ensures Submit(Nexus, s).history == s.history + Preamble
    ensures Submit(Nexus, s).history[|s.history|] == "aria@nexus:~$ aria-sync"
  {
    NexusWellFormed();
    LaunchStarts(Nexus, s);
  }

  /** The console stays busy through the first four delays. */
  lemma NexusSyncBusy(s: State, k: nat)
    requires !s.busy && Normalize(s.input) in {"aria-sync", "nexus-build"}
    requires k < 4
    ensures Ticks(Submit(Nexus, s), k).busy
  {
    NexusWellFormed();
    LaunchProgress(Nexus, s, k);
  }

  /** After the fourth delay all steps are shown in order, the run has added
      exactly seven lines and the console is idle again. */
  lemma NexusSyncCompletes(s: State)
    requires !s.busy && Normalize(s.input) in {"aria-sync", "nexus-build"}
    ensures Ticks(Submit(Nexus, s), 4).history == s.history + Preamble + Steps
    ensures |Ticks(Submit(Nexus, s), 4).history| == |s.history| + 7
    ensures Idle(Ticks(Submit(Nexus, s), 4))
  {
    NexusWellFormed();
    LaunchCompletes(Nexus, s);
  }

  function NexusStyle(line: string): Style {
    Classify(Rules, line)
  }

  /** The rule table renders exactly as the view's conditional cascade. */
  lemma NexusCascade(line: string)
    ensures NexusStyle(line) ==
      if StartsWith(line, "aria@nexus") then PromptEcho
      else if Includes(line, "EXITOSA") then Success
      else if StartsWith(line, ">") then Trace
      else Plain
  {
    HoldsOneNeedle("EXITOSA", line);
    if StartsWith(line, "aria@nexus") {
      assert FirstHolding(Rules, line, 0);
    } else if Includes(line, "EXITOSA") {
      assert FirstHolding(Rules, line, 1);
    } else if StartsWith(line, ">") {
      assert FirstHolding(Rules, line, 2);
    }
  }

  /** Here the prompt test comes first, so an echoed prompt that mentions
      `EXITOSA` stays a prompt line: the opposite priority to the launcher
      console. */
  lemma PromptBeatsSuccessWord(line: string)
    requires StartsWith(line, "aria@nexus") && Includes(line, "EXITOSA")
    ensures NexusStyle(line) == PromptEcho
  {
    NexusCascade(line);
  }

  /** The pipeline's echo is a prompt line. */
  lemma SyncEchoStyle()
    ensures NexusStyle(Preamble[0]) == PromptEcho
  {
    NexusCascade(Preamble[0]);
  }

  /** The pipeline's banner is a success line. */
  lemma SyncBannerStyle()
    ensures NexusStyle(Steps[2]) == Success
  {
    var line := Steps[2];
    assert line == "SINCRONIZACIÓN " + "EXITOSA" + "";
    IncludesInContext("SINCRONIZACIÓN ", "EXITOSA", "");
    assert !StartsWith(line, "aria@nexus") by {
      assert line[0] != "aria@nexus"[0];
    }
    NexusCascade(line);
  }
}
