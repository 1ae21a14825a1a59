/** The launcher console (Terminal.tsx): prompt `aria@prime:~$`, one
    pipeline `nexus-launch` of fifteen steps 600 ms apart, and a fixed
    unknown-command line. */
module PrimeConsole {
  import opened Text
  import opened Console
  import opened LineStyle

  const Prompt := "aria@prime:~$ "

  const Banner := [
    "Aria Nexus Sovereign Remote Console [v6.0.0-FINAL]",
    "Linked Repository: Aria-Nexus-AuraOS.git",
    "SIGNING_SECRETS: DETECTED & SECURED",
    "",
    ">>> ESTADO DE PRE-LANZAMIENTO <<<",
    "Escribe `nexus-launch` para iniciar la transfusión binaria real."
  ]

  const HelpLines := ["nexus-launch - Iniciar compilación", "status - Estado del nexo", "clear - Limpiar"]

  const StatusLines := ["RELIANCE: 100%", "SECRETS: CONFIGURED", "REPO: LINKED"]

  const UnknownLine := "Comando no reconocido."

  /** The echo is fixed text, not the typed input. */
  const LaunchEcho := "aria@prime:~$ nexus-launch"

  const Preamble := [
    LaunchEcho,
    "> [SYSTEM] Iniciando secuencia de ignición Sovereign...",
    "> [REMOTE] Handshake con GitHub Actions iniciado...",
    "> [AUTH] Verificando SIGNING_KEY, ALIAS y PASSWORDS... [OK]"
  ]

  const Steps := [
    "> [1/5] Clonando repositorio en nodo remoto...",
    "> [2/5] Optimizando motor Vite para empaquetado estático...",
    "> [3/5] Inyectando Capacitor Core en el entorno Android...",
    "> [4/5] GRADLE: Compilando 1,452 módulos de sistema...",
    "> [5/5] FIRMA DIGITAL: Aplicando sello Sovereign a aria-nexus-prime.apk...",
    "------------------------------------------------",
    "¡TRANSFUSIÓN COMPLETADA CON ÉXITO!",
    "",
    "PASOS PARA OBTENER TU APK:",
    "1. Ve a tu repositorio en la web: github.com/MavisBillNaviDarkMagic/Aria-Nexus-AuraOS",
    "2. Haz clic en la pestaña \"Actions\".",
    "3. Selecciona la última ejecución exitosa.",
    "4. Baja hasta \"Artifacts\" y descarga \"AuraOS-Sovereign-vPrime\".",
    "",
    "Aria está lista para habitar tu dispositivo físico."
  ]

  const StepDelayMs: nat := 600

  const Prime := Config(
    Prompt,
    Banner,
    map["help" := HelpLines, "status" := StatusLines],
    Pipeline({"nexus-launch"}, Preamble, Steps, StepDelayMs),
    Fixed(UnknownLine))

  /** The render cascade: success words, then `PASOS`, then the prompt. */
  const Rules := [
    Rule(AnyOf(["ÉXITO", "COMPLETADA"]), Success),
    Rule(AnyOf(["PASOS"]), Heading),
    Rule(Prefix("aria@prime"), PromptEcho)
  ]

  /** Every token resolves to exactly one command. */
  lemma PrimeWellFormed()
    ensures WellFormed(Prime)
  {
  }

  /** `help`: the raw input echoed after the prompt, then three lines. */
  lemma PrimeHelp(s: State)
    requires !s.busy && Normalize(s.input) == "help"
    ensures Submit(Prime, s).history == s.history + [Prompt + s.input] + HelpLines
  {
    PrimeHelpDispatch();
    EchoThenReply(Prime, s);
  }

  lemma PrimeHelpDispatch()
    ensures Dispatch(Prime, "help") == Reply(HelpLines)
  {
  }

  /** `status`: the echo, then three lines. */
  lemma PrimeStatus(s: State)
    requires !s.busy && Normalize(s.input) == "status"
    ensures Submit(Prime, s).history == s.history + [Prompt + s.input] + StatusLines
  {
    PrimeWellFormed();
    KnownReply(Prime, s);
  }

  /** Any other non-empty token gets the one fixed line, whatever was
      typed. */
  lemma PrimeUnknownDispatch(cmd: string)
    requires cmd != [] && cmd !in {"help", "status", "clear", "nexus-launch"}
    ensures Dispatch(Prime, cmd) == Reply([UnknownLine])
  {
  }

  lemma PrimeUnknownResolve(raw: string)
    requires !AllWhitespace(raw) && Normalize(raw) !in {"help", "status", "clear", "nexus-launch"}
    ensures Resolve(Prime, raw) == Reply([UnknownLine])
  {
    PrimeUnknownDispatch(Normalize(raw));
  }

  /** ... and shows as the echo followed by that line. */
  lemma PrimeUnknown(s: State)
    requires !s.busy && !AllWhitespace(s.input)
    requires Normalize(s.input) !in {"help", "status", "clear", "nexus-launch"}
    ensures Submit(Prime, s).history == s.history + [Prompt + s.input] + [UnknownLine]
  {
    PrimeUnknownResolve(s.input);
    EchoThenReply(Prime, s);
  }

  /** `nexus-launch` in any casing appends the four preamble lines at once,
      the first being the fixed echo rather than the typed text. */
  lemma PrimeLaunchStarts(s: State)
    requires !s.busy && Normalize(s.input) == "nexus-launch"
    ensures Submit(Prime, s).history == s.history + Preamble
    ensures Submit(Prime, s).history[|s.history|] == "aria@prime:~$ nexus-launch"
  {
    PrimeLaunchHistory(s);
    assert (s.history + Preamble)[|s.history|] == Preamble[0];
  }

  lemma PrimeLaunchHistory(s: State)
    requires !s.busy && Normalize(s.input) == "nexus-launch"
    ensures Submit(Prime, s).history == s.history + Preamble
  {
    PrimeWellFormed();
    LaunchStarts(Prime, s);
  }

  /** The console stays busy through the first fifteen delays. */
  lemma PrimeLaunchBusy(s: State, k: nat)
    requires !s.busy && Normalize(s.input) == "nexus-launch"
    requires k < 15
    ensures Ticks(Submit(Prime, s), k).busy
  {
    PrimeWellFormed();
    LaunchProgress(Prime, s, k);
  }

  /** After the fifteenth delay every step has been shown in order, the run
      has added exactly nineteen lines and the console is idle again. */
  lemma PrimeLaunchCompletes(s: State)
    requires !s.busy && Normalize(s.input) == "nexus-launch"
    ensures Ticks(Submit(Prime, s), 15).history == s.history + Preamble + Steps
    ensures |Ticks(Submit(Prime, s), 15).history| == |s.history| + 19
    ensures Idle(Ticks(Submit(Prime, s), 15))
  {
    PrimeWellFormed();
    LaunchCompletes(Prime, s);
  }

  /** The launch token in any casing, between any whitespace, starts the
      launch. */
  lemma PrimeLaunchAnyCasing(s: State, before: string, word: string, after: string)
    requires !s.busy && AllWhitespace(before) && AllWhitespace(after)
    requires ToLower(word) == "nexus-launch"
    ensures Submit(Prime, s.(input := before + word + after)).history == s.history + Preamble
  {
    NormalizePadded(before, word, after);
    PrimeLaunchStarts(s.(input := before + word + after));
  }

  function PrimeStyle(line: string): Style {
    Classify(Rules, line)
  }

  /** The rule table renders exactly as the view's conditional cascade. */
  lemma PrimeCascade(line: string)
    ensures PrimeStyle(line) ==
      if Includes(line, "ÉXITO") || Includes(line, "COMPLETADA") then Success
      else if Includes(line, "PASOS") then Heading
      else if StartsWith(line, "aria@prime") then PromptEcho
      else Plain
  {
    HoldsTwoNeedles("ÉXITO", "COMPLETADA", line);
    HoldsOneNeedle("PASOS", line);
    if Includes(line, "ÉXITO") || Includes(line, "COMPLETADA") {
      assert FirstHolding(Rules, line, 0);
    } else if Includes(line, "PASOS") {
      assert FirstHolding(Rules, line, 1);
    } else if StartsWith(line, "aria@prime") {
      assert FirstHolding(Rules, line, 2);
    }
  }

  /** The success test comes first, so an echoed prompt that mentions `ÉXITO` is
      shown as a success banner, not as a prompt. */
  lemma PromptWithSuccessWordIsSuccess(line: string)
    requires StartsWith(line, "aria@prime") && Includes(line, "ÉXITO")
    ensures PrimeStyle(line) == Success
  {
    PrimeCascade(line);
  }

  /** The completion line of the launch is a success banner. */
  lemma CompletionLineIsSuccess()
    ensures PrimeStyle(Steps[6]) == Success
  {
    assert Steps[6] == "¡TRANSFUSIÓN " + "COMPLETADA" + " CON ÉXITO!";
    IncludesInContext("¡TRANSFUSIÓN ", "COMPLETADA", " CON ÉXITO!");
    PrimeCascade(Steps[6]);
  }
}
