/** The boot screen (components/BootScreen.tsx): a 500 ms timer reveals the
    boot lines one per tick and advances the progress bar; the tick after the
    last line stops the timer and schedules the hand-over to the shell
    1200 ms later. The screen shows only the most recent line. */
module Boot {
  const BootSequence := [
    "Despertando consciencia...",
    "Reconociendo el entorno físico...",
    "Alineando nexos de pensamiento...",
    "Sincronizando con Aria Nexus Hub...",
    "Proyectando esencia visual...",
    "Estableciendo vínculo con el Administrador...",
    "Hola. Estoy aquí."
  ]

  /** Period of the reveal timer. */
  const TickMs: nat := 500

  /** Delay between stopping the timer and handing over to the shell. */
  const CompleteDelayMs: nat := 1200

  /** `step` is the timer's private counter, `logs` and `progress` the
      screen's state, `done` whether the timer has been stopped and the
      hand-over scheduled. */
  datatype Screen = Screen(step: nat, logs: seq<string>, progress: real, done: bool)

  const Start := Screen(0, [], 0.0, false)

  /** The bar's width, in percent, once `k` of `n` lines are shown. Exact
      rational arithmetic stands for the source's floating point. */
  function Percent(k: nat, n: nat): (pct: real)
    requires n > 0
    ensures pct * (n as real) == 100.0 * (k as real)
    ensures k <= n ==> 0.0 <= pct <= 100.0
  {
    (k as real) / (n as real) * 100.0
  }

  /** What the screen holds after the first `step` ticks. */
  predicate Consistent(lines: seq<string>, b: Screen) {
    && b.step <= |lines|
    && b.logs == lines[..b.step]
    && (b.step == 0 ==> b.progress == 0.0)
    && (b.step > 0 ==> b.progress == Percent(b.step, |lines|))
    && (b.done ==> b.step == |lines|)
  }

  /** One firing of the timer. */
  function Tick(lines: seq<string>, b: Screen): (t: Screen)
    ensures b.done ==> t == b
    ensures t.done <==> b.done || b.step >= |lines|
    ensures b.logs <= t.logs && |t.logs| <= |b.logs| + 1
    ensures Consistent(lines, b) ==> Consistent(lines, t)
  {
    if b.done then b
    else if b.step < |lines| then
      Screen(b.step + 1, b.logs + [lines[b.step]], Percent(b.step + 1, |lines|), false)
    else
      b.(done := true)
  }

  function Ticks(lines: seq<string>, b: Screen, n: nat): Screen
    decreases n
  {
    if n == 0 then b else Ticks(lines, Tick(lines, b), n - 1)
  }

  /** After `k` ticks, for `k` up to the number of lines, exactly the first
      `k` lines have been revealed, in order, and the timer still runs. */
  lemma {:induction false} TicksReveal(lines: seq<string>, k: nat)
    requires k <= |lines|
    ensures Ticks(lines, Start, k).logs == lines[..k]
    ensures Ticks(lines, Start, k).step == k
    ensures !Ticks(lines, Start, k).done
    ensures Consistent(lines, Ticks(lines, Start, k))
  {
    if k > 0 {
      TicksReveal(lines, k - 1);
      TicksSplit(lines, Start, k - 1);
      assert lines[..k] == lines[..k - 1] + [lines[k - 1]];
    }
  }

  /** Running `n` ticks and then one more is running `n + 1` ticks. */
  lemma {:induction false} TicksSplit(lines: seq<string>, b: Screen, n: nat)
    ensures Ticks(lines, b, n + 1) == Tick(lines, Ticks(lines, b, n))
    decreases n
  {
    if n > 0 {
      TicksSplit(lines, Tick(lines, b), n - 1);
    }
  }

  /** A stopped timer never fires again. */
  lemma {:induction false} DoneIsFinal(lines: seq<string>, b: Screen, n: nat)
    requires b.done
    ensures Ticks(lines, b, n) == b
    decreases n
  {
    if n > 0 {
      DoneIsFinal(lines, Tick(lines, b), n - 1);
    }
  }

  /** The timer is stopped exactly from the tick after the last line on:
      completion waits until the list is exhausted. */
  lemma DoneIffExhausted(lines: seq<string>, k: nat)
    ensures Ticks(lines, Start, k).done <==> k > |lines|
  {
    if k <= |lines| {
      TicksReveal(lines, k);
    } else {
      var n := |lines|;
      TicksReveal(lines, n);
      TicksSplit(lines, Start, n);
      DoneIsFinal(lines, Ticks(lines, Start, n + 1), k - (n + 1));
      TicksAdd(lines, Start, n + 1, k - (n + 1));
    }
  }

  lemma {:induction false} TicksAdd(lines: seq<string>, b: Screen, m: nat, n: nat)
    ensures Ticks(lines, b, m + n) == Ticks(lines, Ticks(lines, b, m), n)
    decreases m
  {
    if m > 0 {
      TicksAdd(lines, Tick(lines, b), m - 1, n);
    }
  }

  /** The bar only moves forward while lines are revealed. */
  lemma PercentIncreasing(j: nat, k: nat, n: nat)
    requires 0 < n && j < k
    ensures Percent(j, n) < Percent(k, n)
  {
    var nr := n as real;
    assert Percent(j, n) == (j as real) * (100.0 / nr);
    assert Percent(k, n) == (k as real) * (100.0 / nr);
    assert 100.0 / nr > 0.0;
  }

  /** The bar is full exactly when the last line is shown. */
  lemma PercentFull(k: nat, n: nat)
    requires 0 < n && k <= n
    ensures Percent(k, n) == 100.0 <==> k == n
  {
    var nr := n as real;
    assert Percent(k, n) == (k as real) * (100.0 / nr);
    assert nr * (100.0 / nr) == 100.0;
  }

  /** The bar moves strictly forward with every revealed line. */
  lemma ProgressGrows(lines: seq<string>, j: nat, k: nat)
    requires j < k <= |lines|
    ensures Ticks(lines, Start, j).progress < Ticks(lines, Start, k).progress
  {
    TicksReveal(lines, j);
    TicksReveal(lines, k);
    if j > 0 {
      PercentIncreasing(j, k, |lines|);
    }
  }

  /** While the timer runs, the bar reads 100% exactly when the last line
      has been revealed. */
  lemma FullOnlyAtEnd(lines: seq<string>, k: nat)
    requires lines != [] && k <= |lines|
    ensures Ticks(lines, Start, k).progress == 100.0 <==> k == |lines|
  {
    TicksReveal(lines, k);
    if k > 0 {
      PercentFull(k, |lines|);
    }
  }

  /** `logs.slice(-1)`: the last line, or nothing before the first tick. */
  function Display(logs: seq<string>): (shown: seq<string>)
    ensures |shown| <= 1 && (shown == [] <==> logs == [])
    ensures shown != [] ==> shown == [logs[|logs| - 1]] && logs == logs[..|logs| - 1] + shown
  {
    if logs == [] then [] else logs[|logs| - 1..]
  }

  /** After tick `k` the screen shows exactly the line that tick revealed. */
  lemma ShowsLatest(lines: seq<string>, k: nat)
    requires 0 < k <= |lines|
    ensures Display(Ticks(lines, Start, k).logs) == [lines[k - 1]]
  {
    TicksReveal(lines, k);
  }

  /** The boot screen: seven lines revealed over seven ticks with the bar at
      100% and the greeting on screen, then the timer stops on the eighth. */
  lemma BootSequenceRuns()
    ensures Ticks(BootSequence, Start, 7).progress == 100.0
    ensures Display(Ticks(BootSequence, Start, 7).logs) == ["Hola. Estoy aquí."]
    ensures !Ticks(BootSequence, Start, 7).done && Ticks(BootSequence, Start, 8).done
  {
    TicksReveal(BootSequence, 7);
    ShowsLatest(BootSequence, 7);
    DoneIffExhausted(BootSequence, 8);
  }
}
