/** The hero section's use of the hook: the three roles it cycles through
    and the delays it passes. */
module Hero {
  import opened JsString
  import opened Typewriter
  import opened Traces
  import opened Hook

  /** The roles shown by the hero section. */
  const Roles: seq<string> := ["Full Stack Developer", "3D Web Artist", "Solution Architect"]

  /** `useTypewriter(roles, 100, 50, 2000)`. */
  function HeroConfig(): (c: Config)
    ensures c == DefaultConfig(Roles)
    ensures |c.words| == 3
  {
    Config(Roles, 100, 50, 2000)
  }

  /** The hero's hook keeps its invariant forever, and after typing, pausing
      on and deleting each of the three roles it is back at the first. */
  lemma HeroCycles(events: seq<Event>)
    ensures Inv(HeroConfig(), Run(HeroConfig(), Initial(HeroConfig()), events))
    ensures Run(HeroConfig(), Initial(HeroConfig()), Rotation(HeroConfig(), 0, 3)) == Initial(HeroConfig())
  {
    InitialInv(HeroConfig());
    RunInv(HeroConfig(), Initial(HeroConfig()), events);
    FullRotation(HeroConfig(), 0);
  }

  /** The hero's first four ticks type "F", "Fu", "Ful", "Full" of the first role. */
  lemma HeroSteps()
    ensures var c := HeroConfig();
      TickStep(c, Initial(c)) == State("F", 0, false, Armed(100), [])
      && TickStep(c, State("F", 0, false, Armed(100), [])) == State("Fu", 0, false, Armed(100), [])
      && TickStep(c, State("Fu", 0, false, Armed(100), [])) == State("Ful", 0, false, Armed(100), [])
      && TickStep(c, State("Ful", 0, false, Armed(100), [])) == State("Full", 0, false, Armed(100), [])
  {
    var c := HeroConfig();
    var w := Roles[0];
    assert w[..1] == "F" && w[..2] == "Fu" && w[..3] == "Ful" && w[..4] == "Full";
    TypingTickGrows(c, Initial(c));
    TypingTickGrows(c, State("F", 0, false, Armed(100), []));
    TypingTickGrows(c, State("Fu", 0, false, Armed(100), []));
    TypingTickGrows(c, State("Ful", 0, false, Armed(100), []));
  }

  /** The hero's first four ticks show "F", "Fu", "Ful", "Full". */
  lemma HeroFirstTicks()
    ensures Trace(HeroConfig(), Initial(HeroConfig()), Ticks(4)) == ["F", "Fu", "Ful", "Full"]
  {
    var c := HeroConfig();
    HeroSteps();
    assert Ticks(4) == [Tick] + ([Tick] + ([Tick] + ([Tick] + [])));
    TraceCons(c, State("Ful", 0, false, Armed(100), []), Tick, []);
    TraceCons(c, State("Fu", 0, false, Armed(100), []), Tick, [Tick]);
    TraceCons(c, State("F", 0, false, Armed(100), []), Tick, [Tick, Tick]);
    TraceCons(c, Initial(c), Tick, [Tick, Tick, Tick]);
  }

  /** The configuration of a two-word example with equal delays and no pause. */
  function GoRust(): Config {
    Config(["Go", "Rust"], 100, 100, 0)
  }

  /** The eight states met in one cycle of "Go" under GoRust(). */
  function GoStates(): seq<State> {
    [Start(GoRust(), 0),
     State("G", 0, false, Armed(100), []),
     State("Go", 0, false, Armed(100), []),
     State("Go", 0, false, Idle, [0]),
     State("Go", 0, true, Armed(100), []),
     State("G", 0, true, Armed(100), []),
     State("", 0, true, Armed(100), []),
     Start(GoRust(), 1)]
  }

  /** The events of the cycle of "Go". */
  lemma GoCycleEvents()
    ensures Cycle("Go") == [Tick, Tick, Tick, PauseElapsed, Tick, Tick, Tick]
  {
    assert Ticks(3) == [Tick, Tick, Tick];
  }

  /** Each event of the cycle of "Go" leads from one state of GoStates() to the next. */
  lemma GoSteps()
    ensures var s := GoStates(); var c := GoRust();
      TickStep(c, s[0]) == s[1] && TickStep(c, s[1]) == s[2] && TickStep(c, s[2]) == s[3]
      && PauseStep(c, s[3]) == s[4] && TickStep(c, s[4]) == s[5] && TickStep(c, s[5]) == s[6]
      && TickStep(c, s[6]) == s[7]
  {
    var c := GoRust();
    var s := GoStates();
    var w := c.words[0];
    assert w[..1] == "G" && w[..2] == "Go" && w == "Go";
    TypingTickGrows(c, s[0]);
    TypingTickGrows(c, s[1]);
    TypingTickOnCompleteWord(c, s[2]);
    IdleUntilPause(c, s[3]);
    DeletingTickShrinks(c, s[4]);
    DeletingTickShrinks(c, s[5]);
    DeletingTickOnEmpty(c, s[6]);
  }

  /** The displayed text during one cycle of "Go" with no pause: the complete
      word shows for two events (the extra tick and the pause) before
      deleting starts, and "" shows for two ticks before "Rust" starts. */
  lemma GoCycleTrace()
    ensures Trace(GoRust(), Start(GoRust(), 0), Cycle("Go")) == ["G", "Go", "Go", "Go", "G", "", ""]
  {
    var c := GoRust();
    var s := GoStates();
    GoSteps();
    GoCycleEvents();
    TraceCons(c, s[6], Tick, []);
    TraceCons(c, s[5], Tick, [Tick]);
    TraceCons(c, s[4], Tick, [Tick, Tick]);
    TraceCons(c, s[3], PauseElapsed, [Tick, Tick, Tick]);
    TraceCons(c, s[2], Tick, [PauseElapsed, Tick, Tick, Tick]);
    TraceCons(c, s[1], Tick, [Tick, PauseElapsed, Tick, Tick, Tick]);
    TraceCons(c, s[0], Tick, [Tick, Tick, PauseElapsed, Tick, Tick, Tick]);
  }

  /** A client of the object: mounting the hero's hook and letting four
      tick timers fire shows "Full". */
  method HeroShowsFull() returns (t: string)
    ensures t == "Full"
  {
    var hook := new TypewriterHook(Roles, 100, 50, 2000);
    assert hook.Cfg() == HeroConfig();
    HeroSteps();
    var ok := hook.Tick();
    assert hook.Snapshot() == State("F", 0, false, Armed(100), []);
    ok := hook.Tick();
    assert hook.Snapshot() == State("Fu", 0, false, Armed(100), []);
    ok := hook.Tick();
    assert hook.Snapshot() == State("Ful", 0, false, Armed(100), []);
    ok := hook.Tick();
    assert hook.Snapshot() == State("Full", 0, false, Armed(100), []);
    t := hook.Text();
  }
}
