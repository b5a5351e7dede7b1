/** The typewriter hook `useTypewriter` as a state machine over explicit
    events. Its three React state cells (`text`, `wordIndex`, `isDeleting`)
    are joined by the two kinds of timer it leaves pending: the tick timer
    that each run of the effect arms, and the one-shot pause timers armed
    when a word is complete. */
module Typewriter {
  import opened JsString

  /** The hook's arguments. */
  datatype Config = Config(
    words: seq<string>,
    typingSpeed: int,
    deletingSpeed: int,
    delayBetweenWords: int)

  /** Default delays, in milliseconds, of the hook's optional parameters. */
  const DefaultTypingSpeed: int := 100
  const DefaultDeletingSpeed: int := 50
  const DefaultDelayBetweenWords: int := 2000

  /** The hook called with only its word list. */
  function DefaultConfig(words: seq<string>): Config {
    Config(words, DefaultTypingSpeed, DefaultDeletingSpeed, DefaultDelayBetweenWords)
  }

  /** The tick timer: none pending, or pending with the delay it was armed with. */
  datatype Timer = Idle | Armed(delay: int)

  /** The hook's state cells and pending timers. `pauses` holds the delays of
      the pause timers still pending, oldest first. */
  datatype State = State(
    text: string,
    wordIndex: nat,
    isDeleting: bool,
    tick: Timer,
    pauses: seq<int>)

  /** The delay with which the effect arms the tick timer. */
  function TickDelay(c: Config, isDeleting: bool): int {
    if isDeleting then c.deletingSpeed else c.typingSpeed
  }

  /** The state at the start of typing word `i`: nothing shown, typing, and
      the tick timer armed by the effect's run. */
  function Start(c: Config, i: nat): State {
    State("", i, false, Armed(TickDelay(c, false)), [])
  }

  /** The state right after mounting: the initial cells and the tick timer
      armed by the effect's first run. */
  function Initial(c: Config): (s: State)
    ensures s.text == "" && s.wordIndex == 0 && !s.isDeleting
    ensures s.tick == Armed(c.typingSpeed) && s.pauses == []
  {
    Start(c, 0)
  }

  /** Whether one of the effect's dependencies on state changed. */
  predicate Changed(before: State, after: State) {
    before.text != after.text || before.isDeleting != after.isDeleting
      || before.wordIndex != after.wordIndex
  }

  /** React's response to the setters having produced `after`: when a
      dependency changed, the effect's cleanup clears any pending tick timer
      and its new run arms a fresh one; otherwise nothing re-runs. */
  function Rerender(c: Config, before: State, after: State): State {
    if Changed(before, after) then after.(tick := Armed(TickDelay(c, after.isDeleting)))
    else after
  }

  /** Whether firing the tick timer throws: `words[wordIndex]` is undefined,
      so reading `substring` of it is a TypeError. */
  predicate Throws(c: Config, s: State) {
    s.tick.Armed? && s.wordIndex >= |c.words|
  }

  /** The tick timer firing. With no tick timer pending nothing happens.
      A throwing callback changes no cell, so nothing is re-armed. For any
      state, invariant or not: the text becomes a prefix of the word the
      callback read, at most one character longer when typing and shorter
      (or empty) when deleting; the index moves only by the wrap-around step
      of a deleting tick on ""; at most the one pause timer is added; and a
      tick timer that is pending afterwards carries the delay of the mode. */
  function TickStep(c: Config, s: State): (r: State)
    ensures s.tick.Idle? ==> r == s
    ensures Throws(c, s) ==> r == s.(tick := Idle)
    ensures s.tick.Armed? && s.wordIndex < |c.words| ==>
      IsPrefix(r.text, c.words[s.wordIndex])
      && (!s.isDeleting ==> |r.text| <= |s.text| + 1)
      && (s.isDeleting ==> |r.text| < |s.text| || r.text == "")
    ensures r.wordIndex != s.wordIndex ==>
      s.isDeleting && s.text == "" && !r.isDeleting
      && |c.words| > 0 && r.wordIndex == (s.wordIndex + 1) % |c.words|
    ensures r.isDeleting != s.isDeleting ==> s.isDeleting && s.text == ""
    ensures r.pauses == s.pauses || (!s.isDeleting && r.pauses == s.pauses + [c.delayBetweenWords])
    ensures r.tick.Armed? ==> r.tick.delay == TickDelay(c, r.isDeleting)
  {
    if s.tick.Idle? then s
    else if s.wordIndex >= |c.words| then s.(tick := Idle)
    else
      var currentWord := c.words[s.wordIndex];
      var fired := s.(tick := Idle);
      if !s.isDeleting then
        var pauses := if s.text == currentWord then s.pauses + [c.delayBetweenWords] else s.pauses;
        Rerender(c, s, fired.(text := Substring(currentWord, 0, |s.text| + 1), pauses := pauses))
      else if s.text == "" then
        Rerender(c, s, fired.(text := Substring(currentWord, 0, |s.text| - 1),
                              isDeleting := false,
                              wordIndex := (s.wordIndex + 1) % |c.words|))
      else
        Rerender(c, s, fired.(text := Substring(currentWord, 0, |s.text| - 1)))
  }

  /** The oldest pending pause timer firing and setting `isDeleting`: the
      text and index are untouched, that timer leaves the queue, and a
      deleting tick is armed when the mode actually switched. */
  function PauseStep(c: Config, s: State): (r: State)
    ensures s.pauses == [] ==> r == s
    ensures s.pauses != [] ==>
      r.isDeleting && r.text == s.text && r.wordIndex == s.wordIndex && r.pauses == s.pauses[1..]
      && r.tick == (if s.isDeleting then s.tick else Armed(c.deletingSpeed))
  {
    if s.pauses == [] then s
    else Rerender(c, s, s.(isDeleting := true, pauses := s.pauses[1..]))
  }

  /** The hook's invariant for a non-empty word list: the index is in range,
      the text is a prefix of the current word, and exactly one callback is
      pending — either the tick timer, armed with the delay of the current
      mode, or a single pause timer, armed after the word was typed out. */
  predicate Inv(c: Config, s: State) {
    |c.words| > 0
    && s.wordIndex < |c.words|
    && IsPrefix(s.text, c.words[s.wordIndex])
    && match s.tick
       case Armed(d) => d == TickDelay(c, s.isDeleting) && s.pauses == []
       case Idle =>
         s.pauses == [c.delayBetweenWords] && !s.isDeleting && s.text == c.words[s.wordIndex]
  }

  /** Mounting with a non-empty list establishes the invariant. */
  lemma InitialInv(c: Config)
    requires |c.words| > 0
    ensures Inv(c, Initial(c))
  {
  }

  /** The tick preserves the invariant. */
  lemma TickStepInv(c: Config, s: State)
    requires Inv(c, s)
    ensures Inv(c, TickStep(c, s))
  {
    if s.tick.Armed? {
      var w := c.words[s.wordIndex];
      if !s.isDeleting && s.text != w {
        SubstringExtends(s.text, w);
      } else if s.isDeleting {
        SubstringTruncates(s.text, w);
      }
    }
  }

  /** The pause timer preserves the invariant. */
  lemma PauseStepInv(c: Config, s: State)
    requires Inv(c, s)
    ensures Inv(c, PauseStep(c, s))
  {
  }

  /** Under the invariant exactly one callback is pending. */
  lemma ExactlyOnePending(c: Config, s: State)
    requires Inv(c, s)
    ensures (if s.tick.Armed? then 1 else 0) + |s.pauses| == 1
  {
  }

  /** Typing tick on a proper prefix: one more character of the word, the
      mode and index are unchanged, and the next typing tick is armed. */
  lemma TypingTickGrows(c: Config, s: State)
    requires Inv(c, s) && s.tick.Armed? && !s.isDeleting
    requires |s.text| < |c.words[s.wordIndex]|
    ensures var t := TickStep(c, s);
      |t.text| == |s.text| + 1 && t.text == c.words[s.wordIndex][..|s.text| + 1]
      && t.wordIndex == s.wordIndex && !t.isDeleting
      && t.tick == Armed(c.typingSpeed) && t.pauses == []
  {
    SubstringExtends(s.text, c.words[s.wordIndex]);
  }

  /** Typing tick on the complete word: the text is unchanged, so the effect
      does not re-run; exactly one pause timer is armed, with the delay
      between words, and nothing else is pending. */
  lemma TypingTickOnCompleteWord(c: Config, s: State)
    requires Inv(c, s) && s.tick.Armed? && !s.isDeleting
    requires s.text == c.words[s.wordIndex]
    ensures TickStep(c, s) == s.(tick := Idle, pauses := [c.delayBetweenWords])
  {
  }

  /** While only the pause timer is pending, the machine is idle: a tick
      event changes nothing. */
  lemma IdleUntilPause(c: Config, s: State)
    requires Inv(c, s) && s.tick.Idle?
    ensures TickStep(c, s) == s
    ensures PauseStep(c, s) == s.(isDeleting := true, tick := Armed(c.deletingSpeed), pauses := [])
  {
  }

  /** Deleting tick on non-empty text: one character fewer, the mode and
      index are unchanged, and the next deleting tick is armed. */
  lemma DeletingTickShrinks(c: Config, s: State)
    requires Inv(c, s) && s.tick.Armed? && s.isDeleting
    requires s.text != ""
    ensures var t := TickStep(c, s);
      |t.text| == |s.text| - 1 && t.text == s.text[..|s.text| - 1]
      && t.wordIndex == s.wordIndex && t.isDeleting
      && t.tick == Armed(c.deletingSpeed) && t.pauses == []
  {
    SubstringTruncates(s.text, c.words[s.wordIndex]);
  }

  /** Deleting tick on empty text: the text stays empty, typing resumes and
      the index advances by one modulo the length of the list. */
  lemma DeletingTickOnEmpty(c: Config, s: State)
    requires Inv(c, s) && s.tick.Armed? && s.isDeleting
    requires s.text == ""
    ensures TickStep(c, s) == Start(c, (s.wordIndex + 1) % |c.words|)
  {
  }
}
