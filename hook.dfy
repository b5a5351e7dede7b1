/** The hook as an object: its state cells and pending timers are fields
    that the two timer callbacks overwrite, each proved to agree with the
    step functions of module Typewriter. */
module Hook {
  import opened JsString
  import opened Typewriter

  class TypewriterHook {
    const words: seq<string>
    const typingSpeed: int
    const deletingSpeed: int
    const delayBetweenWords: int

    var text: string
    var wordIndex: nat
    var isDeleting: bool
    /** The pending tick timer, if any. */
    var tick: Timer
    /** Delays of the pending pause timers, oldest first. */
    var pauses: seq<int>

    /** The hook's arguments. */
    function Cfg(): Config {
      Config(words, typingSpeed, deletingSpeed, delayBetweenWords)
    }

    /** The current cells and timers as a value. */
    function Snapshot(): State
      reads this
    {
      State(text, wordIndex, isDeleting, tick, pauses)
    }

    /** The invariant for a non-empty word list; an empty list never shows
        text and never arms a pause. */
    ghost predicate Valid()
      reads this
    {
      if |words| > 0 then Inv(Cfg(), Snapshot()) else text == "" && pauses == []
    }

    /** Mounting: the three cells start empty, at index 0 and typing, and the
        effect's first run arms the tick timer with the typing delay. */
    constructor (words: seq<string>, typingSpeed: int := DefaultTypingSpeed,
                 deletingSpeed: int := DefaultDeletingSpeed,
                 delayBetweenWords: int := DefaultDelayBetweenWords)
      ensures this.words == words && this.typingSpeed == typingSpeed
      ensures this.deletingSpeed == deletingSpeed && this.delayBetweenWords == delayBetweenWords
      ensures Snapshot() == Initial(Cfg())
      ensures Valid()
    {
      this.words := words;
      this.typingSpeed := typingSpeed;
      this.deletingSpeed := deletingSpeed;
      this.delayBetweenWords := delayBetweenWords;
      text := "";
      wordIndex := 0;
      isDeleting := false;
      tick := Armed(typingSpeed);
      pauses := [];
    }

    /** The effect's run after a render: when a dependency changed since
        `before`, clear the pending tick timer and arm a new one with the
        delay of the current mode. */
    method Rerun(before: State)
      modifies this`tick
      ensures Snapshot() == Rerender(Cfg(), before, old(Snapshot()))
    {
      if text != before.text || isDeleting != before.isDeleting || wordIndex != before.wordIndex {
        tick := Armed(if isDeleting then deletingSpeed else typingSpeed);
      }
    }

    /** The tick timer firing. `ok` is false when the callback throws
        because the word list has no word at `wordIndex`. */
    method Tick() returns (ok: bool)
      requires Valid()
      modifies this
      ensures Snapshot() == TickStep(Cfg(), old(Snapshot()))
      ensures ok == !Throws(Cfg(), old(Snapshot()))
      ensures Valid()
    {
      // the callback sees the cells of the render that armed it
      var s0 := Snapshot();
      if |words| > 0 { TickStepInv(Cfg(), s0); }
      ok := true;
      if tick.Idle? {
        return;
      }
      tick := Idle;
      if wordIndex >= |words| {
        ok := false;
        return;
      }
      var currentWord := words[wordIndex];
      if !isDeleting {
        text := Substring(currentWord, 0, |s0.text| + 1);
        if s0.text == currentWord {
          pauses := pauses + [delayBetweenWords];
        }
      } else {
        text := Substring(currentWord, 0, |s0.text| - 1);
        if s0.text == "" {
          isDeleting := false;
          wordIndex := (wordIndex + 1) % |words|;
        }
      }
      Rerun(s0);
    }

    /** The oldest pending pause timer firing: switch to deleting. */
    method PauseElapsed()
      requires Valid()
      modifies this
      ensures Snapshot() == PauseStep(Cfg(), old(Snapshot()))
      ensures Valid()
    {
      var s0 := Snapshot();
      if |words| > 0 { PauseStepInv(Cfg(), s0); }
      if pauses == [] {
        return;
      }
      pauses := pauses[1..];
      isDeleting := true;
      Rerun(s0);
    }

    /** What the hook returns to the component: the displayed text, a
        prefix of the current word whenever the list has one. */
    method Text() returns (t: string)
      requires Valid()
      ensures t == text
      ensures |words| > 0 ==> wordIndex < |words| && IsPrefix(t, words[wordIndex])
      ensures |words| == 0 ==> t == ""
    {
      t := text;
    }
  }

  /** Calling the hook with only its word list: the optional delays take
      their default values and the hook starts in the initial state. */
  method MountDefaults(words: seq<string>) returns (h: TypewriterHook)
    ensures fresh(h)
    ensures h.Cfg() == DefaultConfig(words)
    ensures h.Cfg().typingSpeed == 100 && h.Cfg().deletingSpeed == 50 && h.Cfg().delayBetweenWords == 2000
    ensures h.Snapshot() == Initial(DefaultConfig(words))
  {
    h := new TypewriterHook(words);
  }
}
