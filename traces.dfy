/** Runs of the typewriter over sequences of timer events, and the cycle
    each word goes through: typed out, paused, deleted. */
module Traces {
  import opened JsString
  import opened Typewriter

  /** A timer callback firing: the tick timer or the oldest pause timer. */
  datatype Event = Tick | PauseElapsed

  /** The state after one event. */
  function Step(c: Config, s: State, e: Event): State {
    match e
    case Tick => TickStep(c, s)
    case PauseElapsed => PauseStep(c, s)
  }

  /** The state after a sequence of events, in order. */
  function Run(c: Config, s: State, events: seq<Event>): State
    decreases |events|
  {
    if events == [] then s else Run(c, Step(c, s, events[0]), events[1..])
  }

  /** The displayed text after each event of a sequence. */
  function Trace(c: Config, s: State, events: seq<Event>): seq<string>
    decreases |events|
  {
    if events == [] then []
    else
      var t := Step(c, s, events[0]);
      [t.text] + Trace(c, t, events[1..])
  }

  /** The trace of a sequence with a first event: that event's text first. */
  lemma TraceCons(c: Config, s: State, e: Event, rest: seq<Event>)
    ensures Trace(c, s, [e] + rest) == [Step(c, s, e).text] + Trace(c, Step(c, s, e), rest)
  {
    assert ([e] + rest)[0] == e;
    assert ([e] + rest)[1..] == rest;
  }

  /** `k` tick events. */
  function Ticks(k: nat): (r: seq<Event>)
    ensures |r| == k
    ensures forall i :: 0 <= i < k ==> r[i] == Tick
  {
    if k == 0 then [] else [Tick] + Ticks(k - 1)
  }

  /** The events of one word's cycle: a tick per character typed and one
      more on the complete word, which arms the pause; the pause; a tick per
      character deleted and one more on the empty text, which moves on. */
  function Cycle(w: string): seq<Event> {
    Ticks(|w| + 1) + [PauseElapsed] + Ticks(|w| + 1)
  }

  /** The events of `k` consecutive cycles starting at word `i`. */
  function Rotation(c: Config, i: nat, k: nat): seq<Event>
    requires i < |c.words|
    decreases k
  {
    if k == 0 then []
    else Cycle(c.words[i]) + Rotation(c, (i + 1) % |c.words|, k - 1)
  }

  /** `m` reduced modulo `n` by repeated subtraction. */
  function Wrap(m: nat, n: nat): (r: nat)
    requires n > 0
    ensures r < n
    decreases m
  {
    if m < n then m else Wrap(m - n, n)
  }

  /** Running two sequences one after the other is running their concatenation. */
  lemma {:induction false} RunAppend(c: Config, s: State, a: seq<Event>, b: seq<Event>)
    ensures Run(c, s, a + b) == Run(c, Run(c, s, a), b)
    decreases |a|
  {
    if a == [] {
      assert a + b == b;
    } else {
      assert (a + b)[0] == a[0];
      assert (a + b)[1..] == a[1..] + b;
      RunAppend(c, Step(c, s, a[0]), a[1..], b);
    }
  }

  /** Under the invariant, a tick timer pending after any event carries the
      delay of the mode: `deletingSpeed` when deleting, `typingSpeed` otherwise. */
  lemma NextDelay(c: Config, s: State, e: Event)
    requires Inv(c, s)
    ensures var t := Step(c, s, e);
      t.tick.Armed? ==> t.tick.delay == (if t.isDeleting then c.deletingSpeed else c.typingSpeed)
  {
    match e {
      case Tick => TickStepInv(c, s);
      case PauseElapsed => PauseStepInv(c, s);
    }
  }

  /** Every run preserves the invariant. */
  lemma {:induction false} RunInv(c: Config, s: State, events: seq<Event>)
    requires Inv(c, s)
    ensures Inv(c, Run(c, s, events))
    decreases |events|
  {
    if events != [] {
      match events[0] {
        case Tick => TickStepInv(c, s);
        case PauseElapsed => PauseStepInv(c, s);
      }
      RunInv(c, Step(c, s, events[0]), events[1..]);
    }
  }

  /** Typing: from a prefix of length `j`, `k` ticks type the next `k`
      characters, one per tick, as long as the word has them. */
  lemma {:induction false} TypingPhase(c: Config, i: nat, j: nat, k: nat)
    requires i < |c.words| && j + k <= |c.words[i]|
    ensures Run(c, State(c.words[i][..j], i, false, Armed(c.typingSpeed), []), Ticks(k))
         == State(c.words[i][..j + k], i, false, Armed(c.typingSpeed), [])
    decreases k
  {
    var s := State(c.words[i][..j], i, false, Armed(c.typingSpeed), []);
    if k > 0 {
      assert Ticks(k)[1..] == Ticks(k - 1);
      TypingTickGrows(c, s);
      assert Step(c, s, Tick) == State(c.words[i][..j + 1], i, false, Armed(c.typingSpeed), []);
      TypingPhase(c, i, j + 1, k - 1);
    }
  }

  /** Deleting: from a prefix of length `j`, `k <= j` ticks delete the last
      `k` characters, one per tick. */
  lemma {:induction false} DeletingPhase(c: Config, i: nat, j: nat, k: nat)
    requires i < |c.words| && k <= j <= |c.words[i]|
    ensures Run(c, State(c.words[i][..j], i, true, Armed(c.deletingSpeed), []), Ticks(k))
         == State(c.words[i][..j - k], i, true, Armed(c.deletingSpeed), [])
    decreases k
  {
    var s := State(c.words[i][..j], i, true, Armed(c.deletingSpeed), []);
    if k > 0 {
      assert Ticks(k)[1..] == Ticks(k - 1);
      DeletingTickShrinks(c, s);
      assert c.words[i][..j][..j - 1] == c.words[i][..j - 1];
      assert Step(c, s, Tick) == State(c.words[i][..j - 1], i, true, Armed(c.deletingSpeed), []);
      DeletingPhase(c, i, j - 1, k - 1);
    }
  }

  /** One cycle of word `i` ends at the start of the next word. */
  lemma CycleAdvances(c: Config, i: nat)
    requires i < |c.words|
    ensures Run(c, Start(c, i), Cycle(c.words[i])) == Start(c, (i + 1) % |c.words|)
  {
    var w := c.words[i];
    var n := |w|;
    assert w[..0] == "" && w[..n] == w;
    var typed := State(w, i, false, Armed(c.typingSpeed), []);
    var paused := State(w, i, false, Idle, [c.delayBetweenWords]);
    var deleting := State(w, i, true, Armed(c.deletingSpeed), []);
    var emptied := State("", i, true, Armed(c.deletingSpeed), []);
    // typing the word, then the extra tick that arms the pause
    TypingPhase(c, i, 0, n);
    assert Ticks(n + 1) == Ticks(n) + [Tick];
    RunAppend(c, Start(c, i), Ticks(n), [Tick]);
    assert Run(c, Start(c, i), Ticks(n + 1)) == paused;
    // the pause
    RunAppend(c, Start(c, i), Ticks(n + 1), [PauseElapsed]);
    assert Run(c, Start(c, i), Ticks(n + 1) + [PauseElapsed]) == deleting;
    // deleting the word, then the extra tick on the empty text
    DeletingPhase(c, i, n, n);
    RunAppend(c, deleting, Ticks(n), [Tick]);
    assert Run(c, emptied, [Tick]) == Start(c, (i + 1) % |c.words|);
    RunAppend(c, Start(c, i), Ticks(n + 1) + [PauseElapsed], Ticks(n + 1));
  }

  /** A cycle of word `i` followed by more events: the rest runs from the
      start of the next word. */
  lemma CycleThen(c: Config, i: nat, rest: seq<Event>)
    requires i < |c.words|
    ensures Run(c, Start(c, i), Cycle(c.words[i]) + rest) == Run(c, Start(c, (i + 1) % |c.words|), rest)
  {
    CycleAdvances(c, i);
    RunAppend(c, Start(c, i), Cycle(c.words[i]), rest);
  }

  /** Stepping to the next index and wrapping the remaining count is the
      same as wrapping the total count. */
  lemma WrapNext(i: nat, k: nat, n: nat)
    requires i < n && k > 0
    ensures Wrap((i + 1) % n + (k - 1), n) == Wrap(i + k, n)
  {
    assert (i + 1) % n == if i + 1 == n then 0 else i + 1;
    if i + 1 == n {
      assert Wrap(i + k, n) == Wrap(k - 1, n);
    }
  }

  /** `k` cycles starting at word `i` end at the start of word `i + k`
      wrapped around the list. */
  lemma {:induction false} RotationAdvances(c: Config, i: nat, k: nat)
    requires i < |c.words|
    ensures Run(c, Start(c, i), Rotation(c, i, k)) == Start(c, Wrap(i + k, |c.words|))
    decreases k
  {
    var n := |c.words|;
    if k > 0 {
      var next := (i + 1) % n;
      CycleThen(c, i, Rotation(c, next, k - 1));
      RotationAdvances(c, next, k - 1);
      WrapNext(i, k, n);
    }
  }

  /** After one full cycle of every word the index is back where it started
      and nothing is shown. */
  lemma FullRotation(c: Config, i: nat)
    requires i < |c.words|
    ensures Run(c, Start(c, i), Rotation(c, i, |c.words|)) == Start(c, i)
  {
    RotationAdvances(c, i, |c.words|);
    assert Wrap(i + |c.words|, |c.words|) == Wrap(i, |c.words|) == i;
  }

  /** With an empty word list the first tick throws; afterwards no timer is
      pending and every event leaves the state as it is. */
  lemma {:induction false} EmptyListHalts(c: Config, events: seq<Event>)
    requires c.words == []
    ensures var halted := Initial(c).(tick := Idle);
      Step(c, Initial(c), Tick) == halted && Run(c, halted, events) == halted
    decreases |events|
  {
    if events != [] {
      EmptyListHalts(c, events[1..]);
    }
  }
}
