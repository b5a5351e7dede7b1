# Typewriter hook of the portfolio hero section

This project models `useTypewriter`, the React hook behind the animated role
line of the portfolio's hero section. The hook cycles through a list of words.
It types each word one character per tick, waits, deletes it one character per
tick, and moves on to the next word, forever. The hook keeps three React state
cells: `text`, `wordIndex` and `isDeleting`. A timer callback overwrites them
on each tick.

The model replaces React's timers and effect scheduling with explicit events:

- `Tick` is the tick timer firing (the `setTimeout` that each run of the effect arms).
- `PauseElapsed` is the one-shot pause timer firing (the nested `setTimeout`).

The state (`Typewriter.State`) holds the three cells. It also holds the pending
tick timer with the delay it was armed with, and the queue of pending pause
timers. React's re-run rule is modelled exactly. After the setters run, the
effect runs again only when `text`, `isDeleting` or `wordIndex` changed. When
it runs again, the cleanup clears the old tick timer and a new one is armed.
When nothing changed, React bails out and no new tick is armed.

Modules:

- `JsString`: the function `Substring` models JavaScript's `substring`, which clamps both indices between 0 and the string length.
- `Typewriter`: the configuration, the state, the pure step functions `TickStep` and `PauseStep`, the invariant `Inv`, and one lemma per kind of tick.
- `Traces`: runs over event sequences. These give the typing and deleting phases, one word's full cycle, and the wrap-around after a full rotation of the list.
- `Hook`: the class `TypewriterHook`. Its fields are the state cells and timers. Its `Tick` and `PauseElapsed` methods update those fields step by step, the way the callbacks do. Each method is proved to equal the matching step function and to keep the invariant.
- `Hero`: the production call `useTypewriter(roles, 100, 50, 2000)` with the three roles, plus two concrete traces.

What the code does, as proved here:

- A typing tick on a proper prefix of the word makes the text exactly one character longer.
- A typing tick on the complete word leaves the text unchanged. The effect does not re-run, and the one pause timer is armed. Until that pause fires, the machine is idle.
- After the pause, deleting ticks each remove exactly one character.
- One more deleting tick on `""` switches back to typing and advances the index modulo the list length.
- So each word of length `n` takes `n + 1` typing ticks, one pause and `n + 1` deleting ticks.
- After `words.length` cycles, the index is back where it started.
- Under the invariant, exactly one callback is pending at any time.

Where the code differs from an idealised typewriter, the model follows the code:

- Nothing validates the configuration. With an empty word list, the first tick throws a TypeError, because `undefined.substring` is called. From then on nothing is pending, and the model halts (`Traces.EmptyListHalts`). Negative delays are passed on unchanged.
- An empty word is accepted: it takes one tick, then the pause, then one tick.
- The pause does not start as soon as the last character is typed. The code needs one extra typing tick before the pause is armed, and one extra deleting tick on `""` before the index advances (`Hero.GoCycleTrace`).
- Changing the word list while mounted does not reset the text or the index. Here the list is constant.

## Model

| member | source | states |
|---|---|---|
| JsString.Substring | src/components/Hero.jsx:22-27 | the result is never longer than the string; when either index is at most 0 it is a prefix of the string, whichever order the indices come in; with one index at most 0 and the other at or past the end it is the whole string |
| JsString.SubstringFromZero | src/components/Hero.jsx:22-27 | `substring(0, k)` never fails; it gives the prefix of the word whose length is `k` clamped between 0 and the word's length |
| JsString.SubstringExtends | src/components/Hero.jsx:22 | for a proper prefix `text`, `substring(0, text.length + 1)` is the prefix one character longer, and it extends `text` |
| JsString.SubstringTruncates | src/components/Hero.jsx:27 | `substring(0, text.length - 1)` drops the last character of a non-empty prefix, and gives `""` for `""` |
| Typewriter.TickStep | src/components/Hero.jsx:19-35 | for every state: with no tick pending nothing happens; a throwing callback only clears the tick timer; otherwise the text becomes a prefix of the word the callback read, at most one character longer when typing and shorter or `""` when deleting; `wordIndex` changes only on a deleting tick on `""`, to `(wordIndex + 1) % words.length`, which is also the only switch of `isDeleting`; at most one pause timer of `delayBetweenWords` is added, and only when typing; a pending tick timer carries the delay of the new mode |
| Typewriter.PauseStep | src/components/Hero.jsx:24 | with no pause pending nothing happens; otherwise the oldest pause leaves the queue, `isDeleting` becomes true, text and index are untouched, and a deleting tick is armed exactly when the mode switched |
| Traces.NextDelay | src/components/Hero.jsx:34 | under the invariant, after any event a pending tick timer is armed with `deletingSpeed` when deleting and `typingSpeed` otherwise |
| Typewriter.Initial | src/components/Hero.jsx:12-19 | after mounting: `text == ""`, `wordIndex == 0`, typing, tick timer armed with `typingSpeed`, no pause pending |
| Typewriter.InitialInv | src/components/Hero.jsx:12-19 | with a non-empty list, the initial state satisfies the invariant (index in range, text a prefix of the word, one pending callback with the right delay) |
| Typewriter.TickStepInv | src/components/Hero.jsx:17-35 | a tick keeps the invariant |
| Typewriter.PauseStepInv | src/components/Hero.jsx:24 | the pause keeps the invariant |
| Typewriter.ExactlyOnePending | src/components/Hero.jsx:19-24 | under the invariant, exactly one of the tick timer and the pause timers is pending |
| Typewriter.TypingTickGrows | src/components/Hero.jsx:21-22 | typing tick with `text` shorter than the word: the text grows by exactly one character of the word; index and mode unchanged; the next typing tick is armed |
| Typewriter.TypingTickOnCompleteWord | src/components/Hero.jsx:22-25 | typing tick with `text == word`: the text is unchanged; no tick is re-armed; exactly one pause timer of `delayBetweenWords` is pending |
| Typewriter.IdleUntilPause | src/components/Hero.jsx:22-24 | while only the pause is pending, a tick does nothing; the pause sets `isDeleting` and arms a deleting tick |
| Typewriter.DeletingTickShrinks | src/components/Hero.jsx:26-27 | deleting tick on non-empty text: the text loses exactly its last character; index and mode unchanged; the next deleting tick is armed |
| Typewriter.DeletingTickOnEmpty | src/components/Hero.jsx:27-31 | deleting tick on `""`: the text stays `""`, typing resumes, and the index becomes `(wordIndex + 1) % words.length` |
| Traces.RunInv | src/components/Hero.jsx:16-38 | every sequence of events keeps the invariant: text is a prefix of `words[wordIndex]` and `0 <= wordIndex < words.length` |
| Traces.TypingPhase | src/components/Hero.jsx:21-22 | `k` typing ticks type the next `k` characters of the word |
| Traces.DeletingPhase | src/components/Hero.jsx:26-27 | `k` deleting ticks delete the last `k` characters |
| Traces.CycleAdvances | src/components/Hero.jsx:19-35 | for a word of length `n`: `n + 1` ticks, the pause and `n + 1` ticks take the start of word `i` to the start of word `(i + 1) % words.length` |
| Traces.RotationAdvances | src/components/Hero.jsx:30 | `k` cycles from word `i` end at the start of word `i + k`, wrapped around the list |
| Traces.FullRotation | src/components/Hero.jsx:30 | after `words.length` full cycles, the index is back at its start and the text is `""` |
| Traces.EmptyListHalts | src/components/Hero.jsx:17-22 | with an empty list, the first tick throws; it changes no cell, nothing stays pending, and every later event changes nothing |
| Hook.TypewriterHook.constructor | src/components/Hero.jsx:11-19 | mounting stores the arguments with their defaults and gives the initial state, which satisfies the invariant |
| Hook.TypewriterHook.Rerun | src/components/Hero.jsx:37-38 | the effect's re-run on the object's fields agrees with `Rerender`, which has no contract of its own: only the tick timer may change, and it is cleared and re-armed with the current mode's delay exactly when `text`, `isDeleting` or `wordIndex` changed |
| Hook.TypewriterHook.Tick | src/components/Hero.jsx:19-35 | the tick callback's updates equal `TickStep` and keep the invariant; `ok` is false exactly when the callback throws |
| Hook.TypewriterHook.PauseElapsed | src/components/Hero.jsx:24 | the pause callback equals `PauseStep` and keeps the invariant |
| Hook.TypewriterHook.Text | src/components/Hero.jsx:40 | the returned text is a prefix of the current word; with an empty list it is `""` |
| Hook.MountDefaults | src/components/Hero.jsx:11-14 | calling the hook with only its word list gives the delays 100, 50 and 2000 (`DefaultConfig`) and starts in `Initial` |
| Hero.HeroConfig | src/components/Hero.jsx:269 | the hero passes the three roles with delays 100, 50 and 2000, which are the defaults |
| Hero.HeroCycles | src/constants/index.js:232-236 | for the three roles, every run keeps the invariant, and three cycles return to the initial state |
| Hero.HeroFirstTicks | src/components/Hero.jsx:269 | the hero's first four ticks show "F", "Fu", "Ful", "Full" |
| Hero.GoCycleTrace | src/components/Hero.jsx:19-35 | for the words "Go" and "Rust" with no pause, one cycle of "Go" shows "G", "Go", "Go", "Go", "G", "", "" |
| Hero.HeroShowsFull | src/components/Hero.jsx:269 | a client that mounts the hero's hook object and fires four ticks reads "Full" |

## Left out

- Real time. Timers are events, not clock readings. The model does not say when an event fires; it only records the delay each timer was armed with. The order of two pending pause timers is taken to be the order they were armed in.
- Teardown. The cleanup `clearTimeout` at src/components/Hero.jsx:37 clears only the tick timer. A pause timer armed at line 24 is never cleared, so after unmount it can still call `setIsDeleting`. Unmounting is runtime teardown and is not modelled.
- Changing the word list or the delays while mounted. They are dependencies of the effect, but in the hero they are constants, so they are fixed here.
- JavaScript numbers. Delays and indices are unbounded integers. Non-integer delays, and the browser's clamping of negative delays to 0, are not modelled.
- JavaScript strings. They are sequences of UTF-16 code units; here a string is a `seq<char>`.
- React rendering itself, and the blinking cursor drawn beside the text.
- The pointer tilt of the face card and the hero parallax (src/components/Hero.jsx:145-171, 273-276). These are floating-point maps fed into framer-motion springs, whose behaviour is not visible here.
- The 3D scenes, the contact form and its email call, the navigation bar, the experience layout and the static content of the other components. They hold no state-machine logic; they are views, rendering or foreign calls.
