# Particle field and hero typewriter

A Dafny model of the animated background shared by three sections of a single-page site
(the hero, achievements and about sections), and of the hero's typing headline.

Each section mounts a full-window canvas and runs the same engine: a pool of particles, each
with a planar position, a depth and a velocity, is spawned from the host's uniform random
source; every animation frame first advances every particle (depth step, respawn far away when
the depth falls below 1, a planar step scaled by 1000 / depth, sign flip of the planar
velocity when the particle is outside the canvas) and then scans every unordered pair once,
stroking a line between the two particles when they are closer than 120, with width
`min(1, (120 - distance) / 120)` and alpha `baseAlpha * width`. The sections differ only in
the pool size and the base alpha: 250 and 0.2 in the hero, 150 and 0.1 in achievements and
about. The `Particle` class and the effect body appear in `app/components/Hero.tsx`,
`app/components/Achievements.tsx` (lines 7-34 and 72-132) and `app/components/About.tsx`
(lines 7-34 and 62-122), copied with only the pool size and the base alpha changed; the model
has them once, with those two as parameters.

Modules:

- `Arith` — helper facts about products of reals.
- `Motion` — a particle as a value (`PState`): `Spawn` from six draws, `Advance` for one frame,
  `Run` for many frames with a canvas size per frame, and their properties.
- `Connections` — the lines of one frame as a function of the positions (`Lines`, built from
  `Row` and `LineFor` in the scan's order), and what they are: exactly the pairs `i < j` that
  pass the distance test, each once, in row order, with the falloff-scaled stroke.
- `Field` — the imperative engine: a `Canvas` whose size is changed in place, a `Particle`
  class whose `Update` changes its fields in place, and a `ParticleField` that fills its pool,
  resizes, advances every particle and runs the nested pair scan; each method is proved to
  produce what the `Motion` / `Connections` functions say.
- `Hero`, `Achievements`, `About` — each section's pool size, base alpha and mount.
- `Typewriter` — the hero headline: a state machine over the shown text, the word index, the
  typing direction and whether the two-second pause at a full word is pending.

Numbers are modelled as Dafny `real`s. The host's square root is a parameter `root`; the
proximity scan uses it exactly as the source does (`root(dx*dx + dy*dy) < 120`), and lemmas
show that, for a true square root (`IsSqrt`), this is the squared test
`dx*dx + dy*dy < 14400`. The host's random numbers are a `Draws` record of six values
in `[0, 1)`, one per `Math.random()` call of the constructor, in call order.

The typewriter is driven by timers. The effect that schedules the typing handler (100 ms
while typing, 50 ms while deleting) re-runs only when the shown text, the word index or the
direction changes. At the full word the handler sets the same text again and changes
neither of the other two, so the effect does not re-run, no typing timeout is scheduled,
and only the two-second pause is pending. The model therefore has one
pending timer at any time, and `Step` is the firing of that timer.

Since `Math.random()` returns values in `[0, 1)`, `vx` and `vy` lie in `[-0.15, 0.15)` and
`vz` in `(-2, 0]`; a spawned depth may be 0.

## Model

| member | source | states |
|---|---|---|
| Motion.Spawn | app/components/Hero.tsx:15-22 | a new particle lies on the canvas (`0 <= x < width` when the width is positive, likewise y), has depth in `[0, 1000)`, planar velocity in `[-0.15, 0.15)` and depth velocity in `(-2, 0]` |
| Motion.NextDepth | app/components/Hero.tsx:25-26 | the depth after the step and respawn is at least 1, and stays at most 1000 when it was at most 1000 and vz is non-positive |
| Motion.Reflect | app/components/Hero.tsx:31-32 | no contract of its own: the edge reflection of one velocity component; `ReflectionRule` states when the sign flips and that the speed is kept |
| Motion.Advance | app/components/Hero.tsx:24-33 | after a frame the depth is at least 1, a particle with depth at most 1000 and non-positive vz keeps both, and vz never changes |
| Motion.DepthBounded | app/components/Hero.tsx:25-26 | the depth after a frame lies in `[1, 1000]`, so the divisor `1000 / z` is never zero |
| Motion.RespawnRule | app/components/Hero.tsx:25-26 | the new depth is exactly 1000 when `z + vz < 1` and `z + vz` otherwise |
| Motion.PositionUsesNewDepth | app/components/Hero.tsx:25-29 | the planar step is scaled by the depth after the respawn, so a respawning frame moves by exactly `(vx, vy)` |
| Motion.DisplacementBound | app/components/Hero.tsx:28-29 | one frame moves a particle by at most `1000 * abs(vx)` in x and `1000 * abs(vy)` in y |
| Motion.ReflectionRule | app/components/Hero.tsx:31-32 | vx is negated exactly when the new x is outside `[0, width]` (likewise vy), speed is kept, and vz is untouched |
| Motion.Run | app/components/Hero.tsx:88-98 | no contract of its own: the particle state after one `Advance` per frame, one canvas size per frame; `RunKeepsDepth` and `RunAppend` state its properties |
| Motion.RunKeepsDepth | app/components/Hero.tsx:88-98 | over any number of frames and any resizes between them, the depth stays at most 1000 with non-positive vz, and is at least 1 once one frame has run |
| Motion.RunAppend | app/components/Hero.tsx:88-98 | running frames for sizes `a` and then for sizes `b` is running them for `a + b` |
| Connections.DistSq | app/components/Hero.tsx:71-73 | the squared planar distance is non-negative, so the square root in the test is defined |
| Connections.LineFor | app/components/Hero.tsx:71-83 | no contract of its own: the lines the inner callback strokes for the pair `(i, j)`; `LineForFacts` states its properties |
| Connections.Row | app/components/Hero.tsx:70-84 | no contract of its own: the lines of the inner loop over `j > i`, in order; `RowShape`, `RowSorted` and `RowPairs` state its properties |
| Connections.Lines | app/components/Hero.tsx:68-86 | no contract of its own: the value-level `drawConnections`, all rows in order; `LinesArePairs`, `LinesAreClosePairs` and `LineScale` state its properties |
| Connections.LineForFacts | app/components/Hero.tsx:71-83 | the pair `(i, j)` yields at most one line, exactly one iff its distance is below 120, and that line is a correct stroke of that pair |
| Connections.LinesArePairs | app/components/Hero.tsx:68-86 | every line of a frame is a correct stroke of a pair `i < j`; the pair `i < j` has a line iff its distance is below 120; lines come in row order and no pair is joined twice |
| Connections.DistanceTest | app/components/Hero.tsx:73-75 | with a true square root, `sqrt(dx*dx + dy*dy) < 120` holds iff `dx*dx + dy*dy < 14400` |
| Connections.LinesAreClosePairs | app/components/Hero.tsx:68-86 | with a true square root, the pair `i < j` has a line iff its squared distance is below 14400, and every line passes that test |
| Connections.SqrtUnique | app/components/Hero.tsx:73 | a true square root returns the unique non-negative root |
| Connections.LineScale | app/components/Hero.tsx:75-81 | every stroke width lies in `(0, 1]` and equals `1 - distance / 120`, width 1 at distance 0, and alpha lies in `(0, baseAlpha]` for a positive base alpha |
| Connections.TwoParticleScenario | app/components/Hero.tsx:68-86 | two particles 50 apart give exactly one line, of width `70 / 120` |
| Field.Particle.constructor | app/components/Hero.tsx:15-22 | the constructor's fields are `Spawn` of the canvas's current size and the six draws |
| Field.Particle.Update | app/components/Hero.tsx:24-33 | the in-place update leaves the particle in state `Advance(old state, canvas size)` |
| Field.ParticleField.constructor | app/components/Hero.tsx:53-66 | the canvas takes the window size, then the pool holds `count` fresh, distinct particles, the k-th spawned from the k-th draws on the new size |
| Field.ParticleField.SetCanvasSize | app/components/Hero.tsx:56-59 | a resize sets the canvas to the window size and moves no particle |
| Field.ParticleField.UpdateAll | app/components/Hero.tsx:92-94 | every particle of the pool advances once against the current canvas size, and the pool invariant is kept |
| Field.ParticleField.ConnectPair | app/components/Hero.tsx:71-83 | the inner loop body emits `LineFor(states, i, j)` |
| Field.ParticleField.ScanRow | app/components/Hero.tsx:70-84 | the inner loop over `j > i` emits `Row(states, i, n)`, the lines of particle i's partners in order |
| Field.ParticleField.DrawConnections | app/components/Hero.tsx:68-86 | the nested scan emits exactly `Lines(states)` |
| Field.ParticleField.Animate | app/components/Hero.tsx:88-98 | one frame advances every particle first, keeps depths in `[1, 1000]`, then draws `Lines` of the advanced positions; the pool is not replaced |
| Field.Start | app/components/Hero.tsx:46-100 | a missing canvas or 2D context starts nothing; otherwise the canvas is sized, the pool filled and the first frame run, leaving particle k at `Advance(Spawn(...))` |
| Hero.Start | app/components/Hero.tsx:46-100 | the hero mounts 250 particles and draws lines with base alpha 0.2 |
| Achievements.Start | app/components/Achievements.tsx:72-126 | the achievements section mounts 150 particles and draws lines with base alpha 0.1 |
| About.Start | app/components/About.tsx:62-116 | the about section mounts 150 particles and draws lines with base alpha 0.1 |
| Typewriter.Slice | app/components/Hero.tsx:112 | `String.prototype.slice` never returns more characters than its input has, and from position 0 it returns a prefix; `SliceDropLast` and `SlicePrefix` give the two uses exactly |
| Typewriter.HandleTyping | app/components/Hero.tsx:109-121 | the handler keeps the word index in range; typing yields a prefix of the current word and deleting a prefix of the shown text; the pause starts iff typing reached the full word; deleting continues iff the text was not yet empty |
| Typewriter.EndPause | app/components/Hero.tsx:116 | the pause callback turns the direction to deleting, keeps text and word, and keeps the invariant |
| Typewriter.Step | app/components/Hero.tsx:108-126 | the firing of the pending timer keeps the word index in range, and a newly pending pause only happens at the full word while typing; `StepKeepsInv` and `ChangesOnlyAtEnds` state the rest |
| Typewriter.SliceDropLast | app/components/Hero.tsx:112 | `prev.slice(0, -1)` drops the last character and leaves the empty string empty |
| Typewriter.SlicePrefix | app/components/Hero.tsx:112 | `word.slice(0, n)` is the prefix of length `min(n, length)` |
| Typewriter.StepKeepsInv | app/components/Hero.tsx:108-126 | every timer firing keeps the shown text a prefix of the current word and the word index in range, and a pause is pending only at the full word while typing |
| Typewriter.TypingStep | app/components/Hero.tsx:110-116 | while typing, the text grows by exactly one next character of the word; at the full word it stays and the pause starts |
| Typewriter.DeletingStep | app/components/Hero.tsx:110-120 | while deleting, the text loses its last character; at the empty text it stays empty, typing resumes and the next word, cyclically, becomes current |
| Typewriter.ChangesOnlyAtEnds | app/components/Hero.tsx:115-121 | the word index changes, and deleting turns into typing, exactly when deleting reaches the empty text; typing turns into deleting exactly when the pause at the full word ends |
| Typewriter.StepsKeepInv | app/components/Hero.tsx:108-126 | any number of timer firings from a state satisfying the invariant keeps it |
| Typewriter.TypeOut | app/components/Hero.tsx:110-116 | typing from a prefix of length k reaches the full word after `length - k` firings |
| Typewriter.DeleteOut | app/components/Hero.tsx:110-113 | deleting from a prefix of length k reaches the empty text after k firings |
| Typewriter.Cycle | app/components/Hero.tsx:108-126 | from the empty text while typing word i, `2 * length + 3` firings bring back the empty text, typing word `i + 1` modulo the number of words |
| Typewriter.Reachable | app/components/Hero.tsx:41-44 | from the initial state (empty text, first word, typing) every reachable state keeps the invariant |

## Left out

- Canvas drawing calls (`beginPath`, `moveTo`, `lineTo`, `stroke`), the `rgba(...)` colour strings and the translucent trail `fillRect` of each frame: the model returns the list of lines a frame strokes (endpoints by particle index, alpha, width).
- `requestAnimationFrame` scheduling and the cleanup that removes the resize listener and cancels the pending frame: frames are modelled as explicit calls to `Animate` (and `Run` for many frames).
- Registration of the resize listener: `SetCanvasSize` models what the listener does when it fires; the window size is a parameter.
- The timer durations (100 ms typing, 50 ms deleting, 2000 ms pause) and the clearing of a superseded timer: the typewriter model is the order of timer firings, not their timing.
- React rendering, state hooks and effect re-runs: the typewriter state is a value and `Step` is one firing of the pending timer.
- IEEE-754 floating point: numbers are exact reals, so rounding in `1000 / z`, in the square root and in the falloff is not modelled.
- `Math.sqrt` is a parameter; the lemmas that need a true square root require `IsSqrt`.
- `Math.random` is replaced by the `Draws` values passed in, each assumed in `[0, 1)`.
- The scroll-driven parallax, the section layouts and the other components (navigation bar, news, footer, page composition) are presentation only and are not part of this model.
