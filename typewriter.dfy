/** The hero headline's typing effect: a state machine over the shown text, the index of
    the current word and the typing direction. Each firing of the pending timer is one Step:
    a typing timeout runs the typing handler; the two-second pause at a full word, once
    elapsed, turns the direction to deleting. */
module Typewriter {

  const HeroWords: seq<string> := ["Innovative", "Intelligent", "Transformative"]

  /** `pausing` records that the pause timer is the pending one: at the full word the handler
      leaves the text as it is, so nothing re-renders and no typing timeout is scheduled until
      the pause ends. */
  datatype State = State(text: string, wordIndex: nat, deleting: bool, pausing: bool)

  const Initial: State := State("", 0, false, false)

  /** A position argument of String.prototype.slice, resolved against a length n:
      negative counts from the end, and the result is clamped to [0, n]. */
  function SliceIndex(k: int, n: nat): (r: nat)
    ensures r <= n
  {
    if k < 0 then (if n + k < 0 then 0 else n + k) else if k < n then k else n
  }

  /** String.prototype.slice(start, end). */
  function Slice(s: string, start: int, end: int): (r: string)
    ensures |r| <= |s|
    ensures start == 0 ==> IsPrefix(r, s)
  {
    var a, b := SliceIndex(start, |s|), SliceIndex(end, |s|);
    if a < b then s[a..b] else ""
  }

  /** `prev.slice(0, -1)` drops the last character, and leaves "" as "". */
  lemma SliceDropLast(s: string)
    ensures Slice(s, 0, -1) == if s == "" then "" else s[..|s| - 1]
  {
  }

  /** `word.slice(0, n)` is the prefix of length min(n, |word|). */
  lemma SlicePrefix(w: string, n: nat)
    ensures Slice(w, 0, n) == if n < |w| then w[..n] else w
  {
    if 0 < n && n >= |w| { assert w[0..|w|] == w; }
  }

  predicate IsPrefix(p: string, w: string) { |p| <= |w| && p == w[..|p|] }

  /** The shown text is a prefix of the current word, the index is in range, and a pending
      pause only happens at the full word while typing. */
  predicate Inv(s: State) {
    s.wordIndex < |HeroWords| && IsPrefix(s.text, HeroWords[s.wordIndex]) &&
    (s.pausing ==> !s.deleting && s.text == HeroWords[s.wordIndex])
  }

  /** The typing handler: shrink by one when deleting, otherwise show one more character
      of the current word; at the full word start the pause; at the empty text while
      deleting, switch back to typing and move on to the next word. */
  function HandleTyping(s: State): (r: State)
    requires s.wordIndex < |HeroWords|
    ensures r.wordIndex < |HeroWords|
    ensures !s.deleting ==> IsPrefix(r.text, HeroWords[s.wordIndex])
    ensures s.deleting ==> IsPrefix(r.text, s.text)
    ensures r.pausing <==> !s.deleting && s.text == HeroWords[s.wordIndex]
    ensures r.deleting <==> s.deleting && s.text != ""
  {
    var word := HeroWords[s.wordIndex];
    var text := if s.deleting then Slice(s.text, 0, -1) else Slice(word, 0, |s.text| + 1);
    if !s.deleting && s.text == word then State(text, s.wordIndex, s.deleting, true)
    else if s.deleting && s.text == "" then State(text, (s.wordIndex + 1) % |HeroWords|, false, false)
    else State(text, s.wordIndex, s.deleting, false)
  }

  /** The pause timer's callback: start deleting. */
  function EndPause(s: State): (r: State)
    ensures Inv(s) ==> Inv(r)
    ensures r.text == s.text && r.wordIndex == s.wordIndex && r.deleting
  {
    State(s.text, s.wordIndex, true, false)
  }

  /** The firing of whichever timer is pending. */
  function Step(s: State): (r: State)
    requires s.wordIndex < |HeroWords|
    ensures r.wordIndex < |HeroWords|
    ensures r.pausing ==> !r.deleting && r.text == HeroWords[r.wordIndex]
  {
    if s.pausing then EndPause(s) else HandleTyping(s)
  }

  function Steps(s: State, n: nat): State
    requires Inv(s)
    decreases n
  {
    if n == 0 then s else StepKeepsInv(s); Steps(Step(s), n - 1)
  }

  /** Every step keeps the shown text a prefix of the current word and the index in range. */
  lemma StepKeepsInv(s: State)
    requires Inv(s)
    ensures Inv(Step(s))
  {
    var w := HeroWords[s.wordIndex];
    if !s.pausing {
      if s.deleting {
        SliceDropLast(s.text);
        if s.text != "" {
          assert s.text[..|s.text| - 1] == w[..|s.text| - 1];
        }
      } else {
        SlicePrefix(w, |s.text| + 1);
        if s.text != w {
          assert |s.text| < |w| by { assert w[..|w|] == w; }
        }
      }
    }
  }

  /** A typing step that is not at the full word shows exactly one more character of the word;
      at the full word the text stays as it is and the pause starts. */
  lemma TypingStep(s: State)
    requires Inv(s) && !s.pausing && !s.deleting
    ensures var w := HeroWords[s.wordIndex];
      if s.text == w then Step(s) == State(s.text, s.wordIndex, false, true)
      else Step(s) == State(w[..|s.text| + 1], s.wordIndex, false, false) && |Step(s).text| == |s.text| + 1
  {
    var w := HeroWords[s.wordIndex];
    SlicePrefix(w, |s.text| + 1);
    if s.text == w {
      assert w[..|w|] == w;
    } else {
      assert |s.text| < |w| by { assert w[..|w|] == w; }
    }
  }

  /** A deleting step drops the last character; at "" the text stays "", the direction turns
      back to typing and the next word (cyclically) becomes current. */
  lemma DeletingStep(s: State)
    requires Inv(s) && !s.pausing && s.deleting
    ensures s.text != "" ==> Step(s) == State(s.text[..|s.text| - 1], s.wordIndex, true, false)
    ensures s.text == "" ==> Step(s) == State("", (s.wordIndex + 1) % |HeroWords|, false, false)
  {
    SliceDropLast(s.text);
  }

  /** The word index and the direction change only at the ends: the index moves (and the
      direction turns to typing) exactly when deleting reaches "", and the direction turns to
      deleting exactly when the pause at the full word ends. */
  lemma ChangesOnlyAtEnds(s: State)
    requires Inv(s)
    ensures Step(s).wordIndex != s.wordIndex <==> !s.pausing && s.deleting && s.text == ""
    ensures (s.deleting && !Step(s).deleting) <==> !s.pausing && s.deleting && s.text == ""
    ensures (!s.deleting && Step(s).deleting) <==> s.pausing
    ensures Step(s).deleting && !s.deleting ==> s.text == HeroWords[s.wordIndex]
  {
  }

  lemma {:induction false} StepsKeepInv(s: State, n: nat)
    requires Inv(s)
    ensures Inv(Steps(s, n))
    decreases n
  {
    if n > 0 {
      StepKeepsInv(s);
      StepsKeepInv(Step(s), n - 1);
    }
  }

  lemma {:induction false} StepsAdd(s: State, a: nat, b: nat)
    requires Inv(s)
    ensures Inv(Steps(s, a))
    ensures Steps(s, a + b) == Steps(Steps(s, a), b)
    decreases a
  {
    StepsKeepInv(s, a);
    if a > 0 {
      StepKeepsInv(s);
      StepsAdd(Step(s), a - 1, b);
    }
  }

  /** Typing from the prefix of length k reaches the full word after |w| - k steps. */
  lemma {:induction false} TypeOut(i: nat, k: nat)
    requires i < |HeroWords| && k <= |HeroWords[i]|
    ensures Inv(State(HeroWords[i][..k], i, false, false))
    ensures Steps(State(HeroWords[i][..k], i, false, false), |HeroWords[i]| - k) == State(HeroWords[i], i, false, false)
    decreases |HeroWords[i]| - k
  {
    var w := HeroWords[i];
    var s := State(w[..k], i, false, false);
    assert w[..k][..k] == w[..k];
    if k == |w| {
      assert w[..k] == w;
    } else {
      TypingStep(s);
      assert w[..k] != w by { assert |w[..k]| == k < |w|; }
      TypeOut(i, k + 1);
    }
  }

  /** Deleting from the prefix of length k reaches "" after k steps. */
  lemma {:induction false} DeleteOut(i: nat, k: nat)
    requires i < |HeroWords| && k <= |HeroWords[i]|
    ensures Inv(State(HeroWords[i][..k], i, true, false))
    ensures Steps(State(HeroWords[i][..k], i, true, false), k) == State("", i, true, false)
    decreases k
  {
    var w := HeroWords[i];
    var s := State(w[..k], i, true, false);
    assert w[..k][..k] == w[..k];
    if k > 0 {
      DeletingStep(s);
      assert w[..k][..k - 1] == w[..k - 1];
      DeleteOut(i, k - 1);
    }
  }

  /** One full cycle: from "" while typing word i, after 2|w| + 3 timer firings (|w| typing
      steps, the full-word step, the pause, |w| deleting steps and the step at "") the
      empty text is shown again, typing the next word. */
  lemma Cycle(i: nat)
    requires i < |HeroWords|
    ensures var w := HeroWords[i];
      Inv(State("", i, false, false)) &&
      Steps(State("", i, false, false), 2 * |w| + 3) == State("", (i + 1) % |HeroWords|, false, false)
  {
    var w := HeroWords[i];
    var s0 := State("", i, false, false);
    TypeOut(i, 0);
    assert w[..0] == "";
    var full := State(w, i, false, false);
    StepsAdd(s0, |w|, |w| + 3);
    TypingStep(full);
    var paused := State(w, i, false, true);
    assert Steps(full, |w| + 3) == Steps(paused, |w| + 2);
    var del := State(w, i, true, false);
    assert Step(paused) == del;
    assert Steps(paused, |w| + 2) == Steps(del, |w| + 1);
    DeleteOut(i, |w|);
    assert w[..|w|] == w;
    StepsAdd(del, |w|, 1);
    var empty := State("", i, true, false);
    DeletingStep(empty);
    assert Steps(empty, 1) == Steps(Step(empty), 0);
  }

  /** Every state the headline reaches from its initial state keeps the invariant. */
  lemma {:induction false} Reachable(n: nat)
    ensures Inv(Initial) && Inv(Steps(Initial, n))
  {
    StepsAdd(Initial, n, 0);
  }
}
