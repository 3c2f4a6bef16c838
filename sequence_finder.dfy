/**
 * The streaming multi-literal matcher `SequenceFinder` (ParserTranslator/SequenceFinder.cs).
 *
 * The finder is fed one character plus a one-character lookahead per call. It keeps the
 * literals that are still possible and how many characters of them have been matched so
 * far; it keeps extending while some candidate can take the lookahead, and reports the
 * literal that completed when none can. The match is greedy, with one character of
 * lookahead and no backtracking: a shorter literal that was passed over is not reported
 * (`GreedyPassesOverShorter`).
 *
 * `Step` is the finder's behaviour on a value of its state; the class `SequenceFinder`
 * implements it with the source's loops, and the lemmas state what the source promises.
 */
module ParsingTools {
  import opened Wrappers

  /** `w` is a prefix of `p`. */
  predicate IsPrefix(w: string, p: string)
  {
    |w| <= |p| && p[..|w|] == w
  }

  /** No literal occurs twice. */
  predicate NoDup(xs: seq<string>)
  {
    forall i, j :: 0 <= i < j < |xs| ==> xs[i] != xs[j]
  }

  /** LINQ `Distinct`: the first occurrence of every literal, in their original order. */
  function Distinct(xs: seq<string>): (r: seq<string>)
    ensures NoDup(r)
    ensures forall x :: x in r <==> x in xs
    ensures NoDup(xs) ==> r == xs
  {
    if xs == [] then []
    else
      var d := Distinct(xs[..|xs| - 1]);
      var x := xs[|xs| - 1];
      assert forall y :: y in xs <==> y in xs[..|xs| - 1] || y == x by {
        assert xs == xs[..|xs| - 1] + [x];
      }
      if x in d then d else d + [x]
  }

  // ----------------------------------------------------------------------------------------
  // The finder's state and one call of Look on it
  // ----------------------------------------------------------------------------------------

  /** The fields `sequences`, `possible` and `progress`. */
  datatype FinderState = FinderState(sequences: seq<string>, possible: seq<string>, progress: nat)

  /** The literals of `seqs` that begin with `w`, in configured order. */
  function WithPrefix(seqs: seq<string>, w: string): (r: seq<string>)
    ensures forall p :: p in r <==> p in seqs && IsPrefix(w, p)
    ensures |r| <= |seqs|
  {
    if seqs == [] then []
    else (if IsPrefix(w, seqs[0]) then [seqs[0]] else []) + WithPrefix(seqs[1..], w)
  }

  /** The characters passed as `c` since the last reset, read off the first candidate. */
  function Consumed(s: FinderState): string
  {
    if s.possible == [] || |s.possible[0]| < s.progress then [] else s.possible[0][..s.progress]
  }

  /**
   * The finder's invariant: `progress` characters have been consumed since the last reset,
   * and the candidates are exactly the configured literals that begin with them, in order.
   */
  predicate Inv(s: FinderState)
  {
    |Consumed(s)| == s.progress && s.possible == WithPrefix(s.sequences, Consumed(s))
  }

  /** The state `Reset()` leaves: no progress, every literal possible. */
  predicate AtStart(s: FinderState)
  {
    s.progress == 0 && s.possible == s.sequences
  }

  function ResetState(s: FinderState): FinderState
  {
    s.(possible := s.sequences, progress := 0)
  }

  /** Candidate `p` can take `c` at index `k`. */
  predicate Takes(p: string, k: nat, c: char)
  {
    k < |p| && p[k] == c
  }

  /** What the reverse `RemoveAt` loop leaves of `cands`. */
  function Survivors(cands: seq<string>, k: nat, c: char): (r: seq<string>)
  {
    if cands == [] then []
    else (if Takes(cands[0], k, c) then [cands[0]] else []) + Survivors(cands[1..], k, c)
  }

  /**
   * What the reverse loop records in `possiblyFound`: it walks from the back, so the last
   * assignment is the surviving candidate of length k+1 that comes first.
   */
  function Completed(cands: seq<string>, k: nat, c: char): Option<string>
  {
    if cands == [] then None
    else if Takes(cands[0], k, c) && |cands[0]| == k + 1 then Some(cands[0])
    else Completed(cands[1..], k, c)
  }

  /** Candidate `p` can take the lookahead at index k+1; a null lookahead equals no character. */
  predicate Extends(p: string, k: nat, next: Option<char>)
  {
    k + 1 < |p| && next == Some(p[k + 1])
  }

  /** What the `foreach`-with-`break` search computes as `nextPossible`. */
  predicate CanExtend(cands: seq<string>, k: nat, next: Option<char>)
  {
    cands != [] && (Extends(cands[0], k, next) || CanExtend(cands[1..], k, next))
  }

  /** One call of `Look(c, next)`: the new state and the reported literal. */
  function Step(s: FinderState, c: char, next: Option<char>): (FinderState, Option<string>)
  {
    if |s.sequences| == 0 then (s, None)
    else
      var surv := Survivors(s.possible, s.progress, c);
      if |surv| == 0 then (ResetState(s), None)
      else if !CanExtend(surv, s.progress, next) then (ResetState(s), Completed(s.possible, s.progress, c))
      else (s.(possible := surv, progress := s.progress + 1), None)
  }

  // ----------------------------------------------------------------------------------------
  // Lemmas about the candidate list
  // ----------------------------------------------------------------------------------------

  lemma {:induction false} WithEmptyPrefix(seqs: seq<string>)
    ensures WithPrefix(seqs, []) == seqs
  {
    if seqs != [] {
      WithEmptyPrefix(seqs[1..]);
      assert seqs == [seqs[0]] + seqs[1..];
    }
  }

  lemma {:induction false} WithPrefixNoDup(seqs: seq<string>, w: string)
    requires NoDup(seqs)
    ensures NoDup(WithPrefix(seqs, w))
  {
    if seqs != [] {
      WithPrefixNoDup(seqs[1..], w);
    }
  }

  lemma PrefixStep(w: string, c: char, p: string)
    ensures IsPrefix(w + [c], p) <==> IsPrefix(w, p) && Takes(p, |w|, c)
  {
    if IsPrefix(w, p) && Takes(p, |w|, c) {
      assert p[..|w| + 1] == p[..|w|] + [p[|w|]];
    }
    if IsPrefix(w + [c], p) {
      assert p[..|w|] == (w + [c])[..|w|];
    }
  }

  /** Filtering by `c` at index |w| turns the candidates for `w` into the candidates for `w + [c]`. */
  lemma {:induction false} SurvivorsOfWithPrefix(seqs: seq<string>, w: string, c: char)
    ensures Survivors(WithPrefix(seqs, w), |w|, c) == WithPrefix(seqs, w + [c])
  {
    if seqs != [] {
      SurvivorsOfWithPrefix(seqs[1..], w, c);
      PrefixStep(w, c, seqs[0]);
      var x, rest := seqs[0], WithPrefix(seqs[1..], w);
      var tail := WithPrefix(seqs[1..], w + [c]);
      assert Survivors(rest, |w|, c) == tail;
      if IsPrefix(w, x) {
        var all := [x] + rest;
        assert WithPrefix(seqs, w) == all;
        assert all[0] == x && all[1..] == rest;
        assert Survivors(all, |w|, c) == (if Takes(x, |w|, c) then [x] else []) + tail;
      } else {
        assert WithPrefix(seqs, w) == rest;
        assert WithPrefix(seqs, w + [c]) == tail;
      }
    }
  }

  /** Among the candidates for `w`, the one completing with `c` is `w + [c]` itself. */
  lemma {:induction false} CompletedOfWithPrefix(seqs: seq<string>, w: string, c: char)
    ensures Completed(WithPrefix(seqs, w), |w|, c) == if w + [c] in seqs then Some(w + [c]) else None
  {
    if seqs != [] {
      CompletedOfWithPrefix(seqs[1..], w, c);
      PrefixStep(w, c, seqs[0]);
      var rest := WithPrefix(seqs[1..], w);
      assert seqs == [seqs[0]] + seqs[1..];
      if IsPrefix(w, seqs[0]) {
        assert WithPrefix(seqs, w) == [seqs[0]] + rest;
        assert ([seqs[0]] + rest)[1..] == rest;
        if Takes(seqs[0], |w|, c) && |seqs[0]| == |w| + 1 {
          assert seqs[0] == seqs[0][..|w| + 1];
        }
      } else {
        assert IsPrefix(w, w + [c]);
        assert WithPrefix(seqs, w) == rest;
        assert (w + [c] in seqs) == (w + [c] in seqs[1..]);
      }
    }
  }

  lemma {:induction false} CanExtendIff(cands: seq<string>, k: nat, next: Option<char>)
    ensures CanExtend(cands, k, next) <==> exists p :: p in cands && Extends(p, k, next)
  {
    if cands != [] {
      CanExtendIff(cands[1..], k, next);
      assert forall p :: p in cands <==> p == cands[0] || p in cands[1..] by {
        assert cands == [cands[0]] + cands[1..];
      }
    }
  }

  lemma {:induction false} SurvivorsIff(cands: seq<string>, k: nat, c: char)
    ensures forall p :: p in Survivors(cands, k, c) <==> p in cands && Takes(p, k, c)
  {
    if cands != [] {
      SurvivorsIff(cands[1..], k, c);
      assert forall p :: p in cands <==> p == cands[0] || p in cands[1..] by {
        assert cands == [cands[0]] + cands[1..];
      }
    }
  }

  /** The lookahead extends a candidate for `w + [c]` exactly when it continues a configured literal. */
  lemma ExtendsIff(w: string, c: char, next: Option<char>, p: string)
    requires IsPrefix(w + [c], p)
    ensures Extends(p, |w|, next) <==> next.Some? && IsPrefix(w + [c, next.value], p)
  {
    if next.Some? {
      PrefixStep(w + [c], next.value, p);
      assert w + [c] + [next.value] == w + [c, next.value];
    }
  }

  // ----------------------------------------------------------------------------------------
  // What one call of Look promises (SequenceFinder.cs:61-114)
  // ----------------------------------------------------------------------------------------

  lemma ConsumedOfWithPrefix(seqs: seq<string>, w: string, progress: nat)
    requires |w| == progress && WithPrefix(seqs, w) != []
    ensures Consumed(FinderState(seqs, WithPrefix(seqs, w), progress)) == w
  {
    var p := WithPrefix(seqs, w)[0];
    assert p in WithPrefix(seqs, w);
  }

  lemma ResetIsValid(s: FinderState)
    ensures Inv(ResetState(s)) && Consumed(ResetState(s)) == []
  {
    WithEmptyPrefix(s.sequences);
  }

  /** `Look` keeps the invariant, and consumes `c` exactly when it extends. */
  lemma StepKeepsInv(s: FinderState, c: char, next: Option<char>)
    requires Inv(s)
    ensures Inv(Step(s, c, next).0)
    ensures Step(s, c, next).0.sequences == s.sequences
    ensures Step(s, c, next).0.progress == s.progress + 1 ==> Consumed(Step(s, c, next).0) == Consumed(s) + [c]
    ensures Step(s, c, next).0.progress != s.progress + 1 ==> AtStart(Step(s, c, next).0)
  {
    var w := Consumed(s);
    SurvivorsOfWithPrefix(s.sequences, w, c);
    ResetIsValid(s);
    var surv := Survivors(s.possible, s.progress, c);
    if |s.sequences| == 0 {
      assert s.possible == [] && s.progress == 0;
    } else if |surv| != 0 && CanExtend(surv, s.progress, next) {
      ConsumedOfWithPrefix(s.sequences, w + [c], s.progress + 1);
    }
  }

  /**
   * Look extends the match (returns null and increments `progress` by one) exactly when the
   * configured literals include one that continues the consumed text, `c` and the lookahead.
   */
  lemma LookExtendsIff(s: FinderState, c: char, next: Option<char>)
    requires Inv(s)
    ensures var (s', found) := Step(s, c, next);
      (s'.progress == s.progress + 1 && found == None && s'.possible == WithPrefix(s.sequences, Consumed(s) + [c]))
      <==> (next.Some? && exists p :: p in s.sequences && IsPrefix(Consumed(s) + [c, next.value], p))
  {
    var w := Consumed(s);
    SurvivorsOfWithPrefix(s.sequences, w, c);
    var surv := Survivors(s.possible, s.progress, c);
    CanExtendIff(surv, s.progress, next);
    forall p | p in surv ensures Extends(p, s.progress, next) <==> next.Some? && IsPrefix(w + [c, next.value], p) {
      ExtendsIff(w, c, next, p);
    }
    if next.Some? && exists p :: p in s.sequences && IsPrefix(w + [c, next.value], p) {
      var p :| p in s.sequences && IsPrefix(w + [c, next.value], p);
      assert (w + [c, next.value])[..|w| + 1] == w + [c];
      assert IsPrefix(w + [c], p);
      assert p in surv;
    }
  }

  /**
   * Look reports a literal exactly when the consumed text followed by `c` is a configured
   * literal and no configured literal continues it with the lookahead; the literal reported
   * is that text. Whenever Look does not extend it resets.
   */
  lemma LookReportsLongest(s: FinderState, c: char, next: Option<char>, lit: string)
    requires Inv(s)
    ensures Step(s, c, next).1 == Some(lit) <==>
      (lit == Consumed(s) + [c] && lit in s.sequences &&
       !(next.Some? && exists p :: p in s.sequences && IsPrefix(lit + [next.value], p)))
    ensures Step(s, c, next).0.progress != s.progress + 1 ==> Step(s, c, next).0 == ResetState(s)
  {
    var w := Consumed(s);
    LookExtendsIff(s, c, next);
    if |s.sequences| == 0 {
      assert s.possible == [] && s.progress == 0;
    } else {
      SurvivorsOfWithPrefix(s.sequences, w, c);
      CompletedOfWithPrefix(s.sequences, w, c);
      if next.Some? {
        assert w + [c] + [next.value] == w + [c, next.value];
      }
      if w + [c] in s.sequences {
        assert w + [c] in Survivors(s.possible, s.progress, c);
      }
    }
  }

  /** A reported literal is a configured literal of length progress+1 ending in `c`. */
  lemma LookFoundIsLiteral(s: FinderState, c: char, next: Option<char>)
    requires Inv(s)
    ensures var found := Step(s, c, next).1;
      found.Some? ==> found.value in s.sequences && |found.value| == s.progress + 1
                      && found.value[s.progress] == c && found.value == Consumed(s) + [c]
    ensures Step(s, c, next).1.Some? ==> AtStart(Step(s, c, next).0)
  {
    var found := Step(s, c, next).1;
    if found.Some? {
      LookReportsLongest(s, c, next, found.value);
    }
  }

  /** What a caller of `Look` relies on: the invariant, a reset at the end of input, and what is consumed. */
  lemma LookSummary(s: FinderState, c: char, next: Option<char>)
    requires Inv(s)
    ensures var (t, found) := Step(s, c, next);
      && Inv(t) && t.sequences == s.sequences
      && (next.None? ==> AtStart(t))
      && (found.Some? ==> AtStart(t) && found.value in s.sequences && found.value == Consumed(s) + [c])
      && (Consumed(t) == Consumed(s) + [c] || Consumed(t) == [])
  {
    StepKeepsInv(s, c, next);
    LookFoundIsLiteral(s, c, next);
    if next.None? {
      LookAtEndResets(s, c);
    }
  }

  /** With distinct literals, at most one candidate completes in a call. */
  lemma AtMostOneCompletes(s: FinderState, c: char, i: nat, j: nat)
    requires Inv(s) && NoDup(s.sequences)
    requires i < j < |s.possible|
    requires Takes(s.possible[i], s.progress, c) && |s.possible[i]| == s.progress + 1
    ensures !(Takes(s.possible[j], s.progress, c) && |s.possible[j]| == s.progress + 1)
  {
    var w := Consumed(s);
    WithPrefixNoDup(s.sequences, w);
    var p, q := s.possible[i], s.possible[j];
    assert p in s.possible && q in s.possible;
    CompletingCandidate(w, c, p);
    CompletingCandidate(w, c, q);
  }

  lemma CompletingCandidate(w: string, c: char, q: string)
    ensures IsPrefix(w, q) && Takes(q, |w|, c) && |q| == |w| + 1 ==> q == w + [c]
  {
    if IsPrefix(w, q) && Takes(q, |w|, c) && |q| == |w| + 1 {
      assert q == q[..|w|] + [q[|w|]];
    }
  }

  lemma FirstIsMember(xs: seq<string>)
    ensures xs != [] ==> xs[0] in xs
  {
  }

  /** If no candidate takes `c`, Look resets and reports nothing (SequenceFinder.cs:84-88). */
  lemma NoSurvivorResets(s: FinderState, c: char, next: Option<char>)
    requires Inv(s)
    requires forall p :: p in s.sequences ==> !IsPrefix(Consumed(s) + [c], p)
    ensures Step(s, c, next) == (ResetState(s), None)
  {
    var w := Consumed(s);
    SurvivorsOfWithPrefix(s.sequences, w, c);
    var surv := Survivors(s.possible, s.progress, c);
    FirstIsMember(surv);
    if |s.sequences| == 0 {
      assert s.possible == [] && s.progress == 0;
    }
  }

  /** At the end of input (null lookahead) Look never extends: it always ends in the reset state. */
  lemma LookAtEndResets(s: FinderState, c: char)
    requires Inv(s)
    ensures Step(s, c, None).0 == ResetState(s)
    ensures AtStart(Step(s, c, None).0)
  {
    CanExtendIff(Survivors(s.possible, s.progress, c), s.progress, None);
    if |s.sequences| == 0 {
      assert s.possible == [] && s.progress == 0;
    }
  }

  /** One step of the reverse `RemoveAt` loop, on a candidate that is dropped or kept. */
  lemma RemovalStep(orig: seq<string>, i: nat, k: nat, c: char, possible: seq<string>)
    requires i < |orig| && possible == orig[..i + 1] + Survivors(orig[i + 1..], k, c)
    ensures Completed(orig[i..], k, c) ==
      if Takes(orig[i], k, c) && |orig[i]| == k + 1 then Some(orig[i]) else Completed(orig[i + 1..], k, c)
    ensures !Takes(orig[i], k, c) ==> possible[..i] + possible[i + 1..] == orig[..i] + Survivors(orig[i..], k, c)
    ensures Takes(orig[i], k, c) ==> possible == orig[..i] + Survivors(orig[i..], k, c)
    ensures possible[i] == orig[i]
  {
    assert orig[i..] == [orig[i]] + orig[i + 1..];
    assert orig[..i + 1] == orig[..i] + [orig[i]];
    if !Takes(orig[i], k, c) {
      assert possible[..i] == orig[..i];
      assert possible[i + 1..] == Survivors(orig[i + 1..], k, c);
    }
  }

  /** One step of the `foreach` search for a candidate taking the lookahead. */
  lemma SearchStep(cands: seq<string>, j: nat, k: nat, next: Option<char>)
    requires j < |cands|
    ensures CanExtend(cands[j..], k, next) == (Extends(cands[j], k, next) || CanExtend(cands[j + 1..], k, next))
  {
    assert cands[j..][1..] == cands[j + 1..];
  }

  // ----------------------------------------------------------------------------------------
  // The scanning loop of the class documentation (SequenceFinder.cs:11-23)
  // ----------------------------------------------------------------------------------------

  /** The lookahead the documented loop passes at index `i`: null at the last character. */
  function LookaheadAt(text: string, i: nat): Option<char>
    requires i < |text|
  {
    if i + 1 == |text| then None else Some(text[i + 1])
  }

  /** The literals Look reports while the documented loop scans `text` from index `i`. */
  function ScanFrom(s: FinderState, text: string, i: nat): seq<string>
    requires i <= |text|
    decreases |text| - i
  {
    if i == |text| then []
    else
      var (t, found) := Step(s, text[i], LookaheadAt(text, i));
      (if found.Some? then [found.value] else []) + ScanFrom(t, text, i + 1)
  }

  lemma ScanFromStep(s: FinderState, text: string, i: nat)
    requires i < |text|
    ensures var (t, found) := Step(s, text[i], LookaheadAt(text, i));
      ScanFrom(s, text, i) == (if found.Some? then [found.value] else []) + ScanFrom(t, text, i + 1)
  {
  }

  /** `w` occurs in `text`. */
  predicate OccursIn(w: string, text: string)
  {
    exists j :: 0 <= j <= |text| && IsPrefix(w, text[j..])
  }

  /**
   * Every literal the documented loop reports is a configured literal that occurs in the
   * text: the consumed characters are always the last `progress` characters passed.
   */
  lemma {:induction false} ScanReportsOccurrences(s: FinderState, text: string, i: nat)
    requires i <= |text| && Inv(s) && s.progress <= i && Consumed(s) == text[i - s.progress..i]
    decreases |text| - i
    ensures forall k :: 0 <= k < |ScanFrom(s, text, i)| ==>
      ScanFrom(s, text, i)[k] in s.sequences && OccursIn(ScanFrom(s, text, i)[k], text)
  {
    if i < |text| {
      var (t, found) := Step(s, text[i], LookaheadAt(text, i));
      ScanStepKeeps(s, text, i);
      ScanReportsOccurrences(t, text, i + 1);
      ScanFromStep(s, text, i);
      var head := if found.Some? then [found.value] else [];
      var rest := ScanFrom(t, text, i + 1);
      forall k | 0 <= k < |head + rest|
        ensures (head + rest)[k] in s.sequences && OccursIn((head + rest)[k], text)
      {
        if k >= |head| {
          assert (head + rest)[k] == rest[k - |head|];
        }
      }
    }
  }

  /** One step of the documented loop keeps what the finder has consumed a suffix of the text read. */
  lemma ScanStepKeeps(s: FinderState, text: string, i: nat)
    requires i < |text| && Inv(s) && s.progress <= i && Consumed(s) == text[i - s.progress..i]
    ensures var (t, found) := Step(s, text[i], LookaheadAt(text, i));
      && Inv(t) && t.sequences == s.sequences && t.progress <= i + 1
      && Consumed(t) == text[i + 1 - t.progress..i + 1]
      && (found.Some? ==> found.value in s.sequences && OccursIn(found.value, text))
  {
    var (t, found) := Step(s, text[i], LookaheadAt(text, i));
    LookSummary(s, text[i], LookaheadAt(text, i));
    var start := i - s.progress;
    assert text[start..i + 1] == text[start..i] + [text[i]];
    if Consumed(t) == [] {
      assert text[i + 1 - t.progress..i + 1] == [];
    }
    if found.Some? {
      assert IsPrefix(found.value, text[start..]);
    }
  }

  /** At the start, a character that begins neither ":=" nor "+" leaves the finder where it was. */
  lemma DocExampleSkip(c: char, next: Option<char>)
    requires c != ':' && c != '+'
    ensures Step(FinderState([":=", "+"], [":=", "+"], 0), c, next) == (FinderState([":=", "+"], [":=", "+"], 0), None)
  {
    var lits: seq<string> := [":=", "+"];
    assert lits[1..] == ["+"] && lits[1..][1..] == [];
    assert !Takes(lits[0], 0, c) && !Takes(lits[1], 0, c);
    assert Survivors(lits[1..][1..], 0, c) == [];
    assert Survivors(lits[1..], 0, c) == [];
    assert Survivors(lits, 0, c) == [];
  }

  /** The second half of the example: " x + 7" from index 4 reports "+". */
  lemma DocExampleTail()
    ensures ScanFrom(FinderState([":=", "+"], [":=", "+"], 0), "a := x + 7", 4) == ["+"]
  {
    var lits: seq<string> := [":=", "+"];
    var text := "a := x + 7";
    var start := FinderState(lits, lits, 0);
    assert lits[1..] == ["+"] && lits[1..][1..] == [];
    DocExampleSkip('7', None);
    ScanFromStep(start, text, 9);
    DocExampleSkip(' ', Some('7'));
    ScanFromStep(start, text, 8);
    assert Survivors(lits[1..][1..], 0, '+') == [];
    assert Survivors(lits[1..], 0, '+') == ["+"];
    assert Survivors(lits, 0, '+') == ["+"];
    assert Completed(lits[1..], 0, '+') == Some("+");
    assert Completed(lits, 0, '+') == Some("+");
    ScanFromStep(start, text, 7);
    DocExampleSkip(' ', Some('+'));
    ScanFromStep(start, text, 6);
    DocExampleSkip('x', Some(' '));
    ScanFromStep(start, text, 5);
    DocExampleSkip(' ', Some('x'));
    ScanFromStep(start, text, 4);
  }

  /** ":" starts ":=" because "=" follows; "=" then completes it. */
  lemma DocExampleAssign()
    ensures Step(FinderState([":=", "+"], [":=", "+"], 0), ':', Some('=')) == (FinderState([":=", "+"], [":="], 1), None)
    ensures Step(FinderState([":=", "+"], [":="], 1), '=', Some(' ')) == (FinderState([":=", "+"], [":=", "+"], 0), Some(":="))
  {
    var lits: seq<string> := [":=", "+"];
    assert lits[1..] == ["+"] && lits[1..][1..] == [];
    assert [":="][1..] == [];
    assert Survivors([":="], 1, '=') == [":="];
    assert Completed([":="], 1, '=') == Some(":=");
    assert !CanExtend([":="], 1, Some(' '));
    assert Survivors(lits[1..][1..], 0, ':') == [];
    assert Survivors(lits[1..], 0, ':') == [];
    assert Survivors(lits, 0, ':') == [":="];
    assert CanExtend([":="], 0, Some('='));
  }

  /** After ":", the "=" at index 3 completes ":=", and the rest reports "+". */
  lemma DocExampleEquals()
    ensures ScanFrom(FinderState([":=", "+"], [":="], 1), "a := x + 7", 3) == [":=", "+"]
  {
    var text := "a := x + 7";
    var colon := FinderState([":=", "+"], [":="], 1);
    assert text[3] == '=' && text[4] == ' ';
    DocExampleTail();
    DocExampleAssign();
    ScanFromStep(colon, text, 3);
  }

  /** From index 2, ":= x + 7" reports ":=" and then "+". */
  lemma DocExampleMiddle()
    ensures ScanFrom(FinderState([":=", "+"], [":=", "+"], 0), "a := x + 7", 2) == [":=", "+"]
  {
    var lits: seq<string> := [":=", "+"];
    var text := "a := x + 7";
    assert text[2] == ':' && text[3] == '=';
    DocExampleEquals();
    DocExampleAssign();
    ScanFromStep(FinderState(lits, lits, 0), text, 2);
  }

  /** The example of the class documentation: scanning "a := x + 7" for ":=" and "+". */
  lemma DocExample()
    ensures ScanFrom(ResetState(FinderState([":=", "+"], [], 0)), "a := x + 7", 0) == [":=", "+"]
  {
    var lits: seq<string> := [":=", "+"];
    var text := "a := x + 7";
    var start := FinderState(lits, lits, 0);
    assert lits[1..] == ["+"] && lits[1..][1..] == [];
    assert text[0] == 'a' && text[1] == ' ' && text[2] == ':';
    DocExampleMiddle();
    DocExampleSkip(' ', Some(':'));
    ScanFromStep(start, text, 1);
    assert ScanFrom(start, text, 1) == [":=", "+"];
    DocExampleSkip('a', Some(' '));
    ScanFromStep(start, text, 0);
  }

  /**
   * The match is greedy with one character of lookahead and never backtracks: with "=" and
   * "=+=", scanning "=+x" reports nothing although "=" occurs in it. The "+" extends the
   * match past "=", and the "x" then ends it short of "=+=".
   */
  lemma GreedyPassesOverShorter()
    ensures ScanFrom(FinderState(["=", "=+="], ["=", "=+="], 0), "=+x", 0) == []
    ensures OccursIn("=", "=+x")
  {
    var lits: seq<string> := ["=", "=+="];
    var text := "=+x";
    var start := FinderState(lits, lits, 0);
    assert lits[1..] == ["=+="] && lits[1..][1..] == [];
    assert text[0] == '=' && text[1] == '+' && text[2] == 'x';
    assert Survivors(lits[1..], 0, 'x') == [];
    assert Survivors(lits, 0, 'x') == [];
    ScanFromStep(start, text, 2);
    assert Survivors(lits[1..], 1, '+') == ["=+="];
    assert Survivors(lits, 1, '+') == ["=+="];
    assert Completed(lits, 1, '+') == None;
    assert !CanExtend(["=+="], 1, Some('x'));
    ScanFromStep(FinderState(lits, lits, 1), text, 1);
    assert Survivors(lits[1..], 0, '=') == ["=+="];
    assert Survivors(lits, 0, '=') == lits;
    assert CanExtend(lits, 0, Some('+'));
    ScanFromStep(start, text, 0);
    assert IsPrefix("=", text[0..]);
  }

  // ----------------------------------------------------------------------------------------
  // The class
  // ----------------------------------------------------------------------------------------

  class SequenceFinder {
    var sequences: seq<string>   // the literals looked for, de-duplicated
    var possible: seq<string>    // the literals still possible
    var progress: nat            // how many characters of them have been matched

    function State(): FinderState
      reads this
    {
      FinderState(sequences, possible, progress)
    }

    predicate Valid()
      reads this
    {
      NoDup(sequences) && Inv(State())
    }

    /** SequenceFinder(IEnumerable<string>) */
    constructor (literals: seq<string>)
      ensures Valid() && sequences == Distinct(literals) && AtStart(State())
    {
      sequences, possible, progress := [], [], 0;
      new;
      ResetTo(literals);
    }

    /** SequenceFinder(string): a finder for one literal. */
    constructor Single(symbol: string)
      ensures Valid() && sequences == [symbol] && AtStart(State())
    {
      sequences, possible, progress := [], [], 0;
      new;
      ResetTo([symbol]);
    }

    /** SequenceFinder(): a finder for nothing. */
    constructor Nothing()
      ensures Valid() && sequences == [] && AtStart(State())
    {
      sequences, possible, progress := [], [], 0;
      new;
      ResetTo([]);
    }

    /** Reset(): progress back to 0 and `possible` rebuilt as `sequences`, in order. */
    method Reset()
      requires NoDup(sequences)
      modifies this
      ensures sequences == old(sequences) && possible == sequences && progress == 0
      ensures Valid()
    {
      progress := 0;
      possible := [];
      for i := 0 to |sequences|
        invariant sequences == old(sequences) && progress == 0
        invariant possible == sequences[..i]
      {
        possible := possible + [sequences[i]];
      }
      ResetIsValid(State());
    }

    /** Reset(IEnumerable<string>): replaces the literals by their de-duplication, then resets. */
    method ResetTo(replacementSequences: seq<string>)
      modifies this
      ensures sequences == Distinct(replacementSequences) && possible == sequences && progress == 0
      ensures Valid()
    {
      sequences := Distinct(replacementSequences);
      Reset();
    }

    /**
     * The reverse `for` loop of Look: removes, in place, every candidate that cannot take `c`
     * at index `progress`, and returns the surviving candidate that `c` completes, if any.
     */
    method RemoveImpossible(c: char) returns (possiblyFound: Option<string>)
      modifies this`possible
      ensures possible == Survivors(old(possible), progress, c)
      ensures possiblyFound == Completed(old(possible), progress, c)
    {
      possiblyFound := None;
      ghost var orig := possible;
      var i := |possible|;
      assert orig[i..] == [] && orig[..i] == orig;
      while i > 0
        invariant 0 <= i <= |orig|
        invariant possible == orig[..i] + Survivors(orig[i..], progress, c)
        invariant possiblyFound == Completed(orig[i..], progress, c)
      {
        i := i - 1;
        RemovalStep(orig, i, progress, c, possible);
        var p := possible[i];
        if |p| <= progress || p[progress] != c {
          possible := possible[..i] + possible[i + 1..];
        } else if |p| == progress + 1 {
          possiblyFound := Some(p); // possible match found
        }
      }
      assert orig[0..] == orig && orig[..0] == [];
    }

    /** The `foreach` search of Look: is any candidate still possible with the lookahead? */
    method AnyExtends(next: Option<char>) returns (nextPossible: bool)
      ensures nextPossible == CanExtend(possible, progress, next)
    {
      nextPossible := false;
      var j := 0;
      while j < |possible|
        invariant 0 <= j <= |possible|
        invariant CanExtend(possible, progress, next) == CanExtend(possible[j..], progress, next)
      {
        SearchStep(possible, j, progress, next);
        var p := possible[j];
        if progress + 1 < |p| && next == Some(p[progress + 1]) {
          nextPossible := true;
          break;
        }
        j := j + 1;
      }
    }

    /** Look(c, next): feeds one character with its lookahead; reports the literal completed, if any. */
    method Look(c: char, next: Option<char>) returns (found: Option<string>)
      requires Valid()
      modifies this
      ensures Valid()
      ensures (State(), found) == Step(old(State()), c, next)
      ensures old(|sequences|) == 0 ==> found == None && State() == old(State())
      ensures found.Some? ==> found.value in sequences && found.value == old(Consumed(State())) + [c]
    {
      ghost var s0 := State();
      StepKeepsInv(s0, c, next);
      LookFoundIsLiteral(s0, c, next);
      if |sequences| == 0 {
        return None; // nothing to look for
      }

      var possiblyFound := RemoveImpossible(c);

      if |possible| == 0 {
        Reset(); // give up: no literal is possible
        return None;
      }

      var nextPossible := AnyExtends(next);

      if !nextPossible {
        Reset();
        return possiblyFound;
      } else {
        progress := progress + 1;
        return None;
      }
    }
  }

  lemma AppendReports(a: seq<string>, b: seq<string>, c: seq<string>)
    ensures (a + b) + c == a + (b + c)
  {
  }

  /**
   * The documented loop (SequenceFinder.cs:11-23): a new finder over `literals` looks at
   * every character of `text` with its lookahead; the literals it reports are collected.
   */
  method FindAll(literals: seq<string>, text: string) returns (found: seq<string>)
    ensures found == ScanFrom(ResetState(FinderState(Distinct(literals), [], 0)), text, 0)
    ensures forall k :: 0 <= k < |found| ==> found[k] in literals && OccursIn(found[k], text)
  {
    var finder := new SequenceFinder(literals);
    assert finder.State() == ResetState(FinderState(Distinct(literals), [], 0));
    ghost var goal := ScanFrom(finder.State(), text, 0);
    found := [];
    for i := 0 to |text|
      invariant finder.Valid()
      invariant found + ScanFrom(finder.State(), text, i) == goal
    {
      var next := if i == |text| - 1 then None else Some(text[i + 1]);
      ghost var before := finder.State();
      ghost var found0 := found;
      ScanFromStep(before, text, i);
      var sequence := finder.Look(text[i], next);
      ghost var rest := ScanFrom(finder.State(), text, i + 1);
      ghost var reported := if sequence.Some? then [sequence.value] else [];
      assert ScanFrom(before, text, i) == reported + rest;
      if sequence.Some? {
        found := found + [sequence.value];
      }
      assert found == found0 + reported;
      AppendReports(found0, reported, rest);
    }
    assert found == goal;
    ScanReportsOccurrences(ResetState(FinderState(Distinct(literals), [], 0)), text, 0);
  }
}
