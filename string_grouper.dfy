/**
 * The bracket/barrier grouping tokenizer `StringGrouper` (ParserTranslator/StringGrouper.cs).
 *
 * The grouper pulls characters from a cursor. It feeds each (previous, current) pair to a
 * `SequenceFinder` configured with the barrier and bracket literals. It keeps a depth per
 * opening bracket, an on/off status per barrier and an `active` flag (top level). On an
 * active/inactive transition it emits the buffered text as a `Group`.
 *
 * `NextGroupSpec` is one call of `NextGroup` on a value of the grouper's state; the class
 * `StringGrouper` implements it with the source's loop, and the lemmas state what it does.
 * The cursor is the sequence `chars` with the count `pulled` of characters delivered so far.
 */
module ParserTranslation {
  import opened Wrappers
  import opened ParsingTools

  // ----------------------------------------------------------------------------------------
  // Configuration (StringGrouper.ClassParameters)
  // ----------------------------------------------------------------------------------------

  type Bracket = (string, string)   // (opening, closing)

  datatype ClassParameters = ClassParameters(brackets: seq<Bracket>, barriers: seq<string>, includeEmpty: bool)

  /** The ClassParameters constructor: a null collection stands for an empty one. */
  function MakeParameters(brackets: Option<seq<Bracket>>, barriers: Option<seq<string>>, includeEmpty: bool)
    : (p: ClassParameters)
    ensures brackets.None? ==> p.brackets == []
    ensures brackets.Some? ==> p.brackets == brackets.value
    ensures barriers.None? ==> p.barriers == []
    ensures barriers.Some? ==> p.barriers == barriers.value
    ensures p.includeEmpty == includeEmpty
  {
    ClassParameters(if brackets.None? then [] else brackets.value,
                    if barriers.None? then [] else barriers.value,
                    includeEmpty)
  }

  /** Every opening and closing literal, pair by pair (`SelectMany`). */
  function Flatten(brackets: seq<Bracket>): (r: seq<string>)
    ensures |r| == 2 * |brackets|
    ensures forall i :: 0 <= i < |brackets| ==> r[2 * i] == brackets[i].0 && r[2 * i + 1] == brackets[i].1
  {
    if brackets == [] then []
    else
      var rest := Flatten(brackets[1..]);
      assert forall i :: 1 <= i < |brackets| ==> brackets[i] == brackets[1..][i - 1];
      [brackets[0].0, brackets[0].1] + rest
  }

  /** The finder's literals: the barriers, then every opening and closing literal. */
  function Literals(p: ClassParameters): (r: seq<string>)
    ensures |r| == |p.barriers| + 2 * |p.brackets|
    ensures r[..|p.barriers|] == p.barriers
    ensures forall i :: 0 <= i < |p.brackets| ==>
      r[|p.barriers| + 2 * i] == p.brackets[i].0 && r[|p.barriers| + 2 * i + 1] == p.brackets[i].1
  {
    p.barriers + Flatten(p.brackets)
  }

  predicate DistinctKeys(ps: seq<Bracket>)
  {
    forall i, j :: 0 <= i < j < |ps| ==> ps[i].0 != ps[j].0
  }

  /** LINQ `ToDictionary` on pairs; it throws on a repeated key, which callers must avoid. */
  function ToDictionary(ps: seq<Bracket>): map<string, string>
    requires DistinctKeys(ps)
  {
    if ps == [] then map[]
    else
      var init := ps[..|ps| - 1];
      var last := ps[|ps| - 1];
      assert forall i :: 0 <= i < |init| ==> init[i] == ps[i];
      ToDictionary(init)[last.0 := last.1]
  }

  /** The dictionary has exactly the pairs' keys, and maps each key to its pair's value. */
  lemma {:induction false} ToDictionaryContents(ps: seq<Bracket>)
    requires DistinctKeys(ps)
    ensures forall k :: k in ToDictionary(ps) <==> exists i :: 0 <= i < |ps| && ps[i].0 == k
    ensures forall i :: 0 <= i < |ps| ==> ps[i].0 in ToDictionary(ps) && ToDictionary(ps)[ps[i].0] == ps[i].1
    decreases |ps|
  {
    if ps != [] {
      var init := ps[..|ps| - 1];
      var last := ps[|ps| - 1];
      assert forall i :: 0 <= i < |init| ==> init[i] == ps[i];
      ToDictionaryContents(init);
      var m := ToDictionary(ps);
      forall k
        ensures k in m <==> exists i :: 0 <= i < |ps| && ps[i].0 == k
      {
        if k in m && k != last.0 {
          var i :| 0 <= i < |init| && init[i].0 == k;
          assert ps[i].0 == k;
        }
        if k != last.0 && exists i :: 0 <= i < |ps| && ps[i].0 == k {
          var i :| 0 <= i < |ps| && ps[i].0 == k;
          assert i < |init|;
          assert init[i].0 == k;
        }
      }
    }
  }

  function Swapped(ps: seq<Bracket>): (r: seq<Bracket>)
    ensures |r| == |ps| && forall i :: 0 <= i < |ps| ==> r[i] == (ps[i].1, ps[i].0)
  {
    seq(|ps|, i requires 0 <= i < |ps| => (ps[i].1, ps[i].0))
  }

  /** What the `Parameters` setter demands: `ToDictionary` throws on a repeated opening or closing. */
  predicate Admissible(p: ClassParameters)
  {
    DistinctKeys(p.brackets) && DistinctKeys(Swapped(p.brackets))
  }

  function OpeningMap(p: ClassParameters): map<string, string>
    requires Admissible(p)
  {
    ToDictionary(p.brackets)
  }

  function ClosingMap(p: ClassParameters): map<string, string>
    requires Admissible(p)
  {
    ToDictionary(Swapped(p.brackets))
  }

  function BarrierSet(p: ClassParameters): set<string>
  {
    set b | b in p.barriers
  }

  // ----------------------------------------------------------------------------------------
  // Groups (StringGrouper.Group)
  // ----------------------------------------------------------------------------------------

  datatype WrappingType = Brackets | Barriers

  /** The internal constructor Group(text, opening, closing, wrapType) is the datatype's own. */
  datatype Group = Group(text: string, openingSequence: Option<string>, closingSequence: Option<string>,
                         wrapType: Option<WrappingType>)
  {
    /** `WrapType != null`: the group carries one of the two wrap types. */
    predicate IsWrapped(): (r: bool)
      ensures r <==> wrapType == Some(Brackets) || wrapType == Some(Barriers)
    {
      assert wrapType.Some? ==> wrapType.value.Brackets? || wrapType.value.Barriers?;
      wrapType.Some?
    }

    /** The text is empty; then so is the text unwrapped, and for a plain group the converse holds. */
    predicate Empty(): (r: bool)
      ensures r <==> |text| == 0
      ensures r && Unwrappable() ==> UnWrapped() == ""
      ensures !IsWrapped() ==> (r <==> UnWrapped() == "")
    {
      text == ""
    }

    /** What `UnWrapped` needs not to throw: both literals present and not longer than the text. */
    predicate Unwrappable()
    {
      IsWrapped() ==> openingSequence.Some? && closingSequence.Some?
                      && |openingSequence.value| + |closingSequence.value| <= |text|
    }

    /** The text without its opening and closing literals; the text itself when unwrapped. */
    function UnWrapped(): (r: string)
      requires Unwrappable()
      ensures !IsWrapped() ==> r == text
      ensures IsWrapped() ==>
        |r| == |text| - |openingSequence.value| - |closingSequence.value|
        && text == text[..|openingSequence.value|] + r + text[|text| - |closingSequence.value|..]
    {
      if !IsWrapped() then text
      else
        var o, c := |openingSequence.value|, |closingSequence.value|;
        assert text == text[..o] + text[o..|text| - c] + text[|text| - c..];
        text[o..|text| - c]
    }

    /** Nothing between the literals of a wrapped group; an empty text for a plain one. */
    predicate EmptyUnwrapped(): (r: bool)
      requires Unwrappable()
      ensures IsWrapped() ==> (r <==> |text| == |openingSequence.value| + |closingSequence.value|)
      ensures !IsWrapped() ==> (r <==> Empty())
    {
      UnWrapped() == ""
    }
  }

  /** The public constructor Group(text, opening, closing): the wrap type follows from the literals. */
  function MakeGroup(text: string, openingSequence: Option<string>, closingSequence: Option<string>): (g: Group)
    ensures g.text == text && g.openingSequence == openingSequence && g.closingSequence == closingSequence
    ensures g.IsWrapped() <==> openingSequence.Some? && closingSequence.Some?
    ensures g.wrapType == Some(Barriers) <==> openingSequence.Some? && openingSequence == closingSequence
  {
    var wrapType :=
      if openingSequence.None? || closingSequence.None? then None
      else if openingSequence == closingSequence then Some(Barriers)
      else Some(Brackets);
    Group(text, openingSequence, closingSequence, wrapType)
  }

  /** Group(text): a plain group. */
  function PlainGroup(text: string): (g: Group)
    ensures !g.IsWrapped() && g.text == text && g.UnWrapped() == text
  {
    Group(text, None, None, None)
  }

  /** Unwrapping a group built from opening + inside + closing gives back the inside. */
  lemma UnwrapRoundTrip(opening: string, inside: string, closing: string)
    ensures MakeGroup(opening + inside + closing, Some(opening), Some(closing)).Unwrappable()
    ensures MakeGroup(opening + inside + closing, Some(opening), Some(closing)).UnWrapped() == inside
  {
    var t := opening + inside + closing;
    assert t[|opening|..|t| - |closing|] == inside;
  }

  /** A wrapped group is empty inside exactly when its text is just its two literals. */
  lemma EmptyUnwrappedIff(g: Group)
    requires g.Unwrappable() && g.IsWrapped()
    ensures g.EmptyUnwrapped() <==> |g.text| == |g.openingSequence.value| + |g.closingSequence.value|
  {
  }

  // ----------------------------------------------------------------------------------------
  // The grouper's state, and its operations as functions of it
  // ----------------------------------------------------------------------------------------

  /** The fields of a StringGrouper; `chars`/`pulled` stand for the character cursor. */
  datatype GrouperState = GrouperState(
    parameters: ClassParameters,
    finder: FinderState,
    barrierSet: set<string>,
    openingMapToClosing: map<string, string>,
    closingMapToOpening: map<string, string>,
    openingMapToDepth: map<string, int>,
    barrierStatus: map<string, bool>,
    nextGroupText: string,
    active: bool,
    c: Option<char>,
    chars: seq<char>,
    pulled: nat)

  /** Top level: no bracket depth above zero and no barrier on. A negative depth counts as closed. */
  predicate NothingOpen(depths: map<string, int>, status: map<string, bool>)
  {
    (forall k :: k in depths ==> depths[k] <= 0) && (forall k :: k in status ==> !status[k])
  }

  /** The object invariant kept by addDepth and toggleBarrierStatus: active means top level. */
  predicate ActiveSound(s: GrouperState)
  {
    s.active ==> NothingOpen(s.openingMapToDepth, s.barrierStatus)
  }

  function DepthOf(depths: map<string, int>, opening: string): int
  {
    if opening in depths then depths[opening] else 0
  }

  function StatusOf(status: map<string, bool>, barrier: string): bool
  {
    if barrier in status then status[barrier] else false
  }

  /** addDepth(opening, amount): EnsureKey, add, then deactivate or re-check. */
  function AddDepthTo(s: GrouperState, opening: string, amount: int): (r: GrouperState)
    ensures r == s.(openingMapToDepth := r.openingMapToDepth, active := r.active)
    ensures r.openingMapToDepth.Keys == s.openingMapToDepth.Keys + {opening}
    ensures r.openingMapToDepth[opening] == DepthOf(s.openingMapToDepth, opening) + amount
    ensures forall k :: k in s.openingMapToDepth && k != opening ==> r.openingMapToDepth[k] == s.openingMapToDepth[k]
    ensures ActiveSound(s) ==> ActiveSound(r)
    ensures r.openingMapToDepth[opening] != 0 ==> !r.active
  {
    var depth := DepthOf(s.openingMapToDepth, opening) + amount;
    var depths := s.openingMapToDepth[opening := depth];
    var active := if depth != 0 then false else if s.active then true else NothingOpen(depths, s.barrierStatus);
    s.(openingMapToDepth := depths, active := active)
  }

  /** toggleBarrierStatus(barrier): EnsureKey, flip, then deactivate or re-check. */
  function ToggleBarrier(s: GrouperState, barrier: string): (r: GrouperState)
    ensures r == s.(barrierStatus := r.barrierStatus, active := r.active)
    ensures r.barrierStatus.Keys == s.barrierStatus.Keys + {barrier}
    ensures r.barrierStatus[barrier] == !StatusOf(s.barrierStatus, barrier)
    ensures forall k :: k in s.barrierStatus && k != barrier ==> r.barrierStatus[k] == s.barrierStatus[k]
    ensures ActiveSound(s) ==> ActiveSound(r)
    ensures r.barrierStatus[barrier] ==> !r.active
  {
    var on := !StatusOf(s.barrierStatus, barrier);
    var status := s.barrierStatus[barrier := on];
    var active := if on then false else if s.active then true else NothingOpen(s.openingMapToDepth, status);
    s.(barrierStatus := status, active := active)
  }

  /** Two toggles restore a barrier's status (a barrier first seen is then recorded as off). */
  lemma {:induction false} ToggleTwice(s: GrouperState, barrier: string)
    ensures ToggleBarrier(ToggleBarrier(s, barrier), barrier).barrierStatus
            == s.barrierStatus[barrier := StatusOf(s.barrierStatus, barrier)]
    ensures barrier in s.barrierStatus ==> ToggleBarrier(ToggleBarrier(s, barrier), barrier).barrierStatus == s.barrierStatus
  {
    var once := ToggleBarrier(s, barrier);
    var twice := ToggleBarrier(once, barrier);
    assert twice.barrierStatus == s.barrierStatus[barrier := StatusOf(s.barrierStatus, barrier)];
  }

  /** The literal-dispatch of NextGroup (StringGrouper.cs:189-194): barrier, then opening, then closing. */
  function HandleMatch(s: GrouperState, lit: string, wtype: WrappingType): (r: (GrouperState, WrappingType))
    ensures r.0 == s.(openingMapToDepth := r.0.openingMapToDepth, barrierStatus := r.0.barrierStatus, active := r.0.active)
    ensures ActiveSound(s) ==> ActiveSound(r.0)
    ensures lit in s.barrierSet ==> r.0 == ToggleBarrier(s, lit) && r.1 == Barriers
    ensures lit !in s.barrierSet && lit in s.openingMapToClosing ==> r.0 == AddDepthTo(s, lit, 1) && r.1 == Brackets
    ensures lit !in s.barrierSet && lit !in s.openingMapToClosing && lit in s.closingMapToOpening ==>
      r.0 == AddDepthTo(s, s.closingMapToOpening[lit], -1) && r.1 == Brackets
    ensures r.0.active != s.active ==>
      lit in s.barrierSet || lit in s.openingMapToClosing || lit in s.closingMapToOpening
  {
    if lit in s.barrierSet then (ToggleBarrier(s, lit), Barriers)
    else if lit in s.openingMapToClosing then (AddDepthTo(s, lit, 1), Brackets)
    else if lit in s.closingMapToOpening then (AddDepthTo(s, s.closingMapToOpening[lit], -1), Brackets)
    else (s, wtype)
  }

  /** What one call of NextGroup returns: a group, null (end of input), or the KeyNotFoundException of :204. */
  datatype Pull = Emit(group: Group) | Exhausted | MissingKey(key: string)

  /** One turn of NextGroup's `while (true)` loop: it returns, or goes round again. */
  datatype Turn = Return(result: Pull, after: GrouperState) | Continue(next: GrouperState, wtype: WrappingType)

  /** The state a grouper is configured to: derived tables and a fresh finder (the `Parameters` setter). */
  predicate Configured(s: GrouperState)
  {
    && Admissible(s.parameters)
    && s.finder.sequences == Distinct(Literals(s.parameters))
    && s.barrierSet == BarrierSet(s.parameters)
    && s.openingMapToClosing == OpeningMap(s.parameters)
    && s.closingMapToOpening == ClosingMap(s.parameters)
  }

  /** The buffer ends with `w`. */
  predicate EndsWith(buffer: string, w: string)
  {
    |w| <= |buffer| && buffer[|buffer| - |w|..] == w
  }

  /**
   * The state between two calls of NextGroup: configured, the finder reset, the last
   * character pulled (if any) at the end of the buffer, and `active` only at top level.
   */
  predicate Between(s: GrouperState)
  {
    && Configured(s) && Inv(s.finder) && AtStart(s.finder)
    && s.pulled <= |s.chars|
    && (s.c.Some? ==> EndsWith(s.nextGroupText, [s.c.value]))
    && ActiveSound(s)
  }

  /**
   * The state at the head of NextGroup's loop: `c` holds the character to look at next, and
   * the buffer ends with the characters the finder has consumed followed by `c`.
   */
  predicate LoopInv(s: GrouperState)
  {
    && Configured(s) && Inv(s.finder)
    && s.pulled <= |s.chars|
    && s.c.Some?
    && EndsWith(s.nextGroupText, Consumed(s.finder) + [s.c.value])
    && ActiveSound(s)
  }

  /** The end of one turn: emit the remaining buffer if the cursor is done, otherwise append `c`. */
  function EndOfTurn(s: GrouperState, wtype: WrappingType): Turn
  {
    if s.c.None? then Return(Emit(PlainGroup(s.nextGroupText)), s.(nextGroupText := []))
    else Continue(s.(nextGroupText := s.nextGroupText + [s.c.value]), wtype)
  }

  /** The cursor, the configuration and the derived tables do not change while grouping. */
  predicate SameSetup(s: GrouperState, t: GrouperState)
  {
    && t.parameters == s.parameters && t.chars == s.chars
    && t.barrierSet == s.barrierSet
    && t.openingMapToClosing == s.openingMapToClosing && t.closingMapToOpening == s.closingMapToOpening
    && t.finder.sequences == s.finder.sequences
  }

  /**
   * What holds of the state `t` reached from the loop head `s` once the finder has looked and
   * the match has been handled: nothing is lost, the cursor moved by at most one character
   * (which is `t.c`), and at the end of input the finder is back at its start.
   */
  predicate Looked(s: GrouperState, t: GrouperState)
  {
    && SameSetup(s, t) && Configured(t) && Inv(t.finder) && ActiveSound(t)
    && s.pulled <= t.pulled <= |t.chars|
    && t.nextGroupText == s.nextGroupText
    && s.chars[s.pulled..t.pulled] == OptChars(t.c)
    && (t.c.None? ==> AtStart(t.finder))
  }

  lemma EndsWithAppend(buffer: string, w: string, x: char)
    requires EndsWith(buffer, w)
    ensures EndsWith(buffer + [x], w + [x])
  {
    assert (buffer + [x])[|buffer + [x]| - |w + [x]|..] == buffer[|buffer| - |w|..] + [x];
  }

  /**
   * Pull the next character (StringGrouper.cs:183-186) and let the finder look at the
   * previous one with it (:188). A found literal is what the buffer ends with.
   */
  function Advance(s: GrouperState): (r: (GrouperState, Option<string>))
    requires s.c.Some? && s.pulled <= |s.chars|
  {
    var prev := s.c.value;
    var more := s.pulled < |s.chars|;
    var c := if more then Some(s.chars[s.pulled]) else None;
    var r := Step(s.finder, prev, c);
    (s.(finder := r.0, c := c, pulled := if more then s.pulled + 1 else s.pulled), r.1)
  }

  /** Advancing pulls exactly the character it sets as `c`, and touches nothing but the finder and the cursor. */
  lemma AdvanceCursor(s: GrouperState)
    requires s.c.Some? && s.pulled <= |s.chars|
    ensures var t := Advance(s).0;
      && t == s.(finder := t.finder, c := t.c, pulled := t.pulled)
      && s.pulled <= t.pulled <= |t.chars|
      && s.chars[s.pulled..t.pulled] == OptChars(t.c)
      && t.finder == Step(s.finder, s.c.value, t.c).0
      && Advance(s).1 == Step(s.finder, s.c.value, t.c).1
  {
    if s.pulled < |s.chars| {
      assert s.chars[s.pulled..s.pulled + 1] == [s.chars[s.pulled]];
    }
  }

  /** What advancing keeps of the loop invariant, and what a found literal is. */
  lemma AdvanceKeeps(s: GrouperState)
    requires LoopInv(s)
    ensures var (t, found) := Advance(s);
      && Looked(s, t)
      && (found.Some? ==> && AtStart(t.finder) && found.value in s.finder.sequences && |found.value| > 0
                          && EndsWith(t.nextGroupText, found.value))
      && (found.None? && t.c.Some? ==>
            EndsWith(t.nextGroupText + [t.c.value], Consumed(t.finder) + [t.c.value]))
  {
    AdvanceCursor(s);
    var t := Advance(s).0;
    var prev := s.c.value;
    LookSummary(s.finder, prev, t.c);
    if t.c.Some? && Consumed(t.finder) == Consumed(s.finder) + [prev] {
      EndsWithAppend(s.nextGroupText, Consumed(s.finder) + [prev], t.c.value);
    } else if t.c.Some? {
      assert EndsWith(s.nextGroupText + [t.c.value], [t.c.value]);
    }
  }

  /**
   * StringGrouper.cs:180-194: pull the next character, let the finder look, and hand a found
   * literal to the handlers. Returns the new state, the wrapping type and the literal found.
   */
  function Matched(s: GrouperState, wtype: WrappingType): (r: (GrouperState, WrappingType, Option<string>))
    requires LoopInv(s)
    ensures Looked(s, r.0)
    ensures var (t, w, found) := r;
      found.Some? ==>
        && AtStart(t.finder) && found.value in s.finder.sequences && |found.value| > 0
        && EndsWith(t.nextGroupText, found.value)
        && (t.active != s.active ==> (w == Barriers <==> found.value in t.barrierSet))
    ensures var (t, w, found) := r;
      found.None? ==>
        && t.active == s.active
        && (t.c.Some? ==> EndsWith(t.nextGroupText + [t.c.value], Consumed(t.finder) + [t.c.value]))
  {
    AdvanceKeeps(s);
    var (s1, found) := Advance(s);
    if found.Some? then
      var (t, w) := HandleMatch(s1, found.value, wtype);
      (t, w, found)
    else (s1, wtype, found)
  }

  /**
   * The transition to active (StringGrouper.cs:199-209): the buffer, which ends with the
   * closing literal `closing`, becomes a wrapped group and the buffer restarts with `c`.
   */
  function Activate(s: GrouperState, w: WrappingType, closing: string): Turn
  {
    if s.parameters.includeEmpty || |s.nextGroupText| != 0 then
      if w == Barriers || closing in s.closingMapToOpening then
        var opening := if w == Barriers then closing else s.closingMapToOpening[closing];
        Return(Emit(Group(s.nextGroupText, Some(opening), Some(closing), Some(w))),
               s.(nextGroupText := OptChars(s.c)))
      else
        Return(MissingKey(closing), s)
    else EndOfTurn(s, w)
  }

  /**
   * The transition to inactive (StringGrouper.cs:210-219): the buffer without the opening
   * literal becomes an unwrapped group, and the buffer restarts with the opening and `c`.
   */
  function Deactivate(s: GrouperState, w: WrappingType, opening: string): Turn
    requires |opening| <= |s.nextGroupText|
  {
    if s.parameters.includeEmpty || |s.nextGroupText| - |opening| != 0 then
      var rest := s.nextGroupText[..|s.nextGroupText| - |opening|];
      Return(Emit(PlainGroup(rest)), s.(nextGroupText := opening + OptChars(s.c)))
    else EndOfTurn(s, w)
  }

  /** One turn of the loop (StringGrouper.cs:180-229). */
  function Iterate(s: GrouperState, wtype: WrappingType): Turn
    requires LoopInv(s)
  {
    var (t, w, found) := Matched(s, wtype);
    if s.active == t.active then EndOfTurn(t, w)
    else if t.active then Activate(t, w, found.value)
    else Deactivate(t, w, found.value)
  }

  // ----------------------------------------------------------------------------------------
  // What one turn of the loop keeps
  // ----------------------------------------------------------------------------------------

  /** A wrapped group names a configured pair (or barrier) and its text ends with the closing literal. */
  predicate WrapsConfigured(g: Group, p: ClassParameters)
  {
    g.IsWrapped() ==>
      && g.openingSequence.Some? && g.closingSequence.Some?
      && EndsWith(g.text, g.closingSequence.value)
      && (|| (g.wrapType == Some(Barriers) && g.closingSequence.value in p.barriers
              && g.openingSequence == g.closingSequence)
          || (g.wrapType == Some(Brackets)
              && exists i :: 0 <= i < |p.brackets| && p.brackets[i] == (g.openingSequence.value, g.closingSequence.value)))
  }

  lemma EndsWithSplit(buffer: string, w: string)
    requires EndsWith(buffer, w)
    ensures buffer[..|buffer| - |w|] + w == buffer
  {
  }

  lemma ClosingPair(p: ClassParameters, closing: string)
    requires Admissible(p) && closing in ClosingMap(p)
    ensures exists i :: 0 <= i < |p.brackets| && p.brackets[i] == (ClosingMap(p)[closing], closing)
  {
    var sw := Swapped(p.brackets);
    ToDictionaryContents(sw);
    var i :| 0 <= i < |sw| && sw[i].0 == closing;
    assert p.brackets[i] == (ClosingMap(p)[closing], closing);
  }

  /** What one turn of the loop keeps (see `IterateKeeps`). */
  predicate TurnKeeps(s: GrouperState, turn: Turn)
  {
    match turn
    case Continue(t, _) =>
      && LoopInv(t) && SameSetup(s, t) && t.pulled == s.pulled + 1
      && t.nextGroupText == s.nextGroupText + s.chars[s.pulled..t.pulled]
    case Return(r, t) =>
      && SameSetup(s, t) && s.pulled <= t.pulled <= |t.chars| && !r.Exhausted?
      && (r.Emit? ==> && Between(t) && WrapsConfigured(r.group, s.parameters)
                      && r.group.text + t.nextGroupText == s.nextGroupText + s.chars[s.pulled..t.pulled])
  }

  lemma EndOfTurnKeeps(s: GrouperState, t: GrouperState, w: WrappingType)
    requires LoopInv(s) && Looked(s, t)
    requires t.c.Some? ==> EndsWith(t.nextGroupText + [t.c.value], Consumed(t.finder) + [t.c.value])
    ensures TurnKeeps(s, EndOfTurn(t, w))
  {
  }

  lemma ActivateKeeps(s: GrouperState, t: GrouperState, w: WrappingType, lit: string)
    requires LoopInv(s) && Looked(s, t) && t.active
    requires AtStart(t.finder) && lit in s.finder.sequences && |lit| > 0 && EndsWith(t.nextGroupText, lit)
    requires w == Barriers <==> lit in t.barrierSet
    ensures TurnKeeps(s, Activate(t, w, lit))
  {
    RestartKeepsBetween(t, OptChars(t.c));
    if w != Barriers && lit in t.closingMapToOpening {
      ClosingPair(s.parameters, lit);
    }
  }

  lemma DeactivateKeeps(s: GrouperState, t: GrouperState, w: WrappingType, lit: string)
    requires LoopInv(s) && Looked(s, t)
    requires AtStart(t.finder) && EndsWith(t.nextGroupText, lit)
    ensures TurnKeeps(s, Deactivate(t, w, lit))
  {
    if t.parameters.includeEmpty || |t.nextGroupText| - |lit| != 0 {
      DeactivateEmits(s, t, lit);
    } else {
      if t.c.Some? {
        assert Consumed(t.finder) + [t.c.value] == [t.c.value];
        assert EndsWith(t.nextGroupText + [t.c.value], [t.c.value]);
      }
      EndOfTurnKeeps(s, t, w);
    }
  }

  lemma DeactivateEmits(s: GrouperState, t: GrouperState, lit: string)
    requires Looked(s, t)
    requires AtStart(t.finder) && EndsWith(t.nextGroupText, lit)
    ensures var u := t.(nextGroupText := lit + OptChars(t.c));
      && Between(u) && SameSetup(s, u)
      && t.nextGroupText[..|t.nextGroupText| - |lit|] + u.nextGroupText == s.nextGroupText + s.chars[s.pulled..u.pulled]
  {
    RestartKeepsBetween(t, lit + OptChars(t.c));
    SplitLosesNothing(t.nextGroupText, lit, OptChars(t.c));
  }

  /** Restarting the buffer with something that ends with `c` leaves a state between calls. */
  lemma RestartKeepsBetween(t: GrouperState, buffer: string)
    requires Configured(t) && Inv(t.finder) && AtStart(t.finder) && t.pulled <= |t.chars| && ActiveSound(t)
    requires EndsWith(buffer, OptChars(t.c))
    ensures Between(t.(nextGroupText := buffer))
  {
  }

  lemma SplitLosesNothing(buffer: string, lit: string, added: string)
    requires EndsWith(buffer, lit)
    ensures buffer[..|buffer| - |lit|] + (lit + added) == buffer + added
  {
    EndsWithSplit(buffer, lit);
    assert buffer[..|buffer| - |lit|] + (lit + added) == (buffer[..|buffer| - |lit|] + lit) + added;
  }

  /**
   * One turn of the loop keeps the loop invariant, never reports the end of input, moves the
   * cursor by at most one character, loses no character, and leaves the state between calls
   * when it emits.
   */
  lemma IterateKeeps(s: GrouperState, wtype: WrappingType)
    requires LoopInv(s)
    ensures TurnKeeps(s, Iterate(s, wtype))
  {
    var (t, w, found) := Matched(s, wtype);
    if s.active == t.active {
      if found.Some? && t.c.Some? {
        assert Consumed(t.finder) + [t.c.value] == [t.c.value];
        assert EndsWith(t.nextGroupText + [t.c.value], [t.c.value]);
      }
      EndOfTurnKeeps(s, t, w);
    } else if t.active {
      ActivateKeeps(s, t, w, found.value);
    } else {
      DeactivateKeeps(s, t, w, found.value);
    }
  }

  // ----------------------------------------------------------------------------------------
  // What a turn does at a transition
  // ----------------------------------------------------------------------------------------

  /**
   * Every literal the finder looks for has a handler (StringGrouper.cs:84, 189-194): it is a
   * barrier, an opening or a closing; and every barrier, opening and closing is looked for.
   */
  lemma EveryLiteralHandled(p: ClassParameters, lit: string)
    requires Admissible(p)
    ensures lit in Literals(p) <==> lit in BarrierSet(p) || lit in OpeningMap(p) || lit in ClosingMap(p)
  {
    if lit in Literals(p) {
      LiteralHasHandler(p, lit);
    } else {
      HandledIsLiteral(p, lit);
    }
  }

  lemma LiteralHasHandler(p: ClassParameters, lit: string)
    requires Admissible(p) && lit in Literals(p)
    ensures lit in BarrierSet(p) || lit in OpeningMap(p) || lit in ClosingMap(p)
  {
    var lits := Literals(p);
    var j :| 0 <= j < |lits| && lits[j] == lit;
    if j < |p.barriers| {
      assert lits[..|p.barriers|][j] == lit;
    } else {
      var i := (j - |p.barriers|) / 2;
      assert j == |p.barriers| + 2 * i || j == |p.barriers| + 2 * i + 1;
      assert 0 <= i < |p.brackets|;
      if j == |p.barriers| + 2 * i {
        assert lit == p.brackets[i].0;
        OpeningIsKey(p, i);
      } else {
        assert lit == p.brackets[i].1;
        ClosingIsKey(p, i);
      }
    }
  }

  lemma OpeningIsKey(p: ClassParameters, i: nat)
    requires Admissible(p) && i < |p.brackets|
    ensures p.brackets[i].0 in OpeningMap(p)
  {
    ToDictionaryContents(p.brackets);
  }

  lemma ClosingIsKey(p: ClassParameters, i: nat)
    requires Admissible(p) && i < |p.brackets|
    ensures p.brackets[i].1 in ClosingMap(p)
  {
    ToDictionaryContents(Swapped(p.brackets));
    assert Swapped(p.brackets)[i].0 == p.brackets[i].1;
  }

  lemma HandledIsLiteral(p: ClassParameters, lit: string)
    requires Admissible(p)
    ensures lit in BarrierSet(p) || lit in OpeningMap(p) || lit in ClosingMap(p) ==> lit in Literals(p)
  {
    if lit in BarrierSet(p) {
      var j :| 0 <= j < |p.barriers| && p.barriers[j] == lit;
      LiteralAt(p, j);
    } else if lit in OpeningMap(p) {
      ToDictionaryContents(p.brackets);
      var i :| 0 <= i < |p.brackets| && p.brackets[i].0 == lit;
      LiteralAt(p, |p.barriers| + 2 * i);
    } else if lit in ClosingMap(p) {
      ToDictionaryContents(Swapped(p.brackets));
      var i :| 0 <= i < |Swapped(p.brackets)| && Swapped(p.brackets)[i].0 == lit;
      LiteralAt(p, |p.barriers| + 2 * i + 1);
    }
  }

  /** The finder's literal at index `j`: a barrier, or the opening or closing of a pair. */
  lemma LiteralAt(p: ClassParameters, j: nat)
    requires j < |p.barriers| + 2 * |p.brackets|
    ensures j < |p.barriers| ==> p.barriers[j] in Literals(p)
    ensures |p.barriers| <= j && (j - |p.barriers|) % 2 == 0 ==> p.brackets[(j - |p.barriers|) / 2].0 in Literals(p)
    ensures |p.barriers| <= j && (j - |p.barriers|) % 2 == 1 ==> p.brackets[(j - |p.barriers|) / 2].1 in Literals(p)
  {
    var lits := Literals(p);
    assert lits[j] in lits;
    if j < |p.barriers| {
      assert lits[..|p.barriers|][j] == lits[j];
    }
  }

  /**
   * The transition to active (StringGrouper.cs:199-209) always returns, whatever IncludeEmpty
   * says: the buffer ends with the closing literal, so the emptiness test at :201 never holds.
   * It returns the whole buffer as a group wrapped by the matched literal, and the buffer
   * restarts as the character after it; or it fails on a literal that is no closing.
   */
  lemma ActivationReturns(s: GrouperState, wtype: WrappingType)
    requires LoopInv(s)
    ensures var (t, w, found) := Matched(s, wtype);
      !s.active && t.active ==>
        && found.Some? && |t.nextGroupText| > 0
        && match Iterate(s, wtype)
           case Continue(_, _) => false
           case Return(Emit(g), u) =>
             && g.IsWrapped() && g.text == t.nextGroupText && g.closingSequence == found
             && (g.wrapType == Some(Barriers) <==> found.value in s.barrierSet)
             && (g.wrapType == Some(Barriers) ==> g.openingSequence == found)
             && (g.wrapType == Some(Brackets) ==> g.openingSequence == Some(s.closingMapToOpening[found.value]))
             && u == t.(nextGroupText := OptChars(t.c))
           case Return(MissingKey(k), u) =>
             k == found.value && k !in s.barrierSet && k !in s.closingMapToOpening && u == t
           case Return(Exhausted, _) => false
  {
    var (t, w, found) := Matched(s, wtype);
    if !s.active && t.active {
      assert |found.value| <= |t.nextGroupText|;
    }
  }

  /**
   * The transition to inactive (StringGrouper.cs:210-218): the buffer is the text before the
   * matched literal followed by that literal. The text before it is returned as a plain group
   * and the buffer restarts as the literal followed by the next character; unless IncludeEmpty
   * is false and that text is empty, in which case the turn ends as a turn without a transition.
   */
  lemma DeactivationSplits(s: GrouperState, wtype: WrappingType)
    requires LoopInv(s)
    ensures var (t, w, found) := Matched(s, wtype);
      s.active && !t.active ==>
        && found.Some? && EndsWith(t.nextGroupText, found.value)
        && var before := t.nextGroupText[..|t.nextGroupText| - |found.value|];
           && before + found.value == t.nextGroupText
           && Iterate(s, wtype) ==
                if t.parameters.includeEmpty || before != [] then
                  Return(Emit(PlainGroup(before)), t.(nextGroupText := found.value + OptChars(t.c)))
                else EndOfTurn(t, w)
  {
    var (t, w, found) := Matched(s, wtype);
    if s.active && !t.active {
      EndsWithSplit(t.nextGroupText, found.value);
    }
  }

  /**
   * The KeyNotFoundException of StringGrouper.cs:204 is raised only for a literal that is an
   * opening and neither a barrier nor a closing, when it brings its depth from -1 back to 0:
   * a closing seen before its opening.
   */
  lemma MissingKeyOnReopening(s: GrouperState, wtype: WrappingType)
    requires LoopInv(s)
    ensures Iterate(s, wtype).Return? && Iterate(s, wtype).result.MissingKey? ==>
      var k := Iterate(s, wtype).result.key;
      && k in s.openingMapToClosing && k !in s.barrierSet && k !in s.closingMapToOpening
      && DepthOf(s.openingMapToDepth, k) == -1 && !s.active
      && (forall o :: o in s.openingMapToDepth && o != k ==> s.openingMapToDepth[o] <= 0)
      && (forall b :: b in s.barrierStatus ==> !s.barrierStatus[b])
  {
    var (t, w, found) := Matched(s, wtype);
    if Iterate(s, wtype).Return? && Iterate(s, wtype).result.MissingKey? {
      assert !s.active && t.active && w != Barriers;
      ReopenedBracket(s, wtype);
    }
  }

  /** A match that makes the grouper active with wrapping type `brackets` and is no closing reopens an opening. */
  lemma ReopenedBracket(s: GrouperState, wtype: WrappingType)
    requires LoopInv(s)
    ensures var (t, w, found) := Matched(s, wtype);
      !s.active && t.active && w != Barriers && found.Some? && found.value !in s.closingMapToOpening ==>
        && found.value in s.openingMapToClosing && found.value !in s.barrierSet
        && DepthOf(s.openingMapToDepth, found.value) == -1
        && (forall o :: o in s.openingMapToDepth && o != found.value ==> s.openingMapToDepth[o] <= 0)
        && (forall b :: b in s.barrierStatus ==> !s.barrierStatus[b])
  {
    AdvanceCursor(s);
    var (s1, found) := Advance(s);
    if found.Some? {
      var (t, w) := HandleMatch(s1, found.value, wtype);
      if !s.active && t.active && w != Barriers && found.value !in s.closingMapToOpening {
        assert t == AddDepthTo(s1, found.value, 1);
      }
    }
  }

  /**
   * The converse of MissingKeyOnReopening: an opening that is neither a barrier nor a closing,
   * met at depth -1 while the grouper is nested (`active` false) and nothing else is open,
   * raises the KeyNotFoundException of StringGrouper.cs:204.
   */
  lemma ReopeningRaisesMissingKey(s: GrouperState, wtype: WrappingType, k: string)
    requires LoopInv(s) && Advance(s).1 == Some(k)
    requires k in s.openingMapToClosing && k !in s.barrierSet && k !in s.closingMapToOpening
    requires DepthOf(s.openingMapToDepth, k) == -1 && !s.active
    requires forall o :: o in s.openingMapToDepth && o != k ==> s.openingMapToDepth[o] <= 0
    requires forall b :: b in s.barrierStatus ==> !s.barrierStatus[b]
    ensures Iterate(s, wtype) == Return(MissingKey(k), Matched(s, wtype).0)
  {
    AdvanceCursor(s);
    var t := AddDepthTo(Advance(s).0, k, 1);
    assert HandleMatch(Advance(s).0, k, wtype) == (t, Brackets);
    assert NothingOpen(t.openingMapToDepth, t.barrierStatus);
    assert t.active;
  }

  /**
   * The same reopening while the grouper is already at top level raises nothing: addDepth
   * leaves `active` true, so no transition happens and the lookup at StringGrouper.cs:204 is
   * not reached.
   */
  lemma ReopeningAtTopLevel(s: GrouperState, wtype: WrappingType, k: string)
    requires LoopInv(s) && Advance(s).1 == Some(k)
    requires k in s.openingMapToClosing && k !in s.barrierSet && k !in s.closingMapToOpening
    requires DepthOf(s.openingMapToDepth, k) == -1 && s.active
    ensures Matched(s, wtype).0.active && !(Iterate(s, wtype).Return? && Iterate(s, wtype).result.MissingKey?)
  {
    AdvanceCursor(s);
    var t := AddDepthTo(Advance(s).0, k, 1);
    assert HandleMatch(Advance(s).0, k, wtype) == (t, Brackets);
  }

  /**
   * The flush at StringGrouper.cs:223-228: when the cursor is exhausted and the last look
   * causes no transition, the turn returns the whole buffer as a plain group and clears it.
   */
  lemma EndFlush(s: GrouperState, wtype: WrappingType)
    requires LoopInv(s) && s.pulled == |s.chars| && Matched(s, wtype).0.active == s.active
    ensures Matched(s, wtype).0.nextGroupText == s.nextGroupText && Matched(s, wtype).0.c == None
    ensures Iterate(s, wtype) == Return(Emit(PlainGroup(s.nextGroupText)), Matched(s, wtype).0.(nextGroupText := []))
  {
    AdvanceCursor(s);
  }

  // ----------------------------------------------------------------------------------------
  // NextGroup as a function of the state
  // ----------------------------------------------------------------------------------------

  /**
   * NextGroup's `while (true)` loop (StringGrouper.cs:180-230): it goes round until a turn
   * returns, and the cursor bounds the number of turns.
   */
  function LoopSpec(s: GrouperState, wtype: WrappingType): (r: (Pull, GrouperState))
    requires LoopInv(s)
    decreases |s.chars| - s.pulled
    ensures !r.0.Exhausted?
    ensures SameSetup(s, r.1) && s.pulled <= r.1.pulled <= |s.chars|
    ensures r.0.Emit? ==>
      && Between(r.1) && WrapsConfigured(r.0.group, s.parameters)
      && r.0.group.text + r.1.nextGroupText == s.nextGroupText + s.chars[s.pulled..r.1.pulled]
  {
    IterateKeeps(s, wtype);
    match Iterate(s, wtype)
    case Return(p, t) => (p, t)
    case Continue(t, w) =>
      var r := LoopSpec(t, w);
      assert r.0.Emit? ==> r.0.group.text + r.1.nextGroupText == s.nextGroupText + s.chars[s.pulled..r.1.pulled] by {
        if r.0.Emit? {
          ReadOnward(s.chars, s.pulled, t.pulled, r.1.pulled, s.nextGroupText, t.nextGroupText,
                     r.0.group.text + r.1.nextGroupText);
        }
      }
      r
  }

  /**
   * NextGroup (StringGrouper.cs:161-230): pull a character, or report the end of input; let
   * the finder look at the previous character with it, discarding what it reports (:167);
   * then run the loop with wrapping type `brackets`, the enum's default.
   */
  function NextGroupSpec(s: GrouperState): (r: (Pull, GrouperState))
    requires Between(s)
    ensures r.0.Exhausted? <==> s.pulled == |s.chars|
    ensures SameSetup(s, r.1) && s.pulled <= r.1.pulled <= |s.chars|
    ensures r.0.Exhausted? ==> r.1 == s.(c := None)
    ensures r.0.Emit? ==>
      && Between(r.1) && WrapsConfigured(r.0.group, s.parameters) && s.pulled < r.1.pulled
      && r.0.group.text + r.1.nextGroupText == s.nextGroupText + s.chars[s.pulled..r.1.pulled]
  {
    if s.pulled < |s.chars| then
      var s1 := Prelude(s);
      var r := LoopSpec(s1, Brackets);
      assert r.0.Emit? ==> r.0.group.text + r.1.nextGroupText == s.nextGroupText + s.chars[s.pulled..r.1.pulled] by {
        if r.0.Emit? {
          ReadOnward(s.chars, s.pulled, s1.pulled, r.1.pulled, s.nextGroupText, s1.nextGroupText,
                     r.0.group.text + r.1.nextGroupText);
        }
      }
      r
    else (Exhausted, s.(c := None))
  }

  /** The flush ends the loop: NextGroup returns the buffer and leaves it empty. */
  lemma LoopEndFlush(s: GrouperState, wtype: WrappingType)
    requires LoopInv(s) && s.pulled == |s.chars| && Matched(s, wtype).0.active == s.active
    ensures LoopSpec(s, wtype) == (Emit(PlainGroup(s.nextGroupText)), Matched(s, wtype).0.(nextGroupText := []))
    ensures LoopSpec(s, wtype).1.nextGroupText == [] && LoopSpec(s, wtype).1.c == None
  {
    EndFlush(s, wtype);
  }

  /** Once NextGroup has returned null, it keeps returning null and changes nothing more. */
  lemma ExhaustedIsFinal(s: GrouperState)
    requires Between(s) && NextGroupSpec(s).0.Exhausted?
    ensures var t := NextGroupSpec(s).1;
      Between(t) && t.pulled == |t.chars| && NextGroupSpec(t) == (Exhausted, t)
  {
  }

  /** The loop fails only on an opening literal that is neither a barrier nor a closing. */
  lemma {:induction false} LoopMissingKey(s: GrouperState, wtype: WrappingType)
    requires LoopInv(s)
    decreases |s.chars| - s.pulled
    ensures LoopSpec(s, wtype).0.MissingKey? ==>
      var k := LoopSpec(s, wtype).0.key;
      k in s.openingMapToClosing && k !in s.barrierSet && k !in s.closingMapToOpening
  {
    IterateKeeps(s, wtype);
    match Iterate(s, wtype)
    case Return(_, _) =>
      MissingKeyOnReopening(s, wtype);
    case Continue(t, w) =>
      LoopMissingKey(t, w);
  }

  /**
   * NextGroup throws at StringGrouper.cs:204 only on a literal that is an opening and neither
   * a barrier nor a closing.
   */
  lemma NextGroupMissingKey(s: GrouperState)
    requires Between(s)
    ensures NextGroupSpec(s).0.MissingKey? ==>
      var k := NextGroupSpec(s).0.key;
      k in s.openingMapToClosing && k !in s.barrierSet && k !in s.closingMapToOpening
  {
    if s.pulled < |s.chars| {
      LoopMissingKey(Prelude(s), Brackets);
    }
  }

  /**
   * StringGrouper.cs:165-178: pull `d`, let the finder look at the previous character with
   * it (the result is dropped), and append `d` to the buffer. This enters the loop invariant.
   */
  function Prelude(s: GrouperState): (t: GrouperState)
    requires Between(s) && s.pulled < |s.chars|
    ensures LoopInv(t) && SameSetup(s, t) && t.pulled == s.pulled + 1
    ensures t.nextGroupText == s.nextGroupText + s.chars[s.pulled..t.pulled]
  {
    var d := s.chars[s.pulled];
    var finder := if s.c.Some? then Step(s.finder, s.c.value, Some(d)).0 else s.finder;
    PreludeKeeps(s, d);
    assert s.chars[s.pulled..s.pulled + 1] == [d];
    s.(finder := finder, c := Some(d), pulled := s.pulled + 1, nextGroupText := s.nextGroupText + [d])
  }

  /** Between calls the finder's own invariant holds. */
  lemma BetweenFinderValid(s: GrouperState)
    ensures Configured(s) && Inv(s.finder) ==> NoDup(s.finder.sequences) && Inv(s.finder)
  {
  }

  lemma PreludeIs(s: GrouperState, t: GrouperState)
    requires Between(s) && s.pulled < |s.chars|
    requires t == s.(finder := t.finder, c := t.c, pulled := t.pulled, nextGroupText := t.nextGroupText)
    requires t.c == Some(s.chars[s.pulled]) && t.pulled == s.pulled + 1
    requires t.nextGroupText == s.nextGroupText + [s.chars[s.pulled]]
    requires t.finder == if s.c.Some? then Step(s.finder, s.c.value, t.c).0 else s.finder
    ensures t == Prelude(s)
  {
  }

  /** After the prelude the buffer ends with what the finder consumed and the new character. */
  lemma PreludeKeeps(s: GrouperState, d: char)
    requires Between(s)
    ensures var finder := if s.c.Some? then Step(s.finder, s.c.value, Some(d)).0 else s.finder;
      && Inv(finder) && finder.sequences == s.finder.sequences
      && EndsWith(s.nextGroupText + [d], Consumed(finder) + [d])
  {
    ConsumedAtStart(s.finder);
    if s.c.Some? {
      LookSummary(s.finder, s.c.value, Some(d));
      EndsWithAppend(s.nextGroupText, [s.c.value], d);
      var f := Step(s.finder, s.c.value, Some(d)).0;
      if Consumed(f) == [] {
        assert EndsWith(s.nextGroupText + [d], [d]);
      }
    } else {
      assert EndsWith(s.nextGroupText + [d], [d]);
    }
  }

  /**
   * The Look whose report is discarded (StringGrouper.cs:167) runs on a finder at its start.
   * What it loses is therefore only the one-character literal `c`, and only when no literal
   * begins with `c` followed by the next character. A longer literal starting at `c` is
   * extended by this Look rather than reported.
   */
  lemma DiscardedReport(s: GrouperState, d: char)
    requires Between(s) && s.c.Some?
    ensures var (f, found) := Step(s.finder, s.c.value, Some(d));
      && (found.Some? ==> found == Some([s.c.value]))
      && (found == Some([s.c.value]) <==>
            [s.c.value] in s.finder.sequences
            && !(exists p :: p in s.finder.sequences && IsPrefix([s.c.value, d], p)))
      && ((exists p :: p in s.finder.sequences && IsPrefix([s.c.value, d], p)) ==>
            found == None && f.progress == 1)
  {
    ConsumedAtStart(s.finder);
    assert Consumed(s.finder) + [s.c.value] == [s.c.value];
    assert Consumed(s.finder) + [s.c.value, d] == [s.c.value, d];
    assert [s.c.value] + [d] == [s.c.value, d];
    LookReportsLongest(s.finder, s.c.value, Some(d), [s.c.value]);
    LookFoundIsLiteral(s.finder, s.c.value, Some(d));
    LookExtendsIff(s.finder, s.c.value, Some(d));
  }

  /** Text read in two stretches is the text read in one. */
  lemma ReadOnward(chars: string, i: nat, j: nat, k: nat, before: string, mid: string, after: string)
    requires i <= j <= k <= |chars|
    requires mid == before + chars[i..j] && after == mid + chars[j..k]
    ensures after == before + chars[i..k]
  {
    assert chars[i..k] == chars[i..j] + chars[j..k];
  }

  lemma ConsumedAtStart(f: FinderState)
    ensures AtStart(f) ==> Consumed(f) == []
  {
  }

  // ----------------------------------------------------------------------------------------
  // Configuration and the starting state
  // ----------------------------------------------------------------------------------------

  /**
   * The `Parameters` setter (StringGrouper.cs:77-90): a new finder over the barriers followed
   * by the flattened bracket pairs, and the derived set and maps rebuilt. Depths, barrier
   * statuses, the buffer and the cursor are left as they were.
   */
  function Configure(s: GrouperState, p: ClassParameters): (r: GrouperState)
    requires Admissible(p)
    ensures Configured(r) && r.parameters == p && AtStart(r.finder) && Inv(r.finder)
    ensures r == s.(parameters := p, finder := r.finder, barrierSet := r.barrierSet,
                    openingMapToClosing := r.openingMapToClosing, closingMapToOpening := r.closingMapToOpening)
    ensures s.pulled <= |s.chars| && (s.c.Some? ==> EndsWith(s.nextGroupText, [s.c.value])) && ActiveSound(s)
            ==> Between(r)
  {
    var literals := Distinct(Literals(p));
    var finder := ResetState(FinderState(literals, [], 0));
    ResetIsValid(FinderState(literals, [], 0));
    s.(parameters := p, finder := finder, barrierSet := BarrierSet(p),
       openingMapToClosing := OpeningMap(p), closingMapToOpening := ClosingMap(p))
  }

  lemma ConfigureFields(s: GrouperState, p: ClassParameters, finder: FinderState)
    requires Admissible(p)
    requires finder.sequences == Distinct(Literals(p)) && AtStart(finder)
    ensures Configure(s, p) == s.(parameters := p, finder := finder, barrierSet := BarrierSet(p),
                                  openingMapToClosing := OpeningMap(p), closingMapToOpening := ClosingMap(p))
  {
  }

  /** A new grouper over `chars` (StringGrouper.cs:94-101): field initialisers, then the setter. */
  function Initial(p: ClassParameters, chars: string): (r: GrouperState)
    requires Admissible(p)
    ensures Between(r) && r.parameters == p && r.chars == chars && r.pulled == 0
    ensures r.nextGroupText == [] && r.active && r.c == None
    ensures r.openingMapToDepth == map[] && r.barrierStatus == map[]
  {
    var blank := GrouperState(p, FinderState([], [], 0), {}, map[], map[], map[], map[], [], true, None, chars, 0);
    Configure(blank, p)
  }

  // ----------------------------------------------------------------------------------------
  // sgutil.StringGroup: pull groups until NextGroup returns null
  // ----------------------------------------------------------------------------------------

  function Texts(groups: seq<Group>): string
  {
    if |groups| == 0 then [] else Texts(groups[..|groups| - 1]) + groups[|groups| - 1].text
  }

  /**
   * The groups NextGroup returns until it returns null (StringGrouper.cs:236-248), with the
   * final outcome (`Exhausted`, or the exception) and the final state.
   */
  function Drain(s: GrouperState): (r: (seq<Group>, Pull, GrouperState))
    requires Between(s)
    decreases |s.chars| - s.pulled
    ensures !r.1.Emit?
  {
    var (p, t) := NextGroupSpec(s);
    if p.Emit? then
      var (groups, outcome, u) := Drain(t);
      ([p.group] + groups, outcome, u)
    else ([], p, t)
  }

  /**
   * Every character read is in a group or still in the buffer: the texts of the groups and
   * the text left in the buffer at the end make up what was there plus the rest of the input.
   */
  lemma {:induction false} DrainConserves(s: GrouperState)
    requires Between(s)
    decreases |s.chars| - s.pulled
    ensures var (groups, outcome, u) := Drain(s);
      outcome.Exhausted? ==>
        && Between(u) && SameSetup(s, u) && u.pulled == |s.chars|
        && Texts(groups) + u.nextGroupText == s.nextGroupText + s.chars[s.pulled..]
  {
    var (p, t) := NextGroupSpec(s);
    if p.Emit? {
      DrainConserves(t);
      var (groups, outcome, u) := Drain(t);
      if outcome.Exhausted? {
        TextsCons(p.group, groups);
        DrainStep(s.chars, s.pulled, t.pulled, s.nextGroupText, p.group.text, t.nextGroupText,
                  Texts(groups), u.nextGroupText);
      }
    } else if p.Exhausted? {
      assert s.chars[s.pulled..] == [];
    }
  }

  /**
   * On a new grouper nothing is invented or reordered: the groups StringGroup yields, followed
   * by what is left in the buffer when NextGroup returns null, spell out the whole input.
   */
  lemma DrainFromStart(p: ClassParameters, chars: string)
    requires Admissible(p)
    ensures var (groups, outcome, u) := Drain(Initial(p, chars));
      outcome.Exhausted? ==> Texts(groups) + u.nextGroupText == chars && Texts(groups) <= chars
  {
    var s := Initial(p, chars);
    DrainConserves(s);
    assert s.chars[s.pulled..] == chars;
  }

  predicate AllWrapConfigured(groups: seq<Group>, p: ClassParameters)
  {
    forall i :: 0 <= i < |groups| ==> WrapsConfigured(groups[i], p)
  }

  lemma AllWrapConfiguredCons(g: Group, groups: seq<Group>, p: ClassParameters)
    requires WrapsConfigured(g, p) && AllWrapConfigured(groups, p)
    ensures AllWrapConfigured([g] + groups, p)
  {
    var all := [g] + groups;
    forall i | 0 <= i < |all|
      ensures WrapsConfigured(all[i], p)
    {
      if i > 0 {
        assert all[i] == groups[i - 1];
      }
    }
  }

  /** Every wrapped group StringGroup yields is wrapped by a configured pair or barrier. */
  lemma {:induction false} DrainWrapsConfigured(s: GrouperState)
    requires Between(s)
    decreases |s.chars| - s.pulled
    ensures AllWrapConfigured(Drain(s).0, s.parameters)
  {
    var (p, t) := NextGroupSpec(s);
    if p.Emit? {
      DrainWrapsConfigured(t);
      AllWrapConfiguredCons(p.group, Drain(t).0, s.parameters);
    }
  }

  /** One group taken by the drain loop: what is collected so far plus what is left to drain is the whole. */
  lemma CollectStep(before: GrouperState, after: GrouperState, g: Pull, groups: seq<Group>,
                    all: seq<Group>, outcome: Pull)
    requires Between(before) && g == NextGroupSpec(before).0 && after == NextGroupSpec(before).1
    requires all == groups + Drain(before).0 && outcome == Drain(before).1
    ensures g.Emit? ==>
      && Between(after) && after.chars == before.chars && before.pulled < after.pulled
      && all == (groups + [g.group]) + Drain(after).0 && outcome == Drain(after).1
    ensures !g.Emit? ==> all == groups && outcome == g
  {
    DrainNext(before);
    if g.Emit? {
      var rest := Drain(after).0;
      assert Drain(before).0 == [g.group] + rest && Drain(before).1 == Drain(after).1;
      AppendGroups(groups, g.group, rest);
    } else {
      assert groups + [] == groups;
    }
  }

  lemma AppendGroups(groups: seq<Group>, g: Group, rest: seq<Group>)
    ensures (groups + [g]) + rest == groups + ([g] + rest)
  {
  }

  /** Drain takes one group, then drains the rest. */
  lemma DrainNext(s: GrouperState)
    requires Between(s)
    ensures var (p, t) := NextGroupSpec(s);
      && (p.Emit? ==> Between(t) && Drain(s) == ([p.group] + Drain(t).0, Drain(t).1, Drain(t).2))
      && (!p.Emit? ==> Drain(s) == ([], p, t))
  {
  }

  lemma DrainStep(chars: string, i: nat, j: nat, before: string, g: string, mid: string, texts: string, left: string)
    requires i <= j <= |chars|
    requires g + mid == before + chars[i..j]
    requires texts + left == mid + chars[j..]
    ensures (g + texts) + left == before + chars[i..]
  {
    calc {
      (g + texts) + left;
      g + (mid + chars[j..]);
      (g + mid) + chars[j..];
      (before + chars[i..j]) + chars[j..];
      { assert chars[i..] == chars[i..j] + chars[j..]; }
      before + chars[i..];
    }
  }

  lemma {:induction false} TextsCons(g: Group, groups: seq<Group>)
    ensures Texts([g] + groups) == g.text + Texts(groups)
    decreases |groups|
  {
    if |groups| == 0 {
      assert [g] + groups == [g];
      assert Texts([g]) == Texts([]) + g.text;
    } else {
      var last := groups[|groups| - 1];
      var init := groups[..|groups| - 1];
      assert ([g] + groups)[..|groups|] == [g] + init;
      TextsCons(g, init);
    }
  }

  // ----------------------------------------------------------------------------------------
  // The class
  // ----------------------------------------------------------------------------------------

  /** `true` iff some bracket is open: the depth loops of updateActive (StringGrouper.cs:127, 129). */
  method AnyPositiveDepth(depths: map<string, int>) returns (found: bool)
    ensures found <==> exists k :: k in depths && depths[k] > 0
  {
    var keys := depths.Keys;
    while keys != {}
      invariant keys <= depths.Keys
      invariant forall k :: k in depths && k !in keys ==> depths[k] <= 0
      decreases keys
    {
      var k :| k in keys;
      if depths[k] > 0 {
        return true;
      }
      keys := keys - {k};
    }
    return false;
  }

  /** `true` iff some barrier is on: the status loop of updateActive (StringGrouper.cs:128). */
  method AnyBarrierOn(status: map<string, bool>) returns (found: bool)
    ensures found <==> exists k :: k in status && status[k]
  {
    var keys := status.Keys;
    while keys != {}
      invariant keys <= status.Keys
      invariant forall k :: k in status && k !in keys ==> !status[k]
      decreases keys
    {
      var k :| k in keys;
      if status[k] {
        return true;
      }
      keys := keys - {k};
    }
    return false;
  }

  /** `barrierSet.Clear(); foreach (string b in value.Barriers) barrierSet.Add(b);` (StringGrouper.cs:86). */
  method CollectBarriers(barriers: seq<string>) returns (barrierSet: set<string>)
    ensures barrierSet == set b | b in barriers
  {
    barrierSet := {};
    for i := 0 to |barriers|
      invariant barrierSet == set j | 0 <= j < i :: barriers[j]
    {
      barrierSet := barrierSet + {barriers[i]};
    }
    assert barrierSet == set b | b in barriers by {
      forall b | b in barriers
        ensures b in barrierSet
      {
        var j :| 0 <= j < |barriers| && barriers[j] == b;
      }
    }
  }

  /** How a turn ended: it returned `r` in state `after`, or goes round again from `after`. */
  predicate Ended(turn: Turn, done: bool, r: Pull, after: GrouperState, w: WrappingType)
  {
    if done then turn == Return(r, after) else turn == Continue(after, w)
  }

  /** The right-hand sides of the `Parameters` setter: a new finder and the derived set and maps. */
  method BuildTables(value: ClassParameters)
    returns (f: SequenceFinder, barriers: set<string>, openings: map<string, string>, closings: map<string, string>)
    requires Admissible(value)
    ensures fresh(f) && f.sequences == Distinct(Literals(value)) && AtStart(f.State())
    ensures barriers == BarrierSet(value) && openings == OpeningMap(value) && closings == ClosingMap(value)
  {
    f := new SequenceFinder(Literals(value));
    barriers := CollectBarriers(value.barriers);
    openings := OpeningMap(value);
    closings := ClosingMap(value);
  }

  class StringGrouper {
    var parameters: ClassParameters
    var finder: SequenceFinder
    var barrierSet: set<string>
    var openingMapToClosing: map<string, string>
    var closingMapToOpening: map<string, string>
    var openingMapToDepth: map<string, int>
    var barrierStatus: map<string, bool>
    var nextGroupText: string
    var active: bool
    var c: Option<char>
    /** The character stream: the characters and how many `MoveNext` has pulled. */
    var chars: seq<char>
    var pulled: nat

    function State(): GrouperState
      reads this, finder
    {
      GrouperState(parameters, finder.State(), barrierSet, openingMapToClosing, closingMapToOpening,
                   openingMapToDepth, barrierStatus, nextGroupText, active, c, chars, pulled)
    }

    predicate Valid()
      reads this, finder
    {
      finder.Valid() && Between(State())
    }

    /** StringGrouper(parameters, characters) (StringGrouper.cs:94-101). */
    constructor (p: ClassParameters, characters: string)
      requires Admissible(p)
      ensures Valid() && State() == Initial(p, characters) && fresh(finder)
    {
      parameters := p;
      finder := new SequenceFinder.Nothing();
      barrierSet := {};
      openingMapToClosing := map[];
      closingMapToOpening := map[];
      openingMapToDepth := map[];
      barrierStatus := map[];
      nextGroupText := [];
      active := true;
      c := None;
      chars := characters;
      pulled := 0;
      new;
      SetParameters(p);
    }

    /** The `Parameters` setter (StringGrouper.cs:77-90). */
    method SetParameters(value: ClassParameters)
      requires Admissible(value)
      modifies this
      ensures State() == Configure(old(State()), value) && fresh(finder)
    {
      ghost var goal := Configure(State(), value);
      var f, barriers, openings, closings := BuildTables(value);
      parameters := value;
      finder := f;
      barrierSet := barriers;
      openingMapToClosing := openings;
      closingMapToOpening := closings;
      ConfigureFields(old(State()), value, finder.State());
    }

    /** updateActive (StringGrouper.cs:125-131): active iff nothing is open, in either order of the checks. */
    method UpdateActive(bracketsFirst: bool)
      modifies this`active
      ensures active == NothingOpen(openingMapToDepth, barrierStatus)
    {
      active := true;
      if bracketsFirst {
        var open := AnyPositiveDepth(openingMapToDepth);
        if open { active := false; return; }
      }
      var on := AnyBarrierOn(barrierStatus);
      if on { active := false; return; }
      if !bracketsFirst {
        var open := AnyPositiveDepth(openingMapToDepth);
        if open { active := false; return; }
      }
    }

    /** addDepth (StringGrouper.cs:133-140). */
    method AddDepth(openingBracket: string, amount: int)
      modifies this`openingMapToDepth, this`active
      ensures State() == AddDepthTo(old(State()), openingBracket, amount)
    {
      ghost var s := State();
      if openingBracket !in openingMapToDepth {
        openingMapToDepth := openingMapToDepth[openingBracket := 0];
      }
      openingMapToDepth := openingMapToDepth[openingBracket := openingMapToDepth[openingBracket] + amount];
      assert openingMapToDepth == s.openingMapToDepth[openingBracket := DepthOf(s.openingMapToDepth, openingBracket) + amount];
      if openingMapToDepth[openingBracket] != 0 {
        active := false;
      } else if !active {
        UpdateActive(true);
      }
      assert State() == s.(openingMapToDepth := openingMapToDepth, active := active);
    }

    /** subDepth (StringGrouper.cs:141). */
    method SubDepth(openingBracket: string, amount: int)
      modifies this`openingMapToDepth, this`active
      ensures State() == AddDepthTo(old(State()), openingBracket, -amount)
    {
      AddDepth(openingBracket, -amount);
    }

    /** toggleBarrierStatus (StringGrouper.cs:151-158). */
    method ToggleBarrierStatus(barrier: string)
      modifies this`barrierStatus, this`active
      ensures State() == ToggleBarrier(old(State()), barrier)
    {
      ghost var s := State();
      if barrier !in barrierStatus {
        barrierStatus := barrierStatus[barrier := false];
      }
      barrierStatus := barrierStatus[barrier := !barrierStatus[barrier]];
      assert barrierStatus == s.barrierStatus[barrier := !StatusOf(s.barrierStatus, barrier)];
      if barrierStatus[barrier] {
        active := false;
      } else if !active {
        UpdateActive(false);
      }
      assert State() == s.(barrierStatus := barrierStatus, active := active);
    }

    /** `charStream.MoveNext() ? charStream.Current : null`. */
    method MoveNext() returns (next: Option<char>)
      modifies this`pulled
      ensures old(pulled) < |chars| ==> next == Some(chars[old(pulled)]) && pulled == old(pulled) + 1
      ensures old(pulled) >= |chars| ==> next == None && pulled == old(pulled)
    {
      if pulled < |chars| {
        next := Some(chars[pulled]);
        pulled := pulled + 1;
      } else {
        next := None;
      }
    }

    /** StringGrouper.cs:183-188: pull the next character and let the finder look at the previous one. */
    method PullAndLook() returns (sequenceFound: Option<string>)
      requires c.Some? && pulled <= |chars| && finder.Valid()
      modifies this`c, this`pulled, finder
      ensures (State(), sequenceFound) == Advance(old(State()))
    {
      var prev := c.value;
      c := MoveNext();
      sequenceFound := finder.Look(prev, c);
    }

    /** StringGrouper.cs:189-194: a barrier toggles, an opening deepens, a closing shallows its opening. */
    method Handle(lit: string, wtype: WrappingType) returns (w: WrappingType)
      modifies this`openingMapToDepth, this`barrierStatus, this`active
      ensures (State(), w) == HandleMatch(old(State()), lit, wtype)
    {
      w := wtype;
      if lit in barrierSet {
        ToggleBarrierStatus(lit);
        w := Barriers;
      } else if lit in openingMapToClosing {
        AddDepth(lit, 1);
        w := Brackets;
      } else if lit in closingMapToOpening {
        SubDepth(closingMapToOpening[lit], 1);
        w := Brackets;
      }
    }

    /** StringGrouper.cs:182-194: pull, look, and hand a found literal to its handler. */
    method LookAndHandle(wtype: WrappingType) returns (w: WrappingType, sequenceFound: Option<string>)
      requires LoopInv(State())
      modifies this, finder
      ensures finder == old(finder)
      ensures (State(), w, sequenceFound) == Matched(old(State()), wtype)
    {
      assert NoDup(finder.sequences);
      sequenceFound := PullAndLook();
      w := wtype;
      if sequenceFound.Some? {
        w := Handle(sequenceFound.value, wtype);
      }
    }

    /** The wrapped-group return of StringGrouper.cs:199-209. */
    method ActivateTurn(w: WrappingType, lit: string) returns (done: bool, r: Pull)
      modifies this`nextGroupText
      ensures Ended(Activate(old(State()), w, lit), done, r, State(), w)
    {
      if parameters.includeEmpty || |nextGroupText| != 0 {
        if w != Barriers && lit !in closingMapToOpening {
          return true, MissingKey(lit);
        }
        var opening := if w == Barriers then lit else closingMapToOpening[lit];
        var g := Group(nextGroupText, Some(opening), Some(lit), Some(w));
        nextGroupText := OptChars(c);
        return true, Emit(g);
      }
      done, r := EndTurn(w);
    }

    /** The unwrapped-group return of StringGrouper.cs:210-219. */
    method DeactivateTurn(w: WrappingType, lit: string) returns (done: bool, r: Pull)
      requires |lit| <= |nextGroupText|
      modifies this`nextGroupText
      ensures Ended(Deactivate(old(State()), w, lit), done, r, State(), w)
    {
      if parameters.includeEmpty || |nextGroupText| - |lit| != 0 {
        nextGroupText := nextGroupText[..|nextGroupText| - |lit|];
        var g := PlainGroup(nextGroupText);
        nextGroupText := lit + OptChars(c);
        return true, Emit(g);
      }
      done, r := EndTurn(w);
    }

    /** StringGrouper.cs:223-228: return the buffer at the end of input, otherwise append `c`. */
    method EndTurn(w: WrappingType) returns (done: bool, r: Pull)
      modifies this`nextGroupText
      ensures Ended(EndOfTurn(old(State()), w), done, r, State(), w)
    {
      if c.None? {
        var g := PlainGroup(nextGroupText);
        nextGroupText := [];
        return true, Emit(g);
      }
      nextGroupText := nextGroupText + [c.value];
      return false, Exhausted;
    }

    /** One turn of NextGroup's loop (StringGrouper.cs:180-229); `done` when it returns `r`. */
    method Turn(wtype: WrappingType) returns (done: bool, r: Pull, w: WrappingType)
      requires LoopInv(State())
      modifies this, finder
      ensures finder == old(finder)
      ensures Ended(Iterate(old(State()), wtype), done, r, State(), w)
    {
      var initActive := active;
      var sequenceFound;
      w, sequenceFound := LookAndHandle(wtype);
      if initActive == active {
        done, r := EndTurn(w);
      } else if active {
        done, r := ActivateTurn(w, sequenceFound.value);
      } else {
        done, r := DeactivateTurn(w, sequenceFound.value);
      }
    }

    /** StringGrouper.cs:165-178: pull the first character, look at the old `c` with it, append it. */
    method PullFirst() returns (more: bool)
      requires finder.Valid()
      modifies this`c, this`pulled, this`nextGroupText, finder
      ensures more <==> old(pulled) < |chars|
      ensures !more ==> c == None && pulled == old(pulled) && nextGroupText == old(nextGroupText)
                        && finder.State() == old(finder.State())
      ensures more ==>
        && c == Some(chars[old(pulled)]) && pulled == old(pulled) + 1
        && nextGroupText == old(nextGroupText) + [chars[old(pulled)]]
        && finder.State() == if old(c).Some? then Step(old(finder.State()), old(c).value, c).0 else old(finder.State())
    {
      var next := MoveNext();
      if next.None? {
        c := None;
        return false;
      }
      if c.Some? {
        LookDiscarded(c.value, next.value);
      }
      c := next;
      nextGroupText := nextGroupText + [c.value];
      return true;
    }

    /** `finder.Look((char)c, charStream.Current)` with its result dropped (StringGrouper.cs:167). */
    method LookDiscarded(prev: char, d: char)
      requires finder.Valid()
      modifies finder
      ensures finder.State() == Step(old(finder.State()), prev, Some(d)).0
    {
      var _ := finder.Look(prev, Some(d));
    }

    /** NextGroup's `while (true)` loop (StringGrouper.cs:180-230), proved against LoopSpec. */
    method Loop() returns (r: Pull)
      requires LoopInv(State())
      modifies this, finder
      ensures finder == old(finder)
      ensures (r, State()) == LoopSpec(old(State()), Brackets)
    {
      var wtype := Brackets;
      ghost var goal := LoopSpec(State(), wtype);
      while true
        invariant finder == old(finder)
        invariant LoopInv(State()) && LoopSpec(State(), wtype) == goal
        decreases |chars| - pulled
      {
        ghost var before := State();
        IterateKeeps(before, wtype);
        var done, res, w := Turn(wtype);
        if done {
          return res;
        }
        wtype := w;
      }
    }

    /** NextGroup (StringGrouper.cs:161-230), proved against NextGroupSpec. */
    method NextGroup() returns (r: Pull)
      requires Valid()
      modifies this, finder
      ensures finder == old(finder)
      ensures (r, State()) == NextGroupSpec(old(State()))
      ensures !r.MissingKey? ==> Valid()
    {
      r := Produce();
      BetweenFinderValid(State());
    }

    /** NextGroup's body: the prelude, then the loop. */
    method Produce() returns (r: Pull)
      requires Valid()
      modifies this, finder
      ensures finder == old(finder)
      ensures (r, State()) == NextGroupSpec(old(State()))
    {
      ghost var s := State();
      var more := PullFirst();
      if !more {
        return Exhausted;
      }
      PreludeIs(s, State());
      r := Loop();
    }
  }

  /**
   * sgutil.StringGroup (StringGrouper.cs:235-248): a new grouper over `text`, and every group it
   * returns until NextGroup returns null. The outcome is `Exhausted` or the exception.
   */
  method StringGroup(text: string, brackets: Option<seq<Bracket>>, barriers: Option<seq<string>>, includeEmpty: bool)
    returns (groups: seq<Group>, outcome: Pull)
    requires Admissible(MakeParameters(brackets, barriers, includeEmpty))
    ensures var d := Drain(Initial(MakeParameters(brackets, barriers, includeEmpty), text));
      groups == d.0 && outcome == d.1
    ensures !outcome.Emit?
    ensures outcome.Exhausted? ==> Texts(groups) <= text
  {
    var sgr := new StringGrouper(MakeParameters(brackets, barriers, includeEmpty), text);
    groups, outcome := Collect(sgr);
    DrainFromStart(MakeParameters(brackets, barriers, includeEmpty), text);
  }

  /** `while ((g = sgr.NextGroup()) != null) yield return g;`, collecting instead of yielding. */
  method Collect(sgr: StringGrouper) returns (groups: seq<Group>, outcome: Pull)
    requires sgr.Valid()
    modifies sgr, sgr.finder
    ensures groups == Drain(old(sgr.State())).0 && outcome == Drain(old(sgr.State())).1
  {
    ghost var goal := Drain(sgr.State());
    groups := [];
    assert goal.0 == groups + goal.0;
    while true
      invariant sgr.finder == old(sgr.finder) && sgr.Valid()
      invariant goal.0 == groups + Drain(sgr.State()).0 && goal.1 == Drain(sgr.State()).1
      decreases |sgr.chars| - sgr.pulled
    {
      ghost var before := sgr.State();
      var g := sgr.NextGroup();
      CollectStep(before, sgr.State(), g, groups, goal.0, goal.1);
      if !g.Emit? {
        return groups, g;
      }
      groups := groups + [g.group];
    }
  }
}
