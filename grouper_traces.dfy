/**
 * Traces, by proof, of StringGrouper.NextGroup (ParserTranslator/StringGrouper.cs:161-231) on
 * three concrete inputs. `ab` with the barrier `"` shows the end-of-input flush: the cursor
 * runs out with no transition and the buffer is returned as one plain group. The other two
 * show behaviours of the code as written: a wrapped group that is empty inside is not
 * suppressed when IncludeEmpty is false; text left in the buffer after a returned group is
 * never emitted once the cursor is exhausted; and a one-character literal at the character
 * right after the literal that ended a returned group is missed, because the finder's report
 * on it (StringGrouper.cs:167) is thrown away (`ParserTranslation.DiscardedReport`).
 */
module GrouperTraces {
  import opened Wrappers
  import opened ParsingTools
  import opened ParserTranslation

  // One unfolding of each of the functions a run goes through.

  lemma CallRunsLoop(s: GrouperState)
    requires Between(s) && s.pulled < |s.chars|
    ensures NextGroupSpec(s) == LoopSpec(Prelude(s), Brackets)
  {
  }

  lemma TurnContinues(s: GrouperState, w: WrappingType, t: GrouperState, w': WrappingType)
    requires LoopInv(s) && Iterate(s, w) == Continue(t, w')
    ensures LoopInv(t) && LoopSpec(s, w) == LoopSpec(t, w')
  {
    IterateKeeps(s, w);
  }

  lemma TurnReturns(s: GrouperState, w: WrappingType, r: Pull, t: GrouperState)
    requires LoopInv(s) && Iterate(s, w) == Return(r, t)
    ensures LoopSpec(s, w) == (r, t)
  {
  }

  /** A turn in which the finder reports nothing: the next character is appended and the loop goes on. */
  lemma QuietTurn(s: GrouperState, w: WrappingType)
    requires LoopInv(s) && s.pulled < |s.chars|
    requires Step(s.finder, s.c.value, Some(s.chars[s.pulled])).1 == None
    ensures Iterate(s, w) == Continue(s.(finder := Step(s.finder, s.c.value, Some(s.chars[s.pulled])).0,
                                         c := Some(s.chars[s.pulled]), pulled := s.pulled + 1,
                                         nextGroupText := s.nextGroupText + [s.chars[s.pulled]]), w)
  {
  }

  /** A turn in which the finder reports `lit`: the match is handled. */
  lemma FoundTurn(s: GrouperState, w: WrappingType, lit: string)
    requires LoopInv(s) && Advance(s).1 == Some(lit)
    ensures Matched(s, w) == (HandleMatch(Advance(s).0, lit, w).0, HandleMatch(Advance(s).0, lit, w).1, Some(lit))
  {
  }

  /** A turn in which the finder reports `lit` and the dispatch gives `(t, w')`: how the turn ends. */
  lemma MatchedTurn(s: GrouperState, w: WrappingType, lit: string, t: GrouperState, w': WrappingType)
    requires LoopInv(s) && Advance(s).1 == Some(lit) && HandleMatch(Advance(s).0, lit, w) == (t, w')
    ensures |lit| <= |t.nextGroupText|
    ensures s.active == t.active ==> Iterate(s, w) == EndOfTurn(t, w')
    ensures !s.active && t.active ==> Iterate(s, w) == Activate(t, w', lit)
    ensures s.active && !t.active ==> Iterate(s, w) == Deactivate(t, w', lit)
  {
    FoundTurn(s, w, lit);
  }

  /**
   * The last two turns of a call with no literal in sight: the turn at `c` finds nothing and
   * appends the last character; the turn at it finds the cursor exhausted and flushes.
   */
  lemma QuietThenFlush(s: GrouperState, w: WrappingType)
    requires LoopInv(s) && s.pulled + 1 == |s.chars|
    requires Step(s.finder, s.c.value, Some(s.chars[s.pulled])) == (s.finder, None)
    requires Step(s.finder, s.chars[s.pulled], None) == (s.finder, None)
    ensures LoopSpec(s, w)
      == (Emit(PlainGroup(s.nextGroupText + [s.chars[s.pulled]])), s.(c := None, pulled := s.pulled + 1, nextGroupText := []))
  {
    QuietTurn(s, w);
    var t := s.(c := Some(s.chars[s.pulled]), pulled := s.pulled + 1, nextGroupText := s.nextGroupText + [s.chars[s.pulled]]);
    TurnContinues(s, w, t, w);
    AdvanceCursor(t);
    assert Matched(t, w).0 == t.(c := None);
    LoopEndFlush(t, w);
  }

  lemma AddDepthIs(s: GrouperState, opening: string, amount: int)
    ensures var depth := DepthOf(s.openingMapToDepth, opening) + amount;
      AddDepthTo(s, opening, amount)
      == s.(openingMapToDepth := s.openingMapToDepth[opening := depth],
            active := depth == 0 && (s.active || NothingOpen(s.openingMapToDepth[opening := depth], s.barrierStatus)))
  {
  }

  /** The dispatch on an opening literal that is not a barrier: its depth goes up by one. */
  lemma OpeningDispatch(a: GrouperState, lit: string, w: WrappingType)
    requires lit !in a.barrierSet && lit in a.openingMapToClosing
    ensures var depth := DepthOf(a.openingMapToDepth, lit) + 1;
      HandleMatch(a, lit, w)
      == (a.(openingMapToDepth := a.openingMapToDepth[lit := depth],
             active := depth == 0 && (a.active || NothingOpen(a.openingMapToDepth[lit := depth], a.barrierStatus))), Brackets)
  {
    AddDepthIs(a, lit, 1);
  }

  /** The dispatch on a closing literal that is neither a barrier nor an opening: the depth of its opening goes down by one. */
  lemma ClosingDispatch(a: GrouperState, lit: string, w: WrappingType)
    requires lit !in a.barrierSet && lit !in a.openingMapToClosing && lit in a.closingMapToOpening
    ensures var o := a.closingMapToOpening[lit];
      var depth := DepthOf(a.openingMapToDepth, o) - 1;
      HandleMatch(a, lit, w)
      == (a.(openingMapToDepth := a.openingMapToDepth[o := depth],
             active := depth == 0 && (a.active || NothingOpen(a.openingMapToDepth[o := depth], a.barrierStatus))), Brackets)
  {
    AddDepthIs(a, a.closingMapToOpening[lit], -1);
  }

  /** A turn at top level that opens a bracket whose depth was 0, with nothing before it to emit. */
  lemma OpensFromTop(s: GrouperState, w: WrappingType, lit: string)
    requires LoopInv(s) && Advance(s).1 == Some(lit) && Advance(s).0.c.Some?
    requires lit !in s.barrierSet && lit in s.openingMapToClosing && s.active
    requires DepthOf(s.openingMapToDepth, lit) == 0
    requires !s.parameters.includeEmpty && |s.nextGroupText| == |lit|
    ensures Iterate(s, w) == Continue(Advance(s).0.(openingMapToDepth := s.openingMapToDepth[lit := 1], active := false,
                                                    nextGroupText := s.nextGroupText + [Advance(s).0.c.value]), Brackets)
  {
    var a := Advance(s).0;
    AdvanceCursor(s);
    OpeningDispatch(a, lit, w);
    var t := a.(openingMapToDepth := s.openingMapToDepth[lit := 1], active := false);
    MatchedTurn(s, w, lit, t, Brackets);
  }

  /** A turn that closes the one open bracket: the buffer is returned as a group wrapped by the pair. */
  lemma ClosesToTop(s: GrouperState, w: WrappingType, lit: string)
    requires LoopInv(s) && Advance(s).1 == Some(lit)
    requires lit !in s.barrierSet && lit !in s.openingMapToClosing && lit in s.closingMapToOpening && !s.active
    requires DepthOf(s.openingMapToDepth, s.closingMapToOpening[lit]) == 1
    requires NothingOpen(s.openingMapToDepth[s.closingMapToOpening[lit] := 0], s.barrierStatus)
    requires |s.nextGroupText| > 0
    ensures var o := s.closingMapToOpening[lit];
      Iterate(s, w) == Return(Emit(Group(s.nextGroupText, Some(o), Some(lit), Some(Brackets))),
                              Advance(s).0.(openingMapToDepth := s.openingMapToDepth[o := 0], active := true,
                                            nextGroupText := OptChars(Advance(s).0.c)))
  {
    var a := Advance(s).0;
    var o := s.closingMapToOpening[lit];
    AdvanceCursor(s);
    ClosingDispatch(a, lit, w);
    var t := a.(openingMapToDepth := s.openingMapToDepth[o := 0], active := true);
    MatchedTurn(s, w, lit, t, Brackets);
  }

  /** A turn at top level that closes a bracket whose depth was 0: the depth goes to -1 and the grouper deactivates. */
  lemma ClosesBelowTop(s: GrouperState, w: WrappingType, lit: string)
    requires LoopInv(s) && Advance(s).1 == Some(lit)
    requires lit !in s.barrierSet && lit !in s.openingMapToClosing && lit in s.closingMapToOpening && s.active
    requires DepthOf(s.openingMapToDepth, s.closingMapToOpening[lit]) == 0
    requires |s.nextGroupText| > |lit|
    ensures var t := Advance(s).0.(openingMapToDepth := s.openingMapToDepth[s.closingMapToOpening[lit] := -1], active := false);
      |lit| < |t.nextGroupText| && Iterate(s, w) == Deactivate(t, Brackets, lit)
  {
    var a := Advance(s).0;
    AdvanceCursor(s);
    ClosingDispatch(a, lit, w);
    MatchedTurn(s, w, lit, a.(openingMapToDepth := s.openingMapToDepth[s.closingMapToOpening[lit] := -1], active := false), Brackets);
  }

  /** Deactivate with text before the opening literal returns that text as a plain group. */
  lemma DeactivateEmits(t: GrouperState, w: WrappingType, opening: string, before: string)
    requires t.nextGroupText == before + opening && |before| > 0
    ensures Deactivate(t, w, opening) == Return(Emit(PlainGroup(before)), t.(nextGroupText := opening + OptChars(t.c)))
  {
    assert t.nextGroupText[..|t.nextGroupText| - |opening|] == before;
  }

  lemma DrainTakes(s: GrouperState, g: Group, t: GrouperState)
    requires Between(s) && NextGroupSpec(s) == (Emit(g), t)
    ensures Between(t) && Drain(s) == ([g] + Drain(t).0, Drain(t).1, Drain(t).2)
  {
  }

  lemma DrainEnds(s: GrouperState)
    requires Between(s) && s.pulled == |s.chars|
    ensures Drain(s) == ([], Exhausted, s.(c := None))
  {
  }

  /** A call that returns a group, followed by a drain that yields one more. */
  lemma DrainsFirst(s: GrouperState, g: Group, t: GrouperState, h: Group, u: GrouperState)
    requires Between(s) && NextGroupSpec(s) == (Emit(g), t) && Drain(t) == ([h], Exhausted, u)
    ensures Drain(s) == ([g, h], Exhausted, u)
  {
    DrainTakes(s, g, t);
    var rest := Drain(t);
    assert rest.0 == [h] && rest.1 == Exhausted && rest.2 == u;
    assert [g] + rest.0 == [g, h];
  }

  /** A call that returns the last group: the drain yields it and ends. */
  lemma DrainsLast(s: GrouperState, g: Group, t: GrouperState)
    requires Between(s) && NextGroupSpec(s) == (Emit(g), t) && t.pulled == |t.chars|
    ensures Drain(s) == ([g], Exhausted, t.(c := None))
  {
    DrainTakes(s, g, t);
    DrainEnds(t);
    assert [g] + [] == [g];
  }

  lemma TextsOfOne(g: Group)
    ensures Texts([g]) == g.text
  {
    assert [g][..0] == [];
  }

  /** The barrier `"` on its own: no brackets, empty groups not included. */
  function QuoteOnly(): ClassParameters
  {
    ClassParameters([], ["\""], false)
  }

  /** The grouper over `text` before its first NextGroup, configured with QuoteOnly. */
  function QuoteStart(text: string): GrouperState
  {
    GrouperState(QuoteOnly(), FinderState(["\""], ["\""], 0), {"\""}, map[], map[], map[], map[],
                 [], true, None, text, 0)
  }

  lemma QuoteInitial(text: string)
    ensures Initial(QuoteOnly(), text) == QuoteStart(text)
  {
    var p := QuoteOnly();
    assert Flatten([]) == [];
    assert Literals(p) == ["\""];
    assert Distinct(["\""]) == ["\""];
    assert Swapped([]) == [];
    assert BarrierSet(p) == {"\""};
  }

  /** Looking at `"` with any lookahead but `"` (or the end) reports the barrier and resets. */
  lemma QuoteLook(next: Option<char>)
    ensures Step(FinderState(["\""], ["\""], 0), '"', next) == (FinderState(["\""], ["\""], 0), Some("\""))
  {
    var lits: seq<string> := ["\""];
    assert lits[1..] == [];
    assert Survivors(lits, 0, '"') == lits;
    assert !CanExtend(lits, 0, next);
    assert Completed(lits, 0, '"') == Some("\"");
  }

  /** The group `""`: wrapped by the barrier, nothing inside. */
  function EmptyQuote(): Group
  {
    Group("\"\"", Some("\""), Some("\""), Some(Barriers))
  }

  /** The state at the head of the second turn on `""y`: the barrier is on, the buffer holds `""`. */
  function QuoteOpened(): GrouperState
  {
    QuoteStart("\"\"y").(c := Some('"'), pulled := 2, nextGroupText := "\"\"",
                         barrierStatus := map["\"" := true], active := false)
  }

  /** The state after `""` is returned: the barrier is off and the buffer holds the `y` after it. */
  function QuoteClosed(): GrouperState
  {
    QuoteStart("\"\"y").(c := Some('y'), pulled := 3, nextGroupText := "y",
                         barrierStatus := map["\"" := false], active := true)
  }

  /**
   * First turn on `""y`: the opening `"` turns the barrier on; the group before it would be
   * empty, so it is suppressed and the loop goes on with `""` in the buffer.
   */
  lemma QuoteFirstTurn()
    ensures Prelude(QuoteStart("\"\"y")) == QuoteStart("\"\"y").(c := Some('"'), pulled := 1, nextGroupText := "\"")
    ensures Iterate(Prelude(QuoteStart("\"\"y")), Brackets) == Continue(QuoteOpened(), Barriers)
  {
    var s1 := Prelude(QuoteStart("\"\"y"));
    assert "\"\"y"[0] == '"' && "\"\"y"[1] == '"';
    QuoteLook(Some('"'));
    var a := Advance(s1);
    assert a == (s1.(c := Some('"'), pulled := 2), Some("\""));
    assert ToggleBarrier(a.0, "\"") == a.0.(barrierStatus := map["\"" := true], active := false);
  }

  /**
   * Second turn: the closing `"` turns the barrier off; the buffer `""` is returned as a
   * wrapped group although it is empty inside, and the buffer restarts as `y`.
   */
  lemma QuoteSecondTurn()
    ensures Iterate(QuoteOpened(), Barriers) == Return(Emit(EmptyQuote()), QuoteClosed())
  {
    var s2 := QuoteOpened();
    assert "\"\"y"[2] == 'y';
    QuoteLook(Some('y'));
    var a := Advance(s2);
    assert a == (s2.(c := Some('y'), pulled := 3), Some("\""));
    var off := map["\"" := false];
    assert NothingOpen(map[], off);
    assert ToggleBarrier(a.0, "\"") == a.0.(barrierStatus := off, active := true);
  }

  /** The first NextGroup on `""y` returns `""` and leaves `y` in the buffer. */
  lemma QuoteFirstCall()
    ensures NextGroupSpec(QuoteStart("\"\"y")) == (Emit(EmptyQuote()), QuoteClosed())
  {
    QuoteInitial("\"\"y");
    QuoteFirstTurn();
    QuoteSecondTurn();
    var s0 := QuoteStart("\"\"y");
    CallRunsLoop(s0);
    TurnContinues(Prelude(s0), Brackets, QuoteOpened(), Barriers);
    TurnReturns(QuoteOpened(), Barriers, Emit(EmptyQuote()), QuoteClosed());
  }

  /**
   * StringGroup on `""y` with the barrier `"` and IncludeEmpty false yields the single group
   * `""`, which is empty inside; the `y` after it stays in the buffer and is never yielded,
   * so the groups do not spell out the input.
   */
  lemma QuoteLosesTail()
    ensures var (groups, outcome, u) := Drain(Initial(QuoteOnly(), "\"\"y"));
      && groups == [EmptyQuote()] && outcome == Exhausted
      && EmptyQuote().Unwrappable() && EmptyQuote().EmptyUnwrapped()
      && u.nextGroupText == "y" && Texts(groups) + "y" == "\"\"y" && Texts(groups) != "\"\"y"
  {
    QuoteInitial("\"\"y");
    QuoteDrain();
    QuoteTexts();
  }

  lemma QuoteTexts()
    ensures Texts([EmptyQuote()]) + "y" == "\"\"y" && Texts([EmptyQuote()]) != "\"\"y"
    ensures EmptyQuote().Unwrappable() && EmptyQuote().EmptyUnwrapped()
  {
    TextsOfOne(EmptyQuote());
    var t: string := "\"\"";
    assert t + "y" == "\"\"y";
    assert |t| != |"\"\"y"|;
  }

  lemma QuoteDrain()
    ensures Drain(QuoteStart("\"\"y")) == ([EmptyQuote()], Exhausted, QuoteClosed().(c := None))
  {
    QuoteInitial("\"\"y");
    QuoteFirstCall();
    DrainsLast(QuoteStart("\"\"y"), EmptyQuote(), QuoteClosed());
  }

  // ----------------------------------------------------------------------------------------
  // `ab` with the barrier `"`: the cursor runs out with no transition and the buffer is flushed
  // ----------------------------------------------------------------------------------------

  /** Away from `"`, the finder for the barrier alone reports nothing and stays at its start. */
  lemma QuoteSkip(x: char, next: Option<char>)
    requires x != '"'
    ensures Step(FinderState(["\""], ["\""], 0), x, next) == (FinderState(["\""], ["\""], 0), None)
  {
    var lits: seq<string> := ["\""];
    assert lits[1..] == [];
    assert Survivors(lits, 0, x) == [];
  }

  /**
   * NextGroup over two characters neither of which is `"`: the turn at the first finds
   * nothing and appends the second; the turn at the second finds the cursor exhausted and no
   * transition, so the buffer is returned as one plain group and cleared.
   */
  lemma FlushCall(s: GrouperState)
    requires Between(s) && s.finder == FinderState(["\""], ["\""], 0) && s.pulled == 0 && s.c == None
    requires |s.chars| == 2 && s.chars[0] != '"' && s.chars[1] != '"'
    ensures NextGroupSpec(s)
      == (Emit(PlainGroup(s.nextGroupText + [s.chars[0]] + [s.chars[1]])), s.(c := None, pulled := 2, nextGroupText := []))
  {
    var t := s.(c := Some(s.chars[0]), pulled := 1, nextGroupText := s.nextGroupText + [s.chars[0]]);
    PreludeIs(s, t);
    CallRunsLoop(s);
    QuoteSkip(s.chars[0], Some(s.chars[1]));
    QuoteSkip(s.chars[1], None);
    QuietThenFlush(t, Brackets);
  }

  lemma FlushTexts(buffer: string)
    requires buffer == []
    ensures PlainGroup(buffer + ['a'] + ['b']) == PlainGroup("ab") && Texts([PlainGroup("ab")]) == "ab"
  {
    TextsOfOne(PlainGroup("ab"));
  }

  /**
   * StringGroup on `ab` with the barrier `"`: no literal occurs, so the cursor runs out with
   * no transition; the whole text is returned as one plain group and the buffer is cleared.
   */
  lemma PlainTextFlushed()
    ensures var (groups, outcome, u) := Drain(Initial(QuoteOnly(), "ab"));
      && groups == [PlainGroup("ab")] && outcome == Exhausted && u.nextGroupText == [] && Texts(groups) == "ab"
  {
    var s := Initial(QuoteOnly(), "ab");
    QuoteInitial("ab");
    assert s.chars[0] == 'a' && s.chars[1] == 'b';
    FlushCall(s);
    DrainsLast(s, PlainGroup(s.nextGroupText + ['a'] + ['b']), s.(c := None, pulled := 2, nextGroupText := []));
    FlushTexts(s.nextGroupText);
  }

  // ----------------------------------------------------------------------------------------
  // `(a)(b)` with the bracket pair ( ): the opening after a returned group is missed
  // ----------------------------------------------------------------------------------------

  function Parens(): ClassParameters
  {
    ClassParameters([("(", ")")], [], false)
  }

  function ParenFinder(): FinderState
  {
    FinderState(["(", ")"], ["(", ")"], 0)
  }

  /** The tables and the cursor length every state of the run over `(a)(b)` shares, field by field. */
  predicate ParenTables(s: GrouperState)
  {
    && s.finder == ParenFinder()
    && "(" !in s.barrierSet && ")" !in s.barrierSet
    && "(" in s.openingMapToClosing && ")" !in s.openingMapToClosing
    && ")" in s.closingMapToOpening && s.closingMapToOpening[")"] == "("
    && !s.parameters.includeEmpty && |s.chars| == 6
  }

  /** The literals the `Parameters` setter hands to the finder for the pair ( ). */
  lemma ParenLiterals(p: ClassParameters)
    requires p == Parens()
    ensures Distinct(Literals(p)) == ["(", ")"] && BarrierSet(p) == {}
  {
    var pairs: seq<Bracket> := [("(", ")")];
    assert pairs[1..] == [];
    assert Flatten(pairs) == ["(", ")"];
    assert Literals(p) == ["(", ")"];
    assert Distinct(["(", ")"]) == ["(", ")"];
  }

  /** The dictionaries the `Parameters` setter builds for the pair ( ). */
  lemma ParenConfig(p: ClassParameters)
    requires p == Parens()
    ensures Admissible(p) && Distinct(Literals(p)) == ["(", ")"] && BarrierSet(p) == {}
    ensures OpeningMap(p) == map["(" := ")"] && ClosingMap(p) == map[")" := "("]
  {
    ParenLiterals(p);
    var pairs: seq<Bracket> := [("(", ")")];
    assert pairs[..0] == [];
    assert ToDictionary(pairs) == map["(" := ")"];
    assert Swapped(pairs) == [(")", "(")];
    var swapped: seq<Bracket> := [(")", "(")];
    assert swapped[..0] == [];
    assert ToDictionary(swapped) == map[")" := "("];
  }

  /** What the finder does on `(a)(b)`: a bracket is reported at once, any other character is skipped. */
  lemma ParenLook(f: FinderState, c: char, next: Option<char>)
    requires f == ParenFinder()
    ensures c == '(' ==> Step(f, c, next) == (f, Some("("))
    ensures c == ')' ==> Step(f, c, next) == (f, Some(")"))
    ensures c != '(' && c != ')' ==> Step(f, c, next) == (f, None)
  {
    var lits: seq<string> := ["(", ")"];
    assert lits[1..] == [")"] && lits[1..][1..] == [];
    assert Survivors(lits[1..][1..], 0, c) == [];
    if c == '(' {
      assert Survivors(lits[1..], 0, c) == [];
      assert Survivors(lits, 0, c) == ["("];
      assert !CanExtend(["("], 0, next);
    } else if c == ')' {
      assert Survivors(lits[1..], 0, c) == [")"];
      assert Survivors(lits, 0, c) == [")"];
      assert !CanExtend([")"], 0, next);
      assert Completed(lits[1..], 0, c) == Some(")");
    } else {
      assert Survivors(lits[1..], 0, c) == [];
      assert Survivors(lits, 0, c) == [];
    }
  }

  function ParenGroup(): Group
  {
    Group("(a)", Some("("), Some(")"), Some(Brackets))
  }

  /** A turn on a character that is not a bracket: it is appended and the loop goes on. */
  lemma ParenQuiet(s: GrouperState)
    requires LoopInv(s) && ParenTables(s) && s.pulled < |s.chars| && s.c.value != '(' && s.c.value != ')'
    ensures Iterate(s, Brackets) == Continue(s.(c := Some(s.chars[s.pulled]), pulled := s.pulled + 1,
                                                nextGroupText := s.nextGroupText + [s.chars[s.pulled]]), Brackets)
  {
    ParenLook(s.finder, s.c.value, Some(s.chars[s.pulled]));
    QuietTurn(s, Brackets);
  }

  /** Turn 1: `(` opens; the group before it would be empty, so the loop goes on. */
  lemma ParenTurn1(s: GrouperState)
    requires LoopInv(s) && ParenTables(s) && s.pulled == 1 && s.c == Some('(') && s.chars[1] == 'a'
    requires s.active && DepthOf(s.openingMapToDepth, "(") == 0 && |s.nextGroupText| == 1
    ensures Iterate(s, Brackets) == Continue(s.(c := Some('a'), pulled := 2, nextGroupText := s.nextGroupText + ['a'],
                                                openingMapToDepth := s.openingMapToDepth["(" := 1], active := false), Brackets)
  {
    ParenLook(s.finder, '(', Some('a'));
    assert Advance(s) == (s.(c := Some('a'), pulled := 2), Some("("));
    OpensFromTop(s, Brackets, "(");
  }

  /** Turn 3: `)` closes; the buffer is returned as a wrapped group and restarts with the next `(`. */
  lemma ParenTurn3(s: GrouperState)
    requires LoopInv(s) && ParenTables(s) && s.pulled == 3 && s.c == Some(')') && s.chars[3] == '('
    requires !s.active && DepthOf(s.openingMapToDepth, "(") == 1 && |s.nextGroupText| > 0
    requires NothingOpen(s.openingMapToDepth["(" := 0], s.barrierStatus)
    ensures Iterate(s, Brackets)
      == Return(Emit(Group(s.nextGroupText, Some("("), Some(")"), Some(Brackets))),
                s.(c := Some('('), pulled := 4, nextGroupText := ['('], openingMapToDepth := s.openingMapToDepth["(" := 0], active := true))
  {
    ParenLook(s.finder, ')', Some('('));
    assert Advance(s) == (s.(c := Some('('), pulled := 4), Some(")"));
    ClosesToTop(s, Brackets, ")");
  }

  /**
   * The second call's prelude hands the `(` that restarted the buffer to the finder, which
   * reports it, and the report is dropped (StringGrouper.cs:167): the depth is not touched.
   */
  lemma ParenPrelude2(s: GrouperState)
    requires Between(s) && ParenTables(s) && s.pulled == 4 && s.c == Some('(') && s.chars[4] == 'b'
    ensures Step(s.finder, '(', Some('b')).1 == Some("(")
    ensures Prelude(s) == s.(c := Some('b'), pulled := 5, nextGroupText := s.nextGroupText + ['b'])
  {
    ParenLook(s.finder, '(', Some('b'));
    PreludeIs(s, s.(c := Some('b'), pulled := 5, nextGroupText := s.nextGroupText + ['b']));
  }

  /**
   * Turn 6: the last `)` closes a bracket the grouper never saw open; the depth goes to -1,
   * the grouper turns inactive, and the text before `)` is returned as a plain group with
   * `)` left in the buffer.
   */
  lemma ParenTurn6(s: GrouperState, before: string)
    requires LoopInv(s) && ParenTables(s) && s.pulled == 6 && s.c == Some(')')
    requires s.active && DepthOf(s.openingMapToDepth, "(") == 0 && s.nextGroupText == before + [')'] && |before| > 0
    ensures Iterate(s, Brackets)
      == Return(Emit(PlainGroup(before)),
                s.(c := None, nextGroupText := [')'], openingMapToDepth := s.openingMapToDepth["(" := -1], active := false))
  {
    ParenLook(s.finder, ')', None);
    assert Advance(s) == (s.(c := None), Some(")"));
    ClosesBelowTop(s, Brackets, ")");
    var t := s.(c := None, openingMapToDepth := s.openingMapToDepth["(" := -1], active := false);
    assert Advance(s).0.(openingMapToDepth := s.openingMapToDepth[s.closingMapToOpening[")"] := -1], active := false) == t;
    DeactivateEmits(t, Brackets, ")", before);
    assert ")" + OptChars(t.c) == [')'];
    assert t.(nextGroupText := [')'])
        == s.(c := None, nextGroupText := [')'], openingMapToDepth := s.openingMapToDepth["(" := -1], active := false);
  }

  /** Opening a bracket from depth 0 and closing it again leaves nothing open. */
  lemma Reclosed(depths: map<string, int>, status: map<string, bool>, opening: string)
    requires NothingOpen(depths, status)
    ensures NothingOpen(depths[opening := 1][opening := 0], status)
  {
    assert depths[opening := 1][opening := 0] == depths[opening := 0];
  }

  /** What a fresh grouper over `(a)(b)` holds, in the terms the turns above use. */
  lemma ParenStartTables(s: GrouperState)
    requires Between(s) && s.parameters == Parens() && s.chars == "(a)(b)"
    requires s.openingMapToDepth == map[]
    ensures ParenTables(s)
    ensures s.chars[0] == '(' && s.chars[1] == 'a' && s.chars[2] == ')' && s.chars[3] == '(' && s.chars[4] == 'b' && s.chars[5] == ')'
    ensures DepthOf(s.openingMapToDepth, "(") == 0
    ensures s.openingMapToDepth["(" := 1]["(" := 0]["(" := -1] == map["(" := -1]
  {
    ParenConfig(s.parameters);
    assert map[]["(" := 1]["(" := 0]["(" := -1] == map["(" := -1];
  }

  /** The group the first call returns: the buffer up to the closing bracket, wrapped by ( ). */
  function FirstParen(buffer: string): Group
  {
    Group(buffer, Some("("), Some(")"), Some(Brackets))
  }

  /** From turn 3 of the first call: the loop returns the buffer. */
  lemma ParenLoop3(s: GrouperState)
    requires LoopInv(s) && ParenTables(s) && s.pulled == 3 && s.c == Some(')') && s.chars[3] == '('
    requires !s.active && DepthOf(s.openingMapToDepth, "(") == 1 && |s.nextGroupText| > 0
    requires NothingOpen(s.openingMapToDepth["(" := 0], s.barrierStatus)
    ensures LoopSpec(s, Brackets)
      == (Emit(FirstParen(s.nextGroupText)),
          s.(c := Some('('), pulled := 4, nextGroupText := ['('], openingMapToDepth := s.openingMapToDepth["(" := 0], active := true))
  {
    ParenTurn3(s);
    TurnReturns(s, Brackets, Emit(FirstParen(s.nextGroupText)),
                s.(c := Some('('), pulled := 4, nextGroupText := ['('], openingMapToDepth := s.openingMapToDepth["(" := 0], active := true));
  }

  /** From turn 2 of the first call: `a` is followed by `)`, which is appended, then turn 3. */
  lemma ParenLoop2(s: GrouperState)
    requires LoopInv(s) && ParenTables(s) && s.pulled == 2 && s.c == Some('a') && s.chars[2] == ')' && s.chars[3] == '('
    requires !s.active && DepthOf(s.openingMapToDepth, "(") == 1
    requires NothingOpen(s.openingMapToDepth["(" := 0], s.barrierStatus)
    ensures LoopSpec(s, Brackets)
      == (Emit(FirstParen(s.nextGroupText + [')'])),
          s.(c := Some('('), pulled := 4, nextGroupText := ['('], openingMapToDepth := s.openingMapToDepth["(" := 0], active := true))
  {
    var t := s.(c := Some(')'), pulled := 3, nextGroupText := s.nextGroupText + [')']);
    ParenQuiet(s);
    TurnContinues(s, Brackets, t, Brackets);
    ParenLoop3(t);
  }

  /** From turn 1 of the first call: `(` opens, then turns 2 and 3. */
  lemma ParenLoop1(s: GrouperState)
    requires LoopInv(s) && ParenTables(s) && s.pulled == 1 && s.c == Some('(')
    requires s.chars[1] == 'a' && s.chars[2] == ')' && s.chars[3] == '('
    requires s.active && DepthOf(s.openingMapToDepth, "(") == 0 && |s.nextGroupText| == 1
    ensures LoopSpec(s, Brackets)
      == (Emit(FirstParen(s.nextGroupText + ['a'] + [')'])),
          s.(c := Some('('), pulled := 4, nextGroupText := ['('], openingMapToDepth := s.openingMapToDepth["(" := 1]["(" := 0], active := true))
  {
    var t := s.(c := Some('a'), pulled := 2, nextGroupText := s.nextGroupText + ['a'],
                openingMapToDepth := s.openingMapToDepth["(" := 1], active := false);
    ParenTurn1(s);
    TurnContinues(s, Brackets, t, Brackets);
    Reclosed(s.openingMapToDepth, s.barrierStatus, "(");
    ParenLoop2(t);
  }

  /** The first NextGroup on `(a)(b)` returns the wrapped `(a)` and leaves `(` in the buffer. */
  lemma ParenFirstCall(s: GrouperState)
    requires Between(s) && ParenTables(s) && s.pulled == 0 && s.c == None
    requires s.chars[0] == '(' && s.chars[1] == 'a' && s.chars[2] == ')' && s.chars[3] == '('
    requires s.active && DepthOf(s.openingMapToDepth, "(") == 0 && |s.nextGroupText| == 0
    ensures NextGroupSpec(s)
      == (Emit(FirstParen(s.nextGroupText + ['('] + ['a'] + [')'])),
          s.(c := Some('('), pulled := 4, nextGroupText := ['('], openingMapToDepth := s.openingMapToDepth["(" := 1]["(" := 0], active := true))
  {
    var t := s.(c := Some('('), pulled := 1, nextGroupText := s.nextGroupText + ['(']);
    PreludeIs(s, t);
    CallRunsLoop(s);
    ParenLoop1(t);
  }

  /** From turn 6 of the second call: the loop returns the text before the last `)`. */
  lemma ParenLoop6(s: GrouperState, before: string)
    requires LoopInv(s) && ParenTables(s) && s.pulled == 6 && s.c == Some(')')
    requires s.active && DepthOf(s.openingMapToDepth, "(") == 0 && s.nextGroupText == before + [')'] && |before| > 0
    ensures LoopSpec(s, Brackets)
      == (Emit(PlainGroup(before)),
          s.(c := None, nextGroupText := [')'], openingMapToDepth := s.openingMapToDepth["(" := -1], active := false))
  {
    ParenTurn6(s, before);
    TurnReturns(s, Brackets, Emit(PlainGroup(before)),
                s.(c := None, nextGroupText := [')'], openingMapToDepth := s.openingMapToDepth["(" := -1], active := false));
  }

  /** From turn 5 of the second call: `b` is followed by `)`, which is appended, then turn 6. */
  lemma ParenLoop5(s: GrouperState)
    requires LoopInv(s) && ParenTables(s) && s.pulled == 5 && s.c == Some('b') && s.chars[5] == ')'
    requires s.active && DepthOf(s.openingMapToDepth, "(") == 0 && |s.nextGroupText| > 0
    ensures LoopSpec(s, Brackets)
      == (Emit(PlainGroup(s.nextGroupText)),
          s.(c := None, pulled := 6, nextGroupText := [')'], openingMapToDepth := s.openingMapToDepth["(" := -1], active := false))
  {
    var t := s.(c := Some(')'), pulled := 6, nextGroupText := s.nextGroupText + [')']);
    ParenQuiet(s);
    TurnContinues(s, Brackets, t, Brackets);
    ParenLoop6(t, s.nextGroupText);
  }

  /** The second NextGroup returns the plain group `(b`, with the depth of `(` at -1 and `)` left over. */
  lemma ParenSecondCall(s: GrouperState)
    requires Between(s) && ParenTables(s) && s.pulled == 4 && s.c == Some('(') && s.chars[4] == 'b' && s.chars[5] == ')'
    requires s.active && DepthOf(s.openingMapToDepth, "(") == 0
    ensures NextGroupSpec(s)
      == (Emit(PlainGroup(s.nextGroupText + ['b'])),
          s.(c := None, pulled := 6, nextGroupText := [')'], openingMapToDepth := s.openingMapToDepth["(" := -1], active := false))
  {
    var t := s.(c := Some('b'), pulled := 5, nextGroupText := s.nextGroupText + ['b']);
    ParenPrelude2(s);
    CallRunsLoop(s);
    ParenLoop5(t);
  }

  /** Draining from after the first group: `(b` is yielded, then the cursor is exhausted. */
  lemma ParenDrainRest(s: GrouperState)
    requires Between(s) && ParenTables(s) && s.pulled == 4 && s.c == Some('(') && s.chars[4] == 'b' && s.chars[5] == ')'
    requires s.active && DepthOf(s.openingMapToDepth, "(") == 0
    ensures Drain(s)
      == ([PlainGroup(s.nextGroupText + ['b'])], Exhausted,
          s.(c := None, pulled := 6, nextGroupText := [')'], openingMapToDepth := s.openingMapToDepth["(" := -1], active := false))
  {
    var t := s.(c := None, pulled := 6, nextGroupText := [')'], openingMapToDepth := s.openingMapToDepth["(" := -1], active := false);
    ParenSecondCall(s);
    DrainsLast(s, PlainGroup(s.nextGroupText + ['b']), t);
    assert t.(c := None) == t;
  }

  /** Draining a fresh grouper over `(a)(b)`: the wrapped `(a)`, then the plain `(b`, then the end. */
  lemma ParenDrain(s: GrouperState)
    requires Between(s) && ParenTables(s) && s.pulled == 0 && s.c == None
    requires s.chars[0] == '(' && s.chars[1] == 'a' && s.chars[2] == ')' && s.chars[3] == '(' && s.chars[4] == 'b' && s.chars[5] == ')'
    requires s.active && DepthOf(s.openingMapToDepth, "(") == 0 && |s.nextGroupText| == 0
    ensures Drain(s)
      == ([FirstParen(s.nextGroupText + ['('] + ['a'] + [')']), PlainGroup(['('] + ['b'])], Exhausted,
          s.(c := None, pulled := 6, nextGroupText := [')'],
             openingMapToDepth := s.openingMapToDepth["(" := 1]["(" := 0]["(" := -1], active := false))
  {
    var t := s.(c := Some('('), pulled := 4, nextGroupText := ['('],
                openingMapToDepth := s.openingMapToDepth["(" := 1]["(" := 0], active := true);
    ParenFirstCall(s);
    ParenDrainRest(t);
    DrainsFirst(s, FirstParen(s.nextGroupText + ['('] + ['a'] + [')']), t, PlainGroup(['('] + ['b']),
                t.(c := None, pulled := 6, nextGroupText := [')'], openingMapToDepth := t.openingMapToDepth["(" := -1], active := false));
  }

  /** The texts of the run on `(a)(b)`, spelled out. */
  lemma ParenTexts(buffer: string)
    requires buffer == []
    ensures FirstParen(buffer + ['('] + ['a'] + [')']) == ParenGroup()
    ensures PlainGroup(['('] + ['b']) == PlainGroup("(b")
  {
    assert buffer + ['('] + ['a'] + [')'] == "(a)";
    assert ['('] + ['b'] == "(b";
  }

  /**
   * StringGroup on `(a)(b)` with the pair ( ) and IncludeEmpty false yields the wrapped `(a)`
   * and then the plain group `(b`: the finder's report of the second `(` is dropped by the
   * second call's prelude, so the final `)` closes a bracket the grouper never saw open. The
   * depth of `(` ends at -1 and the `)` is never yielded.
   */
  lemma ParenMissesOpening(p: ClassParameters, text: string)
    requires p == Parens() && text == "(a)(b)"
    ensures Admissible(p)
    ensures var (groups, outcome, u) := Drain(Initial(p, text));
      && groups == [ParenGroup(), PlainGroup("(b")] && outcome == Exhausted
      && u.nextGroupText == ")" && u.openingMapToDepth == map["(" := -1] && !u.active
  {
    ParenConfig(p);
    var s := Initial(p, text);
    ParenStartTables(s);
    ParenDrain(s);
    ParenTexts(s.nextGroupText);
  }
}
