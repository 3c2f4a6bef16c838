# ParserTranslator core in Dafny

This is a Dafny model of the two cooperating components at the core of ParserTranslator.

- **`SequenceFinder`** (namespace `ParsingTools`) is a streaming multi-literal matcher.
  - Each call to `Look(c, next)` passes one character and a one-character lookahead. The lookahead is null at the end of the text.
  - The finder keeps the literals that are still possible and a `progress` count of how many of their characters have matched.
  - It drops the candidates that disagree with `c`. It extends the match while some candidate can take `next`.
  - Otherwise it resets and reports the literal that completed on `c`, if any.
  - The match is greedy, with one character of lookahead and no backtracking. A shorter literal passed over on the way to a longer one that then fails is not reported (`ParsingTools.GreedyPassesOverShorter`).
- **`StringGrouper`** (namespace `ParserTranslation`) is a bracket/barrier grouping tokenizer.
  - `NextGroup()` pulls characters from a cursor and feeds (previous, current) pairs to a finder. The finder is configured with the barriers, then every opening and closing bracket literal.
  - A matched literal is handled in this order: as a barrier, which toggles its status; as an opening bracket, which adds one to its depth; as a closing bracket, which subtracts one from its opening's depth.
  - On the change from top level (`active`) to nested, the grouper emits the text before the delimiter as a plain group.
  - On the change back to top level, it emits the buffered text as a group wrapped by the opening and closing literals.
  - When the cursor runs out in a turn with no transition, it emits the rest of the buffer as a plain group (StringGrouper.cs:223-228).
  - When the cursor runs out in a turn that returns a group at :207 or :217, nothing more is emitted. The same holds when a call starts with the cursor already exhausted, which returns null at :166-173. See the first item below.

## How the model is built

- Module `Wrappers` holds `Option`, the model of `char?` and nullable strings.
- Module `ParsingTools` (file `sequence_finder.dfy`) models the finder.
  - `FinderState` is a value of its fields `sequences`, `possible` and `progress`. `Step` is one call of `Look` on such a value.
  - The class `SequenceFinder` has the same fields. Its methods run the source's loops: the reverse removal loop and the `foreach`-with-`break` search.
  - Each method is proved to compute `Step`, or the reset state, on its fields.
  - The lemmas state what `Step` does. It keeps the invariant that `possible` is exactly the configured literals beginning with the characters consumed since the last reset.
  - `ScanFrom` and `FindAll` are the scanning loop from the class comment. `DocExample` proves that the comment's example reports `:=` and then `+`.
- Module `ParserTranslation` (file `string_grouper.dfy`) models the grouper.
  - `ClassParameters`, `Group` and `WrappingType` are datatypes with the same members.
  - `GrouperState` is a value of all the grouper's fields. The `IEnumerator<char>` cursor becomes the characters `chars` and the count `pulled` that `MoveNext` has delivered.
  - `Iterate` is one turn of `NextGroup`'s `while (true)` loop, `LoopSpec` the whole loop, and `NextGroupSpec` one call of `NextGroup`.
  - `Drain` is `sgutil.StringGroup`: every group until `NextGroup` returns null.
  - The class `StringGrouper` holds the same fields. It implements the `Parameters` setter, `updateActive`, `addDepth`, `subDepth`, `toggleBarrierStatus` and `NextGroup` with the source's loops and dictionary updates, and each method is proved to compute its specification function.
- Module `GrouperTraces` (file `grouper_traces.dfy`) traces `NextGroup` by proof on three concrete inputs.
  - On `ab` with the barrier `"`, no literal occurs. The cursor runs out with no transition, and the whole text is returned as one plain group (`GrouperTraces.PlainTextFlushed`).
  - The other two inputs show the three behaviours of the code as written listed below.

The model follows the code where one might expect groups to cover all of the input:

- **Text after the last returned group is lost.** No group is emitted for it once the cursor is exhausted (StringGrouper.cs:166-173).
  - `GrouperTraces.QuoteLosesTail` shows this. The barrier is `"` and the input is `""y`, which yields only `""`; the `y` stays in the buffer.
  - `ParserTranslation.DrainConserves` states the exact law: the groups' texts followed by what is left in the buffer spell out the input.
- **A wrapped group that is empty inside is still emitted.** This holds with `IncludeEmpty` false, because the test at :201 measures the whole buffer, delimiters included. `QuoteLosesTail` shows this too.
- **A one-character literal right after a returned group can be missed.** This is the character just after the literal that ended the group. The next call's prelude feeds it to the finder at :167 and discards the report.
  - `ParserTranslation.DiscardedReport` states what is lost. The report is at most that one character. It is lost exactly when that character is a configured literal and no literal begins with it followed by the next character.
  - When some longer literal does begin that way, nothing is lost: the finder keeps the match going.
  - `GrouperTraces.ParenMissesOpening` shows this. With the pair `( )`, the input `(a)(b)` yields `(a)` and then the plain group `(b`.
  - The second `(` is never counted, because `(` is a one-character literal. The final `)` drives the depth to -1, which makes the grouper inactive. The `)` stays in the buffer.
- **A negative depth counts as closed** (:128, :130). Any nonzero depth still makes the grouper inactive (:136-137).
- **The lookup at :204 can fail.** It throws `KeyNotFoundException` when an opening that is neither a barrier nor a closing brings its depth from -1 back to 0 while the grouper is nested (`active` false) and nothing else is open. The grouper then turns active on an opening, which the closing-to-opening table does not hold.
  - The model makes this an outcome, `Pull.MissingKey`, rather than a precondition.
  - `ParserTranslation.MissingKeyOnReopening` states that it can happen only in that way.
  - `ParserTranslation.ReopeningRaisesMissingKey` states the converse: in that situation the turn does end in `MissingKey`.
  - `ParserTranslation.ReopeningAtTopLevel` states that the same reopening while `active` is already true raises nothing. The grouper stays active, so no transition happens and the lookup is not reached.

## Model

| member | source | states |
|---|---|---|
| ParsingTools.Distinct | ParserTranslator/SequenceFinder.cs:53 | the result has no repeated literal, has exactly the input's elements, and is the input itself when the input has no repeats |
| ParsingTools.WithPrefix | ParserTranslator/SequenceFinder.cs:67-80 | the candidates are exactly the configured literals that begin with the consumed text, and there are no more of them than literals |
| ParsingTools.WithEmptyPrefix | ParserTranslator/SequenceFinder.cs:38-45 | with nothing consumed, every configured literal is a candidate, in configured order |
| ParsingTools.WithPrefixNoDup | ParserTranslator/SequenceFinder.cs:53 | the candidates of de-duplicated literals have no repeats |
| ParsingTools.SurvivorsOfWithPrefix | ParserTranslator/SequenceFinder.cs:67-80 | removing the candidates that disagree with `c` leaves exactly the literals beginning with the consumed text followed by `c` |
| ParsingTools.CompletedOfWithPrefix | ParserTranslator/SequenceFinder.cs:72-78 | the candidate recorded as possibly found is the consumed text plus `c` when that is a configured literal, and none otherwise |
| ParsingTools.CanExtendIff | ParserTranslator/SequenceFinder.cs:91-100 | the search finds a next-possible candidate iff some candidate has `next` just after the current position |
| ParsingTools.SurvivorsIff | ParserTranslator/SequenceFinder.cs:72-75 | a candidate survives iff it is longer than `progress` and has `c` at `progress` |
| ParsingTools.ExtendsIff | ParserTranslator/SequenceFinder.cs:95 | a surviving candidate takes the lookahead iff the lookahead is not null and the candidate begins with the consumed text, `c` and `next` |
| ParsingTools.ConsumedOfWithPrefix | ParserTranslator/SequenceFinder.cs:111 | with candidates present, the text they share up to `progress` is the consumed text |
| ParsingTools.ResetIsValid | ParserTranslator/SequenceFinder.cs:38-45 | after a reset the invariant holds and nothing counts as consumed |
| ParsingTools.StepKeepsInv | ParserTranslator/SequenceFinder.cs:61-114 | Look keeps the invariant and the literals; it either extends the consumed text by `c` or ends at the start state |
| ParsingTools.LookExtendsIff | ParserTranslator/SequenceFinder.cs:91-113 | Look returns null with `progress` one higher and the candidates narrowed iff `next` is non-null and some literal begins with the consumed text, `c` and `next` |
| ParsingTools.LookReportsLongest | ParserTranslator/SequenceFinder.cs:61-114 | Look reports `lit` iff `lit` is the consumed text plus `c`, is a configured literal, and no literal continues it with `next`; when it does not extend, it ends in the reset state |
| ParsingTools.LookFoundIsLiteral | ParserTranslator/SequenceFinder.cs:72-78 | a reported literal is configured, has length `progress + 1`, ends with `c`, is the consumed text plus `c`, and the finder is back at the start |
| ParsingTools.LookSummary | ParserTranslator/SequenceFinder.cs:61-114 | Look keeps the invariant, always resets at the end of the text, and reports only configured literals equal to the consumed text plus `c` |
| ParsingTools.AtMostOneCompletes | ParserTranslator/SequenceFinder.cs:72-78 | with distinct literals, no two candidates can both complete on the same character |
| ParsingTools.CompletingCandidate | ParserTranslator/SequenceFinder.cs:76-78 | a candidate that completes on `c` is the consumed text plus `c` |
| ParsingTools.NoSurvivorResets | ParserTranslator/SequenceFinder.cs:84-88 | when no literal begins with the consumed text plus `c`, Look resets and returns null |
| ParsingTools.LookAtEndResets | ParserTranslator/SequenceFinder.cs:95-107 | with a null lookahead, Look never extends and always ends in the reset state |
| ParsingTools.RemovalStep | ParserTranslator/SequenceFinder.cs:67-80 | one step of the reverse removal loop: which candidate is recorded as found and what the list holds afterwards |
| ParsingTools.SearchStep | ParserTranslator/SequenceFinder.cs:93-100 | one step of the search: a candidate extends from position `j` on iff the one at `j` does or one after it does |
| ParsingTools.ScanFromStep | ParserTranslator/SequenceFinder.cs:17-23 | scanning from position `i` reports what Look reports at `i`, followed by what scanning from `i + 1` reports |
| ParsingTools.ScanReportsOccurrences | ParserTranslator/SequenceFinder.cs:17-23 | every literal the scanning loop reports is configured and occurs in the text |
| ParsingTools.ScanStepKeeps | ParserTranslator/SequenceFinder.cs:17-23 | one turn of the scanning loop keeps the consumed text equal to the text just before the cursor |
| ParsingTools.DocExampleSkip | ParserTranslator/SequenceFinder.cs:7 | with `:=` and `+` configured and no match under way, a character that starts neither literal changes nothing and reports nothing |
| ParsingTools.DocExampleAssign | ParserTranslator/SequenceFinder.cs:7 | `:` followed by `=` extends, and `=` followed by space reports `:=` |
| ParsingTools.DocExampleTail | ParserTranslator/SequenceFinder.cs:7 | scanning ` x + 7` reports `+` alone |
| ParsingTools.DocExampleEquals | ParserTranslator/SequenceFinder.cs:7 | scanning from the `=` of `:=` reports `:=` and then `+` |
| ParsingTools.DocExampleMiddle | ParserTranslator/SequenceFinder.cs:7 | scanning from the `:` reports `:=` and then `+` |
| ParsingTools.DocExample | ParserTranslator/SequenceFinder.cs:7 | the loop of the class comment on `a := x + 7` with `:=` and `+` reports `:=` and then `+` |
| ParsingTools.GreedyPassesOverShorter | ParserTranslator/SequenceFinder.cs:91-113 | with `=` and `=+=` configured, scanning `=+x` reports nothing although `=` occurs: the match extends at `=` because `+` may follow, and no shorter literal is reported when it then fails |
| ParsingTools.SequenceFinder.constructor | ParserTranslator/SequenceFinder.cs:31 | the finder holds the de-duplicated literals and is at the start |
| ParsingTools.SequenceFinder.Single | ParserTranslator/SequenceFinder.cs:32 | the finder looks for exactly the one symbol |
| ParsingTools.SequenceFinder.Nothing | ParserTranslator/SequenceFinder.cs:33 | the finder looks for nothing |
| ParsingTools.SequenceFinder.Reset | ParserTranslator/SequenceFinder.cs:38-45 | `progress` is 0, `possible` is exactly `sequences` in order, and `sequences` is unchanged |
| ParsingTools.SequenceFinder.ResetTo | ParserTranslator/SequenceFinder.cs:51-55 | `sequences` becomes the de-duplicated replacement, then the finder is reset |
| ParsingTools.SequenceFinder.RemoveImpossible | ParserTranslator/SequenceFinder.cs:67-80 | the in-place removal loop leaves exactly the candidates that take `c`, and returns the one that completes on `c` |
| ParsingTools.SequenceFinder.AnyExtends | ParserTranslator/SequenceFinder.cs:91-100 | the search with `break` answers whether some candidate takes `next` |
| ParsingTools.SequenceFinder.Look | ParserTranslator/SequenceFinder.cs:61-114 | Look computes `Step` on the fields and keeps the invariant; with no literals it returns null and changes nothing; a report is a configured literal equal to the consumed text plus `c` |
| ParsingTools.FindAll | ParserTranslator/SequenceFinder.cs:11-23 | the scanning loop reports what `ScanFrom` does, and every report is a given literal that occurs in the text |
| ParserTranslation.MakeParameters | ParserTranslator/StringGrouper.cs:18-23 | a null bracket or barrier collection becomes empty, a given one is kept, and `includeEmpty` is stored |
| ParserTranslation.Flatten | ParserTranslator/StringGrouper.cs:84 | each pair contributes its opening and then its closing, in order |
| ParserTranslation.Literals | ParserTranslator/StringGrouper.cs:84 | the finder's literals are the barriers followed by every opening and closing literal, pair by pair |
| ParserTranslation.ToDictionary | ParserTranslator/StringGrouper.cs:87-88 | LINQ `ToDictionary` on the pairs, defined only when their keys are distinct, which is where the source throws; it has no contract of its own, and its keys and values are stated by `ToDictionaryContents` |
| ParserTranslation.ToDictionaryContents | ParserTranslator/StringGrouper.cs:87-88 | the dictionary's keys are exactly the pairs' keys, and each key maps to its pair's value |
| ParserTranslation.Swapped | ParserTranslator/StringGrouper.cs:88 | the closing-to-opening pairs are the bracket pairs reversed, in order |
| ParserTranslation.Group.IsWrapped | ParserTranslator/StringGrouper.cs:57 | a group is wrapped exactly when it carries one of the two wrap types |
| ParserTranslation.Group.Empty | ParserTranslator/StringGrouper.cs:58 | the text is empty; an empty group is empty when unwrapped, and a plain group is empty exactly when its unwrapped text is |
| ParserTranslation.Group.EmptyUnwrapped | ParserTranslator/StringGrouper.cs:59 | a wrapped group is empty unwrapped exactly when its text is just its two literals, a plain group exactly when it is `Empty` |
| ParserTranslation.Group.UnWrapped | ParserTranslator/StringGrouper.cs:60-69 | an unwrapped group's text is returned as is; a wrapped one loses exactly its opening-length prefix and closing-length suffix |
| ParserTranslation.MakeGroup | ParserTranslator/StringGrouper.cs:39-47 | the public constructor keeps the fields; the group is wrapped iff both literals are given, and its type is barriers iff they are equal |
| ParserTranslation.PlainGroup | ParserTranslator/StringGrouper.cs:48 | a group from text alone is unwrapped, and unwrapping it gives the text |
| ParserTranslation.UnwrapRoundTrip | ParserTranslator/StringGrouper.cs:60-69 | unwrapping the group built from opening + inside + closing gives back the inside |
| ParserTranslation.EmptyUnwrappedIff | ParserTranslator/StringGrouper.cs:59 | a wrapped group is empty when unwrapped iff its text is only its two literals |
| ParserTranslation.AddDepthTo | ParserTranslator/StringGrouper.cs:133-140 | only the given opening's depth changes, by exactly `amount` from 0 or its old value; a nonzero result makes the grouper inactive; the invariant "active means nothing open" is kept |
| ParserTranslation.ToggleBarrier | ParserTranslator/StringGrouper.cs:151-158 | only the given barrier's status flips; a status turned on makes the grouper inactive; the invariant "active means nothing open" is kept |
| ParserTranslation.ToggleTwice | ParserTranslator/StringGrouper.cs:151-158 | two toggles restore a barrier's status and leave it present in the dictionary |
| ParserTranslation.HandleMatch | ParserTranslator/StringGrouper.cs:189-194 | a matched literal is handled as a barrier first, then as an opening, then as a closing; only depths, statuses and `active` change; `active` changes only for a configured literal |
| ParserTranslation.AdvanceCursor | ParserTranslator/StringGrouper.cs:183-186 | one pull records the next character or null in `c`, and the finder takes the previous character with that lookahead |
| ParserTranslation.AdvanceKeeps | ParserTranslator/StringGrouper.cs:183-186 | a reported literal is a configured literal the buffer ends with, and the finder is back at the start |
| ParserTranslation.Matched | ParserTranslator/StringGrouper.cs:180-194 | a reported literal ends the buffer, and a change of `active` comes through a barrier exactly when the type is barriers; with no report, `active` is unchanged |
| ParserTranslation.IterateKeeps | ParserTranslator/StringGrouper.cs:178-229 | each turn of the loop keeps its invariant, or returns a group whose text followed by the new buffer is the old buffer plus the characters pulled |
| ParserTranslation.EveryLiteralHandled | ParserTranslator/StringGrouper.cs:84-88 | a literal is one the finder looks for iff it is a barrier, an opening or a closing |
| ParserTranslation.LiteralHasHandler | ParserTranslator/StringGrouper.cs:189-194 | every literal the finder can report reaches one of the three handlers |
| ParserTranslation.HandledIsLiteral | ParserTranslator/StringGrouper.cs:84 | every barrier, opening and closing is a literal of the finder |
| ParserTranslation.ActivationReturns | ParserTranslator/StringGrouper.cs:199-208 | on nested to top level, the buffer is returned as a wrapped group closed by the matched literal, opened by the same literal for barriers or its paired opening for brackets, and the buffer restarts with the next character; or the lookup at :204 fails |
| ParserTranslation.DeactivationSplits | ParserTranslator/StringGrouper.cs:210-219 | on top level to nested, the buffer minus the delimiter is emitted as a plain group unless it is empty and `IncludeEmpty` is false; then the buffer restarts with the delimiter and the next character |
| ParserTranslation.MissingKeyOnReopening | ParserTranslator/StringGrouper.cs:192-204 | the lookup fails only for an opening bracket, not a barrier or closing, whose depth was -1 while the grouper was nested and nothing else was open |
| ParserTranslation.ReopeningRaisesMissingKey | ParserTranslator/StringGrouper.cs:192-204 | an opening that is neither a barrier nor a closing, seen at depth -1 while nothing else is open and the grouper is nested, ends the turn in `MissingKey` on that opening |
| ParserTranslation.ReopeningAtTopLevel | ParserTranslator/StringGrouper.cs:192-204 | the same reopening from depth -1 while the grouper is already at top level leaves it active and never ends the turn in `MissingKey` |
| ParserTranslation.ReopenedBracket | ParserTranslator/StringGrouper.cs:192-204 | a bracket-typed return to top level by a literal that is not a closing comes from an opening whose depth was -1, with nothing else open |
| ParserTranslation.LoopSpec | ParserTranslator/StringGrouper.cs:178-230 | the loop never ends with null; an emitted group is wrapped only as configured, and its text followed by the new buffer is the old buffer plus the characters pulled |
| ParserTranslation.NextGroupSpec | ParserTranslator/StringGrouper.cs:161-231 | NextGroup returns null iff the cursor is exhausted, changing only `c`; a group pulls at least one character, keeps the text, and is wrapped only as configured |
| ParserTranslation.ExhaustedIsFinal | ParserTranslator/StringGrouper.cs:166-174 | once NextGroup has returned null it returns null again and changes nothing |
| ParserTranslation.EndFlush | ParserTranslator/StringGrouper.cs:223-228 | a turn with the cursor exhausted and no transition returns the whole buffer as a plain group and clears the buffer |
| ParserTranslation.LoopEndFlush | ParserTranslator/StringGrouper.cs:178-230 | the loop, once the cursor is exhausted with no transition, returns the buffer plain and leaves it empty |
| ParserTranslation.LoopMissingKey | ParserTranslator/StringGrouper.cs:204 | a failed lookup in the loop is on an opening bracket that is not a barrier or a closing |
| ParserTranslation.NextGroupMissingKey | ParserTranslator/StringGrouper.cs:204 | a failed lookup in NextGroup is on an opening bracket that is not a barrier or a closing |
| ParserTranslation.Prelude | ParserTranslator/StringGrouper.cs:166-176 | the prelude pulls exactly one character and appends it to the buffer |
| ParserTranslation.DiscardedReport | ParserTranslator/StringGrouper.cs:167 | the report the prelude discards is at most the previous character; it is that character exactly when it is a configured literal and no literal begins with it and the next character, and when one does the finder is one character into that match |
| ParserTranslation.PreludeIs | ParserTranslator/StringGrouper.cs:166-176 | the prelude's state is the one where the finder took the old `c`, with its report discarded, and the new character was appended |
| ParserTranslation.PreludeKeeps | ParserTranslator/StringGrouper.cs:167 | the discarded Look keeps the finder's invariant, and the buffer ends with what it consumed |
| ParserTranslation.Configure | ParserTranslator/StringGrouper.cs:77-90 | the setter stores the parameters, derives the tables and a fresh finder at its start, and changes nothing else |
| ParserTranslation.ConfigureFields | ParserTranslator/StringGrouper.cs:84-88 | the finder gets the de-duplicated literals; the barrier set and both dictionaries are built from the parameters |
| ParserTranslation.Initial | ParserTranslator/StringGrouper.cs:95-101 | a new grouper is configured with an empty buffer, `active` true, `c` null, no depths or statuses, and nothing pulled |
| ParserTranslation.Drain | ParserTranslator/StringGrouper.cs:246 | collecting groups ends with null or the failed lookup, never with a group |
| ParserTranslation.DrainConserves | ParserTranslator/StringGrouper.cs:235-248 | when collection ends with null, the groups' texts followed by what is left in the buffer are the buffer plus every remaining character |
| ParserTranslation.DrainFromStart | ParserTranslator/StringGrouper.cs:235-248 | from a new grouper, the groups' texts and the leftover buffer spell out the input, so the groups' texts are a prefix of it |
| ParserTranslation.DrainWrapsConfigured | ParserTranslator/StringGrouper.cs:199-208 | every collected wrapped group ends with its closing literal and is wrapped by a configured barrier or pair |
| ParserTranslation.DrainNext | ParserTranslator/StringGrouper.cs:246 | collecting is one NextGroup, then collecting from the state it leaves |
| ParserTranslation.AnyPositiveDepth | ParserTranslator/StringGrouper.cs:128 | the loop over depths finds one above zero iff there is one |
| ParserTranslation.AnyBarrierOn | ParserTranslator/StringGrouper.cs:129 | the loop over statuses finds one on iff there is one |
| ParserTranslation.CollectBarriers | ParserTranslator/StringGrouper.cs:86 | the barrier set holds exactly the barriers |
| ParserTranslation.BuildTables | ParserTranslator/StringGrouper.cs:84-88 | the setter's new finder, barrier set and both dictionaries |
| ParserTranslation.StringGrouper.constructor | ParserTranslator/StringGrouper.cs:95-101 | the new grouper's state is the initial one for the parameters and characters |
| ParserTranslation.StringGrouper.SetParameters | ParserTranslator/StringGrouper.cs:77-90 | the `Parameters` setter computes `Configure` on the fields |
| ParserTranslation.StringGrouper.UpdateActive | ParserTranslator/StringGrouper.cs:125-131 | `active` becomes "no depth above zero and no barrier on", whatever `bracketsFirst` is |
| ParserTranslation.StringGrouper.AddDepth | ParserTranslator/StringGrouper.cs:133-140 | addDepth computes `AddDepthTo` on the fields |
| ParserTranslation.StringGrouper.SubDepth | ParserTranslator/StringGrouper.cs:141 | subDepth is addDepth with the amount negated |
| ParserTranslation.StringGrouper.ToggleBarrierStatus | ParserTranslator/StringGrouper.cs:151-158 | toggleBarrierStatus computes `ToggleBarrier` on the fields |
| ParserTranslation.StringGrouper.MoveNext | ParserTranslator/StringGrouper.cs:184 | the cursor delivers the next character and advances, or delivers null and stays |
| ParserTranslation.StringGrouper.PullAndLook | ParserTranslator/StringGrouper.cs:183-186 | pulling the next character and looking at the previous one computes `Advance` |
| ParserTranslation.StringGrouper.Handle | ParserTranslator/StringGrouper.cs:189-194 | the dispatch on the matched literal computes `HandleMatch` |
| ParserTranslation.StringGrouper.LookAndHandle | ParserTranslator/StringGrouper.cs:180-194 | the first half of a turn computes `Matched` |
| ParserTranslation.StringGrouper.ActivateTurn | ParserTranslator/StringGrouper.cs:199-208 | the return to top level computes `Activate` |
| ParserTranslation.StringGrouper.DeactivateTurn | ParserTranslator/StringGrouper.cs:210-219 | leaving top level computes `Deactivate` |
| ParserTranslation.StringGrouper.EndTurn | ParserTranslator/StringGrouper.cs:223-229 | the end of a turn returns the buffer at the end of the input, or appends `c` and goes on |
| ParserTranslation.StringGrouper.Turn | ParserTranslator/StringGrouper.cs:180-229 | one turn of the loop computes `Iterate` |
| ParserTranslation.StringGrouper.PullFirst | ParserTranslator/StringGrouper.cs:166-176 | the prelude pulls one character, feeds the old `c` to the finder and discards its report, or sets `c` to null when the cursor is exhausted |
| ParserTranslation.StringGrouper.LookDiscarded | ParserTranslator/StringGrouper.cs:167 | the discarded Look still advances the finder |
| ParserTranslation.StringGrouper.Loop | ParserTranslator/StringGrouper.cs:178-230 | the `while (true)` loop computes `LoopSpec` |
| ParserTranslation.StringGrouper.NextGroup | ParserTranslator/StringGrouper.cs:161-231 | NextGroup computes `NextGroupSpec`, and the object invariant holds again unless the lookup failed |
| ParserTranslation.StringGrouper.Produce | ParserTranslator/StringGrouper.cs:161-231 | NextGroup's body, the prelude then the loop, computes `NextGroupSpec` |
| ParserTranslation.StringGroup | ParserTranslator/StringGrouper.cs:235-248 | StringGroup collects every group of a new grouper until null or the failed lookup, and with null the groups' texts are a prefix of the text |
| ParserTranslation.Collect | ParserTranslator/StringGrouper.cs:246 | the loop calling NextGroup until it returns no group computes `Drain` |
| GrouperTraces.CallRunsLoop | ParserTranslator/StringGrouper.cs:161-231 | one call is the prelude followed by the loop |
| GrouperTraces.TurnContinues | ParserTranslator/StringGrouper.cs:178-230 | a turn that goes round again leaves the loop's result unchanged |
| GrouperTraces.TurnReturns | ParserTranslator/StringGrouper.cs:178-230 | a turn that returns gives the loop's result |
| GrouperTraces.QuietTurn | ParserTranslator/StringGrouper.cs:183-229 | a turn with nothing found appends the next character and goes on |
| GrouperTraces.FoundTurn | ParserTranslator/StringGrouper.cs:186-194 | a turn that finds `lit` dispatches on it |
| GrouperTraces.MatchedTurn | ParserTranslator/StringGrouper.cs:197-219 | after a match the turn activates, deactivates or just ends, by the change in `active` |
| GrouperTraces.AddDepthIs | ParserTranslator/StringGrouper.cs:133-140 | addDepth written out: the new depth, and `active` as zero depth with the old flag or the recomputed one |
| GrouperTraces.OpeningDispatch | ParserTranslator/StringGrouper.cs:192 | an opening that is not a barrier adds one to its own depth |
| GrouperTraces.ClosingDispatch | ParserTranslator/StringGrouper.cs:193 | a closing that is not a barrier or an opening subtracts one from its opening's depth |
| GrouperTraces.OpensFromTop | ParserTranslator/StringGrouper.cs:192-220 | an opening at top level whose plain group would be empty is suppressed, and the loop goes on nested |
| GrouperTraces.ClosesToTop | ParserTranslator/StringGrouper.cs:193-207 | a closing that brings the depth back to 0 returns the buffer wrapped by its pair |
| GrouperTraces.ClosesBelowTop | ParserTranslator/StringGrouper.cs:193-219 | a closing at top level drives the depth to -1 and leaves top level |
| GrouperTraces.DeactivateEmits | ParserTranslator/StringGrouper.cs:212-217 | leaving top level with text before the delimiter emits that text |
| GrouperTraces.DrainTakes | ParserTranslator/StringGrouper.cs:246 | a returned group heads the collected groups |
| GrouperTraces.DrainEnds | ParserTranslator/StringGrouper.cs:166-174 | with the cursor exhausted nothing more is collected |
| GrouperTraces.DrainsFirst | ParserTranslator/StringGrouper.cs:246 | two groups collected one after the other |
| GrouperTraces.DrainsLast | ParserTranslator/StringGrouper.cs:166-174 | a group that exhausts the cursor is the last one collected |
| GrouperTraces.QuoteInitial | ParserTranslator/StringGrouper.cs:95-101 | the new grouper with the barrier `"` |
| GrouperTraces.QuoteLook | ParserTranslator/SequenceFinder.cs:61-114 | the finder reports `"` on `"` whatever follows |
| GrouperTraces.QuoteFirstTurn | ParserTranslator/StringGrouper.cs:176-219 | the first `"` of `""y` turns the barrier on, and the empty plain group before it is suppressed |
| GrouperTraces.QuoteSecondTurn | ParserTranslator/StringGrouper.cs:199-208 | the second `"` returns `""` wrapped, and the buffer restarts as `y` |
| GrouperTraces.QuoteFirstCall | ParserTranslator/StringGrouper.cs:161-231 | the first NextGroup on `""y` returns `""` |
| GrouperTraces.QuoteTexts | ParserTranslator/StringGrouper.cs:201 | the group `""` is empty when unwrapped, and its text is not the whole input |
| GrouperTraces.QuoteDrain | ParserTranslator/StringGrouper.cs:166-174 | collecting from `""y` gives `""` alone |
| GrouperTraces.QuoteLosesTail | ParserTranslator/StringGrouper.cs:166-173 | StringGroup on `""y` with the barrier `"` yields only `""`, which is empty inside; the `y` is left in the buffer and lost |
| GrouperTraces.QuoteSkip | ParserTranslator/SequenceFinder.cs:84-88 | the finder for `"` alone reports nothing and stays at its start on any other character |
| GrouperTraces.FlushCall | ParserTranslator/StringGrouper.cs:161-231 | with the barrier `"` alone, NextGroup over two other characters returns the buffer and both characters as one plain group and clears the buffer |
| GrouperTraces.FlushTexts | ParserTranslator/StringGrouper.cs:225 | the flushed group for `ab` is `ab` |
| GrouperTraces.PlainTextFlushed | ParserTranslator/StringGrouper.cs:223-228 | StringGroup on `ab` with the barrier `"` yields the single plain group `ab`, covering the input, and leaves the buffer empty |
| GrouperTraces.ParenLiterals | ParserTranslator/StringGrouper.cs:84-86 | with the pair `( )` the finder looks for `(` then `)`, and there are no barriers |
| GrouperTraces.ParenConfig | ParserTranslator/StringGrouper.cs:84-88 | with the pair `( )` the dictionaries map `(` to `)` and `)` to `(` |
| GrouperTraces.ParenLook | ParserTranslator/SequenceFinder.cs:61-114 | the finder for `( )` reports each bracket character at once, and nothing for other characters |
| GrouperTraces.ParenQuiet | ParserTranslator/StringGrouper.cs:223-229 | a non-bracket character just appends the next one |
| GrouperTraces.QuietThenFlush | ParserTranslator/StringGrouper.cs:223-229 | with one character left and the finder quiet on both, the loop appends it and then returns the buffer plain and cleared |
| GrouperTraces.ParenTurn1 | ParserTranslator/StringGrouper.cs:192 | `(` at top level raises its depth to 1, and the empty group before it is suppressed |
| GrouperTraces.ParenTurn3 | ParserTranslator/StringGrouper.cs:193-207 | `)` at depth 1 returns the buffer wrapped by `( )`, and the buffer restarts with the next character `(` |
| GrouperTraces.ParenPrelude2 | ParserTranslator/StringGrouper.cs:167 | the next call's prelude discards the finder's report of `(` |
| GrouperTraces.ParenTurn6 | ParserTranslator/StringGrouper.cs:210-217 | the last `)` drives the depth to -1, and the text before it is emitted plain |
| GrouperTraces.Reclosed | ParserTranslator/StringGrouper.cs:125-131 | reopening and reclosing a bracket leaves everything closed |
| GrouperTraces.ParenStartTables | ParserTranslator/StringGrouper.cs:84-88 | the new grouper over `(a)(b)` has the tables for `( )` |
| GrouperTraces.ParenLoop3 | ParserTranslator/StringGrouper.cs:178-230 | from the turn at `)`, the loop returns `(a)` |
| GrouperTraces.ParenLoop2 | ParserTranslator/StringGrouper.cs:178-230 | from the turn at `a`, the loop returns `(a)` |
| GrouperTraces.ParenLoop1 | ParserTranslator/StringGrouper.cs:178-230 | from the turn at the first `(`, the loop returns `(a)` |
| GrouperTraces.ParenFirstCall | ParserTranslator/StringGrouper.cs:161-231 | the first NextGroup on `(a)(b)` returns `(a)` wrapped, with the buffer `(` |
| GrouperTraces.ParenLoop6 | ParserTranslator/StringGrouper.cs:178-230 | from the turn at the last `)`, the loop emits the text before it plain |
| GrouperTraces.ParenLoop5 | ParserTranslator/StringGrouper.cs:178-230 | from the turn at `b`, the loop emits the buffer plain |
| GrouperTraces.ParenSecondCall | ParserTranslator/StringGrouper.cs:161-231 | the second NextGroup returns `(b` plain, with the depth at -1 and `)` left in the buffer |
| GrouperTraces.ParenDrainRest | ParserTranslator/StringGrouper.cs:166-174 | after `(a)`, collecting gives `(b` alone |
| GrouperTraces.ParenDrain | ParserTranslator/StringGrouper.cs:246 | collecting from `(a)(b)` gives `(a)` and then `(b` |
| GrouperTraces.ParenTexts | ParserTranslator/StringGrouper.cs:205 | the two groups are `(a)` wrapped by `( )` and `(b` plain |
| GrouperTraces.ParenMissesOpening | ParserTranslator/StringGrouper.cs:166-169 | StringGroup on `(a)(b)` with `( )` yields `(a)` and the plain `(b`: the second `(` is missed, the depth ends at -1, and `)` is lost |

## Left out

- Debugging.cs is a console demonstration with nothing to model, so it is not part of this model.
- `StringGrouper.Reset` (StringGrouper.cs:104-111) is not modelled. Its parameter shadows the field, so the default null argument throws, and it resets only the finder.
- The implicit conversion to `string` and `ToString` (StringGrouper.cs:73-74) are not modelled; both only return `Text`.
- `setBarrierStatus` (StringGrouper.cs:143-150) is unused by the rest of the source and is not modelled.
- A null `Text` in `Group` is not modelled. Every group the grouper builds has a non-null text, so `Empty` and `EmptyUnwrapped` test the empty string only.
- The memoisation of `UnWrapped` in the field `unWrapped` is not modelled. `UnWrapped` is a function, so repeated reads agree by construction.
- The `Substring` in `UnWrapped` throws when the text is shorter than its two literals. `Group.UnWrapped` requires `Unwrappable` instead.
- `ToDictionary` throws on a repeated opening or closing literal (StringGrouper.cs:87-88). The setter, the constructor and StringGroup require `Admissible` instead.
- The `KeyNotFoundException` at StringGrouper.cs:204 is the outcome `MissingKey`. Execution stops there.
- Null arguments are not modelled, because the model's types are not nullable. In the source, a null `parameters` throws `NullReferenceException` (StringGrouper.cs:97). A null bracket literal makes `ToDictionary` throw (StringGrouper.cs:87-88). A null `sequences` makes `Distinct` throw (SequenceFinder.cs:53). A null literal among the sequences makes `Look` throw at SequenceFinder.cs:72.
- ParserTranslation.StringGrouper.NextGroup: the object invariant is not promised after a `MissingKey` outcome, because the source's object is then abandoned mid-call.
- The `IEnumerator<char>` cursor is the sequence `chars` with the count `pulled`. Enumerators that produce characters lazily, fail or are shared are not modelled.
- `sgutil.StringGroup` yields lazily. `ParserTranslation.StringGroup` collects the whole sequence, or stops at the failed lookup.
- Iteration order over `Dictionary` in `updateActive` is not modelled. Only whether some entry qualifies matters, and the loops' results do not depend on the order.
- ParsingTools.Distinct: states that the result has no repeats and the same elements, and is unchanged when the input has none. The body keeps first occurrences in order, as LINQ does, but the contract does not state that order.
- ParserTranslation.NextGroupSpec: does not state that an emitted wrapped group is long enough for `UnWrapped`, that is, its text holding both its literals. `WrapsConfigured` states only that it ends with its closing literal and is wrapped as configured.
