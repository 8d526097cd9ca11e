# Proofs about the tutor's engines

This project models, in Dafny, five parts of the backend and proves what they keep.

1. **Drafting a paper.** The salvaging reader of model replies (`Json`, `JsonWindow`, `JsonQuotes`,
   `Salvage`, `CutReply`, `Fences`, `LoneReply`) and the grammar it is held to (`JsonText`), the key
   canonicaliser (`Questions`), the sampler and the strided batches (`Sampling`, `SampleFacts`,
   `Batches`), the call budget, the deduper and the three passes (`Generation`, `Drafting`) and the
   books they keep (`Traces`). `Drafts` is the run as a function of its plan and of arbitrary replies
   by the model and the embedder; `DraftFacts`, `DraftBounds`, `DraftLimits`, `DraftRuns`,
   `DraftSources`, `DraftNovelty` and `DraftOrder` are what holds of it.
2. **The life of a paper and its sittings.** `Papers`, `Grading`, `Sittings`, what a sitting is worth
   and when it takes an answer (`Marks`, `Timing`), and whole runs of both in `Exams`.
3. **From an upload to chunks.** `Pages`, `Books` and `Parts` number pages, combine archives and place
   chapters; `Chunking` is the packing loop, `ChunkFacts` what it keeps and `Coverage` what of a page
   reaches the index.
4. **From a question to its evidence.** `Retrieval`, `Scoping` and `Answers`; `Fusing`, `FusedOrder`
   and `FusedLead`; `Narrowing`, `NarrowFacts`, `Voting` and `BookVotes`; `Excerpt`. `Sorting` is the
   key sort they share.
5. **The integrity score.** `Integrity`, over the exact arithmetic of `Reals`.

Objects whose fields the services assign are classes here, loops are loops with invariants, and each
method is tied to a function whose properties are then proved as lemmas. `Text` and `Wrappers` hold
Python's string helpers and the result types, and `Picking` says which places of a list are kept.

## What the proofs found

Where the code does something other than its own words say, the model follows the code, a lemma
gives the case and another the exact condition.

- A generation task delivered again after publication thaws the paper: the worker never looks at the
  status (`Exams.FrozenUnlessGenerationRuns`; `backend/app/workers/tasks/assessments.py:37-91`).
- Options labelled in part can be marked against the wrong text (`Questions.NamedKeyKept`,
  `Questions.PartLabelledMisleads`).
- A delete from a draft of more than 10,000 questions can collide with itself, depending on how the
  rows' random ids fall; only the last of 10,001 is safe: `Papers.DeleteGoesThroughIff`,
  `Papers.OneOverGoesThroughIff`.
- A harvesting reply is said to be skipped when it will not validate
  (`backend/app/services/assessments.py:1905-1906`). The contract is checked outside the `try`
  (`backend/app/services/assessments.py:1991-2004`), and so are two things
  `backend/app/clients/embeddings.py:68` does not look for: a number of vectors that is not the number
  of stems, which raises in the strict `zip` (`backend/app/services/assessments.py:1864`,
  `backend/app/services/assessments.py:2019`), and a vector that is no list of numbers, which raises
  when compared (`backend/app/services/assessments.py:1141-1153`), though an embedder's failure is
  said not to be fatal (`backend/app/services/assessments.py:1121-1123`). Each ends the whole run,
  loses what was accepted and leaves the call out of the trace: `DraftFacts.BreaksIff`,
  `DraftLimits.MisfitEndsRun`, `DraftLimits.UnreadableEndsRun`.
- Pass one asks for each format's whole share whatever the book supplied, though the comment at
  `backend/app/services/assessments.py:1889-1894` says writing fills what the book leaves. A run can
  take the book's share and a whole paper besides; which plans hold every run to the paper's size is
  settled by `DraftLimits.FitsIff` and `DraftLimits.OneFormatFitsIff`. A harvesting reply that repeats
  a number can take more than it was asked, so over all replies only a plan that takes nothing from
  the book is safe: `DraftLimits.AlwaysFitsIff`, `DraftLimits.CallOverrunsIff`.
- A question sent without its wrapper is lost when its only list is its options: the options are taken
  for the reply's list (`LoneReply.LoneQuestionLost`; `backend/app/services/assessments.py:864-874`).
  `LoneReply.LoneQuestion` says exactly what is handed on.
- An unreleased result holds no mark, but it does show that grading has happened, and when
  (`Sittings.UnreleasedShowsIff`).
- Picks within a chapter are said to include both endpoints
  (`backend/app/services/assessments.py:832`); the last passage is picked only when all are
  (`Sampling.LastPickedIff`), and trimming can leave the last chapters with nothing
  (`Sampling.ChapterServedIff`).
- The chunk budget is said to be the ceiling whatever the settings
  (`backend/app/rag/chunk.py:7-18`). It is not once an overlap can carry a paragraph
  (`ChunkFacts.BudgetIsCeilingIff`); the shipped settings are safe (`ChunkFacts.ShippedSettingsFit`).
  Keeping the overlap under a third of the budget does not stop a whole chunk being carried forward
  (`ChunkFacts.WholeChunkCarriedIff`).
- A chapter can span two uploaded files, though `backend/app/rag/chunk.py:221-231` says it cannot:
  `Books.SeamsKeptIff`. Pages before every outline entry are under no chapter and are not chunked
  (`Books.PagesUnderAChapter`).
- Of the windows that score best the excerpt search takes the earliest start and then the earliest
  end, not the widest as its comment says, so a question that shares no word with the passage gets
  its first sentence alone (`Excerpt.EndsOnAMatch`). What is handed on can measure more than the
  budget (`Excerpt.WithinBudgetIff`): joins, marks and rounding take several sentences of a cut
  passage to twice it and no further (`Excerpt.TwiceTheBudgetIsReached`), while a single sentence
  (`Excerpt.OneSentenceIsUnbounded`) and a passage whose sentences all fit
  (`Excerpt.WholePassageIsUnbounded`) are handed on whatever they measure.
- `spread` with a limit that is not positive returns more than nothing (`Narrowing.LimitHeldIff`).
- Naming books can add to what is returned, in two ways: a full search makes room for chunks the
  wider one left out (`Scoping.NarrowingCanAdd`), and an emptied strict tier opens the second
  (`Scoping.NarrowingCanOpenTheSecondTier`). `Scoping.NarrowingSubtractsIff` is the exact condition.

## Model

| member | source | states |
|---|---|---|
| CutReply.CutReplyYieldsCompleted | backend/app/services/assessments.py:856-930 | A reply object whose one key `questions` holds a list of questions (each with a truthy stem, no `questions` list of its own, and no nested object carrying either key), laid out and escaped in any way, free of fences, with any white space around it and cut at any character: the items passed on are exactly the questions complete before the cut, in order |
| CutReply.SpansAreItems | backend/app/services/assessments.py:870-878 | The places counted by the theorem above are the list's own items, each decoded where it lies; uncut, they are all of them |
| CutReply.WholeUnwraps | backend/app/services/assessments.py:856-882 | A complete reply is read in one piece and yields its list |
| CutReply.BracketsGiveList | backend/app/services/assessments.py:864-874 | In a cut reply the outermost square brackets delimit the list if the cut came after it, and otherwise decode to nothing |
| CutReply.SalvageOfCut | backend/app/services/assessments.py:885-930 | When the list itself was cut, salvage keeps exactly the questions complete before the cut |
| CutReply.PrefixNeverDecodes | backend/app/services/assessments.py:893-903 | No proper prefix of a decodable object or list decodes from its opening character |
| CutReply.InsideNothingKept | backend/app/services/assessments.py:894-929 | Past the opening brace of a question the cut leaves unfinished, nothing salvage decodes is kept |
| CutReply.BlankEndsNothing | backend/app/services/assessments.py:846-853 | Stripping white space off the cut end takes no completed question away |
| JsonWindow.ValueCarries | backend/app/services/assessments.py:891-903 | The decoder's answer depends only on the characters it reports reading: wherever the same characters stand, it decodes the same value, ending the same distance on |
| JsonWindow.StringCarries | backend/app/services/assessments.py:891-903 | The same for a string with its escapes |
| JsonQuotes.InnerBraceHarmless | backend/app/services/assessments.py:894-929 | A decoder started at any brace inside a question, in a nested object or in the middle of one of its strings, yields an object with neither a `stem` nor a `questions` key |
| JsonQuotes.ObjectInverted | backend/app/services/assessments.py:894-903 | An object decoded from inside a string, so with every quote read the wrong way round, spells neither key |
| JsonQuotes.ValueTidy | backend/app/services/assessments.py:894-903 | A value that is decoded from outside any string ends outside every string, and every brace met inside its strings is one of those harmless ones |
| Salvage.SalvageObjects | backend/app/services/assessments.py:885-904 | The walk with an index collects, from each opening brace in turn, the objects that decode, resuming after each one |
| Salvage.SalvageReply | backend/app/services/assessments.py:907-930 | Of those, questions are kept and the dictionaries of a wrapper's list are taken out of it, in order |
| Salvage.ParseGenerated | backend/app/services/assessments.py:933-962 | A reply read whole, or else salvaged, gives the items that fit the contract; it fails exactly when there are none |
| Salvage.FittingIs | backend/app/services/assessments.py:933-962 | The items that fit the contract are handed on in their order and no others |
| JsonText.Reads | backend/app/services/assessments.py:891-903 | Every text that the grammar of RFC 8259 allows (white space of section 2, numbers of section 6, strings and escapes of section 7) decodes to what it says and ends where it ends |
| JsonText.WrittenReplyIsReply | backend/app/services/assessments.py:856-882 | A text so written that says one object with the key `questions` and a list is a complete reply with that list, so that all that is proved of complete replies holds of it |
| Fences.OpenedIs | backend/app/services/assessments.py:846-853 | After words without a back quote, a fence takes out what stands between it and the next one, stripped; one that is never closed leaves the reply as it is |
| Fences.FencedReplyIsRead | backend/app/services/assessments.py:846-882 | A complete reply in a closed fence, tagged `json` or not, after any words without a back quote and before any words, is read with all its questions |
| Fences.FencedCutReply | backend/app/services/assessments.py:846-930 | The same cut at any character, before, inside or after the reply: exactly the questions complete before the cut are handed on (words before the fence then hold no brace or bracket) |
| Json.LookupIsLast | backend/app/services/assessments.py:876-924 | Of members of one name the last is the one read |
| LoneReply.LoneQuestion | backend/app/services/assessments.py:856-930 | One question sent without its wrapper: what its outermost square brackets decode to is handed on if they decode, and otherwise the question |
| LoneReply.LoneQuestionLost | backend/app/services/assessments.py:864-874 | So a question whose only list is its options is lost, and its options are handed on |
| LoneReply.RepliesInARow | backend/app/services/assessments.py:907-930 | Of complete replies one after another salvage keeps the objects of each one's list, in order |
| LoneReply.QuestionsInARow | backend/app/services/assessments.py:907-930 | Of bare questions one after another it keeps each |
| LoneReply.ObjectsAre | backend/app/services/assessments.py:924-926 | Of a wrapper's list the dictionaries are kept, in their order, and no other items |
| LoneReply.LoneQuestionKept | backend/app/services/assessments.py:907-930 | One with no list is handed on |
| Questions.CanonicalChoices | backend/app/services/assessments.py:259-279 | Options are renumbered A, B, C in order, at most as many as there are keys, and each label maps to the new key of the first option that answers to it |
| Questions.BuildQuestionFields | backend/app/services/assessments.py:305-379 | The fields stored for a question, or its refusal: short stem, repeated labels, too few or too many options, texts that repeat or are catch-alls, or a key that names none |
| Questions.BuiltIff | backend/app/services/assessments.py:259-379 | A question is built exactly when its stem has 20 characters, it has 3 to 5 options, no label twice, no text blank, twice or a stock phrase, and its key answers to an option; it then has the texts in order under A, B, C, the letter of the first option its key answers to, and its points or one |
| Questions.StoredKeyPointsAtText | backend/app/services/assessments.py:259-379 | With labels on all options or on none, the stored key points at the text the writer's key named, or the one at that position, unchanged but for white space at its ends |
| Questions.NamedKeyKept | backend/app/services/assessments.py:259-379 | For labels in part: the option a label names keeps the answer exactly when no unlabelled option stands before it at the position whose key is that label |
| Questions.PartLabelledMisleads | backend/app/services/assessments.py:259-279 | A family where it does not: options labelled blank, A, B with A correct are accepted, and the answer stored is the blank one |
| Questions.RebuildIsSame | backend/app/services/assessments.py:305-372 | Building again from stored fields stores the same fields |
| Questions.OneKeyEarnsPoints | backend/app/services/grading.py:45-69 | Of the keys a sitter can pick, the stored one earns the question's points and every other earns nothing |
| Papers.Paper.constructor | backend/app/services/assessments.py:85-159 | A new paper starts empty, without a maximum score, waiting for its questions |
| Papers.Paper.WriteQuestion | backend/app/services/assessments.py:382-441 | A draft gains one question, at the largest index plus one, or changes one and leaves its index alone, with its mark in cents; on any other status, a bad question, an unknown id or a mark of nothing the paper is as it was |
| Papers.Paper.DeleteQuestion | backend/app/services/assessments.py:444-460 | A draft loses exactly the named question and the rest are numbered 0 to n-1; if a write of the renumbering collides, nothing changes |
| Papers.Paper.WriteIndex | backend/app/services/assessments.py:463-478 | One row's index is rewritten just when no other row holds that index, and indices stay distinct |
| Papers.Paper.Flush | backend/app/services/assessments.py:467-478 | One flush writes the rows in the order of their ids: it puts every row at its place, with indices distinct after each single write, unless some row meets an index that a row of larger id still holds |
| Papers.Paper.Reindex | backend/app/services/assessments.py:463-478 | The two flushes end with the rows at 0 to n-1 in the same order, or collide exactly when a row meets an index not yet given up in the first or in the second |
| Papers.DeleteNeverCollides | backend/app/services/assessments.py:463-478 | In whatever order single writes reach the table, after any of either pass no two rows share an index, for a delete from at most 10,000 questions, or of the last of 10,001 |
| Papers.DeleteGoesThroughIff | backend/app/services/assessments.py:444-478 | Rows are written by their random ids. No assignment of ids makes a delete collide exactly when the draft has at most 10,000 questions, or 10,001 and the last is the one deleted |
| Papers.OneOverGoesThroughIff | backend/app/services/assessments.py:444-478 | From a draft of 10,001 any other delete goes through exactly when the last question's row is written before the first one's |
| Papers.DeleteKeepsOrder | backend/app/services/assessments.py:444-478 | Survivors keep their content and order and close the gap |
| Papers.WriteKeepsSound | backend/app/services/assessments.py:382-441 | A write keeps indices 0 to n-1, in order, and ids distinct |
| Papers.WriteIs | backend/app/services/assessments.py:382-441 | On a draft a write goes through exactly when its points come to a cent and the edited question is there, or the new id is not; the row then holds the key that was built and its points to the nearest cent, in its place or at the end, and no other row changes |
| Papers.DeliveredIs | backend/app/workers/tasks/assessments.py:37-91 | A worker's result of one to a hundred questions replaces the questions, in order, and the count; any other changes neither; the paper is a draft either way |
| Papers.PublishIff | backend/app/services/assessments.py:481-534 | A paper is published exactly from a draft of one to a hundred questions that all have a key, and is then out of the sum of their points and otherwise unchanged |
| Papers.SettlesIff | backend/app/services/assessments.py:211-228 | Settings are taken exactly on a draft that would open before it closes; a paper closes exactly when published; nothing else changes |
| Papers.NextIndexCounts | backend/app/services/assessments.py:416-421 | In a draft numbered 0 to n-1 the largest index plus one is n |
| Papers.Paper.UpdateDraft | backend/app/services/assessments.py:211-228 | Settings change on a draft only, and only to an opening before the closing |
| Papers.Paper.PublishPaper | backend/app/services/assessments.py:481-534 | Publishing needs a draft with questions, at most 100 of them, that all have an answer, and freezes the maximum score as the sum of their points |
| Papers.Paper.ClosePaper | backend/app/services/assessments.py:537-552 | Closing takes a published paper to closed and touches nothing else |
| Papers.Paper.GenerationDone | backend/app/workers/tasks/assessments.py:37-66 | The worker's result replaces the questions and makes the paper a draft, whatever its status was; a count the table refuses (none, or over 100) is told as a failure and changes no question |
| Papers.Paper.GenerationLost | backend/app/workers/tasks/assessments.py:68-91 | The worker's failure makes the paper a draft, whatever its status was |
| Exams.FrozenUnlessGenerationRuns | backend/app/services/assessments.py:231-241 | Through any run of calls a published paper keeps its questions, maximum score and limits exactly when no generation result is delivered in the run |
| Exams.OneCallFreezes | backend/app/services/assessments.py:231-241 | Of single calls, exactly the worker's two undo a publication |
| Exams.BooksBalance | backend/app/services/attempts.py:359-432 | Over every run in which generation results come only to papers awaiting one: every score is the sum of its marks and lies in [0, maximum score], the maximum is the sum of the questions' points, graded sittings are out of it, and nothing is released ungraded |
| Exams.StepKeepsBalanced | backend/app/services/attempts.py:332-432 | The invariant behind it: soundness of the paper, one answer a question with a mark within its points, score equal to the sum, kept by every call |
| Exams.NewPaperBalanced | backend/app/services/assessments.py:85-159 | A new paper meets the invariant |
| Exams.ResultClearsAnswers | backend/app/workers/tasks/assessments.py:37-66 | A result that is stored takes the answers of every sitting along and leaves the rest of each; any other leaves the sittings alone |
| Exams.OnlyOwnCallsTouch | backend/app/services/attempts.py:64-221 | Through any run of other sitters' calls and the author's, a sitting stays as it stood, questions replaced by a worker apart; and sitters' calls leave the paper alone |
| Grading.Quantize | backend/app/services/grading.py:36-42 | Marks round to the nearest cent, halves away from zero |
| Grading.QuantizeStaysWithin | backend/app/services/grading.py:36-42 | Rounding never takes a mark past a bound in whole cents |
| Grading.QuantizeWholeCents | backend/app/services/grading.py:36-42 | A mark already in whole cents is unchanged |
| Grading.GradeMcq | backend/app/services/grading.py:45-69 | An answer earns all the points or none, and all only when it and the key are the same text but for case and white space |
| Grading.MarkingKeeps | backend/app/services/grading.py:72-95 | Grading a whole attempt keeps every response and every row a human marked |
| Grading.FairMarks | backend/app/workers/tasks/grading.py:37-98 | Grading keeps one row a question with a mark within the question's points |
| Grading.ScoreWithinMax | backend/app/services/attempts.py:426-432 | Such marks sum to no more than the sum of the points and no less than 0 |
| Grading.RegradeChangesNothing | backend/app/workers/tasks/grading.py:37-98 | Grading again changes no row |
| Sittings.Sitting.constructor | backend/app/services/attempts.py:64-109 | A sitting starts with its deadline fixed: the earlier of the time limit and the closing, if any |
| Sittings.Sitting.SaveAnswer | backend/app/services/attempts.py:154-197 | A save changes one response of a running sitting before its deadline and is refused otherwise, changing nothing |
| Sittings.Sitting.SubmitPaper | backend/app/services/attempts.py:200-224 | Handing in ends a running sitting and leaves any other as it was |
| Sittings.Sitting.GradeAttempt | backend/app/workers/tasks/grading.py:37-98 | A worker's delivery marks every question in turn, totals the marks, records the maximum, clears an earlier failure and, where results are immediate, releases; a void sitting is left alone |
| Sittings.Sitting.FailGrading | backend/app/workers/tasks/grading.py:107-127 | A grading pass that fails leaves its message on the row and nothing else |
| Sittings.Sitting.GradeAnswer | backend/app/services/grading.py:72-95 | One answer is marked in place, unless a human marked it |
| Sittings.Sitting.Recompute | backend/app/services/attempts.py:426-432 | The score becomes the sum of the marks given |
| Sittings.Sitting.ReleaseResult | backend/app/services/attempts.py:332-356 | Release needs a graded sitting and records its first time only |
| Sittings.Sitting.OverrideGrade | backend/app/services/attempts.py:359-423 | A human's mark within the question's points replaces the row's mark and the score follows |
| Sittings.Sitting.VoidAttempt | backend/app/services/attempts.py:435-452 | A sitting is voided and nothing else of it changes |
| Sittings.StepKeeps | backend/app/services/attempts.py:150-221 | Any step, at any time: the deadline never moves, void is final, hand-in is final, release is final, grading leaves human marks alone, and only a save in time changes a response |
| Sittings.SaveTakes | backend/app/services/attempts.py:154-197 | A save in time is the response that will be marked |
| Timing.DeadlineIs | backend/app/services/attempts.py:86-109 | A deadline has not passed exactly while the paper has not closed and its length has not run out; there is none exactly when the paper has neither |
| Timing.BeginsIff | backend/app/services/attempts.py:64-109 | A sitting begins exactly when the paper is published and open, unless the sitter's was voided; one begun before is taken up as it stands |
| Timing.TakesUntil | backend/app/services/attempts.py:150-197 | Through any run that neither hands it in nor voids it, a sitting takes a response exactly before the paper closes and within its length of the start, for exactly the paper's questions; that response is then on record and nothing else changes |
| Timing.HandsIn | backend/app/services/attempts.py:200-224 | Handing in marks a running sitting as handed in by the clock exactly when it was, or the call was automatic, and changes no sitting that is not running |
| Timing.ReleasesIff | backend/app/services/attempts.py:332-356 | A result is released exactly when it is graded, and keeps its first time |
| Marks.MarkingMarks | backend/app/workers/tasks/grading.py:37-98 | A grading pass over a sitting that is not void leaves each question a row with what was written; unless a human marked it, the mark is all the points when response and key are the same but for case and white space and neither is empty, and otherwise nothing |
| Marks.EarnedMarkStands | backend/app/workers/tasks/grading.py:37-98 | Once a sitting is closed to writing, through any run in which no human marks the question, its row keeps the response and the mark it earned |
| Marks.FullMarksWhenAllRight | backend/app/services/grading.py:45-95 | With no mark by a human, a grading pass scores the maximum exactly when every question with points has a right response |
| Marks.OverrideIs | backend/app/services/attempts.py:359-423 | A human's mark is taken exactly between nothing and the question's points; it is then on record to the nearest cent as a human's, no other row and no response changes, and the score is the rows' sum |
| Sittings.ClosedSittingIsFixed | backend/app/services/attempts.py:150-221 | From the deadline on, or once the sitting has left IN_PROGRESS, no run of any length changes a response |
| Sittings.RegradesChangeNothing | backend/app/workers/tasks/grading.py:37-98 | Any number of re-grades leave the answers, marks and score of the first |
| Sittings.NoMarksBeforeRelease | backend/app/services/attempts.py:227-304 | Over two runs of the same steps at the same times, whatever is written, right or given by a human in either, the results shown are the same for as long as nothing is released, and hold no answer, mark, maximum or error |
| Sittings.RunsStandAlike | backend/app/services/attempts.py:200-304 | Status, deadline, and the times of hand-in, grading and release do not depend on what was written or marked |
| Sittings.UnreleasedShowsIff | backend/app/services/attempts.py:239-260 | Two unreleased results are the same exactly when status, hand-in time and grading time are: that a sitting has been graded, and when, does show |
| Sittings.ReleasedShowsEachQuestion | backend/app/services/attempts.py:227-304 | After release each question of the paper is shown once, in order, with its own row |
| Drafting.Run.Generate | backend/app/services/assessments.py:1704-2168 | Whatever the model and embedder reply, the run ends. It is aborted exactly when some reply it heard breaks it, and then its last call was granted and never reached the trace. Otherwise it is the run of `Drafts.Run`; its calls are those the budget granted, each in the trace once, at most the limit; the paper is the first `target` accepted, the book's questions before the written ones; it is short only when the calls or the passages ran out; the trace's accepted total is what was accepted |
| Drafting.Run.constructor | backend/app/services/assessments.py:1704-1750 | A run starts with the whole budget, nothing accepted and an empty trace |
| Drafting.Run.Ask | backend/app/services/assessments.py:1752-1887 | One call is granted and answered, or none is left; what it adds, counts and raises is what `Drafts.Write` says, with the books balanced or the call lost |
| Drafting.Run.HearReply | backend/app/services/assessments.py:1807-1887 | A dead reply adds nothing; one that was read counts its format as heard and adds its novel sound items, at most as many as wanted; a wrong number of vectors raises, and so does one that cannot be compared |
| Drafting.Run.AcceptNovel | backend/app/services/assessments.py:1861-1876 | Every sound stem is either accepted or counted once as a duplicate, and what was accepted before stays first; a wrong number of vectors raises, and so does one that cannot be compared |
| Drafting.Run.TakeFlagged | backend/app/services/assessments.py:1864-1876 | Stems and flags are taken in step for as long as there are both, which is what is in memory when the counts differ |
| Drafting.Run.Enter | backend/app/services/assessments.py:1877-1887 | A call's format count and its trace line are entered together |
| Drafting.ReadItems | backend/app/services/assessments.py:1843-1859 | Reading stops at `wanted` sound items; those are the sound ones in order, with the faults met on the way |
| DraftSources.OfferedIs | backend/app/services/assessments.py:1825-1859 | A writing reply offers the sound items among its first eight, or three times as many as wanted if that is more, in their order, up to the number wanted |
| DraftSources.FaultsAre | backend/app/services/assessments.py:1843-1859 | The faults counted are those of the items read, until there are enough sound ones or no more |
| DraftNovelty.TakenIs | backend/app/services/assessments.py:1861-1876 | The stems accepted are those flagged, in their order, for the format asked |
| Drafting.Run.NextUsable | backend/app/services/assessments.py:1913-1928 | The cursor moves to just past the first batch with a usable question, or to the end when there is none |
| Drafting.Run.TakeFromBook | backend/app/services/assessments.py:1902-2043 | The cursor passes batches with nothing usable without spending a call, and the next one is asked, at most as many questions as wanted |
| Drafting.Run.AskBook | backend/app/services/assessments.py:1929-1955 | One harvesting call is granted and answered, or none is left |
| Drafting.Run.HearAnswers | backend/app/services/assessments.py:1973-2043 | A dead reply adds nothing; an answer that does not fit the contract raises; otherwise the novel questions among those asked, settled and sound are accepted, in the book's own words, and recorded as harvested |
| Drafting.ReadAnswers | backend/app/services/assessments.py:1973-2017 | The loop stops with an error exactly when an asked, settled answer does not fit the contract; otherwise an answer stands when it is to a question asked, settled and sound, and unsettled ones are not counted as rejections |
| DraftSources.AnsweringIs | backend/app/services/assessments.py:1973-2017 | The questions a harvesting reply brings are those its standing answers number, answer by answer in their order |
| DraftSources.EachAsItsAnswers | backend/app/services/assessments.py:1973-2017 | Of questions that differ, the n-th asked is brought as often as sound, settled answers numbered n stand |
| DraftSources.UsableIs | backend/app/services/assessments.py:1913-1928 | A batch is asked for its usable questions in their order, up to the number wanted |
| Drafting.Run.HarvestPass | backend/app/services/assessments.py:2045-2063 | Batches are asked for what the share still lacks, the formats in turn, until it is met, the batches are read or no call is left, or an error escapes |
| Drafting.Run.FirstPass | backend/app/services/assessments.py:2065-2075 | Every format is asked for its whole share, whatever the book supplied |
| Drafting.Run.AskForShare | backend/app/services/assessments.py:2071-2075 | One format is asked for what its share still lacks, at most once a batch of passages, while calls are left |
| Drafting.Run.Fill | backend/app/services/assessments.py:2077-2126 | The working formats and those never heard are asked, round after round, until the target is met, the calls or the formats run out, or a round adds nothing and none of them works |
| Drafting.Run.SweepOnce | backend/app/services/assessments.py:2108-2112 | A round asks each format in turn for what the paper still lacks, while something is lacking and a call is left |
| Drafting.Run.Worthwhile | backend/app/services/assessments.py:2113-2120 | The formats retried are those that have worked or were never heard, so a format that works is never dropped |
| Drafting.Run.Passes | backend/app/services/assessments.py:2045-2126 | The three passes, one after the other, are the run as a function of the plan and the replies |
| DraftRuns.BookKeeps | backend/app/services/assessments.py:2045-2063 | A property of where a run stands that holds at its start and through every harvesting call, the k-th of which is for format k, round and round, holds when the book is done with |
| DraftRuns.WritingKeeps | backend/app/services/assessments.py:2065-2126 | One that holds then and through every writing call holds when the run ends |
| DraftSources.EveryQuestionHasItsReply | backend/app/services/assessments.py:1752-2126 | In every run that is not broken each question accepted has its source: the book's were printed, usable, asked in a call the run made and settled there by a sound answer to their own number, under the format whose turn it was; the rest are sound items of writing replies |
| DraftNovelty.NoTwoAlike | backend/app/services/assessments.py:1110-1146 | With an embedder that answers, every run that is not broken ends with no question near an earlier one, whatever calls they came from, and no sound question it heard is missing unless it is near one that is there |
| DraftOrder.RetryOrderIs | backend/app/services/assessments.py:2085-2101 | The backfill asks the formats that gave something and then those never heard, each in the plan's order, and no other |
| DraftOrder.StillWorthIs | backend/app/services/assessments.py:2113-2120 | Between rounds exactly those that gave something or were not heard stay, in order |
| DraftOrder.RoundAsksAll | backend/app/services/assessments.py:2108-2112 | A round asks every format in the order once unless the paper fills or the calls run out |
| DraftOrder.PassOneAsks | backend/app/services/assessments.py:2065-2075 | Pass one asks the formats in the plan's order, each at most once a batch of passages |
| DraftOrder.BackfillAsksWell | backend/app/services/assessments.py:2077-2126 | After pass one a run asks only formats that had given something by then or had not been heard, and one that was heard is asked again only if it has given something by the end |
| DraftLimits.EachFormatItsShare | backend/app/services/assessments.py:2065-2075 | A run given all it asks for, taking nothing from the book and with a call for each format, ends with just the plan's share of each format |
| DraftFacts.BreaksIff | backend/app/services/assessments.py:1130-2043 | A run is broken exactly when some reply it hears breaks it: a harvesting reply with an asked, settled answer that does not fit the contract; an embedder's reply with another number of vectors than stems; or one that makes two vectors or more over the run, one of which is not a list of numbers. It ends at that call |
| DraftFacts.StumblesIff | backend/app/services/assessments.py:1130-1153 | Comparing the vectors of a reply with those kept raises exactly when, counting those sent before, there are two or more and one is not a list of numbers: a first one is kept without a look and ends the run at the next |
| DraftFacts.RunLeads | backend/app/services/assessments.py:1704-2126 | Through any run each call costs one of those left, what was accepted stays first, the counts of the formats grow by what is accepted, and no reply but the last can break it |
| DraftLimits.MisfitEndsRun | backend/app/services/assessments.py:1991-2004 | Such a reply: one answer, numbered 1, with a field of the wrong kind. Any run that would take from the book ends on hearing it first |
| DraftLimits.UnreadableEndsRun | backend/app/services/assessments.py:1130-1153 | Another: two vectors or more for the first questions written, one of them not a list of numbers |
| DraftLimits.RunEnds | backend/app/services/assessments.py:2045-2168 | A run that is not broken ends with the paper full, or no call it could make, or nothing accepted; it takes at most the target beyond what came from the book, whose questions come first |
| DraftBounds.AfterSharesReach | backend/app/services/assessments.py:2045-2075 | With harvesting replies that answer no number twice, the book gives at most its share, and passes zero and one together at most the plan's most: what the usable batches can supply within the share and the calls, and what pass one can write with the calls that leaves |
| DraftLimits.MostIsReached | backend/app/services/assessments.py:2045-2075 | That most is reached, for every plan, by a model that gives each call what it asked for |
| DraftLimits.RunReachesMost | backend/app/services/assessments.py:2045-2168 | When that most is over the target, a whole run ends with it: the backfill neither adds to it nor takes from it |
| DraftLimits.FitsIff | backend/app/services/assessments.py:1889-2126 | Over all replies that answer no number twice, no run takes more than the target exactly when the plan's most is within it |
| DraftLimits.OneFormatFitsIff | backend/app/services/assessments.py:1889-2126 | For one format, the shipped case: exactly when nothing comes from the book, there is nothing to write from, or harvesting uses up the calls. Otherwise a run takes all the book supplies and a whole paper besides |
| DraftLimits.AlwaysFitsIff | backend/app/services/assessments.py:1976-2126 | Over all replies, repeated numbers included: exactly when the plan takes nothing from the book |
| DraftLimits.CallOverrunsIff | backend/app/services/assessments.py:1976-2031 | With the embedder down, one harvesting call takes more than it asked exactly when more answers stand than were asked |
| Drafting.Run.Conclude | backend/app/services/assessments.py:2128-2168 | An empty paper is refused with its cause; any other is cut to the target and its counts entered |
| Drafting.ServiceBlamedForDeadCalls | backend/app/services/assessments.py:2135-2140 | The service is blamed exactly when some call was made and every call failed |
| Generation.KeptStemsDiffer | backend/app/services/assessments.py:1110-1146 | No two stems kept are near-duplicates, and each one dropped is near one kept before it |
| Generation.StemDeduper.Keep | backend/app/services/assessments.py:1130-1146 | One flag a vector the embedder sends, however many, set when it is near none kept before; the vectors remembered are the flagged ones; with the embedder down every stem is kept; comparing what is not a list of numbers raises |
| Generation.StemDeduper.Compare | backend/app/services/assessments.py:1142 | A vector is compared with each kept in turn up to the first it is near; it raises when one of the two compared is not a list of numbers |
| Generation.HarvestNeverOverruns | backend/app/services/assessments.py:1976-2031 | A harvesting reply that answers no number twice yields at most one question for each asked |
| Generation.AnsweringCount | backend/app/services/assessments.py:1976-1992 | As many questions are taken off a reply as answers stand, the same question as often as it is answered |
| Generation.HarvestTarget | backend/app/services/assessments.py:1382-1406 | The book's share never exceeds the paper or what the book offers; it is nothing when the author said never, the lesser of the two when they asked for the book's questions, and otherwise the configured part of the paper, rounded down, unless the book offers less |
| Batches.BatchesPartition | backend/app/services/assessments.py:1700-1705 | Strided batches share the sample out: every passage in exactly one place, no batch empty or over size, sizes within one of each other |
| Batches.CountFits | backend/app/services/assessments.py:1704-1705 | There are just enough batches to hold the sample at that size, and no more than passages: one fewer would not hold it |
| Batches.CallBudget.Spend | backend/app/services/assessments.py:1186-1191 | A call is granted exactly when one is left; granted and left always add up to the limit |
| Batches.CallBudget.Take | backend/app/services/assessments.py:1193-1200 | The k-th batch granted is batch k modulo their number |
| Batches.EveryBatchBeforeARepeat | backend/app/services/assessments.py:1156-1200 | Between two showings of one batch every other is shown |
| Traces.GenerationTrace.Step | backend/app/services/generation_trace.py:61-68 | A stage is noted and no counter moves |
| Traces.GenerationTrace.Call | backend/app/services/generation_trace.py:70-117 | A call adds to its format's tally and to the totals alike, which stay the sums of the tallies |
| Traces.GenerationTrace.Dedupe | backend/app/services/generation_trace.py:119-127 | The number dropped as repeats is recorded, with a stage |
| Traces.GenerationTrace.Finish | backend/app/services/generation_trace.py:142-170 | The payload's counts are the trace's, and its final count the paper's |
| Sampling.SelectByCoverage | backend/app/services/assessments.py:808-843 | The sample: each group's even picks in group order, each passage once, cut to what is wanted |
| SampleFacts.GroupsIs | backend/app/services/assessments.py:821-823 | Groups come in the order of their first passages |
| SampleFacts.MembersIs | backend/app/services/assessments.py:821-823 | A group is the passages of one chapter, or of one book in no chapter, in their order |
| SampleFacts.TakeIs | backend/app/services/assessments.py:829-831 | A group gives its share by length of what is wanted, to the nearest passage, one at least and all at most; length is tokens, or passages when no tokens are counted |
| SampleFacts.SpacedIs | backend/app/services/assessments.py:832-834 | The i-th of t passages a group gives stands i parts in t of the way through it, rounded down |
| SampleFacts.UniqueIs | backend/app/services/assessments.py:836-842 | Dropping repeats leaves each passage where it first comes |
| SampleFacts.SampleIs | backend/app/services/assessments.py:808-843 | The sample is what the groups give, the first group's first, as far as there is room |
| Sampling.StepsAreEven | backend/app/services/assessments.py:832-834 | Picks within a group start at its first passage and step on by the group's length over the picks, rounded down or up |
| Sampling.LastPickedIff | backend/app/services/assessments.py:832-834 | A group's last passage is picked exactly when all of it is |
| Sampling.SampleIsWithin | backend/app/services/assessments.py:808-843 | The sample repeats nothing, holds only the material's passages and is as long as wanted unless the rounded shares come to less |
| Sampling.ChapterServedIff | backend/app/services/assessments.py:825-843 | A chapter gives the sample something exactly when the chapters before it have not filled it, and each of those gives at least one passage |
| Chunking.ChunkPages | backend/app/rag/chunk.py:262-330 | The whole loop: chapter by chapter, each flushed before the next, the chunks are the rendering of the packing of the chapter's paragraphs |
| Chunking.CollectUnits | backend/app/rag/chunk.py:295-302 | A chapter's paragraphs are those of its pages and no other, in order |
| Chunking.KeepParagraphs | backend/app/rag/chunk.py:298-302 | A page's paragraphs, stripped, that are long enough and mostly letters |
| Chunking.PackChapter | backend/app/rag/chunk.py:304-328 | The packing loop makes the chunks of one chapter from its paragraphs, numbering on from those before |
| Chunking.EmitBuffer | backend/app/rag/chunk.py:312-328 | A buffer becomes one chunk, on the page of its first paragraph |
| Chunking.EmitPieces | backend/app/rag/chunk.py:314-315 | A paragraph too large becomes one chunk a piece, on its own page |
| Chunking.CarryTail | backend/app/rag/chunk.py:282-293 | What is carried is the most of the buffer's last paragraphs that fit the overlap, and its size |
| Chunking.ParagraphsKeepInk | backend/app/rag/chunk.py:259-299 | Splitting a page into paragraphs loses nothing but white space |
| Chunking.PageKeptWholeIff | backend/app/rag/chunk.py:259-302 | The paragraphs kept of a page print all that the page prints exactly when every one left out is blank |
| Coverage.ParagraphsAre | backend/app/rag/chunk.py:259-299 | A page's paragraphs are what stands between its breaks, each from a newline to the last newline that only white space parts from it; none begins inside a paragraph |
| Coverage.KeptIff | backend/app/rag/chunk.py:298-338 | What is kept of a page are exactly its paragraphs that, stripped, have 20 characters or more and at least as many letters as other characters |
| Coverage.ParagraphIsIndexed | backend/app/rag/chunk.py:262-344 | Every such paragraph of every page under a chapter stands in that chapter's chunks: whole in one, or in consecutive ones that spell it |
| ChunkFacts.TailIsMost | backend/app/rag/chunk.py:284-295 | One paragraph more than is carried would not fit the overlap |
| Text.StripIs | backend/app/rag/chunk.py:299-301 | Stripping cuts white space off both ends and nothing else |
| ChunkFacts.DraftsConserve | backend/app/rag/chunk.py:304-328 | Without their carried openings the chunks hold exactly the chapter's kept paragraphs, in order; each packed chunk holds one no earlier chunk holds, opens with the most of its predecessor's end that fits, and was closed only because the next paragraph did not fit |
| ChunkFacts.ChapterTextRestored | backend/app/rag/chunk.py:304-343 | Stripping carried text and rejoining cut paragraphs, a chapter's chunks spell its kept paragraphs |
| ChunkFacts.SplitRejoins | backend/app/rag/chunk.py:341-343 | The pieces of an oversized paragraph rejoin to it |
| ChunkFacts.SplitSizes | backend/app/rag/chunk.py:341-343 | Each piece is non-empty and within the budget, and all but the last fill it |
| ChunkFacts.BookChunks | backend/app/rag/chunk.py:262-330 | Over a book, chunks are numbered 0 to n-1; each is whole kept paragraphs of one chapter joined, or a stretch of one, all from that chapter's pages, and carries the page of the first; none is stored with more than (5T - 2)/4 tokens, T being budget plus overlap |
| ChunkFacts.StoredCount | backend/app/rag/chunk.py:51-52 | A packed chunk's stored count is at most (5T - 2)/4 for paragraphs that measure T |
| ChunkFacts.ShippedSettingsFit | backend/app/rag/chunk.py:62-71 | With 320 and 64 no chunk is stored with more than 479 tokens, so all fit an embedder that reads 512 |
| ChunkFacts.BudgetIsCeilingIff | backend/app/rag/chunk.py:62-71 | The budget bounds every packed chunk exactly when the overlap is under 5 tokens |
| ChunkFacts.OverlapIsSpent | backend/app/rag/chunk.py:319-324 | Otherwise budget plus overlap is reached: an overlap-sized paragraph and then a budget-sized one make a chunk of both |
| ChunkFacts.WholeChunkCarriedIff | backend/app/rag/chunk.py:264-293 | A chunk is repeated whole inside the next exactly when its paragraphs all fit the overlap |
| Pages.TextPagesRestore | backend/app/rag/parse.py:379-384 | A text file's pages are numbered, full but for the last, and spell the file; an empty file is one empty page |
| Pages.ParseDocx | backend/app/rag/parse.py:342-360 | The loop that fills and empties its buffer makes the pages of the grouped paragraphs |
| Pages.DocxPagesKeep | backend/app/rag/parse.py:342-360 | Those pages hold each paragraph once, in order, and each but the last is closed by the paragraph that fills it |
| Pages.ScanZip | backend/app/rag/parse.py:223-303 | The walk over an archive ends with its book, or with the first reason it cannot; what it has unpacked and held is never past the cap |
| Pages.Unpack | backend/app/rag/parse.py:246-256 | Unpacking one member gives up exactly when it does not fit what is left of the cap |
| Books.ArchiveIsOneBook | backend/app/rag/parse.py:223-303 | A book combined from an archive has pages 1 to N with no gap that spell its members' pages in reading order, and parts that follow one another from 1 to N; what was unpacked is within the cap |
| Books.OutlinePassAgrees | backend/app/rag/parse.py:223-232 | Whenever the pass with text succeeds, the pass without it finds the same parts |
| Parts.ArchiveReadsIff | backend/app/rag/parse.py:223-303 | An archive reads exactly when its files unpack to no more than the cap, every document in it can be read, and one of them has a page |
| Parts.PartsAreFiles | backend/app/rag/parse.py:255-303 | The book's parts are the files with pages, in order, each with its file's title and page texts, and each outline entry on the page of the book that holds the page of the file it named |
| Books.ChaptersFromTops | backend/app/rag/chunk.py:245-256 | Each chapter runs from its start to just before the next start, or to the last page, and is never empty |
| Books.NoPageTwiceIff | backend/app/rag/chunk.py:245-256 | No page is chunked under two chapters exactly when the starts strictly increase |
| Books.PagesUnderAChapter | backend/app/rag/chunk.py:218-256 | A page is under a chapter of `detect_chapters` exactly when it is not past the last and some chapter starts at or before it, whatever the order of the starts; with fewer than two starts, every page is |
| Books.TopsFromParts | backend/app/rag/chunk.py:218-242 | The starts are each part's own outline, when that names at least two, or else its first page |
| Books.SeamsSteppedOverIff | backend/app/rag/chunk.py:218-256 | For any outlines, entries that go back or leave their file included: no chapter spans two uploaded files exactly when, for the first page of each later file, every start before that page has a next one and the next is not past it |
| Books.SeamsKeptIff | backend/app/rag/chunk.py:218-242 | For outlines that stay in their file and never go back, two entries on one page included: no chapter spans two uploaded files exactly when every later file that brings an outline has its first entry on its own first page |
| Fusing.Fuse | backend/app/rag/rank.py:105-145 | The loops over lists and hits end with every chunk once, by score and arrival |
| Fusing.Count | backend/app/rag/rank.py:132-140 | Reading one hit adds its place's share and keeps the first hit, filling in a distance only where there was none |
| FusedOrder.FusedIsUnion | backend/app/rag/rank.py:128-145 | The result lists every chunk of any list, and no other, exactly once: as its first hit, with the first distance any of its hits has and none when none has one |
| FusedOrder.FusedByScore | backend/app/rag/rank.py:142-145 | Scores never rise along the result, and equal scores keep the order of first arrival |
| FusedOrder.AgreementWinsIff | backend/app/rag/rank.py:98-145 | For lists of n and m without repeats, every chunk in both comes before every chunk in one, whatever the lists, exactly when two last places outweigh one first |
| FusedOrder.SixtyOneIsTheLimit | backend/app/rag/rank.py:98-102 | Two lists of up to 61 meet that condition; two lists of 62 do not |
| FusedLead.LeadsIff | backend/app/rag/rank.py:130-145 | Of two chunks in a merging of two lists without repeats, told by their places alone: a chunk at place i of one list has 1/(61+i), at i and j of both the sum of the two; the one with more comes first, and those with as much in the order the lists named them |
| FusedLead.EarlierPlaceLeads | backend/app/rag/rank.py:130-145 | Of two chunks each named by one list, the one at the earlier place comes first |
| Sorting.Sorts | backend/app/rag/rank.py:142-145 | Sorting by a key rearranges and puts in order |
| Narrowing.OverlapsBothWays | backend/app/rag/rank.py:68-95 | Overlap does not depend on which passage comes first; a passage overlaps itself exactly when it has words |
| NarrowFacts.WordsAre | backend/app/rag/rank.py:86-87 | Words are a text's longest stretches without white space, in order |
| NarrowFacts.OverlapsIff | backend/app/rag/rank.py:86-97 | Two passages overlap exactly when, with single spaces for white space, neither is empty and one holds the other, or the first or last 200 characters of it |
| Narrowing.Dedupe | backend/app/rag/rank.py:169-186 | The loop with its set of pages keeps each hit that repeats none kept before |
| Narrowing.DropsHaveWitness | backend/app/rag/rank.py:172-184 | Each hit is kept in its place, or repeats an earlier kept one by page or by text |
| Narrowing.DedupeTwice | backend/app/rag/rank.py:148-186 | Of the hits left no two share a page of a book or overlap; the first hit stays; doing it again changes nothing |
| NarrowFacts.DedupedIs | backend/app/rag/rank.py:171-189 | Exactly the hits stay that share no page of a book and no overlapping text with a hit that stayed before them |
| Narrowing.SpreadHits | backend/app/rag/rank.py:269-297 | The two loops take the first hit of each page up to the limit, then fill up with the others, in order |
| Narrowing.SpreadKeeps | backend/app/rag/rank.py:269-297 | For a positive limit: as many hits as there are or fit, in their order, the first kept |
| Narrowing.SpreadShowsMost | backend/app/rag/rank.py:269-297 | No choice of as many hits shows more different pages |
| NarrowFacts.SpreadIs | backend/app/rag/rank.py:269-297 | More hits than a positive limit are spread to exactly these, in order: the first hits of as many pages as fit, and then the earliest of the others while there is room |
| Narrowing.LimitHeldIff | backend/app/rag/rank.py:276-297 | The limit is held exactly when it is positive or there is nothing to spread |
| Voting.Vote | backend/app/rag/rank.py:199-235 | The loops give each book its evidence, share and first title, strongest first |
| Voting.Tally | backend/app/rag/rank.py:212-221 | The two dictionaries hold each book's weights, in order, and its first title |
| Voting.SharesAddUp | backend/app/rag/rank.py:223-235 | Shares come to 1 whenever there is any evidence, and every hit is counted for one book |
| Voting.VotesAreBooks | backend/app/rag/rank.py:212-235 | Each vote is one book's, for what its own hits weigh; no share is negative |
| Voting.VotesRanked | backend/app/rag/rank.py:235 | Votes run from the strongest down; ties keep the order of first hits |
| Voting.OneDominates | backend/app/rag/rank.py:38-43 | At most one book reaches the dominant share |
| BookVotes.VoteReads | backend/app/rag/rank.py:199-235 | A vote has its book's strength, in Horner's form (the first hit's likeness and 0.85 of the rest), the number of its hits and the title of the first; shares are as strengths |
| BookVotes.StrongestFirst | backend/app/rag/rank.py:223-235 | Votes fall in strength, and books as strong as each other stand in the order of their first hits |
| Voting.Route | backend/app/rag/rank.py:238-266 | Hits of the leading book, or the two leading ones, are kept, or all of them when that leaves under three |
| Voting.RouteDiscards | backend/app/rag/rank.py:238-266 | Routing keeps order, leaves at least three of three or more, and keeps every hit of the books it keeps |
| BookVotes.RoutedIs | backend/app/rag/rank.py:238-266 | Of more than three hits exactly those of the strongest book stay, and of the second when the first has less than the dominant share, in order, when there are three of them; otherwise all |
| Voting.Narrow | backend/app/rag/rank.py:300-304 | The three steps in order |
| Voting.NarrowDiscards | backend/app/rag/rank.py:300-304 | What is left is a subsequence with no repeats, at most the limit, at least the least of the limit, three and the hits that differ |
| Excerpt.Search | backend/app/rag/trim.py:105-122 | The double loop ends with the window that fits and beats every run of sentences that fits: more terms, then the earlier start, then the earlier end |
| Excerpt.SearchFrom | backend/app/rag/trim.py:111-120 | Breaking off at the first run that is too dear misses none that fits |
| Excerpt.Cut | backend/app/rag/trim.py:77-127 | The passage itself when inside the budget, its head when it has one sentence, and otherwise the best window |
| Excerpt.BestIsUnique | backend/app/rag/trim.py:105-122 | The window is settled by the passage and the question |
| Excerpt.EndsOnAMatch | backend/app/rag/trim.py:90-122 | The window ends on a sentence with a term of the question; when none has one it is the first sentence alone |
| Excerpt.HeadIsWithin | backend/app/rag/trim.py:98-103 | A single long sentence is cut at the last space within the budget, if there is one, with white space before it trimmed and the cut marked; where that leaves nothing, at the budget |
| Excerpt.ScoreCounts | backend/app/rag/trim.py:64-74 | A sentence scores one for each of the question's terms it has |
| Excerpt.RenderedReads | backend/app/rag/trim.py:122-127 | Of part of a passage each sentence of the window stands at its place, in order, a space before each but the first, with an ellipsis in front when something comes before and behind when something comes after |
| Text.JoinSplits | backend/app/rag/trim.py:126 | Joining keeps the parts in order with the separator between each two |
| Excerpt.ExcerptMeasures | backend/app/rag/trim.py:122-127 | Text cut by a window that is not the whole passage measures at most one token a sentence over its cost: at most twice the budget for several sentences, no bound for a single one, and within the budget when the cost leaves a token a sentence spare |
| Excerpt.WithinBudgetIff | backend/app/rag/trim.py:122-127 | For a passage over the budget the text handed on is within it exactly when it is not the whole passage and its sentences, joins and marks come to under four characters for each token of the budget and one more |
| Excerpt.TwiceTheBudgetIsReached | backend/app/rag/trim.py:90-127 | For every budget some passage's excerpt measures twice it |
| Excerpt.OneSentenceIsUnbounded | backend/app/rag/trim.py:114-127 | A first sentence that alone shares a word with the question is handed on whole, whatever it measures |
| Excerpt.WholeIsBestIff | backend/app/rag/trim.py:105-122 | Of several sentences the window is all of them exactly when they fit together and the last shares a word with the question |
| Excerpt.WholePassageIsUnbounded | backend/app/rag/trim.py:122-125 | And then any passage over the budget comes back untouched, whatever it measures, the white space between sentences being charged nothing |
| Integrity.ComputeIntegrityScore | backend/app/services/proctoring.py:129-175 | The loop's score, in [0, 100], is 100 less the capped costs of the events that count, rounded half to even |
| Integrity.ContributionOf | backend/app/services/proctoring.py:159-174 | One event's capped cost, as a share of a sitting of known length or else by the minute |
| Integrity.NoEventSinksTheScore | backend/app/services/proctoring.py:112-121 | One event leaves at least 30, and n leave at least 100 - 70n |
| Integrity.MoreEventsScoreLess | backend/app/services/proctoring.py:129-175 | An event more, anywhere in the timeline, never raises the score |
| Integrity.ScoreIgnoresOrder | backend/app/services/proctoring.py:129-175 | The order of events does not matter |
| Integrity.DismissingHelps | backend/app/services/proctoring.py:152-158 | Dismissing an event never lowers the score without dismissals and leaves the other as it was |
| Integrity.ReleasedIsKinder | backend/app/services/proctoring.py:152-158 | The score without dismissed events is never under the one with them |
| Integrity.OnlySharesCount | backend/app/services/proctoring.py:135-174 | Two sittings whose lengths, and the durations of whose events, are as n to m score the same |
| Integrity.MergingHelps | backend/app/services/proctoring.py:159-174 | Two events of a kind told as one, occurrences and durations added, never score lower |
| Integrity.AbsentThroughout | backend/app/services/proctoring.py:123-126 | A camera that saw nobody for the whole of a sitting of any length scores at most 37 |
| Integrity.ScoreIs | backend/app/services/proctoring.py:175 | The score is the whole number nearest to a hundred less the penalty, of two the even one, and nothing once the penalty passes a hundred |
| Integrity.OccurrencesAdd | backend/app/services/proctoring.py:112-174 | What two counts of one kind cost together is what they cost apart, or 70 |
| Integrity.DurationsAdd | backend/app/services/proctoring.py:135-174 | So do lengths, while together they are no more than the sitting or its length is not known |
| Integrity.OneEventScores | backend/app/services/proctoring.py:86-175 | What one brief event, and one of a minute, comes to for each kind where the sitting's length is not known |
| Retrieval.RetrieveFor | backend/app/services/chat.py:1243-1371 | The strict tier, and only when it is empty the second, whose hits are marked loose with the words that found them |
| Retrieval.ProbeWords | backend/app/rag/retrieve.py:301-307 | The probes are the question's first 24 different words of three characters or more |
| Answers.ProbesIs | backend/app/rag/retrieve.py:301-307 | They are the first 24, each where it first comes |
| Answers.FrequencyIs | backend/app/rag/retrieve.py:308-337 | A word's count is the number of chunks that hold it and that the caller may read, of the named books if any is named |
| Answers.CapIs | backend/app/rag/retrieve.py:358-372 | A word is too common past one in fifty of those chunks, past three at least and four hundred at most |
| Answers.ChosenIff | backend/app/rag/retrieve.py:338-355 | A word is significant exactly when some chunk has it and no more than the cap, no more than three or three times as many as any other such word, and fewer than four such words are rarer, or as rare and sooner asked |
| Answers.SearchIff | backend/app/rag/retrieve.py:85-140 | The first tier returns a chunk exactly when it is stored, shared or the caller's own, of a named book if any is named, embedded and within the ceiling, and fewer than `topK` of such chunks are closer, or as close with a lower id |
| Answers.CorroboratedIff | backend/app/rag/retrieve.py:375-444 | The second tier does so of those that have one of the words, within its own ceiling |
| Answers.AnswerIs | backend/app/services/chat.py:1243-1371 | An answer is the first tier's chunks, unmarked, when it has any, and otherwise the second's, marked with the words; each with its distance and its book's title, the closest first |
| Scoping.OthersBooksDoNotMatter | backend/app/services/chat.py:1243-1371 | Over any two databases alike in the shared chunks, the caller's own and their books' titles, both tiers answer the caller alike |
| Scoping.TermsAgree | backend/app/rag/retrieve.py:252-372 | The words the second tier searches by, with the counts behind them, are alike too |
| Scoping.HitsAreInScope | backend/app/rag/retrieve.py:65-140 | Every chunk returned is stored, readable by the caller, of a named book if any is named, embedded, and within its tier's ceiling |
| Scoping.NarrowingSubtracts | backend/app/rag/retrieve.py:104-140 | In the strict tier, with no more candidates than the search takes, naming books leaves just those books' hits |
| Scoping.NarrowingSubtractsIff | backend/app/services/chat.py:1243-1371 | Over both tiers and told of stored chunks, naming books only subtracts exactly when: the named books have a chunk for the first tier, and each one taken has fewer than `topK` nearer ones in all books; or they have none, and for each chunk the second tier takes no book has one for the first, it has one of the words significant in all books, and fewer than `topK` of those they find come before it |
| Scoping.InNearestIff | backend/app/rag/retrieve.py:104-140 | A search returns a chunk exactly when it passes the filter, is within the ceiling, and fewer than `topK` that pass come before it |
| Scoping.NarrowingCanOpenTheSecondTier | backend/app/services/chat.py:1299-1371 | With candidates far fewer than the search takes: naming a book empties the strict tier, and the second returns a chunk the wider question does not |
| Scoping.NarrowingCanAdd | backend/app/rag/retrieve.py:104-140 | With more, naming a book can return a chunk the wider search did not |
| Scoping.NoTermsIff | backend/app/rag/retrieve.py:338-341 | No word is kept exactly when no word of the question is found in between one chunk and the cap |
| Scoping.SignificantTermsTell | backend/app/rag/retrieve.py:338-355 | Words kept are at most four, each found no more than the cap nor three times as often as any other that tells (or three), the rarest first |
| Fusing.Arrange | backend/app/rag/rank.py:142-145 | The merged hits, each with the score and arrival the dictionaries hold for it, put in order |
| Voting.Ballots | backend/app/rag/rank.py:223-234 | One vote for each book, in first-seen order, with its chunks, score and share of the evidence |
| Sampling.Collect | backend/app/services/assessments.py:821-823 | The dictionary holds each chapter's passages, in order, and remembers the order chapters came in |
| Sampling.DropSeen | backend/app/services/assessments.py:836-842 | Each passage is kept once, where it first comes |
| Chunking.TokenBudget | backend/app/rag/chunk.py:62-71 | The budget is positive and, unless it is the least there is, no more than was asked or than four fifths of what the embedder reads |
| Retrieval.SelectivityCap | backend/app/rag/retrieve.py:358-372 | The cap is a fiftieth of the chunks the caller can reach, of 20,000 at most, rounded down, and never under three |
| Reals.Round | backend/app/services/proctoring.py:175 | The nearest whole number, and of two the even one |
| Batches.CallBudget.constructor | backend/app/services/assessments.py:1168-1171 | A budget starts with all its calls left and the first batch next |
| Traces.GenerationTrace.constructor | backend/app/services/generation_trace.py:36-59 | A trace starts empty, with a blank tally for each format |

## Left out

- The language model, the embedder, the PDF, DOCX and PPTX readers, ZIP decompression and SQL: what they answer is a parameter or an arbitrary reply.
- Routing, sessions, storage, queues, metrics, audit rows, prompts, checkpoints and the wording of trace lines.
- Exports, the other chat shapes (overview, lookup, compare with its quota for each book, metadata) and the condensing of follow-up questions.
- The pattern tables: intent and shape of a question, briefs, detection of printed questions, chapter titles read off a page; `detect_chapters` is modelled from the list of chapter starts on.
- The checks of a generated question against its passage (`validate_generated`), of a printed question (`usable_book_question`) and of a harvested answer, its field checks (`model_validate`) included: an item is sound, or at fault for a reason, and an answer fits the contract or does not; `_to_question`, which can still drop a question, is not modelled, so final counts are of the paper as cut.
- The planning of harvest batches, topics and focus, and `formats.py`, whose one format makes its tables constant: shares for each format are given.
- Reading order of archive members (`_natural_key`), junk and encrypted members, and the look at a member's first bytes: members come in order, with their formats.
- Coverage, topic and generation queries over chunks; they use the same scope filter.
- Approximate search: searches are exact, and chunks at one distance come by id, where the database leaves the order open.
- Floating point: scores, shares, distances and the sampler's steps are exact numbers. The 0.8 of the chunk budget is four fifths and the 0.02 of the selectivity cap a fiftieth.
- Case mapping and the classes of letters beyond ASCII are parameters; white space is Python's.
- In the JSON decoder: escaped surrogate pairs stay two units, numbers keep their spelling, and limits on depth or digits are not modelled.
- Requests that leave fields out: a partial update is a full one with the old values.
- Concurrent requests on one row: each service call is one step; in `Papers.Paper.Flush` each single row write is, in the order of the rows' ids, as the ORM writes a flush.
- Papers.Paper.constructor: what creation checks (books chosen, quotas) is not modelled.
- Excerpt.Cut: how text splits into sentences and words is a parameter.
- Generation.StemDeduper.Keep: nearness of two stems is a parameter, where the code compares cosine similarity with a threshold.
- Books.ArchiveIsOneBook: assumes of the foreign readers that they number pages from 1 and, for a PDF, report as many pages as they read.
- Retrieval.RetrieveFor: hits carry their chunk, title, distance and marks; genre, kind and chapter title are display only.
