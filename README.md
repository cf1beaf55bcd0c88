# Help-desk Q&A board

This project models the question-and-answer record handling of a small student help
desk. The state is five ordered lists of strings:

- all questions;
- unresolved questions;
- resolved questions;
- answers;
- follow-ups.

An answer is stored as the composite key `question + " | Answer: " + text`. A follow-up is
stored as `answerEntry + " | Follow-Up: " + text`. The operations are the ones behind the
buttons of the student home page, as they are driven step by step in
`StudentHomePageTest.java` and `FollowUpTests.java`:

- ask;
- answer;
- mark as resolved;
- edit;
- delete, with its cascade over the answers;
- submit follow-up, with its two guards;
- `combineQA`, which builds the search text, and the keyword test of the search.

Layout, one module per file:

- `Text.dfy`: the `java.lang.String` operations used. These are `startsWith`, `contains`,
  `trim` (strips the leading and trailing characters at or below U+0020) and `toLowerCase` restricted to ASCII.
- `Lists.dfy`: `List.remove(Object)`, which drops the first equal element only, and
  `removeIf(a -> a.startsWith(p))`.
- `Entries.dfy`:
  - the composite keys;
  - the two follow-up guards and their exception messages;
  - the merged-entry format checked by a regular expression in the tests.
- `Search.dfy`: what `combineQA(q)` builds, as a function, and what a keyword search can find in it.
- `Board.dfy`:
  - a `Snapshot` value holding the five lists;
  - one step function per operation, and the lemmas relating the operations;
  - class `QABoard`, which holds the five lists as fields and changes them in place. Each of
    its methods is proved to leave exactly the snapshot its step function computes.
    `QABoard.CombineQA` is the loop over the answers list, proved against the search-text
    function.

The code behaves as follows, and the model does the same:

- Ask, answer, edit and resolve reject nothing.
  - Answering a question that was never asked is accepted.
  - An empty question is accepted.
- Delete removes only the first copy of the question from each question list. It leaves the
  follow-ups alone. Deleting twice is the same as deleting once exactly when each question list
  held the question at most once (`Board.DeleteIdempotent`, `Board.DeleteIdempotentOnlyIfOnce`).
- Editing re-keys nothing. The unresolved and resolved lists and the answers still carry the
  old text, so an edited unresolved question breaks the bookkeeping that every question is in
  exactly one of unresolved and resolved (`Board.EditOrphansUnresolved`).
- A follow-up is refused only when its text is blank or the answers list is empty. A
  selected entry the list does not hold is accepted, and the answers list is left unchanged
  (`Board.FollowUpOnUnlistedAnswer`).
- The delete cascade matches by prefix. Deleting question `A` therefore also drops the
  answers of a question whose text starts with `A | Answer: ` (`Board.DeleteCascadeOverreach`).
  When no question text holds a `|`, the cascade touches the deleted question's answers and
  no others (`Entries.AnswerOwnerUnique`, `Board.DeleteKeepsOtherAnswers`).

## Model

| member | source | states |
|---|---|---|
| Text.StartsWith | StudentHomePageTest.java:188 | defines `s.startsWith(p)`: p is a prefix of s |
| Text.Contains | StudentHomePageTest.java:176 | defines `s.contains(k)`: k occurs in s at some position |
| Text.Lower | StudentHomePageTest.java:176 | `s.toLowerCase()` restricted to ASCII: same length, each letter A–Z mapped to its lower case and every other character kept |
| Text.Trim | FollowUpTests.java:98 | `trim()` is empty exactly when every character is at or below U+0020; otherwise it is exactly the slice of s from its first to its last character above U+0020; it is never longer than its input |
| Text.TrimKeepsContained | StudentHomePageTest.java:192 | trimming keeps every occurrence of a word whose first and last characters are not blanks |
| Text.TrimKeepsLeadingWord | StudentHomePageTest.java:184-192 | a text that begins with a word with non-blank ends still begins with that word after trimming |
| Text.TrimKeepsContainedAfter | StudentHomePageTest.java:192 | a word with a non-blank last character that occurs in s after a non-blank character still occurs in `s.trim()` |
| Text.LowerKeepsContained | StudentHomePageTest.java:176 | if s contains k, then `s.toLowerCase()` contains `k.toLowerCase()` |
| Text.LowerTrim | StudentHomePageTest.java:176 | lower-casing and trimming commute, so `combined.toLowerCase()` is the lower-cased untrimmed text, trimmed |
| Text.LowerSlice | StudentHomePageTest.java:176 | lower-casing a slice gives the same slice of the lower-cased text |
| Text.LowerContainsFrom | StudentHomePageTest.java:176 | if the tail of s from position p contains t, and the lower-cased t contains k, then the lower-cased s contains k from position p on |
| Lists.RemoveFirst | StudentHomePageTest.java:76-78 | `list.remove(x)` shortens the list by one when x is present and leaves the list unchanged when x is absent |
| Lists.RemoveFirstCount | StudentHomePageTest.java:76-84 | `remove(x)` takes away exactly one copy of x and nothing else; a value held at most once is gone afterwards |
| Lists.RemoveFirstAt | StudentHomePageTest.java:107 | the copy removed is the first one; the elements before and after it keep their order |
| Lists.RemoveFirstAppend | StudentHomePageTest.java:126 | removing x from a list whose front part lacks x only changes the back part |
| Lists.RemoveFirstMembership | StudentHomePageTest.java:76-78 | removal adds no value, and every value other than x stays present exactly when it was present |
| Lists.RemoveFirstTwice | StudentHomePageTest.java:76-84 | for a value held at most once, a second `remove` changes nothing |
| Lists.RemoveWithPrefix | StudentHomePageTest.java:79 | after `removeIf(a -> a.startsWith(p))` the list holds exactly the entries that held before and do not start with p |
| Lists.RemoveWithPrefixAppend | StudentHomePageTest.java:79 | `removeIf` filters element by element: on a concatenation it filters each part and keeps their order |
| Lists.RemoveWithPrefixNone | StudentHomePageTest.java:79 | a list with no entry starting with p is left as it is, so `removeIf` is idempotent |
| Entries.AnswerPrefix | StudentHomePageTest.java:187 | the prefix every answer entry of q starts with, which the delete cascade and `combineQA` match on: it starts with q, and the answer separator follows q |
| Entries.AnswerEntry | StudentHomePageTest.java:50 | the entry stored when text answers q: it starts with q's answer prefix, and the text after that prefix is the answer text |
| Entries.MergeFollowUp | StudentHomePageTest.java:153 | a merged follow-up entry starts with the whole answer entry and the separator, and the text after them is the follow-up |
| Entries.AnswerOwnerUnique | StudentHomePageTest.java:79 | when no question text holds a vertical bar, an answer entry starts with the answer prefix of q exactly when it answers q |
| Entries.MatchesMergedFormat | FollowUpTests.java:117 | defines the test's format check on a merged entry: it starts with "Answer: ", the follow-up separator occurs after that label, and no character is a line terminator |
| Entries.MergedEntryFormat | FollowUpTests.java:116-117 | the merged entry "Answer: " + answer + follow-up separator + followUp matches the format regular expression of the test exactly when neither text holds a line terminator |
| Entries.CheckFollowUp | FollowUpTests.java:79-103 | a follow-up is refused as empty exactly when every character is a blank; it is refused for lack of an answer exactly when the answers list is empty and the text is not blank; otherwise it is accepted |
| Entries.FollowUpRefusals | FollowUpTests.java:75-103 | with no answers, an empty follow-up gets "Follow-up cannot be empty." and a real one gets "Please select an answer before submitting a follow-up." |
| Search.Bullets | StudentHomePageTest.java:186-191 | defines the answer lines `combineQA` emits: one "- " + answer text + line break for each entry starting with the answer prefix, in list order, nothing for other entries |
| Search.Combined | StudentHomePageTest.java:184-192 | defines the text `combineQA(q)` builds before its final trim: q, a line break, then the answer lines of q |
| Search.Mentions | StudentHomePageTest.java:176 | defines the keyword test of the search: the lower-cased text contains the keyword |
| Search.BulletsAppend | StudentHomePageTest.java:186-191 | the answer lines of a concatenated answers list are the lines of each part, in order |
| Search.BulletsSnoc | StudentHomePageTest.java:186-190 | one more entry in the answers list adds that entry's line, if any, at the end |
| Search.BulletsAt | StudentHomePageTest.java:186-191 | entry i's line comes after the lines of the entries before it and before those after it |
| Search.BulletsSkipOthers | StudentHomePageTest.java:188 | an entry that does not start with the answer prefix contributes nothing, wherever it stands |
| Search.BulletsNone | StudentHomePageTest.java:186-191 | a list with no answer to the question yields no answer line |
| Search.CombinedStartsWithQuestion | StudentHomePageTest.java:184-192 | `combineQA(q)` starts with q when q has no blank at either end |
| Search.CombinedListsAnswer | StudentHomePageTest.java:186-190 | every answer entry of q appears in the text `combineQA` builds before its final trim as "- " + its answer text + a line break |
| Search.SearchFindsAnswerKeyword | StudentHomePageTest.java:175-177 | a keyword whose last character is not blank, found in the lower-cased text of one of q's answers, is found in `combineQA(q).toLowerCase()` |
| Search.KeywordAfterMark | StudentHomePageTest.java:189-192 | a keyword found in the lower-cased text of a "- " line of a text is still found after lower-casing and trimming the whole text |
| Search.SearchScenario | StudentHomePageTest.java:170-177 | the search text of "Q7: Define CRUD?" with its one answer contains "update" once lower-cased |
| Board.AskStep | StudentHomePageTest.java:29-35 | asking appends q as the new last element of all questions and of unresolved, keeping the elements before it; resolved, answers and follow-ups are unchanged |
| Board.AnswerStep | StudentHomePageTest.java:50-54 | answering appends exactly the answer entry (q, the answer separator, the text) as the new last element of the answers list, keeping the entries before it; the other lists are unchanged |
| Board.AnswerShowsInSearch | StudentHomePageTest.java:172-176 | after an answer, q's search text gains exactly one last line, "- " + the answer text |
| Board.ResolveStep | StudentHomePageTest.java:107-113 | resolving takes the first copy of q out of unresolved, keeping the order of the rest (q is gone if it was held once), and appends q as the new last element of resolved, keeping the elements before it; the other lists are unchanged |
| Board.EditStep | StudentHomePageTest.java:125-132 | editing takes the first copy of the old text out of all questions, keeping the order of the rest, and appends the new text as the last element; the old text is gone if it was held once; the other lists, including answers keyed to the old text, are unchanged |
| Board.DeleteStep | StudentHomePageTest.java:76-86 | each of the three question lists loses its first copy of q and keeps the order of the rest, so a question held once is afterwards in none of them; the answers become the `removeIf` filter of the old answers by q's answer prefix: an entry remains exactly when it was there and does not start with that prefix; follow-ups are unchanged |
| Board.DeleteKeepsAnswerOrder | StudentHomePageTest.java:79 | the delete cascade filters the answers list part by part: the kept answers of an earlier part stay in order, ahead of those of a later part |
| Board.DeleteTakesOneCopy | StudentHomePageTest.java:76-78 | a delete takes exactly one copy of q out of each question list and nothing else |
| Board.FollowUpStep | StudentHomePageTest.java:152-159 | the verdict is the follow-up check; a refusal changes nothing; an acceptance appends the selected entry, the follow-up separator and the text to the follow-ups, takes the first copy of the selected entry out of the answers, keeping the order of the rest (one entry shorter if they held it), and leaves the question lists alone |
| Board.AskKeepsTracked | StudentHomePageTest.java:29-35 | asking a new question keeps the bookkeeping: every question in exactly one of unresolved and resolved, every unresolved or resolved question among all questions, no duplicates; the new question is unresolved, not resolved |
| Board.ResolveKeepsTracked | StudentHomePageTest.java:102-113 | resolving an unresolved question keeps that bookkeeping; afterwards q is resolved and not unresolved |
| Board.DeleteKeepsTracked | StudentHomePageTest.java:76-84 | deleting keeps that bookkeeping and leaves q in none of the three question lists |
| Board.EditOrphansUnresolved | StudentHomePageTest.java:125-132 | editing an unresolved question leaves the old text in unresolved but not in all questions, which breaks the bookkeeping |
| Board.EditUndone | StudentHomePageTest.java:125-128 | editing and editing back restores the contents of all questions, with the question now last |
| Board.DeleteIdempotent | StudentHomePageTest.java:76-79 | when each question list held q at most once, deleting q twice is the same as deleting it once |
| Board.DeleteIdempotentOnlyIfOnce | StudentHomePageTest.java:76-79 | conversely, when deleting q twice is the same as deleting it once, each question list held q at most once |
| Board.DeleteUndoesAskAndAnswer | StudentHomePageTest.java:66-86 | asking a new question, answering it and deleting it gives back the board, minus any answers already filed under q's prefix |
| Board.DeleteKeepsOtherAnswers | StudentHomePageTest.java:79 | when question texts hold no vertical bar, deleting q keeps every answer of another question |
| Board.DeleteCascadeOverreach | StudentHomePageTest.java:79 | deleting q also drops the answers of a question whose text begins with q's answer prefix |
| Board.DeleteClearsSearch | StudentHomePageTest.java:79 | after deleting q, q's search text holds no answer line |
| Board.AnswerThenFollowUp | StudentHomePageTest.java:145-159 | a new answer followed up is accepted, leaves the answers list as it was before the answer, and appends the question, the answer separator, the answer text, the follow-up separator and the follow-up text as one entry |
| Board.FollowUpTakesOneCopy | StudentHomePageTest.java:152-157 | an accepted follow-up takes exactly one copy of the selected entry out of the answers; an entry held once is gone |
| Board.FollowUpOnUnlistedAnswer | FollowUpTests.java:80-82 | with a non-empty answers list, a follow-up naming an entry the list does not hold is accepted and leaves the answers unchanged |
| Board.FollowUpKeepsTwin | FollowUpTests.java:127-133 | a follow-up on an entry held twice is accepted and the other copy stays selectable |
| Board.SecondFollowUpOnSingleAnswer | FollowUpTests.java:127-136 | with the answers list holding only the selected entry, as in the test, the first follow-up is accepted and the second is refused for lack of an answer |
| Board.TwoFollowUpsToSameAnswer | FollowUpTests.java:127-136 | two follow-ups on the same answer entry are both accepted and append two merged entries, in order |
| Board.QABoard.constructor | FollowUpTests.java:48-49 | a new board starts with five empty lists |
| Board.QABoard.Ask | StudentHomePageTest.java:29-30 | the fields become `AskStep` of the old fields |
| Board.QABoard.Answer | StudentHomePageTest.java:50-51 | the fields become `AnswerStep` of the old fields |
| Board.QABoard.MarkResolved | StudentHomePageTest.java:107-108 | the fields become `ResolveStep` of the old fields |
| Board.QABoard.Edit | StudentHomePageTest.java:126-128 | the fields become `EditStep` of the old fields |
| Board.QABoard.Delete | StudentHomePageTest.java:76-79 | the fields become `DeleteStep` of the old fields |
| Board.QABoard.SubmitFollowUp | StudentHomePageTest.java:152-154 | the verdict and the new fields are those of `FollowUpStep` on the old fields |
| Board.QABoard.CombineQA | StudentHomePageTest.java:183-193 | the loop over the answers list returns the trimmed search text of the question: the question line, then one "- " line per answer of that question, in list order |

## Left out

- `InvitationPage.java` is not part of this model. It builds a JavaFX scene and its only data step is a call into the database helper for an invitation code.
- `StudentHomePage` itself is not part of this model. Its constructor takes a `DatabaseHelper` (or `null`), and its button handlers are seen only through the list steps the tests perform. The model starts from five empty lists instead.
- Console logging and the hand-written test runner in `FollowUpTests.main` are output only.
- Text.Lower: lower-cases the ASCII letters A–Z only, not the full Unicode case mapping of `toLowerCase`.
- Entries.MergedEntryFormat: the regular expression is stated as three facts (prefix, occurrence of the separator after it, no line terminator) instead of a regular-expression engine.
- Search.SearchFindsAnswerKeyword: asks for a keyword whose last character is not blank, because the final `trim()` may cut blanks at the end of the last answer line.
- Search.CombinedStartsWithQuestion: asks for a question with no blank at either end, because `trim()` cuts those.
- The search over every question, which loops over all questions and calls `combineQA`, is not in the code shown; only `combineQA` and the keyword test for one question are modelled.
- Validation that the code does not perform is not modelled: rejecting an empty question, an answer to an unknown question, or a second resolve.
- A cascade from a deleted question to its follow-ups is not modelled, because the delete steps in the code touch only the three question lists and the answers.
- The author suffix in answer texts ("by student", "by admin") is just part of the answer text.
- Entries.CheckFollowUp: the two guards appear in separate tests. The model checks the text first and the answers list second, because the empty-text test runs with an empty answers list and still expects the empty-text message.
- Board.TwoFollowUpsToSameAnswer: asks for the answer entry to be held twice. Submitting a follow-up removes one copy of the entry, and the test appends both merged entries without that removal. With one copy, as in the test, the second follow-up is refused for lack of an answer (`Board.SecondFollowUpOnSingleAnswer`). When other answers remain, the second follow-up names an entry the list no longer holds and is accepted (`Board.FollowUpOnUnlistedAnswer`).
