/** The question-and-answer board of the student home page: five ordered lists of
    strings (all questions, unresolved, resolved, answers, follow-ups) and the list
    operations behind its buttons. Each operation is first a function from one
    snapshot of the lists to the next; class QABoard holds the lists as fields and
    performs the same operations in place. */
module Board {
  import opened Text
  import opened Lists
  import opened Entries
  import opened Search

  /** The five lists at one moment. */
  datatype Snapshot = Snapshot(
    all: seq<string>,
    unresolved: seq<string>,
    resolved: seq<string>,
    answers: seq<string>,
    followUps: seq<string>)

  /** What a follow-up submission answers, and the lists after it. */
  datatype FollowUpOutcome = FollowUpOutcome(verdict: Verdict, board: Snapshot)

  /** A list holds no value twice. */
  ghost predicate Distinct(s: seq<string>) {
    forall x :: multiset(s)[x] <= 1
  }

  /** The resolution bookkeeping the board is meant to keep: every question is in exactly one
      of the unresolved and resolved lists, every unresolved or resolved question is among
      all questions, and no list holds a question twice. */
  ghost predicate Tracked(b: Snapshot) {
    && (forall x | x in b.all :: x in b.unresolved || x in b.resolved)
    && (forall x | x in b.unresolved :: x in b.all)
    && (forall x | x in b.resolved :: x in b.all)
    && (forall x | x in b.unresolved :: x !in b.resolved)
    && Distinct(b.all) && Distinct(b.unresolved) && Distinct(b.resolved)
  }

  /** "Ask Question": the question joins the unresolved list and the list of all questions. */
  function AskStep(b: Snapshot, q: string): (r: Snapshot)
    ensures q in r.all && q in r.unresolved
    ensures |r.all| == |b.all| + 1 && r.all[..|b.all|] == b.all && r.all[|b.all|] == q
    ensures |r.unresolved| == |b.unresolved| + 1 && r.unresolved[..|b.unresolved|] == b.unresolved
    ensures r.unresolved[|b.unresolved|] == q
    ensures r.resolved == b.resolved && r.answers == b.answers && r.followUps == b.followUps
  {
    b.(unresolved := b.unresolved + [q], all := b.all + [q])
  }

  /** "Answer a Question": one more answer entry for q, after the existing ones. */
  function AnswerStep(b: Snapshot, q: string, text: string): (r: Snapshot)
    ensures AnswerEntry(q, text) in r.answers
    ensures |r.answers| == |b.answers| + 1 && r.answers[..|b.answers|] == b.answers
    ensures r.answers[|b.answers|] == AnswerEntry(q, text)
    ensures r.all == b.all && r.unresolved == b.unresolved && r.resolved == b.resolved
    ensures r.followUps == b.followUps
  {
    b.(answers := b.answers + [AnswerEntry(q, text)])
  }

  /** After an answer, the search text of its question ends with one more line: "- " and the answer text. */
  lemma AnswerShowsInSearch(b: Snapshot, q: string, text: string)
    ensures Combined(q, AnswerStep(b, q, text).answers) == Combined(q, b.answers) + "- " + text + "\n"
  {
    var p, e := AnswerPrefix(q), AnswerEntry(q, text);
    var answers := b.answers + [e];
    assert answers[..|answers| - 1] == b.answers;
    assert Bullet(p, e) == "- " + text + "\n";
    var head, before := q + "\n", Bullets(p, b.answers);
    calc {
      Combined(q, answers);
      head + (before + Bullet(p, e));
      (head + before) + Bullet(p, e);
    }
  }

  /** "Mark as Resolved": the first copy of q leaves the unresolved list and q joins the resolved list. */
  function ResolveStep(b: Snapshot, q: string): (r: Snapshot)
    ensures q in r.resolved && |r.resolved| == |b.resolved| + 1 && r.resolved[..|b.resolved|] == b.resolved
    ensures r.resolved[|b.resolved|] == q
    ensures r.unresolved == RemoveFirst(b.unresolved, q)
    ensures multiset(r.unresolved) == multiset(b.unresolved) - multiset{q}
    ensures multiset(b.unresolved)[q] <= 1 ==> q !in r.unresolved
    ensures r.all == b.all && r.answers == b.answers && r.followUps == b.followUps
  {
    RemoveFirstCount(b.unresolved, q);
    b.(unresolved := RemoveFirst(b.unresolved, q), resolved := b.resolved + [q])
  }

  /** "Edit Q&A": the first copy of the old text leaves the list of all questions and the new
      text is appended. The other lists, and the answers keyed to the old text, are left alone. */
  function EditStep(b: Snapshot, oldText: string, newText: string): (r: Snapshot)
    ensures newText in r.all && r.all[|r.all| - 1] == newText
    ensures r.all[..|r.all| - 1] == RemoveFirst(b.all, oldText)
    ensures multiset(r.all) == multiset(b.all) - multiset{oldText} + multiset{newText}
    ensures oldText != newText && multiset(b.all)[oldText] <= 1 ==> oldText !in r.all
    ensures r.unresolved == b.unresolved && r.resolved == b.resolved
    ensures r.answers == b.answers && r.followUps == b.followUps
  {
    RemoveFirstCount(b.all, oldText);
    var kept := RemoveFirst(b.all, oldText);
    assert (kept + [newText])[..|kept|] == kept;
    b.(all := kept + [newText])
  }

  /** "Delete Q&A": the first copy of q leaves each of the three question lists, and every
      answer entry starting with q's answer prefix is dropped. Follow-ups are not touched. */
  function DeleteStep(b: Snapshot, q: string): (r: Snapshot)
    ensures r.all == RemoveFirst(b.all, q) && r.unresolved == RemoveFirst(b.unresolved, q)
    ensures r.resolved == RemoveFirst(b.resolved, q)
    ensures r.answers == RemoveWithPrefix(b.answers, AnswerPrefix(q))
    ensures multiset(b.all)[q] <= 1 ==> q !in r.all
    ensures multiset(b.unresolved)[q] <= 1 ==> q !in r.unresolved
    ensures multiset(b.resolved)[q] <= 1 ==> q !in r.resolved
    ensures forall e :: e in r.answers <==> e in b.answers && !StartsWith(e, AnswerPrefix(q))
    ensures r.followUps == b.followUps
  {
    RemoveFirstCount(b.all, q);
    RemoveFirstCount(b.unresolved, q);
    RemoveFirstCount(b.resolved, q);
    Snapshot(
      RemoveFirst(b.all, q),
      RemoveFirst(b.unresolved, q),
      RemoveFirst(b.resolved, q),
      RemoveWithPrefix(b.answers, AnswerPrefix(q)),
      b.followUps)
  }

  /** A delete takes exactly one copy of q out of each question list that holds one, and nothing else. */
  lemma DeleteTakesOneCopy(b: Snapshot, q: string)
    ensures multiset(DeleteStep(b, q).all) == multiset(b.all) - multiset{q}
    ensures multiset(DeleteStep(b, q).unresolved) == multiset(b.unresolved) - multiset{q}
    ensures multiset(DeleteStep(b, q).resolved) == multiset(b.resolved) - multiset{q}
  {
    RemoveFirstCount(b.all, q);
    RemoveFirstCount(b.unresolved, q);
    RemoveFirstCount(b.resolved, q);
  }

  /** "Submit Follow-Up" on the selected answer entry: refused, with nothing changed, when the
      text is blank or there is no answer at all; otherwise the first copy of the selected entry
      leaves the answers list and the merged entry is appended to the follow-ups. */
  function FollowUpStep(b: Snapshot, selected: string, text: string): (r: FollowUpOutcome)
    ensures r.verdict == CheckFollowUp(b.answers, text)
    ensures r.verdict.Rejected? ==> r.board == b
    ensures r.verdict.Accepted? ==>
      && r.board.followUps == b.followUps + [MergeFollowUp(selected, text)]
      && r.board.answers == RemoveFirst(b.answers, selected)
      && (selected in b.answers ==> |r.board.answers| == |b.answers| - 1)
      && (selected !in b.answers ==> r.board.answers == b.answers)
    ensures r.board.all == b.all && r.board.unresolved == b.unresolved && r.board.resolved == b.resolved
  {
    var verdict := CheckFollowUp(b.answers, text);
    if verdict.Rejected? then FollowUpOutcome(verdict, b)
    else FollowUpOutcome(verdict, b.(
      answers := RemoveFirst(b.answers, selected),
      followUps := b.followUps + [MergeFollowUp(selected, text)]))
  }

  /** Asking a question not yet on the board keeps the bookkeeping; the question is unresolved, not resolved. */
  lemma AskKeepsTracked(b: Snapshot, q: string)
    requires Tracked(b) && q !in b.all
    ensures Tracked(AskStep(b, q))
    ensures q !in AskStep(b, q).resolved
  {
  }

  /** Resolving an unresolved question keeps the bookkeeping: afterwards it is resolved and no longer unresolved. */
  lemma ResolveKeepsTracked(b: Snapshot, q: string)
    requires Tracked(b) && q in b.unresolved
    ensures Tracked(ResolveStep(b, q))
    ensures q in ResolveStep(b, q).resolved && q !in ResolveStep(b, q).unresolved
  {
    var r := ResolveStep(b, q);
    forall x | x != q ensures x in r.unresolved <==> x in b.unresolved {
      RemoveFirstMembership(b.unresolved, q, x);
    }
  }

  /** Deleting keeps the bookkeeping, and the deleted question is in none of the three question lists. */
  lemma DeleteKeepsTracked(b: Snapshot, q: string)
    requires Tracked(b)
    ensures Tracked(DeleteStep(b, q))
    ensures var r := DeleteStep(b, q); q !in r.all && q !in r.unresolved && q !in r.resolved
  {
    var r := DeleteStep(b, q);
    RemoveOnce(b.all, q);
    RemoveOnce(b.unresolved, q);
    RemoveOnce(b.resolved, q);
    TrackedWithout(b, r, q);
  }

  /** `remove(q)` on a list without duplicates removes q entirely, keeps every other value
      and creates no duplicate. */
  lemma RemoveOnce(s: seq<string>, q: string)
    requires Distinct(s)
    ensures Distinct(RemoveFirst(s, q)) && q !in RemoveFirst(s, q)
    ensures forall x | x != q :: x in RemoveFirst(s, q) <==> x in s
  {
    RemoveFirstCount(s, q);
    assert multiset(s)[q] <= 1;
    forall x | x != q ensures x in RemoveFirst(s, q) <==> x in s {
      RemoveFirstMembership(s, q, x);
    }
  }

  /** Taking q out of every list of a tracked board, without adding or losing anything else
      and without creating duplicates, keeps the bookkeeping. */
  lemma TrackedWithout(b: Snapshot, r: Snapshot, q: string)
    requires Tracked(b)
    requires q !in r.all && q !in r.unresolved && q !in r.resolved
    requires forall x | x != q :: (x in r.all <==> x in b.all) && (x in r.unresolved <==> x in b.unresolved)
    requires forall x | x != q :: x in r.resolved <==> x in b.resolved
    requires Distinct(r.all) && Distinct(r.unresolved) && Distinct(r.resolved)
    ensures Tracked(r)
  {
  }

  /** Editing an unresolved question breaks the bookkeeping: the list of all questions drops the
      old text while the unresolved list still holds it. */
  lemma EditOrphansUnresolved(b: Snapshot, oldText: string, newText: string)
    requires Tracked(b) && oldText in b.unresolved && oldText != newText
    ensures oldText in EditStep(b, oldText, newText).unresolved
    ensures oldText !in EditStep(b, oldText, newText).all
    ensures !Tracked(EditStep(b, oldText, newText))
  {
  }

  /** Editing a question and editing it back gives the list of all questions its old contents
      again, though the question now stands at the end of the list. */
  lemma EditUndone(b: Snapshot, oldText: string, newText: string)
    requires oldText in b.all
    ensures multiset(EditStep(EditStep(b, oldText, newText), newText, oldText).all) == multiset(b.all)
    ensures EditStep(EditStep(b, oldText, newText), newText, oldText).all[|b.all| - 1] == oldText
  {
    var m := multiset(b.all);
    assert m[oldText] >= 1;
    assert m - multiset{oldText} + multiset{newText} - multiset{newText} + multiset{oldText} == m;
  }

  /** Deleting the same question twice changes nothing more when each question list held it at most once. */
  lemma DeleteIdempotent(b: Snapshot, q: string)
    requires multiset(b.all)[q] <= 1 && multiset(b.unresolved)[q] <= 1 && multiset(b.resolved)[q] <= 1
    ensures DeleteStep(DeleteStep(b, q), q) == DeleteStep(b, q)
  {
    RemoveFirstTwice(b.all, q);
    RemoveFirstTwice(b.unresolved, q);
    RemoveFirstTwice(b.resolved, q);
    var p := AnswerPrefix(q);
    RemoveWithPrefixNone(RemoveWithPrefix(b.answers, p), p);
  }

  /** Conversely, a second delete of q changes something when some question list held q twice. */
  lemma DeleteIdempotentOnlyIfOnce(b: Snapshot, q: string)
    requires DeleteStep(DeleteStep(b, q), q) == DeleteStep(b, q)
    ensures multiset(b.all)[q] <= 1 && multiset(b.unresolved)[q] <= 1 && multiset(b.resolved)[q] <= 1
  {
    OnceIfRemoveFirstStable(b.all, q);
    OnceIfRemoveFirstStable(b.unresolved, q);
    OnceIfRemoveFirstStable(b.resolved, q);
  }

  /** A list that a second `remove(q)` leaves alone held q at most once. */
  lemma OnceIfRemoveFirstStable(s: seq<string>, q: string)
    requires RemoveFirst(RemoveFirst(s, q), q) == RemoveFirst(s, q)
    ensures multiset(s)[q] <= 1
  {
    RemoveFirstCount(s, q);
    assert q !in RemoveFirst(s, q);
    assert multiset(RemoveFirst(s, q))[q] == 0;
  }

  /** The delete cascade filters the answers list part by part, so the kept answers of
      each part stay in their order and ahead of those of the parts after it. */
  lemma DeleteKeepsAnswerOrder(b: Snapshot, q: string, front: seq<string>, back: seq<string>)
    requires b.answers == front + back
    ensures DeleteStep(b, q).answers
         == RemoveWithPrefix(front, AnswerPrefix(q)) + RemoveWithPrefix(back, AnswerPrefix(q))
  {
    RemoveWithPrefixAppend(front, back, AnswerPrefix(q));
  }

  /** Asking a new question, answering it and deleting it gives back the board, except that
      answers already filed under the question's answer prefix are gone too. */
  lemma DeleteUndoesAskAndAnswer(b: Snapshot, q: string, text: string)
    requires q !in b.all && q !in b.unresolved && q !in b.resolved
    ensures DeleteStep(AnswerStep(AskStep(b, q), q, text), q)
         == b.(answers := RemoveWithPrefix(b.answers, AnswerPrefix(q)))
  {
    var p := AnswerPrefix(q);
    RemoveFirstAppend(b.all, [q], q);
    RemoveFirstAppend(b.unresolved, [q], q);
    RemoveWithPrefixAppend(b.answers, [AnswerEntry(q, text)], p);
    assert RemoveWithPrefix([AnswerEntry(q, text)], p) == [];
    assert RemoveFirst(b.all + [q], q) == b.all;
  }

  /** The cascade keeps the answers of every other question, provided no question text holds a '|'. */
  lemma DeleteKeepsOtherAnswers(b: Snapshot, q: string, q': string, text: string)
    requires '|' !in q && '|' !in q' && q' != q
    requires AnswerEntry(q', text) in b.answers
    ensures AnswerEntry(q', text) in DeleteStep(b, q).answers
  {
    AnswerOwnerUnique(q, q', text);
  }

  /** Without that proviso the cascade overreaches: deleting question q also drops the answers of
      any question whose text extends q's answer prefix (deleting "A" drops the answers of
      "A | Answer: B"), because their entries start with that prefix too. */
  lemma DeleteCascadeOverreach(b: Snapshot, q: string, rest: string, text: string)
    requires AnswerEntry(AnswerPrefix(q) + rest, text) in b.answers
    ensures AnswerEntry(AnswerPrefix(q) + rest, text) !in DeleteStep(b, q).answers
  {
  }

  /** After a delete, the search text of the deleted question lists no answer. */
  lemma DeleteClearsSearch(b: Snapshot, q: string)
    ensures Combined(q, DeleteStep(b, q).answers) == q + "\n"
  {
    BulletsNone(AnswerPrefix(q), DeleteStep(b, q).answers);
  }

  /** Answering a question and then following up that answer moves the entry from the answers list
      to the follow-up list as "<question> | Answer: <text> | Follow-Up: <follow-up>". */
  lemma AnswerThenFollowUp(b: Snapshot, q: string, text: string, followUp: string)
    requires AnswerEntry(q, text) !in b.answers
    requires Trim(followUp) != []
    ensures var r := FollowUpStep(AnswerStep(b, q, text), AnswerEntry(q, text), followUp);
      && r.verdict == Accepted
      && r.board.answers == b.answers
      && r.board.followUps == b.followUps + [q + " | Answer: " + text + " | Follow-Up: " + followUp]
  {
  }

  /** An accepted follow-up takes exactly one copy of the selected entry out of the answers list,
      so an entry held once is gone afterwards. */
  lemma FollowUpTakesOneCopy(b: Snapshot, selected: string, text: string)
    requires FollowUpStep(b, selected, text).verdict == Accepted
    ensures multiset(FollowUpStep(b, selected, text).board.answers) == multiset(b.answers) - multiset{selected}
    ensures multiset(b.answers)[selected] == 1 ==> selected !in FollowUpStep(b, selected, text).board.answers
  {
    RemoveFirstCount(b.answers, selected);
  }

  /** Only an empty answers list is refused: a follow-up naming an entry the list does not hold
      is accepted, appended, and leaves the answers list as it was. */
  lemma FollowUpOnUnlistedAnswer(b: Snapshot, selected: string, text: string)
    requires b.answers != [] && selected !in b.answers && Trim(text) != []
    ensures FollowUpStep(b, selected, text).verdict == Accepted
    ensures FollowUpStep(b, selected, text).board.answers == b.answers
    ensures MergeFollowUp(selected, text) in FollowUpStep(b, selected, text).board.followUps
  {
  }

  /** A follow-up on an answer entry held twice leaves the other copy selectable. */
  lemma FollowUpKeepsTwin(b: Snapshot, selected: string, text: string)
    requires multiset(b.answers)[selected] >= 2
    requires Trim(text) != []
    ensures FollowUpStep(b, selected, text).verdict == Accepted
    ensures selected in FollowUpStep(b, selected, text).board.answers
  {
    assert selected in b.answers;
    FollowUpTakesOneCopy(b, selected, text);
    assert multiset(FollowUpStep(b, selected, text).board.answers)[selected] >= 1;
  }

  /** Two follow-ups on the same answer entry, held twice in the answers list, are both accepted
      and append two follow-up entries, in order. */
  lemma TwoFollowUpsToSameAnswer(b: Snapshot, selected: string, first: string, second: string)
    requires multiset(b.answers)[selected] >= 2
    requires Trim(first) != [] && Trim(second) != []
    ensures var r1 := FollowUpStep(b, selected, first);
      selected in r1.board.answers
    ensures var r1 := FollowUpStep(b, selected, first);
      var r2 := FollowUpStep(r1.board, selected, second);
      && r2.verdict == Accepted
      && r2.board.followUps == b.followUps + [MergeFollowUp(selected, first), MergeFollowUp(selected, second)]
  {
    FollowUpKeepsTwin(b, selected, first);
    var r1 := FollowUpStep(b, selected, first);
    var r2 := FollowUpStep(r1.board, selected, second);
    var m1, m2 := MergeFollowUp(selected, first), MergeFollowUp(selected, second);
    assert r2.board.followUps == (b.followUps + [m1]) + [m2];
    assert (b.followUps + [m1]) + [m2] == b.followUps + [m1, m2];
  }

  /** With the single answer entry of the two-follow-up test, the first follow-up takes the
      entry out of the answers list, and the second is refused for lack of an answer. */
  lemma SecondFollowUpOnSingleAnswer(b: Snapshot, selected: string, first: string, second: string)
    requires b.answers == [selected]
    requires Trim(first) != [] && Trim(second) != []
    ensures FollowUpStep(b, selected, first).verdict == Accepted
    ensures FollowUpStep(FollowUpStep(b, selected, first).board, selected, second).verdict
         == Rejected(NoAnswerSelected)
  {
  }

  /** The lists of the student home page, changed in place by its buttons. */
  class QABoard {
    var allQuestions: seq<string>
    var unresolved: seq<string>
    var resolved: seq<string>
    var answers: seq<string>
    var followUps: seq<string>

    /** The five lists as one value. */
    function State(): Snapshot
      reads this
    {
      Snapshot(allQuestions, unresolved, resolved, answers, followUps)
    }

    constructor ()
      ensures State() == Snapshot([], [], [], [], [])
    {
      allQuestions, unresolved, resolved, answers, followUps := [], [], [], [], [];
    }

    method Ask(q: string)
      modifies this
      ensures State() == AskStep(old(State()), q)
    {
      unresolved := unresolved + [q];
      allQuestions := allQuestions + [q];
    }

    method Answer(q: string, text: string)
      modifies this
      ensures State() == AnswerStep(old(State()), q, text)
    {
      answers := answers + [AnswerEntry(q, text)];
    }

    method MarkResolved(q: string)
      modifies this
      ensures State() == ResolveStep(old(State()), q)
    {
      unresolved := RemoveFirst(unresolved, q);
      resolved := resolved + [q];
    }

    method Edit(oldText: string, newText: string)
      modifies this
      ensures State() == EditStep(old(State()), oldText, newText)
    {
      allQuestions := RemoveFirst(allQuestions, oldText);
      allQuestions := allQuestions + [newText];
    }

    method Delete(q: string)
      modifies this
      ensures State() == DeleteStep(old(State()), q)
    {
      var a, u, r := RemoveFirst(allQuestions, q), RemoveFirst(unresolved, q), RemoveFirst(resolved, q);
      var prefix := AnswerPrefix(q);
      var ans := RemoveWithPrefix(answers, prefix);
      allQuestions, unresolved, resolved, answers := a, u, r, ans;
    }

    method SubmitFollowUp(selected: string, text: string) returns (verdict: Verdict)
      modifies this
      ensures verdict == FollowUpStep(old(State()), selected, text).verdict
      ensures State() == FollowUpStep(old(State()), selected, text).board
    {
      verdict := CheckFollowUp(answers, text);
      if verdict == Accepted {
        answers := RemoveFirst(answers, selected);
        followUps := followUps + [MergeFollowUp(selected, text)];
      }
    }

    /** combineQA: the question line, then "- " and the text of each of its answers, one per line, trimmed. */
    method CombineQA(question: string) returns (combined: string)
      ensures combined == Trim(Combined(question, answers))
    {
      var list := answers;
      var prefix := AnswerPrefix(question);
      var lines := "";
      for i := 0 to |list|
        invariant lines == Bullets(prefix, list[..i])
      {
        var ans := list[i];
        BulletsSnoc(prefix, list, i);
        if StartsWith(ans, prefix) {
          var line := "- " + ans[|prefix|..] + "\n";
          assert line == Bullet(prefix, ans);
          lines := lines + line;
        } else {
          assert lines + Bullet(prefix, ans) == lines;
        }
      }
      assert list[..|list|] == list;
      combined := Trim(question + "\n" + lines);
    }
  }
}
