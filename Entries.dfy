/** The composite text keys of the help desk. An answer entry is the question
    text, the answer separator and the answer text; a follow-up entry is a whole
    answer entry, the follow-up separator and the follow-up text. This module
    also holds the two checks made before a follow-up is accepted. */
module Entries {
  import opened Text

  const AnswerSeparator: string := " | Answer: "
  const FollowUpSeparator: string := " | Follow-Up: "

  /** What every answer entry of question q starts with: q, then the answer separator.
      The delete cascade and combineQA match on it. */
  function AnswerPrefix(q: string): (p: string)
    ensures StartsWith(p, q) && p[|q|..] == AnswerSeparator
  {
    q + AnswerSeparator
  }

  /** The entry stored in the answers list when `text` answers question q: it belongs to q,
      and the text after q's answer prefix is the answer text. */
  function AnswerEntry(q: string, text: string): (e: string)
    ensures StartsWith(e, AnswerPrefix(q)) && e[|AnswerPrefix(q)|..] == text
  {
    AnswerPrefix(q) + text
  }

  /** The entry stored in the follow-up list when `text` follows up the answer entry `answer`:
      the whole answer entry, then the follow-up separator, then the follow-up text. */
  function MergeFollowUp(answer: string, text: string): (m: string)
    ensures StartsWith(m, answer + FollowUpSeparator) && m[|answer| + |FollowUpSeparator|..] == text
  {
    answer + FollowUpSeparator + text
  }

  /** When no question text holds a '|', an answer entry matches the answer prefix of q
      exactly when it answers q; the prefix cascade then touches q's answers and no others. */
  lemma AnswerOwnerUnique(q: string, q': string, text: string)
    requires '|' !in q && '|' !in q'
    ensures StartsWith(AnswerEntry(q', text), AnswerPrefix(q)) <==> q' == q
  {
    var e, p := AnswerEntry(q', text), AnswerPrefix(q);
    if StartsWith(e, p) {
      // the first '|' of p sits right after q, the first '|' of e right after q'
      assert p[|q|] == ' ' && p[|q| + 1] == '|';
      assert forall k | 0 <= k <= |q| :: p[k] != '|';
      assert e[|q'|] == ' ' && e[|q'| + 1] == '|';
      assert forall k | 0 <= k <= |q'| :: e[k] != '|';
      assert forall k | 0 <= k < |p| :: e[k] == p[k];
      assert |q| == |q'|;
      assert q == p[..|q|] == e[..|q|] == q';
    }
  }

  /** The characters at which `.` in a java.util.regex pattern stops matching. */
  predicate IsLineTerminator(c: char) {
    c == '\n' || c == '\r' || c == '\U{0085}' || c == '\U{2028}' || c == '\U{2029}'
  }

  predicate SingleLine(s: string) {
    forall k | 0 <= k < |s| :: !IsLineTerminator(s[k])
  }

  /** `m.matches("Answer: .* \\| Follow-Up: .*")`, stated as prefix and substring facts:
      m starts with "Answer: ", the follow-up separator occurs after that label, and no
      character of m is a line terminator (the literal parts hold none, and `.*` takes none). */
  predicate MatchesMergedFormat(m: string) {
    StartsWith(m, "Answer: ") && Contains(m[|"Answer: "|..], FollowUpSeparator) && SingleLine(m)
  }

  /** A follow-up merged onto a labelled answer has the expected format exactly when
      neither the answer nor the follow-up text spans several lines. */
  lemma MergedEntryFormat(answer: string, followUp: string)
    ensures MatchesMergedFormat(MergeFollowUp("Answer: " + answer, followUp))
        <==> SingleLine(answer) && SingleLine(followUp)
  {
    var tag := "Answer: ";
    var m := MergeFollowUp(tag + answer, followUp);
    assert m == tag + answer + FollowUpSeparator + followUp;
    assert SingleLine(tag) && SingleLine(FollowUpSeparator) by {
      forall k | 0 <= k < |tag| ensures !IsLineTerminator(tag[k]) {}
      forall k | 0 <= k < |FollowUpSeparator| ensures !IsLineTerminator(FollowUpSeparator[k]) {}
    }
    SingleLineAppend(tag, answer);
    SingleLineAppend(tag + answer, FollowUpSeparator);
    SingleLineAppend(tag + answer + FollowUpSeparator, followUp);
    ContainsMiddle(answer, FollowUpSeparator, followUp);
    assert m[|tag|..] == answer + FollowUpSeparator + followUp;
  }

  /** A concatenation spans one line exactly when both of its parts do. */
  lemma SingleLineAppend(a: string, b: string)
    ensures SingleLine(a + b) <==> SingleLine(a) && SingleLine(b)
  {
    if SingleLine(a + b) {
      forall k | 0 <= k < |a| ensures !IsLineTerminator(a[k]) {
        assert (a + b)[k] == a[k];
      }
      forall k | 0 <= k < |b| ensures !IsLineTerminator(b[k]) {
        assert (a + b)[|a| + k] == b[k];
      }
    }
  }

  /** Why a follow-up is refused. */
  datatype FollowUpError = EmptyFollowUp | NoAnswerSelected {
    /** The text of the IllegalArgumentException raised for this refusal. */
    function Message(): string {
      match this
      case EmptyFollowUp => "Follow-up cannot be empty."
      case NoAnswerSelected => "Please select an answer before submitting a follow-up."
    }
  }

  datatype Verdict = Accepted | Rejected(error: FollowUpError)

  /** The checks made before a follow-up is merged. The text is checked first: a blank
      follow-up is refused as empty even when there is no answer to follow up. */
  function CheckFollowUp(answers: seq<string>, followUp: string): (v: Verdict)
    ensures v == Rejected(EmptyFollowUp) <==> forall k | 0 <= k < |followUp| :: IsBlank(followUp[k])
    ensures v == Rejected(NoAnswerSelected) <==> answers == [] && exists k | 0 <= k < |followUp| :: !IsBlank(followUp[k])
    ensures v == Accepted <==> answers != [] && exists k | 0 <= k < |followUp| :: !IsBlank(followUp[k])
  {
    if Trim(followUp) == [] then Rejected(EmptyFollowUp)
    else if answers == [] then Rejected(NoAnswerSelected)
    else Accepted
  }

  /** The two refusals exercised with an empty answers list: a blank text, and a real text with nothing selected. */
  lemma FollowUpRefusals(answers: seq<string>)
    requires answers == []
    ensures CheckFollowUp(answers, "").error.Message() == "Follow-up cannot be empty."
    ensures CheckFollowUp(answers, "This is a follow-up without an answer").error.Message()
         == "Please select an answer before submitting a follow-up."
  {
    assert !IsBlank("This is a follow-up without an answer"[0]);
  }
}
