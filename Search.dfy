/** The text the search screen matches a keyword against: combineQA(q) is the
    question on its first line, then one "- <answer text>" line per answer entry
    of q, in the order of the answers list, the whole trimmed. */
module Search {
  import opened Text
  import opened Lists
  import opened Entries

  /** The line combineQA emits for one answers-list entry: "- " and the answer text when
      the entry starts with the answer prefix p, nothing when it belongs to another question. */
  function Bullet(p: string, entry: string): string {
    if StartsWith(entry, p) then "- " + entry[|p|..] + "\n" else ""
  }

  /** The lines combineQA emits for a whole answers list, in list order. */
  function Bullets(p: string, answers: seq<string>): string {
    if answers == [] then ""
    else Bullets(p, answers[..|answers| - 1]) + Bullet(p, answers[|answers| - 1])
  }

  /** What combineQA builds for question q before its final trim. */
  function Combined(q: string, answers: seq<string>): string {
    q + "\n" + Bullets(AnswerPrefix(q), answers)
  }

  /** The keyword test of the search screen: `text.toLowerCase().contains(keyword)`. */
  predicate Mentions(text: string, keyword: string) {
    Contains(Lower(text), keyword)
  }

  /** The lines of a concatenated list are the lines of its parts, in order. */
  lemma {:induction false} BulletsAppend(p: string, a: seq<string>, b: seq<string>)
    ensures Bullets(p, a + b) == Bullets(p, a) + Bullets(p, b)
  {
    if b == [] {
      assert a + b == a;
    } else {
      var b', last := b[..|b| - 1], b[|b| - 1];
      assert (a + b)[..|a + b| - 1] == a + b';
      assert (a + b)[|a + b| - 1] == last;
      BulletsAppend(p, a, b');
      calc {
        Bullets(p, a + b);
        Bullets(p, a + b') + Bullet(p, last);
        (Bullets(p, a) + Bullets(p, b')) + Bullet(p, last);
        Bullets(p, a) + (Bullets(p, b') + Bullet(p, last));
        Bullets(p, a) + Bullets(p, b);
      }
    }
  }

  /** Extending the list by one entry adds that entry's line at the end. */
  lemma BulletsSnoc(p: string, a: seq<string>, i: nat)
    requires i < |a|
    ensures Bullets(p, a[..i + 1]) == Bullets(p, a[..i]) + Bullet(p, a[i])
  {
    assert a[..i + 1][..i] == a[..i];
  }

  /** Entry i contributes its own line, after the lines of the entries before it and
      before the lines of the entries after it. */
  lemma BulletsAt(p: string, a: seq<string>, i: nat)
    requires i < |a|
    ensures Bullets(p, a) == Bullets(p, a[..i]) + Bullet(p, a[i]) + Bullets(p, a[i + 1..])
  {
    assert a == a[..i] + [a[i]] + a[i + 1..];
    BulletsAppend(p, a[..i] + [a[i]], a[i + 1..]);
    BulletsAppend(p, a[..i], [a[i]]);
    assert [a[i]][..0] == [];
  }

  /** Entries that answer other questions contribute nothing, wherever they stand. */
  lemma BulletsSkipOthers(p: string, a: seq<string>, b: seq<string>, e: string)
    requires !StartsWith(e, p)
    ensures Bullets(p, a + [e] + b) == Bullets(p, a + b)
  {
    BulletsAppend(p, a + [e], b);
    assert (a + [e])[..|a|] == a;
    assert Bullets(p, a + [e]) == Bullets(p, a) + "";
    assert Bullets(p, a) + "" == Bullets(p, a);
    BulletsAppend(p, a, b);
  }

  /** A list holding no entry with prefix p yields no line. */
  lemma {:induction false} BulletsNone(p: string, a: seq<string>)
    requires forall e | e in a :: !StartsWith(e, p)
    ensures Bullets(p, a) == ""
  {
    if a != [] {
      assert a[|a| - 1] in a;
      assert forall e | e in a[..|a| - 1] :: e in a;
      BulletsNone(p, a[..|a| - 1]);
    }
  }

  /** The combined text keeps the question in front, provided the question has no blank at either end. */
  lemma CombinedStartsWithQuestion(q: string, answers: seq<string>)
    requires q != [] && !IsBlank(q[0]) && !IsBlank(q[|q| - 1])
    ensures StartsWith(Trim(Combined(q, answers)), q)
  {
    TrimKeepsLeadingWord(Combined(q, answers), q);
  }

  /** Every answer entry of q is listed as "- " and its answer text on a line of its own. */
  lemma CombinedListsAnswer(q: string, answers: seq<string>, i: nat)
    requires i < |answers| && StartsWith(answers[i], AnswerPrefix(q))
    ensures Contains(Combined(q, answers), "- " + answers[i][|AnswerPrefix(q)|..] + "\n")
  {
    var p := AnswerPrefix(q);
    var line := Bullet(p, answers[i]);
    assert line == "- " + answers[i][|p|..] + "\n";
    BulletsAt(p, answers, i);
    ContainsMiddle(Bullets(p, answers[..i]), line, Bullets(p, answers[i + 1..]));
    ContainsRight(q + "\n", Bullets(p, answers));
    ContainsTrans(Combined(q, answers), Bullets(p, answers), line);
  }

  /** A keyword found, ignoring case, in the text of an answer to q is found in combineQA(q),
      so the search screen lists q for it. The keyword must end in a non-blank, because the
      final trim may cut blanks at the end of the last answer; a leading blank is kept, since
      the answer text stands after the non-blank "-" of its line. */
  lemma SearchFindsAnswerKeyword(q: string, answers: seq<string>, i: nat, keyword: string)
    requires i < |answers| && StartsWith(answers[i], AnswerPrefix(q))
    requires keyword != [] && !IsBlank(keyword[|keyword| - 1])
    requires Mentions(answers[i][|AnswerPrefix(q)|..], keyword)
    ensures Mentions(Trim(Combined(q, answers)), keyword)
  {
    var rest := answers[i][|AnswerPrefix(q)|..];
    CombinedListsAnswer(q, answers, i);
    KeywordAfterMark(Combined(q, answers), rest, keyword);
  }

  /** A keyword found, ignoring case, in the text of a "- " line of s is found in the
      lower-cased trimmed s, provided it ends in a non-blank. */
  lemma KeywordAfterMark(s: string, rest: string, keyword: string)
    requires Contains(s, "- " + rest + "\n")
    requires keyword != [] && !IsBlank(keyword[|keyword| - 1])
    requires Contains(Lower(rest), keyword)
    ensures Contains(Lower(Trim(s)), keyword)
  {
    var line := "- " + rest + "\n";
    var p :| 0 <= p <= |s| && line <= s[p..];
    assert p < |s| && s[p] == '-';
    assert line <= s[p..][0..];
    ContainsMiddle("- ", rest, "\n");
    ContainsTrans(s[p..], line, rest);
    LowerContainsFrom(s, p, rest, keyword);
    assert Lower(s)[p] == '-';
    TrimKeepsContainedAfter(Lower(s), keyword, p);
    LowerTrim(s);
  }

  /** The search of a question whose one answer reads "Create, Read, Update, Delete by admin" matches "update". */
  lemma SearchScenario(q: string, answer: string)
    requires q == "Q7: Define CRUD?"
    requires answer == "Create, Read, " + "Update" + ", Delete by admin"
    ensures Mentions(Trim(Combined(q, [AnswerEntry(q, answer)])), "update")
  {
    var answers := [AnswerEntry(q, answer)];
    assert answers[0][|AnswerPrefix(q)|..] == answer;
    var lower := Lower(answer);
    assert |"Create, Read, "| == 14;
    assert answer[14..20] == "Update";
    assert lower[14] == 'u' && lower[15] == 'p' && lower[16] == 'd';
    assert lower[17] == 'a' && lower[18] == 't' && lower[19] == 'e';
    assert lower[14..20] == "update";
    assert "update" <= lower[14..];
    SearchFindsAnswerKeyword(q, answers, 0, "update");
  }
}
