/** The questionnaire controller of App as a state machine over values: the state is the current
    question index, the answer log written to the console, what the question region shows, whether
    the "next" button is visible, and how many dominoes have been dropped. */
module Questionnaire {
  import opened Questions

  /** One console line of nextQuestion: the 1-based question number and the text-area contents. */
  datatype Answer = Answer(number: int, response: string)

  datatype Survey = Survey(index: int, log: seq<Answer>, display: View, buttonVisible: bool, spawns: nat)

  /** The invariant every reachable state keeps. The button is visible exactly while a question is
      shown; each question shown after the first has dropped one domino; every logged answer belongs
      to an open-ended question already passed, and no question is logged twice. */
  predicate Consistent(qs: seq<Question>, s: Survey) {
    |qs| > 0 &&
    0 <= s.index <= |qs| &&
    (s.buttonVisible <==> s.index < |qs|) &&
    s.display == (if s.index < |qs| then Show(qs[s.index]) else CompletionMessage) &&
    s.spawns == (if s.index < |qs| then s.index else s.index - 1) &&
    (forall j :: 0 <= j < |s.log| ==> 1 <= s.log[j].number <= s.index && qs[s.log[j].number - 1].OpenEnded?) &&
    (forall j, k :: 0 <= j < k < |s.log| ==> s.log[j].number < s.log[k].number)
  }

  /** The constructor: index 0, the first question shown, nothing logged and no domino dropped. */
  function Initial(qs: seq<Question>): (s: Survey)
    requires |qs| > 0
    ensures Consistent(qs, s)
    ensures s.index == 0 && s.log == [] && s.spawns == 0 && s.display == Show(qs[0])
  {
    Survey(0, [], Show(qs[0]), true, 0)
  }

  /** nextQuestion. Only a click on the visible button calls it; past the last question the program
      would read a missing record, so the button being visible is its precondition. */
  function Advance(qs: seq<Question>, s: Survey, response: string): (t: Survey)
    requires Consistent(qs, s) && s.buttonVisible
    ensures Consistent(qs, t)
    ensures t.index == s.index + 1
    // the answer is logged, even when empty, exactly for an open-ended question, under its number
    ensures s.log <= t.log && |t.log| <= |s.log| + 1
    ensures |t.log| == |s.log| + 1 <==> qs[s.index].OpenEnded?
    ensures |t.log| == |s.log| + 1 ==> t.log[|s.log|] == Answer(s.index + 1, response)
    // one domino while a question remains, otherwise the closing message and no domino
    ensures t.spawns == s.spawns + 1 <==> t.index < |qs|
    ensures t.spawns == s.spawns <==> t.index == |qs|
    ensures t.index == |qs| ==> t.display == CompletionMessage && !t.buttonVisible
  {
    var log := if qs[s.index].OpenEnded? then s.log + [Answer(s.index + 1, response)] else s.log;
    var next := s.index + 1;
    if next < |qs| then Survey(next, log, Show(qs[next]), true, s.spawns + 1)
    else Survey(next, log, CompletionMessage, false, s.spawns)
  }

  /** The click listener on the "next" button: a hidden button receives no clicks. */
  function Click(qs: seq<Question>, s: Survey, response: string): (t: Survey)
    requires Consistent(qs, s)
    ensures Consistent(qs, t)
    ensures !s.buttonVisible ==> t == s
    ensures s.buttonVisible ==> t == Advance(qs, s, response)
  {
    if s.buttonVisible then Advance(qs, s, response) else s
  }

  /** The state after a session of clicks, one text-area value per click. */
  function Run(qs: seq<Question>, responses: seq<string>): (s: Survey)
    requires |qs| > 0
    ensures Consistent(qs, s)
    ensures s.index == if |responses| <= |qs| then |responses| else |qs|
  {
    if responses == [] then Initial(qs)
    else Click(qs, Run(qs, responses[..|responses| - 1]), responses[|responses| - 1])
  }

  /** The open-ended questions among the first n, listed by index. */
  function OpenIndices(qs: seq<Question>, n: nat): (idx: seq<nat>)
    requires n <= |qs|
    ensures forall k :: 0 <= k < |idx| ==> idx[k] < n
  {
    if n == 0 then [] else OpenIndices(qs, n - 1) + (if qs[n - 1].OpenEnded? then [n - 1] else [])
  }

  /** OpenIndices lists exactly the open-ended questions below n. */
  lemma {:induction false} OpenIndicesExact(qs: seq<Question>, n: nat, j: nat)
    requires n <= |qs|
    ensures j in OpenIndices(qs, n) <==> j < n && qs[j].OpenEnded?
  {
    if n > 0 {
      OpenIndicesExact(qs, n - 1, j);
    }
  }

  /** Reference definition of the log: one entry per open-ended question answered, in order. */
  function Captured(qs: seq<Question>, responses: seq<string>): (log: seq<Answer>)
    requires |responses| <= |qs|
  {
    var idx := OpenIndices(qs, |responses|);
    seq(|idx|, k requires 0 <= k < |idx| => Answer(idx[k] + 1, responses[idx[k]]))
  }

  /** One more click adds to the reference log exactly the answer to the question it leaves, when
      that question is open-ended. */
  lemma CapturedStep(qs: seq<Question>, responses: seq<string>)
    requires 0 < |responses| <= |qs|
    ensures var n := |responses|;
      Captured(qs, responses) ==
        Captured(qs, responses[..n - 1]) + (if qs[n - 1].OpenEnded? then [Answer(n, responses[n - 1])] else [])
  {
    var n := |responses|;
    var prefix := responses[..n - 1];
    var before := OpenIndices(qs, n - 1);
    assert OpenIndices(qs, n) == before + (if qs[n - 1].OpenEnded? then [n - 1] else []);
    var lhs := Captured(qs, responses);
    var rhs := Captured(qs, prefix) + (if qs[n - 1].OpenEnded? then [Answer(n, responses[n - 1])] else []);
    assert |lhs| == |rhs|;
    forall k | 0 <= k < |lhs| ensures lhs[k] == rhs[k] {
      if k < |before| {
        assert before[k] < n - 1;
        assert responses[before[k]] == prefix[before[k]];
      }
    }
  }

  /** A session of at most N clicks: the index counts the clicks, the log holds exactly the
      open-ended answers given, the button stays until the N-th click, and N - 1 dominoes fall in a
      full session. */
  lemma {:induction false} RunClosedForm(qs: seq<Question>, responses: seq<string>)
    requires |qs| > 0 && |responses| <= |qs|
    ensures var s := Run(qs, responses);
      s.index == |responses| && s.log == Captured(qs, responses) &&
      (s.buttonVisible <==> |responses| < |qs|) &&
      s.spawns == (if |responses| < |qs| then |responses| else |qs| - 1)
  {
    if responses != [] {
      var n := |responses|;
      var prefix := responses[..n - 1];
      RunClosedForm(qs, prefix);
      CapturedStep(qs, responses);
    }
  }

  /** After the N-th click the survey is over: further clicks change nothing and drop nothing. */
  lemma {:induction false} ClicksAfterCompletion(qs: seq<Question>, responses: seq<string>, extra: seq<string>)
    requires |qs| > 0 && |responses| == |qs|
    ensures Run(qs, responses + extra) == Run(qs, responses)
    ensures Run(qs, responses).display == CompletionMessage
  {
    RunClosedForm(qs, responses);
    if extra == [] {
      assert responses + extra == responses;
    } else {
      var all := responses + extra;
      assert all[..|all| - 1] == responses + extra[..|extra| - 1];
      ClicksAfterCompletion(qs, responses, extra[..|extra| - 1]);
    }
  }

  /** One unfolding of OpenIndices from a known shorter list; the lemma keeps each step of the
      computation below in a proof obligation of its own, which keeps the solver's work small. */
  lemma OpenIndicesStep(qs: seq<Question>, n: nat, before: seq<nat>)
    requires 0 < n <= |qs| && OpenIndices(qs, n - 1) == before
    ensures OpenIndices(qs, n) == before + (if qs[n - 1].OpenEnded? then [n - 1] else [])
  {
  }

  /** Which of nine questions are open-ended decides the log entries of a full session. */
  lemma OpenAtTwoSevenEight(qs: seq<Question>)
    requires |qs| == 9
    requires forall i :: 0 <= i < |qs| ==> (qs[i].OpenEnded? <==> i == 2 || i == 7 || i == 8)
    ensures OpenIndices(qs, 9) == [2, 7, 8]
  {
    OpenIndicesStep(qs, 1, []);
    OpenIndicesStep(qs, 2, []);
    OpenIndicesStep(qs, 3, []);
    OpenIndicesStep(qs, 4, [2]);
    OpenIndicesStep(qs, 5, [2]);
    OpenIndicesStep(qs, 6, [2]);
    OpenIndicesStep(qs, 7, [2]);
    OpenIndicesStep(qs, 8, [2]);
    OpenIndicesStep(qs, 9, [2, 7]);
  }

  /** A full session over nine questions of which those at indices 2, 7 and 8 are open-ended. */
  lemma NineQuestionSession(qs: seq<Question>, responses: seq<string>)
    requires |qs| == 9 && |responses| == 9
    requires forall i :: 0 <= i < |qs| ==> (qs[i].OpenEnded? <==> i == 2 || i == 7 || i == 8)
    ensures var s := Run(qs, responses);
      s.index == 9 && s.display == CompletionMessage && !s.buttonVisible && s.spawns == 8 &&
      s.log == [Answer(3, responses[2]), Answer(8, responses[7]), Answer(9, responses[8])]
  {
    RunClosedForm(qs, responses);
    OpenAtTwoSevenEight(qs);
  }

  /** The survey as written: nine clicks finish it, logging questions 3, 8 and 9 and dropping eight
      dominoes. */
  lemma SurveySession(responses: seq<string>)
    requires |responses| == 9
    ensures var s := Run(InitialQuestions(), responses);
      s.index == 9 && s.display == CompletionMessage && !s.buttonVisible && s.spawns == 8 &&
      s.log == [Answer(3, responses[2]), Answer(8, responses[7]), Answer(9, responses[8])]
  {
    NineQuestionSession(InitialQuestions(), responses);
  }
}
