/** The survey's question table and what showQuestion puts on the page for one question. */
module Questions {

  /** A question either offers a list of choices or asks for a free-text answer. */
  datatype Question = MultipleChoice(options: seq<string>) | OpenEnded

  /** What the question region shows: radio buttons, a text area, or the closing message. */
  datatype View = RadioButtons(choices: seq<string>) | AnswerBox | CompletionMessage

  /** A record showQuestion can render: a multiple-choice question has something to choose. */
  predicate Renderable(q: Question) {
    q.MultipleChoice? ==> |q.options| > 0
  }

  /** The nine questions of the survey, in order; those at indices 2, 7 and 8 are open-ended. */
  function InitialQuestions(): (qs: seq<Question>)
    ensures |qs| == 9
    ensures forall i :: 0 <= i < |qs| ==> (qs[i].OpenEnded? <==> i == 2 || i == 7 || i == 8)
    ensures forall i :: 0 <= i < |qs| ==> Renderable(qs[i])
  {
    var agreement := ["전혀 그렇지 않다", "대체로 그렇지 않다", "보통이다", "대체로 그렇다", "매우 그렇다"];
    var yesNo := ["네", "아니오"];
    [ MultipleChoice(["인스타그램", "유튜브", "트위터", "페이스북", "틱톡"]),
      MultipleChoice(agreement),
      OpenEnded,
      MultipleChoice(agreement),
      MultipleChoice(yesNo),
      MultipleChoice(yesNo),
      MultipleChoice(yesNo),
      OpenEnded,
      OpenEnded ]
  }

  /** showQuestion: an open-ended question gets a text area, any other question one radio button
      per option, in the table's order; it never shows the closing message. */
  function Show(q: Question): (v: View)
    ensures !v.CompletionMessage?
    ensures v.AnswerBox? <==> q.OpenEnded?
    ensures v.RadioButtons? ==> v.choices == q.options
  {
    match q
    case OpenEnded => AnswerBox
    case MultipleChoice(options) => RadioButtons(options)
  }
}
