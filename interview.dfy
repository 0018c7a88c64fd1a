/**
 * The interview wizard: a menu with two blocks of questions (the fixed base
 * questions and questions suggested by the AI service), an asking step that
 * walks through one block answer by answer, and the final sync that turns the
 * collected pairs into `interview_responses` rows.
 */
module Interview {
  import opened Wrappers
  import opened Store

  /** `BASE_QUESTIONS` */
  const BaseQuestions: seq<string> := [
    "What was the highlight of your day?",
    "What challenged you today?",
    "What are you grateful for right now?"
  ]

  datatype Step = Menu | Asking

  /** One answered question, `{ q, a }`. */
  datatype QA = QA(q: string, a: string)

  /**
   * What the question service answered: the fetch or the JSON parse failed,
   * or an object whose `questions` key is None when it is missing.
   */
  datatype QuestionsReply = FetchFailed | Fetched(questions: Option<seq<string>>)

  /** `new Array(n).fill("")` */
  function Blank(n: nat): (r: seq<string>)
    ensures |r| == n
    ensures forall i :: 0 <= i < n ==> r[i] == ""
  {
    if n == 0 then [] else [""] + Blank(n - 1)
  }

  /** `questions.map((q, i) => ({ q, a: answers[i] }))` */
  function Pairs(questions: seq<string>, answers: seq<string>): (r: seq<QA>)
    requires |questions| <= |answers|
    ensures |r| == |questions|
    ensures forall i :: 0 <= i < |r| ==> r[i] == QA(questions[i], answers[i])
  {
    if questions == [] then [] else [QA(questions[0], answers[0])] + Pairs(questions[1..], answers[1..])
  }

  function QuestionsOf(data: seq<QA>): seq<string>
  {
    if data == [] then [] else [data[0].q] + QuestionsOf(data[1..])
  }

  function AnswersOf(data: seq<QA>): seq<string>
  {
    if data == [] then [] else [data[0].a] + AnswersOf(data[1..])
  }

  /** Pairing loses nothing: the questions come back in order, and so do the answers given to them. */
  lemma {:induction false} PairsSplitBack(questions: seq<string>, answers: seq<string>)
    requires |questions| <= |answers|
    ensures QuestionsOf(Pairs(questions, answers)) == questions
    ensures AnswersOf(Pairs(questions, answers)) == answers[..|questions|]
  {
    if questions != [] {
      PairsSplitBack(questions[1..], answers[1..]);
      assert answers[..|questions|] == [answers[0]] + answers[1..][..|questions| - 1];
    }
  }

  /** `baseData.some(b => b.q === question)` */
  predicate AskedInBase(base: seq<QA>, question: string)
  {
    exists j :: 0 <= j < |base| && base[j].q == question
  }

  /** The `type` of the row made for `item`. */
  function KindFor(base: seq<QA>, item: QA): (k: Kind)
    ensures k == Base <==> AskedInBase(base, item.q)
  {
    if AskedInBase(base, item.q) then Base else Ai
  }

  /** The rows made for `items`; `now` is the insertion time the database stamps into `created_at`. */
  function RowsFor(u: UserId, now: Timestamp, base: seq<QA>, items: seq<QA>): (r: seq<InterviewResponse>)
    ensures |r| == |items|
    ensures forall i :: 0 <= i < |r| ==>
              r[i] == Row(u, now, Answer(items[i].q, items[i].a, KindFor(base, items[i])))
  {
    if items == [] then []
    else [Row(u, now, Answer(items[0].q, items[0].a, KindFor(base, items[0])))] + RowsFor(u, now, base, items[1..])
  }

  /**
   * `[...baseData, ...aiData].map(...)`: one row per pair, base pairs first,
   * each labelled 'base' exactly when its question is one of the base
   * block's questions. So every base row is 'base', and an AI question
   * that repeats a base question is labelled 'base' too.
   */
  function ResponseRows(u: UserId, now: Timestamp, base: seq<QA>, ai: seq<QA>): (r: seq<InterviewResponse>)
    ensures |r| == |base| + |ai|
    ensures forall i :: 0 <= i < |base| ==>
              r[i] == Row(u, now, Answer(base[i].q, base[i].a, Base))
    ensures forall j :: 0 <= j < |ai| ==>
              && r[|base| + j].userId == u && r[|base| + j].createdAt == now
              && r[|base| + j].payload.question == ai[j].q
              && r[|base| + j].payload.answer == ai[j].a
              && (r[|base| + j].payload.kind == Base <==> AskedInBase(base, ai[j].q))
  {
    var r := RowsFor(u, now, base, base + ai);
    assert forall i :: 0 <= i < |base| ==> (base + ai)[i] == base[i] && AskedInBase(base, base[i].q);
    assert forall j :: 0 <= j < |ai| ==> (base + ai)[|base| + j] == ai[j];
    r
  }

  /** The React state of the interview page. */
  class InterviewPage {
    var step: Step
    var activeBlock: Option<Kind>
    var baseData: seq<QA>
    var aiData: seq<QA>
    var currentIdx: nat
    var tempQuestions: seq<string>
    var tempAnswers: seq<string>
    var loadingAi: bool

    /**
     * There is an answer slot per question, while asking the index points at
     * a question of a chosen block, and a pending question request has
     * chosen a block.
     */
    ghost predicate Valid()
      reads this
    {
      && |tempAnswers| == |tempQuestions|
      && (step == Asking ==> activeBlock.Some? && currentIdx < |tempQuestions|)
      && (loadingAi ==> activeBlock.Some?)
    }

    /** The initial state. */
    constructor ()
      ensures Valid()
      ensures step == Menu && activeBlock == None && baseData == [] && aiData == []
      ensures currentIdx == 0 && tempQuestions == [] && tempAnswers == [] && !loadingAi
    {
      step, activeBlock := Menu, None;
      baseData, aiData := [], [];
      currentIdx, tempQuestions, tempAnswers := 0, [], [];
      loadingAi := false;
    }

    /** `startBlock('base')` */
    method StartBase()
      requires Valid()
      modifies this
      ensures Valid()
      ensures activeBlock == Some(Base) && step == Asking && currentIdx == 0
      ensures tempQuestions == BaseQuestions && tempAnswers == Blank(|BaseQuestions|)
      ensures baseData == old(baseData) && aiData == old(aiData) && loadingAi == old(loadingAi)
    {
      activeBlock := Some(Base);
      tempQuestions := BaseQuestions;
      tempAnswers := Blank(|BaseQuestions|);
      currentIdx := 0;
      step := Asking;
    }

    /**
     * `startBlock('ai')` up to its `await`: the AI block becomes the active
     * one and the request is pending. The AI button is disabled while a
     * request is pending; the base button is not.
     */
    method RequestAi()
      requires Valid() && !loadingAi
      modifies this
      ensures Valid()
      ensures activeBlock == Some(Ai) && loadingAi
      ensures step == old(step) && currentIdx == old(currentIdx)
      ensures tempQuestions == old(tempQuestions) && tempAnswers == old(tempAnswers)
      ensures baseData == old(baseData) && aiData == old(aiData)
    {
      activeBlock := Some(Ai);
      loadingAi := true;
    }

    /**
     * The rest of `startBlock('ai')`, once the question service has answered
     * with `reply`: a non-empty list of questions starts the wizard, whatever
     * block is active by then; the pending flag clears in every case.
     */
    method ReceiveAi(reply: QuestionsReply)
      requires Valid() && loadingAi
      modifies this
      ensures Valid()
      ensures !loadingAi && activeBlock == old(activeBlock)
      ensures baseData == old(baseData) && aiData == old(aiData)
      ensures if reply.Fetched? && reply.questions.GetOr([]) != [] then
                var questions := reply.questions.value;
                && step == Asking && currentIdx == 0
                && tempQuestions == questions && tempAnswers == Blank(|questions|)
              else
                && step == old(step) && currentIdx == old(currentIdx)
                && tempQuestions == old(tempQuestions) && tempAnswers == old(tempAnswers)
    {
      loadingAi := false;
      if reply.FetchFailed? {
        return;
      }
      var questions := reply.questions.GetOr([]);
      if |questions| > 0 {
        tempQuestions := questions;
        tempAnswers := Blank(|questions|);
        currentIdx := 0;
        step := Asking;
      }
    }

    /**
     * `startBlock('ai')` when nothing else happens during the request: the
     * active block is 'ai', and the wizard starts only when a non-empty list
     * of questions came back.
     */
    method StartAi(reply: QuestionsReply)
      requires Valid() && !loadingAi
      modifies this
      ensures Valid()
      ensures activeBlock == Some(Ai) && !loadingAi
      ensures baseData == old(baseData) && aiData == old(aiData)
      ensures if reply.Fetched? && reply.questions.GetOr([]) != [] then
                var questions := reply.questions.value;
                && step == Asking && currentIdx == 0
                && tempQuestions == questions && tempAnswers == Blank(|questions|)
              else
                && step == old(step) && currentIdx == old(currentIdx)
                && tempQuestions == old(tempQuestions) && tempAnswers == old(tempAnswers)
    {
      RequestAi();
      ReceiveAi(reply);
    }

    /**
     * The reply step as intended: the questions are installed only while the
     * AI block is still the active one, so a late reply cannot replace the
     * questions of a base block started during the request.
     */
    method ReceiveAiChecked(reply: QuestionsReply)
      requires Valid() && loadingAi
      modifies this
      ensures Valid()
      ensures !loadingAi && activeBlock == old(activeBlock)
      ensures baseData == old(baseData) && aiData == old(aiData)
      ensures if activeBlock == Some(Ai) && reply.Fetched? && reply.questions.GetOr([]) != [] then
                var questions := reply.questions.value;
                && step == Asking && currentIdx == 0
                && tempQuestions == questions && tempAnswers == Blank(|questions|)
              else
                && step == old(step) && currentIdx == old(currentIdx)
                && tempQuestions == old(tempQuestions) && tempAnswers == old(tempAnswers)
    {
      if activeBlock == Some(Ai) {
        ReceiveAi(reply);
      } else {
        loadingAi := false;
      }
    }

    /** The textarea's `onChange`: the current slot takes the edited text. */
    method EditAnswer(text: string)
      requires Valid() && step == Asking
      modifies this
      ensures Valid()
      ensures tempAnswers == old(tempAnswers)[old(currentIdx) := text]
      ensures step == old(step) && activeBlock == old(activeBlock) && currentIdx == old(currentIdx)
      ensures tempQuestions == old(tempQuestions) && baseData == old(baseData) && aiData == old(aiData)
      ensures loadingAi == old(loadingAi)
    {
      tempAnswers := tempAnswers[currentIdx := text];
    }

    /**
     * `handleNext(answer)`: the answer goes into the current slot; then the
     * wizard moves to the next question, or, on the last one, stores the
     * block's pairs in the active block's slot and goes back to the menu.
     */
    method HandleNext(answer: string)
      requires Valid() && step == Asking
      modifies this
      ensures Valid()
      ensures tempAnswers == old(tempAnswers)[old(currentIdx) := answer]
      ensures tempQuestions == old(tempQuestions) && activeBlock == old(activeBlock) && loadingAi == old(loadingAi)
      ensures if old(currentIdx) < |tempQuestions| - 1 then
                && step == Asking && currentIdx == old(currentIdx) + 1 && currentIdx < |tempQuestions|
                && baseData == old(baseData) && aiData == old(aiData)
              else
                && step == Menu && currentIdx == old(currentIdx)
                && |Pairs(tempQuestions, tempAnswers)| == |tempQuestions|
                && (activeBlock == Some(Base) ==>
                      baseData == Pairs(tempQuestions, tempAnswers) && aiData == old(aiData))
                && (activeBlock == Some(Ai) ==>
                      aiData == Pairs(tempQuestions, tempAnswers) && baseData == old(baseData))
    {
      var answers := tempAnswers[currentIdx := answer];
      tempAnswers := answers;
      if currentIdx < |tempQuestions| - 1 {
        currentIdx := currentIdx + 1;
      } else {
        var finalData := Pairs(tempQuestions, answers);
        if activeBlock == Some(Base) {
          baseData := finalData;
        }
        if activeBlock == Some(Ai) {
          aiData := finalData;
        }
        step := Menu;
      }
    }

    /** Whether the footer's sync button is shown: some block holds answers. */
    predicate ShowSync()
      reads this
      ensures !ShowSync() ==> baseData == [] && aiData == []
    {
      |baseData| > 0 || |aiData| > 0
    }

    /** The base block's clear button. */
    method ClearBase()
      requires Valid()
      modifies this
      ensures Valid()
      ensures baseData == [] && aiData == old(aiData)
      ensures ShowSync() <==> aiData != []
      ensures step == old(step) && activeBlock == old(activeBlock) && currentIdx == old(currentIdx)
      ensures tempQuestions == old(tempQuestions) && tempAnswers == old(tempAnswers) && loadingAi == old(loadingAi)
    {
      baseData := [];
    }

    /** The AI block's clear button. */
    method ClearAi()
      requires Valid()
      modifies this
      ensures Valid()
      ensures aiData == [] && baseData == old(baseData)
      ensures ShowSync() <==> baseData != []
      ensures step == old(step) && activeBlock == old(activeBlock) && currentIdx == old(currentIdx)
      ensures tempQuestions == old(tempQuestions) && tempAnswers == old(tempAnswers) && loadingAi == old(loadingAi)
    {
      aiData := [];
    }

    /**
     * `finalize`: with a signed-in user, inserts one row per collected pair;
     * `now` is the insertion time and `insertOk` whether the insert
     * succeeded. `saved` is whether the page goes on to navigate home.
     */
    method Finalize(db: Database, user: Option<UserId>, now: Timestamp, insertOk: bool) returns (saved: bool)
      requires db.Valid()
      modifies db
      ensures db.Valid()
      ensures user.None? ==> !saved && unchanged(db)
      ensures user.Some? ==>
                && saved == insertOk
                && db.interviewResponses == old(db.interviewResponses)
                     + (if insertOk then ResponseRows(user.value, now, baseData, aiData) else [])
                && db.entries == old(db.entries) && db.dailyPages == old(db.dailyPages)
                && db.profiles == old(db.profiles) && db.shellItems == old(db.shellItems)
                && db.shellCategories == old(db.shellCategories)
    {
      if user.None? {
        return false;
      }
      if !insertOk {
        return false;
      }
      db.InsertResponses(ResponseRows(user.value, now, baseData, aiData));
      saved := true;
    }
  }

  /**
   * The base block is started while AI questions are being fetched: the late
   * reply replaces the base questions, and the answers to the AI's question
   * are stored as the base block, so the sync labels them 'base'.
   */
  method LateAiReplyFillsBase() returns (storedAsBase: bool)
    ensures storedAsBase
  {
    var page := new InterviewPage();
    page.RequestAi();
    page.StartBase();
    page.ReceiveAi(Fetched(Some(["What surprised you?"])));
    page.HandleNext("A letter");
    storedAsBase := page.baseData == [QA("What surprised you?", "A letter")] && page.aiData == []
                    && ResponseRows("u", 0, page.baseData, page.aiData)[0].payload.kind == Base;
  }

  /** With the checked reply step the base block keeps its own questions. */
  method LateAiReplyIgnoredWhenChecked() returns (baseKept: bool)
    ensures baseKept
  {
    var page := new InterviewPage();
    page.RequestAi();
    page.StartBase();
    page.ReceiveAiChecked(Fetched(Some(["What surprised you?"])));
    baseKept := page.activeBlock == Some(Base) && page.tempQuestions == BaseQuestions && page.step == Asking;
  }
}
