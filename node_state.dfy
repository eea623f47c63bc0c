/**
 * The state objects that the presentation layer observes while a node of an
 * assessment is shown: one per question, per instruction and per assessment.
 * Each holds the immutable node it presents and the live result it records
 * into; the display texts and flags are fields that views update in place.
 */
module NodeStates {
  import opened Wrappers
  import opened Results

  /** The display texts a content node declares. */
  datatype Content = Content(title: Option<string>, subtitle: Option<string>, detail: Option<string>)

  /** A step; `content` is present exactly when the step is a content node. */
  datatype Step = Step(identifier: string, content: Option<Content>)

  /** A question step, which always is a content node. */
  datatype QuestionStep = QuestionStep(identifier: string, text: Content) {
    /** The question seen as a step. */
    function AsStep(): (s: Step)
      ensures s.identifier == identifier && s.content == Some(text)
    {
      Step(identifier, Some(text))
    }
  }

  /** An assessment: the branch node at the root of the step graph. */
  datatype Assessment = Assessment(identifier: string, versionString: Option<string>)

  /** The node a state presents: a step or a branch node. */
  datatype Node = StepNode(step: Step) | AssessmentNode(assessment: Assessment)

  /** The result a state records into, whichever kind it is. */
  datatype ResultRef =
    | AnswerRef(answer: AnswerResult)
    | StepRef(plain: StepResult)
    | BranchRef(branch: AssessmentResult)

  /** The three display slots of a question header. */
  datatype Header = Header(title: string, subtitle: Option<string>, detail: Option<string>)

  /** The texts a content node declares, in the order title, subtitle, detail, leaving out the absent ones. */
  function PresentTexts(c: Content): seq<string> {
    c.title.ToSeq() + c.subtitle.ToSeq() + c.detail.ToSeq()
  }

  /** The texts a header shows, from the title slot down. */
  function Shown(h: Header): seq<string> {
    [h.title] + h.subtitle.ToSeq() + h.detail.ToSeq()
  }

  /**
   * The header of a question: the first declared text moves up into the title
   * slot. The header shows exactly the declared texts, in order, each once;
   * a subtitle or detail slot only ever shows the question's own subtitle or
   * detail; with no text at all the title is empty.
   */
  function HeaderOf(c: Content): (h: Header)
    ensures h.subtitle.Some? ==> c.title.Some? && h.subtitle == c.subtitle
    ensures h.detail.Some? ==> h.detail == c.detail
    ensures Shown(h) == if PresentTexts(c) == [] then [""] else PresentTexts(c)
  {
    Header(
      c.title.GetOr(c.subtitle.GetOr(c.detail.GetOr(""))),
      if c.title.None? then None else c.subtitle,
      if c.title.None? && c.subtitle.None? then None else c.detail)
  }

  /**
   * The consequences for each slot: the title is the first declared text (or
   * empty), the subtitle shows only under a declared title, the detail only
   * under a declared title or subtitle.
   */
  lemma HeaderSlots(c: Content)
    ensures HeaderOf(c).title == if PresentTexts(c) == [] then "" else PresentTexts(c)[0]
    ensures HeaderOf(c).subtitle == if c.title.None? then None else c.subtitle
    ensures HeaderOf(c).detail == if c.title.None? && c.subtitle.None? then None else c.detail
  {
  }

  /** State object for a question. */
  class QuestionState {
    const question: QuestionStep
    const answerResult: AnswerResult
    const canPause: bool
    const skipStepText: Option<string>

    var title: string
    var subtitle: Option<string>
    var detail: Option<string>
    var hasSelectedAnswer: bool

    /**
     * Presents `question`, recording into `answerResult` when one is given
     * (keeping its answer) and into a fresh, unanswered result otherwise; the
     * result is stamped as started at `now` either way.
     */
    constructor (question: QuestionStep, now: Date, answerResult: Option<AnswerResult> := None,
                 canPause: bool := true, skipStepText: Option<string> := None)
      modifies if answerResult.Some? then {answerResult.value} else {}
      ensures this.question == question
      ensures answerResult.Some? ==> this.answerResult == answerResult.value
      ensures answerResult.Some? ==> this.answerResult.value == old(answerResult.value.value)
      ensures answerResult.Some? ==> this.answerResult.endDate == old(answerResult.value.endDate)
      ensures answerResult.None? ==> fresh(this.answerResult)
      ensures answerResult.None? ==> this.answerResult.Snapshot() == AnswerValue(question.identifier, None, now, None)
      ensures this.answerResult.startDate == now
      ensures Header(title, subtitle, detail) == HeaderOf(question.text)
      ensures !hasSelectedAnswer
      ensures this.canPause == canPause && this.skipStepText == skipStepText
    {
      this.question := question;
      var result: AnswerResult;
      if answerResult.Some? {
        result := answerResult.value;
      } else {
        result := new AnswerResult.Instantiate(question.identifier, now);
      }
      result.startDate := now;
      this.answerResult := result;
      var header := HeaderOf(question.text);
      title := header.title;
      subtitle := header.subtitle;
      detail := header.detail;
      hasSelectedAnswer := false;
      this.canPause := canPause;
      this.skipStepText := skipStepText;
    }

    /** The step presented is the question. */
    function PresentedStep(): (s: Step)
      ensures s == question.AsStep()
    {
      question.AsStep()
    }

    /** The node presented is the question's step. */
    function PresentedNode(): (n: Node)
      ensures n.StepNode? && n.step == PresentedStep()
    {
      StepNode(PresentedStep())
    }

    /** The result recorded into is the answer result. */
    function RecordedResult(): (r: ResultRef)
      ensures r.AnswerRef? && r.answer == answerResult
    {
      AnswerRef(answerResult)
    }
  }

  /** State object for an instruction (any step that takes no answer). */
  class InstructionState {
    const step: Step
    const result: StepResult

    var title: Option<string>
    var subtitle: Option<string>
    var detail: Option<string>

    /**
     * Presents `instruction` with a fresh result, showing its texts when it is
     * a content node and no text otherwise.
     */
    constructor (instruction: Step, now: Date)
      ensures step == instruction
      ensures fresh(result) && result.Snapshot() == BasicValue(instruction.identifier, now, None)
      ensures instruction.content.Some? ==>
        title == instruction.content.value.title &&
        subtitle == instruction.content.value.subtitle &&
        detail == instruction.content.value.detail
      ensures instruction.content.None? ==> title.None? && subtitle.None? && detail.None?
    {
      step := instruction;
      result := new StepResult.Instantiate(instruction.identifier, now);
      title, subtitle, detail := None, None, None;
      if instruction.content.Some? {
        var c := instruction.content.value;
        title := c.title;
        subtitle := c.subtitle;
        detail := c.detail;
      }
    }

    /** The node presented is the instruction step. */
    function PresentedNode(): (n: Node)
      ensures n.StepNode? && n.step == step
    {
      StepNode(step)
    }

    /** The result recorded into is the instruction's own result. */
    function RecordedResult(): (r: ResultRef)
      ensures r.StepRef? && r.plain == result
    {
      StepRef(result)
    }
  }

  /** State object for a whole assessment run. */
  class AssessmentState {
    const assessment: Assessment
    const assessmentResult: AssessmentResult

    var isFinished: bool
    var showingPauseActions: bool

    /**
     * Starts a run of `assessment`, continuing `restoredResult` when one is
     * given (keeping its history) and with a fresh result otherwise; the
     * result's start date is stamped with `now` either way. `runUUID` is the
     * run identifier a fresh result receives.
     */
    constructor (assessment: Assessment, now: Date, runUUID: string,
                 restoredResult: Option<AssessmentResult> := None)
      modifies if restoredResult.Some? then {restoredResult.value} else {}
      ensures this.assessment == assessment
      ensures restoredResult.Some? ==> assessmentResult == restoredResult.value
      ensures restoredResult.Some? ==>
        assessmentResult.stepHistory == old(restoredResult.value.stepHistory) &&
        assessmentResult.taskRunUUID == old(restoredResult.value.taskRunUUID) &&
        assessmentResult.endDate == old(restoredResult.value.endDate)
      ensures restoredResult.None? ==> fresh(assessmentResult)
      ensures restoredResult.None? ==>
        assessmentResult.identifier == assessment.identifier &&
        assessmentResult.versionString == assessment.versionString &&
        assessmentResult.taskRunUUID == runUUID &&
        assessmentResult.stepHistory == [] && assessmentResult.endDate.None?
      ensures assessmentResult.startDate == now
      ensures !isFinished && !showingPauseActions
    {
      this.assessment := assessment;
      var result: AssessmentResult;
      if restoredResult.Some? {
        result := restoredResult.value;
      } else {
        result := new AssessmentResult.Instantiate(assessment.identifier, assessment.versionString, runUUID, now);
      }
      result.startDate := now;
      assessmentResult := result;
      isFinished := false;
      showingPauseActions := false;
    }

    /** The branch node of this state is the assessment. */
    function BranchNode(): (a: Assessment)
      ensures a == assessment
    {
      assessment
    }

    /** The branch-node result of this state is the assessment result. */
    function BranchNodeResult(): (r: AssessmentResult)
      ensures r == assessmentResult
    {
      assessmentResult
    }

    /** The node presented is the assessment. */
    function PresentedNode(): (n: Node)
      ensures n.AssessmentNode? && n.assessment == assessment
    {
      AssessmentNode(assessment)
    }

    /**
     * The branch-state `result` as the Swift property is written, a property whose
     * value is itself, unfolded at most `fuel` times: no number of
     * unfoldings ever yields a result.
     */
    function ResultAsWritten(fuel: nat): (r: Option<ResultRef>)
      ensures r.None?
    {
      if fuel == 0 then None else ResultAsWritten(fuel - 1)
    }

    /** The result recorded into is the branch-node result. */
    function RecordedResult(): (r: ResultRef)
      ensures r.BranchRef? && r.branch == BranchNodeResult()
    {
      BranchRef(BranchNodeResult())
    }
  }
}
