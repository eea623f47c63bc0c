/**
 * The results that node states hold: the answer of a question, the plain
 * result of an instruction, and the assessment result whose step history
 * records one entry per visited node. Live results are objects whose fields
 * are updated in place; entries of a step history are immutable values, so a
 * deep copy of an entry is the entry itself.
 */
module Results {
  import opened Wrappers

  /** A wall-clock timestamp; the clock itself is a parameter of the model. */
  type Date = int

  /** The JSON-like answer value of a question (floating-point numbers are not modelled). */
  datatype JsonValue =
    | JsonNull
    | JsonBoolean(b: bool)
    | JsonInteger(i: int)
    | JsonString(s: string)
    | JsonArray(items: seq<JsonValue>)
    | JsonObject(fields: map<string, JsonValue>)

  /** A recorded result, as a value: an answer result or a plain step result. */
  datatype ResultValue =
    | AnswerValue(identifier: string, value: Option<JsonValue>, startDate: Date, endDate: Option<Date>)
    | BasicValue(identifier: string, startDate: Date, endDate: Option<Date>)

  /** The type a copied result is cast to: any result, an answer result, or a plain result. */
  datatype ResultType = AnyResult | AnswerResultType | BasicResultType

  /** True when the cast of `v` to `t` succeeds. */
  predicate Conforms(v: ResultValue, t: ResultType) {
    match t
    case AnyResult => true
    case AnswerResultType => v.AnswerValue?
    case BasicResultType => v.BasicValue?
  }

  /** `i` is the position of the last entry of `history` whose identifier is `id`. */
  ghost predicate IsLastMatch(history: seq<ResultValue>, id: string, i: int) {
    0 <= i < |history| && history[i].identifier == id &&
    forall j :: i < j < |history| ==> history[j].identifier != id
  }

  /** The position of the last entry of `history` with identifier `id`, if any. */
  function LastIndexWith(history: seq<ResultValue>, id: string): (r: Option<nat>)
    ensures r.Some? ==> IsLastMatch(history, id, r.value)
    ensures r.None? ==> forall i :: 0 <= i < |history| ==> history[i].identifier != id
  {
    if |history| == 0 then None
    else if history[|history| - 1].identifier == id then Some(|history| - 1)
    else LastIndexWith(history[..|history| - 1], id)
  }

  /** There is at most one last match. */
  lemma LastMatchUnique(history: seq<ResultValue>, id: string, i: int, j: int)
    requires IsLastMatch(history, id, i) && IsLastMatch(history, id, j)
    ensures i == j
  {
  }

  /**
   * A copy of the last entry of `history` whose identifier is `id`, cast to
   * `t`: none when no entry has that identifier, and none when the last such
   * entry does not have type `t` (earlier entries are not consulted).
   */
  function CopyResult(history: seq<ResultValue>, id: string, t: ResultType): (r: Option<ResultValue>)
    ensures r.Some? ==> r.value.identifier == id && Conforms(r.value, t)
    ensures forall i :: IsLastMatch(history, id, i) ==>
      (r.Some? <==> Conforms(history[i], t)) && (r.Some? ==> r.value == history[i])
    ensures (forall i :: 0 <= i < |history| ==> history[i].identifier != id) ==> r.None?
  {
    match LastIndexWith(history, id)
    case None => None
    case Some(i) =>
      forall j | IsLastMatch(history, id, j) ensures j == i {
        LastMatchUnique(history, id, i, j);
      }
      if Conforms(history[i], t) then Some(history[i]) else None
  }

  /**
   * Recording one more entry: a copy for the entry's own identifier now comes
   * from that entry, a copy for any other identifier is what it was before.
   */
  lemma CopyResultAfterAppend(history: seq<ResultValue>, v: ResultValue, id: string, t: ResultType)
    ensures CopyResult(history + [v], id, t) ==
      if v.identifier == id then (if Conforms(v, t) then Some(v) else None)
      else CopyResult(history, id, t)
  {
  }

  /**
   * When the last entry with the identifier fails the cast, the copy is
   * nothing, even if an earlier entry `j` with the same identifier would pass
   * it. A corollary of `CopyResult`'s contract, kept to document that the
   * cast never falls back to an earlier entry.
   */
  lemma CopyResultIgnoresEarlierEntries(history: seq<ResultValue>, id: string, t: ResultType, i: int, j: int)
    requires IsLastMatch(history, id, i) && !Conforms(history[i], t)
    requires 0 <= j < i && history[j].identifier == id && Conforms(history[j], t)
    ensures CopyResult(history, id, t).None?
  {
  }

  /** The answer result of a question, updated in place while the question is shown. */
  class AnswerResult {
    const identifier: string
    var value: Option<JsonValue>
    var startDate: Date
    var endDate: Option<Date>

    /** The current state of this result as a value (its deep copy). */
    function Snapshot(): (v: ResultValue)
      reads this
      ensures v.AnswerValue? && v.identifier == identifier && v.value == value
      ensures v.startDate == startDate && v.endDate == endDate
    {
      AnswerValue(identifier, value, startDate, endDate)
    }

    /** A fresh, unanswered result for the question `identifier`, started at `now`. */
    constructor Instantiate(identifier: string, now: Date)
      ensures Snapshot() == AnswerValue(identifier, None, now, None)
    {
      this.identifier := identifier;
      value := None;
      startDate := now;
      endDate := None;
    }

    /** A fresh object holding the copied answer value `v`. */
    constructor Restore(v: ResultValue)
      requires v.AnswerValue?
      ensures Snapshot() == v
    {
      identifier := v.identifier;
      value := v.value;
      startDate := v.startDate;
      endDate := v.endDate;
    }
  }

  /** The plain result of a step that takes no input. */
  class StepResult {
    const identifier: string
    var startDate: Date
    var endDate: Option<Date>

    /** The current state of this result as a value (its deep copy). */
    function Snapshot(): (v: ResultValue)
      reads this
      ensures v.BasicValue? && v.identifier == identifier
      ensures v.startDate == startDate && v.endDate == endDate
    {
      BasicValue(identifier, startDate, endDate)
    }

    /** A fresh result for the step `identifier`, started at `now`. */
    constructor Instantiate(identifier: string, now: Date)
      ensures Snapshot() == BasicValue(identifier, now, None)
    {
      this.identifier := identifier;
      startDate := now;
      endDate := None;
    }
  }

  /** The result of a whole assessment: the branch-node result at the root. */
  class AssessmentResult {
    const identifier: string
    const versionString: Option<string>
    var taskRunUUID: string
    var startDate: Date
    var endDate: Option<Date>
    /** One entry per visited node, in visitation order. */
    var stepHistory: seq<ResultValue>

    /** A fresh result for the assessment `identifier`, with an empty history, started at `now`. */
    constructor Instantiate(identifier: string, versionString: Option<string>, runUUID: string, now: Date)
      ensures this.identifier == identifier && this.versionString == versionString
      ensures taskRunUUID == runUUID && startDate == now && endDate.None?
      ensures stepHistory == []
    {
      this.identifier := identifier;
      this.versionString := versionString;
      taskRunUUID := runUUID;
      startDate := now;
      endDate := None;
      stepHistory := [];
    }

    /**
     * A deep copy of the last answer result recorded for `id`, as a fresh
     * object: mutating it never touches this result or its history.
     */
    method CopyAnswerResult(id: string) returns (r: AnswerResult?)
      ensures r == null <==> CopyResult(stepHistory, id, AnswerResultType).None?
      ensures r != null ==> fresh(r) && r.Snapshot() == CopyResult(stepHistory, id, AnswerResultType).value
    {
      var copy := CopyResult(stepHistory, id, AnswerResultType);
      if copy.Some? {
        r := new AnswerResult.Restore(copy.value);
      } else {
        r := null;
      }
    }
  }
}
