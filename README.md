# Assessment button types and node states

A model of two pieces of an assessment runner (surveys, questionnaires,
cognitive tests presented step by step):

- **Button types** (`button_type.dfy`, module `ButtonTypes`). A button on a step
  carries an action. The action is one of six standard navigation actions
  (`goForward`, `goBackward`, `skip`, `cancel`, `pause`, `reviewInstructions`)
  or a custom action string that the app handles. Actions are written in an
  assessment definition as plain strings. The model has the total decoder, the
  encoder, the custom-action projection, the coding-key facade and the list of
  documented values. It proves both round trips. Encoding after decoding gives
  back every string. Decoding after encoding gives back every navigation
  action, and a custom action exactly when its payload is not a navigation
  name: `custom("skip")` comes back as the navigation action `skip`.
- **Node states** (`node_state.dfy`, module `NodeStates`, over `results.dfy`,
  module `Results`). These are the objects a view observes while a question,
  an instruction or a whole assessment is shown. Each is a class whose
  constructor picks the result to record into. The question and assessment
  states stamp that result as started. The question and instruction states
  fill their display fields. For a question, the first declared text of
  title, subtitle and detail moves up into the title slot. The model proves
  that the header shows exactly the declared texts, in order, each once.
  `copyResult(with:)` is a search for the last step-history entry with a given
  identifier, followed by a cast to the wanted result type.
- `wrappers.dfy` (module `Wrappers`) holds `Option`, standing in for Swift
  optionals.

Modelling choices:

- The clock (`Date()`) is a parameter `now`. The question and assessment
  constructors stamp their result's start date with it. For a fresh result,
  `now` also stands for the clock read inside the `instantiate…()` function
  that creates it; the instruction state's constructor itself never reads the
  clock.
- A new run's identifier is a parameter `runUUID` of the assessment state's
  constructor.
- Step-history entries are immutable values (`Results.ResultValue`), so the
  deep copy of an entry is the entry itself.
- Live results are objects. `AssessmentResult.CopyAnswerResult` turns a copied
  entry into a fresh object, so mutating the copy never touches the history.
- `instantiateAnswerResult()`, `instantiateResult()` and
  `instantiateAssessmentResult()` are not among the modelled files. Each is
  abstracted as a fresh result with the node's identifier, start date `now`
  and no end date.
  A fresh answer result has no answer. A fresh assessment result has the
  assessment's version and an empty step history.
- Swift default arguments (`answerResult: nil`, `canPause: true`,
  `skipStepText: nil`, `restoredResult: nil`) are Dafny default parameters.

## Model

| member | source | states |
|---|---|---|
| `ButtonTypes.NavigationRawValue` | SwiftPackage/Sources/AssessmentModel/Assessment/ButtonAction/ButtonType.swift:44-64 | the raw value of a navigation case is its case name, a non-empty lower-camel-case identifier |
| `ButtonTypes.RawValue` | SwiftPackage/Sources/AssessmentModel/Assessment/ButtonAction/ButtonType.swift:90-98 | a navigation action encodes as its case name, which decodes back to that case; a custom action encodes as its payload (`StringRoundTrip` and `ValueRoundTrip` give both round trips) |
| `ButtonTypes.NavigationFromRawValue` | SwiftPackage/Sources/AssessmentModel/Assessment/ButtonAction/ButtonType.swift:44-64 | a string gives a navigation case exactly when it is that case's raw value |
| `ButtonTypes.FromRawValue` | SwiftPackage/Sources/AssessmentModel/Assessment/ButtonAction/ButtonType.swift:81-88 | decoding never fails; a navigation name gives that navigation action, any other string a custom action with the same payload; encoding the result gives back the string |
| `ButtonTypes.FromStringLiteral` | SwiftPackage/Sources/AssessmentModel/Assessment/ButtonAction/ButtonType.swift:101-105 | a string literal decodes as its raw value does |
| `ButtonTypes.CustomAction` | SwiftPackage/Sources/AssessmentModel/Assessment/ButtonAction/ButtonType.swift:69-76 | present exactly for custom actions, and then equal to the payload |
| `ButtonTypes.StringRoundTrip` | SwiftPackage/Sources/AssessmentModel/Assessment/ButtonAction/ButtonType.swift:81-98 | encoding after decoding is the identity on strings |
| `ButtonTypes.NavigationRawValueInjective` | SwiftPackage/Sources/AssessmentModel/Assessment/ButtonAction/ButtonType.swift:44-64 | distinct navigation cases have distinct raw values |
| `ButtonTypes.ValueRoundTrip` | SwiftPackage/Sources/AssessmentModel/Assessment/ButtonAction/ButtonType.swift:81-98 | decoding after encoding gives back a value exactly when it is a navigation action or a custom action whose payload is no navigation name |
| `ButtonTypes.CustomNavigationNameDecodesAsNavigation` | SwiftPackage/Sources/AssessmentModel/Assessment/ButtonAction/ButtonType.swift:81-98 | a custom action named like a navigation case re-decodes as that navigation action, not as itself |
| `ButtonTypes.StringValue` | SwiftPackage/Sources/AssessmentModel/Assessment/ButtonAction/ButtonType.swift:108-110 | the coding-key string is the raw value |
| `ButtonTypes.FromStringValue` | SwiftPackage/Sources/AssessmentModel/Assessment/ButtonAction/ButtonType.swift:112-114 | the failable string initialiser never fails, and its key string is the string it was given |
| `ButtonTypes.IntValue` | SwiftPackage/Sources/AssessmentModel/Assessment/ButtonAction/ButtonType.swift:116-118 | no button type has an integer key |
| `ButtonTypes.FromIntValue` | SwiftPackage/Sources/AssessmentModel/Assessment/ButtonAction/ButtonType.swift:120-122 | no integer builds a button type |
| `ButtonTypes.RawValues` | SwiftPackage/Sources/AssessmentModel/Assessment/ButtonAction/ButtonType.swift:127 | mapping raw values keeps length and position |
| `ButtonTypes.AllCasesComplete` | SwiftPackage/Sources/AssessmentModel/Assessment/ButtonAction/ButtonType.swift:44-64 | the case list holds every navigation case exactly once |
| `ButtonTypes.AllValues` | SwiftPackage/Sources/AssessmentModel/Assessment/ButtonAction/ButtonType.swift:125-128 | six pairwise distinct names in declaration order; a string is listed exactly when it is a navigation name; each listed name decodes to a navigation action, never to a custom one |
| `Results.LastIndexWith` | SwiftPackage/Sources/AssessmentModelUI/ViewModels/NodeState.swift:142 | finds the last history position with the identifier, or reports that no entry has it |
| `Results.CopyResult` | SwiftPackage/Sources/AssessmentModelUI/ViewModels/NodeState.swift:141-143 | the copy is the last entry with the identifier when that entry has the wanted type; nothing when no entry has the identifier or the last one has another type |
| `Results.CopyResultAfterAppend` | SwiftPackage/Sources/AssessmentModelUI/ViewModels/NodeState.swift:141-143 | after recording one more entry, a copy for its identifier comes from it and a copy for any other identifier is unchanged |
| `Results.CopyResultIgnoresEarlierEntries` | SwiftPackage/Sources/AssessmentModelUI/ViewModels/NodeState.swift:142 | for every history: when the last entry with the identifier fails the cast, the copy is nothing, even if an earlier entry with that identifier would pass it |
| `Results.AnswerResult.Snapshot` | SwiftPackage/Sources/AssessmentModelUI/ViewModels/NodeState.swift:142 | the deep copy of an answer result holds its identifier, answer and dates |
| `Results.StepResult.Snapshot` | SwiftPackage/Sources/AssessmentModelUI/ViewModels/NodeState.swift:142 | the deep copy of a plain step result holds its identifier and dates |
| `Results.AnswerResult.Restore` | SwiftPackage/Sources/AssessmentModelUI/ViewModels/NodeState.swift:142 | a copied answer materialises as an object whose snapshot is the copy |
| `Results.AnswerResult.Instantiate` | SwiftPackage/Sources/AssessmentModelUI/ViewModels/NodeState.swift:129 | a fresh answer result has the question's identifier and no answer |
| `Results.StepResult.Instantiate` | SwiftPackage/Sources/AssessmentModelUI/ViewModels/NodeState.swift:99 | a fresh step result has the step's identifier |
| `Results.AssessmentResult.Instantiate` | SwiftPackage/Sources/AssessmentModelUI/ViewModels/NodeState.swift:80 | a fresh assessment result has the assessment's identifier and version, an empty history and no end date |
| `Results.AssessmentResult.CopyAnswerResult` | SwiftPackage/Sources/AssessmentModelUI/ViewModels/NodeState.swift:141-143 | returns nothing exactly when there is no answer to copy, else a fresh object holding the copied answer |
| `NodeStates.QuestionStep.AsStep` | SwiftPackage/Sources/AssessmentModelUI/ViewModels/NodeState.swift:113 | a question seen as a step keeps its identifier and is a content node with its texts |
| `NodeStates.HeaderOf` | SwiftPackage/Sources/AssessmentModelUI/ViewModels/NodeState.swift:132-134 | the header shows exactly the declared texts, in order, each once; the subtitle slot is filled only under a declared title and only with the subtitle; the detail slot shows only the detail; with no text the title is empty |
| `NodeStates.HeaderSlots` | SwiftPackage/Sources/AssessmentModelUI/ViewModels/NodeState.swift:132-134 | the title is the first declared text or empty; the subtitle is absent without a title; the detail is absent without a title and a subtitle |
| `NodeStates.QuestionState.constructor` | SwiftPackage/Sources/AssessmentModelUI/ViewModels/NodeState.swift:127-137 | a supplied answer result is reused with its answer kept, else a fresh unanswered one is made; either way it is stamped started at `now`; the header follows `HeaderOf`; no answer is selected; `canPause` and the skip text are kept |
| `NodeStates.QuestionState.PresentedStep` | SwiftPackage/Sources/AssessmentModelUI/ViewModels/NodeState.swift:113 | the step presented is the question |
| `NodeStates.QuestionState.PresentedNode` | SwiftPackage/Sources/AssessmentModelUI/ViewModels/NodeState.swift:52-54 | the node of a step state is its step |
| `NodeStates.QuestionState.RecordedResult` | SwiftPackage/Sources/AssessmentModelUI/ViewModels/NodeState.swift:114 | the result is the answer result |
| `NodeStates.InstructionState.constructor` | SwiftPackage/Sources/AssessmentModelUI/ViewModels/NodeState.swift:97-108 | the result is always fresh; the texts are the step's own when it is a content node and absent otherwise |
| `NodeStates.InstructionState.PresentedNode` | SwiftPackage/Sources/AssessmentModelUI/ViewModels/NodeState.swift:52-54 | the node of an instruction state is its step |
| `NodeStates.InstructionState.RecordedResult` | SwiftPackage/Sources/AssessmentModelUI/ViewModels/NodeState.swift:95 | the result is the instruction's own result |
| `NodeStates.AssessmentState.constructor` | SwiftPackage/Sources/AssessmentModelUI/ViewModels/NodeState.swift:78-83 | a restored result is continued with its history, run identifier and end date kept, else a fresh one is made; either way its start date is re-stamped; the run is neither finished nor showing pause actions |
| `NodeStates.AssessmentState.BranchNode` | SwiftPackage/Sources/AssessmentModelUI/ViewModels/NodeState.swift:67 | the branch node is the assessment |
| `NodeStates.AssessmentState.BranchNodeResult` | SwiftPackage/Sources/AssessmentModelUI/ViewModels/NodeState.swift:68 | the branch-node result is the assessment result |
| `NodeStates.AssessmentState.PresentedNode` | SwiftPackage/Sources/AssessmentModelUI/ViewModels/NodeState.swift:61-62 | the node of a branch state is its branch node |
| `NodeStates.AssessmentState.ResultAsWritten` | SwiftPackage/Sources/AssessmentModelUI/ViewModels/NodeState.swift:63 | the self-referential branch-state result yields nothing after any number of unfoldings |
| `NodeStates.AssessmentState.RecordedResult` | SwiftPackage/Sources/AssessmentModelUI/ViewModels/NodeState.swift:63 | the result of a branch state is its branch-node result |

## Left out

- Image loading for instructions (`NodeState.swift:104-106`) and bundle resolution (`NodeState.swift:146-149`). Both are resource loading.
- The navigator field of the assessment state (`NodeState.swift:76`). NodeState.swift never assigns `navigator`.
- `@Published` change notification and the in-place updates that views make to the published fields. This is observation plumbing in the presentation layer.
- The skip-step text is an opaque optional string here. It is a SwiftUI `Text` in the source.
- Codable encoding of a button type. It goes through the raw value, whose round trips are proved, so the container wiring is not modelled.
- Answer values with floating-point numbers. `JsonValue` has no number case.
- `asyncActionResults` of a branch-node result. No modelled operation reads or writes it.
- Nested branch-node results inside a step history. History entries are answer results or plain step results only.
- `copyResult(with:)` for result types other than "any result", an answer result or a plain result.

- CopyResult, LastIndexWith: identifiers are compared code point by code point. Swift's `String` equality also matches identifiers that are canonically equivalent but encoded differently, for example a precomposed `é` and `e` followed by a combining acute accent. The model does no Unicode normalisation. The button-type decoder is unaffected, because no other string is canonically equivalent to one of the six ASCII navigation names.
- The declared answer type of an answer result. No modelled operation reads it, so `AnswerValue` holds only the answer value and its dates.

## Findings

| source | as written | input that shows it | evidently intended | confidence | as-written member | corrected member |
|---|---|---|---|---|---|---|
| SwiftPackage/Sources/AssessmentModelUI/ViewModels/NodeState.swift:63 | the branch-state `result` property returns `result`, which is itself | reading `result` of any `AssessmentState` recurses without end | return `branchNodeResult` | high (not executed) | `NodeStates.AssessmentState.ResultAsWritten` | `NodeStates.AssessmentState.RecordedResult` |
