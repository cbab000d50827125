/** App.tsx: the session state machine behind the two screens.

    The component keeps four pieces of state (the selected problem, the practice
    text, the application state and the last review result) and overwrites them from
    six handlers and one effect. `Snapshot` is that state as a value and the
    `After...` functions are the handlers, each together with the problem-change
    effect it triggers and with the affordance that lets the user fire it (a button
    that is disabled or not rendered fires nothing). `Session` is the component as
    an object with one method per handler; each method is proved to perform the
    transition of its function.

    The awaited `reviewUserCode` call splits a submit in two: `BeginSubmit` runs up
    to the `await` and yields the arguments the call captured, and `CompleteSubmit`
    runs the rest when the call settles, whatever happened in between. */
module App {
  import opened Types
  import JsString
  import GeminiService
  import EditorArea
  import Catalog

  /** The four `useState` values. */
  datatype Snapshot = Snapshot(
    selectedProblem: Option<Problem>,
    userCode: string,
    appState: AppState,
    reviewResult: Option<CodeReviewResult>)

  /** The state before any action: the menu screen. */
  const Initial := Snapshot(None, "", IDLE, None)

  /** The arguments an accepted submit passes to `reviewUserCode`: the problem and
      text of that moment, whatever the session holds later. */
  datatype Submission = Submission(problem: Problem, userCode: string)

  /** `!text.trim()`: nothing but whitespace. */
  predicate IsBlank(text: string) {
    JsString.Trim(text) == ""
  }

  /** The workspace screen (editor, toolbar, back button, review panel) is rendered
      only while a problem is selected; otherwise the menu is. */
  predicate InWorkspace(s: Snapshot) {
    s.selectedProblem.Some?
  }

  /** The problem-change effect, run after a handler moved `selectedProblem` away
      from `previous`: a newly selected problem restores its boilerplate, IDLE and no
      result; a cleared selection or an unchanged one does nothing. Problems are
      compared as values; the catalog's records have distinct ids, so this is the
      reference comparison React makes on them. */
  function ProblemEffect(previous: Option<Problem>, s: Snapshot): (t: Snapshot)
    ensures t.selectedProblem == s.selectedProblem
    ensures s.selectedProblem.Some? && s.selectedProblem != previous ==>
              t.userCode == s.selectedProblem.value.boilerplate && t.appState == IDLE && t.reviewResult == None
    ensures s.selectedProblem.None? || s.selectedProblem == previous ==> t == s
  {
    if s.selectedProblem != previous && s.selectedProblem.Some? then
      s.(userCode := s.selectedProblem.value.boilerplate, appState := IDLE, reviewResult := None)
    else s
  }

  /** The condition under which `handleSelectProblem` asks for a confirmation. */
  predicate SelectNeedsConfirm(s: Snapshot)
    ensures SelectNeedsConfirm(s) <==>
              InWorkspace(s) && s.userCode != s.selectedProblem.value.boilerplate &&
              !JsString.AllWhitespace(s.userCode) && s.appState != REVIEWED
  {
    s.selectedProblem.Some? && s.userCode != s.selectedProblem.value.boilerplate &&
    !IsBlank(s.userCode) && s.appState != REVIEWED
  }

  /** `handleSelectProblem(problem)` and its effect; `confirmed` is the answer the
      dialog would give, consulted only when it is shown. */
  function AfterSelect(s: Snapshot, problem: Problem, confirmed: bool): (t: Snapshot)
    ensures SelectNeedsConfirm(s) && !confirmed ==> t == s
    ensures t == s || t.selectedProblem == Some(problem)
    ensures t.appState == s.appState || t.appState == IDLE
    ensures !(SelectNeedsConfirm(s) && !confirmed) && s.selectedProblem != Some(problem) ==>
              t == Snapshot(Some(problem), problem.boilerplate, IDLE, None)
    ensures s.selectedProblem == Some(problem) ==> t == s
  {
    if SelectNeedsConfirm(s) && !confirmed then s
    else ProblemEffect(s.selectedProblem, s.(selectedProblem := Some(problem)))
  }

  /** The condition under which `handleReturnToMenu` asks for a confirmation; with
      no problem selected `selectedProblem?.boilerplate` is undefined, which differs
      from every text. */
  predicate ReturnNeedsConfirm(s: Snapshot)
    ensures ReturnNeedsConfirm(s) <==>
              (!InWorkspace(s) || s.userCode != s.selectedProblem.value.boilerplate) &&
              !JsString.AllWhitespace(s.userCode) && s.appState != REVIEWED
  {
    (s.selectedProblem.None? || s.userCode != s.selectedProblem.value.boilerplate) &&
    !IsBlank(s.userCode) && s.appState != REVIEWED
  }

  /** The back button (workspace only): `handleReturnToMenu` and its effect. */
  function AfterReturnToMenu(s: Snapshot, confirmed: bool): (t: Snapshot)
    ensures t.userCode == s.userCode && t.appState == s.appState && t.reviewResult == s.reviewResult
    ensures t.selectedProblem == s.selectedProblem || t.selectedProblem == None
  {
    if !InWorkspace(s) || (ReturnNeedsConfirm(s) && !confirmed) then s
    else ProblemEffect(s.selectedProblem, s.(selectedProblem := None))
  }

  /** `handleReset`: the dialog is shown whenever a problem is selected, and an
      accepted reset restores the boilerplate, IDLE and no result. */
  function AfterReset(s: Snapshot, confirmed: bool): (t: Snapshot)
    ensures t.selectedProblem == s.selectedProblem
    ensures t == s || (s.selectedProblem.Some? && t.userCode == s.selectedProblem.value.boilerplate &&
                       t.appState == IDLE && t.reviewResult == None)
  {
    if s.selectedProblem.Some? && confirmed then
      s.(userCode := s.selectedProblem.value.boilerplate, appState := IDLE, reviewResult := None)
    else s
  }

  /** The submit button is disabled while ANALYZING. */
  predicate SubmitEnabled(s: Snapshot) {
    s.appState != ANALYZING
  }

  /** The review call a click on submit issues: none when the button is disabled, the
      text is blank or no problem is selected (the early return of `handleSubmit`). */
  function SubmitCall(s: Snapshot): (r: Option<Submission>)
    ensures r.Some? <==> SubmitEnabled(s) && !JsString.AllWhitespace(s.userCode) && s.selectedProblem.Some?
    ensures r.Some? ==> r.value.problem == s.selectedProblem.value && r.value.userCode == s.userCode
  {
    if !SubmitEnabled(s) || IsBlank(s.userCode) || s.selectedProblem.None? then None
    else Some(Submission(s.selectedProblem.value, s.userCode))
  }

  /** `handleSubmit` up to the `await`: an issued call sets ANALYZING. */
  function AfterBeginSubmit(s: Snapshot): (t: Snapshot)
    ensures t.selectedProblem == s.selectedProblem && t.userCode == s.userCode && t.reviewResult == s.reviewResult
    ensures t.appState == ANALYZING || t == s
    ensures t != s ==> SubmitCall(s).Some?
  {
    if SubmitCall(s).Some? then s.(appState := ANALYZING) else s
  }

  /** `handleSubmit` after the `await`: a resolved call stores its value and sets
      REVIEWED, a rejected one sets ERROR. Nothing checks that the session still
      shows the problem the call was made for. */
  function AfterComplete(s: Snapshot, settled: GeminiService.Settled): (t: Snapshot)
    ensures t.selectedProblem == s.selectedProblem && t.userCode == s.userCode
    ensures t.appState == ERROR <==> settled.Rejected?
    ensures t.appState != ERROR ==> t.appState == REVIEWED && t.reviewResult == settled.review
    ensures t.appState == ERROR ==> t.reviewResult == s.reviewResult
  {
    match settled
    case Resolved(review) => s.(reviewResult := review, appState := REVIEWED)
    case Rejected(_) => s.(appState := ERROR)
  }

  /** ReviewPanel renders (and so offers its close button) only in REVIEWED with a
      non-null result. */
  predicate PanelVisible(status: AppState, result: Option<CodeReviewResult>)
    ensures PanelVisible(status, result) <==> status == REVIEWED && result != None
  {
    status == REVIEWED && result.Some?
  }

  /** The panel's `onClose`: back to IDLE; the result stays stored. */
  function AfterClose(s: Snapshot): (t: Snapshot)
    ensures t.selectedProblem == s.selectedProblem && t.userCode == s.userCode && t.reviewResult == s.reviewResult
    ensures t.appState == (if InWorkspace(s) && PanelVisible(s.appState, s.reviewResult) then IDLE else s.appState)
  {
    if InWorkspace(s) && PanelVisible(s.appState, s.reviewResult) then s.(appState := IDLE) else s
  }

  /** The practice editor (workspace only) is disabled while ANALYZING. */
  predicate EditorEnabled(s: Snapshot) {
    InWorkspace(s) && s.appState != ANALYZING
  }

  /** A change event of the practice editor, forwarded to `setUserCode`. */
  function AfterEdit(s: Snapshot, text: string): (t: Snapshot)
    ensures t.selectedProblem == s.selectedProblem && t.appState == s.appState && t.reviewResult == s.reviewResult
    ensures t.userCode == if EditorEnabled(s) then text else s.userCode
  {
    if !EditorEnabled(s) then s
    else match EditorArea.HandleChange(false, text)
      case Some(value) => s.(userCode := value)
      case None => s
  }

  /** A key press in the practice editor, whose text is `userCode`. */
  function AfterKeyDown(s: Snapshot, key: string, selectionStart: nat, selectionEnd: nat): (t: Snapshot)
    ensures t.selectedProblem == s.selectedProblem && t.appState == s.appState && t.reviewResult == s.reviewResult
    ensures t.userCode != s.userCode ==> EditorEnabled(s) && key == "Tab"
  {
    if !EditorEnabled(s) then s
    else match EditorArea.HandleKeyDown(false, key, s.userCode, selectionStart, selectionEnd)
      case Some(edit) => s.(userCode := edit.newValue)
      case None => s
  }

  /** Everything that can happen to the session: the user's actions, and a review
      call settling as `reviewUserCode` decides from the environment, the captured
      arguments, the remote service and the parser. */
  datatype Action =
    | SelectProblem(problem: Problem, confirmed: bool)
    | ReturnToMenu(confirmed: bool)
    | Reset(confirmed: bool)
    | Submit
    | Complete(env: GeminiService.Env, submission: Submission,
               remote: GeminiService.GenerateRequest -> GeminiService.GenerateOutcome,
               parse: string -> GeminiService.ParseOutcome)
    | Close
    | Edit(text: string)
    | KeyDown(key: string, selectionStart: nat, selectionEnd: nat)

  /** How a settled review call ends. */
  function Settle(a: Action): GeminiService.Settled
    requires a.Complete?
  {
    GeminiService.ReviewUserCode(a.env, a.submission.problem, a.submission.userCode, a.remote, a.parse).settled
  }

  function Step(s: Snapshot, a: Action): Snapshot {
    match a
    case SelectProblem(problem, confirmed) => AfterSelect(s, problem, confirmed)
    case ReturnToMenu(confirmed) => AfterReturnToMenu(s, confirmed)
    case Reset(confirmed) => AfterReset(s, confirmed)
    case Submit => AfterBeginSubmit(s)
    case Complete(_, _, _, _) => AfterComplete(s, Settle(a))
    case Close => AfterClose(s)
    case Edit(text) => AfterEdit(s, text)
    case KeyDown(key, selectionStart, selectionEnd) => AfterKeyDown(s, key, selectionStart, selectionEnd)
  }

  function Run(s: Snapshot, actions: seq<Action>): Snapshot
    decreases |actions|
  {
    if actions == [] then s else Run(Step(s, actions[0]), actions[1..])
  }

  /** The component, with its four state fields and one method per handler. */
  class Session {
    var selectedProblem: Option<Problem>
    var userCode: string
    var appState: AppState
    var reviewResult: Option<CodeReviewResult>

    function State(): Snapshot
      reads this
    {
      Snapshot(selectedProblem, userCode, appState, reviewResult)
    }

    /** The initial `useState` values. */
    constructor ()
      ensures State() == Initial
    {
      selectedProblem := None;
      userCode := "";
      appState := IDLE;
      reviewResult := None;
    }

    /** The effect keyed on `selectedProblem`, after a handler changed it. */
    method RunProblemEffect(previous: Option<Problem>)
      modifies this
      ensures State() == ProblemEffect(previous, old(State()))
    {
      if selectedProblem != previous && selectedProblem.Some? {
        userCode := selectedProblem.value.boilerplate;
        appState := IDLE;
        reviewResult := None;
      }
    }

    /** `handleSelectProblem`; `asked` tells whether the dialog was shown. */
    method SelectProblem(problem: Problem, confirmed: bool) returns (asked: bool)
      modifies this
      ensures asked == SelectNeedsConfirm(old(State()))
      ensures State() == AfterSelect(old(State()), problem, confirmed)
    {
      asked := selectedProblem.Some? && userCode != selectedProblem.value.boilerplate &&
               JsString.Trim(userCode) != "" && appState != REVIEWED;
      if asked && !confirmed {
        return;
      }
      var previous := selectedProblem;
      selectedProblem := Some(problem);
      RunProblemEffect(previous);
    }

    /** The back button and `handleReturnToMenu`. */
    method ReturnToMenu(confirmed: bool) returns (asked: bool)
      modifies this
      ensures asked == (InWorkspace(old(State())) && ReturnNeedsConfirm(old(State())))
      ensures State() == AfterReturnToMenu(old(State()), confirmed)
    {
      if selectedProblem.None? {
        return false;
      }
      asked := (selectedProblem.None? || userCode != selectedProblem.value.boilerplate) &&
               JsString.Trim(userCode) != "" && appState != REVIEWED;
      if asked && !confirmed {
        return;
      }
      var previous := selectedProblem;
      selectedProblem := None;
      RunProblemEffect(previous);
    }

    /** `handleReset`. */
    method Reset(confirmed: bool) returns (asked: bool)
      modifies this
      ensures asked == old(selectedProblem).Some?
      ensures State() == AfterReset(old(State()), confirmed)
    {
      asked := selectedProblem.Some?;
      if asked && confirmed {
        userCode := selectedProblem.value.boilerplate;
        appState := IDLE;
        reviewResult := None;
      }
    }

    /** A click on submit and `handleSubmit` up to the `await`; `call` holds the
      arguments of the review call it issued. */
    method BeginSubmit() returns (call: Option<Submission>)
      modifies this
      ensures call == SubmitCall(old(State()))
      ensures State() == AfterBeginSubmit(old(State()))
    {
      if appState == ANALYZING || JsString.Trim(userCode) == "" || selectedProblem.None? {
        return None;
      }
      appState := ANALYZING;
      call := Some(Submission(selectedProblem.value, userCode));
    }

    /** `handleSubmit` after the `await`. */
    method CompleteSubmit(settled: GeminiService.Settled)
      modifies this
      ensures State() == AfterComplete(old(State()), settled)
    {
      match settled {
        case Resolved(review) =>
          reviewResult := review;
          appState := REVIEWED;
        case Rejected(_) =>
          appState := ERROR;
      }
    }

    /** The review panel's close button. */
    method Close()
      modifies this
      ensures State() == AfterClose(old(State()))
    {
      if selectedProblem.Some? && appState == REVIEWED && reviewResult.Some? {
        appState := IDLE;
      }
    }

    /** A change event of the practice editor. */
    method Edit(text: string)
      modifies this
      ensures State() == AfterEdit(old(State()), text)
    {
      if selectedProblem.Some? && appState != ANALYZING {
        var forwarded := EditorArea.HandleChange(false, text);
        if forwarded.Some? {
          userCode := forwarded.value;
        }
      }
    }

    /** A key press in the practice editor; `caret` is the selection position the
      deferred callback writes, when there is one. */
    method KeyDown(key: string, selectionStart: nat, selectionEnd: nat) returns (caret: Option<nat>)
      modifies this
      ensures State() == AfterKeyDown(old(State()), key, selectionStart, selectionEnd)
      ensures caret.Some? <==> EditorEnabled(old(State())) && key == "Tab"
      ensures caret.Some? ==> caret.value == selectionStart + 4
    {
      caret := None;
      if selectedProblem.Some? && appState != ANALYZING {
        var edit := EditorArea.HandleKeyDown(false, key, userCode, selectionStart, selectionEnd);
        if edit.Some? {
          userCode := edit.value.newValue;
          caret := Some(edit.value.caret);
        }
      }
    }
  }

  // ----- Properties of the transitions -----

  /** Submit issues no call and changes nothing while ANALYZING, with a blank text,
      or without a selected problem; otherwise it issues one. */
  lemma SubmitIgnored(s: Snapshot)
    ensures SubmitCall(s).None? <==> s.appState == ANALYZING || IsBlank(s.userCode) || s.selectedProblem.None?
    ensures SubmitCall(s).None? ==> AfterBeginSubmit(s) == s
  {
  }

  /** An accepted submit calls the service with the selected problem and the
      current text, sets ANALYZING, and leaves the text, the selection and the
      previous result as they were until the call settles. */
  lemma SubmitAccepted(s: Snapshot)
    requires s.appState != ANALYZING && !JsString.AllWhitespace(s.userCode) && s.selectedProblem.Some?
    ensures SubmitCall(s).Some? && SubmitCall(s).value == Submission(s.selectedProblem.value, s.userCode)
    ensures AfterBeginSubmit(s) == Snapshot(s.selectedProblem, s.userCode, ANALYZING, s.reviewResult)
  {
  }

  /** A resolved call stores its value and sets REVIEWED; a rejected call sets ERROR
      and keeps the previous result. Neither touches the selection or the text, so a
      result is applied to whatever problem is selected by then. */
  lemma CompletionApplied(s: Snapshot, settled: GeminiService.Settled)
    ensures var t := AfterComplete(s, settled);
            t.selectedProblem == s.selectedProblem && t.userCode == s.userCode &&
            (settled.Resolved? ==> t.appState == REVIEWED && t.reviewResult == settled.review) &&
            (settled.Rejected? ==> t.appState == ERROR && t.reviewResult == s.reviewResult)
  {
  }

  /** Selecting a problem other than the current one, when no dialog is needed or
      it is accepted, starts that problem afresh. */
  lemma SelectOtherProblem(s: Snapshot, problem: Problem, confirmed: bool)
    requires s.selectedProblem != Some(problem)
    requires confirmed || !SelectNeedsConfirm(s)
    ensures AfterSelect(s, problem, confirmed) == Snapshot(Some(problem), problem.boilerplate, IDLE, None)
  {
  }

  /** Selecting the problem already selected changes nothing: the effect does not
      run, so neither the text nor the state nor the result is reset. */
  lemma SelectSameProblem(s: Snapshot, problem: Problem, confirmed: bool)
    requires s.selectedProblem == Some(problem)
    ensures AfterSelect(s, problem, confirmed) == s
  {
  }

  /** Declining a dialog leaves every field as it was. */
  lemma ConfirmDeclined(s: Snapshot, problem: Problem)
    ensures SelectNeedsConfirm(s) ==> AfterSelect(s, problem, false) == s
    ensures ReturnNeedsConfirm(s) ==> AfterReturnToMenu(s, false) == s
    ensures AfterReset(s, false) == s
  {
  }

  /** On the workspace screen both navigation dialogs are asked under the same
      condition: edited, non-blank, not yet reviewed text. */
  lemma NavigationDialogsAgree(s: Snapshot)
    requires InWorkspace(s)
    ensures ReturnNeedsConfirm(s) <==> SelectNeedsConfirm(s)
  {
  }

  /** Going back to the menu only clears the selection: the text, the state and the
      result stay, since the effect does nothing for a cleared selection. */
  lemma ReturnToMenuKeepsWork(s: Snapshot, confirmed: bool)
    requires InWorkspace(s)
    requires confirmed || !ReturnNeedsConfirm(s)
    ensures AfterReturnToMenu(s, confirmed) == Snapshot(None, s.userCode, s.appState, s.reviewResult)
  {
  }

  /** Going back to the menu and choosing the same problem again does reset it: to
      the effect that is a change of problem. */
  lemma ReturnThenReselectResets(s: Snapshot, confirmed: bool)
    requires InWorkspace(s)
    requires confirmed || !ReturnNeedsConfirm(s)
    ensures var p := s.selectedProblem.value;
            AfterSelect(AfterReturnToMenu(s, confirmed), p, true) == Snapshot(Some(p), p.boilerplate, IDLE, None)
  {
  }

  /** An accepted reset restores the boilerplate, IDLE and no result and keeps the
      selection; without a problem or when declined it changes nothing. */
  lemma ResetRestores(s: Snapshot, confirmed: bool)
    ensures s.selectedProblem.Some? && confirmed ==>
              AfterReset(s, confirmed) == Snapshot(s.selectedProblem, s.selectedProblem.value.boilerplate, IDLE, None)
    ensures !(s.selectedProblem.Some? && confirmed) ==> AfterReset(s, confirmed) == s
  {
  }

  /** Closing the panel sets IDLE and keeps the stored result, which from then on is
      hidden: a result can outlive the REVIEWED state. */
  lemma CloseKeepsResult(s: Snapshot)
    requires InWorkspace(s) && PanelVisible(s.appState, s.reviewResult)
    ensures AfterClose(s) == s.(appState := IDLE)
    ensures AfterClose(s).reviewResult.Some? && !PanelVisible(AfterClose(s).appState, AfterClose(s).reviewResult)
  {
  }

  /** While ANALYZING, submit, typing and keys do nothing. */
  lemma AnalyzingLocksEditing(s: Snapshot, text: string, key: string, selectionStart: nat, selectionEnd: nat)
    requires s.appState == ANALYZING
    ensures SubmitCall(s).None? && AfterBeginSubmit(s) == s
    ensures AfterEdit(s, text) == s
    ensures AfterKeyDown(s, key, selectionStart, selectionEnd) == s
  {
  }

  /** Otherwise, in the workspace, a change event stores the editor's text as it is,
      and a Tab splices four spaces over the selection of the practice text. */
  lemma EditingStoresText(s: Snapshot, text: string, selectionStart: nat, selectionEnd: nat)
    requires EditorEnabled(s)
    requires selectionStart <= selectionEnd <= |s.userCode|
    ensures AfterEdit(s, text) == s.(userCode := text)
    ensures AfterKeyDown(s, "Tab", selectionStart, selectionEnd) ==
            s.(userCode := s.userCode[..selectionStart] + EditorArea.Indent + s.userCode[selectionEnd..])
  {
  }

  /** The panel shows only in REVIEWED with a stored result. A model answer of JSON
      `null` reaches REVIEWED with no result, and then the panel stays hidden. */
  lemma NullReviewHidesPanel(s: Snapshot)
    ensures PanelVisible(AfterComplete(s, GeminiService.Resolved(None)).appState,
                         AfterComplete(s, GeminiService.Resolved(None)).reviewResult) == false
    ensures AfterComplete(s, GeminiService.Resolved(None)).appState == REVIEWED
  {
  }

  /** A result that arrives after the learner moved to another problem is applied to
      that other problem's session: it ends REVIEWED, showing the old problem's
      review next to the new problem's boilerplate. */
  lemma StaleResultApplied(p: Problem, q: Problem, code: string, review: CodeReviewResult)
    requires p != q && !IsBlank(code)
    ensures var s0 := Snapshot(Some(p), code, IDLE, None);
            var s1 := AfterBeginSubmit(s0);
            var s2 := AfterSelect(s1, q, true);
            SubmitCall(s0) == Some(Submission(p, code)) &&
            s2 == Snapshot(Some(q), q.boilerplate, IDLE, None) &&
            AfterComplete(s2, GeminiService.Resolved(Some(review))) ==
              Snapshot(Some(q), q.boilerplate, REVIEWED, Some(review))
  {
    var s0 := Snapshot(Some(p), code, IDLE, None);
    assert SubmitCall(s0) == Some(Submission(p, code));
    var s1 := AfterBeginSubmit(s0);
    assert s1 == s0.(appState := ANALYZING);
    assert AfterSelect(s1, q, true) == Snapshot(Some(q), q.boilerplate, IDLE, None);
  }

  /** Moving to another problem while a call is outstanding re-enables submit, so a
      second call can be issued before the first one settles. */
  lemma SecondCallWhileFirstPending(p: Problem, q: Problem, code: string)
    requires p != q && !JsString.AllWhitespace(code) && !JsString.AllWhitespace(q.boilerplate)
    ensures var s1 := AfterBeginSubmit(Snapshot(Some(p), code, IDLE, None));
            s1.appState == ANALYZING &&
            SubmitCall(AfterSelect(s1, q, true)) == Some(Submission(q, q.boilerplate))
  {
  }

  /** Choosing binary-search from the menu shows its boilerplate in IDLE. */
  lemma SelectBinarySearch()
    ensures AfterSelect(Initial, Catalog.BinarySearch, false) ==
            Snapshot(Some(Catalog.BinarySearch), Catalog.BinarySearch.boilerplate, IDLE, None)
    ensures SubmitCall(AfterEdit(AfterSelect(Initial, Catalog.BinarySearch, false), "  \n\t")).None?
  {
    var s := AfterSelect(Initial, Catalog.BinarySearch, false);
    var blank := "  \n\t";
    assert JsString.AllWhitespace(blank) by {
      assert forall i :: 0 <= i < |blank| ==> blank[i] in {' ', '\n', '\t'};
    }
  }

  /** A settled review call ends in ERROR exactly when no access key is configured;
      with a key it ends in REVIEWED holding what the service resolved with. */
  lemma SettledReview(s: Snapshot, env: GeminiService.Env, submission: Submission,
                      remote: GeminiService.GenerateRequest -> GeminiService.GenerateOutcome,
                      parse: string -> GeminiService.ParseOutcome)
    ensures var run := GeminiService.ReviewUserCode(env, submission.problem, submission.userCode, remote, parse);
            var t := AfterComplete(s, run.settled);
            (t.appState == ERROR <==> GeminiService.GetAiClient(env).Err?) &&
            (GeminiService.GetAiClient(env).Ok? ==>
               t.appState == REVIEWED &&
               t.reviewResult == GeminiService.Receive(submission.problem, remote(run.sent.value), parse))
  {
  }

  /** A single step enters ERROR only by settling a review call made without a key. */
  lemma StepIntoError(s: Snapshot, a: Action)
    requires s.appState != ERROR && Step(s, a).appState == ERROR
    ensures a.Complete? && GeminiService.GetAiClient(a.env).Err?
  {
    if a.Complete? {
      assert Settle(a).Rejected?;
    }
  }

  /** Over any sequence of actions, the session can enter ERROR only through a review
      call made without an access key: every failure of the remote service itself
      is absorbed by the fallback result. */
  lemma {:induction false} ErrorOnlyFromMissingKey(s: Snapshot, actions: seq<Action>)
    requires s.appState != ERROR
    requires Run(s, actions).appState == ERROR
    ensures exists i :: 0 <= i < |actions| && actions[i].Complete? &&
                        GeminiService.GetAiClient(actions[i].env).Err?
    decreases |actions|
  {
    if actions != [] {
      var t := Step(s, actions[0]);
      assert Run(s, actions) == Run(t, actions[1..]);
      if t.appState == ERROR {
        StepIntoError(s, actions[0]);
      } else {
        ErrorOnlyFromMissingKey(t, actions[1..]);
        var i :| 0 <= i < |actions[1..]| && actions[1..][i].Complete? &&
                 GeminiService.GetAiClient(actions[1..][i].env).Err?;
        assert actions[i + 1] == actions[1..][i];
      }
    }
  }
}
