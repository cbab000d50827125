/** services/geminiService.ts: the key check, the review prompt, the request sent to
    the remote model, the fail-soft handling of its answer, and the hint.

    The remote call (`ai.models.generateContent`) and `JSON.parse` are not modelled
    as code: a review is given the remote service as a function from the request to
    its outcome, and the parser as a function from the response text to what it
    yields. Everything the service itself decides is modelled. */
module GeminiService {
  import opened Types

  /** The two environment sources of the access key, read in this order:
      `process.env.API_KEY` and `import.meta.env.VITE_API_KEY` (None: not set). */
  datatype Env = Env(processApiKey: Option<string>, viteApiKey: Option<string>)

  /** The client `new GoogleGenAI({ apiKey })` builds; only its key matters here. */
  datatype AiClient = AiClient(apiKey: string)

  /** What `generateContent` is asked for: the model, the prompt and the generation
      config (JSON output, the six required fields of the schema, temperature 0.1). */
  datatype GenerateRequest = GenerateRequest(
    apiKey: string,
    model: string,
    contents: string,
    responseMimeType: string,
    requiredFields: seq<string>,
    temperature: real)

  /** How the awaited `generateContent` settles: with a response whose `text` may be
      absent, or by throwing (network, quota, schema or any other error). */
  datatype GenerateOutcome = Responded(text: Option<string>) | Failed

  /** What `JSON.parse(responseText) as CodeReviewResult` yields: the text "null",
      a six-field object (taken as it is, without validation), or a SyntaxError. */
  datatype ParseOutcome = ParsedNull | ParsedReview(review: CodeReviewResult) | SyntaxError

  /** How the promise returned by `reviewUserCode` settles. A resolved value is a
      review or, when the model answered the JSON text "null", JavaScript `null`. */
  datatype Settled = Resolved(review: Option<CodeReviewResult>) | Rejected(message: string)

  /** One run of `reviewUserCode`: the request it sent (None: none was sent) and how
      its promise settled. */
  datatype ReviewRun = ReviewRun(sent: Option<GenerateRequest>, settled: Settled)

  const MissingKeyMessage := "API Key not found. Please set VITE_API_KEY environment variable."
  const ModelName := "gemini-2.5-flash"
  const JsonMimeType := "application/json"
  const RequiredFields := ["isCorrect", "score", "timeComplexity", "spaceComplexity", "feedback", "improvedCode"]
  const ReviewTemperature := 0.1
  const UnknownComplexity := "Unknown"
  const FallbackFeedback := "AI 분석 중 오류가 발생했습니다. 잠시 후 다시 시도해주세요."
  const HintText := "참조 코드를 자세히 읽고 흐름을 파악해보세요."

  /** JavaScript truthiness of an environment value: set and not the empty string. */
  predicate Truthy(v: Option<string>) {
    v.Some? && v.value != ""
  }

  /** `getAiClient`: `process.env.API_KEY || import.meta.env.VITE_API_KEY`, and a
      throw when that is falsy. The client exists exactly when one source holds a
      non-empty key, and the first source wins when both do. */
  function GetAiClient(env: Env): (r: Result<AiClient>)
    ensures r.Ok? <==> Truthy(env.processApiKey) || Truthy(env.viteApiKey)
    ensures r.Ok? ==> r.value.apiKey != ""
    ensures Truthy(env.processApiKey) ==> r == Ok(AiClient(env.processApiKey.value))
    ensures !Truthy(env.processApiKey) && Truthy(env.viteApiKey) ==> r == Ok(AiClient(env.viteApiKey.value))
    ensures r.Err? ==> r.error == MissingKeyMessage
  {
    var apiKey := if Truthy(env.processApiKey) then env.processApiKey else env.viteApiKey;
    if !Truthy(apiKey) then Err(MissingKeyMessage) else Ok(AiClient(apiKey.value))
  }

  // The fixed framing of the prompt template, cut at the three interpolations.

  const PromptIntro :=
    "\n" +
    "    You are a specialized \"Python Clone Coding Tutor\".\n" +
    "    The user is practicing by typing out a reference implementation of a standard algorithm in Python.\n" +
    "    \n" +
    "    Target Problem: "

  const PromptReferenceHeader :=
    "\n" +
    "    \n" +
    "    REFERENCE CODE (The user is supposed to clone this):\n" +
    "    "

  const PromptUserHeader :=
    "\n" +
    "    \n" +
    "    USER'S TYPED CODE:\n" +
    "    "

  const PromptGoal :=
    "\n" +
    "    \n" +
    "    YOUR GOAL:\n" +
    "    Evaluate if the user successfully cloned the code.\n" +
    "    - Check for PYTHON specifics: indentation (4 spaces), snake_case naming, type hints accuracy.\n" +
    "    - Logic MUST match the reference.\n" +
    "    - Check for typos that might break the code.\n" +
    "    - Comments in user code are optional but good.\n" +
    "    \n" +
    "    If the user's code is empty or completely wrong, give a low score.\n" +
    "    If the user's code is logically correct but very different from reference, give a medium score and explain that for this exercise, they should try to follow the reference pattern.\n" +
    "    If the user's code is a good clone, give a high score.\n" +
    "  "

  /** Where the title starts in a prompt. */
  function TitleAt(): nat { |PromptIntro| }

  /** Where the reference code starts in a prompt for a title of that length. */
  function SolutionAt(title: string): nat { |PromptIntro| + |title| + |PromptReferenceHeader| }

  /** Where the learner's code starts in a prompt for that title and reference code. */
  function UserCodeAt(title: string, solutionCode: string): nat {
    SolutionAt(title) + |solutionCode| + |PromptUserHeader|
  }

  /** The prompt template of `reviewUserCode`: the fixed introduction, then the title,
      then the whole reference code, then the learner's code, each verbatim and in
      that order, then the fixed grading instructions. Nothing else enters it. */
  function Prompt(title: string, solutionCode: string, userCode: string): (r: string)
    ensures |r| == UserCodeAt(title, solutionCode) + |userCode| + |PromptGoal|
    ensures r[..TitleAt()] == PromptIntro
    ensures r[TitleAt()..TitleAt() + |title|] == title
    ensures r[SolutionAt(title)..SolutionAt(title) + |solutionCode|] == solutionCode
    ensures r[UserCodeAt(title, solutionCode)..UserCodeAt(title, solutionCode) + |userCode|] == userCode
    ensures r[TitleAt() + |title|..SolutionAt(title)] == PromptReferenceHeader
    ensures r[SolutionAt(title) + |solutionCode|..UserCodeAt(title, solutionCode)] == PromptUserHeader
    ensures r[|r| - |PromptGoal|..] == PromptGoal
  {
    var r := PromptIntro + title + PromptReferenceHeader + solutionCode + PromptUserHeader + userCode + PromptGoal;
    TemplateSlices(PromptIntro, title, PromptReferenceHeader, solutionCode, PromptUserHeader, userCode, PromptGoal);
    assert SolutionAt(title) == TitleAt() + |title| + |PromptReferenceHeader|;
    assert UserCodeAt(title, solutionCode) == SolutionAt(title) + |solutionCode| + |PromptUserHeader|;
    r
  }

  /** Where each part of a three-hole template ends up in the filled-in text. */
  lemma TemplateSlices(p0: string, a: string, p1: string, b: string, p2: string, c: string, p3: string)
    ensures var r := p0 + a + p1 + b + p2 + c + p3;
            var bAt := |p0| + |a| + |p1|;
            var cAt := bAt + |b| + |p2|;
            |r| == cAt + |c| + |p3| &&
            r[..|p0|] == p0 && r[|p0|..|p0| + |a|] == a && r[|p0| + |a|..bAt] == p1 &&
            r[bAt..bAt + |b|] == b && r[bAt + |b|..cAt] == p2 &&
            r[cAt..cAt + |c|] == c && r[|r| - |p3|..] == p3
  {
  }

  /** Two prompts for the same problem are equal only for the same learner code: the
      prompt loses nothing of what the learner typed. */
  lemma PromptDeterminesUserCode(title: string, solutionCode: string, userCode1: string, userCode2: string)
    requires Prompt(title, solutionCode, userCode1) == Prompt(title, solutionCode, userCode2)
    ensures userCode1 == userCode2
  {
    var at := UserCodeAt(title, solutionCode);
    assert |userCode1| == |userCode2|;
    calc {
      userCode1;
      Prompt(title, solutionCode, userCode1)[at..at + |userCode1|];
      Prompt(title, solutionCode, userCode2)[at..at + |userCode2|];
      userCode2;
    }
  }

  /** The request `reviewUserCode` sends for a prompt with a client. */
  function Request(client: AiClient, prompt: string): (r: GenerateRequest)
    ensures r.apiKey == client.apiKey && r.contents == prompt
    ensures r.model == ModelName && r.responseMimeType == JsonMimeType
    ensures r.requiredFields == RequiredFields && r.temperature == ReviewTemperature
  {
    GenerateRequest(client.apiKey, ModelName, prompt, JsonMimeType, RequiredFields, ReviewTemperature)
  }

  /** The fallback result of the `catch` block: not correct, score 0, both
      complexities "Unknown", the fixed failure message, and the problem's reference
      code as the improved code. */
  function Fallback(problem: Problem): (r: CodeReviewResult)
    ensures !r.isCorrect && r.score == 0
    ensures r.timeComplexity == "Unknown" && r.spaceComplexity == "Unknown"
    ensures r.feedback == FallbackFeedback && r.improvedCode == problem.solutionCode
  {
    CodeReviewResult(false, 0, UnknownComplexity, UnknownComplexity, FallbackFeedback, problem.solutionCode)
  }

  /** True when the model's answer is unusable and the `catch` block runs: the call
      threw, the response text is absent or empty, or it is not JSON. */
  predicate Unusable(outcome: GenerateOutcome, parse: string -> ParseOutcome)
    ensures outcome.Failed? ==> Unusable(outcome, parse)
    ensures !Unusable(outcome, parse) <==>
              outcome.Responded? && outcome.text.Some? && outcome.text.value != "" &&
              !parse(outcome.text.value).SyntaxError?
  {
    match outcome
    case Failed => true
    case Responded(text) => text.None? || text.value == "" || parse(text.value).SyntaxError?
  }

  /** The `try` block after the request was built, with its `catch`: the value the
      promise resolves with. An unusable answer gives the fallback for the problem; a
      parsed answer is returned as it is, with no check or clamping of its score. */
  function Receive(problem: Problem, outcome: GenerateOutcome, parse: string -> ParseOutcome): (r: Option<CodeReviewResult>)
    ensures Unusable(outcome, parse) ==> r == Some(Fallback(problem))
    ensures !Unusable(outcome, parse) ==>
              outcome.Responded? && outcome.text.Some? &&
              (r == None <==> parse(outcome.text.value).ParsedNull?) &&
              (r != None ==> r.value == parse(outcome.text.value).review)
  {
    match outcome
    case Failed => Some(Fallback(problem))
    case Responded(text) =>
      if text.None? || text.value == "" then Some(Fallback(problem))
      else match parse(text.value)
        case SyntaxError => Some(Fallback(problem))
        case ParsedNull => None
        case ParsedReview(review) => Some(review)
  }

  /** `reviewUserCode(problem, userCode)`. Without a key it sends nothing and its
      promise rejects with the key message: the key check stands before the `try`.
      With a key it sends exactly one request, carrying the prompt built from the
      problem's title and reference code and the learner's code, and it never
      rejects: whatever the remote service does, the promise resolves. */
  function ReviewUserCode(env: Env, problem: Problem, userCode: string,
                          remote: GenerateRequest -> GenerateOutcome,
                          parse: string -> ParseOutcome): (r: ReviewRun)
    ensures r.sent.None? <==> GetAiClient(env).Err?
    ensures r.settled.Rejected? <==> GetAiClient(env).Err?
    ensures r.settled.Rejected? ==> r.settled.message == MissingKeyMessage
    ensures r.sent.Some? ==>
              r.sent.value == Request(GetAiClient(env).value, Prompt(problem.title, problem.solutionCode, userCode)) &&
              r.settled == Resolved(Receive(problem, remote(r.sent.value), parse))
  {
    match GetAiClient(env)
    case Err(message) => ReviewRun(None, Rejected(message))
    case Ok(client) =>
      var request := Request(client, Prompt(problem.title, problem.solutionCode, userCode));
      ReviewRun(Some(request), Resolved(Receive(problem, remote(request), parse)))
  }

  /** When the answer is unusable, the result is the fallback built from the problem
      alone: the learner's code never reaches it, and its improved code is the
      reference implementation. */
  lemma FailureGivesFallback(env: Env, problem: Problem, userCode: string,
                             remote: GenerateRequest -> GenerateOutcome, parse: string -> ParseOutcome)
    requires GetAiClient(env).Ok?
    requires Unusable(remote(ReviewUserCode(env, problem, userCode, remote, parse).sent.value), parse)
    ensures var r := ReviewUserCode(env, problem, userCode, remote, parse).settled;
            r.Resolved? && r.review.Some? &&
            !r.review.value.isCorrect && r.review.value.score == 0 &&
            r.review.value.timeComplexity == "Unknown" && r.review.value.spaceComplexity == "Unknown" &&
            r.review.value.feedback == FallbackFeedback &&
            r.review.value.improvedCode == problem.solutionCode
  {
  }

  /** An empty or absent response text counts as a failure, whatever the parser
      would have made of it. */
  lemma EmptyResponseIsFailure(problem: Problem, text: Option<string>, parse: string -> ParseOutcome)
    requires text.None? || text.value == ""
    ensures Receive(problem, Responded(text), parse) == Some(Fallback(problem))
  {
  }

  /** A parsed answer is passed on without validation: a score of 150 reaches the
      caller as it is. */
  lemma ScoreNotClamped(env: Env, problem: Problem, userCode: string, remote: GenerateRequest -> GenerateOutcome)
    requires GetAiClient(env).Ok?
    requires remote(ReviewUserCode(env, problem, userCode, remote, _ => SyntaxError).sent.value) == Responded(Some("{}"))
    ensures var parse := (t: string) => ParsedReview(CodeReviewResult(true, 150, "O(log n)", "O(1)", "", ""));
            var r := ReviewUserCode(env, problem, userCode, remote, parse).settled;
            r == Resolved(Some(CodeReviewResult(true, 150, "O(log n)", "O(1)", "", "")))
  {
  }

  /** `getHint`: the hint text is a constant. */
  function GetHint(problem: Problem): (r: string)
    ensures r == HintText
  {
    HintText
  }

  /** Every problem gets the same hint. */
  lemma HintIgnoresProblem(p: Problem, q: Problem)
    ensures GetHint(p) == GetHint(q) && GetHint(p) != ""
  {
  }
}
