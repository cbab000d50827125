/** The records and enumerations of types.ts, plus the two wrappers the model uses
    for JavaScript's `null` and for a thrown error. */
module Types {

  /** `T | null` */
  datatype Option<T> = None | Some(value: T)

  /** A value, or the message of the error thrown instead. */
  datatype Result<T> = Ok(value: T) | Err(error: string)

  /** Difficulty (types.ts:1-5): a fixed ordered set of three labels. */
  datatype Difficulty = Easy | Medium | Hard

  /** AlgorithmProblem (types.ts:7-16): one immutable catalog record. */
  datatype Problem = Problem(
    id: string,
    title: string,
    category: string,
    difficulty: Difficulty,
    description: string,
    solutionCode: string,   // the reference implementation the learner clones
    boilerplate: string,    // the starting text of the practice editor
    testCases: seq<string>)

  /** CodeReviewResult (types.ts:18-25). `score` is a JavaScript number; the model keeps
      it an unbounded integer and, like the source, does not bound it. */
  datatype CodeReviewResult = CodeReviewResult(
    isCorrect: bool,
    score: int,
    timeComplexity: string,
    spaceComplexity: string,
    feedback: string,
    improvedCode: string)

  /** AppState (types.ts:27-32). */
  datatype AppState = IDLE | ANALYZING | REVIEWED | ERROR
}
