/** The interactive prompt `run` asks its archive question with (lines 54-60
    and 72 of cmd/gha/main.go). The prompt itself belongs to a terminal
    library; only what `run` relies on is modelled: a submitted line the
    validator rejects is asked for again, an accepted line is returned, and
    an error from the terminal (an interrupt, the end of input) is returned
    as the error of the run. */
module Prompting {
  import opened Wrappers
  import opened YesNo

  /** The error the prompt reports when the operator's input ends. */
  const InputClosed := Failure("^D")

  /** A prompt: its label (`caption`) and the validator every submitted
      line must pass. */
  datatype Prompt = Prompt(caption: string, validate: string -> Option<Failure>)

  /** The prompt `run` asks with: it validates with `StrToBool`. */
  const ArchivePrompt := Prompt("Archive", input => Validate(input))

  /** A submitted line the prompt's validator refuses. */
  predicate Rejected(p: Prompt, event: Result<string>) {
    event.Ok? && p.validate(event.value).Some?
  }

  /** One `prompt.Run()` reading the operator's `input` (one event per
      submitted line, or a terminal error) from position `from`. The second
      component is where the next run reads. */
  function PromptRun(p: Prompt, input: seq<Result<string>>, from: nat): (res: (Result<string>, nat))
    requires from <= |input|
    ensures from <= res.1 <= |input|
    ensures from < |input| ==> from < res.1
    ensures res.0.Ok? ==> p.validate(res.0.value) == None
    decreases |input| - from
  {
    if from == |input| then (Err(InputClosed), from)
    else match input[from]
      case Err(f) => (Err(f), from + 1)
      case Ok(line) =>
        if p.validate(line) == None then (Ok(line), from + 1) else PromptRun(p, input, from + 1)
  }

  /** What one run of the prompt consumes: every line before the last one it
      reads was rejected, and it returns the last event it read, or
      `InputClosed` when the input ran out with every remaining line
      rejected. */
  lemma {:induction false} PromptRunSpec(p: Prompt, input: seq<Result<string>>, from: nat)
    requires from <= |input|
    ensures var (answer, next) := PromptRun(p, input, from);
      && (forall i | from <= i < next - 1 :: Rejected(p, input[i]))
      && (|| (from < next && input[next - 1] == answer)
          || (next == |input| && answer == Err(InputClosed)
              && forall i | from <= i < |input| :: Rejected(p, input[i])))
    decreases |input| - from
  {
    if from < |input| && Rejected(p, input[from]) {
      PromptRunSpec(p, input, from + 1);
    }
  }

  /** What successive runs of the prompt return, reading `input` from
      `from` until it is used up. Every line among them passed the
      validator. */
  function Answers(p: Prompt, input: seq<Result<string>>, from: nat): (answers: seq<Result<string>>)
    requires from <= |input|
    ensures |answers| <= |input| - from
    ensures forall k | 0 <= k < |answers| :: answers[k].Ok? ==> p.validate(answers[k].value) == None
    decreases |input| - from
  {
    if from == |input| then []
    else
      var (answer, next) := PromptRun(p, input, from);
      [answer] + Answers(p, input, next)
  }

  /** The `k`-th run of the prompt (from 0) over the answers `answers`;
      once they are used up the prompt reports `InputClosed`. */
  function NthAnswer(answers: seq<Result<string>>, k: nat): Result<string> {
    if k < |answers| then answers[k] else Err(InputClosed)
  }

  /** Every answer the archive prompt returns parses: the check `run` makes
      with `StrToBool` after the prompt can never fail. */
  lemma AcceptedAnswersParse(input: seq<Result<string>>, k: nat)
    ensures var answer := NthAnswer(Answers(ArchivePrompt, input, 0), k);
      answer.Ok? ==> StrToBool(answer.value).Ok?
  {
  }

  /** Typing "x", then nothing, then "y" re-prompts twice and yields a yes. */
  lemma RepromptUntilValid()
    ensures Answers(ArchivePrompt, [Ok("x"), Ok(""), Ok("y")], 0) == [Ok("y")]
    ensures StrToBool("y") == Ok(true)
  {
    var input := [Ok("x"), Ok(""), Ok("y")];
    StrToBoolFirstNonSpace("x", 0);
    StrToBoolFirstNonSpace("y", 0);
    StrToBoolAllSpace("");
    assert PromptRun(ArchivePrompt, input, 2) == (Ok("y"), 3);
    assert PromptRun(ArchivePrompt, input, 1) == (Ok("y"), 3);
    assert PromptRun(ArchivePrompt, input, 0) == (Ok("y"), 3);
  }
}
