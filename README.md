# gha archive review, modelled in Dafny

`cmd/gha` is a small tool for the operator of a GitHub account. It lists the
owner's public repositories page by page, sorted by last push, ten per page.
It skips forks and archived repositories and, for each of the others, asks on
the terminal whether to archive it. The answer is read through a prompt
labelled "Archive", which only accepts what `StrToBool` accepts. `StrToBool`
is the tool's yes/no parser: it lowercases the answer, trims white space and
looks at the first character only. Any failed listing call or prompt ends the
run with that error.

The model has four modules.

- `YesNo` (`yesno.dfy`) models `StrToBool` and the validator built on it as
  functions over `string`, with lemmas for what they mean.
- `Prompting` (`prompting.dfy`) models what `run` relies on from the terminal
  prompt.
  - A line the validator rejects is asked for again.
  - An accepted line is returned.
  - A terminal error is returned as the run's error.
- `Listing` (`listing.dfy`) holds the repository, page and listing-option
  values, plus `Filter`, the choice of which repositories are prompted.
  - `FetchCount` counts the listing calls the loop makes.
  - `Listed` gives what a range of replies lists; `Offered` gives which of
    those repositories are prompted.
- `Review` (`review.dfy`) models the two loops of `run` as imperative
  methods, `ReviewPage` (the inner loop over one page) and `Run` (the outer
  pagination loop).
  - Each method is proved equal to a recursive specification function:
    `ReviewFrom` and `RunFrom`.
  - Lemmas say what those functions mean: which calls are made, who is
    prompted and in which order, which decisions are taken, and how a run
    ends.

The collaborators are inputs.

- `replies[k]` is what the k-th listing call returns: a page of repositories
  plus the next page number, or an error.
- `answers[k]` is what the k-th run of the prompt returns.
- `Answers(ArchivePrompt, input, 0)` computes `answers` from the operator's
  typed lines.

`Wrappers` (`wrappers.dfy`) holds `Failure`, `Option` and `Result`. A Go
`error` is a `Failure` carrying its message.

Facts about the code that the model keeps:

- The two errors of `StrToBool` are "empty string not allowed" and "answer
  must be yes or no".
- The code lowercases before trimming; `YesNo.LowerTrimSpace` proves that
  this is the same as trimming first.
- The first listing call asks for page 0, Go's zero value for `opt.Page`.

## Model

| member | source | states |
|---|---|---|
| YesNo.StrToBool | cmd/gha/main.go:26-37 | its only errors are "empty string not allowed" and "answer must be yes or no" |
| YesNo.Lower | cmd/gha/main.go:27 | `strings.ToLower`: each character lowercased by `LowerChar`, on ASCII |
| YesNo.TrimSpace | cmd/gha/main.go:27 | `strings.TrimSpace`: leading and then trailing white space dropped |
| YesNo.Split | cmd/gha/main.go:27 | `strings.Split(x, "")`: one piece per character, in order |
| YesNo.StrToBoolAllSpace | cmd/gha/main.go:27-30 | the answer is refused as empty exactly when it is empty or made only of white space |
| YesNo.StrToBoolFirstNonSpace | cmd/gha/main.go:27-36 | otherwise the first non-space character, lowercased, decides: `y` gives true, `n` gives false, anything else is "answer must be yes or no" |
| YesNo.OnlyFirstCharacterMatters | cmd/gha/main.go:27-36 | two answers whose first non-space characters agree up to case parse alike |
| YesNo.CaseAndSpaceInsensitive | cmd/gha/main.go:27 | `StrToBool(Trim(Lower(s))) == StrToBool(s)` |
| YesNo.NormalizeIdempotent | cmd/gha/main.go:27 | lowercasing and trimming a second time changes nothing |
| YesNo.TrimSpaceIdempotent | cmd/gha/main.go:27 | trimming twice is trimming once |
| YesNo.TrimLeftSpec | cmd/gha/main.go:27 | the left trim drops a run of leading spaces and stops at the first non-space |
| YesNo.TrimRightSpec | cmd/gha/main.go:27 | the right trim drops a run of trailing spaces and stops at the last non-space |
| YesNo.TrimSpaceSpec | cmd/gha/main.go:27 | `strings.TrimSpace(s)` is a slice of `s` with only spaces outside it and non-spaces at its ends; it is empty exactly when `s` is all spaces and otherwise starts at the first non-space |
| YesNo.LowerChar | cmd/gha/main.go:27 | capitals become small letters 32 code points on; other characters are unchanged; spaces stay spaces |
| YesNo.LowerKeepsSpaces | cmd/gha/main.go:27 | lowercasing keeps the length, the positions of the spaces and the first non-space |
| YesNo.LowerIsLowered | cmd/gha/main.go:27 | a lowercased string has no capitals left |
| YesNo.LowerOfLowered | cmd/gha/main.go:27 | lowercasing a lowercase string changes nothing |
| YesNo.LowerTrimLeft | cmd/gha/main.go:27 | lowercasing and dropping leading spaces commute |
| YesNo.LowerTrimRight | cmd/gha/main.go:27 | lowercasing and dropping trailing spaces commute |
| YesNo.LowerTrimSpace | cmd/gha/main.go:27 | lowercasing then trimming, as the code does, equals trimming then lowercasing |
| YesNo.ExampleYes | cmd/gha/main.go:26-37 | `"Y"`, `"yes"` and `"yikes"` all give true |
| YesNo.ExampleIndentedNo | cmd/gha/main.go:26-37 | `"  no"` gives false |
| YesNo.ExampleEmpty | cmd/gha/main.go:28-30 | `""` and `" \t "` are refused as empty |
| YesNo.ExampleMaybe | cmd/gha/main.go:32-34 | `"maybe"` is refused as neither yes nor no |
| YesNo.Validate | cmd/gha/main.go:56-59 | the prompt's validator accepts exactly the answers `StrToBool` parses, and otherwise reports `StrToBool`'s error |
| Prompting.PromptRun | cmd/gha/main.go:54-72 | one run of the prompt moves forward through the input, and a line it returns passed the validator |
| Prompting.PromptRunSpec | cmd/gha/main.go:54-72 | one run skips only rejected lines; it returns the event it stopped at, or the end-of-input error when every remaining line was rejected |
| Prompting.Answers | cmd/gha/main.go:54-72 | successive runs of the prompt never return more answers than events typed, and every line among them passed the validator |
| Prompting.AcceptedAnswersParse | cmd/gha/main.go:56-80 | every line the archive prompt returns parses with `StrToBool` |
| Prompting.RepromptUntilValid | cmd/gha/main.go:54-72 | typing "x", "" and "y" re-prompts twice and then gives a yes |
| Listing.Filter | cmd/gha/main.go:68-69 | no more repositories are prompted than the page holds |
| Listing.FilterKeepsOnlyEligible | cmd/gha/main.go:68-69 | only repositories of the page that are neither forks nor archived are prompted |
| Listing.FilterKeepsEveryEligible | cmd/gha/main.go:68-69 | every repository of the page that is neither a fork nor archived is prompted |
| Listing.FilterAppend | cmd/gha/main.go:68-69 | filtering keeps the order: filtering a concatenation concatenates the filtered parts |
| Listing.FilterIdempotent | cmd/gha/main.go:68-69 | filtering a filtered page changes nothing |
| Listing.OnlyPlainRepositoriesPrompted | cmd/gha/main.go:68-69 | a page of a fork, an archived repository and a plain one yields the one prompt, for the plain one |
| Listing.FetchCount | cmd/gha/main.go:62-91 | the loop fetches up to and including the first reply that is an error or reports next page 0, or all the replies when none does |
| Listing.FetchCountIgnoresLaterReplies | cmd/gha/main.go:88-89 | replies after the first halting one never change how many calls are made |
| Listing.ThreePagesFetched | cmd/gha/main.go:88-91 | next-page values 2, 3, 0 mean exactly three listing calls |
| Listing.OfferedIsFilteredListing | cmd/gha/main.go:62-69 | the repositories a range of replies puts to the operator are exactly the eligible ones of everything those replies list, in listing order |
| Review.Parse | cmd/gha/main.go:72-80 | a prompt run comes to a decision exactly when it returned a line that `StrToBool` parses; otherwise it comes to the prompt's error or `StrToBool`'s |
| Review.ReviewFrom | cmd/gha/main.go:68-86 | the inner loop from a position on: skip ineligible repositories, prompt for each eligible one, stop at the first failing prompt run |
| Review.ReviewFromPrompted | cmd/gha/main.go:68-72 | the inner loop prompts for a prefix of the page's eligible repositories, in page order, and for all of them unless a prompt run fails |
| Review.ReviewFromDecisions | cmd/gha/main.go:72-80 | the decisions are the prompt runs' parsed answers, in order; a failing run ends the loop with its error and leaves its repository without a decision |
| Review.ReviewPage | cmd/gha/main.go:68-86 | the inner loop over one page computes `ReviewFrom` |
| Review.RunFrom | cmd/gha/main.go:62-94 | the outer loop from a call on: fetch, abort on an error, review the page, stop at next page 0, otherwise ask for that page next |
| Review.Run | cmd/gha/main.go:47-94 | the outer loop computes `RunFrom` from the initial options |
| Review.RunFromFetches | cmd/gha/main.go:62-91 | from any call on, no more listing calls are made than `FetchCount` says |
| Review.RunFromRequests | cmd/gha/main.go:47-91 | every call uses the fixed options; the first asks for the current page and each later one for the page the previous reply named as next |
| Review.RunFromCalls | cmd/gha/main.go:62-63 | calls are made only while replies remain |
| Review.RunFromPrompts | cmd/gha/main.go:62-72 | the repositories prompted form a prefix of those the fetched replies offer, in listing order |
| Review.RunFromComplete | cmd/gha/main.go:62-91 | when every prompted repository got a decision, all the repositories the fetched replies offer were prompted |
| Review.RunFromDecisions | cmd/gha/main.go:72-80 | the decisions are the prompt runs' parsed answers, in order, and at most the last prompted repository has none |
| Review.RunFromFinished | cmd/gha/main.go:88-94 | the loop finishes right after the first reply reporting next page 0, with every prompted repository decided |
| Review.RunFromExhausted | cmd/gha/main.go:62-91 | the replies run out only when none of them halts the loop |
| Review.RunFromAborted | cmd/gha/main.go:63-80 | an abort is either a failed listing call, the last call made, or a failing prompt run, the one for the last prompted repository, which is on the page of the last call made |
| Review.RunFromPromptFailurePage | cmd/gha/main.go:72-80 | after a failing prompt run no listing call is made: the earlier pages offer fewer repositories than were prompted |
| Review.RunCalls | cmd/gha/main.go:47-91 | the calls of a run use the fixed options, start at page 0, follow the next-page chain and stop at the first halting reply |
| Review.RunPrompts | cmd/gha/main.go:62-72 | the repositories prompted in a run form a prefix of those the fetched pages offer, and are all of them when no prompt run fails |
| Review.RunPromptsListed | cmd/gha/main.go:62-72 | the same, stated on the listing itself: the prompts never outnumber the repositories listed |
| Review.RunDecisions | cmd/gha/main.go:72-80 | each decision is what `StrToBool` makes of the answer given for it, in prompt order |
| Review.RunEnds | cmd/gha/main.go:63-94 | how a run ends: finished after the first reply with next page 0, out of replies, or aborted with the error of a failed call or of a failing prompt run on the page of the last call, with no call after it |
| Review.OnePageRun | cmd/gha/main.go:62-94 | one page holding a fork and a plain repository, answered "Yes", gives one call, one prompt and a finished run with decision true |
| Review.RefusedAnswerAborts | cmd/gha/main.go:72-91 | with two pages and the second answer "maybe", the run asks for pages 0 and 2 and aborts with "answer must be yes or no" |
| Review.ThreePagesRequested | cmd/gha/main.go:88-91 | with next-page values 2, 3, 0 and no failing prompt, the run asks for pages 0, 2 and 3 and finishes |
| Review.PromptAbortIsPromptError | cmd/gha/main.go:56-80 | with the archive prompt answering, a failing answer is always the prompt's own error |
| Review.ArchivePromptRunEnds | cmd/gha/main.go:56-80 | so with the archive prompt answering, the parse-error return after the prompt never ends a run |

## Left out

- `main`, flag parsing, reading `GITHUB_TOKEN` and the `log.Fatal` exit are process plumbing outside the loop.
- The OAuth token source and HTTP client construction are not modelled. The listing call is modelled only by its replies, a finite sequence given as input.
- Review.Run: the loop in the code has no page cap. The model is given finitely many replies and ends with `RepliesExhausted` when it would fetch past them. The lemmas say this happens only when no given reply halts the loop.
- The terminal prompt is modelled only by what `run` relies on. Its rendering, key handling and the exact text of its errors are left out; `Prompting.InputClosed` ("^D") stands for the error it returns at the end of input.
- The `fmt.Printf` summary of each repository and the `log.Printf("will archive")` line are output only. No archive call is made by the code.
- YesNo.Lower: `strings.ToLower` is modelled on ASCII letters only; other characters are left unchanged.
- YesNo.Split: Go splits by runes and replaces invalid UTF-8 bytes; here a string is a sequence of characters, one piece each.
- The repository's reaction-toggle command is not part of this model.
