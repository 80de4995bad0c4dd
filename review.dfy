/** The review loop of `run` in cmd/gha/main.go: list the owner's public
    repositories page by page, skip forks and archived ones, and ask for an
    archive decision on each of the others.

    The listing call and the prompt are collaborators and are given to the
    model as data: `replies[k]` is what the k-th listing call returns and
    `answers[k]` what the k-th run of the prompt returns. `ReviewFrom` and
    `RunFrom` say what the two loops compute, in terms of `decide(k)`: what
    the k-th run of the prompt comes to once `run` has parsed it, a decision
    or the error that ends the run. The lemmas after them say what that
    means. */
module Review {
  import opened Wrappers
  import opened YesNo
  import opened Prompting
  import opened Listing

  /** The prompt returned a line and `StrToBool` makes `decision` of it. */
  predicate Decides(answer: Result<string>, decision: bool) {
    answer.Ok? && StrToBool(answer.value) == Ok(decision)
  }

  /** Asking failed with `e`: the prompt returned the error `e`, or a line
      `StrToBool` refuses with `e`. */
  predicate Fails(answer: Result<string>, e: Failure) {
    answer == Err(e) || (answer.Ok? && StrToBool(answer.value) == Err(e))
  }

  /** What `run` makes of one run of the prompt: the prompt's error, or the
      line parsed by `StrToBool`. */
  function Parse(answer: Result<string>): (r: Result<bool>)
    ensures r.Ok? <==> answer.Ok? && StrToBool(answer.value).Ok?
    ensures r.Ok? ==> Decides(answer, r.value)
    ensures r.Err? ==> Fails(answer, r.error)
  {
    if answer.Err? then Err(answer.error) else StrToBool(answer.value)
  }

  /** What each run of the prompt comes to when the prompt returns
      `answers`. */
  function Decide(answers: seq<Result<string>>): nat -> Result<bool> {
    (k: nat) => Parse(NthAnswer(answers, k))
  }

  /** What the inner loop leaves behind: the repositories prompted, the
      decisions taken, and the error that stopped it, if any. */
  datatype Reviewed = Reviewed(prompted: seq<Repo>, decisions: seq<bool>, failure: Option<Failure>)

  /** `r` preceded by `prompted` and `decisions`. */
  function After(prompted: seq<Repo>, decisions: seq<bool>, r: Reviewed): Reviewed {
    Reviewed(prompted + r.prompted, decisions + r.decisions, r.failure)
  }

  /** The inner loop over `repos` from position `j` on, with `asked` runs of
      the prompt behind it. */
  function ReviewFrom(repos: seq<Repo>, j: nat, decide: nat -> Result<bool>, asked: nat): Reviewed
    requires j <= |repos|
    decreases |repos| - j
  {
    if j == |repos| then Reviewed([], [], None)
    else if !Eligible(repos[j]) then ReviewFrom(repos, j + 1, decide, asked)
    else match decide(asked)
      case Err(e) => Reviewed([repos[j]], [], Some(e))
      case Ok(d) => After([repos[j]], [d], ReviewFrom(repos, j + 1, decide, asked + 1))
  }

  /** The inner loop prompts for the eligible repositories from position
      `j` on, in page order, all of them unless an answer fails. */
  lemma {:induction false} ReviewFromPrompted(repos: seq<Repo>, j: nat, decide: nat -> Result<bool>, asked: nat)
    requires j <= |repos|
    ensures var r := ReviewFrom(repos, j, decide, asked);
      && r.prompted <= Filter(repos[j..])
      && (r.failure == None ==> r.prompted == Filter(repos[j..]))
    decreases |repos| - j
  {
    if j < |repos| {
      assert repos[j..] == [repos[j]] + repos[j + 1..];
      FilterAppend([repos[j]], repos[j + 1..]);
      if !Eligible(repos[j]) {
        ReviewFromPrompted(repos, j + 1, decide, asked);
      } else if decide(asked).Ok? {
        ReviewFromPrompted(repos, j + 1, decide, asked + 1);
      }
    }
  }

  /** The decisions of the inner loop are what the prompt runs come to, in
      order; every prompted repository gets one, except the last one when
      its run fails, and then the loop stops with that failure. */
  lemma {:induction false} ReviewFromDecisions(repos: seq<Repo>, j: nat, decide: nat -> Result<bool>, asked: nat)
    requires j <= |repos|
    ensures var r := ReviewFrom(repos, j, decide, asked);
      && (forall i | asked <= i < asked + |r.decisions| :: decide(i) == Ok(r.decisions[i - asked]))
      && (r.failure == None ==> |r.decisions| == |r.prompted|)
      && (r.failure.Some? ==>
            |r.decisions| + 1 == |r.prompted| && decide(asked + |r.decisions|) == Err(r.failure.value))
    decreases |repos| - j
  {
    if j < |repos| {
      if !Eligible(repos[j]) {
        ReviewFromDecisions(repos, j + 1, decide, asked);
      } else if decide(asked).Ok? {
        ReviewFromDecisions(repos, j + 1, decide, asked + 1);
      }
    }
  }

  /** The inner loop of `run` over one page's repositories, after `asked`
      earlier runs of the prompt. */
  method ReviewPage(repos: seq<Repo>, answers: seq<Result<string>>, asked: nat)
    returns (prompted: seq<Repo>, decisions: seq<bool>, failure: Option<Failure>)
    ensures Reviewed(prompted, decisions, failure) == ReviewFrom(repos, 0, Decide(answers), asked)
  {
    prompted, decisions, failure := [], [], None;
    var j := 0;
    while j < |repos|
      invariant 0 <= j <= |repos|
      invariant ReviewFrom(repos, 0, Decide(answers), asked)
        == After(prompted, decisions, ReviewFrom(repos, j, Decide(answers), asked + |decisions|))
    {
      var r := repos[j];
      if !r.fork && !r.archived {
        var answer := NthAnswer(answers, asked + |decisions|);
        var parsed := Parse(answer);
        prompted := prompted + [r];
        if parsed.Err? {
          failure := Some(parsed.error);
          return;
        }
        decisions := decisions + [parsed.value];
      }
      j := j + 1;
    }
  }

  /** What a run of the loop leaves behind: how it ended, the options of
      every listing call, the repositories prompted and the decisions
      taken. */
  datatype Trace = Trace(outcome: Outcome, requested: seq<ListOptions>, prompted: seq<Repo>, decisions: seq<bool>)

  /** `t` preceded by the given calls, prompts and decisions. */
  function Extend(requested: seq<ListOptions>, prompted: seq<Repo>, decisions: seq<bool>, t: Trace): Trace {
    Trace(t.outcome, requested + t.requested, prompted + t.prompted, decisions + t.decisions)
  }

  /** Extending twice is extending once by the concatenations. */
  lemma ExtendTwice(requested0: seq<ListOptions>, prompted0: seq<Repo>, decisions0: seq<bool>,
                    requested: seq<ListOptions>, prompted: seq<Repo>, decisions: seq<bool>, t: Trace)
    ensures Extend(requested0, prompted0, decisions0, Extend(requested, prompted, decisions, t))
      == Extend(requested0 + requested, prompted0 + prompted, decisions0 + decisions, t)
  {
    assert requested0 + (requested + t.requested) == (requested0 + requested) + t.requested;
    assert prompted0 + (prompted + t.prompted) == (prompted0 + prompted) + t.prompted;
    assert decisions0 + (decisions + t.decisions) == (decisions0 + decisions) + t.decisions;
  }

  /** The loop of `run` from listing call number `fetched` on, with `asked`
      runs of the prompt behind it and `opt` the options of the next call. */
  function RunFrom(replies: seq<Result<Page>>, decide: nat -> Result<bool>, fetched: nat, asked: nat, opt: ListOptions): Trace
    requires fetched <= |replies|
    decreases |replies| - fetched
  {
    if fetched == |replies| then Trace(RepliesExhausted, [], [], [])
    else match replies[fetched]
      case Err(e) => Trace(Aborted(e), [opt], [], [])
      case Ok(page) =>
        var r := ReviewFrom(page.repos, 0, decide, asked);
        if r.failure.Some? then Trace(Aborted(r.failure.value), [opt], r.prompted, r.decisions)
        else if page.nextPage == 0 then Trace(Finished, [opt], r.prompted, r.decisions)
        else Extend([opt], r.prompted, r.decisions,
          RunFrom(replies, decide, fetched + 1, asked + |r.decisions|, opt.(page := page.nextPage)))
  }

  /** The loop of `run`: fetch a page with the current options, review it,
      stop when the reply reports no next page and otherwise ask for that
      page next. */
  method Run(replies: seq<Result<Page>>, answers: seq<Result<string>>)
    returns (outcome: Outcome, requested: seq<ListOptions>, prompted: seq<Repo>, decisions: seq<bool>)
    ensures Trace(outcome, requested, prompted, decisions) == RunFrom(replies, Decide(answers), 0, 0, InitialOptions)
  {
    var opt := InitialOptions;
    requested, prompted, decisions := [], [], [];
    while true
      invariant |requested| <= |replies|
      invariant RunFrom(replies, Decide(answers), 0, 0, InitialOptions)
        == Extend(requested, prompted, decisions, RunFrom(replies, Decide(answers), |requested|, |decisions|, opt))
      decreases |replies| - |requested|
    {
      if |requested| == |replies| {
        outcome := RepliesExhausted;
        return;
      }
      var reply := replies[|requested|];
      ghost var requested0, prompted0, decisions0 := requested, prompted, decisions;
      requested := requested + [opt];
      if reply.Err? {
        outcome := Aborted(reply.error);
        return;
      }
      var page := reply.value;
      var pagePrompted, pageDecisions, failure := ReviewPage(page.repos, answers, |decisions|);
      prompted, decisions := prompted + pagePrompted, decisions + pageDecisions;
      if failure.Some? {
        outcome := Aborted(failure.value);
        return;
      }
      if page.nextPage == 0 {
        outcome := Finished;
        return;
      }
      ExtendTwice(requested0, prompted0, decisions0, [opt], pagePrompted, pageDecisions,
        RunFrom(replies, Decide(answers), |requested|, |decisions|, opt.(page := page.nextPage)));
      opt := opt.(page := page.nextPage);
    }
  }

  /** No more listing calls are made from call `fetched` on than
      `FetchCount` says: none after a reply that halts the loop. */
  lemma {:induction false} RunFromFetches(replies: seq<Result<Page>>, decide: nat -> Result<bool>, fetched: nat, asked: nat, opt: ListOptions)
    requires fetched <= |replies|
    ensures |RunFrom(replies, decide, fetched, asked, opt).requested| <= FetchCount(replies, fetched)
    decreases |replies| - fetched
  {
    if fetched < |replies| && replies[fetched].Ok? {
      var page := replies[fetched].value;
      var r := ReviewFrom(page.repos, 0, decide, asked);
      if r.failure == None && page.nextPage != 0 {
        RunFromFetches(replies, decide, fetched + 1, asked + |r.decisions|, opt.(page := page.nextPage));
      }
    }
  }

  /** Listing options `o` ask for the page `reply` named as next. */
  predicate Follows(reply: Result<Page>, o: ListOptions) {
    reply.Ok? && o.page == reply.value.nextPage
  }

  /** Every listing call uses the fixed options; the first from call
      `fetched` on asks for `opt`'s page and each later one for the page the
      previous reply named as next. */
  lemma {:induction false} RunFromRequests(replies: seq<Result<Page>>, decide: nat -> Result<bool>, fetched: nat, asked: nat, opt: ListOptions)
    requires fetched <= |replies|
    requires opt == InitialOptions.(page := opt.page)
    ensures var t := RunFrom(replies, decide, fetched, asked, opt);
      && fetched + |t.requested| <= |replies|
      && (fetched < |replies| ==> 0 < |t.requested| && t.requested[0] == opt)
      && (forall i | 0 <= i < |t.requested| :: t.requested[i] == InitialOptions.(page := t.requested[i].page))
      && (forall i | 0 < i < |t.requested| :: Follows(replies[fetched + i - 1], t.requested[i]))
    decreases |replies| - fetched
  {
    if fetched < |replies| && replies[fetched].Ok? {
      var page := replies[fetched].value;
      var r := ReviewFrom(page.repos, 0, decide, asked);
      if r.failure == None && page.nextPage != 0 {
        RunFromRequests(replies, decide, fetched + 1, asked + |r.decisions|, opt.(page := page.nextPage));
      }
    }
  }

  /** Calls are made only while replies remain. */
  lemma {:induction false} RunFromCalls(replies: seq<Result<Page>>, decide: nat -> Result<bool>, fetched: nat, asked: nat, opt: ListOptions)
    requires fetched <= |replies|
    ensures fetched + |RunFrom(replies, decide, fetched, asked, opt).requested| <= |replies|
    decreases |replies| - fetched
  {
    if fetched < |replies| && replies[fetched].Ok? {
      var page := replies[fetched].value;
      var r := ReviewFrom(page.repos, 0, decide, asked);
      if r.failure == None && page.nextPage != 0 {
        RunFromCalls(replies, decide, fetched + 1, asked + |r.decisions|, opt.(page := page.nextPage));
      }
    }
  }

  /** From call `fetched` on, the repositories prompted are the ones the
      replies fetched offer, in listing order, up to where the run stops. */
  lemma {:induction false} RunFromPrompts(replies: seq<Result<Page>>, decide: nat -> Result<bool>, fetched: nat, asked: nat, opt: ListOptions)
    requires fetched <= |replies|
    ensures var t := RunFrom(replies, decide, fetched, asked, opt);
      && fetched + |t.requested| <= |replies|
      && t.prompted <= Offered(replies, fetched, fetched + |t.requested|)
    decreases |replies| - fetched
  {
    RunFromCalls(replies, decide, fetched, asked, opt);
    if fetched < |replies| && replies[fetched].Ok? {
      var page := replies[fetched].value;
      var r := ReviewFrom(page.repos, 0, decide, asked);
      ReviewFromPrompted(page.repos, 0, decide, asked);
      assert page.repos[0..] == page.repos;
      if r.failure == None && page.nextPage != 0 {
        var rest := RunFrom(replies, decide, fetched + 1, asked + |r.decisions|, opt.(page := page.nextPage));
        RunFromPrompts(replies, decide, fetched + 1, asked + |r.decisions|, opt.(page := page.nextPage));
        PrefixExtends(r.prompted, rest.prompted, Offered(replies, fetched + 1, fetched + 1 + |rest.requested|));
      } else {
        assert Offered(replies, fetched, fetched + 1) == Filter(page.repos) + [];
      }
    }
  }

  /** The decisions are what the prompt runs come to, in order, and at most
      the last repository prompted is left without one. */
  lemma {:induction false} RunFromDecisions(replies: seq<Result<Page>>, decide: nat -> Result<bool>, fetched: nat, asked: nat, opt: ListOptions)
    requires fetched <= |replies|
    ensures var t := RunFrom(replies, decide, fetched, asked, opt);
      && |t.decisions| <= |t.prompted| <= |t.decisions| + 1
      && forall i | asked <= i < asked + |t.decisions| :: decide(i) == Ok(t.decisions[i - asked])
    decreases |replies| - fetched
  {
    if fetched < |replies| && replies[fetched].Ok? {
      var page := replies[fetched].value;
      var r := ReviewFrom(page.repos, 0, decide, asked);
      ReviewFromDecisions(page.repos, 0, decide, asked);
      if r.failure == None && page.nextPage != 0 {
        RunFromDecisions(replies, decide, fetched + 1, asked + |r.decisions|, opt.(page := page.nextPage));
      }
    }
  }

  /** From call `fetched` on, the loop finishes right after the first reply
      that halts it, a page reporting no next page, with every prompted
      repository decided. */
  lemma {:induction false} RunFromFinished(replies: seq<Result<Page>>, decide: nat -> Result<bool>, fetched: nat, asked: nat, opt: ListOptions)
    requires fetched <= |replies|
    ensures var t := RunFrom(replies, decide, fetched, asked, opt);
      var last := fetched + |t.requested| - 1;
      t.outcome == Finished ==>
        && 0 < |t.requested| == FetchCount(replies, fetched)
        && replies[last].Ok? && replies[last].value.nextPage == 0
        && |t.decisions| == |t.prompted|
    decreases |replies| - fetched
  {
    if fetched < |replies| && replies[fetched].Ok? {
      var page := replies[fetched].value;
      var r := ReviewFrom(page.repos, 0, decide, asked);
      ReviewFromDecisions(page.repos, 0, decide, asked);
      if r.failure == None && page.nextPage != 0 {
        RunFromFinished(replies, decide, fetched + 1, asked + |r.decisions|, opt.(page := page.nextPage));
      }
    }
  }

  /** The replies run out only when none of them from `fetched` on halts the
      loop; every one of them was then fetched. */
  lemma {:induction false} RunFromExhausted(replies: seq<Result<Page>>, decide: nat -> Result<bool>, fetched: nat, asked: nat, opt: ListOptions)
    requires fetched <= |replies|
    ensures var t := RunFrom(replies, decide, fetched, asked, opt);
      t.outcome == RepliesExhausted ==>
        && fetched + |t.requested| == |replies|
        && |t.requested| == FetchCount(replies, fetched)
        && (forall i | fetched <= i < |replies| :: !Halts(replies[i]))
        && |t.decisions| == |t.prompted|
    decreases |replies| - fetched
  {
    if fetched < |replies| && replies[fetched].Ok? {
      var page := replies[fetched].value;
      var r := ReviewFrom(page.repos, 0, decide, asked);
      ReviewFromDecisions(page.repos, 0, decide, asked);
      if r.failure == None && page.nextPage != 0 {
        RunFromExhausted(replies, decide, fetched + 1, asked + |r.decisions|, opt.(page := page.nextPage));
      }
    }
  }

  /** When a prompt run ends the loop, no listing call follows it: the
      repository it was for is on the page of the last call made, after all
      those the earlier pages offered. */
  lemma {:induction false} RunFromPromptFailurePage(replies: seq<Result<Page>>, decide: nat -> Result<bool>, fetched: nat, asked: nat, opt: ListOptions)
    requires fetched <= |replies|
    ensures var t := RunFrom(replies, decide, fetched, asked, opt);
      && fetched + |t.requested| <= |replies|
      && (t.outcome.Aborted? && |t.decisions| + 1 == |t.prompted| ==>
            && 0 < |t.requested|
            && |Offered(replies, fetched, fetched + |t.requested| - 1)| < |t.prompted|)
    decreases |replies| - fetched
  {
    RunFromCalls(replies, decide, fetched, asked, opt);
    if fetched < |replies| && replies[fetched].Ok? {
      var page := replies[fetched].value;
      var r := ReviewFrom(page.repos, 0, decide, asked);
      ReviewFromPrompted(page.repos, 0, decide, asked);
      ReviewFromDecisions(page.repos, 0, decide, asked);
      assert page.repos[0..] == page.repos;
      if r.failure == None && page.nextPage != 0 {
        var rest := RunFrom(replies, decide, fetched + 1, asked + |r.decisions|, opt.(page := page.nextPage));
        RunFromPromptFailurePage(replies, decide, fetched + 1, asked + |r.decisions|, opt.(page := page.nextPage));
        if 0 < |rest.requested| {
          assert Offered(replies, fetched, fetched + |rest.requested|)
            == Filter(page.repos) + Offered(replies, fetched + 1, fetched + |rest.requested|);
        }
      }
    }
  }

  /** The loop aborts either at a failed listing call, the first reply that
      halts it, or at a prompt run that fails, the one for the last
      repository prompted, which is then left without a decision and is on
      the page of the last call made. */
  lemma {:induction false} RunFromAborted(replies: seq<Result<Page>>, decide: nat -> Result<bool>, fetched: nat, asked: nat, opt: ListOptions)
    requires fetched <= |replies|
    ensures var t := RunFrom(replies, decide, fetched, asked, opt);
      var last := fetched + |t.requested| - 1;
      t.outcome.Aborted? ==>
        || (&& 0 < |t.requested| == FetchCount(replies, fetched)
            && replies[last] == Err(t.outcome.error)
            && |t.decisions| == |t.prompted|)
        || (&& |t.decisions| + 1 == |t.prompted|
            && decide(asked + |t.decisions|) == Err(t.outcome.error)
            && 0 < |t.requested| && last < |replies|
            && |Offered(replies, fetched, last)| < |t.prompted|)
    decreases |replies| - fetched
  {
    RunFromPromptFailurePage(replies, decide, fetched, asked, opt);
    if fetched < |replies| && replies[fetched].Ok? {
      var page := replies[fetched].value;
      var r := ReviewFrom(page.repos, 0, decide, asked);
      ReviewFromDecisions(page.repos, 0, decide, asked);
      if r.failure == None && page.nextPage != 0 {
        RunFromAborted(replies, decide, fetched + 1, asked + |r.decisions|, opt.(page := page.nextPage));
      }
    }
  }

  /** When every prompted repository got its decision, the loop prompted for
      all the repositories the replies it fetched offer. */
  lemma {:induction false} RunFromComplete(replies: seq<Result<Page>>, decide: nat -> Result<bool>, fetched: nat, asked: nat, opt: ListOptions)
    requires fetched <= |replies|
    ensures var t := RunFrom(replies, decide, fetched, asked, opt);
      && fetched + |t.requested| <= |replies|
      && (|t.decisions| == |t.prompted| ==> t.prompted == Offered(replies, fetched, fetched + |t.requested|))
    decreases |replies| - fetched
  {
    RunFromCalls(replies, decide, fetched, asked, opt);
    if fetched < |replies| && replies[fetched].Ok? {
      var page := replies[fetched].value;
      var r := ReviewFrom(page.repos, 0, decide, asked);
      ReviewFromPrompted(page.repos, 0, decide, asked);
      ReviewFromDecisions(page.repos, 0, decide, asked);
      assert page.repos[0..] == page.repos;
      if r.failure == None && page.nextPage != 0 {
        RunFromComplete(replies, decide, fetched + 1, asked + |r.decisions|, opt.(page := page.nextPage));
      } else {
        assert Offered(replies, fetched, fetched + 1) == Filter(page.repos) + [];
      }
    }
  }

  /** The listing calls of a run: every one uses the fixed options, the
      first asks for page 0 and each later one for the page the previous
      reply named as next, and no call follows a reply that halts the
      loop. */
  lemma RunCalls(replies: seq<Result<Page>>, answers: seq<Result<string>>)
    ensures var t := RunFrom(replies, Decide(answers), 0, 0, InitialOptions);
      && |t.requested| <= FetchCount(replies, 0)
      && (forall i | 0 <= i < |t.requested| :: t.requested[i] == InitialOptions.(page := t.requested[i].page))
      && (0 < |t.requested| ==> t.requested[0].page == 0)
      && (forall i | 0 < i < |t.requested| :: Follows(replies[i - 1], t.requested[i]))
  {
    RunFromFetches(replies, Decide(answers), 0, 0, InitialOptions);
    RunFromRequests(replies, Decide(answers), 0, 0, InitialOptions);
  }

  /** The prompts of a run: the repositories prompted are eligible ones of
      the pages fetched, in listing order, from the first on; unless an
      answer failed, they are all of them. (`Offered` is the filtered
      listing, by `OfferedIsFilteredListing`.) */
  lemma RunPrompts(replies: seq<Result<Page>>, answers: seq<Result<string>>)
    ensures var t := RunFrom(replies, Decide(answers), 0, 0, InitialOptions);
      && |t.requested| <= |replies|
      && t.prompted <= Offered(replies, 0, |t.requested|)
      && (|t.decisions| == |t.prompted| ==> t.prompted == Offered(replies, 0, |t.requested|))
  {
    RunFromPrompts(replies, Decide(answers), 0, 0, InitialOptions);
    RunFromComplete(replies, Decide(answers), 0, 0, InitialOptions);
  }

  /** In terms of the listing itself: the repositories prompted are, in
      order, a prefix of the eligible repositories of everything the
      fetched pages list, so there are never more prompts than
      repositories listed. */
  lemma RunPromptsListed(replies: seq<Result<Page>>, answers: seq<Result<string>>)
    ensures var t := RunFrom(replies, Decide(answers), 0, 0, InitialOptions);
      && |t.requested| <= |replies|
      && t.prompted <= Filter(Listed(replies, 0, |t.requested|))
      && |t.prompted| <= |Listed(replies, 0, |t.requested|)|
  {
    var t := RunFrom(replies, Decide(answers), 0, 0, InitialOptions);
    RunPrompts(replies, answers);
    OfferedIsFilteredListing(replies, 0, |t.requested|);
  }

  /** The decisions of a run: each is what `StrToBool` makes of the answer
      given for it, in prompt order, and at most the last repository
      prompted is left without one. */
  lemma RunDecisions(replies: seq<Result<Page>>, answers: seq<Result<string>>)
    ensures var t := RunFrom(replies, Decide(answers), 0, 0, InitialOptions);
      && |t.decisions| <= |t.prompted| <= |t.decisions| + 1
      && (forall i | 0 <= i < |t.decisions| :: Decides(NthAnswer(answers, i), t.decisions[i]))
  {
    var t := RunFrom(replies, Decide(answers), 0, 0, InitialOptions);
    RunFromDecisions(replies, Decide(answers), 0, 0, InitialOptions);
    forall i | 0 <= i < |t.decisions| ensures Decides(NthAnswer(answers, i), t.decisions[i]) {
      assert Decide(answers)(i) == Ok(t.decisions[i - 0]);
    }
  }

  /** How a run ends: `Finished` after the first reply reporting no next
      page, `RepliesExhausted` when no reply halts the loop, and `Aborted`
      with the error of a failed listing call (the last one made) or of a
      failing answer (the one for the last repository prompted, which is on
      the page of the last call made, so no call follows it). */
  lemma RunEnds(replies: seq<Result<Page>>, answers: seq<Result<string>>)
    ensures var t := RunFrom(replies, Decide(answers), 0, 0, InitialOptions);
      var n := |t.requested|;
      && (t.outcome == Finished ==>
            && 0 < n == FetchCount(replies, 0)
            && replies[n - 1].Ok? && replies[n - 1].value.nextPage == 0
            && |t.decisions| == |t.prompted|)
      && (t.outcome == RepliesExhausted ==>
            && n == |replies| == FetchCount(replies, 0)
            && (forall i | 0 <= i < |replies| :: !Halts(replies[i]))
            && |t.decisions| == |t.prompted|)
      && (t.outcome.Aborted? ==>
            || (&& 0 < n == FetchCount(replies, 0)
                && replies[n - 1] == Err(t.outcome.error)
                && |t.decisions| == |t.prompted|)
            || (&& |t.decisions| + 1 == |t.prompted|
                && Fails(NthAnswer(answers, |t.decisions|), t.outcome.error)
                && 0 < n <= |replies|
                && |Offered(replies, 0, n - 1)| < |t.prompted|))
  {
    var t := RunFrom(replies, Decide(answers), 0, 0, InitialOptions);
    RunFromFinished(replies, Decide(answers), 0, 0, InitialOptions);
    RunFromExhausted(replies, Decide(answers), 0, 0, InitialOptions);
    RunFromAborted(replies, Decide(answers), 0, 0, InitialOptions);
    if t.outcome.Aborted? && |t.decisions| + 1 == |t.prompted| {
      assert Decide(answers)(0 + |t.decisions|) == Parse(NthAnswer(answers, |t.decisions|));
    }
  }

  /** A single page holding a fork and a plain repository, with no next
      page: one listing call for page 0, one prompt, for the plain one, and
      the run finishes with its decision. */
  lemma OnePageRun(fork: Repo, plain: Repo)
    requires fork.fork && Eligible(plain)
    ensures RunFrom([Ok(Page([fork, plain], 0))], Decide([Ok("Yes")]), 0, 0, InitialOptions)
      == Trace(Finished, [InitialOptions], [plain], [true])
  {
    ExampleYes();
    StrToBoolFirstNonSpace("Yes", 0);
    var d := Decide([Ok("Yes")]);
    assert d(0) == Ok(true);
    assert ReviewFrom([fork, plain], 1, d, 0) == Reviewed([plain], [true], None);
  }

  /** Two pages, the answer to the second prompt refused: the run asks for
      page 0 and then for page 2, and aborts with `StrToBool`'s error. */
  lemma RefusedAnswerAborts(a: Repo, b: Repo)
    requires Eligible(a) && Eligible(b)
    ensures RunFrom([Ok(Page([a], 2)), Ok(Page([b], 0))], Decide([Ok("n"), Ok("maybe")]), 0, 0, InitialOptions)
      == Trace(Aborted(NotYesOrNo), [InitialOptions, InitialOptions.(page := 2)], [a, b], [false])
  {
    StrToBoolFirstNonSpace("n", 0);
    ExampleMaybe();
    var d := Decide([Ok("n"), Ok("maybe")]);
    assert d(0) == Ok(false);
    assert d(1) == Err(NotYesOrNo);
    assert ReviewFrom([a], 0, d, 0) == Reviewed([a], [false], None);
    assert ReviewFrom([b], 0, d, 1) == Reviewed([b], [], Some(NotYesOrNo));
  }

  /** Next-page values 2, 3, 0: when no answer fails, the run makes
      exactly three listing calls, for pages 0, 2 and 3, and finishes,
      whatever replies would follow. */
  lemma ThreePagesRequested(a: seq<Repo>, b: seq<Repo>, c: seq<Repo>, more: seq<Result<Page>>, answers: seq<Result<string>>)
    ensures var t := RunFrom([Ok(Page(a, 2)), Ok(Page(b, 3)), Ok(Page(c, 0))] + more, Decide(answers), 0, 0, InitialOptions);
      |t.decisions| == |t.prompted| ==>
        && t.outcome == Finished
        && t.requested == [InitialOptions, InitialOptions.(page := 2), InitialOptions.(page := 3)]
  {
    var replies := [Ok(Page(a, 2)), Ok(Page(b, 3)), Ok(Page(c, 0))] + more;
    var t := RunFrom(replies, Decide(answers), 0, 0, InitialOptions);
    ThreePagesFetched(a, b, c, more);
    RunEnds(replies, answers);
    RunCalls(replies, answers);
    assert replies[0] == Ok(Page(a, 2)) && replies[1] == Ok(Page(b, 3)) && replies[2] == Ok(Page(c, 0));
    if |t.decisions| == |t.prompted| {
      assert Halts(replies[2]);
      assert Follows(replies[0], t.requested[1]) && Follows(replies[1], t.requested[2]);
    }
  }

  /** When the answers are what the archive prompt returns for the
      operator's `input`, a failing answer is always an error of the prompt
      itself: `StrToBool` never refuses a line the prompt accepted. */
  lemma PromptAbortIsPromptError(input: seq<Result<string>>, k: nat, e: Failure)
    requires Fails(NthAnswer(Answers(ArchivePrompt, input, 0), k), e)
    ensures NthAnswer(Answers(ArchivePrompt, input, 0), k) == Err(e)
  {
    AcceptedAnswersParse(input, k);
  }

  /** With the archive prompt answering, a run never stops on a line the
      prompt accepted: when a prompt run ends it, the prompt itself
      returned that error. */
  lemma ArchivePromptRunEnds(replies: seq<Result<Page>>, input: seq<Result<string>>)
    ensures var answers := Answers(ArchivePrompt, input, 0);
      var t := RunFrom(replies, Decide(answers), 0, 0, InitialOptions);
      t.outcome.Aborted? && |t.decisions| + 1 == |t.prompted| ==>
        NthAnswer(answers, |t.decisions|) == Err(t.outcome.error)
  {
    var answers := Answers(ArchivePrompt, input, 0);
    var t := RunFrom(replies, Decide(answers), 0, 0, InitialOptions);
    RunEnds(replies, answers);
    if t.outcome.Aborted? && |t.decisions| + 1 == |t.prompted| {
      PromptAbortIsPromptError(input, |t.decisions|, t.outcome.error);
    }
  }

  /** A prefix stays a prefix behind a common start. */
  lemma PrefixExtends<T>(c: seq<T>, a: seq<T>, b: seq<T>)
    requires a <= b
    ensures c + a <= c + b
  {
    assert forall i | 0 <= i < |c + a| :: (c + a)[i] == (c + b)[i];
  }
}
