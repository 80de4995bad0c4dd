/** The repository listing `run` in cmd/gha/main.go walks: repositories,
    pages of them with the number of the next page, the options each listing
    call is made with, which repositories are put to the operator, and how
    many listing calls the loop makes. */
module Listing {
  import opened Wrappers

  /** A repository as the listing reports it. */
  datatype Repo = Repo(fullName: string, fork: bool, archived: bool, pushedAt: int)

  /** One page of the listing, and the page number the response reports as
      next (0 when there are no more pages). */
  datatype Page = Page(repos: seq<Repo>, nextPage: int)

  /** The listing options `run` sends with every call. */
  datatype ListOptions = ListOptions(sort: string, visibility: string, affiliation: string, perPage: int, page: int)

  /** The options before the first call; `page` starts at Go's zero value. */
  const InitialOptions := ListOptions("pushed", "public", "owner", 10, 0)

  /** How a run ends. `Finished` is the nil return, `Aborted(e)` the return
      of error `e`. `RepliesExhausted` is the model's own: the loop asked for
      a page beyond the finitely many replies it was given. */
  datatype Outcome = Finished | Aborted(error: Failure) | RepliesExhausted

  /** A repository is put to the operator when it is neither a fork nor
      archived. */
  predicate Eligible(r: Repo) {
    !r.fork && !r.archived
  }

  /** The repositories of a page that are prompted, in page order. */
  function Filter(repos: seq<Repo>): (kept: seq<Repo>)
    ensures |kept| <= |repos|
  {
    if repos == [] then []
    else (if Eligible(repos[0]) then [repos[0]] else []) + Filter(repos[1..])
  }

  /** Filtering a concatenation filters each part, keeping their order. */
  lemma {:induction false} FilterAppend(a: seq<Repo>, b: seq<Repo>)
    ensures Filter(a + b) == Filter(a) + Filter(b)
  {
    if a == [] {
      assert a + b == b;
    } else {
      var head := if Eligible(a[0]) then [a[0]] else [];
      assert (a + b)[0] == a[0];
      assert (a + b)[1..] == a[1..] + b;
      assert Filter(a + b) == head + Filter(a[1..] + b);
      FilterAppend(a[1..], b);
      assert head + (Filter(a[1..]) + Filter(b)) == (head + Filter(a[1..])) + Filter(b);
    }
  }

  /** Only eligible repositories of the page are kept. */
  lemma {:induction false} FilterKeepsOnlyEligible(repos: seq<Repo>)
    ensures forall r | r in Filter(repos) :: r in repos && Eligible(r)
  {
    if repos != [] {
      FilterKeepsOnlyEligible(repos[1..]);
    }
  }

  /** No eligible repository is dropped. */
  lemma {:induction false} FilterKeepsEveryEligible(repos: seq<Repo>, r: Repo)
    requires r in repos && Eligible(r)
    ensures r in Filter(repos)
  {
    if repos[0] != r {
      FilterKeepsEveryEligible(repos[1..], r);
    }
  }

  /** Filtering a filtered page changes nothing. */
  lemma {:induction false} FilterIdempotent(repos: seq<Repo>)
    ensures Filter(Filter(repos)) == Filter(repos)
  {
    if repos != [] {
      var head := if Eligible(repos[0]) then [repos[0]] else [];
      FilterAppend(head, Filter(repos[1..]));
      FilterIdempotent(repos[1..]);
    }
  }

  /** A page holding a fork, an archived repository and one other yields a
      single prompt, for the other. */
  lemma OnlyPlainRepositoriesPrompted(fork: Repo, archivedRepo: Repo, plain: Repo)
    requires fork.fork && archivedRepo.archived && Eligible(plain)
    ensures Filter([fork, archivedRepo, plain]) == [plain]
  {
    var page := [fork, archivedRepo, plain];
    assert page[1..][1..] == [plain] && [plain][1..] == [];
    assert Filter([plain]) == [plain];
  }

  /** A reply that ends the loop: an error, or a page reporting no next page. */
  predicate Halts(reply: Result<Page>) {
    reply.Err? || reply.value.nextPage == 0
  }

  /** How many listing calls the loop makes from call number `from` on when
      no prompt fails: up to and including the first reply that halts it, or
      all the remaining ones. */
  function FetchCount(replies: seq<Result<Page>>, from: nat): (n: nat)
    requires from <= |replies|
    ensures from + n <= |replies|
    ensures from < |replies| ==> n > 0
    ensures forall i | from <= i < from + n - 1 :: !Halts(replies[i])
    ensures from + n < |replies| ==> Halts(replies[from + n - 1])
    decreases |replies| - from
  {
    if from == |replies| then 0
    else if Halts(replies[from]) then 1
    else 1 + FetchCount(replies, from + 1)
  }

  /** Replies after the first halting one are never fetched. */
  lemma {:induction false} FetchCountIgnoresLaterReplies(replies: seq<Result<Page>>, from: nat, k: nat, more: seq<Result<Page>>)
    requires from <= k < |replies| && Halts(replies[k])
    ensures FetchCount(replies + more, from) == FetchCount(replies, from) <= k + 1 - from
    decreases k - from
  {
    assert (replies + more)[from] == replies[from];
    if !Halts(replies[from]) {
      FetchCountIgnoresLaterReplies(replies, from + 1, k, more);
    }
  }

  /** Next-page values 2, 3, 0 mean exactly three pages are fetched. */
  lemma ThreePagesFetched(a: seq<Repo>, b: seq<Repo>, c: seq<Repo>, more: seq<Result<Page>>)
    ensures FetchCount([Ok(Page(a, 2)), Ok(Page(b, 3)), Ok(Page(c, 0))] + more, 0) == 3
  {
    var replies := [Ok(Page(a, 2)), Ok(Page(b, 3)), Ok(Page(c, 0))];
    FetchCountIgnoresLaterReplies(replies, 0, 2, more);
    assert FetchCount(replies, 2) == 1;
  }

  /** The repositories a reply lists: none for a failed call. */
  function RepliedRepos(reply: Result<Page>): seq<Repo> {
    if reply.Ok? then reply.value.repos else []
  }

  /** Everything replies `from` up to `to` list, in fetch order and then
      page order. */
  function Listed(replies: seq<Result<Page>>, from: nat, to: nat): seq<Repo>
    requires from <= to <= |replies|
    decreases |replies| - from
  {
    if from == to then [] else RepliedRepos(replies[from]) + Listed(replies, from + 1, to)
  }

  /** The repositories replies `from` up to `to` put to the operator, in
      listing order. */
  function Offered(replies: seq<Result<Page>>, from: nat, to: nat): seq<Repo>
    requires from <= to <= |replies|
    decreases |replies| - from
  {
    if from == to then [] else Filter(RepliedRepos(replies[from])) + Offered(replies, from + 1, to)
  }

  /** They are exactly the eligible repositories of everything listed. */
  lemma {:induction false} OfferedIsFilteredListing(replies: seq<Result<Page>>, from: nat, to: nat)
    requires from <= to <= |replies|
    ensures Offered(replies, from, to) == Filter(Listed(replies, from, to))
    decreases |replies| - from
  {
    if from < to {
      OfferedIsFilteredListing(replies, from + 1, to);
      FilterAppend(RepliedRepos(replies[from]), Listed(replies, from + 1, to));
    }
  }
}
