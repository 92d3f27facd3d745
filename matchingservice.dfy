/**
  service/matchingservice: the waiting-list façade. It forwards the request
  to a repository that adds the (user, category) pair if it is not already
  waiting, and answers with the configured waiting timeout. There is no
  grouping, eviction or presence logic behind it.
 */
module MatchingService {
  import opened Wrappers
  import opened RichError

  /** entity.Category; its definition is not part of this model. */
  type Category = string

  /** time.Duration: a signed 64-bit count of nanoseconds. */
  type Duration = d: int | -0x8000_0000_0000_0000 <= d <= 0x7fff_ffff_ffff_ffff

  const Op: string := "matchingservice.AddToWaitingList"

  datatype Config = Config(waitingTimeout: Duration)

  /** The state behind Repo: who waits in which category, and whether the repository reports an error. */
  datatype WaitingList = WaitingList(waiting: set<(nat, Category)>, failing: bool)

  datatype Service = Service(config: Config, repo: WaitingList)

  datatype AddToWaitingListRequest = AddToWaitingListRequest(userID: nat, category: Category)
  datatype AddToWaitingListResponse = AddToWaitingListResponse(timeout: Duration)

  /** The result, the waiting list afterwards, and the repository calls made, as (user ID, category) arguments. */
  datatype Outcome = Outcome(
    result: Result<AddToWaitingListResponse, RichError>,
    repo: WaitingList,
    calls: seq<(nat, Category)>)

  /** The users waiting in one category. */
  function Waiting(repo: WaitingList, category: Category): (users: set<nat>)
    ensures forall u :: u in users <==> (u, category) in repo.waiting
  {
    set p | p in repo.waiting && p.1 == category :: p.0
  }

  /** Repo.AddToWaitingList: add the pair if it does not exist yet; a failing repository changes nothing. */
  function RepoAddToWaitingList(repo: WaitingList, userID: nat, category: Category): (r: (bool, WaitingList))
    ensures r.0 <==> repo.failing
    ensures r.0 ==> r.1 == repo
    ensures !r.0 ==> r.1 == repo.(waiting := repo.waiting + {(userID, category)})
  {
    if repo.failing then (true, repo)
    else if (userID, category) in repo.waiting then (false, repo)
    else (false, repo.(waiting := repo.waiting + {(userID, category)}))
  }

  function AddToWaitingList(s: Service, req: AddToWaitingListRequest): (o: Outcome)
    // exactly one repository call, with the request's user and category
    ensures o.calls == [(req.userID, req.category)]
    ensures o.result.Success? <==> !s.repo.failing
    // the response is the configured timeout, whoever asks
    ensures o.result.Success? ==> o.result.value.timeout == s.config.waitingTimeout
    ensures o.result.Success? ==> o.repo == s.repo.(waiting := s.repo.waiting + {(req.userID, req.category)})
    ensures o.result.Failure? ==> o.result.error == RichError(Op, KindUnexpected, "") && o.repo == s.repo
  {
    var (failed, repo') := RepoAddToWaitingList(s.repo, req.userID, req.category);
    var calls := [(req.userID, req.category)];
    if failed then Outcome(Failure(RichError(Op, KindUnexpected, "")), repo', calls)
    else Outcome(Success(AddToWaitingListResponse(s.config.waitingTimeout)), repo', calls)
  }

  /** Adding a pair that already waits leaves the waiting list as it was. */
  lemma AddExistingUnchanged(s: Service, req: AddToWaitingListRequest)
    requires (req.userID, req.category) in s.repo.waiting
    ensures AddToWaitingList(s, req).repo == s.repo
  {
  }

  /** Adding the same pair twice gives the same waiting list as adding it once. */
  lemma AddIdempotent(s: Service, req: AddToWaitingListRequest)
    ensures var once := AddToWaitingList(s, req).repo;
            AddToWaitingList(s.(repo := once), req).repo == once
  {
  }

  /** After a successful add the user waits in the category; every other category is untouched. */
  lemma AddTouchesOnlyItsCategory(s: Service, req: AddToWaitingListRequest, category: Category)
    requires AddToWaitingList(s, req).result.Success?
    ensures req.userID in Waiting(AddToWaitingList(s, req).repo, req.category)
    ensures category != req.category ==>
              Waiting(AddToWaitingList(s, req).repo, category) == Waiting(s.repo, category)
    ensures Waiting(AddToWaitingList(s, req).repo, req.category) == Waiting(s.repo, req.category) + {req.userID}
  {
    var after := AddToWaitingList(s, req).repo;
    assert forall u :: u in Waiting(after, category) <==> u in Waiting(s.repo, category) || (category == req.category && u == req.userID);
  }

  /** Two successful requests to the same service get the same timeout, whatever their user and category. */
  lemma TimeoutIgnoresRequest(s: Service, a: AddToWaitingListRequest, b: AddToWaitingListRequest)
    requires !s.repo.failing
    ensures AddToWaitingList(s, a).result == AddToWaitingList(s, b).result
  {
  }
}
