/**
 * `GitHubWebhookController` (SS14.MapServer/Controllers/GitHubWebhookController.cs):
 * which deliveries are accepted, which push and pull-request events lead to a
 * build, which changed files count as map changes, the git refs the queued
 * build requests carry, and the pull-request comment records.
 *
 * The changed-file list comes from the GitHub API and the comment id from
 * creating a comment there; both are parameters. The glob matchers are
 * predicates in the configuration. JSON deserialisation is not modelled: the
 * events arrive as values.
 */
module WebhookController {
  import opened Wrappers
  import opened Strings
  import opened Entities
  import Paths
  import Queue
  import WebhookHelper

  const GitBranchRefPrefix: string := "refs/heads/"

  /**
   * The `Git` configuration section: `Branch`, `RunOnPullRequests`,
   * `DontRunWithCodeChanges`, and whether a path matches one of
   * `MapFilePatterns`, `MapFileExcludePatterns` and `CodeChangePatterns`.
   */
  datatype GitConfig = GitConfig(
    branch: string,
    runOnPullRequests: bool,
    dontRunWithCodeChanges: bool,
    mapFilePattern: string -> bool,
    mapFileExcludePattern: string -> bool,
    codeChangePattern: string -> bool)

  /** The map-file matcher: included by a map pattern and not excluded. */
  predicate IsMapFile(config: GitConfig, path: string) {
    config.mapFilePattern(path) && !config.mapFileExcludePattern(path)
  }

  /** The elements of `xs` that satisfy `p`, in order. */
  function Filter(xs: seq<string>, p: string -> bool): (r: seq<string>)
    ensures |r| <= |xs|
    ensures forall x :: x in r <==> x in xs && p(x)
    decreases |xs|
  {
    if |xs| == 0 then []
    else (if p(xs[0]) then [xs[0]] else []) + Filter(xs[1..], p)
  }

  /**
   * `CheckFiles`: the changed map files, or nothing at all when no map file
   * changed or when code changes are forbidden and some code file changed.
   */
  function CheckFiles(config: GitConfig, changed: seq<string>): (r: seq<string>)
    ensures forall f :: f in r ==> f in changed && IsMapFile(config, f)
    ensures r == [] <==>
      (forall f :: f in changed ==> !IsMapFile(config, f))
      || (config.dontRunWithCodeChanges && exists f :: f in changed && config.codeChangePattern(f))
    ensures r != [] ==> forall f :: f in changed && IsMapFile(config, f) ==> f in r
  {
    var mapFiles := Filter(changed, f => IsMapFile(config, f));
    if mapFiles == [] then
      []
    else if !config.dontRunWithCodeChanges then
      assert mapFiles[0] in changed && IsMapFile(config, mapFiles[0]);
      mapFiles
    else if Filter(changed, config.codeChangePattern) != [] then
      assert Filter(changed, config.codeChangePattern)[0] in changed;
      []
    else
      assert mapFiles[0] in changed && IsMapFile(config, mapFiles[0]);
      mapFiles
  }

  /** `enumerable.Select(Path.GetFileName)`: the file names of the matched paths. */
  function FileNames(paths: seq<string>): (names: seq<string>)
    ensures |names| == |paths|
    ensures forall i :: 0 <= i < |paths| ==> names[i] == Paths.GetFileName(paths[i])
  {
    seq(|paths|, i requires 0 <= i < |paths| => Paths.GetFileName(paths[i]))
  }

  /** A push delivery: the pushed ref and the commits before and after it. */
  datatype PushEvent = PushEvent(ref: string, before: string, after: string)

  /** A pull-request delivery, reduced to the fields the controller reads. */
  datatype PullRequestEvent = PullRequestEvent(
    action: string,
    number: int,
    headRef: string,
    headLogin: string,
    headCloneUrl: string,
    baseRef: string,
    baseOwner: string,
    baseRepository: string)

  /** `HandlePushEvent` goes on only for a push to the configured branch. */
  predicate PushGate(config: GitConfig, ref: string) {
    ref == GitBranchRefPrefix + config.branch
  }

  /** `HandlePullRequestEvent` goes on only when enabled and for `synchronize` or `opened`. */
  predicate PullRequestGate(config: GitConfig, action: string) {
    config.runOnPullRequests && (action == "synchronize" || action == "opened")
  }

  /** The ref a push build checks out: the last segment of the pushed ref. */
  function PushRef(ref: string): string {
    Paths.GetFileName(ref)
  }

  /** The ref a pull-request build fetches: `pull/<number>/head:<last segment of the head ref>`. */
  function PullRequestRef(number: int, headRef: string): string {
    "pull/" + IntToString(number) + "/head:" + Paths.GetFileName(headRef)
  }

  /**
   * The build request a push event leads to, if any: none unless the push is
   * to the configured branch and some map file changed (subject to the code
   * rule); otherwise the file names of the changed maps, built from the
   * push ref's last segment, with the configured repository.
   */
  function PushItem(config: GitConfig, event: PushEvent, changed: seq<string>): (r: Option<ProcessItem>)
    ensures r.Some? <==> PushGate(config, event.ref) && CheckFiles(config, changed) != []
    ensures r.Some? ==> r.value.gitRef == Paths.GetFileName(event.ref) && r.value.repositoryUrl.None?
    ensures r.Some? ==> |r.value.maps| == |CheckFiles(config, changed)| > 0
    ensures r.Some? ==> r.value.maps == FileNames(CheckFiles(config, changed))
    ensures r.Some? ==> forall i :: 0 <= i < |r.value.maps| ==>
      exists f :: f in changed && IsMapFile(config, f) && r.value.maps[i] == Paths.GetFileName(f)
  {
    if !PushGate(config, event.ref) then None
    else
      var files := FileNames(CheckFiles(config, changed));
      if |files| == 0 then None
      else
        var item := ProcessItem(PushRef(event.ref), files, None);
        assert forall i :: 0 <= i < |files| ==> CheckFiles(config, changed)[i] in changed;
        Some(item)
  }

  /**
   * The build request a pull-request event leads to, if any: none unless
   * pull requests are enabled, the action is `synchronize` or `opened`, and
   * some map file changed; otherwise the changed maps' file names, the
   * `pull/<number>/head:<branch>` ref and the head repository's clone URL.
   */
  function PullRequestItem(config: GitConfig, event: PullRequestEvent, changed: seq<string>): (r: Option<ProcessItem>)
    ensures r.Some? <==> PullRequestGate(config, event.action) && CheckFiles(config, changed) != []
    ensures r.Some? ==> r.value.repositoryUrl == Some(event.headCloneUrl)
    ensures r.Some? ==> r.value.gitRef == "pull/" + IntToString(event.number) + "/head:" + Paths.GetFileName(event.headRef)
    ensures r.Some? ==> |r.value.maps| == |CheckFiles(config, changed)| > 0
    ensures r.Some? ==> r.value.maps == FileNames(CheckFiles(config, changed))
  {
    if !PullRequestGate(config, event.action) then None
    else
      var files := FileNames(CheckFiles(config, changed));
      if |files| == 0 then None
      else Some(ProcessItem(PullRequestRef(event.number, event.headRef), files, Some(event.headCloneUrl)))
  }

  /** A push to a branch without '/' in its name builds exactly that branch. */
  lemma PushRefOfBranch(branch: string)
    requires |branch| > 0 && Paths.NoSeparator(branch)
    ensures PushRef(GitBranchRefPrefix + branch) == branch
  {
    Paths.CombineFileName("refs/heads", branch);
    assert Paths.Combine("refs/heads", branch) == GitBranchRefPrefix + branch;
  }

  /** A branch whose name contains '/' is built under its last segment only. */
  lemma PushRefOfNestedBranch()
    ensures PushRef(GitBranchRefPrefix + "release/v2") == "v2"
  {
    Paths.CombineFileName("refs/heads/release", "v2");
    assert Paths.Combine("refs/heads/release", "v2") == GitBranchRefPrefix + "release/v2";
  }

  /** Pull requests with different numbers are fetched from different refs. */
  lemma PullRequestRefsDistinct(n: int, m: int, headRef: string, otherRef: string)
    requires Int32Min <= n <= Int32Max && Int32Min <= m <= Int32Max && n != m
    ensures PullRequestRef(n, headRef) != PullRequestRef(m, otherRef)
  {
    var sn, sm := IntToString(n), IntToString(m);
    // The number ends at the first '/' after "pull/"; neither rendering holds one.
    IntToStringChars(n);
    IntToStringChars(m);
    if PullRequestRef(n, headRef) == PullRequestRef(m, otherRef) {
      PullRequestRefNumber(sn, Paths.GetFileName(headRef), sm, Paths.GetFileName(otherRef));
      IntToStringInjective(n, m);
    }
  }

  /** The number's text is recovered from a pull-request ref. */
  lemma PullRequestRefNumber(sn: string, bn: string, sm: string, bm: string)
    requires forall i :: 0 <= i < |sn| ==> sn[i] != '/'
    requires forall i :: 0 <= i < |sm| ==> sm[i] != '/'
    requires "pull/" + sn + "/head:" + bn == "pull/" + sm + "/head:" + bm
    ensures sn == sm
  {
    var restA, restB := "/head:" + bn, "/head:" + bm;
    var whole := "pull/" + sn + "/head:" + bn;
    assert whole[5..] == sn + restA;
    assert ("pull/" + sm + "/head:" + bm)[5..] == sm + restB;
    SameTextBeforeSlash(sn, restA, sm, restB);
  }

  /** In x + rest, with no '/' in x and rest starting with '/', the first '/' is at |x|. */
  lemma FirstSlashAt(x: string, rest: string)
    requires forall i :: 0 <= i < |x| ==> x[i] != '/'
    requires |rest| > 0 && rest[0] == '/'
    ensures (x + rest)[|x|] == '/'
    ensures forall i :: 0 <= i < |x| ==> (x + rest)[i] != '/'
  {
  }

  /** x + "/..." == y + "/..." forces x == y when neither x nor y holds '/'. */
  lemma SameTextBeforeSlash(x: string, restX: string, y: string, restY: string)
    requires forall i :: 0 <= i < |x| ==> x[i] != '/'
    requires forall i :: 0 <= i < |y| ==> y[i] != '/'
    requires |restX| > 0 && restX[0] == '/' && |restY| > 0 && restY[0] == '/'
    requires x + restX == y + restY
    ensures x == y
  {
    FirstSlashAt(x, restX);
    FirstSlashAt(y, restY);
    if |x| != |y| {
      assert false;
    }
    assert x == (x + restX)[..|x|] && y == (y + restY)[..|y|];
  }

  /** The primary key of a pull-request comment record: owner, repository, issue number. */
  datatype IssueKey = IssueKey(owner: string, repository: string, number: int)

  datatype SaveError = DuplicateComment(issue: IssueKey)

  /** The `PullRequestComment` table: the GitHub comment id recorded per pull request. */
  class PullRequestCommentStore {
    var comments: map<IssueKey, int>

    constructor ()
      ensures comments == map[]
    {
      comments := map[];
    }

    /**
     * `SavePrComment`: records the comment id when there is one. Adding a
     * second record with the same key fails and changes nothing.
     */
    method SavePrComment(commentId: Option<int>, issue: IssueKey) returns (r: Result<bool, SaveError>)
      modifies this
      ensures r == Err(DuplicateComment(issue)) <==> commentId.Some? && issue in old(comments)
      ensures r == Ok(true) <==> commentId.Some? && issue !in old(comments)
      ensures comments == if r == Ok(true) then old(comments)[issue := commentId.value] else old(comments)
      ensures forall k :: k in old(comments) ==> k in comments && comments[k] == old(comments)[k]
    {
      if commentId.None? {
        return Ok(false);
      }
      if issue in comments {
        return Err(DuplicateComment(issue));
      }
      comments := comments[issue := commentId.value];
      r := Ok(true);
    }

    /**
     * `CreateInitialPrComment`: when the pull request has no comment record
     * yet, posts the "generating_map" comment (`posted`) and records the id
     * GitHub returned (`createdId`); otherwise does nothing.
     */
    method CreateInitialPrComment(issue: IssueKey, createdId: Option<int>) returns (posted: bool)
      modifies this
      ensures posted <==> issue !in old(comments)
      ensures comments == if posted && createdId.Some? then old(comments)[issue := createdId.value] else old(comments)
    {
      if issue in comments {
        return false;
      }
      var _ := SavePrComment(createdId, issue);
      posted := true;
    }
  }

  /**
   * `HandlePushEvent`: offers the push's build request to the queue, if the
   * push leads to one; a full queue drops it.
   */
  method HandlePushEvent(queue: Queue.ProcessQueue, config: GitConfig, event: PushEvent, changed: seq<string>)
    returns (offered: Option<ProcessItem>)
    requires queue.Valid()
    modifies queue
    ensures queue.Valid()
    ensures offered == PushItem(config, event, changed)
    ensures queue.items ==
      if offered.Some? && |old(queue.items)| < queue.maxItemCount then old(queue.items) + [offered.value]
      else old(queue.items)
  {
    offered := PushItem(config, event, changed);
    if offered.Some? {
      var _ := queue.TryQueueProcessItem(offered.value);
    }
  }

  /**
   * `HandlePullRequestEvent`: when the event leads to a build request, first
   * makes sure the pull request has its initial comment, then offers the
   * request to the queue.
   */
  method HandlePullRequestEvent(queue: Queue.ProcessQueue, store: PullRequestCommentStore, config: GitConfig,
                                event: PullRequestEvent, changed: seq<string>, createdId: Option<int>)
    returns (offered: Option<ProcessItem>, posted: bool)
    requires queue.Valid()
    modifies queue, store
    ensures queue.Valid()
    ensures offered == PullRequestItem(config, event, changed)
    ensures queue.items ==
      if offered.Some? && |old(queue.items)| < queue.maxItemCount then old(queue.items) + [offered.value]
      else old(queue.items)
    ensures posted <==> offered.Some? && IssueKey(event.baseOwner, event.baseRepository, event.number) !in old(store.comments)
    ensures store.comments ==
      if posted && createdId.Some? then old(store.comments)[IssueKey(event.baseOwner, event.baseRepository, event.number) := createdId.value]
      else old(store.comments)
  {
    offered := PullRequestItem(config, event, changed);
    posted := false;
    if offered.Some? {
      posted := store.CreateInitialPrComment(IssueKey(event.baseOwner, event.baseRepository, event.number), createdId);
      var _ := queue.TryQueueProcessItem(offered.value);
    }
  }

  /** Which handler a delivery reaches. */
  datatype EventKind = PushHandled | PullRequestHandled | Ignored

  /** The outcome of `Post`. */
  datatype PostResponse =
    | NotFound              // building is disabled
    | Unauthorized          // no event header, or the signature does not verify
    | Handled(kind: EventKind)
    | Failed(error: WebhookHelper.WebhookError)  // the secret is not set

  /**
   * `Post`: disabled building answers 404; a missing `x-github-event` header
   * answers 401 without looking at the signature; a signature that does not
   * verify answers 401; otherwise "push" and "pull_request" events go to their
   * handlers and any other event is acknowledged and ignored.
   */
  function Post(buildEnabled: bool, secret: Option<string>, headers: WebhookHelper.WebhookHeaders, payload: string,
                hmac: (seq<WebhookHelper.byte>, seq<WebhookHelper.byte>) -> seq<WebhookHelper.byte>): (r: PostResponse)
    ensures r == NotFound <==> !buildEnabled
    ensures r.Handled? <==>
      buildEnabled && headers.event.Some? && WebhookHelper.VerifyWebhook(secret, headers, payload, hmac) == Ok(true)
    ensures r.Handled? ==> (r.kind == PushHandled <==> headers.event.value == "push")
    ensures r.Handled? ==> (r.kind == PullRequestHandled <==> headers.event.value == "pull_request")
    ensures r.Failed? <==> buildEnabled && headers.event.Some? && (secret.None? || secret.value == "")
  {
    if !buildEnabled then NotFound
    else if headers.event.None? then Unauthorized
    else
      match WebhookHelper.VerifyWebhook(secret, headers, payload, hmac)
      case Err(e) => Failed(e)
      case Ok(false) => Unauthorized
      case Ok(true) =>
        if headers.event.value == "push" then Handled(PushHandled)
        else if headers.event.value == "pull_request" then Handled(PullRequestHandled)
        else Handled(Ignored)
  }

  /** A delivery without an event header is refused even when the secret is missing. */
  lemma MissingEventHeaderUnauthorized(secret: Option<string>, headers: WebhookHelper.WebhookHeaders, payload: string,
                                       hmac: (seq<WebhookHelper.byte>, seq<WebhookHelper.byte>) -> seq<WebhookHelper.byte>)
    requires headers.event.None?
    ensures Post(true, secret, headers, payload, hmac) == Unauthorized
  {
  }
}
