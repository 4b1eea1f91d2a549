/** The "my issues" view: issues on files the user authored, and issues the user raised
    (src/views/myIssuesProvider.ts). */
module MyIssues {
  import opened Wrappers
  import opened Text
  import opened Roles
  import opened Issues
  import opened Storage
  import opened Workspace
  import opened Users
  import opened IssueTree

  /** An issue is the user's when the user's role for its file is Author, or the user raised it. */
  predicate IsMine(issue: CodeReviewIssue, userName: string, admins: seq<string>, reviewers: seq<string>,
                   cache: map<string, seq<string>>, env: Env) {
    ResolveRole(userName, admins, reviewers, AuthorsFor(cache, env, Some(issue.filePath))) == Author
    || issue.author == Some(userName)
  }

  /** `IsMine` as the callback of a filter. */
  function Mine(userName: string, admins: seq<string>, reviewers: seq<string>,
                cache: map<string, seq<string>>, env: Env): CodeReviewIssue -> bool {
    (issue: CodeReviewIssue) => IsMine(issue, userName, admins, reviewers, cache, env)
  }

  /** The issues `getMyIssues` lists: none for an empty user name, otherwise the user's issues in store
      order. */
  function MyIssuesOf(issues: seq<CodeReviewIssue>, userName: string, admins: seq<string>,
                      reviewers: seq<string>, cache: map<string, seq<string>>, env: Env): seq<CodeReviewIssue> {
    if userName == "" then [] else Filter(issues, Mine(userName, admins, reviewers, cache, env))
  }

  /** The view keeps stored issues in their order, and keeps exactly those whose file the user authored
      or which the user raised. */
  lemma MyIssuesMembers(issues: seq<CodeReviewIssue>, userName: string, admins: seq<string>,
                        reviewers: seq<string>, cache: map<string, seq<string>>, env: Env, issue: CodeReviewIssue)
    ensures IsSubsequence(MyIssuesOf(issues, userName, admins, reviewers, cache, env), issues)
    ensures issue in MyIssuesOf(issues, userName, admins, reviewers, cache, env)
      <==> issue in issues && userName != ""
           && (ResolveRole(userName, admins, reviewers, AuthorsFor(cache, env, Some(issue.filePath))) == Author
               || issue.author == Some(userName))
  {
    if userName == "" {
      assert MyIssuesOf(issues, userName, admins, reviewers, cache, env) == [];
    } else {
      FilterIsSubsequence(issues, Mine(userName, admins, reviewers, cache, env));
    }
  }

  /** Admins and reviewers never resolve to Author, so their view holds only the issues they raised,
      in store order. */
  lemma ListedUsersSeeOwnIssues(issues: seq<CodeReviewIssue>, userName: string, admins: seq<string>,
                                reviewers: seq<string>, cache: map<string, seq<string>>, env: Env)
    requires userName != "" && (userName in admins || userName in reviewers)
    ensures MyIssuesOf(issues, userName, admins, reviewers, cache, env)
            == Filter(issues, (issue: CodeReviewIssue) => issue.author == Some(userName))
  {
    FilterCongruent(issues, Mine(userName, admins, reviewers, cache, env),
                    (issue: CodeReviewIssue) => issue.author == Some(userName));
  }

  /** A cache that answers like the one the view started from decides membership the same way. */
  lemma MineAgrees(userName: string, admins: seq<string>, reviewers: seq<string>, cache: map<string, seq<string>>,
                   current: map<string, seq<string>>, env: Env, issue: CodeReviewIssue)
    requires SameLookups(current, cache, env)
    ensures Mine(userName, admins, reviewers, cache, env)(issue)
            <==> ResolveRole(userName, admins, reviewers, AuthorsFor(current, env, Some(issue.filePath))) == Author
                 || issue.author == Some(userName)
  {
    assert AuthorsFor(current, env, Some(issue.filePath)) == AuthorsFor(cache, env, Some(issue.filePath));
  }

  /** The author cache after the role of the user has been asked for each issue's file in store order:
      each file whose role the two lists leave open is passed through `Cached`. */
  function CachedAlong(issues: seq<CodeReviewIssue>, userName: string, admins: seq<string>,
                       reviewers: seq<string>, cache: map<string, seq<string>>, env: Env)
    : map<string, seq<string>>
    decreases |issues|
  {
    if issues == [] then cache
    else
      var front := CachedAlong(issues[..|issues| - 1], userName, admins, reviewers, cache, env);
      var path := issues[|issues| - 1].filePath;
      if LooksUpAuthors(userName, admins, reviewers, Some(path)) then Cached(front, env, path) else front
  }

  /** One more issue: its file is looked up, and cached when new, exactly when the lists leave the role
      open. */
  lemma CachedAlongStep(issues: seq<CodeReviewIssue>, i: nat, userName: string, admins: seq<string>,
                        reviewers: seq<string>, cache: map<string, seq<string>>, env: Env)
    requires i < |issues|
    ensures var before := CachedAlong(issues[..i], userName, admins, reviewers, cache, env);
      CachedAlong(issues[..i + 1], userName, admins, reviewers, cache, env)
        == if LooksUpAuthors(userName, admins, reviewers, Some(issues[i].filePath))
           then Cached(before, env, issues[i].filePath) else before
  {
    assert issues[..i + 1][..i] == issues[..i];
  }

  /** The cache the walk leaves: the old entries unchanged, plus the files whose role the lists left
      open, each holding its authors in the environment of the walk. */
  lemma {:induction false} CachedAlongContents(issues: seq<CodeReviewIssue>, userName: string, admins: seq<string>,
                                               reviewers: seq<string>, cache: map<string, seq<string>>, env: Env)
    ensures var r := CachedAlong(issues, userName, admins, reviewers, cache, env);
      (forall p :: p in r <==> p in cache || (exists k :: 0 <= k < |issues| && issues[k].filePath == p
                                                     && LooksUpAuthors(userName, admins, reviewers, Some(p))))
      && (forall p :: p in cache ==> r[p] == cache[p])
      && (forall p :: p in r && p !in cache ==> r[p] == FileAuthors(env, p))
    decreases |issues|
  {
    if issues != [] {
      var init := issues[..|issues| - 1];
      CachedAlongContents(init, userName, admins, reviewers, cache, env);
      assert forall k :: 0 <= k < |init| ==> init[k] == issues[k];
    }
  }

  /** The walk changes no lookup in its own environment. */
  lemma {:induction false} CachedAlongSameLookups(issues: seq<CodeReviewIssue>, userName: string, admins: seq<string>,
                                                  reviewers: seq<string>, cache: map<string, seq<string>>, env: Env)
    ensures SameLookups(CachedAlong(issues, userName, admins, reviewers, cache, env), cache, env)
    decreases |issues|
  {
    if issues != [] {
      var init := issues[..|issues| - 1];
      CachedAlongSameLookups(init, userName, admins, reviewers, cache, env);
      FillKeepsLookups(CachedAlong(init, userName, admins, reviewers, cache, env), cache, env, issues[|issues| - 1].filePath);
    }
  }

  /** `MyIssuesProvider`: the view's unsynchronised-changes flag, over the store and the user service. */
  class MyIssuesProvider {
    const storage: IssueStorage
    const users: UserService
    /** `_hasChanges`. */
    var hasChanges: bool

    constructor (storage: IssueStorage, users: UserService)
      ensures this.storage == storage && this.users == users && !hasChanges
    {
      this.storage := storage;
      this.users := users;
      hasChanges := false;
    }

    /** `setHasChanges(value)`. */
    method SetHasChanges(value: bool)
      modifies this`hasChanges
      ensures hasChanges == value
    {
      hasChanges := value;
    }

    /** `hasChanges()`: the value last set. */
    method HasChanges() returns (value: bool)
      ensures value == hasChanges
    {
      value := hasChanges;
    }

    /** `getMyIssues()`: walk the store, asking the user service for the role on each issue's file.
        Each lookup may fill the author cache, but no lookup in the same environment sees a different
        answer for it. */
    method GetMyIssues(env: Env) returns (items: seq<TreeItem>)
      modifies users`fileAuthors
      ensures items == Map(MyIssuesOf(Load(storage.file), users.config.userName, users.adminUsers,
                                      users.reviewers, old(users.fileAuthors), env), CollapsedItem)
      ensures users.fileAuthors == if users.config.userName == "" then old(users.fileAuthors)
                                   else CachedAlong(Load(storage.file), users.config.userName, users.adminUsers,
                                                    users.reviewers, old(users.fileAuthors), env)
      ensures SameLookups(users.fileAuthors, old(users.fileAuthors), env)
    {
      var issues := storage.GetIssues();
      var userName := users.config.userName;
      if userName == "" {
        return [];
      }
      ghost var cache := users.fileAuthors;
      ghost var keep := Mine(userName, users.adminUsers, users.reviewers, cache, env);
      var myIssues: seq<CodeReviewIssue> := [];
      var i := 0;
      while i < |issues|
        invariant 0 <= i <= |issues|
        invariant myIssues == Filter(issues[..i], keep)
        invariant users.fileAuthors == CachedAlong(issues[..i], userName, users.adminUsers, users.reviewers, cache, env)
      {
        var issue := issues[i];
        CachedAlongSameLookups(issues[..i], userName, users.adminUsers, users.reviewers, cache, env);
        MineAgrees(userName, users.adminUsers, users.reviewers, cache, users.fileAuthors, env, issue);
        CachedAlongStep(issues, i, userName, users.adminUsers, users.reviewers, cache, env);
        var role := users.GetCurrentUserRole(Some(issue.filePath), env);
        FilterPrefixStep(issues, i, keep);
        if role == Author || issue.author == Some(userName) {
          myIssues := myIssues + [issue];
        }
        i := i + 1;
      }
      assert issues[..i] == issues;
      CachedAlongSameLookups(issues, userName, users.adminUsers, users.reviewers, cache, env);
      items := Map(myIssues, CollapsedItem);
    }

    /** `getChildren(element)`: the user's issues at the root, an issue's replies below it. */
    method GetChildren(element: Option<TreeItem>, env: Env) returns (items: seq<TreeItem>)
      modifies users`fileAuthors
      ensures element.Some? ==> items == Children(element.value) && users.fileAuthors == old(users.fileAuthors)
      ensures element.None? ==> items == Map(MyIssuesOf(Load(storage.file), users.config.userName, users.adminUsers,
                                                        users.reviewers, old(users.fileAuthors), env), CollapsedItem)
      ensures element.None? ==> users.fileAuthors == if users.config.userName == "" then old(users.fileAuthors)
                                   else CachedAlong(Load(storage.file), users.config.userName, users.adminUsers,
                                                    users.reviewers, old(users.fileAuthors), env)
    {
      match element {
        case Some(item) =>
          items := Children(item);
        case None =>
          items := GetMyIssues(env);
      }
    }
  }
}
