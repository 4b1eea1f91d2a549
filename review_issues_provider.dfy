/** The "review" view: every issue, but only for admins and reviewers
    (src/views/reviewIssuesProvider.ts). */
module ReviewIssues {
  import opened Wrappers
  import opened Text
  import opened Roles
  import opened Issues
  import opened Storage
  import opened Workspace
  import opened Users
  import opened IssueTree

  /** The issues `getReviewIssues` lists for a role: all of them, unfiltered and in store order, for an
      admin or a reviewer; none for anybody else. */
  function ReviewIssuesOf(issues: seq<CodeReviewIssue>, role: UserRole): seq<CodeReviewIssue> {
    if role != Admin && role != Reviewer then [] else issues
  }

  /** The role is asked for without a file, so what the view shows depends only on the two lists:
      everything exactly when the user is named and on one of them. */
  lemma ReviewVisibility(issues: seq<CodeReviewIssue>, userName: string, admins: seq<string>,
                         reviewers: seq<string>, cache: map<string, seq<string>>, env: Env)
    ensures var role := ResolveRole(userName, admins, reviewers, AuthorsFor(cache, env, None));
      ReviewIssuesOf(issues, role)
        == if userName != "" && (userName in admins || userName in reviewers) then issues else []
  {
  }

  /** `ReviewIssuesProvider`: the view's unsynchronised-changes flag, over the store and the user
      service. */
  class ReviewIssuesProvider {
    const storage: IssueStorage
    const users: UserService
    /** `_hasChanges`. */
    var hasChanges: bool

    constructor (storage: IssueStorage, users: UserService)
      ensures this.storage == storage && this.users == users && !hasChanges
    {
      this.storage := storage;
      this.users := users;
      hasChanges := false;
    }

    /** `setHasChanges(value)`. */
    method SetHasChanges(value: bool)
      modifies this`hasChanges
      ensures hasChanges == value
    {
      hasChanges := value;
    }

    /** `hasChanges()`: the value last set. */
    method HasChanges() returns (value: bool)
      ensures value == hasChanges
    {
      value := hasChanges;
    }

    /** `getReviewIssues()`: the role without a file path gates the whole list. */
    method GetReviewIssues(env: Env) returns (items: seq<TreeItem>)
      modifies users`fileAuthors
      ensures items == Map(ReviewIssuesOf(Load(storage.file), users.CurrentRole(None, env)), CollapsedItem)
      ensures users.fileAuthors == old(users.fileAuthors)
    {
      var issues := storage.GetIssues();
      var userRole := users.GetCurrentUserRole(None, env);
      if userRole != Admin && userRole != Reviewer {
        return [];
      }
      items := Map(issues, CollapsedItem);
    }

    /** `getChildren(element)`: the gated list at the root, an issue's replies below it. */
    method GetChildren(element: Option<TreeItem>, env: Env) returns (items: seq<TreeItem>)
      modifies users`fileAuthors
      ensures element.Some? ==> items == Children(element.value)
      ensures element.None? ==> items == Map(ReviewIssuesOf(Load(storage.file), users.CurrentRole(None, env)), CollapsedItem)
      ensures users.fileAuthors == old(users.fileAuthors)
    {
      match element {
        case Some(item) =>
          items := Children(item);
        case None =>
          items := GetReviewIssues(env);
      }
    }
  }
}
