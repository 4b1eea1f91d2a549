/** The commands of the extension: each reads the store, checks what it must, changes one issue and
    marks the views as having unsynchronised changes (src/extension.ts). Dialog answers, the editor,
    the clock and the outside world are parameters. */
module Commands {
  import opened Wrappers
  import opened Text
  import opened Roles
  import opened Issues
  import opened Storage
  import opened Workspace
  import opened Settings
  import opened Users
  import opened GitUsers
  import opened GitSync
  import opened IssueTree
  import opened MyIssues
  import opened ReviewIssues

  /** The name `ensureUserNameSet` returns while the user is on the settings page. */
  const SettingName: string := "SETTING"
  /** The placeholder name of a user who declined to set one. */
  const UnknownUser: string := "未知用户"

  /** What `ensureUserNameSet` returns: the configured name if set; otherwise, when git knows a name,
      that name for '使用', the settings marker for '手动设置', and the placeholder for anything else
      (including a dismissed prompt); without a git name, the settings marker for '现在设置' and the
      placeholder otherwise. */
  function UserNameFor(configured: string, env: Env, selection: Option<string>): string {
    if configured != "" then configured
    else
      match GetGitUserName(env)
      case Some(gitUserName) =>
        if selection == Some("使用") then gitUserName
        else if selection == Some("手动设置") then SettingName
        else UnknownUser
      case None =>
        if selection == Some("现在设置") then SettingName else UnknownUser
  }

  /** The configured name after the prompt: the git name when the user chose to use it. */
  function ConfiguredAfter(configured: string, env: Env, selection: Option<string>): string {
    if configured == "" && GetGitUserName(env).Some? && selection == Some("使用") then GetGitUserName(env).value
    else configured
  }

  /** The name is never empty (so never null); it is the settings marker only when the user went to the
      settings page or when the configured or adopted git name is literally that marker; dismissing the prompt gives the placeholder; and
      adopting the git name stores it, so the returned name is the configured one afterwards. */
  lemma UserNameForCases(configured: string, env: Env, selection: Option<string>)
    ensures UserNameFor(configured, env, selection) != ""
    ensures UserNameFor(configured, env, selection) == SettingName
            ==> configured == SettingName || selection == Some("手动设置") || selection == Some("现在设置")
                || (selection == Some("使用") && GetGitUserName(env) == Some(SettingName))
    ensures configured == "" && selection.None? ==> UserNameFor(configured, env, selection) == UnknownUser
    ensures UserNameFor(configured, env, selection) != UnknownUser && UserNameFor(configured, env, selection) != SettingName
            ==> ConfiguredAfter(configured, env, selection) == UserNameFor(configured, env, selection)
  {
  }

  /** The issue `addIssue` creates: open, with an empty thread, raised by the user at the cursor line;
      its id is the decimal time stamp. */
  function NewIssue(now: nat, filePath: string, line: nat, description: string, userName: string): CodeReviewIssue {
    CodeReviewIssue(DecimalString(now), filePath, line, description, Open, now, now, Some([]), Some(userName))
  }

  /** The issue after `resolveIssue`: fixed, updated now. */
  function AsFixed(issue: CodeReviewIssue, now: nat): CodeReviewIssue {
    issue.(status := Fixed, updatedAt := now)
  }

  /** The issue after `approveIssue`: approved, updated now. */
  function AsApproved(issue: CodeReviewIssue, now: nat): CodeReviewIssue {
    issue.(status := Approved, updatedAt := now)
  }

  /** The issue after `replyToIssue`: the reply appended to its thread (created if absent), updated now. */
  function WithReply(issue: CodeReviewIssue, reply: IssueReply, now: nat): CodeReviewIssue {
    issue.(replies := Some(issue.Thread() + [reply]), updatedAt := now)
  }

  /** A reply grows the thread by one at the end and keeps the earlier replies in order; resolving and
      approving do not touch the thread. Each keeps the id, so saving it replaces the stored
      issue in place. */
  lemma UpdatesKeepIdentity(s: seq<CodeReviewIssue>, issue: CodeReviewIssue, reply: IssueReply, now: nat)
    requires FindIndex(s, issue.id) >= 0
    ensures var t := WithReply(issue, reply, now).Thread();
      |t| == |issue.Thread()| + 1 && t[|t| - 1] == reply && t[..|issue.Thread()|] == issue.Thread()
    ensures AsFixed(issue, now).Thread() == issue.Thread() && AsApproved(issue, now).Thread() == issue.Thread()
    ensures var k := FindIndex(s, issue.id);
      Upserted(s, AsFixed(issue, now)) == s[k := AsFixed(issue, now)]
      && Upserted(s, AsApproved(issue, now)) == s[k := AsApproved(issue, now)]
      && Upserted(s, WithReply(issue, reply, now)) == s[k := WithReply(issue, reply, now)]
  {
    UpsertReplaces(s, AsFixed(issue, now));
    UpsertReplaces(s, AsApproved(issue, now));
    UpsertReplaces(s, WithReply(issue, reply, now));
  }

  /** What the permission gates mean for a user: resolving needs an admin or a file author who is not a
      reviewer; approving needs an admin or a reviewer; deleting needs an admin. */
  lemma PermissionGates(userName: string, admins: seq<string>, reviewers: seq<string>, authors: Option<seq<string>>)
    ensures var p := RolePermissions(ResolveRole(userName, admins, reviewers, authors));
      (p.canResolve <==> userName != "" && (userName in admins
                          || (userName !in reviewers && authors.Some? && userName in authors.value)))
      && (p.canApprove <==> userName != "" && (userName in admins || userName in reviewers))
      && (p.canDelete <==> userName != "" && userName in admins)
  {
  }

  /** The node a reply command targets: an issue node's issue, or a reply node's parent issue. */
  function Target(item: TreeItem): CodeReviewIssue {
    match item
    case IssueItem(issue, _) => issue
    case ReplyItem(_, parentIssue, _) => parentIssue
  }

  /** The editor a command sees: the open file and the line of the cursor. */
  datatype Editor = Editor(filePath: string, line: nat)

  /** `openIssueLocation(issue)`: None when the file does not exist; otherwise the line the cursor is put
      on, which is the issue's line, or the last line of a shorter document. */
  function OpenIssueLocation(issue: CodeReviewIssue, env: Env, lineCount: nat): (line: Option<int>)
    ensures line.None? <==> issue.filePath !in env.files
    ensures line.Some? ==> line.value <= issue.lineNumber && line.value < lineCount
                           && (line.value == issue.lineNumber || line.value == lineCount - 1)
                           && (lineCount >= 1 ==> line.value >= 0)
  {
    if issue.filePath !in env.files then None else Some(ClampLine(issue.lineNumber, lineCount))
  }

  /** The activated extension: the shared configuration, the store, the user service, the two views
      with a changes flag, and the workspace files a sync writes. */
  class Extension {
    const config: Configuration
    const storage: IssueStorage
    const users: UserService
    const myIssues: MyIssuesProvider
    const reviewIssues: ReviewIssuesProvider
    const files: ProjectFiles

    /** The services all read the one configuration and the views show the one store. */
    predicate Valid()
      reads this, users, myIssues, reviewIssues
    {
      users.config == config && myIssues.storage == storage && myIssues.users == users
      && reviewIssues.storage == storage && reviewIssues.users == users
    }

    /** `activate`: create the services and views, then `checkAndSetUserName`. */
    constructor (config: Configuration, stored: BackingFile, files: ProjectFiles, env: Env, selection: Option<string>)
      modifies config
      ensures Valid() && this.config == config && this.files == files
      ensures storage.file == stored && users.fileAuthors == map[]
      ensures users.adminUsers == BootstrapAdmins(old(config.adminUsers), old(config.userName))
      ensures users.reviewers == old(config.reviewers)
      ensures config.adminUsers == users.adminUsers && config.reviewers == old(config.reviewers)
      ensures config.userName == ConfiguredAfter(old(config.userName), env, selection)
      ensures !myIssues.hasChanges && !reviewIssues.hasChanges
    {
      this.config := config;
      this.files := files;
      var store := new IssueStorage(stored);
      var userService := new UserService(config);
      storage := store;
      users := userService;
      myIssues := new MyIssuesProvider(store, userService);
      reviewIssues := new ReviewIssuesProvider(store, userService);
      new;
      CheckAndSetUserName(env, selection);
    }

    /** `checkAndSetUserName()`: with no name configured, offer the git name and store it on '使用'. */
    method CheckAndSetUserName(env: Env, selection: Option<string>)
      modifies config`userName
      ensures config.userName == ConfiguredAfter(old(config.userName), env, selection)
    {
      if config.userName != "" {
        return;
      }
      var gitUserName := GetGitUserName(env);
      if gitUserName.Some? && selection == Some("使用") {
        config.userName := gitUserName.value;
      }
    }

    /** `ensureUserNameSet()`. */
    method EnsureUserNameSet(env: Env, selection: Option<string>) returns (userName: string)
      modifies config`userName
      ensures userName == UserNameFor(old(config.userName), env, selection)
      ensures config.userName == ConfiguredAfter(old(config.userName), env, selection)
    {
      userName := config.userName;
      if userName != "" {
        return;
      }
      var gitUserName := GetGitUserName(env);
      if gitUserName.Some? {
        if selection == Some("使用") {
          config.userName := gitUserName.value;
          return gitUserName.value;
        } else if selection == Some("手动设置") {
          return SettingName;
        } else {
          return UnknownUser;
        }
      } else {
        if selection == Some("现在设置") {
          return SettingName;
        } else {
          return UnknownUser;
        }
      }
    }

    /** Every successful change marks both views. */
    method MarkChanged()
      modifies myIssues`hasChanges, reviewIssues`hasChanges
      ensures myIssues.hasChanges && reviewIssues.hasChanges
    {
      myIssues.SetHasChanges(true);
      reviewIssues.SetHasChanges(true);
    }

    /** `code-river.addIssue`: abort without an editor, while the user is on the settings page, or on an
        empty description; otherwise store a new open issue at the cursor and mark the views. */
    method AddIssue(editor: Option<Editor>, env: Env, selection: Option<string>, description: Option<string>, now: nat)
      requires Valid()
      modifies config`userName, storage, myIssues`hasChanges, reviewIssues`hasChanges
      ensures Valid()
      ensures editor.None? ==> config.userName == old(config.userName)
      ensures editor.Some? ==> config.userName == ConfiguredAfter(old(config.userName), env, selection)
      ensures var userName := UserNameFor(old(config.userName), env, selection);
        var added := editor.Some? && userName != SettingName && description.Some? && description.value != "";
        (added ==> storage.file == Stored(Upserted(old(Load(storage.file)),
                     NewIssue(now, editor.value.filePath, editor.value.line, description.value, userName)))
                   && myIssues.hasChanges && reviewIssues.hasChanges)
        && (!added ==> storage.file == old(storage.file) && myIssues.hasChanges == old(myIssues.hasChanges)
                       && reviewIssues.hasChanges == old(reviewIssues.hasChanges))
    {
      if editor.None? {
        return;
      }
      var userName := EnsureUserNameSet(env, selection);
      if userName == SettingName {
        return;
      }
      if description.None? || description.value == "" {
        return;
      }
      var issue := NewIssue(now, editor.value.filePath, editor.value.line, description.value, userName);
      storage.SaveIssue(issue);
      MarkChanged();
    }

    /** `code-river.resolveIssue`: on an issue node, and only with `canResolve` for its file, store it as
        fixed and mark the views. */
    method ResolveIssue(item: Option<TreeItem>, env: Env, now: nat)
      requires Valid()
      modifies storage, myIssues`hasChanges, reviewIssues`hasChanges, users`fileAuthors
      ensures Valid()
      ensures item.None? || !item.value.IssueItem? ==> unchanged(storage, myIssues, reviewIssues, users)
      ensures item.Some? && item.value.IssueItem? ==>
        var issue := item.value.issue;
        var allowed := RolePermissions(old(users.CurrentRole(Some(issue.filePath), env))).canResolve;
        users.fileAuthors == (if LooksUpAuthors(config.userName, users.adminUsers, users.reviewers, Some(issue.filePath))
                              then Cached(old(users.fileAuthors), env, issue.filePath) else old(users.fileAuthors))
        &&
        (allowed ==> storage.file == Stored(Upserted(old(Load(storage.file)), AsFixed(issue, now)))
                     && myIssues.hasChanges && reviewIssues.hasChanges)
        && (!allowed ==> unchanged(storage, myIssues, reviewIssues))
    {
      if item.None? || !item.value.IssueItem? {
        return;
      }
      var issue := item.value.issue;
      var permissions := users.GetUserPermissions(Some(issue.filePath), env);
      if !permissions.canResolve {
        return;
      }
      issue := issue.(status := Fixed, updatedAt := now);
      storage.SaveIssue(issue);
      MarkChanged();
    }

    /** `code-river.approveIssue`: the same gate on `canApprove`, storing the issue as approved. */
    method ApproveIssue(item: Option<TreeItem>, env: Env, now: nat)
      requires Valid()
      modifies storage, myIssues`hasChanges, reviewIssues`hasChanges, users`fileAuthors
      ensures Valid()
      ensures item.None? || !item.value.IssueItem? ==> unchanged(storage, myIssues, reviewIssues, users)
      ensures item.Some? && item.value.IssueItem? ==>
        var issue := item.value.issue;
        var allowed := RolePermissions(old(users.CurrentRole(Some(issue.filePath), env))).canApprove;
        users.fileAuthors == (if LooksUpAuthors(config.userName, users.adminUsers, users.reviewers, Some(issue.filePath))
                              then Cached(old(users.fileAuthors), env, issue.filePath) else old(users.fileAuthors))
        &&
        (allowed ==> storage.file == Stored(Upserted(old(Load(storage.file)), AsApproved(issue, now)))
                     && myIssues.hasChanges && reviewIssues.hasChanges)
        && (!allowed ==> unchanged(storage, myIssues, reviewIssues))
    {
      if item.None? || !item.value.IssueItem? {
        return;
      }
      var issue := item.value.issue;
      var permissions := users.GetUserPermissions(Some(issue.filePath), env);
      if !permissions.canApprove {
        return;
      }
      issue := issue.(status := Approved, updatedAt := now);
      storage.SaveIssue(issue);
      MarkChanged();
    }

    /** `code-river.replyToIssue`: no permission is checked; after the name prompt, a non-empty reply is
        appended to the issue of the node (the parent issue for a reply node) and stored. */
    method ReplyToIssue(item: Option<TreeItem>, env: Env, selection: Option<string>, content: Option<string>, now: nat)
      requires Valid()
      modifies config`userName, storage, myIssues`hasChanges, reviewIssues`hasChanges
      ensures Valid()
      ensures item.None? ==> config.userName == old(config.userName)
      ensures item.Some? ==> config.userName == ConfiguredAfter(old(config.userName), env, selection)
      ensures var userName := UserNameFor(old(config.userName), env, selection);
        var replied := item.Some? && userName != SettingName && content.Some? && content.value != "";
        (replied ==> storage.file == Stored(Upserted(old(Load(storage.file)),
                       WithReply(Target(item.value), IssueReply(DecimalString(now), content.value, userName, now), now)))
                     && myIssues.hasChanges && reviewIssues.hasChanges)
        && (!replied ==> storage.file == old(storage.file) && myIssues.hasChanges == old(myIssues.hasChanges)
                         && reviewIssues.hasChanges == old(reviewIssues.hasChanges))
    {
      if item.None? {
        return;
      }
      var userName := EnsureUserNameSet(env, selection);
      if userName == SettingName {
        return;
      }
      var issue := Target(item.value);
      if content.None? || content.value == "" {
        return;
      }
      var reply := IssueReply(DecimalString(now), content.value, userName, now);
      var replies := if issue.replies.None? then [] else issue.replies.value;
      issue := issue.(replies := Some(replies + [reply]), updatedAt := now);
      storage.SaveIssue(issue);
      MarkChanged();
    }

    /** `code-river.deleteIssue`: on an issue node, with `canDelete` and the confirmation '确定', drop the
        issue's id from the store and mark the views. The permission is checked before the prompt. */
    method DeleteIssue(item: Option<TreeItem>, env: Env, confirmation: Option<string>)
      requires Valid()
      modifies storage, myIssues`hasChanges, reviewIssues`hasChanges, users`fileAuthors
      ensures Valid()
      ensures item.None? || !item.value.IssueItem? ==> unchanged(storage, myIssues, reviewIssues, users)
      ensures item.Some? && item.value.IssueItem? ==>
        var issue := item.value.issue;
        var allowed := RolePermissions(old(users.CurrentRole(Some(issue.filePath), env))).canDelete;
        users.fileAuthors == (if LooksUpAuthors(config.userName, users.adminUsers, users.reviewers, Some(issue.filePath))
                              then Cached(old(users.fileAuthors), env, issue.filePath) else old(users.fileAuthors))
        &&
        (allowed && confirmation == Some("确定") ==> storage.file == Stored(WithoutId(old(Load(storage.file)), issue.id))
                                                   && myIssues.hasChanges && reviewIssues.hasChanges)
        && (!(allowed && confirmation == Some("确定")) ==> unchanged(storage, myIssues, reviewIssues))
    {
      if item.None? || !item.value.IssueItem? {
        return;
      }
      var issue := item.value.issue;
      var permissions := users.GetUserPermissions(Some(issue.filePath), env);
      if !permissions.canDelete {
        return;
      }
      if confirmation != Some("确定") {
        return;
      }
      storage.DeleteIssue(issue.id);
      MarkChanged();
    }

    /** `code-river.setAdmin`: add a non-empty entered name to the admins. */
    method SetAdmin(input: Option<string>) returns (added: bool)
      requires Valid()
      modifies users, config
      ensures Valid()
      ensures input.None? || input.value == "" ==> !added && unchanged(users, config)
      ensures input.Some? && input.value != "" ==>
                users.adminUsers == Added(old(users.adminUsers), input.value)
                && (added <==> input.value !in old(users.adminUsers))
                && config.adminUsers == (if added then users.adminUsers else old(config.adminUsers))
                && users.reviewers == old(users.reviewers) && users.fileAuthors == old(users.fileAuthors)
                && config.userName == old(config.userName) && config.reviewers == old(config.reviewers)
    {
      if input.None? || input.value == "" {
        return false;
      }
      added := users.AddAdmin(input.value);
    }

    /** `code-river.setReviewer`: add a non-empty entered name to the reviewers. */
    method SetReviewer(input: Option<string>) returns (added: bool)
      requires Valid()
      modifies users, config
      ensures Valid()
      ensures input.None? || input.value == "" ==> !added && unchanged(users, config)
      ensures input.Some? && input.value != "" ==>
                users.reviewers == Added(old(users.reviewers), input.value)
                && (added <==> input.value !in old(users.reviewers))
                && config.reviewers == (if added then users.reviewers else old(config.reviewers))
                && users.adminUsers == old(users.adminUsers) && users.fileAuthors == old(users.fileAuthors)
                && config.userName == old(config.userName) && config.adminUsers == old(config.adminUsers)
    {
      if input.None? || input.value == "" {
        return false;
      }
      added := users.AddReviewer(input.value);
    }

    /** `code-river.syncMyIssues`: sync the whole store, then clear this view's flag, whatever the sync
        returned. */
    method SyncMyIssues(env: Env, relative: string -> string)
      requires Valid()
      modifies files, myIssues`hasChanges
      ensures Valid()
      ensures !myIssues.hasChanges
      ensures Synced(files, Load(storage.file), env, relative)
    {
      var issues := storage.GetIssues();
      var _ := SyncIssuesToGit(issues, env, relative, files);
      myIssues.SetHasChanges(false);
    }

    /** `code-river.syncReviewIssues`: the same for the review view's flag. */
    method SyncReviewIssues(env: Env, relative: string -> string)
      requires Valid()
      modifies files, reviewIssues`hasChanges
      ensures Valid()
      ensures !reviewIssues.hasChanges
      ensures Synced(files, Load(storage.file), env, relative)
    {
      var issues := storage.GetIssues();
      var _ := SyncIssuesToGit(issues, env, relative, files);
      reviewIssues.SetHasChanges(false);
    }

    /** `code-river.syncWithGit`: sync the whole store; no flag changes. */
    method SyncWithGit(env: Env, relative: string -> string) returns (ok: bool)
      requires Valid()
      modifies files
      ensures ok <==> SyncSucceeds(Load(storage.file), env)
      ensures Synced(files, Load(storage.file), env, relative)
    {
      var issues := storage.GetIssues();
      ok := SyncIssuesToGit(issues, env, relative, files);
    }
  }
}
