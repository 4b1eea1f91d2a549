/** Who the configured user is for the review: the admin and reviewer lists, the per-file author cache
    and the role precedence (src/services/userService.ts). */
module Users {
  import opened Wrappers
  import opened Text
  import opened Roles
  import opened Workspace
  import opened Settings

  /** The role precedence of `getCurrentUserRole`: an empty name is Regular; otherwise the admin list
      is consulted first, then the reviewer list, then the file's authors. `authors` is None when no
      file path was given. */
  function ResolveRole(userName: string, admins: seq<string>, reviewers: seq<string>,
                       authors: Option<seq<string>>): (role: UserRole)
    ensures role == Admin <==> userName != "" && userName in admins
    ensures role == Reviewer <==> userName != "" && userName !in admins && userName in reviewers
    ensures role == Author <==> userName != "" && userName !in admins && userName !in reviewers
                                && authors.Some? && userName in authors.value
  {
    if userName == "" then Regular
    else if userName in admins then Admin
    else if userName in reviewers then Reviewer
    else if authors.Some? && userName in authors.value then Author
    else Regular
  }

  /** An empty name is Regular whatever the lists say; without a file the role is never Author; and
      the role depends on the file's authors only for a name on neither list. */
  lemma RolePrecedence(userName: string, admins: seq<string>, reviewers: seq<string>,
                       authors: Option<seq<string>>, others: Option<seq<string>>)
    ensures userName == "" ==> ResolveRole(userName, admins, reviewers, authors) == Regular
    ensures ResolveRole(userName, admins, reviewers, None) != Author
    ensures userName in admins || userName in reviewers
            ==> ResolveRole(userName, admins, reviewers, authors) == ResolveRole(userName, admins, reviewers, others)
  {
  }

  /** A line of `git log` output names an author. */
  predicate NonEmpty(line: string) {
    line != ""
  }

  /** `[...new Set(lines.map(line => line.trim()).filter(Boolean))]`. */
  function AuthorsOfLines(lines: seq<string>): seq<string> {
    Dedup(Filter(Map(lines, Trim), NonEmpty))
  }

  /** `[...new Set(stdout.split('\n').map(line => line.trim()).filter(Boolean))]`. */
  function ParseAuthors(stdout: string): seq<string> {
    AuthorsOfLines(Split(stdout, '\n'))
  }

  /** The authors of some lines are their trimmed non-empty forms, each listed once. */
  lemma AuthorsOfLinesMembers(lines: seq<string>, name: string)
    ensures NoDuplicates(AuthorsOfLines(lines))
    ensures name in AuthorsOfLines(lines) <==> name != "" && exists i :: 0 <= i < |lines| && Trim(lines[i]) == name
  {
    var trimmed := Map(lines, Trim);
    var kept := Filter(trimmed, NonEmpty);
    assert name in kept <==> name in trimmed && name != "";
    MapMembers(lines, Trim, name);
  }

  /** Lines read later only append new authors: the authors of `lines` are a prefix of the authors of
      `lines + more`, so authors are listed in order of first appearance. */
  lemma AuthorsOfLinesExtends(lines: seq<string>, more: seq<string>)
    ensures var before := AuthorsOfLines(lines);
      var after := AuthorsOfLines(lines + more);
      |before| <= |after| && after[..|before|] == before
  {
    MapConcat(lines, more, Trim);
    FilterConcat(Map(lines, Trim), Map(more, Trim), NonEmpty);
    DedupExtends(Filter(Map(lines, Trim), NonEmpty), Filter(Map(more, Trim), NonEmpty));
  }

  /** No author has white space at either end. */
  lemma AuthorsOfLinesTrimmed(lines: seq<string>, name: string)
    requires name in AuthorsOfLines(lines)
    ensures IsTrimmed(name) && name != ""
  {
    var trimmed := Map(lines, Trim);
    var i :| 0 <= i < |trimmed| && trimmed[i] == name;
  }

  /** `getFileAuthors(filePath)`: the parsed `git log` authors of the file, or [] without a workspace
      folder, for an unsaved (`Untitled-`) file, for a path that does not string-start with the first
      folder's path, outside a work tree and when `git log` fails. */
  function FileAuthors(env: Env, filePath: string): (authors: seq<string>)
    ensures authors != [] ==> |env.folders| > 0 && !Contains(filePath, "Untitled-")
                              && StartsWith(filePath, env.folders[0]) && env.insideWorkTree
                              && filePath in env.authorLog
  {
    if |env.folders| == 0 then []
    else if Contains(filePath, "Untitled-") || !StartsWith(filePath, env.folders[0]) then []
    else if !env.insideWorkTree || filePath !in env.authorLog then []
    else ParseAuthors(env.authorLog[filePath])
  }

  /** The author cache after `isFileAuthor(_, filePath)`: a path already cached keeps its entry; a new
      path gets the authors read now. */
  function Cached(cache: map<string, seq<string>>, env: Env, filePath: string): (r: map<string, seq<string>>)
    ensures r.Keys == cache.Keys + {filePath}
    ensures forall p :: p in cache ==> r[p] == cache[p]
    ensures filePath !in cache ==> r[filePath] == FileAuthors(env, filePath)
  {
    if filePath in cache then cache else cache[filePath := FileAuthors(env, filePath)]
  }

  /** Once a path is cached, later lookups of it recompute nothing, even when the repository has
      changed since. */
  lemma CachedOnce(cache: map<string, seq<string>>, env: Env, later: Env, filePath: string)
    ensures Cached(Cached(cache, env, filePath), later, filePath) == Cached(cache, env, filePath)
  {
  }

  /** Every cached entry holds the file's current authors. */
  predicate Coherent(cache: map<string, seq<string>>, env: Env) {
    forall p :: p in cache ==> cache[p] == FileAuthors(env, p)
  }

  /** The authors a role lookup compares against: None without a file path (or with an empty one),
      otherwise the cached entry for the path, filled first if missing. */
  function AuthorsFor(cache: map<string, seq<string>>, env: Env, filePath: Option<string>): (authors: Option<seq<string>>)
    ensures authors.Some? <==> filePath.Some? && filePath.value != ""
    ensures authors.Some? && filePath.value in cache ==> authors.value == cache[filePath.value]
    ensures authors.Some? && filePath.value !in cache ==> authors.value == FileAuthors(env, filePath.value)
  {
    if filePath.Some? && filePath.value != "" then Some(Cached(cache, env, filePath.value)[filePath.value])
    else None
  }

  /** Filling the cache for one path changes no later lookup, for any path, in the same repository;
      and the cache stays coherent when it was. So the order of lookups does not matter. */
  lemma AuthorsForStable(cache: map<string, seq<string>>, env: Env, filled: string, filePath: Option<string>)
    ensures AuthorsFor(Cached(cache, env, filled), env, filePath) == AuthorsFor(cache, env, filePath)
    ensures Coherent(cache, env) ==> Coherent(Cached(cache, env, filled), env)
  {
  }

  /** Two caches give the same authors for every path. */
  ghost predicate SameLookups(a: map<string, seq<string>>, b: map<string, seq<string>>, env: Env) {
    forall filePath :: AuthorsFor(a, env, filePath) == AuthorsFor(b, env, filePath)
  }

  /** Filling a cache that answers like another keeps it answering like that one. */
  lemma FillKeepsLookups(a: map<string, seq<string>>, b: map<string, seq<string>>, env: Env, filled: string)
    requires SameLookups(a, b, env)
    ensures SameLookups(Cached(a, env, filled), b, env)
  {
    forall filePath
      ensures AuthorsFor(Cached(a, env, filled), env, filePath) == AuthorsFor(b, env, filePath)
    {
      AuthorsForStable(a, env, filled, filePath);
    }
  }

  /** With a coherent cache the cache is invisible: the authors are the file's current authors. */
  lemma CoherentAuthors(cache: map<string, seq<string>>, env: Env, filePath: string)
    requires Coherent(cache, env) && filePath != ""
    ensures AuthorsFor(cache, env, Some(filePath)) == Some(FileAuthors(env, filePath))
  {
  }

  /** A name is looked up in the file's authors only when it is non-empty, on neither list, and a
      non-empty path was given. */
  predicate LooksUpAuthors(userName: string, admins: seq<string>, reviewers: seq<string>, filePath: Option<string>) {
    userName != "" && userName !in admins && userName !in reviewers && filePath.Some? && filePath.value != ""
  }

  /** The admin list after `loadConfiguration`: the configured list, or, when that is empty and a user
      name is set, that user alone. */
  function BootstrapAdmins(configured: seq<string>, userName: string): (admins: seq<string>)
    ensures configured != [] ==> admins == configured
    ensures configured == [] ==> admins == (if userName == "" then [] else [userName])
  {
    if configured == [] && userName != "" then [userName] else configured
  }

  /** With no admin configured, the configured user becomes the only admin and so resolves to Admin;
      with admins configured nobody is added. */
  lemma BootstrapMakesUserAdmin(configured: seq<string>, userName: string, reviewers: seq<string>,
                                authors: Option<seq<string>>)
    ensures configured == [] && userName != ""
            ==> ResolveRole(userName, BootstrapAdmins(configured, userName), reviewers, authors) == Admin
    ensures forall x :: x in BootstrapAdmins(configured, userName) && x !in configured ==> x == userName
  {
  }

  /** `if (!list.includes(name)) list.push(name)` behind a `!name` guard: the list after adding. */
  function Added(list: seq<string>, name: string): seq<string> {
    if name == "" || name in list then list else list + [name]
  }

  /** Adding keeps every entry, in order, and contributes only the new name. */
  lemma AddedMembers(list: seq<string>, name: string, x: string)
    ensures x in Added(list, name) <==> x in list || (x == name && name != "")
    ensures list <= Added(list, name)
  {
  }

  /** Adding the same name twice is adding it once, and a list without repeats keeps none. */
  lemma AddedIdempotent(list: seq<string>, name: string)
    ensures Added(Added(list, name), name) == Added(list, name)
    ensures NoDuplicates(list) ==> NoDuplicates(Added(list, name))
  {
  }

  /** `UserService`: the lists it loaded from the configuration and the author cache. */
  class UserService {
    const config: Configuration
    var adminUsers: seq<string>
    var reviewers: seq<string>
    var fileAuthors: map<string, seq<string>>

    /** The role the configured user has now for `filePath`, without touching the cache. */
    function CurrentRole(filePath: Option<string>, env: Env): UserRole
      reads this, config
    {
      ResolveRole(config.userName, adminUsers, reviewers, AuthorsFor(fileAuthors, env, filePath))
    }

    /** The constructor loads the configuration, with an empty author cache. */
    constructor (config: Configuration)
      modifies config
      ensures this.config == config && fileAuthors == map[]
      ensures adminUsers == BootstrapAdmins(old(config.adminUsers), old(config.userName))
      ensures reviewers == old(config.reviewers)
      ensures config.adminUsers == adminUsers
      ensures config.userName == old(config.userName) && config.reviewers == old(config.reviewers)
    {
      this.config := config;
      fileAuthors := map[];
      new;
      LoadConfiguration();
    }

    /** `loadConfiguration()`: read both lists; with no admin configured and a user name set, make that
        user the admin and write the list back. */
    method LoadConfiguration()
      modifies this, config
      ensures adminUsers == BootstrapAdmins(old(config.adminUsers), old(config.userName))
      ensures reviewers == old(config.reviewers)
      ensures config.adminUsers == adminUsers
      ensures config.userName == old(config.userName) && config.reviewers == old(config.reviewers)
      ensures fileAuthors == old(fileAuthors)
    {
      adminUsers := config.adminUsers;
      reviewers := config.reviewers;
      if |adminUsers| == 0 {
        var userName := config.userName;
        if userName != "" {
          adminUsers := adminUsers + [userName];
          config.adminUsers := adminUsers;
        }
      }
    }

    /** `addAdmin(userName)`: false for an empty or present name; otherwise append it, save the list
        and return true. */
    method AddAdmin(userName: string) returns (added: bool)
      modifies this, config
      ensures added <==> userName != "" && userName !in old(adminUsers)
      ensures adminUsers == Added(old(adminUsers), userName)
      ensures config.adminUsers == if added then adminUsers else old(config.adminUsers)
      ensures reviewers == old(reviewers) && fileAuthors == old(fileAuthors)
      ensures config.userName == old(config.userName) && config.reviewers == old(config.reviewers)
    {
      if userName == "" {
        return false;
      }
      if userName !in adminUsers {
        adminUsers := adminUsers + [userName];
        config.adminUsers := adminUsers;
        return true;
      }
      return false;
    }

    /** `addReviewer(userName)`: the same for the reviewer list. */
    method AddReviewer(userName: string) returns (added: bool)
      modifies this, config
      ensures added <==> userName != "" && userName !in old(reviewers)
      ensures reviewers == Added(old(reviewers), userName)
      ensures config.reviewers == if added then reviewers else old(config.reviewers)
      ensures adminUsers == old(adminUsers) && fileAuthors == old(fileAuthors)
      ensures config.userName == old(config.userName) && config.adminUsers == old(config.adminUsers)
    {
      if userName == "" {
        return false;
      }
      if userName !in reviewers {
        reviewers := reviewers + [userName];
        config.reviewers := reviewers;
        return true;
      }
      return false;
    }

    /** `inviteReviewer(userName)`: false for an empty name; otherwise reload the configuration and add
        the name to the freshly read reviewer list. */
    method InviteReviewer(userName: string) returns (invited: bool)
      modifies this, config
      ensures userName == "" ==> !invited && adminUsers == old(adminUsers) && reviewers == old(reviewers)
                                 && config.adminUsers == old(config.adminUsers)
                                 && config.reviewers == old(config.reviewers)
      ensures userName != "" ==>
                adminUsers == BootstrapAdmins(old(config.adminUsers), old(config.userName))
                && config.adminUsers == adminUsers
                && reviewers == Added(old(config.reviewers), userName)
                && config.reviewers == reviewers
                && (invited <==> userName !in old(config.reviewers))
      ensures config.userName == old(config.userName) && fileAuthors == old(fileAuthors)
    {
      if userName == "" {
        return false;
      }
      LoadConfiguration();
      if userName !in reviewers {
        reviewers := reviewers + [userName];
        config.reviewers := reviewers;
        return true;
      }
      return false;
    }

    /** `isFileAuthor(userName, filePath)`: fill the cache for the path if needed, then look the name up. */
    method IsFileAuthor(userName: string, filePath: string, env: Env) returns (isAuthor: bool)
      modifies this`fileAuthors
      ensures fileAuthors == Cached(old(fileAuthors), env, filePath)
      ensures isAuthor <==> userName in fileAuthors[filePath]
    {
      if filePath !in fileAuthors {
        var authors := FileAuthors(env, filePath);
        fileAuthors := fileAuthors[filePath := authors];
      }
      var authors := fileAuthors[filePath];
      return userName in authors;
    }

    /** `getCurrentUserRole(filePath?)`: the precedence of `ResolveRole`, reading the file's authors
        through the cache only when the lists did not decide. */
    method GetCurrentUserRole(filePath: Option<string>, env: Env) returns (role: UserRole)
      modifies this`fileAuthors
      ensures role == old(CurrentRole(filePath, env))
      ensures fileAuthors == if LooksUpAuthors(config.userName, adminUsers, reviewers, filePath)
                             then Cached(old(fileAuthors), env, filePath.value) else old(fileAuthors)
    {
      var userName := config.userName;
      if userName == "" {
        return Regular;
      }
      if userName in adminUsers {
        return Admin;
      }
      if userName in reviewers {
        return Reviewer;
      }
      if filePath.Some? && filePath.value != "" {
        var isAuthor := IsFileAuthor(userName, filePath.value, env);
        if isAuthor {
          return Author;
        }
      }
      return Regular;
    }

    /** `getUserPermissions(filePath?)`: the table entry of the current role. */
    method GetUserPermissions(filePath: Option<string>, env: Env) returns (permissions: UserPermission)
      modifies this`fileAuthors
      ensures permissions == RolePermissions(old(CurrentRole(filePath, env)))
      ensures fileAuthors == if LooksUpAuthors(config.userName, adminUsers, reviewers, filePath)
                             then Cached(old(fileAuthors), env, filePath.value) else old(fileAuthors)
    {
      var role := GetCurrentUserRole(filePath, env);
      permissions := RolePermissions(role);
    }

    /** `getReviewers()`: a copy of the reviewer list. */
    method GetReviewers() returns (list: seq<string>)
      ensures list == reviewers
    {
      list := reviewers;
    }

    /** `isReviewer(userName)`. */
    method IsReviewer(userName: string) returns (isReviewer: bool)
      ensures isReviewer <==> userName in reviewers
    {
      isReviewer := userName in reviewers;
    }
  }
}
