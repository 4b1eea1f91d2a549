/** The identity and the contributors the extension reads from `git` (src/services/gitUserService.ts).
    The commands' outputs come in through `Env`; a failing command is a None there. */
module GitUsers {
  import opened Wrappers
  import opened Text
  import opened Workspace

  /** `stdout.trim() || null` for a command that may have failed. */
  function TrimmedOrNull(out: Option<string>): (r: Option<string>)
    ensures r.Some? ==> out.Some? && r.value == Trim(out.value) && r.value != ""
    ensures r.None? ==> out.None? || IsBlank(out.value)
  {
    match out
    case None => None
    case Some(stdout) =>
      var trimmed := Trim(stdout);
      if trimmed == "" then None else Some(trimmed)
  }

  /** `getGitUserName()`: the trimmed `git config user.name`, or null without a workspace folder, when
      the command fails or when it prints only white space. */
  function GetGitUserName(env: Env): (name: Option<string>)
    ensures |env.folders| == 0 ==> name.None?
    ensures name.Some? ==> env.gitUserName.Some? && name.value == Trim(env.gitUserName.value) && name.value != ""
    ensures |env.folders| > 0 && env.gitUserName.Some? && !IsBlank(env.gitUserName.value) ==> name.Some?
  {
    if |env.folders| == 0 then None else TrimmedOrNull(env.gitUserName)
  }

  /** `getGitUserEmail()`: the same for `git config user.email`. */
  function GetGitUserEmail(env: Env): (email: Option<string>)
    ensures |env.folders| == 0 ==> email.None?
    ensures email.Some? ==> env.gitUserEmail.Some? && email.value == Trim(env.gitUserEmail.value) && email.value != ""
    ensures |env.folders| > 0 && env.gitUserEmail.Some? && !IsBlank(env.gitUserEmail.value) ==> email.Some?
  {
    if |env.folders| == 0 then None else TrimmedOrNull(env.gitUserEmail)
  }

  /** A contributor (src/models/gitUser.ts is not part of this model; the shape is the object the
      service builds). */
  datatype GitUser = GitUser(name: string, email: string, avatarUrl: string)

  /** The md5 stub: a fixed string of 32 zeros, whatever the input. */
  function Md5(input: string): (hash: string)
    ensures |hash| == 32 && forall i :: 0 <= i < 32 ==> hash[i] == '0'
  {
    "00000000000000000000000000000000"
  }

  /** `generateAvatarUrl(email)`: the Gravatar URL for the hash of the trimmed, lower-cased address. */
  function GenerateAvatarUrl(email: string): string {
    "https://www.gravatar.com/avatar/" + Md5(ToLowerAscii(Trim(email))) + "?d=identicon"
  }

  /** Because of the stub every contributor gets the same avatar URL. */
  lemma AvatarUrlIgnoresEmail(a: string, b: string)
    ensures GenerateAvatarUrl(a) == GenerateAvatarUrl(b)
  {
  }

  /** The map value built for a parsed line: trimmed name and email, and the avatar of the email. */
  function MakeUser(entry: (string, string)): GitUser {
    GitUser(Trim(entry.0), Trim(entry.1), GenerateAvatarUrl(Trim(entry.1)))
  }

  /** `const [name, email] = line.split('|')`, kept only when both are non-empty. */
  function ParseUserLine(line: string): Option<(string, string)> {
    var fields := Split(line, '|');
    if |fields| >= 2 && fields[0] != "" && fields[1] != "" then Some((fields[0], fields[1])) else None
  }

  /** A parsed line has a non-empty name and email, neither holding '|', and the line begins with
      `name|email`: the name is the text before the first '|' and the email the text after it, up to the
      next '|' or the end. A line without '|' never parses. */
  lemma ParseUserLineFields(line: string)
    ensures var r := ParseUserLine(line);
      (r.Some? ==> r.value.0 != "" && r.value.1 != "" && '|' !in r.value.0 && '|' !in r.value.1
                   && StartsWith(line, r.value.0 + ['|'] + r.value.1))
      && ('|' !in line ==> r.None?)
  {
    var fields := Split(line, '|');
    if |fields| >= 2 && fields[0] != "" && fields[1] != "" {
      JoinStartsWithHead(fields, '|');
      JoinStartsWithHead(fields[1..], '|');
      var rest := Join(fields[1..], '|');
      assert line == fields[0] + ['|'] + rest;
      assert rest[..|fields[1]|] == fields[1];
      assert line[..|fields[0]| + 1 + |fields[1]|] == fields[0] + ['|'] + rest[..|fields[1]|];
    }
    if '|' !in line {
      assert fields == [line];
    }
  }

  /** A parsed line: the untrimmed name and email, or None for a line that is skipped. */
  type Entry = Option<(string, string)>

  /** The entries of `userMap` after the given parsed lines, in insertion order, as the untrimmed
      (name, email) of the line that created each. A line adds an entry only when it parsed and its name
      is not yet a key. */
  function Collected(entries: seq<Entry>): (r: seq<(string, string)>)
    ensures |r| <= |entries|
    ensures forall i, j :: 0 <= i < j < |r| ==> r[i].0 != r[j].0
    decreases |entries|
  {
    if entries == [] then []
    else
      var previous := Collected(entries[..|entries| - 1]);
      var entry := entries[|entries| - 1];
      if entry.Some? && entry.value.0 !in Keys(previous) then previous + [entry.value] else previous
  }

  /** The name of an entry: its key in the map. */
  function Name(entry: (string, string)): string {
    entry.0
  }

  /** The keys of the map, in insertion order. */
  function Keys(pairs: seq<(string, string)>): seq<string> {
    Map(pairs, Name)
  }

  /** The first line for a name wins: lines read later never change the entries already collected,
      so the result lists contributors in order of first appearance. */
  lemma {:induction false} CollectedExtends(entries: seq<Entry>, more: seq<Entry>)
    ensures var before := Collected(entries);
      var after := Collected(entries + more);
      |before| <= |after| && after[..|before|] == before
    decreases |more|
  {
    if more == [] {
      assert entries + more == entries;
    } else {
      var init := more[..|more| - 1];
      CollectedExtends(entries, init);
      assert (entries + more)[..|entries + more| - 1] == entries + init;
    }
  }

  /** One more line: it adds an entry exactly when it parsed and its name is not yet a key. */
  lemma CollectedStep(entries: seq<Entry>, i: nat)
    requires i < |entries|
    ensures var before := Collected(entries[..i]);
      Collected(entries[..i + 1])
        == if entries[i].Some? && entries[i].value.0 !in Keys(before) then before + [entries[i].value] else before
  {
    assert entries[..i + 1][..i] == entries[..i];
  }

  /** The same step seen through the keys and the values of the map. */
  lemma CollectedStepViews(entries: seq<Entry>, i: nat)
    requires i < |entries|
    ensures var before := Collected(entries[..i]);
      var after := Collected(entries[..i + 1]);
      var added := entries[i].Some? && entries[i].value.0 !in Keys(before);
      Keys(after) == (if added then Keys(before) + [entries[i].value.0] else Keys(before))
      && Values(after) == (if added then Values(before) + [MakeUser(entries[i].value)] else Values(before))
  {
    CollectedStep(entries, i);
    var before := Collected(entries[..i]);
    if entries[i].Some? && entries[i].value.0 !in Keys(before) {
      MapAppend(before, entries[i].value, Name);
      MapAppend(before, entries[i].value, MakeUser);
    }
  }

  /** A name is a key exactly when some line parsed with that name. */
  lemma {:induction false} CollectedKeys(entries: seq<Entry>, name: string)
    ensures name in Keys(Collected(entries))
      <==> exists i :: 0 <= i < |entries| && entries[i].Some? && entries[i].value.0 == name
    decreases |entries|
  {
    if entries != [] {
      var n := |entries| - 1;
      var init := entries[..n];
      CollectedKeys(init, name);
      assert forall i :: 0 <= i < |init| ==> init[i] == entries[i];
      var before := Collected(init);
      if entries[n].Some? && entries[n].value.0 !in Keys(before) {
        MapAppend(before, entries[n].value, Name);
      }
      if entries[n].Some? && entries[n].value.0 == name {
        assert name in Keys(Collected(entries));
      }
    }
  }

  /** The output of `git log`, one parsed entry per line. */
  function ParsedLines(stdout: string): (entries: seq<Entry>)
    ensures |entries| == |Split(stdout, '\n')|
  {
    var lines := Split(stdout, '\n');
    seq(|lines|, i requires 0 <= i < |lines| => ParseUserLine(lines[i]))
  }

  /** `Array.from(userMap.values())`. */
  function Values(pairs: seq<(string, string)>): seq<GitUser> {
    Map(pairs, MakeUser)
  }

  /** What `getAllGitUsers()` returns: [] without a workspace folder, outside a work tree or when `git log`
      fails; otherwise the values of the map filled from the output's lines. */
  function Contributors(env: Env): seq<GitUser> {
    if |env.folders| == 0 || !env.insideWorkTree || env.contributorLog.None? then []
    else Values(Collected(ParsedLines(env.contributorLog.value)))
  }

  /** `getAllGitUsers()`: fills the map line by line, skipping lines whose name or email is empty and
      names already present. */
  method GetAllGitUsers(env: Env) returns (users: seq<GitUser>)
    ensures users == Contributors(env)
    ensures env.contributorLog.Some? ==> |users| <= |Split(env.contributorLog.value, '\n')|
    ensures |env.folders| == 0 || !env.insideWorkTree || env.contributorLog.None? ==> users == []
  {
    if |env.folders| == 0 || !env.insideWorkTree {
      return [];
    }
    match env.contributorLog {
      case None =>
        return [];
      case Some(stdout) =>
        var lines := Split(stdout, '\n');
        ghost var entries := ParsedLines(stdout);
        ghost var pairs: seq<(string, string)> := [];
        var keys: seq<string> := [];
        users := [];
        var i := 0;
        while i < |lines|
          invariant 0 <= i <= |lines|
          invariant pairs == Collected(entries[..i])
          invariant keys == Keys(pairs)
          invariant users == Values(pairs)
        {
          CollectedStepViews(entries, i);
          var parsed := ParseUserLine(lines[i]);
          assert parsed == entries[i];
          if parsed.Some? && parsed.value.0 !in keys {
            keys := keys + [parsed.value.0];
            users := users + [MakeUser(parsed.value)];
          }
          pairs := Collected(entries[..i + 1]);
          i := i + 1;
        }
        assert entries[..i] == entries;
    }
  }
}
