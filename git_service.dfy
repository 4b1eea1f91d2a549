/** Publishing the issues into the workspace: the grouped snapshot, the full list, the `.gitignore`
    clean-up and the comment template (src/services/gitService.ts). Existence checks come from `Env`;
    `path.relative(workspaceRoot, ·)` is the parameter `relative`. */
module GitSync {
  import opened Wrappers
  import opened Text
  import opened Issues
  import opened Workspace

  /** `fs.existsSync(issue.filePath)` as the callback of a filter. */
  function FileExists(env: Env): CodeReviewIssue -> bool {
    (issue: CodeReviewIssue) => issue.filePath in env.files
  }

  /** The issues whose file exists, in store order. */
  function ValidIssues(issues: seq<CodeReviewIssue>, env: Env): seq<CodeReviewIssue> {
    Filter(issues, FileExists(env))
  }

  /** The valid issues are exactly the stored issues whose file exists, in their original order. */
  lemma ValidIssuesMembers(issues: seq<CodeReviewIssue>, env: Env, issue: CodeReviewIssue)
    ensures issue in ValidIssues(issues, env) <==> issue in issues && issue.filePath in env.files
    ensures IsSubsequence(ValidIssues(issues, env), issues)
  {
    FilterIsSubsequence(issues, FileExists(env));
  }

  /** `filterValidIssues(issues)`: push each issue whose file exists. */
  method FilterValidIssues(issues: seq<CodeReviewIssue>, env: Env) returns (valid: seq<CodeReviewIssue>)
    ensures valid == ValidIssues(issues, env)
  {
    valid := [];
    var i := 0;
    while i < |issues|
      invariant 0 <= i <= |issues|
      invariant valid == Filter(issues[..i], FileExists(env))
    {
      FilterPrefixStep(issues, i, FileExists(env));
      if issues[i].filePath in env.files {
        valid := valid + [issues[i]];
      }
      i := i + 1;
    }
    assert issues[..i] == issues;
  }

  /** `issue.filePath.startsWith(workspaceRoot)` as the callback of a filter. */
  function UnderRoot(root: string): CodeReviewIssue -> bool {
    (issue: CodeReviewIssue) => StartsWith(issue.filePath, root)
  }

  /** The snapshot: relative path to the issues filed under it. */
  type Groups = map<string, seq<CodeReviewIssue>>

  /** Whether an issue's relative path is `key`, as the callback of a filter. */
  function KeyedBy(relative: string -> string, key: string): CodeReviewIssue -> bool {
    (issue: CodeReviewIssue) => relative(issue.filePath) == key
  }

  /** The grouping loop with a real dictionary: each issue is appended to the group of its relative
      path, the group being created on first use. */
  function Group(issues: seq<CodeReviewIssue>, relative: string -> string): Groups
    decreases |issues|
  {
    if issues == [] then map[]
    else
      var groups := Group(issues[..|issues| - 1], relative);
      var issue := issues[|issues| - 1];
      var key := relative(issue.filePath);
      groups[key := (if key in groups then groups[key] else []) + [issue]]
  }

  /** Each issue lands in exactly one group, the one of its relative path: a key is present exactly when
      some issue has that relative path, and its group is those issues in their original order. */
  lemma {:induction false} GroupMembers(issues: seq<CodeReviewIssue>, relative: string -> string, key: string)
    ensures key in Group(issues, relative) <==> exists i :: 0 <= i < |issues| && relative(issues[i].filePath) == key
    ensures key in Group(issues, relative) ==> Group(issues, relative)[key] == Filter(issues, KeyedBy(relative, key))
    ensures key !in Group(issues, relative) ==> Filter(issues, KeyedBy(relative, key)) == []
    decreases |issues|
  {
    if issues != [] {
      var n := |issues| - 1;
      var init := issues[..n];
      GroupMembers(init, relative, key);
      FilterAppend(init, issues[n], KeyedBy(relative, key));
      assert issues == init + [issues[n]];
      assert forall i :: 0 <= i < n ==> init[i] == issues[i];
    }
  }

  /** `saveIssuesToProjectFile`'s loop: `if (!newComments[rel]) newComments[rel] = []; newComments[rel].push(issue)`,
      on a dictionary that holds only what was put in it. */
  method GroupByRelativePath(issues: seq<CodeReviewIssue>, relative: string -> string) returns (groups: Groups)
    ensures groups == Group(issues, relative)
  {
    groups := map[];
    var i := 0;
    while i < |issues|
      invariant 0 <= i <= |issues|
      invariant groups == Group(issues[..i], relative)
    {
      var issue := issues[i];
      assert issues[..i + 1][..i] == issues[..i];
      var relativePath := relative(issue.filePath);
      if relativePath !in groups {
        groups := groups[relativePath := []];
      }
      groups := groups[relativePath := groups[relativePath] + [issue]];
      i := i + 1;
    }
    assert issues[..i] == issues;
  }

  /** The names every plain JavaScript object inherits from `Object.prototype`. Looking one of them up
      in `{}` gives a truthy value that is not an array. */
  const InheritedNames: set<string> := {
    "constructor", "__proto__", "toString", "toLocaleString", "valueOf", "hasOwnProperty",
    "isPrototypeOf", "propertyIsEnumerable", "__defineGetter__", "__defineSetter__",
    "__lookupGetter__", "__lookupSetter__"}

  /** The grouping loop as written, on the plain object `{}`: for a relative path that names an inherited
      property, `!newComments[rel]` is false, so no array is created, and `.push` on the inherited value
      throws. None is that exception. */
  function GroupAsWritten(issues: seq<CodeReviewIssue>, relative: string -> string): Option<Groups>
    decreases |issues|
  {
    if issues == [] then Some(map[])
    else
      match GroupAsWritten(issues[..|issues| - 1], relative)
      case None => None
      case Some(groups) =>
        var issue := issues[|issues| - 1];
        var key := relative(issue.filePath);
        if key in InheritedNames then None
        else Some(groups[key := (if key in groups then groups[key] else []) + [issue]])
  }

  /** As written, the loop fails exactly when some issue's relative path is an inherited name, and
      otherwise builds the same snapshot as the dictionary. */
  lemma {:induction false} GroupAsWrittenFails(issues: seq<CodeReviewIssue>, relative: string -> string)
    ensures GroupAsWritten(issues, relative).None?
            <==> exists i :: 0 <= i < |issues| && relative(issues[i].filePath) in InheritedNames
    ensures GroupAsWritten(issues, relative).Some? ==> GroupAsWritten(issues, relative).value == Group(issues, relative)
    decreases |issues|
  {
    if issues != [] {
      var n := |issues| - 1;
      GroupAsWrittenFails(issues[..n], relative);
      assert forall i :: 0 <= i < n ==> issues[..n][i] == issues[i];
    }
  }

  /** A file named `constructor` at the workspace root: as written its issue cannot be grouped, while
      the dictionary groups it under its name. */
  lemma ConstructorFileBreaksGrouping(issue: CodeReviewIssue, relative: string -> string)
    requires relative(issue.filePath) == "constructor"
    ensures GroupAsWritten([issue], relative).None?
    ensures Group([issue], relative) == map["constructor" := [issue]]
  {
    assert [issue][..0] == [];
    assert "constructor" in InheritedNames;
    assert GroupAsWritten([], relative) == Some(map[]);
    assert Group([], relative) == map[];
    assert [] + [issue] == [issue];
  }

  /** The `.gitignore` lines that survive: those whose trimmed form does not start with `.code-river`. */
  predicate KeepIgnoreLine(line: string) {
    !StartsWith(Trim(line), ".code-river")
  }

  /** `content.split('\n').filter(line => !line.trim().startsWith('.code-river')).join('\n')`. */
  function DropCodeRiverLines(content: string): string {
    Join(Filter(Split(content, '\n'), KeepIgnoreLine), '\n')
  }

  /** The rewritten file's lines are the original lines that survive, in order (an empty result reads
      back as one empty line). */
  lemma DropCodeRiverLinesLines(content: string)
    ensures var kept := Filter(Split(content, '\n'), KeepIgnoreLine);
      Split(DropCodeRiverLines(content), '\n') == (if kept == [] then [""] else kept)
    ensures IsSubsequence(Filter(Split(content, '\n'), KeepIgnoreLine), Split(content, '\n'))
  {
    var lines := Split(content, '\n');
    var kept := Filter(lines, KeepIgnoreLine);
    FilterIsSubsequence(lines, KeepIgnoreLine);
    if kept != [] {
      SplitJoin(kept, '\n');
    }
  }

  /** No line of the rewritten file starts, after trimming, with `.code-river`; so rewriting it again
      changes nothing. */
  lemma DropCodeRiverLinesIdempotent(content: string)
    ensures forall line :: line in Split(DropCodeRiverLines(content), '\n') ==> KeepIgnoreLine(line)
    ensures DropCodeRiverLines(DropCodeRiverLines(content)) == DropCodeRiverLines(content)
  {
    var kept := Filter(Split(content, '\n'), KeepIgnoreLine);
    DropCodeRiverLinesLines(content);
    if kept == [] {
      assert KeepIgnoreLine("") by {
        assert Trim("") == "";
      }
      assert Filter([""], KeepIgnoreLine) == [""];
    } else {
      FilterCongruent(kept, KeepIgnoreLine, (line: string) => true);
      FilterAll(kept);
    }
  }

  /** Filtering with a callback that keeps everything keeps everything. */
  lemma {:induction false} FilterAll(s: seq<string>)
    ensures Filter(s, (line: string) => true) == s
    decreases |s|
  {
    if s != [] {
      FilterAll(s[1..]);
    }
  }

  /** The `.gitignore` after a sync: rewritten only when it exists and mentions `.code-river`. */
  function RewriteGitignore(gitignore: Option<string>): (r: Option<string>)
    ensures r.None? <==> gitignore.None?
    ensures gitignore.Some? && !Contains(gitignore.value, ".code-river") ==> r == gitignore
  {
    match gitignore
    case None => None
    case Some(content) => if Contains(content, ".code-river") then Some(DropCodeRiverLines(content)) else gitignore
  }

  /** `Math.min(lineNumber, lineCount - 1)`: the last line for a number past the end. */
  function ClampLine(lineNumber: nat, lineCount: int): (line: int)
    ensures line <= lineNumber && line <= lineCount - 1
    ensures line == lineNumber || line == lineCount - 1
  {
    if lineNumber < lineCount - 1 then lineNumber else lineCount - 1
  }

  /** The template after its four `replace` calls: only the first occurrence of each placeholder is
      replaced, `{line}` by the one-based number of the clamped line. */
  function ExpandTemplate(template: string, description: string, fileName: string, line: nat, status: string)
    : string
  {
    ReplaceFirst(ReplaceFirst(ReplaceFirst(ReplaceFirst(template, "{description}", description),
      "{file}", fileName), "{line}", DecimalString(line + 1)), "{status}", status)
  }

  /** A template without placeholders comes through unchanged. */
  lemma ExpandTemplateWithoutPlaceholders(template: string, description: string, fileName: string, line: nat,
                                          status: string)
    requires !Contains(template, "{description}") && !Contains(template, "{file}")
    requires !Contains(template, "{line}") && !Contains(template, "{status}")
    ensures ExpandTemplate(template, description, fileName, line, status) == template
  {
    ReplaceFirstAbsent(template, "{description}", description);
    ReplaceFirstAbsent(template, "{file}", fileName);
    ReplaceFirstAbsent(template, "{line}", DecimalString(line + 1));
    ReplaceFirstAbsent(template, "{status}", status);
  }

  /** The default of `codeRiver.issueTemplate`, `问题：{description}\n位置：{file}:{line}\n状态：{status}`,
      written as its fixed pieces and placeholders. */
  const DefaultTemplate: string :=
    "问题：" + "{description}" + "\n位置：" + "{file}" + ":" + "{line}" + "\n状态：" + "{status}"

  /** The default template, split after its description placeholder. */
  lemma DefaultTemplateHead()
    ensures DefaultTemplate == "问题：" + "{description}" + ("\n位置：" + "{file}" + ":" + "{line}" + "\n状态：" + "{status}")
  {
  }

  /** Regrouping the text after the description for the file step. */
  lemma DescriptionRegroup(description: string)
    ensures "问题：" + description + ("\n位置：" + "{file}" + ":" + "{line}" + "\n状态：" + "{status}")
            == ("问题：" + description + "\n位置：") + "{file}" + (":" + "{line}" + "\n状态：" + "{status}")
  {
  }

  /** The first replacement on the default template puts the description in place. */
  lemma DescriptionStep(description: string)
    requires '{' !in description
    ensures ReplaceFirst(DefaultTemplate, "{description}", description)
            == ("问题：" + description + "\n位置：") + "{file}" + (":" + "{line}" + "\n状态：" + "{status}")
  {
    DefaultTemplateHead();
    ReplaceFirstAfter("问题：", "{description}", description, "\n位置：" + "{file}" + ":" + "{line}" + "\n状态：" + "{status}");
    DescriptionRegroup(description);
  }

  /** The second replacement puts the file name in place. */
  lemma FileStep(done: string, fileName: string)
    requires '{' !in done
    ensures ReplaceFirst(done + "{file}" + (":" + "{line}" + "\n状态：" + "{status}"), "{file}", fileName)
            == (done + fileName + ":") + "{line}" + ("\n状态：" + "{status}")
  {
    ReplaceFirstAfter(done, "{file}", fileName, ":" + "{line}" + "\n状态：" + "{status}");
  }

  /** The third replacement puts the line number in place. */
  lemma LineStep(done: string, number: string)
    requires '{' !in done
    ensures ReplaceFirst(done + "{line}" + ("\n状态：" + "{status}"), "{line}", number)
            == (done + number + "\n状态：") + "{status}" + []
  {
    ReplaceFirstAfter(done, "{line}", number, "\n状态：" + "{status}");
  }

  /** With values free of `{`, the default template puts each value where its placeholder stood and the
      one-based line number after the file name. */
  lemma DefaultTemplateExpands(description: string, fileName: string, line: nat, status: string)
    requires '{' !in description && '{' !in fileName && '{' !in status
    ensures ExpandTemplate(DefaultTemplate, description, fileName, line, status)
            == "问题：" + description + "\n位置：" + fileName + ":" + DecimalString(line + 1) + "\n状态：" + status
  {
    var number := DecimalString(line + 1);
    assert '{' !in number by {
      forall i | 0 <= i < |number| ensures number[i] != '{' {
        assert IsDigit(number[i]);
      }
    }
    var a1 := "问题：" + description + "\n位置：";
    var a2 := a1 + fileName + ":";
    var a3 := a2 + number + "\n状态：";
    DescriptionStep(description);
    FileStep(a1, fileName);
    LineStep(a2, number);
    ReplaceFirstAfter(a3, "{status}", status, []);
  }

  /** A line of the comment: the target line's indentation, `// `, then the template line. */
  function CommentLine(indentation: string): string -> string {
    (line: string) => indentation + "// " + line
  }

  /** `.split('\n').map(line => `${indentation}// ${line}`).join('\n')`. */
  function CommentOut(text: string, indentation: string): string {
    Join(Map(Split(text, '\n'), CommentLine(indentation)), '\n')
  }

  /** With an indentation on one line, the comment has as many lines as the text and each is the text's
      line behind the indentation and `// `. */
  lemma CommentOutLines(text: string, indentation: string)
    requires '\n' !in indentation
    ensures Split(CommentOut(text, indentation), '\n') == Map(Split(text, '\n'), CommentLine(indentation))
  {
    var lines := Split(text, '\n');
    var commented := Map(lines, CommentLine(indentation));
    forall p | p in commented
      ensures '\n' !in p
    {
      var i :| 0 <= i < |commented| && commented[i] == p;
      assert lines[i] in lines;
      assert p == indentation + "// " + lines[i];
    }
    SplitJoin(commented, '\n');
  }

  /** The comment `addCommentToFile` would insert above the clamped line (it is never called). */
  function CommentFor(template: string, issue: CodeReviewIssue, fileName: string, lineText: string, lineCount: nat)
    : string
    requires lineCount >= 1
  {
    var line := ClampLine(issue.lineNumber, lineCount);
    CommentOut(ExpandTemplate(template, issue.description, fileName, line, StatusValue(issue.status)),
               LeadingWhitespace(lineText))
  }

  /** The fixed text of `.code-river/README.md`. */
  const ReadmeText: string := "# Code River 评审问题\n\n这个目录包含由 Code River 扩展生成的代码评审问题。请不要手动修改这些文件。"

  /** The files a sync writes in the workspace. None is a file that does not exist. */
  class ProjectFiles {
    /** `.code-river/comments-<workspace name>.json`. */
    var snapshot: Option<Groups>
    /** `.code-river/README.md`. */
    var readme: Option<string>
    /** `.gitignore` at the workspace root. */
    var gitignore: Option<string>
    /** `.code-river/issues.json`. */
    var issuesFile: Option<seq<CodeReviewIssue>>
    /** Whether `issues.json` has been added to the git index. */
    var staged: bool

    constructor (snapshot: Option<Groups>, readme: Option<string>, gitignore: Option<string>,
                 issuesFile: Option<seq<CodeReviewIssue>>, staged: bool)
      ensures this.snapshot == snapshot && this.readme == readme && this.gitignore == gitignore
      ensures this.issuesFile == issuesFile && this.staged == staged
    {
      this.snapshot := snapshot;
      this.readme := readme;
      this.gitignore := gitignore;
      this.issuesFile := issuesFile;
      this.staged := staged;
    }
  }

  /** Whether a sync writes anything: some issue's file exists and a workspace folder is open. */
  predicate SyncSucceeds(issues: seq<CodeReviewIssue>, env: Env) {
    ValidIssues(issues, env) != [] && |env.folders| > 0
  }

  /** The workspace files after a sync of `issues`: untouched when it fails; otherwise the snapshot of
      the valid issues under the root, the README if it was missing, the cleaned `.gitignore`, the full
      list in `issues.json`, staged when `git add` succeeds. */
  twostate predicate Synced(files: ProjectFiles, issues: seq<CodeReviewIssue>, env: Env, relative: string -> string)
    reads files
  {
    if SyncSucceeds(issues, env) then
      files.snapshot == Some(Group(Filter(ValidIssues(issues, env), UnderRoot(env.folders[0])), relative))
      && files.readme == (if old(files.readme).None? then Some(ReadmeText) else old(files.readme))
      && files.gitignore == RewriteGitignore(old(files.gitignore))
      && files.issuesFile == Some(issues)
      && files.staged == (old(files.staged) || env.stageSucceeds)
    else
      unchanged(files)
  }

  /** `syncIssuesToGit(issues)`: false without any valid issue, and false (nothing written) without a
      workspace folder; otherwise write the snapshot of the valid issues under the root, the README if
      missing, the cleaned `.gitignore` and the full list, try to stage it, and return true. */
  method SyncIssuesToGit(issues: seq<CodeReviewIssue>, env: Env, relative: string -> string, files: ProjectFiles)
    returns (ok: bool)
    modifies files
    ensures ok <==> SyncSucceeds(issues, env)
    ensures Synced(files, issues, env, relative)
  {
    var validIssues := FilterValidIssues(issues, env);
    if |validIssues| == 0 {
      return false;
    }
    if |env.folders| == 0 {
      return false;
    }
    var workspaceRoot := env.folders[0];
    var workspaceIssues := Filter(validIssues, UnderRoot(workspaceRoot));
    var newComments := GroupByRelativePath(workspaceIssues, relative);
    var readme := if files.readme.None? then Some(ReadmeText) else files.readme;
    var gitignore := RewriteGitignore(files.gitignore);
    var staged := files.staged || env.stageSucceeds;
    files.snapshot, files.readme, files.gitignore, files.issuesFile, files.staged
      := Some(newComments), readme, gitignore, Some(issues), staged;
    return true;
  }
}
