/** The tree of all issues and the items every view is built from (src/views/issueProvider.ts). */
module IssueTree {
  import opened Text
  import opened Issues

  /** `TreeItemCollapsibleState`; its `None` member is `Leaf` here. */
  datatype CollapsibleState = Leaf | Collapsed | Expanded

  /** A node of a view: an issue, or a reply shown under the issue it belongs to. */
  datatype TreeItem =
    | IssueItem(issue: CodeReviewIssue, state: CollapsibleState)
    | ReplyItem(reply: IssueReply, parentIssue: CodeReviewIssue, state: CollapsibleState)

  /** `IssueTreeItem.description`: `${filePath}:${lineNumber}`. */
  function IssueDescription(issue: CodeReviewIssue): string {
    issue.filePath + ":" + DecimalString(issue.lineNumber)
  }

  /** The description gives the path and the line back: the path is its prefix and the line number
      is the decimal after the colon that follows it. */
  lemma IssueDescriptionParts(issue: CodeReviewIssue)
    ensures var d := IssueDescription(issue); var n := |issue.filePath|;
      |d| > n + 1 && d[..n] == issue.filePath && d[n] == ':'
      && (forall i :: n + 1 <= i < |d| ==> IsDigit(d[i]))
      && DecimalValue(d[n + 1..]) == issue.lineNumber
  {
    var d := IssueDescription(issue);
    var n := |issue.filePath|;
    assert d[n + 1..] == DecimalString(issue.lineNumber);
    DecimalRoundTrip(issue.lineNumber);
  }

  /** `contextValue`: the lower-cased status followed by `Issue` for an issue, `reply` for a reply. */
  function ContextValue(item: TreeItem): string {
    match item
    case IssueItem(issue, _) => ToLowerAscii(StatusValue(issue.status)) + "Issue"
    case ReplyItem(_, _, _) => "reply"
  }

  /** The stored statuses are already lower case, so an issue's context value is its status followed
      by `Issue`; distinct statuses give distinct values, and no issue's value is a reply's. */
  lemma ContextValueOfIssue(issue: CodeReviewIssue, other: CodeReviewIssue, state: CollapsibleState)
    ensures ContextValue(IssueItem(issue, state)) == StatusValue(issue.status) + "Issue"
    ensures ContextValue(IssueItem(issue, state)) != "reply"
    ensures ContextValue(IssueItem(issue, state)) == ContextValue(IssueItem(other, state))
            ==> issue.status == other.status
  {
    var v := StatusValue(issue.status);
    var w := StatusValue(other.status);
    ToLowerAsciiIdentity(v);
    ToLowerAsciiIdentity(w);
    if v + "Issue" == w + "Issue" {
      assert |v| == |w|;
      assert v == (v + "Issue")[..|v|];
      assert w == (w + "Issue")[..|w|];
      ParseStatusValue(issue.status);
      ParseStatusValue(other.status);
    }
  }

  /** `getIconForStatus(status)`, which is never called: it compares against capitalised names. */
  function GetIconForStatus(status: string): (icon: string) {
    match status
    case "Open" => "issues"
    case "Fixed" => "check"
    case "Approved" => "thumbsup"
    case "WontFix" => "x"
    case _ => "circle-outline"
  }

  /** No stored status is capitalised, so every status gets the default icon. */
  lemma IconAlwaysDefault(status: IssueStatus)
    ensures GetIconForStatus(StatusValue(status)) == "circle-outline"
  {
  }

  /** `workspacePaths.some(wsPath => filePath.startsWith(wsPath))`: a raw string-prefix test. */
  predicate InWorkspace(filePath: string, folders: seq<string>) {
    exists k :: 0 <= k < |folders| && StartsWith(filePath, folders[k])
  }

  /** The issues the root of the tree shows: only those under an open folder when
      `showOnlyWorkspaceIssues` is on and a folder is open, otherwise all of them. */
  function ShownIssues(issues: seq<CodeReviewIssue>, showOnlyWorkspaceIssues: bool, folders: seq<string>)
    : seq<CodeReviewIssue>
  {
    if showOnlyWorkspaceIssues && |folders| > 0 then Filter(issues, (issue: CodeReviewIssue) => InWorkspace(issue.filePath, folders))
    else issues
  }

  /** A root item can be expanded exactly when its issue has at least one reply. */
  function RootState(issue: CodeReviewIssue): (state: CollapsibleState)
    ensures state == Collapsed <==> |issue.Thread()| > 0
    ensures state != Expanded
  {
    if issue.replies.Some? && |issue.replies.value| > 0 then Collapsed else Leaf
  }

  /** `getChildren()` at the root. */
  function RootItems(issues: seq<CodeReviewIssue>, showOnlyWorkspaceIssues: bool, folders: seq<string>)
    : seq<TreeItem>
  {
    Map(ShownIssues(issues, showOnlyWorkspaceIssues, folders), issue => IssueItem(issue, RootState(issue)))
  }

  /** The root lists the shown issues in store order; an issue is shown exactly when it is stored and
      either the filter is off, no folder is open, or its path starts with some folder's path. */
  lemma RootItemsShown(issues: seq<CodeReviewIssue>, showOnlyWorkspaceIssues: bool, folders: seq<string>,
                       issue: CodeReviewIssue)
    ensures IsSubsequence(ShownIssues(issues, showOnlyWorkspaceIssues, folders), issues)
    ensures issue in ShownIssues(issues, showOnlyWorkspaceIssues, folders)
      <==> issue in issues && (!showOnlyWorkspaceIssues || |folders| == 0 || InWorkspace(issue.filePath, folders))
    ensures var shown := ShownIssues(issues, showOnlyWorkspaceIssues, folders);
      var items := RootItems(issues, showOnlyWorkspaceIssues, folders);
      |items| == |shown| && forall i :: 0 <= i < |items| ==> items[i] == IssueItem(shown[i], RootState(shown[i]))
  {
    if showOnlyWorkspaceIssues && |folders| > 0 {
      FilterIsSubsequence(issues, (issue: CodeReviewIssue) => InWorkspace(issue.filePath, folders));
    } else {
      SubsequenceSelf(issues);
    }
  }

  /** The reply nodes of an issue: its replies in stored order (`getIssueReplies`, and the children of an
      issue node in the tree of all issues). */
  function ReplyItems(issue: CodeReviewIssue): (items: seq<TreeItem>)
    ensures |items| == |issue.Thread()|
    ensures forall i :: 0 <= i < |items| ==> items[i] == ReplyItem(issue.Thread()[i], issue, Leaf)
  {
    if issue.replies.None? || |issue.replies.value| == 0 then []
    else Map(issue.replies.value, reply => ReplyItem(reply, issue, Leaf))
  }

  /** The node of an issue in the two filtered views, which always shows an expander. */
  function CollapsedItem(issue: CodeReviewIssue): TreeItem {
    IssueItem(issue, Collapsed)
  }

  /** `getChildren(element)` below the root: an issue node's reply nodes; a reply node has none. */
  function Children(item: TreeItem): (items: seq<TreeItem>)
    ensures item.ReplyItem? ==> items == []
    ensures item.IssueItem? ==> items == ReplyItems(item.issue)
  {
    match item
    case IssueItem(issue, _) => Map(issue.Thread(), reply => ReplyItem(reply, issue, Leaf))
    case ReplyItem(_, _, _) => []
  }
}
