/** Review issues, their replies and their status (src/models/codeReviewIssue.ts). */
module Issues {
  import opened Wrappers

  /** `IssueStatus`: exactly four values. */
  datatype IssueStatus = Open | Fixed | WontFix | Approved

  /** The string each status is stored as. */
  function StatusValue(s: IssueStatus): string {
    match s
    case Open => "open"
    case Fixed => "fixed"
    case WontFix => "wontfix"
    case Approved => "approved"
  }

  /** Reads a stored status string back; None for any string that is not one of the four values. */
  function ParseStatus(raw: string): (r: Option<IssueStatus>)
    ensures r.Some? ==> StatusValue(r.value) == raw
  {
    if raw == "open" then Some(Open)
    else if raw == "fixed" then Some(Fixed)
    else if raw == "wontfix" then Some(WontFix)
    else if raw == "approved" then Some(Approved)
    else None
  }

  /** Every status reads back as itself, so distinct statuses are stored as distinct strings. */
  lemma ParseStatusValue(s: IssueStatus)
    ensures ParseStatus(StatusValue(s)) == Some(s)
  {
  }

  /** A reply in an issue's thread. */
  datatype IssueReply = IssueReply(id: string, content: string, author: string, createdAt: nat)

  /** A review comment anchored at a file and a zero-based line. `replies` is None when the stored
      record has no `replies` field; `author` is None when it has no `author` field. */
  datatype CodeReviewIssue = CodeReviewIssue(
    id: string,
    filePath: string,
    lineNumber: nat,
    description: string,
    status: IssueStatus,
    createdAt: nat,
    updatedAt: nat,
    replies: Option<seq<IssueReply>>,
    author: Option<string>)
  {
    /** `issue.replies || []`: the thread in insertion order. */
    function Thread(): seq<IssueReply> {
      replies.GetOr([])
    }
  }

  /** `getStatusLabel(status)`, applied to whatever string the status field holds. */
  function GetStatusLabel(status: string): (text: string)
    ensures ParseStatus(status).None? ==> text == status
    ensures ParseStatus(status).Some? ==> text != status
  {
    match status
    case "open" => "待解决"
    case "fixed" => "已修复"
    case "wontfix" => "不修复"
    case "approved" => "已同意"
    case _ => status
  }

  /** `getStatusIcon(status)`, applied to whatever string the status field holds. */
  function GetStatusIcon(status: string): (icon: string)
    ensures ParseStatus(status).None? <==> icon == "$(question)"
  {
    match status
    case "open" => "$(issues)"
    case "fixed" => "$(check)"
    case "wontfix" => "$(circle-slash)"
    case "approved" => "$(thumbsup)"
    case _ => "$(question)"
  }

  /** On a well-typed status neither fallback is reached, and both mappings are injective. */
  lemma StatusPresentationInjective(a: IssueStatus, b: IssueStatus)
    ensures GetStatusLabel(StatusValue(a)) != StatusValue(a)
    ensures GetStatusIcon(StatusValue(a)) != "$(question)"
    ensures GetStatusLabel(StatusValue(a)) == GetStatusLabel(StatusValue(b)) ==> a == b
    ensures GetStatusIcon(StatusValue(a)) == GetStatusIcon(StatusValue(b)) ==> a == b
  {
    ParseStatusValue(a);
  }
}
