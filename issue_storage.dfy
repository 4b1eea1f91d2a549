/** The issue store: one list of issues kept in a single backing file, upserted and deleted by id
    (src/services/issueStorage.ts). */
module Storage {
  import opened Issues

  /** What the backing `issues.json` holds: nothing, text that does not parse as an issue list, or a list. */
  datatype BackingFile = Absent | Unparsable(text: string) | Stored(issues: seq<CodeReviewIssue>)

  /** What reading the backing file yields (`getIssues`): a missing file or one that fails to parse
      reads as the empty list, never as an error. */
  function Load(file: BackingFile): (issues: seq<CodeReviewIssue>)
    ensures file.Absent? ==> issues == []
    ensures file.Unparsable? ==> issues == []
    ensures file.Stored? ==> issues == file.issues
  {
    match file
    case Stored(issues) => issues
    case _ => []
  }

  /** No two stored issues share an id. */
  predicate UniqueIds(s: seq<CodeReviewIssue>) {
    forall i, j :: 0 <= i < j < |s| ==> s[i].id != s[j].id
  }

  /** `issues.findIndex(i => i.id === id)`: the first position holding `id`, or -1 when there is none. */
  function FindIndex(s: seq<CodeReviewIssue>, id: string): (r: int)
    ensures -1 <= r < |s|
    ensures r >= 0 ==> s[r].id == id
    ensures forall j :: 0 <= j < |s| && (r == -1 || j < r) ==> s[j].id != id
  {
    if s == [] then -1
    else if s[0].id == id then 0
    else
      var k := FindIndex(s[1..], id);
      if k == -1 then -1 else k + 1
  }

  /** Reference definition of an upsert: walking the list, the first issue with `x`'s id is replaced by
      `x`; if the walk reaches the end, `x` is appended. */
  function Upserted(s: seq<CodeReviewIssue>, x: CodeReviewIssue): seq<CodeReviewIssue>
    decreases |s|
  {
    if s == [] then [x]
    else if s[0].id == x.id then [x] + s[1..]
    else [s[0]] + Upserted(s[1..], x)
  }

  /** Upserting a stored id replaces the first entry with that id, at the same index; the length and
      every other entry stay as they were. */
  lemma {:induction false} UpsertReplaces(s: seq<CodeReviewIssue>, x: CodeReviewIssue)
    requires FindIndex(s, x.id) >= 0
    ensures Upserted(s, x) == s[FindIndex(s, x.id) := x]
    decreases |s|
  {
    if s[0].id != x.id {
      UpsertReplaces(s[1..], x);
      assert s[FindIndex(s, x.id) := x] == [s[0]] + s[1..][FindIndex(s[1..], x.id) := x];
    }
  }

  /** Upserting an id not yet stored appends the issue at the end. */
  lemma {:induction false} UpsertAppends(s: seq<CodeReviewIssue>, x: CodeReviewIssue)
    requires FindIndex(s, x.id) == -1
    ensures Upserted(s, x) == s + [x]
    decreases |s|
  {
    if s != [] {
      UpsertAppends(s[1..], x);
      assert s + [x] == [s[0]] + (s[1..] + [x]);
    }
  }

  /** After an upsert the list holds the issue, and its length grew by one exactly when the id was new. */
  lemma UpsertStores(s: seq<CodeReviewIssue>, x: CodeReviewIssue)
    ensures x in Upserted(s, x)
    ensures |Upserted(s, x)| == if FindIndex(s, x.id) >= 0 then |s| else |s| + 1
  {
    if FindIndex(s, x.id) >= 0 {
      UpsertReplaces(s, x);
    } else {
      UpsertAppends(s, x);
    }
  }

  /** Upserting the same issue twice gives the same list as upserting it once. */
  lemma UpsertIdempotent(s: seq<CodeReviewIssue>, x: CodeReviewIssue)
    ensures Upserted(Upserted(s, x), x) == Upserted(s, x)
  {
    var k := FindIndex(s, x.id);
    var t := Upserted(s, x);
    if k >= 0 {
      UpsertReplaces(s, x);
      assert t[k] == x && forall j :: 0 <= j < k ==> t[j] == s[j];
      assert FindIndex(t, x.id) == k;
      UpsertReplaces(t, x);
    } else {
      UpsertAppends(s, x);
      assert t[|s|] == x && forall j :: 0 <= j < |s| ==> t[j] == s[j];
      assert FindIndex(t, x.id) == |s|;
      UpsertReplaces(t, x);
    }
  }

  /** Upserting keeps stored ids unique. */
  lemma UpsertKeepsIdsUnique(s: seq<CodeReviewIssue>, x: CodeReviewIssue)
    requires UniqueIds(s)
    ensures UniqueIds(Upserted(s, x))
  {
    if FindIndex(s, x.id) >= 0 {
      UpsertReplaces(s, x);
    } else {
      UpsertAppends(s, x);
    }
  }

  /** `issues.filter(i => i.id !== id)`. */
  function WithoutId(s: seq<CodeReviewIssue>, id: string): seq<CodeReviewIssue>
    decreases |s|
  {
    if s == [] then []
    else if s[0].id == id then WithoutId(s[1..], id)
    else [s[0]] + WithoutId(s[1..], id)
  }

  /** Deleting an id removes every issue with that id and keeps every other issue. */
  lemma {:induction false} WithoutIdMembers(s: seq<CodeReviewIssue>, id: string, y: CodeReviewIssue)
    ensures y in WithoutId(s, id) <==> y in s && y.id != id
    decreases |s|
  {
    if s != [] {
      WithoutIdMembers(s[1..], id, y);
      assert s == [s[0]] + s[1..];
    }
  }

  /** Deleting an id that is not stored leaves the list unchanged. */
  lemma {:induction false} WithoutAbsentId(s: seq<CodeReviewIssue>, id: string)
    requires FindIndex(s, id) == -1
    ensures WithoutId(s, id) == s
    decreases |s|
  {
    if s != [] {
      WithoutAbsentId(s[1..], id);
    }
  }

  /** With unique ids, deleting a stored id removes exactly that one entry: the entries before and after
      it keep their relative order. */
  lemma {:induction false} WithoutStoredId(s: seq<CodeReviewIssue>, id: string)
    requires UniqueIds(s)
    requires FindIndex(s, id) >= 0
    ensures var k := FindIndex(s, id); WithoutId(s, id) == s[..k] + s[k + 1..]
    decreases |s|
  {
    var k := FindIndex(s, id);
    if k == 0 {
      WithoutAbsentId(s[1..], id);
    } else {
      WithoutStoredId(s[1..], id);
      assert s[..k] + s[k + 1..] == [s[0]] + (s[1..][..k - 1] + s[1..][k..]);
    }
  }

  /** Saving an issue and then deleting its id is the same as only deleting the id. */
  lemma {:induction false} DeleteAfterSave(s: seq<CodeReviewIssue>, x: CodeReviewIssue)
    ensures WithoutId(Upserted(s, x), x.id) == WithoutId(s, x.id)
    decreases |s|
  {
    if s != [] && s[0].id != x.id {
      DeleteAfterSave(s[1..], x);
    }
  }

  /** `IssueStorage`: the store and its backing file. Each operation reads the whole file, changes the
      list and rewrites the whole file. */
  class IssueStorage {
    var file: BackingFile

    /** The storage directory is created if missing; the file keeps whatever it held. */
    constructor (existing: BackingFile)
      ensures file == existing
    {
      file := existing;
    }

    /** `getIssues()`. */
    method GetIssues() returns (issues: seq<CodeReviewIssue>)
      ensures issues == Load(file)
    {
      match file
      case Stored(s) => issues := s;
      case _ => issues := [];
    }

    /** `saveIssue(issue)`: upsert by id, then rewrite the file with the whole list. A file that did not
        parse is overwritten, as if it had been empty. */
    method SaveIssue(issue: CodeReviewIssue)
      modifies this
      ensures file == Stored(Upserted(old(Load(file)), issue))
    {
      var issues := GetIssues();
      var existingIndex := FindIndex(issues, issue.id);
      if existingIndex >= 0 {
        UpsertReplaces(issues, issue);
        issues := issues[existingIndex := issue];
      } else {
        UpsertAppends(issues, issue);
        issues := issues + [issue];
      }
      file := Stored(issues);
    }

    /** `deleteIssue(id)`: drop every issue with that id, then rewrite the file. */
    method DeleteIssue(issueId: string)
      modifies this
      ensures file == Stored(WithoutId(old(Load(file)), issueId))
    {
      var issues := GetIssues();
      file := Stored(WithoutId(issues, issueId));
    }
  }
}
