/** The world outside the extension, as the modelled code observes it. Every file-system check and
    every `git` invocation becomes a value here, so that each operation is a function of its inputs. */
module Workspace {
  import opened Wrappers

  datatype Env = Env(
    /** `vscode.workspace.workspaceFolders`, as file-system paths, in order (empty when none is open). */
    folders: seq<string>,
    /** The paths for which `fs.existsSync` holds. */
    files: set<string>,
    /** Whether `git rev-parse --is-inside-work-tree` succeeds in the first folder. */
    insideWorkTree: bool,
    /** stdout of `git config user.name`, or None when the command fails. */
    gitUserName: Option<string>,
    /** stdout of `git config user.email`, or None when the command fails. */
    gitUserEmail: Option<string>,
    /** stdout of `git log --pretty=format:"%an" -- <path>` per path; a missing path means the command failed. */
    authorLog: map<string, string>,
    /** stdout of `git log --pretty=format:"%an|%ae" --author=".*"`, or None when the command fails. */
    contributorLog: Option<string>,
    /** Whether `git add` of the snapshot file succeeds. */
    stageSucceeds: bool)
  {
    /** `workspaceFolders[0].uri.fsPath`, when a folder is open. */
    function Root(): Option<string> {
      if |folders| == 0 then None else Some(folders[0])
    }
  }
}
