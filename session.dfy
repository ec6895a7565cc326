/**
 * A spoken command followed through to the workspace: the call `processVoiceCommand`
 * makes, carried out by the file commands of src/utils.ts.
 */
module Session {
  import opened Wrappers
  import opened Text
  import opened Commands
  import Files

  /** What a dispatched file call does in a workspace whose first folder is `root`;
      `None` for the calls that are not file commands. */
  function Perform(root: Option<string>, a: Action): Option<Files.Effect> {
    match a
    case CreateInWorkspace(name, content) => Some(Files.CreateFileInWorkspace(root, name, content))
    case DeleteInWorkspace(name) => Some(Files.DeleteFileInWorkspace(root, name))
    case Open(name) => Some(Files.OpenFile(root, name))
    case _ => None
  }

  /** Saying "create a file named <t>" writes an empty file at the root under `t`, less one
      trailing "." when `t` ends in one. */
  lemma SpokenCreate(root: string, t: string)
    requires IsLower(t) && Trimmed(t)
    ensures var e := Perform(Some(root), ProcessVoiceCommand(CreatePrefix + " " + t));
      e.Some? && e.value.WriteFile? && e.value.content == "" &&
      (if EndsWith(t, ".") then e.value.path + "." == root + "/" + t else e.value.path == root + "/" + t)
  {
    CreateCommandNamesFile(t);
  }

  /** Saying "delete <t>" deletes the file at the root named `t` exactly, trailing "." kept,
      so "delete notes.txt." misses the file "create a file named notes.txt." made. */
  lemma SpokenDelete(root: string, t: string)
    requires IsLower(t) && Trimmed(t)
    ensures Perform(Some(root), ProcessVoiceCommand(DeletePrefix + " " + t)) ==
              Some(Files.DeleteFile(root + "/" + t))
  {
    DeleteBeatsLaterKeywords(t);
  }

  /** Without an open folder no dispatched call touches a file: the file commands only
      report. */
  lemma NoFolderNoFileEffect(a: Action)
    ensures var e := Perform(None, a);
      e.None? || e.value.ShowError?
  {
  }
}
