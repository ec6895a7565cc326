/**
 * The file commands of src/utils.ts: `createFileInWorkspace`,
 * `deleteFileInWorkspace` and `openFile`. Each needs an open workspace and addresses
 * the file as `<first folder>/<name>`. Create and delete clean the spoken name first
 * (create drops one trailing ".", delete's `slice` keeps the name whole); open uses it
 * as given.
 */
module Files {
  import opened Wrappers
  import opened Text

  /** What a file command asks of the editor. */
  datatype Effect =
    | WriteFile(path: string, content: string)   // workspace.fs.writeFile
    | DeleteFile(path: string)                   // workspace.fs.delete
    | ShowDocument(path: string)                 // openTextDocument, then showTextDocument
    | ShowError(message: string)                 // window.showErrorMessage

  /** `` `${root}/${name}` ``. */
  function WorkspacePath(root: string, name: string): (p: string)
    ensures |p| == |root| + 1 + |name|
    ensures p[..|root|] == root && p[|root|] == '/' && p[|root| + 1..] == name
  {
    root + "/" + name
  }

  /** The cleaning in `createFileInWorkspace`: `slice(0, length - 1)` when the name ends in ".". */
  function CreateName(fileName: string): (r: string)
    ensures EndsWith(fileName, ".") ==> r + "." == fileName
    ensures !EndsWith(fileName, ".") ==> r == fileName
  {
    if EndsWith(fileName, ".") then Slice(fileName, 0, |fileName| - 1) else fileName
  }

  /** The cleaning in `deleteFileInWorkspace`: `slice(0, length)` when the name ends in ".",
      which is the whole name, so the name is used as spoken. */
  function DeleteName(fileName: string): (r: string)
    ensures r == fileName
  {
    if EndsWith(fileName, ".") then Slice(fileName, 0, |fileName|) else fileName
  }

  /** `createFileInWorkspace(fileName, content)`, where `root` is the path of the first
      workspace folder, if any. The content is written under the root at the spoken name
      less exactly one trailing "." (so "notes.txt." becomes "notes.txt" and "a.." becomes
      "a."). */
  function CreateFileInWorkspace(root: Option<string>, fileName: string, content: string): (e: Effect)
    ensures root.None? ==> e == ShowError("Open a folder first!")
    ensures root.Some? ==>
      e.WriteFile? && e.content == content &&
      (if EndsWith(fileName, ".")
       then e.path + "." == root.value + "/" + fileName
       else e.path == root.value + "/" + fileName)
  {
    match root
    case None => ShowError("Open a folder first!")
    case Some(r) =>
      var n := CreateName(fileName);
      assert EndsWith(fileName, ".") ==> r + "/" + n + "." == r + "/" + (n + ".");
      WriteFile(WorkspacePath(r, n), content)
  }

  /** `deleteFileInWorkspace(fileName)`: the spoken name is addressed unchanged, trailing
      "." included. */
  function DeleteFileInWorkspace(root: Option<string>, fileName: string): (e: Effect)
    ensures root.None? ==> e == ShowError("Open a folder")
    ensures root.Some? ==> e == DeleteFile(root.value + "/" + fileName)
  {
    match root
    case None => ShowError("Open a folder")
    case Some(r) => DeleteFile(WorkspacePath(r, DeleteName(fileName)))
  }

  /** `openFile(fileName)`: the name is used as given. */
  function OpenFile(root: Option<string>, fileName: string): (e: Effect)
    ensures root.None? ==> e == ShowError("Open a folder first")
  {
    match root
    case None => ShowError("Open a folder first")
    case Some(r) => ShowDocument(WorkspacePath(r, fileName))
  }

  /** With a folder open, the document shown is the one at root + "/" + the name as spoken. */
  lemma OpenPath(root: string, fileName: string)
    ensures OpenFile(Some(root), fileName) == ShowDocument(root + "/" + fileName)
  {
  }

  /** Creating and then deleting the same spoken name addresses two different files exactly
      when the name ends in ".". */
  lemma CreateAndDeleteDisagreeOnDot(root: string, fileName: string)
    ensures CreateFileInWorkspace(Some(root), fileName, "").path ==
              DeleteFileInWorkspace(Some(root), fileName).path
            <==> !EndsWith(fileName, ".")
  {
    var c := CreateFileInWorkspace(Some(root), fileName, "").path;
    var d := DeleteFileInWorkspace(Some(root), fileName).path;
    if EndsWith(fileName, ".") {
      assert |c| + 1 == |d|;
    }
  }
}
