# Voice coding extension: a Dafny model of its core

The extension turns a spoken transcript into one editor action. `processVoiceCommand`
(src/extension.ts) lower-cases the transcript and picks an intent by the first of six
keywords it starts with: create a file, delete a file, open a file, generate code, edit
code, or go live. It then makes exactly one call for that intent. The helpers in
src/utils.ts carry the calls out:

- the file commands address `<first workspace folder>/<name>`; creating and deleting clean the
  spoken name first, opening uses it as given;
- `getWorkspaceContext` serialises the readable top-level files of the workspace;
- `generateCode` sends a comma-joined message and streams the reply into the document,
  buffering the chunks and inserting at the cursor whenever the buffer ends in a newline or an
  empty chunk arrives;
- `editCode` sends the whole document and replaces its full range with the reply.

The model has one module per concern:

| file | module | models |
|---|---|---|
| wrappers.dfy | `Wrappers` | `Option` |
| text.dfy | `Text` | the JavaScript string operations the code relies on: ASCII `toLowerCase`, `startsWith`, `endsWith`, first-occurrence `replace`, `trim`, `slice`, `join` |
| commands.dfy | `Commands` | `processVoiceCommand` as `Classify` (transcript to `Intent`) then `Dispatch` (`Intent` to `Action`), and the non-empty guard of the `voiceCoding.start` handler |
| files.dfy | `Files` | `createFileInWorkspace`, `deleteFileInWorkspace`, `openFile` as functions from the workspace root to an `Effect` |
| context.dfy | `Context` | `getWorkspaceContext` as a method with its loop, specified by `ContextOf` |
| editor.dfy | `Editor` | the document: a class with its text and cursor, insertion at the cursor and range replacement |
| generate.dfy | `Generate` | the generation message, the flush policy as a pure state machine (`Step`, `Run`), the stream buffer as a class (`CodeStream`), and `generateCode` as a method |
| edit.dfy | `Edit` | the edit message and `editCode` as a method |
| session.dfy | `Session` | a spoken file command followed through to its file effect |

Stand-ins for the things the core cannot compute itself:
- The workspace root is an `Option<string>`: `None` means no folder is open.
- The directory listing is a sequence of entries. Each entry carries its read result, `None` when the read throws.
- The streamed reply is the sequence of parts that arrive, plus a flag saying whether the stream throws afterwards.
- The edit reply is the content string.
- The active editor is a `Document?`: `null` means there is none.

Behaviour of the code worth knowing:

- Matching is done on the lower-cased transcript without trimming, so a transcript with a
  leading space is unrecognised (`Commands.LeadingSpaceIsUnrecognized`).
- `deleteFileInWorkspace` cleans the name with `slice(0, length)`, which is the whole name.
  Deletion therefore keeps a trailing ".", while creation drops one. "delete notes.txt."
  addresses `notes.txt.` (`Files.DeleteFileInWorkspace`, `Files.CreateAndDeleteDisagreeOnDot`,
  `Session.SpokenDelete`).
- The unrecognised branch passes the lower-cased command to `showErrorMessage` as a second
  argument, that is, as a message item. The notice text is "Unrecognised command: " on its own.
- The generation message is built with `join()` with no argument, whose separator is ",", so
  the six parts are separated by commas (`Generate.GenerationMessage`).
- `editCode` has no `try`/`catch`.

## Model

| member | source | states |
|---|---|---|
| Commands.Classify | src/extension.ts:37-60 | the intent is CreateFile exactly when the lower-cased command starts with "create a file named", and DeleteFile exactly when it starts with "delete" but not with the create keyword; it is Unrecognized exactly when no keyword matches, and then carries the lower-cased command; a file intent's name is the trimmed rest after its keyword; a generate or edit prompt is the whole trimmed lower-cased command and still starts with its keyword |
| Commands.ClassifyFollowsRules | src/extension.ts:40-60 | the kind chosen is the first of the ordered rules (create, delete, open, generate, edit, go live) whose keyword the lower-cased command starts with, else unrecognised |
| Commands.ClassifyIgnoresCase | src/extension.ts:38 | lower-casing first makes the classification independent of the transcript's case |
| Commands.Dispatch | src/extension.ts:40-60 | each intent goes to its own call with its own argument, so the intent can be read back from the call |
| Commands.ProcessVoiceCommand | src/extension.ts:37-61 | the one call made for a transcript is the call for its classification, which can be read back from it |
| Commands.GoLiveRunsLiveServer | src/extension.ts:55-56 | an editor command runs iff the intent is go-live, and it is always "extension.liveServer.goOnline" |
| Commands.FileActionsNeedFileKeyword | src/extension.ts:40-48 | a file is created, deleted or opened iff the lower-cased command starts with one of the three file keywords; an unmatched command only raises the notice with the command as its item |
| Commands.OnHeard | src/extension.ts:17-22 | nothing is dispatched iff the transcript is null or empty; otherwise the call made is the one for the transcript's classification |
| Commands.CreateCommandNamesFile | src/extension.ts:40-42 | "create a file named <t>" yields CreateFile(t) for any lower-case, trimmed t |
| Commands.DeleteBeatsLaterKeywords | src/extension.ts:43-45 | "delete <t>" yields DeleteFile(t) whatever keyword t contains |
| Commands.GenerateKeepsKeyword | src/extension.ts:49-51 | "Generate <t>" yields GenerateCode("generate <t>"): case folded, keyword kept |
| Commands.LeadingSpaceIsUnrecognized | src/extension.ts:38-40 | a command beginning with a space matches no keyword, since nothing is trimmed before matching |
| Text.Lower | src/extension.ts:38 | same length; each upper-case ASCII letter becomes the matching lower-case letter (code + 32), no upper-case letter is left, and every other character is unchanged |
| Text.LowerIdempotent | src/utils.ts:197 | lower-casing the already lower-cased transcript again changes nothing |
| Text.IndexOfFrom | src/extension.ts:41 | the result is the first position at or after k where the pattern occurs, or none when it occurs nowhere there |
| Text.ReplaceFirst | src/extension.ts:41 | `replace` with a string pattern changes only the first occurrence of the pattern into the replacement, and leaves a string without one unchanged |
| Text.ReplaceFirstAtStart | src/extension.ts:44 | replacing the first occurrence of a prefix replaces that prefix |
| Text.Trim | src/extension.ts:41 | the result has no whitespace at either edge, is no longer than the input, and is empty iff the input is all whitespace |
| Text.TrimAround | src/extension.ts:47 | trimming removes exactly the whitespace around a text that has none at its edges |
| Text.TrimIdempotent | src/extension.ts:50 | trimming twice equals trimming once |
| Text.TrimKeepsPrefix | src/extension.ts:49-50 | a keyword the command starts with survives trimming, so a generate or edit prompt still starts with its keyword |
| Text.Slice | src/utils.ts:339 | `slice(start, end)` with both ends clamped to the string: the result is the characters from start up to the clamped end, and "" when start is at or past the clamped end |
| Text.JoinSix | src/utils.ts:231-238 | six parts joined put the separator between each pair of neighbours |
| Files.WorkspacePath | src/utils.ts:342-344 | the path is the root, then "/", then the name |
| Files.CreateName | src/utils.ts:338-340 | a name ending in "." loses exactly that dot; any other name is unchanged |
| Files.DeleteName | src/utils.ts:354-356 | the cleaned name is the name itself, trailing dot included |
| Files.CreateFileInWorkspace | src/utils.ts:331-346 | no folder gives the error "Open a folder first!"; otherwise the given content is written at root + "/" + name, less one trailing dot |
| Files.DeleteFileInWorkspace | src/utils.ts:348-363 | no folder gives the error "Open a folder"; otherwise root + "/" + name is deleted with the name unchanged, trailing dot included |
| Files.OpenFile | src/utils.ts:310-316 | no folder gives the error "Open a folder first" |
| Files.OpenPath | src/utils.ts:318-324 | with a folder, the document opened is root + "/" + name with the name as given |
| Files.CreateAndDeleteDisagreeOnDot | src/utils.ts:338-360 | create and delete address the same path iff the name does not end in "." |
| Context.GetWorkspaceContext | src/utils.ts:166-185 | no folder gives ""; otherwise the result is the blocks of the listing's entries in order |
| Context.FileBlockParts | src/utils.ts:179 | a block is `<file name="`, the name, `">` and a newline, the content, and a newline with `</file>` and a newline, each at a fixed offset, so name and content can be cut back out |
| Context.ContextOf | src/utils.ts:174-183 | a listing none of whose entries could be read gives the empty context |
| Context.NoneReadableEveryEntry | src/utils.ts:177-182 | "none readable" holds exactly when every entry's read failed |
| Context.ContextOfAppend | src/utils.ts:174-183 | the context of two listings in sequence is the two contexts in sequence |
| Context.ContextIsReadableBlocks | src/utils.ts:177-182 | the context is the blocks of exactly the readable entries, in listing order: unreadable ones are skipped |
| Editor.ReplaceRange | src/utils.ts:303-305 | the replaced range holds the new content and the text around it is unchanged |
| Editor.ReplaceWholeRange | src/utils.ts:270-273 | replacing the range from offset 0 to the end leaves exactly the new content |
| Editor.InsertAt | src/utils.ts:251-253 | insertion is replacement of the empty range at the cursor |
| Editor.InsertAfter | src/utils.ts:252 | inserting right after what was inserted before extends it |
| Editor.InsertAllIsConcat | src/utils.ts:246-256 | insertions one after another at an advancing cursor place their concatenation at the first cursor position |
| Editor.Document.InsertAtCursor | src/utils.ts:251-253 | the document text gains the piece at the cursor, and the cursor moves past it |
| Editor.Document.Replace | src/utils.ts:303-305 | the document text is the old text with the range replaced |
| Generate.GenerationMessage | src/utils.ts:231-238 | the message is "<codebase>", the context, "</codebase>", "<prompt>", the trimmed prompt and "</prompt>", separated by "," |
| Generate.GenerationMessageRecoversContext | src/utils.ts:231-238 | the context can be read back from the message, between "<codebase>," and the tail holding the trimmed prompt |
| Generate.Codes | src/utils.ts:247 | one chunk per part; a part without a delta reads as "" and a part with delta v reads as v |
| Generate.FlushDependsOnChunkOnly | src/utils.ts:250 | whether a chunk flushes depends only on the chunk: it is empty or ends in a newline |
| Generate.Step | src/utils.ts:247-255 | one chunk keeps the insertions followed by the buffer equal to what came before plus the chunk, and adds at most one insertion after the earlier ones |
| Generate.Run | src/utils.ts:244-256 | after any sequence of chunks, the buffer never ends in a newline |
| Generate.RunKeepsText | src/utils.ts:244-256 | the insertions followed by the buffer are exactly the chunks concatenated: no text is lost or repeated |
| Generate.RunInsertionCount | src/utils.ts:246-256 | there is exactly one insertion per flushing chunk |
| Generate.RunBufferEmptyIffLastFlushes | src/utils.ts:244-256 | the buffer is empty after the stream iff the last chunk flushed (or there were none) |
| Generate.TailNeverInserted | src/utils.ts:246-257 | when the last chunk does not flush, its pending text is never inserted, since there is no flush after the loop |
| Generate.RunSnoc | src/utils.ts:246 | consuming one more chunk is one more step |
| Generate.StepKeeps | src/utils.ts:248-250 | a non-empty chunk without a final newline only grows the buffer |
| Generate.StepFlushes | src/utils.ts:250-255 | an empty or newline-ending chunk inserts the buffer plus the chunk and empties the buffer |
| Generate.TwoInsertions | src/utils.ts:246-256 | chunks a, b + newline, c, "" give exactly the two insertions a + b + newline and c |
| Generate.FourChunksTwoInsertions | src/utils.ts:246-256 | the chunks "ab", "cd\n", "ef", "" give the insertions "abcd\n" and "ef" and leave the buffer empty |
| Generate.CodeStream.constructor | src/utils.ts:244 | an empty buffer, nothing inserted, nothing consumed |
| Generate.CodeStream.Accept | src/utils.ts:247-255 | the chunk is consumed; it flushes iff buffer + chunk ends in a newline or the chunk is empty; when it flushes, buffer + chunk is inserted and the buffer emptied, otherwise the buffer grows by the chunk |
| Generate.CodeStream.KeepsText | src/utils.ts:244-256 | the stream's insertions plus its buffer are what it consumed, and the buffer never ends in a newline |
| Generate.Feed | src/utils.ts:246-256 | one pass of the loop keeps the document equal to the first text with everything inserted so far at the first cursor |
| Generate.InsertStream | src/utils.ts:246-256 | after the loop, the document is the old text with the stream's insertions made in order at the advancing cursor |
| Generate.GenerateCode | src/utils.ts:215-263 | with no editor nothing is sent; otherwise the request is the message for the workspace context and the prompt, the document receives exactly the stream's insertions, and the outcome is failure iff the stream throws |
| Edit.EditMessage | src/utils.ts:286 | the message is "<file>\n", then the document verbatim, then the tail with the prompt |
| Edit.EditMessageRoundTrip | src/utils.ts:286 | the document can be read back out of the message |
| Edit.EditMessageInjective | src/utils.ts:286 | for one prompt, different documents give different messages |
| Edit.EditCode | src/utils.ts:265-307 | with no editor nothing is sent; otherwise the request carries the document as it was, and the document ends holding exactly the reply |
| Session.SpokenCreate | src/extension.ts:40-42 | saying "create a file named <t>" writes an empty file at root + "/" + t, less one trailing dot |
| Session.SpokenDelete | src/extension.ts:43-45 | saying "delete <t>" deletes root + "/" + t with any trailing dot kept |
| Session.NoFolderNoFileEffect | src/utils.ts:310-363 | with no folder open, no dispatched call has a file effect: a file command only reports an error |

## Left out

- Audio recording and the transcription service (`getSpeechInput`, `recordAudioToFile`, `transcribeSpeech`) are not part of this model. The handler receives the transcript as a parameter.
- The OpenAI and HTTP transports are not modelled. The streamed parts, whether the stream throws, and the edit reply's content are parameters.
- The request bodies' model name, the system prompt text and the headers are left out. For each request, only the user message is modelled.
- VS Code notifications ("Listening...", "Heard: ...", "Code inserted!", "Opened file: ..."), `console.log`/`console.error` and `saveChanges` are side effects with no bearing on the modelled state. They are left out.
- Generate.GenerateCode: the error shown on failure is summarised as the `Failed` outcome. The exception text is not modelled.
- Generate.GenerateCode: `editor.edit` is not awaited in the source. The model applies each insertion before the next chunk is read.
- Editor.Document.InsertAtCursor: moving the cursor past each inserted piece is how the editor treats an insertion at the active position. The model assumes it rather than deriving it.
- Editor.Document.Replace: where the cursor lands after a replacement is left open, beyond staying inside the text.
- Edit.EditCode: the source has no `try`/`catch`. A failed request or an unparsable reply rejects the command's promise, and the document stays as it is. The model covers only a reply that arrived.
- Files.OpenFile, Files.CreateFileInWorkspace, Files.DeleteFileInWorkspace: failures of `openTextDocument`, `writeFile` and `delete` (a missing file, say) are not modelled. Each command yields the effect it requests.
- Context.GetWorkspaceContext: a `workspaceFolders` array that is present but empty makes `workspaceFolders[0]` throw in the source. The model's root is either absent or present, so that case is not represented.
- Context.GetWorkspaceContext: file contents are strings. The `Buffer` that `readFileSync` returns, and its conversion in the template, are not modelled.
- Text.Lower, Text.Trim: only ASCII letters are case-folded, and only ASCII whitespace (space, tab, line feed, carriage return, vertical tab, form feed) is trimmed. JavaScript's full Unicode tables are not modelled.
- Offsets stand for the `Position` objects of `document.positionAt`. Lines and columns are not modelled.
- The `voiceCoding.test` command and `activate`/`deactivate` registration are editor wiring, not core logic.
- Concurrency between overlapping voice commands is not modelled. Each command runs to completion on its own.
