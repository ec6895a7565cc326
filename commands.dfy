/**
 * The voice-command interpreter of src/extension.ts: `processVoiceCommand`
 * lower-cases the transcript, classifies it by the first of six fixed
 * prefixes it starts with, extracts the argument, and hands it to exactly one
 * target; the `voiceCoding.start` handler only does so for a non-empty
 * transcript.
 */
module Commands {
  import opened Wrappers
  import opened Text

  const CreatePrefix: string := "create a file named"
  const DeletePrefix: string := "delete"
  const OpenPrefix: string := "open"
  const GeneratePrefix: string := "generate"
  const EditPrefix: string := "edit"
  const GoLivePrefix: string := "go live"

  /** The command the live-reload extension registers for starting its server. */
  const LiveServerCommand: string := "extension.liveServer.goOnline"
  const UnrecognisedNotice: string := "Unrecognised command: "

  datatype Intent =
    | CreateFile(fileName: string)
    | DeleteFile(fileName: string)
    | OpenFile(fileName: string)
    | GenerateCode(prompt: string)
    | EditCode(prompt: string)
    | GoLive
    | Unrecognized(command: string)

  /**
   * The branch `processVoiceCommand` takes. The file commands drop their
   * keyword with `replace` (which hits the leading occurrence) and trim what
   * is left; generate and edit keep the whole trimmed command; the fallback
   * keeps the lower-cased command untouched.
   */
  function Classify(command: string): (r: Intent)
    ensures r.CreateFile? <==> StartsWith(Lower(command), CreatePrefix)
    ensures r.DeleteFile? <==> !StartsWith(Lower(command), CreatePrefix) && StartsWith(Lower(command), DeletePrefix)
    ensures r.Unrecognized? <==> NoKeyword(Lower(command))
    ensures r.CreateFile? ==>
      StartsWith(Lower(command), CreatePrefix) && r.fileName == Trim(Lower(command)[|CreatePrefix|..])
    ensures r.DeleteFile? ==>
      StartsWith(Lower(command), DeletePrefix) && r.fileName == Trim(Lower(command)[|DeletePrefix|..])
    ensures r.OpenFile? ==>
      StartsWith(Lower(command), OpenPrefix) && r.fileName == Trim(Lower(command)[|OpenPrefix|..])
    ensures r.GenerateCode? ==> r.prompt == Trim(Lower(command)) && StartsWith(r.prompt, GeneratePrefix)
    ensures r.EditCode? ==> r.prompt == Trim(Lower(command)) && StartsWith(r.prompt, EditPrefix)
    ensures r.Unrecognized? ==> r.command == Lower(command)
  {
    var c := Lower(command);
    if StartsWith(c, CreatePrefix) then
      ReplaceFirstAtStart(c, CreatePrefix, "");
      assert "" + c[|CreatePrefix|..] == c[|CreatePrefix|..];
      CreateFile(Trim(ReplaceFirst(c, CreatePrefix, "")))
    else if StartsWith(c, DeletePrefix) then
      ReplaceFirstAtStart(c, DeletePrefix, "");
      assert "" + c[|DeletePrefix|..] == c[|DeletePrefix|..];
      DeleteFile(Trim(ReplaceFirst(c, DeletePrefix, "")))
    else if StartsWith(c, OpenPrefix) then
      ReplaceFirstAtStart(c, OpenPrefix, "");
      assert "" + c[|OpenPrefix|..] == c[|OpenPrefix|..];
      OpenFile(Trim(ReplaceFirst(c, OpenPrefix, "")))
    else if StartsWith(c, GeneratePrefix) then
      TrimKeepsPrefix(c, GeneratePrefix);
      GenerateCode(Trim(c))
    else if StartsWith(c, EditPrefix) then
      TrimKeepsPrefix(c, EditPrefix);
      EditCode(Trim(c))
    else if StartsWith(c, GoLivePrefix) then
      GoLive
    else
      Unrecognized(c)
  }

  // ---------------------------------------------------------------------
  // The priority order, as an explicit table of (prefix, kind) rules

  datatype Kind = KCreate | KDelete | KOpen | KGenerate | KEdit | KGoLive | KUnrecognized

  const Rules: seq<(string, Kind)> := [
    (CreatePrefix, KCreate), (DeletePrefix, KDelete), (OpenPrefix, KOpen),
    (GeneratePrefix, KGenerate), (EditPrefix, KEdit), (GoLivePrefix, KGoLive)
  ]

  /** The kind of the first rule whose prefix `c` starts with. */
  function FirstMatch(rules: seq<(string, Kind)>, c: string): Kind
  {
    if rules == [] then KUnrecognized
    else if StartsWith(c, rules[0].0) then rules[0].1
    else FirstMatch(rules[1..], c)
  }

  function KindOf(i: Intent): Kind {
    match i
    case CreateFile(_) => KCreate
    case DeleteFile(_) => KDelete
    case OpenFile(_) => KOpen
    case GenerateCode(_) => KGenerate
    case EditCode(_) => KEdit
    case GoLive => KGoLive
    case Unrecognized(_) => KUnrecognized
  }

  /** Classification is first-match-wins over the rule table, tested on the
      lower-cased (and not trimmed) command. */
  lemma ClassifyFollowsRules(command: string)
    ensures KindOf(Classify(command)) == FirstMatch(Rules, Lower(command))
  {
    var c := Lower(command);
    var r := Rules;
    assert r[0] == (CreatePrefix, KCreate);
    assert r[1..][0] == (DeletePrefix, KDelete);
    assert r[1..][1..][0] == (OpenPrefix, KOpen);
    assert r[1..][1..][1..][0] == (GeneratePrefix, KGenerate);
    assert r[1..][1..][1..][1..][0] == (EditPrefix, KEdit);
    assert r[1..][1..][1..][1..][1..][0] == (GoLivePrefix, KGoLive);
    assert r[1..][1..][1..][1..][1..][1..] == [];
    var k := KindOf(Classify(command));
    var r1, r2, r3, r4, r5 := r[1..], r[1..][1..], r[1..][1..][1..], r[1..][1..][1..][1..], r[1..][1..][1..][1..][1..];
    if StartsWith(c, CreatePrefix) {
      assert k == KCreate == FirstMatch(r, c);
      return;
    }
    assert FirstMatch(r, c) == FirstMatch(r1, c);
    if StartsWith(c, DeletePrefix) {
      assert k == KDelete == FirstMatch(r1, c);
      return;
    }
    assert FirstMatch(r1, c) == FirstMatch(r2, c);
    if StartsWith(c, OpenPrefix) {
      assert k == KOpen == FirstMatch(r2, c);
      return;
    }
    assert FirstMatch(r2, c) == FirstMatch(r3, c);
    if StartsWith(c, GeneratePrefix) {
      assert k == KGenerate == FirstMatch(r3, c);
      return;
    }
    assert FirstMatch(r3, c) == FirstMatch(r4, c);
    if StartsWith(c, EditPrefix) {
      assert k == KEdit == FirstMatch(r4, c);
      return;
    }
    assert FirstMatch(r4, c) == FirstMatch(r5, c);
    if StartsWith(c, GoLivePrefix) {
      assert k == KGoLive == FirstMatch(r5, c);
      return;
    }
    assert FirstMatch(r5, c) == FirstMatch(r5[1..], c) == KUnrecognized == k;
  }

  /** Only the lower-casing precedes matching, so the case of the transcript never matters. */
  lemma ClassifyIgnoresCase(command: string)
    ensures Classify(Lower(command)) == Classify(command)
  {
    LowerIdempotent(command);
  }

  /** The lower-cased command starts with none of the three file keywords. */
  predicate NoFileKeyword(c: string) {
    !StartsWith(c, CreatePrefix) && !StartsWith(c, DeletePrefix) && !StartsWith(c, OpenPrefix)
  }

  /** The lower-cased command starts with none of the six keywords. */
  predicate NoKeyword(c: string) {
    !StartsWith(c, CreatePrefix) && !StartsWith(c, DeletePrefix) && !StartsWith(c, OpenPrefix) &&
    !StartsWith(c, GeneratePrefix) && !StartsWith(c, EditPrefix) && !StartsWith(c, GoLivePrefix)
  }

  // ---------------------------------------------------------------------
  // Dispatch

  /** The single call each branch of `processVoiceCommand` makes. */
  datatype Action =
    | CreateInWorkspace(fileName: string, content: string)   // createFileInWorkspace(fileName, "")
    | DeleteInWorkspace(fileName: string)                    // deleteFileInWorkspace(fileName)
    | Open(fileName: string)                                 // openFile(fileName)
    | Generate(prompt: string)                               // generateCode(prompt)
    | Edit(prompt: string)                                   // editCode(prompt)
    | ExecuteCommand(id: string)                             // vscode.commands.executeCommand(id)
    | ShowError(message: string, item: string)               // vscode.window.showErrorMessage(message, item)

  /** The one call made for an intent. It loses nothing: the intent, argument included,
      can be read back from the call. */
  function Dispatch(i: Intent): (a: Action)
    ensures IntentOf(a) == Some(i)
  {
    match i
    case CreateFile(name) => CreateInWorkspace(name, "")
    case DeleteFile(name) => DeleteInWorkspace(name)
    case OpenFile(name) => Open(name)
    case GenerateCode(prompt) => Generate(prompt)
    case EditCode(prompt) => Edit(prompt)
    case GoLive => ExecuteCommand(LiveServerCommand)
    case Unrecognized(command) => ShowError(UnrecognisedNotice, command)
  }

  /** Reads back the intent a call was made for; defined only on calls `Dispatch` makes. */
  function IntentOf(a: Action): Option<Intent> {
    match a
    case CreateInWorkspace(name, content) => if content == "" then Some(CreateFile(name)) else None
    case DeleteInWorkspace(name) => Some(DeleteFile(name))
    case Open(name) => Some(OpenFile(name))
    case Generate(prompt) => Some(GenerateCode(prompt))
    case Edit(prompt) => Some(EditCode(prompt))
    case ExecuteCommand(id) => if id == LiveServerCommand then Some(GoLive) else None
    case ShowError(message, item) => if message == UnrecognisedNotice then Some(Unrecognized(item)) else None
  }

  /** `processVoiceCommand(command)`: the call made is the one for the command's intent. */
  function ProcessVoiceCommand(command: string): (a: Action)
    ensures IntentOf(a) == Some(Classify(command))
  {
    Dispatch(Classify(command))
  }

  /** Go-live is the one branch that runs an editor command, and it runs only the live-server one. */
  lemma GoLiveRunsLiveServer(command: string)
    ensures ProcessVoiceCommand(command).ExecuteCommand? <==> Classify(command) == GoLive
    ensures ProcessVoiceCommand(command).ExecuteCommand? ==>
      ProcessVoiceCommand(command) == ExecuteCommand(LiveServerCommand)
  {
  }

  /** A file is created, deleted or opened exactly when the lower-cased command starts with
      one of the three file keywords; an unmatched command only raises the notice. */
  lemma FileActionsNeedFileKeyword(command: string)
    ensures var a := ProcessVoiceCommand(command);
      a.CreateInWorkspace? || a.DeleteInWorkspace? || a.Open? <==>
        StartsWith(Lower(command), CreatePrefix) || StartsWith(Lower(command), DeletePrefix) ||
        StartsWith(Lower(command), OpenPrefix)
    ensures Classify(command).Unrecognized? ==>
      ProcessVoiceCommand(command) == ShowError(UnrecognisedNotice, Lower(command))
  {
  }

  /** The `voiceCoding.start` handler: the transcript is absent (`null`) or a string,
      and an empty one is falsy, so nothing is classified or dispatched for it. */
  function OnHeard(userCommand: Option<string>): (r: Option<Action>)
    ensures r.None? <==> userCommand.None? || userCommand.value == ""
    ensures r.Some? ==> IntentOf(r.value) == Some(Classify(userCommand.value))
  {
    match userCommand
    case None => None
    case Some(command) =>
      if command == "" then None
      else
        Some(ProcessVoiceCommand(command))
  }

  // ---------------------------------------------------------------------
  // Worked examples

  lemma MissesPrefix(c: string, p: string)
    requires c != [] && p != [] && c[0] != p[0]
    ensures !StartsWith(c, p)
  {
    assert |p| <= |c| ==> c[..|p|][0] == c[0];
  }

  /** The words of a spoken "delete <t>": already lower-case, not a create command, a
      delete command whose argument trims to `t`. */
  lemma DeleteCommandWords(t: string)
    requires IsLower(t) && Trimmed(t)
    ensures var c := DeletePrefix + " " + t;
      Lower(c) == c && !StartsWith(c, CreatePrefix) && StartsWith(c, DeletePrefix) &&
      Trim(c[|DeletePrefix|..]) == t
  {
    var c := DeletePrefix + " " + t;
    assert IsLower(c);
    LowerOfLower(c);
    MissesPrefix(c, CreatePrefix);
    assert c[|DeletePrefix|..] == " " + t + [];
    if t == [] {
      assert AllSpace(" " + t);
    } else {
      TrimAround(" ", t, []);
    }
  }

  lemma CreateWordsLower()
    ensures Lower(CreatePrefix + " ") == CreatePrefix + " "
  {
    assert IsLower(CreatePrefix + " ");
    LowerOfLower(CreatePrefix + " ");
  }

  /** The words of a spoken "create a file named <t>": already lower-case, a create command
      whose argument trims to `t`. */
  lemma CreateCommandWords(t: string)
    requires IsLower(t) && Trimmed(t)
    ensures var c := CreatePrefix + " " + t;
      Lower(c) == c && StartsWith(c, CreatePrefix) && Trim(c[|CreatePrefix|..]) == t
  {
    var w := CreatePrefix + " ";
    var c := w + t;
    CreateWordsLower();
    LowerAppend(w, t);
    LowerOfLower(t);
    assert c[..|CreatePrefix|] == CreatePrefix by {
      assert c[..|CreatePrefix|] == w[..|CreatePrefix|];
    }
    assert c[|CreatePrefix|..] == " " + t + [] by {
      assert c[|CreatePrefix|..] == w[|CreatePrefix|..] + t;
    }
    if t == [] {
      assert AllSpace(" " + t);
    } else {
      TrimAround(" ", t, []);
    }
  }

  /** "create a file named <t>" creates the empty file `t`. */
  lemma CreateCommandNamesFile(t: string)
    requires IsLower(t) && Trimmed(t)
    ensures Classify(CreatePrefix + " " + t) == CreateFile(t)
  {
    CreateCommandWords(t);
  }

  /** "delete" wins over whatever keyword follows it: "delete the generate button"
      deletes the file "the generate button". */
  lemma DeleteBeatsLaterKeywords(t: string)
    requires IsLower(t) && Trimmed(t)
    ensures Classify(DeletePrefix + " " + t) == DeleteFile(t)
  {
    DeleteCommandWords(t);
  }

  lemma CapitalGenerate()
    ensures Lower("Generate ") == GeneratePrefix + " "
  {
    var w := "Generate ";
    assert w[0] == 'G' && LowerChar('G') == 'g';
    assert forall i | 1 <= i < |w| :: !IsUpper(w[i]);
  }

  /** "Generate <t>", lower-cased, is "generate <t>", which starts with no file keyword and
      is already trimmed. */
  lemma GenerateCommandWords(t: string)
    requires IsLower(t) && Trimmed(t) && t != []
    ensures var c := GeneratePrefix + " " + t;
      Lower("Generate " + t) == c && Trim(c) == c && NoFileKeyword(c)
  {
    var c := GeneratePrefix + " " + t;
    CapitalGenerate();
    LowerAppend("Generate ", t);
    LowerOfLower(t);
    MissesPrefix(c, CreatePrefix);
    MissesPrefix(c, DeletePrefix);
    MissesPrefix(c, OpenPrefix);
    assert Trimmed(c) by {
      assert c[0] == 'g' && c[|c| - 1] == t[|t| - 1];
    }
    TrimOfTrimmed(c);
  }

  /** Generate keeps its keyword and the case is folded: "Generate a fibonacci function"
      asks for "generate a fibonacci function". */
  lemma GenerateKeepsKeyword(t: string)
    requires IsLower(t) && Trimmed(t) && t != []
    ensures Classify("Generate " + t) == GenerateCode(GeneratePrefix + " " + t)
  {
    GenerateCommandWords(t);
  }

  /** Matching happens before trimming: a command that begins with a space is unrecognised,
      whatever words follow. */
  lemma LeadingSpaceIsUnrecognized(t: string)
    ensures Classify(" " + t) == Unrecognized(Lower(" " + t))
  {
    var c := Lower(" " + t);
    assert c[0] == ' ';
    MissesPrefix(c, CreatePrefix);
    MissesPrefix(c, DeletePrefix);
    MissesPrefix(c, OpenPrefix);
    MissesPrefix(c, GeneratePrefix);
    MissesPrefix(c, EditPrefix);
    MissesPrefix(c, GoLivePrefix);
  }
}
