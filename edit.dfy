/**
 * `editCode` of src/utils.ts: the whole document and the instruction go out in
 * one request, and the reply's content replaces the document's full range.
 */
module Edit {
  import opened Wrappers
  import opened Text
  import opened Editor

  const FileOpen: string := "<file>\n"

  /** What follows the document in the message. */
  function EditTail(prompt: string): string {
    "\n</file>\n<prompt>\n" + prompt + "\n</prompt>. "
  }

  /** The user message: the template `<file>\n${text}\n</file>\n<prompt>\n${prompt}\n</prompt>. `. */
  function EditMessage(text: string, prompt: string): (m: string)
    ensures |m| == |FileOpen| + |text| + |EditTail(prompt)|
    ensures m[..|FileOpen|] == FileOpen
    ensures m[|FileOpen|..|FileOpen| + |text|] == text && m[|FileOpen| + |text|..] == EditTail(prompt)
  {
    SplitThree(FileOpen, text, EditTail(prompt));
    FileOpen + text + EditTail(prompt)
  }

  /** Reads the document back out of an edit message, given the prompt. */
  function DocumentOf(m: string, prompt: string): string
    requires |FileOpen| + |EditTail(prompt)| <= |m|
  {
    m[|FileOpen|..|m| - |EditTail(prompt)|]
  }

  /** The message embeds the document verbatim: it can be read back, so two different
      documents never give the same message for one prompt. */
  lemma EditMessageRoundTrip(text: string, prompt: string)
    ensures |FileOpen| + |EditTail(prompt)| <= |EditMessage(text, prompt)|
    ensures DocumentOf(EditMessage(text, prompt), prompt) == text
  {
    var m := EditMessage(text, prompt);
    assert DocumentOf(m, prompt) == m[|FileOpen|..|FileOpen| + |text|];
  }

  lemma EditMessageInjective(t1: string, t2: string, prompt: string)
    requires EditMessage(t1, prompt) == EditMessage(t2, prompt)
    ensures t1 == t2
  {
    EditMessageRoundTrip(t1, prompt);
    EditMessageRoundTrip(t2, prompt);
  }

  /**
   * `editCode(prompt)`: `doc` is the active editor's document (`null` when there is none)
   * and `reply` stands for `data.choices[0].message.content` of the response. The range is
   * taken from the text before the request; the reply then replaces it in one edit.
   */
  method EditCode(doc: Document?, prompt: string, reply: string) returns (request: Option<string>)
    requires doc != null ==> doc.Valid()
    modifies doc
    ensures doc == null ==> request == None
    ensures doc != null ==> request == Some(EditMessage(old(doc.text), prompt))
    ensures doc != null ==> doc.Valid() && doc.text == reply
  {
    if doc == null {
      return None;
    }
    var start, end := 0, |doc.text|;
    request := Some(EditMessage(doc.text, prompt));
    doc.Replace(start, end, reply);
    ReplaceWholeRange(old(doc.text), reply);
  }
}
