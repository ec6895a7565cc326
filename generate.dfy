/**
 * `generateCode` of src/utils.ts: the user message sent with the fixed system
 * prompt, and the loop that buffers the streamed deltas and inserts the buffer
 * at the cursor whenever it ends in a newline or an empty delta arrives.
 */
module Generate {
  import opened Wrappers
  import opened Text
  import Context
  import opened Editor

  // ---------------------------------------------------------------------
  // The request

  /** The user message: the six parts joined by `[...].join()`, whose separator is ",". */
  function GenerationMessage(context: string, prompt: string): (m: string)
    ensures m == "<codebase>" + "," + context + "," + "</codebase>" + "," + "<prompt>" + "," +
                 Trim(prompt) + "," + "</prompt>"
  {
    var p := Trim(prompt);
    JoinSix("<codebase>", context, "</codebase>", "<prompt>", p, "</prompt>", ",");
    Join(["<codebase>", context, "</codebase>", "<prompt>", p, "</prompt>"], ",")
  }

  /** The message carries the context and the trimmed prompt intact, each between its
      delimiters, so both can be read back from it. */
  lemma GenerationMessageRecoversContext(context: string, prompt: string)
    ensures var m := GenerationMessage(context, prompt);
      var head := "<codebase>" + ",";
      var tail := "," + "</codebase>" + "," + "<prompt>" + "," + Trim(prompt) + "," + "</prompt>";
      |m| == |head| + |context| + |tail| &&
      m[..|head|] == head && m[|head|..|head| + |context|] == context && m[|head| + |context|..] == tail
  {
    var m := GenerationMessage(context, prompt);
    var head := "<codebase>" + ",";
    var tail := "," + "</codebase>" + "," + "<prompt>" + "," + Trim(prompt) + "," + "</prompt>";
    RegroupSix("<codebase>", context, "</codebase>", "<prompt>", Trim(prompt), "</prompt>", ",");
    SplitThree(head, context, tail);
  }

  // ---------------------------------------------------------------------
  // The flush policy, as a pure state machine

  /** `part.choices[0]?.delta?.content || ""`: a missing delta reads as the empty string. */
  function ChunkText(delta: Option<string>): string {
    delta.GetOr("")
  }

  function Codes(parts: seq<Option<string>>): (codes: seq<string>)
    ensures |codes| == |parts|
    ensures forall i :: 0 <= i < |parts| ==>
      (parts[i].None? ==> codes[i] == "") && (parts[i].Some? ==> codes[i] == parts[i].value)
  {
    seq(|parts|, i requires 0 <= i < |parts| => ChunkText(parts[i]))
  }

  /** The pieces inserted so far, in order, and the buffer still waiting. */
  datatype StreamState = StreamState(inserted: seq<string>, buffer: string)

  /** The flush condition, tested after the chunk has been appended. */
  predicate Flushes(buffer: string, code: string) {
    EndsWith(buffer + code, "\n") || code == ""
  }

  /** One chunk: it is appended to the buffer, which is inserted and reset when it flushes.
      Text is neither lost nor duplicated, and earlier insertions stay as they were. */
  function Step(st: StreamState, code: string): (r: StreamState)
    ensures Concat(r.inserted) + r.buffer == Concat(st.inserted) + st.buffer + code
    ensures |st.inserted| <= |r.inserted| <= |st.inserted| + 1 && r.inserted[..|st.inserted|] == st.inserted
  {
    var b := st.buffer + code;
    if Flushes(st.buffer, code) then
      ConcatSnoc(st.inserted, b);
      assert (st.inserted + [b])[..|st.inserted|] == st.inserted;
      StreamState(st.inserted + [b], "")
    else
      StreamState(st.inserted, b)
  }

  /** The state after consuming `codes` from an empty buffer; the buffer never ends in a
      newline, since such a buffer is flushed at once. */
  function Run(codes: seq<string>): (r: StreamState)
    ensures !EndsWith(r.buffer, "\n")
  {
    if codes == [] then StreamState([], "")
    else
      var st := Run(codes[..|codes| - 1]);
      var c := codes[|codes| - 1];
      FlushDependsOnChunkOnly(st.buffer, c);
      Step(st, c)
  }

  /** Whether a chunk causes a flush does not depend on what was buffered: a non-empty chunk
      decides the last character of `buffer + chunk` by itself. */
  lemma FlushDependsOnChunkOnly(buffer: string, code: string)
    ensures Flushes(buffer, code) <==> code == "" || EndsWith(code, "\n")
  {
    var b := buffer + code;
    if code != "" {
      assert b[|b| - 1..] == code[|code| - 1..];
    }
  }

  /** No text is lost or duplicated: the insertions followed by the buffer are exactly the
      chunks consumed. */
  lemma {:induction false} RunKeepsText(codes: seq<string>)
    ensures Concat(Run(codes).inserted) + Run(codes).buffer == Concat(codes)
  {
    if codes != [] {
      var init, c := codes[..|codes| - 1], codes[|codes| - 1];
      assert codes == init + [c];
      RunKeepsText(init);
      ConcatSnoc(init, c);
    }
  }

  /** The chunks that cause a flush: the empty ones and those ending in a newline. */
  function FlushingChunks(codes: seq<string>): nat {
    if codes == [] then 0
    else
      var c := codes[|codes| - 1];
      FlushingChunks(codes[..|codes| - 1]) + (if c == "" || EndsWith(c, "\n") then 1 else 0)
  }

  /** There is one insertion per flushing chunk, and no other. */
  lemma {:induction false} RunInsertionCount(codes: seq<string>)
    ensures |Run(codes).inserted| == FlushingChunks(codes)
  {
    if codes != [] {
      var init, c := codes[..|codes| - 1], codes[|codes| - 1];
      RunInsertionCount(init);
      FlushDependsOnChunkOnly(Run(init).buffer, c);
    }
  }

  /** The buffer is empty after the stream exactly when it was flushed by the last chunk
      (or nothing arrived). */
  lemma RunBufferEmptyIffLastFlushes(codes: seq<string>)
    ensures Run(codes).buffer == "" <==>
      codes == [] || codes[|codes| - 1] == "" || EndsWith(codes[|codes| - 1], "\n")
  {
    if codes != [] {
      FlushDependsOnChunkOnly(Run(codes[..|codes| - 1]).buffer, codes[|codes| - 1]);
    }
  }

  /** There is no flush after the loop: when the last chunk is non-empty and does not end in a
      newline, the text it completes is never inserted. */
  lemma TailNeverInserted(codes: seq<string>)
    requires codes != [] && codes[|codes| - 1] != "" && !EndsWith(codes[|codes| - 1], "\n")
    ensures Run(codes).buffer != ""
    ensures |Concat(Run(codes).inserted)| < |Concat(codes)|
  {
    RunBufferEmptyIffLastFlushes(codes);
    RunKeepsText(codes);
  }

  /** Consuming one more chunk is one more step. */
  lemma RunSnoc(codes: seq<string>, code: string)
    ensures Run(codes + [code]) == Step(Run(codes), code)
  {
    assert (codes + [code])[..|codes|] == codes;
  }

  lemma StepKeeps(st: StreamState, code: string)
    requires code != "" && !EndsWith(code, "\n")
    ensures Step(st, code) == StreamState(st.inserted, st.buffer + code)
  {
    FlushDependsOnChunkOnly(st.buffer, code);
  }

  lemma StepFlushes(st: StreamState, code: string)
    requires code == "" || EndsWith(code, "\n")
    ensures Step(st, code) == StreamState(st.inserted + [st.buffer + code], "")
  {
    FlushDependsOnChunkOnly(st.buffer, code);
  }

  /** Chunks a, b + "\n", c, "" (a and c non-empty, without a final newline) give exactly two
      insertions, a + b + "\n" then c. */
  lemma TwoInsertions(a: string, b: string, c: string)
    requires a != "" && !EndsWith(a, "\n") && c != "" && !EndsWith(c, "\n")
    ensures Run([a, b + "\n", c, ""]) == StreamState([a + b + "\n", c], "")
  {
    var nl := b + "\n";
    assert EndsWith(nl, "\n") by {
      assert nl[|nl| - 1..] == "\n";
    }
    RunFour(a, nl, c, "");
    FourSteps(a, nl, c);
    assert a + nl == a + b + "\n";
  }

  /** The chunks "ab", "cd\n", "ef", "" give exactly two insertions, "abcd\n" then "ef",
      the last one made for the empty end-of-stream chunk. */
  lemma FourChunksTwoInsertions()
    ensures Run(["ab", "cd\n", "ef", ""]) == StreamState(["abcd\n", "ef"], "")
  {
    var a, b, c := "ab", "cd", "ef";
    assert !EndsWith(a, "\n") && !EndsWith(c, "\n");
    TwoInsertions(a, b, c);
    assert b + "\n" == "cd\n" && a + b + "\n" == "abcd\n";
  }

  /** The steps behind `TwoInsertions`, for a line-ending second chunk `nl`. */
  lemma FourSteps(a: string, nl: string, c: string)
    requires a != "" && !EndsWith(a, "\n") && EndsWith(nl, "\n") && c != "" && !EndsWith(c, "\n")
    ensures Step(Step(Step(Step(StreamState([], ""), a), nl), c), "") == StreamState([a + nl, c], "")
  {
    StepKeeps(StreamState([], ""), a);
    assert "" + a == a;
    StepFlushes(StreamState([], a), nl);
    assert [] + [a + nl] == [a + nl];
    StepKeeps(StreamState([a + nl], ""), c);
    assert "" + c == c;
    StepFlushes(StreamState([a + nl], c), "");
    assert c + "" == c;
  }

  /** Four chunks are four steps from the empty state. */
  lemma RunFour(w: string, x: string, y: string, z: string)
    ensures Run([w, x, y, z]) == Step(Step(Step(Step(StreamState([], ""), w), x), y), z)
  {
    RunSnoc([], w);
    assert [] + [w] == [w];
    RunSnoc([w], x);
    assert [w] + [x] == [w, x];
    RunSnoc([w, x], y);
    assert [w, x] + [y] == [w, x, y];
    RunSnoc([w, x, y], z);
    assert [w, x, y] + [z] == [w, x, y, z];
  }

  // ---------------------------------------------------------------------
  // The loop's buffer and insertion log, updated in place

  class CodeStream {
    var buffer: string
    var inserted: seq<string>   // the insertions, in the order they are applied
    ghost var consumed: seq<string>

    ghost predicate Valid()
      reads this
    {
      StreamState(inserted, buffer) == Run(consumed)
    }

    /** `let buffer = ""`. */
    constructor ()
      ensures Valid() && consumed == [] && inserted == [] && buffer == ""
    {
      buffer := "";
      inserted := [];
      consumed := [];
    }

    /** One iteration of the `for await` loop: append the chunk, and flush (insert the buffer,
        then reset it) when it ends in a newline or the chunk is empty. */
    method Accept(code: string) returns (flushed: bool)
      requires Valid()
      modifies this
      ensures Valid() && consumed == old(consumed) + [code]
      ensures flushed <==> EndsWith(old(buffer) + code, "\n") || code == ""
      ensures flushed ==> inserted == old(inserted) + [old(buffer) + code] && buffer == ""
      ensures !flushed ==> inserted == old(inserted) && buffer == old(buffer) + code
    {
      buffer := buffer + code;
      flushed := EndsWith(buffer, "\n") || code == "";
      if flushed {
        inserted := inserted + [buffer];
        buffer := "";
      }
      consumed := consumed + [code];
      assert consumed[..|consumed| - 1] == old(consumed);
    }

    /** What the stream holds is exactly what it consumed, and the buffer never ends in a
        newline. */
    lemma KeepsText()
      requires Valid()
      ensures Concat(inserted) + buffer == Concat(consumed) && !EndsWith(buffer, "\n")
    {
      RunKeepsText(consumed);
    }
  }

  // ---------------------------------------------------------------------
  // generateCode

  datatype Outcome =
    | Skipped    // no active editor
    | Inserted   // the stream ended: the document is saved and "Code inserted!" shown
    | Failed     // the request or the stream threw: the error is shown, nothing is saved

  function ContextFor(listing: Option<seq<Context.Entry>>): string {
    match listing
    case None => ""
    case Some(entries) => Context.ContextOf(entries)
  }

  /**
   * One pass of the `for await` loop of `generateCode`: the part's text goes to the stream,
   * and what the stream flushes is inserted at the document's cursor. `pre` and `post` are
   * the text before and after the cursor when the loop started.
   */
  method Feed(stream: CodeStream, doc: Document, code: string, ghost pre: string, ghost post: string)
    requires stream.Valid() && doc.Valid()
    requires doc.text == pre + Concat(stream.inserted) + post
    requires doc.cursor == |pre| + |Concat(stream.inserted)|
    modifies stream, doc
    ensures stream.Valid() && doc.Valid() && stream.consumed == old(stream.consumed) + [code]
    ensures doc.text == pre + Concat(stream.inserted) + post
    ensures doc.cursor == |pre| + |Concat(stream.inserted)|
  {
    var flushed := stream.Accept(code);
    if flushed {
      ghost var earlier := stream.inserted[..|stream.inserted| - 1];
      var piece := stream.inserted[|stream.inserted| - 1];
      assert stream.inserted == earlier + [piece];
      ghost var done := Concat(earlier);
      doc.InsertAtCursor(piece);
      InsertAfter(pre, done, post, piece);
      ConcatSnoc(earlier, piece);
    }
  }

  /** The whole loop: every part is fed, in order. */
  method InsertStream(doc: Document, parts: seq<Option<string>>)
    requires doc.Valid()
    modifies doc
    ensures doc.Valid()
    ensures doc.text == InsertAll(old(doc.text), old(doc.cursor), Run(Codes(parts)).inserted)
  {
    ghost var text0, cursor0 := doc.text, doc.cursor;
    ghost var pre, post := text0[..cursor0], text0[cursor0..];
    ghost var codes := Codes(parts);
    var stream := new CodeStream();
    assert doc.text == pre + Concat(stream.inserted) + post;
    for i := 0 to |parts|
      invariant stream.Valid() && doc.Valid()
      invariant stream.consumed == codes[..i]
      invariant doc.text == pre + Concat(stream.inserted) + post
      invariant doc.cursor == |pre| + |Concat(stream.inserted)|
    {
      Feed(stream, doc, ChunkText(parts[i]), pre, post);
      assert codes[..i + 1] == codes[..i] + [codes[i]];
    }
    assert codes[..|parts|] == codes;
    InsertAllIsConcat(text0, cursor0, stream.inserted);
  }

  /**
   * `generateCode(prompt)`. `doc` is the active editor's document (`null` when there is
   * none), `listing` the workspace listing, `parts` the stream's parts as they arrive and
   * `streamFails` whether the call throws after them.
   */
  method GenerateCode(doc: Document?, listing: Option<seq<Context.Entry>>, prompt: string,
                      parts: seq<Option<string>>, streamFails: bool)
      returns (request: Option<string>, outcome: Outcome)
    requires doc != null ==> doc.Valid()
    modifies doc
    ensures doc == null ==> request == None && outcome == Skipped
    ensures doc != null ==> request == Some(GenerationMessage(ContextFor(listing), prompt))
    ensures doc != null ==> outcome == if streamFails then Failed else Inserted
    ensures doc != null ==>
      doc.Valid() && doc.text == InsertAll(old(doc.text), old(doc.cursor), Run(Codes(parts)).inserted)
  {
    if doc == null {
      return None, Skipped;
    }
    var context := Context.GetWorkspaceContext(listing);
    request := Some(GenerationMessage(context, prompt));
    InsertStream(doc, parts);
    outcome := if streamFails then Failed else Inserted;
  }
}
