/**
 * The part of the editor's text document that generateCode and editCode touch:
 * its text and the offset of the active cursor. Offsets stand for the
 * `Position`s that `document.positionAt` computes.
 */
module Editor {
  import opened Text

  /** `text` with `t[start..end]` replaced by `content`. */
  function ReplaceRange(text: string, start: nat, end: nat, content: string): (r: string)
    requires start <= end <= |text|
    ensures |r| == |text| - (end - start) + |content|
    ensures r[..start] == text[..start] && r[start..start + |content|] == content
    ensures r[start + |content|..] == text[end..]
  {
    text[..start] + content + text[end..]
  }

  /** Replacing the range from offset 0 to the end leaves nothing of the old text. */
  lemma ReplaceWholeRange(text: string, content: string)
    ensures ReplaceRange(text, 0, |text|, content) == content
  {
    var r := ReplaceRange(text, 0, |text|, content);
    assert r == r[0..0 + |content|];
  }

  /** Inserting `piece` at `at`. */
  function InsertAt(text: string, at: nat, piece: string): (r: string)
    requires at <= |text|
    ensures r == ReplaceRange(text, at, at, piece)
  {
    text[..at] + piece + text[at..]
  }

  /** Inserting right after `done` extends it. */
  lemma InsertAfter(pre: string, done: string, post: string, piece: string)
    ensures InsertAt(pre + done + post, |pre| + |done|, piece) == pre + (done + piece) + post
  {
    var t := pre + done + post;
    assert t[..|pre| + |done|] == pre + done;
    assert t[|pre| + |done|..] == post;
  }

  /** Inserting the pieces one after another, each at the cursor, which then moves past it. */
  function InsertAll(text: string, cursor: nat, pieces: seq<string>): (r: string)
    requires cursor <= |text|
    decreases |pieces|
  {
    if pieces == [] then text
    else InsertAll(InsertAt(text, cursor, pieces[0]), cursor + |pieces[0]|, pieces[1..])
  }

  /** Sequential insertions at an advancing cursor put the pieces, in order, at the first
      cursor position. */
  lemma {:induction false} InsertAllIsConcat(text: string, cursor: nat, pieces: seq<string>)
    requires cursor <= |text|
    ensures InsertAll(text, cursor, pieces) == text[..cursor] + Concat(pieces) + text[cursor..]
    decreases |pieces|
  {
    if pieces == [] {
      assert text[..cursor] + "" + text[cursor..] == text;
    } else {
      var p, rest := pieces[0], pieces[1..];
      var t := InsertAt(text, cursor, p);
      InsertAllIsConcat(t, cursor + |p|, rest);
      assert t[..cursor + |p|] == text[..cursor] + p;
      assert t[cursor + |p|..] == text[cursor..];
      ConcatCons(p, rest);
    }
  }

  class Document {
    var text: string
    var cursor: nat

    ghost predicate Valid()
      reads this
    {
      cursor <= |text|
    }

    constructor (text: string, cursor: nat)
      requires cursor <= |text|
      ensures Valid() && this.text == text && this.cursor == cursor
    {
      this.text := text;
      this.cursor := cursor;
    }

    /** `editBuilder.insert(editor.selection.active, piece)`; the cursor ends after the piece. */
    method InsertAtCursor(piece: string)
      requires Valid()
      modifies this
      ensures Valid()
      ensures text == InsertAt(old(text), old(cursor), piece)
      ensures cursor == old(cursor) + |piece|
    {
      text := text[..cursor] + piece + text[cursor..];
      cursor := cursor + |piece|;
    }

    /** `editBuilder.replace(range, content)` for the range from `start` to `end`. Where
        the cursor goes afterwards is left open beyond staying inside the text. */
    method Replace(start: nat, end: nat, content: string)
      requires Valid() && start <= end <= |text|
      modifies this
      ensures Valid()
      ensures text == ReplaceRange(old(text), start, end, content)
    {
      text := text[..start] + content + text[end..];
      if cursor > |text| {
        cursor := |text|;
      }
    }
  }
}
