/**
 * `getWorkspaceContext` of src/utils.ts: the top-level entries of the first
 * workspace folder, each readable one serialised as a tagged block, in listing
 * order. An entry whose read throws is logged and skipped.
 */
module Context {
  import opened Wrappers
  import opened Text

  /** One directory entry and the result of reading it: `None` when `readFileSync` throws. */
  datatype Entry = Entry(name: string, content: Option<string>)

  /** `` `<file name="${name}">\n${content}\n</file>\n` ``. */
  function FileBlock(name: string, content: string): string {
    "<file name=\"" + name + "\">\n" + content + "\n</file>\n"
  }

  /** A block holds the file's name and content verbatim, each at a fixed place between its
      delimiters, so both can be cut back out of it. */
  lemma FileBlockParts(name: string, content: string)
    ensures var b := FileBlock(name, content);
      |b| == |name| + |content| + 24 &&
      b[..12] == "<file name=\"" && b[12..12 + |name|] == name &&
      b[12 + |name|..15 + |name|] == "\">\n" && b[15 + |name|..15 + |name| + |content|] == content &&
      b[15 + |name| + |content|..] == "\n</file>\n"
  {
    SplitFive("<file name=\"", name, "\">\n", content, "\n</file>\n");
  }

  /** What one entry contributes to the context. */
  function EntryBlock(e: Entry): string {
    match e.content
    case None => ""
    case Some(c) => FileBlock(e.name, c)
  }

  /** No entry of the listing could be read. */
  predicate NoneReadable(entries: seq<Entry>) {
    entries == [] || (entries[0].content.None? && NoneReadable(entries[1..]))
  }

  /** That is: every entry's read failed. */
  lemma {:induction false} NoneReadableEveryEntry(entries: seq<Entry>)
    ensures NoneReadable(entries) <==> forall i :: 0 <= i < |entries| ==> entries[i].content.None?
  {
    if entries != [] {
      NoneReadableEveryEntry(entries[1..]);
      assert forall i :: 0 < i < |entries| ==> entries[i] == entries[1..][i - 1];
    }
  }

  /** The context of a listing: the entries' blocks, in order. */
  function ContextOf(entries: seq<Entry>): (context: string)
    ensures NoneReadable(entries) ==> context == ""
  {
    if entries == [] then ""
    else
      EntryBlock(entries[0]) + ContextOf(entries[1..])
  }

  /** The readable entries, in order, as (name, content) pairs. */
  function Readable(entries: seq<Entry>): seq<(string, string)> {
    if entries == [] then []
    else
      var e := entries[0];
      (if e.content.Some? then [(e.name, e.content.value)] else []) + Readable(entries[1..])
  }

  /** The blocks of (name, content) pairs, one after another. */
  function Blocks(files: seq<(string, string)>): string {
    if files == [] then "" else FileBlock(files[0].0, files[0].1) + Blocks(files[1..])
  }

  /** Appending a block piece by piece is appending the block. */
  lemma AppendBlock(context: string, name: string, content: string)
    ensures context + "<file name=\"" + name + "\">\n" + content + "\n</file>\n" ==
              context + FileBlock(name, content)
  {
    Regroup(context, "<file name=\"", name, "\">\n", content, "\n</file>\n");
  }

  lemma Regroup(x: string, a: string, b: string, c: string, d: string, e: string)
    ensures x + a + b + c + d + e == x + (a + b + c + d + e)
  {
  }

  /** The context of two listings one after the other is the two contexts one after the other. */
  lemma {:induction false} ContextOfAppend(a: seq<Entry>, b: seq<Entry>)
    ensures ContextOf(a + b) == ContextOf(a) + ContextOf(b)
  {
    if a == [] {
      assert a + b == b;
    } else {
      assert (a + b)[0] == a[0] && (a + b)[1..] == a[1..] + b;
      ContextOfAppend(a[1..], b);
    }
  }

  /** Reading one more entry appends its block. */
  lemma ContextOfSnoc(entries: seq<Entry>, e: Entry)
    ensures ContextOf(entries + [e]) == ContextOf(entries) + EntryBlock(e)
  {
    ContextOfAppend(entries, [e]);
    assert ContextOf([e]) == EntryBlock(e) + ContextOf([]);
  }

  /** One more entry of the listing read: its block is appended. */
  lemma ContextOfPrefix(files: seq<Entry>, i: nat)
    requires i < |files|
    ensures ContextOf(files[..i + 1]) == ContextOf(files[..i]) + EntryBlock(files[i])
  {
    assert files[..i + 1] == files[..i] + [files[i]];
    ContextOfSnoc(files[..i], files[i]);
  }

  /** The context is the blocks of the readable entries: unreadable entries contribute
      nothing and the others keep their listing order. */
  lemma {:induction false} ContextIsReadableBlocks(entries: seq<Entry>)
    ensures ContextOf(entries) == Blocks(Readable(entries))
  {
    if entries != [] {
      var e, rest := entries[0], entries[1..];
      ContextIsReadableBlocks(rest);
      if e.content.Some? {
        var r := [(e.name, e.content.value)] + Readable(rest);
        assert r[0] == (e.name, e.content.value) && r[1..] == Readable(rest);
      } else {
        assert Readable(entries) == [] + Readable(rest) == Readable(rest);
      }
    }
  }

  /**
   * `getWorkspaceContext()`: `listing` is `None` when no workspace folder is open, and
   * otherwise the entries of the first folder with their read results.
   */
  method GetWorkspaceContext(listing: Option<seq<Entry>>) returns (context: string)
    ensures listing.None? ==> context == ""
    ensures listing.Some? ==> context == ContextOf(listing.value)
  {
    if listing.None? {
      return "";
    }
    context := "";
    var files := listing.value;
    for i := 0 to |files|
      invariant context == ContextOf(files[..i])
    {
      var file := files[i];
      ContextOfPrefix(files, i);
      var name := file.name;
      match file.content {
        case Some(content) =>
          AppendBlock(context, name, content);
          context := context + "<file name=\"" + name + "\">\n" + content + "\n</file>\n";
        case None =>
      }
    }
    assert files[..|files|] == files;
  }
}
