/**
 * The text form of a dependency tree (`FileDependency.__str__` and
 * `CommandDependency.__str__`): a node's label, then each child's text on the
 * following lines, after a connector that shows the direction, with the
 * child's own continuation lines pushed four columns to the right.
 */
module Render {

  import opened CommandLogs
  import opened Dependencies

  /** How many digest characters a file label shows (`digest[:16]`). */
  const DigestShown: nat := 16

  /** The indentation added to a child's continuation lines. */
  const Margin: string := "    "

  function Min(a: nat, b: nat): nat
  {
    if a <= b then a else b
  }

  /** `sep.join(parts)`. */
  function Join(sep: string, parts: seq<string>): string
  {
    if |parts| == 0 then ""
    else if |parts| == 1 then parts[0]
    else parts[0] + sep + Join(sep, parts[1..])
  }

  /**
   * The label of a file node: its path, then a space and the first 16 digest
   * characters, or "/" when the digest is empty.
   */
  function FileLabel(n: FileDependency): (r: string)
    ensures n.file <= r
    ensures n.digest == "" ==> r == n.file + "/"
    ensures n.digest != "" ==> |r| == |n.file| + 1 + Min(DigestShown, |n.digest|)
    ensures n.digest != "" ==> r[|n.file|] == ' ' && r[|n.file| + 1..] <= n.digest
  {
    n.file + (if n.digest != "" then " " + n.digest[..Min(DigestShown, |n.digest|)] else "/")
  }

  /** The label of a command node: its arguments shell-quoted by `quote` (`quote_args`) and joined by spaces. */
  function CommandLabel(c: CommandDependency, quote: seq<string> -> seq<string>): string
  {
    Join(" ", quote(c.command.command))
  }

  /** `text.replace('\n', '\n    ')`. */
  function Indent(s: string): (r: string)
    ensures |r| == |s| + |Margin| * Newlines(s)
    ensures Newlines(r) == Newlines(s)
  {
    if |s| == 0 then ""
    else
      var head := if s[0] == '\n' then "\n" + Margin else [s[0]];
      NewlinesConcat(head, Indent(s[1..]));
      head + Indent(s[1..])
  }

  lemma {:induction false} NewlinesConcat(a: string, b: string)
    ensures Newlines(a + b) == Newlines(a) + Newlines(b)
  {
    if |a| > 0 {
      assert (a + b)[1..] == a[1..] + b;
      NewlinesConcat(a[1..], b);
    } else {
      assert a + b == b;
    }
  }

  function Newlines(s: string): nat
  {
    if |s| == 0 then 0 else (if s[0] == '\n' then 1 else 0) + Newlines(s[1..])
  }

  /** Undoes `Indent`: drops the four spaces after each newline that has them. */
  function Outdent(s: string): string
  {
    if |s| == 0 then ""
    else if "\n" + Margin <= s then "\n" + Outdent(s[1 + |Margin|..])
    else [s[0]] + Outdent(s[1..])
  }

  lemma {:induction false} OutdentIndent(s: string)
    ensures Outdent(Indent(s)) == s
  {
    if |s| > 0 {
      OutdentIndent(s[1..]);
      var r := Indent(s);
      if s[0] == '\n' {
        assert r == "\n" + Margin + Indent(s[1..]);
        assert r[1 + |Margin|..] == Indent(s[1..]);
      } else {
        assert r == [s[0]] + Indent(s[1..]);
        assert r[1..] == Indent(s[1..]);
      }
      assert s == [s[0]] + s[1..];
    }
  }

  /** The glyph that starts a child line under a file node: `|-- ` on fan-out, `^-- ` on fan-in. */
  function FileBranch(out: bool): string
  {
    if out then "|-- " else "^-- "
  }

  /** The glyph that starts a child line under a command node: `|-->` on fan-out, `^---` on fan-in. */
  function CommandBranch(out: bool): string
  {
    if out then "|-->" else "^---"
  }

  /** The separator `p` a file node puts before each child. */
  function FileConnector(out: bool): string
  {
    "\n" + FileBranch(out)
  }

  /** The separator `p` a command node puts before each child. */
  function CommandConnector(out: bool): string
  {
    "\n" + CommandBranch(out)
  }

  /** `str(file_dependency)`. */
  function RenderFile(n: FileDependency, quote: seq<string> -> seq<string>): (r: string)
    ensures FileLabel(n) <= r
    ensures n.next == [] ==> r == FileLabel(n)
    decreases n
  {
    var children := RenderCommands(n.next, quote);
    var p := FileConnector(n.out);
    FileLabel(n) + (if |children| > 0 then p + Join(p, children) else "")
  }

  /** `[str(s).replace('\n', '\n    ') for s in cs]`. */
  function RenderCommands(cs: seq<CommandDependency>, quote: seq<string> -> seq<string>): (r: seq<string>)
    ensures |r| == |cs|
    decreases cs
  {
    if |cs| == 0 then [] else [Indent(RenderCommand(cs[0], quote))] + RenderCommands(cs[1..], quote)
  }

  /** `str(command_dependency)`. */
  function RenderCommand(c: CommandDependency, quote: seq<string> -> seq<string>): (r: string)
    ensures CommandLabel(c, quote) <= r
    ensures c.next == [] ==> r == CommandLabel(c, quote)
    decreases c
  {
    var children := RenderFiles(c.next, quote);
    var p := CommandConnector(c.out);
    CommandLabel(c, quote) + (if |children| > 0 then p + Join(p, children) else "")
  }

  /** `[str(s).replace('\n', '\n    ') for s in ns]`. */
  function RenderFiles(ns: seq<FileDependency>, quote: seq<string> -> seq<string>): (r: seq<string>)
    ensures |r| == |ns|
    decreases ns
  {
    if |ns| == 0 then [] else [Indent(RenderFile(ns[0], quote))] + RenderFiles(ns[1..], quote)
  }

  // The rendering as a list of lines, a reference definition independent of
  // string replacement: each child's lines follow its parent's, the first after
  // the branch glyph and the others shifted right by the margin.

  /** No line break inside. */
  predicate Flat(s: string)
  {
    '\n' !in s
  }

  predicate FlatLines(ls: seq<string>)
  {
    forall i :: 0 <= i < |ls| ==> Flat(ls[i])
  }

  /** Every label in the tree fits on one line. */
  predicate FlatFile(n: FileDependency, quote: seq<string> -> seq<string>)
    decreases n
  {
    Flat(FileLabel(n)) && forall c :: c in n.next ==> FlatCommand(c, quote)
  }

  predicate FlatCommand(c: CommandDependency, quote: seq<string> -> seq<string>)
    decreases c
  {
    Flat(CommandLabel(c, quote)) && forall m :: m in c.next ==> FlatFile(m, quote)
  }

  /** `ls` with the margin in front of every line. */
  function Shifted(ls: seq<string>): (r: seq<string>)
    ensures |r| == |ls|
  {
    if |ls| == 0 then [] else [Margin + ls[0]] + Shifted(ls[1..])
  }

  /** A child's lines as they appear under its parent. */
  function Nested(ls: seq<string>, branch: string): (r: seq<string>)
    requires |ls| > 0
    ensures |r| == |ls|
  {
    [branch + ls[0]] + Shifted(ls[1..])
  }

  function FileLines(n: FileDependency, quote: seq<string> -> seq<string>): (r: seq<string>)
    ensures |r| > 0 && r[0] == FileLabel(n)
    decreases n
  {
    [FileLabel(n)] + CommandsLines(n.next, FileBranch(n.out), quote)
  }

  function CommandsLines(cs: seq<CommandDependency>, branch: string, quote: seq<string> -> seq<string>): seq<string>
    decreases cs
  {
    if |cs| == 0 then [] else Nested(CommandLines(cs[0], quote), branch) + CommandsLines(cs[1..], branch, quote)
  }

  function CommandLines(c: CommandDependency, quote: seq<string> -> seq<string>): (r: seq<string>)
    ensures |r| > 0 && r[0] == CommandLabel(c, quote)
    decreases c
  {
    [CommandLabel(c, quote)] + FilesLines(c.next, CommandBranch(c.out), quote)
  }

  function FilesLines(ns: seq<FileDependency>, branch: string, quote: seq<string> -> seq<string>): seq<string>
    decreases ns
  {
    if |ns| == 0 then [] else Nested(FileLines(ns[0], quote), branch) + FilesLines(ns[1..], branch, quote)
  }

  /** Each line preceded by a line break: `"\n".join([a] + ls) == a + Lined(ls)`. */
  function Lined(ls: seq<string>): string
  {
    if |ls| == 0 then "" else "\n" + ls[0] + Lined(ls[1..])
  }

  /** Each part preceded by `p`: what `p + p.join(parts)` produces for a non-empty list. */
  function Prefixed(p: string, parts: seq<string>): string
  {
    if |parts| == 0 then "" else p + parts[0] + Prefixed(p, parts[1..])
  }

  lemma {:induction false} JoinLined(a: string, ls: seq<string>)
    ensures Join("\n", [a] + ls) == a + Lined(ls)
    decreases |ls|
  {
    if |ls| > 0 {
      assert ([a] + ls)[1..] == [ls[0]] + ls[1..];
      JoinLined(ls[0], ls[1..]);
    }
  }

  lemma {:induction false} JoinPrefixed(p: string, parts: seq<string>)
    requires |parts| > 0
    ensures p + Join(p, parts) == Prefixed(p, parts)
  {
    if |parts| > 1 {
      JoinPrefixed(p, parts[1..]);
    }
  }

  lemma {:induction false} LinedConcat(a: seq<string>, b: seq<string>)
    ensures Lined(a + b) == Lined(a) + Lined(b)
  {
    if |a| > 0 {
      assert (a + b)[1..] == a[1..] + b;
      LinedConcat(a[1..], b);
    } else {
      assert a + b == b;
    }
  }

  lemma {:induction false} IndentFlat(s: string)
    requires Flat(s)
    ensures Indent(s) == s
  {
    if |s| > 0 {
      assert s[0] in s;
      IndentFlat(s[1..]);
    }
  }

  lemma {:induction false} IndentConcat(a: string, b: string)
    ensures Indent(a + b) == Indent(a) + Indent(b)
  {
    if |a| > 0 {
      assert (a + b)[1..] == a[1..] + b;
      IndentConcat(a[1..], b);
    } else {
      assert a + b == b;
    }
  }

  /** Indenting one-line-per-line text shifts every line but the first by the margin. */
  lemma {:induction false} IndentLined(ls: seq<string>)
    requires FlatLines(ls)
    ensures Indent(Lined(ls)) == Lined(Shifted(ls))
  {
    if |ls| > 0 {
      var rest := Lined(ls[1..]);
      var sh := Shifted(ls);
      assert sh[0] == Margin + ls[0] && sh[1..] == Shifted(ls[1..]);
      calc {
        Indent(Lined(ls));
        { assert Lined(ls) == "\n" + (ls[0] + rest); }
        Indent("\n" + (ls[0] + rest));
        { IndentConcat("\n", ls[0] + rest); }
        Indent("\n") + Indent(ls[0] + rest);
        { IndentConcat(ls[0], rest); IndentFlat(ls[0]); }
        Indent("\n") + (ls[0] + Indent(rest));
        { IndentLined(ls[1..]); }
        Indent("\n") + (ls[0] + Lined(sh[1..]));
        { assert Indent("\n") == "\n" + Margin; }
        "\n" + sh[0] + Lined(sh[1..]);
      }
    }
  }

  lemma {:induction false} ShiftedFlat(ls: seq<string>)
    requires FlatLines(ls)
    ensures FlatLines(Shifted(ls))
  {
    if |ls| > 0 {
      ShiftedFlat(ls[1..]);
      assert Flat(ls[0]);
      assert Flat(Margin + ls[0]);
    }
  }

  lemma FlatConcat(a: seq<string>, b: seq<string>)
    requires FlatLines(a) && FlatLines(b)
    ensures FlatLines(a + b)
  {
    forall i | 0 <= i < |a + b| ensures Flat((a + b)[i]) {
      if i >= |a| {
        assert (a + b)[i] == b[i - |a|];
      }
    }
  }

  /**
   * One child under its parent: the connector, then the child's text with its
   * line breaks indented, is exactly the child's nested lines.
   */
  lemma NestedChild(text: string, ls: seq<string>, branch: string)
    requires |ls| > 0 && FlatLines(ls) && Flat(branch)
    requires text == ls[0] + Lined(ls[1..])
    ensures "\n" + branch + Indent(text) == Lined(Nested(ls, branch))
    ensures FlatLines(Nested(ls, branch))
  {
    IndentConcat(ls[0], Lined(ls[1..]));
    IndentFlat(ls[0]);
    IndentLined(ls[1..]);
    ShiftedFlat(ls[1..]);
    assert Flat(branch + ls[0]) by {
      assert Flat(ls[0]);
    }
    var n := Nested(ls, branch);
    assert n[1..] == Shifted(ls[1..]);
    FlatConcat([branch + ls[0]], Shifted(ls[1..]));
  }

  /** The rendering of a file node is its label followed by its child lines. */
  lemma {:induction false} FileRendersLines(n: FileDependency, quote: seq<string> -> seq<string>)
    requires FlatFile(n, quote)
    ensures RenderFile(n, quote) == FileLabel(n) + Lined(FileLines(n, quote)[1..])
    ensures FlatLines(FileLines(n, quote))
    decreases n, 1
  {
    CommandsRenderLines(n.next, n.out, quote);
    var children := RenderCommands(n.next, quote);
    if |children| > 0 {
      JoinPrefixed(FileConnector(n.out), children);
    }
    var ls := FileLines(n, quote);
    assert ls[1..] == CommandsLines(n.next, FileBranch(n.out), quote);
    FlatConcat([FileLabel(n)], ls[1..]);
  }

  lemma {:induction false} CommandsRenderLines(cs: seq<CommandDependency>, out: bool, quote: seq<string> -> seq<string>)
    requires forall c :: c in cs ==> FlatCommand(c, quote)
    ensures Prefixed(FileConnector(out), RenderCommands(cs, quote)) == Lined(CommandsLines(cs, FileBranch(out), quote))
    ensures FlatLines(CommandsLines(cs, FileBranch(out), quote))
    decreases cs, 0
  {
    if |cs| > 0 {
      var branch := FileBranch(out);
      CommandRendersLines(cs[0], quote);
      CommandsRenderLines(cs[1..], out, quote);
      var ls := CommandLines(cs[0], quote);
      NestedChild(RenderCommand(cs[0], quote), ls, branch);
      LinedConcat(Nested(ls, branch), CommandsLines(cs[1..], branch, quote));
      FlatConcat(Nested(ls, branch), CommandsLines(cs[1..], branch, quote));
    }
  }

  lemma {:induction false} CommandRendersLines(c: CommandDependency, quote: seq<string> -> seq<string>)
    requires FlatCommand(c, quote)
    ensures RenderCommand(c, quote) == CommandLabel(c, quote) + Lined(CommandLines(c, quote)[1..])
    ensures FlatLines(CommandLines(c, quote))
    decreases c, 1
  {
    FilesRenderLines(c.next, c.out, quote);
    var children := RenderFiles(c.next, quote);
    if |children| > 0 {
      JoinPrefixed(CommandConnector(c.out), children);
    }
    var ls := CommandLines(c, quote);
    assert ls[1..] == FilesLines(c.next, CommandBranch(c.out), quote);
    FlatConcat([CommandLabel(c, quote)], ls[1..]);
  }

  lemma {:induction false} FilesRenderLines(ns: seq<FileDependency>, out: bool, quote: seq<string> -> seq<string>)
    requires forall m :: m in ns ==> FlatFile(m, quote)
    ensures Prefixed(CommandConnector(out), RenderFiles(ns, quote)) == Lined(FilesLines(ns, CommandBranch(out), quote))
    ensures FlatLines(FilesLines(ns, CommandBranch(out), quote))
    decreases ns, 0
  {
    if |ns| > 0 {
      var branch := CommandBranch(out);
      FileRendersLines(ns[0], quote);
      FilesRenderLines(ns[1..], out, quote);
      var ls := FileLines(ns[0], quote);
      NestedChild(RenderFile(ns[0], quote), ls, branch);
      LinedConcat(Nested(ls, branch), FilesLines(ns[1..], branch, quote));
      FlatConcat(Nested(ls, branch), FilesLines(ns[1..], branch, quote));
    }
  }

  /**
   * When no label contains a line break, the rendered tree is its line list
   * joined by line breaks: the label first, then each child's lines after a
   * direction glyph, the child's own children four columns further right.
   */
  lemma RenderIsLines(n: FileDependency, quote: seq<string> -> seq<string>)
    requires FlatFile(n, quote)
    ensures RenderFile(n, quote) == Join("\n", FileLines(n, quote))
  {
    FileRendersLines(n, quote);
    var ls := FileLines(n, quote);
    assert ls == [ls[0]] + ls[1..];
    JoinLined(ls[0], ls[1..]);
  }

  /** The line list has one line per node of the tree. */
  lemma {:induction false} FileLineCount(n: FileDependency, quote: seq<string> -> seq<string>)
    ensures |FileLines(n, quote)| == FileSize(n)
    decreases n, 1
  {
    CommandsLineCount(n.next, FileBranch(n.out), quote);
  }

  lemma {:induction false} CommandsLineCount(cs: seq<CommandDependency>, branch: string, quote: seq<string> -> seq<string>)
    ensures |CommandsLines(cs, branch, quote)| == CommandsSize(cs)
    decreases cs, 0
  {
    if |cs| > 0 {
      CommandLineCount(cs[0], quote);
      CommandsLineCount(cs[1..], branch, quote);
    }
  }

  lemma {:induction false} CommandLineCount(c: CommandDependency, quote: seq<string> -> seq<string>)
    ensures |CommandLines(c, quote)| == CommandSize(c)
    decreases c, 1
  {
    FilesLineCount(c.next, CommandBranch(c.out), quote);
  }

  lemma {:induction false} FilesLineCount(ns: seq<FileDependency>, branch: string, quote: seq<string> -> seq<string>)
    ensures |FilesLines(ns, branch, quote)| == FilesSize(ns)
    decreases ns, 0
  {
    if |ns| > 0 {
      FileLineCount(ns[0], quote);
      FilesLineCount(ns[1..], branch, quote);
    }
  }
}
