/**
 * The Apache configuration tree of `ApacheNode` and the line-by-line
 * builder `ApacheNode._parse` (client/apacheparser.py).
 *
 * The tree is kept as a value: a `Node` owns its children. The builder's
 * cursor (`node`, moved down by `add_child` of a section and back up along
 * the `parent` reference of a closing tag) is modelled by a stack of the
 * sections that are still open, innermost last, over the children of the
 * synthetic root section named `''`.
 */
module ApacheNode {
  import opened Strings
  import opened LineJoin
  import opened Outcomes

  /** `ApacheNode(name, values, section)` with its `children`. */
  datatype Node = Node(name: string, values: seq<string>, section: bool, children: seq<Node>)

  /** An open section: its name, its values and the children read so far. */
  datatype Frame = Frame(name: string, values: seq<string>, children: seq<Node>)

  /** The children of the root read so far and the stack of open sections. */
  datatype Builder = Builder(top: seq<Node>, open: seq<Frame>)

  /** The ways `_parse` fails. */
  datatype ParseError =
    | SectionMismatch(found: string, expected: string)  // the `Exception("Section mismatch ...")`
    | MissingContinuation                               // `itobj.next()` past the end: StopIteration
    | SectionWithoutValues(section: string)             // `<Name>`: `None.split()`, AttributeError
    | EmptyDirective                                    // a joined line of blanks: `[].pop(0)`, IndexError

  /** The name of the synthetic root section. */
  const RootName: string := ""

  const Start: Builder := Builder([], [])

  /** The name of the section the cursor is on. */
  function CurrentName(b: Builder): string {
    if b.open == [] then RootName else b.open[|b.open| - 1].name
  }

  /** The children of the section the cursor is on. */
  function CurrentChildren(b: Builder): seq<Node> {
    if b.open == [] then b.top else b.open[|b.open| - 1].children
  }

  /**
   * `node.add_child(child)`: the child is appended to the current section;
   * the cursor does not move and no other section changes.
   */
  function AddChild(b: Builder, child: Node): (r: Builder)
    ensures |r.open| == |b.open| && CurrentName(r) == CurrentName(b)
    ensures CurrentChildren(r) == CurrentChildren(b) + [child]
    ensures b.open != [] ==> r.top == b.top && r.open[..|b.open| - 1] == b.open[..|b.open| - 1]
    ensures b.open != [] ==> r.open[|b.open| - 1].values == b.open[|b.open| - 1].values
  {
    if b.open == [] then Builder(b.top + [child], [])
    else
      var f := b.open[|b.open| - 1];
      Builder(b.top, b.open[..|b.open| - 1] + [Frame(f.name, f.values, f.children + [child])])
  }

  /** `node = node.add_child(new_node)` for a new section: the cursor moves into it. */
  function OpenSection(b: Builder, name: string, values: seq<string>): (r: Builder)
    ensures |r.open| == |b.open| + 1 && r.open[..|b.open|] == b.open && r.top == b.top
    ensures CurrentName(r) == name && CurrentChildren(r) == []
  {
    Builder(b.top, b.open + [Frame(name, values, [])])
  }

  /**
   * `node = node.parent`: the innermost open section becomes a finished
   * section node, appended to the section that encloses it.
   */
  function CloseSection(b: Builder): (r: Builder)
    requires b.open != []
    ensures |r.open| == |b.open| - 1
    ensures var f := b.open[|b.open| - 1];
      CurrentChildren(r) == CurrentChildren(Builder(b.top, b.open[..|b.open| - 1])) + [Node(f.name, f.values, true, f.children)]
  {
    var f := b.open[|b.open| - 1];
    AddChild(Builder(b.top, b.open[..|b.open| - 1]), Node(f.name, f.values, true, f.children))
  }

  /**
   * `return root` at the end of the input: sections still open are kept,
   * closed where the input stopped, and the root is always a section named
   * `''` without values.
   */
  function Finish(b: Builder): (r: Node)
    ensures r.name == RootName && r.values == [] && r.section
    ensures b.open == [] ==> r.children == b.top
    decreases |b.open|
  {
    if b.open == [] then Node(RootName, [], true, b.top) else Finish(CloseSection(b))
  }

  // ---------------------------------------------------------------------
  // Classifying one logical line
  // ---------------------------------------------------------------------

  /** `re_comment`, `^#.*$`: a `#` first and no line break (`.` stops at one). */
  predicate IsComment(line: string) {
    line != [] && line[0] == '#' && '\n' !in line
  }

  /** `if not line or cls.re_comment.match(line): continue` */
  predicate ApacheSkip(line: string) {
    line == [] || IsComment(line)
  }

  /** The characters of a section name in `re_section_start`: `[^/\s>]`. */
  predicate NameChar(c: char) {
    c != '/' && c != '>' && !IsSpace(c)
  }

  function NameEnd(s: string): (k: nat)
    ensures k <= |s|
    ensures forall i :: 0 <= i < k ==> NameChar(s[i])
    ensures k < |s| ==> !NameChar(s[k])
  {
    if s == [] || !NameChar(s[0]) then 0 else 1 + NameEnd(s[1..])
  }

  /** Which of the three regular expressions of `_parse` a stripped line matches. */
  datatype LineKind =
    | SectionStart(name: string, args: string)  // `re_section_start`; `args` is all that follows the name
    | SectionEnd(name: string)                  // `re_section_end`
    | Statement                                 // neither: a directive

  /**
   * Applied to stripped lines, which never end in a line break, so the `$`
   * of both expressions is the end of the line.
   */
  function Classify(line: string): (r: LineKind)
    ensures r.SectionStart? ==>
      && line == "<" + r.name + r.args + ">"
      && r.name != [] && (forall i :: 0 <= i < |r.name| ==> NameChar(r.name[i]))
      && (r.args == [] || !NameChar(r.args[0])) && '>' !in r.args
    ensures r.SectionEnd? ==>
      && r.name != [] && NoSpace(r.name) && '>' !in r.name
      && StartsWith(line, "</" + r.name) && EndsWithChar(line, '>')
      && AllSpace(line[2 + |r.name|..|line| - 1])
    ensures line == [] || line[0] != '<' ==> r.Statement?
  {
    if |line| >= 2 && line[0] == '<' && line[|line| - 1] == '>' then
      var inner := line[1..|line| - 1];
      if '>' !in inner && NameEnd(inner) > 0 then StartTag(line)
      else if inner != [] && inner[0] == '/' then EndTag(line)
      else Statement
    else Statement
  }

  /** A line `re_section_start` matches: the name runs up to the first non-name character. */
  function StartTag(line: string): (r: LineKind)
    requires |line| >= 2 && line[0] == '<' && line[|line| - 1] == '>'
    requires '>' !in line[1..|line| - 1] && NameEnd(line[1..|line| - 1]) > 0
    ensures r.SectionStart?
    ensures line == "<" + r.name + r.args + ">"
    ensures r.name != [] && (forall i :: 0 <= i < |r.name| ==> NameChar(r.name[i]))
    ensures (r.args == [] || !NameChar(r.args[0])) && '>' !in r.args
  {
    var inner := line[1..|line| - 1];
    var k := NameEnd(inner);
    assert line == "<" + inner[..k] + inner[k..] + ">";
    SectionStart(inner[..k], inner[k..])
  }

  /** A line starting `</`: `re_section_end` matches when one token is followed only by blanks. */
  function EndTag(line: string): (r: LineKind)
    requires |line| >= 3 && line[0] == '<' && line[1] == '/' && line[|line| - 1] == '>'
    ensures !r.SectionStart?
    ensures r.SectionEnd? ==>
      && r.name != [] && NoSpace(r.name) && '>' !in r.name
      && StartsWith(line, "</" + r.name) && EndsWithChar(line, '>')
      && AllSpace(line[2 + |r.name|..|line| - 1])
  {
    var e := line[2..|line| - 1];
    var m := TokenEnd(e);
    if '>' !in e && m > 0 && AllSpace(e[m..]) then
      assert line[..2 + m] == "</" + e[..m];
      assert e[m..] == line[2 + m..|line| - 1];
      SectionEnd(e[..m])
    else Statement
  }

  /**
   * One logical line applied to the tree: a section start opens a section
   * whose values are the whitespace split of its arguments, a section end
   * closes the current section when the names agree exactly, and any other
   * line becomes a leaf whose name is its first word with the first letter
   * capitalised and whose values are the remaining words.
   */
  function Step(b: Builder, line: string): (r: Result<Builder, ParseError>)
  {
    match Classify(line)
    case SectionStart(name, args) =>
      if AllSpace(args) then Err(SectionWithoutValues(name))
      else Ok(OpenSection(b, name, Split(args)))
    case SectionEnd(name) =>
      if name != CurrentName(b) then Err(SectionMismatch(name, CurrentName(b)))
      else Ok(CloseSection(b))
    case Statement =>
      var values := Split(line);
      if values == [] then Err(EmptyDirective)
      else Ok(AddChild(b, Node(Capitalize(values[0]), values[1..], false, [])))
  }

  // ---------------------------------------------------------------------
  // What one logical line does
  // ---------------------------------------------------------------------

  /** A non-empty run of non-whitespace characters, one item of `str.split()`. */
  predicate Word(t: string) {
    t != [] && NoSpace(t)
  }

  lemma NameEndPrefix(name: string, x: string)
    requires forall i :: 0 <= i < |name| ==> NameChar(name[i])
    requires x == [] || !NameChar(x[0])
    ensures NameEnd(name + x) == |name|
  {
    if name != [] {
      assert (name + x)[1..] == name[1..] + x;
      NameEndPrefix(name[1..], x);
    } else {
      assert name + x == x;
    }
  }

  /**
   * A directive line adds exactly one leaf to the current section: its name
   * is the first word with a lower-case first letter made upper-case, its
   * values are the remaining words, and the cursor stays where it is.
   */
  lemma DirectiveLine(b: Builder, name: string, values: seq<string>)
    requires Word(name) && name[0] != '<'
    requires forall v :: v in values ==> Word(v)
    ensures Step(b, Join(" ", [name] + values))
         == Ok(AddChild(b, Node(Capitalize(name), values, false, [])))
  {
    var toks := [name] + values;
    assert forall t :: t in toks ==> t == name || t in values;
    assert toks[|toks| - 1] in toks;
    SplitJoin(toks);
    JoinEnds(" ", toks);
    assert toks[1..] == values;
  }

  /**
   * `<name args>` opens a section whose values are the words of `args`, and
   * the cursor moves into it.
   */
  lemma SectionStartLine(b: Builder, name: string, values: seq<string>)
    requires name != [] && forall i :: 0 <= i < |name| ==> NameChar(name[i])
    requires values != [] && forall v :: v in values ==> Word(v) && '>' !in v
    ensures Step(b, "<" + name + " " + Join(" ", values) + ">") == Ok(OpenSection(b, name, values))
  {
    JoinedArgs(values);
    ClassifyStartTag(name, " " + Join(" ", values));
    assert "<" + name + " " + Join(" ", values) + ">" == "<" + name + (" " + Join(" ", values)) + ">";
  }

  /** The arguments `" " + " ".join(values)` of a section start split back into `values`. */
  lemma JoinedArgs(values: seq<string>)
    requires values != [] && forall v :: v in values ==> Word(v) && '>' !in v
    ensures var args := " " + Join(" ", values);
            !NameChar(args[0]) && '>' !in args && !AllSpace(args) && Split(args) == values
  {
    var j := Join(" ", values);
    assert values[0] in values && values[|values| - 1] in values;
    JoinEnds(" ", values);
    JoinFree(" ", values, '>');
    assert !IsSpace(j[0]) by { assert NoSpace(values[0]); }
    assert !AllSpace(" " + j) by { assert (" " + j)[1] == j[0]; }
    assert '>' !in " " + j by {
      forall i | 0 <= i < |" " + j| ensures (" " + j)[i] != '>' {
        if i > 0 {
          assert (" " + j)[i] == j[i - 1];
        }
      }
    }
    SplitAppend(" ", j);
    assert Split(" ") == [];
    SplitJoin(values);
  }

  /** `<name args>` is a section start when the name is made of name characters and `args` does not continue it. */
  lemma ClassifyStartTag(name: string, args: string)
    requires name != [] && forall i :: 0 <= i < |name| ==> NameChar(name[i])
    requires (args == [] || !NameChar(args[0])) && '>' !in args
    ensures Classify("<" + name + args + ">") == SectionStart(name, args)
  {
    var line := "<" + name + args + ">";
    var inner := name + args;
    assert line[1..|line| - 1] == inner;
    NameEndPrefix(name, args);
    assert '>' !in inner by {
      forall i | 0 <= i < |inner| ensures inner[i] != '>' {
        if i < |name| {
          assert NameChar(name[i]);
        } else {
          assert inner[i] == args[i - |name|];
        }
      }
    }
    assert inner[..|name|] == name && inner[|name|..] == args;
  }

  /** A section start whose arguments are all whitespace is refused (`None.split()`). */
  lemma SectionStartWithoutValues(b: Builder, name: string, pad: string)
    requires name != [] && forall i :: 0 <= i < |name| ==> NameChar(name[i])
    requires AllSpace(pad)
    ensures Step(b, "<" + name + pad + ">") == Err(SectionWithoutValues(name))
  {
    assert pad != [] ==> IsSpace(pad[0]);
    assert '>' !in pad by {
      forall i | 0 <= i < |pad| ensures pad[i] != '>' {
        assert IsSpace(pad[i]);
      }
    }
    ClassifyStartTag(name, pad);
  }

  /**
   * `</name>` closes the current section exactly when `name` is its name,
   * compared case-sensitively; otherwise the parse stops with a mismatch
   * that reports both names.
   */
  lemma SectionEndLine(b: Builder, name: string)
    requires Word(name) && '>' !in name
    ensures Step(b, "</" + name + ">")
         == if name == CurrentName(b) then Ok(CloseSection(b)) else Err(SectionMismatch(name, CurrentName(b)))
  {
    var line := "</" + name + ">";
    var inner := line[1..|line| - 1];
    assert inner == "/" + name;
    assert NameEnd(inner) == 0;
    assert inner[1..] == name;
    assert TokenEnd(name) == |name|;
    assert name[..|name|] == name && name[|name|..] == [];
    assert Classify(line) == SectionEnd(name);
  }

  /**
   * The root is named `''`, and a section name is never empty, so a closing
   * tag with no section open is always a mismatch.
   */
  lemma StrayClose(b: Builder, line: string)
    requires b.open == [] && Classify(line).SectionEnd?
    ensures Step(b, line) == Err(SectionMismatch(Classify(line).name, RootName))
  {
  }

  // ---------------------------------------------------------------------
  // The whole input
  // ---------------------------------------------------------------------

  /**
   * The loop of `_parse` over the physical lines still to be read, from the
   * tree built so far.
   */
  function Run(b: Builder, lines: seq<string>): (r: Result<Builder, ParseError>)
    decreases |lines|
  {
    if lines == [] then Ok(b)
    else
      var line := Strip(lines[0]);
      if ApacheSkip(line) then Run(b, lines[1..])
      else
        match JoinContinuation(line, lines[1..])
        case MissingNext => Err(MissingContinuation)
        case Joined(joined, rest) =>
          match Step(b, joined)
          case Err(e) => Err(e)
          case Ok(b2) => Run(b2, rest)
  }

  /** What `ApacheNode._parse` returns or raises for the lines of a file. */
  function ParseLines(lines: seq<string>): Result<Node, ParseError> {
    match Run(Start, lines)
    case Ok(b) => Ok(Finish(b))
    case Err(e) => Err(e)
  }

  lemma RunSkips(b: Builder, lines: seq<string>, i: nat)
    requires i < |lines| && ApacheSkip(Strip(lines[i]))
    ensures Run(b, lines[i..]) == Run(b, lines[i + 1..])
  {
    assert lines[i..][1..] == lines[i + 1..];
  }

  lemma RunJoins(b: Builder, lines: seq<string>, i: nat, line: string, j: nat)
    requires i < j <= |lines| && !ApacheSkip(Strip(lines[i]))
    requires JoinContinuation(Strip(lines[i]), lines[i + 1..]) == Joined(line, lines[j..])
    ensures Run(b, lines[i..]) == match Step(b, line) case Err(e) => Err(e) case Ok(b2) => Run(b2, lines[j..])
  {
    assert lines[i..][0] == lines[i] && lines[i..][1..] == lines[i + 1..];
  }

  lemma RunStops(b: Builder, lines: seq<string>, i: nat)
    requires i < |lines| && !ApacheSkip(Strip(lines[i]))
    requires JoinContinuation(Strip(lines[i]), lines[i + 1..]) == MissingNext
    ensures Run(b, lines[i..]) == Err(MissingContinuation)
  {
    assert lines[i..][0] == lines[i] && lines[i..][1..] == lines[i + 1..];
  }

  /** A blank or comment line adds nothing to the tree. */
  lemma SkippedLine(b: Builder, line: string, rest: seq<string>)
    requires ApacheSkip(Strip(line))
    ensures Run(b, [line] + rest) == Run(b, rest)
  {
    assert ([line] + rest)[1..] == rest;
  }

  /** A line that is neither skipped nor continued, and that `Step` accepts. */
  lemma ReadLine(b: Builder, line: string, rest: seq<string>, b2: Builder)
    requires !ApacheSkip(Strip(line)) && !EndsWithChar(Strip(line), '\\')
    requires Step(b, Strip(line)) == Ok(b2)
    ensures Run(b, [line] + rest) == Run(b2, rest)
  {
    assert ([line] + rest)[0] == line && ([line] + rest)[1..] == rest;
  }

  /** A line that is neither skipped nor continued, and that `Step` refuses. */
  lemma FailLine(b: Builder, line: string, rest: seq<string>, e: ParseError)
    requires !ApacheSkip(Strip(line)) && !EndsWithChar(Strip(line), '\\')
    requires Step(b, Strip(line)) == Err(e)
    ensures Run(b, [line] + rest) == Err(e)
  {
    assert ([line] + rest)[0] == line && ([line] + rest)[1..] == rest;
  }

  /** Each logical line applied in turn, stopping at the first error. */
  function Apply(b: Builder, logical: seq<string>): Result<Builder, ParseError>
    decreases |logical|
  {
    if logical == [] then Ok(b)
    else
      match Step(b, logical[0])
      case Err(e) => Err(e)
      case Ok(b2) => Apply(b2, logical[1..])
  }

  /** The logical lines of a scan applied in turn; an incomplete scan then fails. */
  function ApplyScan(b: Builder, s: Scan): Result<Builder, ParseError> {
    match Apply(b, s.logical)
    case Err(e) => Err(e)
    case Ok(b2) => if s.complete then Ok(b2) else Err(MissingContinuation)
  }

  /**
   * The builder sees exactly the logical lines of the shared continuation
   * scan with the Apache skip rule: consumed continuation lines are never
   * read on their own, and a `\` on the last line read fails only after
   * every earlier logical line was applied.
   */
  lemma {:induction false} RunIsLogical(b: Builder, lines: seq<string>)
    ensures Run(b, lines) == ApplyScan(b, Logical(lines, ApacheSkip))
    decreases |lines|
  {
    if lines != [] {
      var line := Strip(lines[0]);
      if ApacheSkip(line) {
        RunIsLogical(b, lines[1..]);
      } else {
        match JoinContinuation(line, lines[1..])
        case MissingNext =>
        case Joined(joined, rest) =>
          var t := Logical(rest, ApacheSkip);
          assert Logical(lines, ApacheSkip).logical == [joined] + t.logical;
          assert ([joined] + t.logical)[1..] == t.logical;
          match Step(b, joined)
          case Err(e) =>
          case Ok(b2) =>
            RunIsLogical(b2, rest);
      }
    }
  }

  /**
   * The `while line[-1] == '\\'` loop of `_parse`: glues the physical lines
   * from `lines[i]` on to `line` while it ends in a backslash; `ok` is false
   * when the input runs out first (`itobj.next()` raises StopIteration).
   */
  method ReadContinued(lines: seq<string>, i: nat, line: string) returns (joined: string, next: nat, ok: bool)
    requires i <= |lines|
    ensures i <= next <= |lines|
    ensures ok ==> JoinContinuation(line, lines[i..]) == Joined(joined, lines[next..])
    ensures !ok ==> JoinContinuation(line, lines[i..]) == MissingNext
  {
    joined, next := line, i;
    ghost var rest := lines[i..];
    while EndsWithChar(joined, '\\')
      invariant i <= next <= |lines| && rest == lines[next..]
      invariant JoinContinuation(line, lines[i..]) == JoinContinuation(joined, rest)
      decreases |rest|
    {
      if next == |lines| {
        return joined, next, false;
      }
      assert rest[0] == lines[next] && rest[1..] == lines[next + 1..];
      joined := Glue(joined, lines[next]);
      next := next + 1;
      rest := rest[1..];
    }
    ok := true;
  }

  /**
   * `ApacheNode._parse`: reads the lines in order, passes over blank and
   * comment lines, glues continued lines onto the next physical line (which
   * is then not read on its own) and applies each logical line to the tree.
   */
  method Parse(lines: seq<string>) returns (r: Result<Node, ParseError>)
    ensures r == ParseLines(lines)
  {
    var b := Start;
    var i := 0;
    while i < |lines|
      invariant i <= |lines|
      invariant Run(Start, lines) == Run(b, lines[i..])
      decreases |lines| - i
    {
      var first := Strip(lines[i]);
      if ApacheSkip(first) {
        RunSkips(b, lines, i);
        i := i + 1;
        continue;
      }
      var line, next, ok := ReadContinued(lines, i + 1, first);
      if !ok {
        RunStops(b, lines, i);
        return Err(MissingContinuation);
      }
      RunJoins(b, lines, i, line, next);
      i := next;
      var s := Step(b, line);
      if s.Err? {
        return Err(s.error);
      }
      b := s.value;
    }
    r := Ok(Finish(b));
  }
}
