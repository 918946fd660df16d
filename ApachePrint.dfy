/**
 * `ApacheNode.print_r` (client/apacheparser.py), which writes a tree out
 * again as configuration text, one `print` per line, and the round trip
 * with `_parse`: what it prints for a tree of ordinary names and words is
 * read back as the same tree.
 */
module ApachePrint {
  import opened Strings
  import opened LineJoin
  import opened Outcomes
  import opened ApacheNode

  /** `'    ' * indent` */
  function Indent(k: nat): (r: string)
    ensures |r| == 4 * k && AllSpace(r)
  {
    if k == 0 then "" else "    " + Indent(k - 1)
  }

  /** The line printed for a section before its children. */
  function OpenTag(n: Node, k: nat): string {
    Indent(k) + "<" + n.name + " " + Join(" ", n.values) + ">\n"
  }

  /** The line printed for a section after its children. */
  function CloseTag(n: Node, k: nat): string {
    Indent(k) + "</" + n.name + ">\n"
  }

  /** The line printed for a directive. */
  function DirectiveText(n: Node, k: nat): string {
    Indent(k) + n.name + " " + Join(" ", n.values) + "\n"
  }

  /** The lines `n.print_r(k)` prints (a directive's children are not printed). */
  function NodeLines(n: Node, k: nat): seq<string>
    decreases n
  {
    if n.section then [OpenTag(n, k)] + ChildLines(n.children, k + 1) + [CloseTag(n, k)]
    else [DirectiveText(n, k)]
  }

  function ChildLines(children: seq<Node>, k: nat): seq<string>
    decreases children
  {
    if children == [] then [] else NodeLines(children[0], k) + ChildLines(children[1..], k)
  }

  /** `root.print_r()`: at indent -1 the root itself is not printed, only its children. */
  function PrintTree(root: Node): seq<string> {
    if root.section then ChildLines(root.children, 0) else []
  }

  // ---------------------------------------------------------------------
  // Trees whose printed form reads back unchanged
  // ---------------------------------------------------------------------

  /** A value that can end a printed line: no `>` and no final backslash. */
  predicate Value(v: string) {
    Word(v) && '>' !in v && v[|v| - 1] != '\\'
  }

  /** A name `re_section_start` reads back whole. */
  predicate SectionName(s: string) {
    s != [] && forall i :: 0 <= i < |s| ==> NameChar(s[i])
  }

  /** A directive name that is read back as itself: already capitalised, not a tag or comment. */
  predicate DirectiveName(s: string) {
    Value(s) && s[0] != '<' && s[0] != '#' && Capitalize(s) == s
  }

  predicate Printable(n: Node)
    decreases n
  {
    && (forall v :: v in n.values ==> Value(v))
    && if n.section then
         SectionName(n.name) && n.values != [] && forall c :: c in n.children ==> Printable(c)
       else
         DirectiveName(n.name) && n.children == []
  }

  /** Every `Add` of `_parse` in turn. */
  function AddAll(b: Builder, cs: seq<Node>): Builder
    decreases |cs|
  {
    if cs == [] then b else AddAll(AddChild(b, cs[0]), cs[1..])
  }

  lemma {:induction false} AddAllInFrame(t: seq<Node>, o: seq<Frame>, f: Frame, cs: seq<Node>)
    ensures AddAll(Builder(t, o + [f]), cs) == Builder(t, o + [Frame(f.name, f.values, f.children + cs)])
    decreases |cs|
  {
    if cs == [] {
      assert f.children + [] == f.children;
    } else {
      var f1 := Frame(f.name, f.values, f.children + [cs[0]]);
      assert (o + [f])[..|o|] == o;
      assert AddChild(Builder(t, o + [f]), cs[0]) == Builder(t, o + [f1]);
      AddAllInFrame(t, o, f1, cs[1..]);
      assert f.children + [cs[0]] + cs[1..] == f.children + cs;
    }
  }

  lemma {:induction false} AddAllAtTop(t: seq<Node>, cs: seq<Node>)
    ensures AddAll(Builder(t, []), cs) == Builder(t + cs, [])
    decreases |cs|
  {
    if cs == [] {
      assert t + [] == t;
    } else {
      AddAllAtTop(t + [cs[0]], cs[1..]);
      assert t + [cs[0]] + cs[1..] == t + cs;
    }
  }

  // ---------------------------------------------------------------------
  // Each printed line, stripped and read
  // ---------------------------------------------------------------------

  /** A tag line: neither blank, nor a comment, nor continued. */
  lemma TagRead(x: string)
    requires |x| >= 2 && x[0] == '<' && x[|x| - 1] == '>'
    ensures !ApacheSkip(x) && !EndsWithChar(x, '\\')
  {
  }

  lemma OpenTagStrips(n: Node, k: nat)
    ensures Strip(OpenTag(n, k)) == "<" + n.name + " " + Join(" ", n.values) + ">"
  {
    var x := "<" + n.name + " " + Join(" ", n.values) + ">";
    assert OpenTag(n, k) == Indent(k) + x + "\n";
    StripPadded(Indent(k), x, "\n");
  }

  lemma CloseTagStrips(n: Node, k: nat)
    ensures Strip(CloseTag(n, k)) == "</" + n.name + ">"
  {
    var x := "</" + n.name + ">";
    assert CloseTag(n, k) == Indent(k) + x + "\n";
    StripPadded(Indent(k), x, "\n");
  }

  /** The words of a printable node. */
  lemma PrintableWords(n: Node)
    requires Printable(n)
    ensures forall v :: v in n.values ==> Word(v) && '>' !in v
    ensures n.section ==> Word(n.name) && '>' !in n.name
  {
    if n.section {
      forall i | 0 <= i < |n.name| ensures !IsSpace(n.name[i]) && n.name[i] != '>' {
        assert NameChar(n.name[i]);
      }
    }
  }

  /** A section's opening line opens that section. */
  lemma OpenTagReads(b: Builder, n: Node, k: nat)
    requires n.section && Printable(n)
    ensures !ApacheSkip(Strip(OpenTag(n, k))) && !EndsWithChar(Strip(OpenTag(n, k)), '\\')
    ensures Step(b, Strip(OpenTag(n, k))) == Ok(OpenSection(b, n.name, n.values))
  {
    var x := "<" + n.name + " " + Join(" ", n.values) + ">";
    OpenTagStrips(n, k);
    TagRead(x);
    PrintableWords(n);
    SectionStartLine(b, n.name, n.values);
  }

  /** A section's closing line closes it when it is the current section, and fails otherwise. */
  lemma CloseTagReads(b: Builder, n: Node, k: nat)
    requires n.section && Printable(n)
    ensures !ApacheSkip(Strip(CloseTag(n, k))) && !EndsWithChar(Strip(CloseTag(n, k)), '\\')
    ensures Step(b, Strip(CloseTag(n, k)))
         == if n.name == CurrentName(b) then Ok(CloseSection(b)) else Err(SectionMismatch(n.name, CurrentName(b)))
  {
    CloseTagStrips(n, k);
    TagRead("</" + n.name + ">");
    PrintableWords(n);
    SectionEndLine(b, n.name);
  }

  lemma DirectiveTextStrips(n: Node, k: nat)
    requires !n.section && Printable(n)
    ensures Strip(DirectiveText(n, k)) == Join(" ", [n.name] + n.values)
  {
    var toks := [n.name] + n.values;
    var x := Join(" ", toks);
    assert forall t :: t in toks ==> t == n.name || t in n.values;
    assert toks[|toks| - 1] in toks;
    JoinEnds(" ", toks);
    assert Trimmed(x);
    if n.values == [] {
      assert x == n.name;
      assert DirectiveText(n, k) == Indent(k) + x + " \n";
      StripPadded(Indent(k), x, " \n");
    } else {
      assert toks[1..] == n.values;
      assert DirectiveText(n, k) == Indent(k) + x + "\n";
      StripPadded(Indent(k), x, "\n");
    }
  }

  lemma DirectiveTextShape(n: Node)
    requires !n.section && Printable(n)
    ensures var x := Join(" ", [n.name] + n.values); !ApacheSkip(x) && !EndsWithChar(x, '\\')
  {
    var toks := [n.name] + n.values;
    assert forall t :: t in toks ==> t == n.name || t in n.values;
    assert toks[|toks| - 1] in toks;
    JoinEnds(" ", toks);
  }

  /** A directive's line adds that directive. */
  lemma DirectiveTextReads(b: Builder, n: Node, k: nat)
    requires !n.section && Printable(n)
    ensures !ApacheSkip(Strip(DirectiveText(n, k))) && !EndsWithChar(Strip(DirectiveText(n, k)), '\\')
    ensures Step(b, Strip(DirectiveText(n, k))) == Ok(AddChild(b, n))
  {
    DirectiveTextStrips(n, k);
    DirectiveTextShape(n);
    DirectiveLine(b, n.name, n.values);
    assert n == Node(Capitalize(n.name), n.values, false, []);
  }

  // ---------------------------------------------------------------------
  // The round trip
  // ---------------------------------------------------------------------

  /** Opening a section and adding children fills the new frame with them. */
  lemma FillSection(b: Builder, n: Node)
    ensures AddAll(OpenSection(b, n.name, n.values), n.children)
         == Builder(b.top, b.open + [Frame(n.name, n.values, n.children)])
  {
    AddAllInFrame(b.top, b.open, Frame(n.name, n.values, []), n.children);
    assert [] + n.children == n.children;
  }

  lemma CloseFilled(b: Builder, n: Node)
    requires n.section
    ensures CloseSection(Builder(b.top, b.open + [Frame(n.name, n.values, n.children)])) == AddChild(b, n)
  {
    assert (b.open + [Frame(n.name, n.values, n.children)])[..|b.open|] == b.open;
  }

  lemma SectionLines(n: Node, k: nat, rest: seq<string>)
    requires n.section
    ensures NodeLines(n, k) + rest == [OpenTag(n, k)] + (ChildLines(n.children, k + 1) + ([CloseTag(n, k)] + rest))
  {
  }

  /** The lines printed for a node, read by `_parse`, add exactly that node. */
  lemma {:induction false} ReadNode(b: Builder, n: Node, k: nat, rest: seq<string>)
    requires Printable(n)
    ensures Run(b, NodeLines(n, k) + rest) == Run(AddChild(b, n), rest)
    decreases n, 1
  {
    if n.section {
      ReadSection(b, n, k, rest);
    } else {
      DirectiveTextReads(b, n, k);
      ReadLine(b, DirectiveText(n, k), rest, AddChild(b, n));
    }
  }

  lemma {:induction false} ReadSection(b: Builder, n: Node, k: nat, rest: seq<string>)
    requires n.section && Printable(n)
    ensures Run(b, NodeLines(n, k) + rest) == Run(AddChild(b, n), rest)
    decreases n, 0
  {
    var open, close := OpenTag(n, k), CloseTag(n, k);
    var body := ChildLines(n.children, k + 1);
    SectionLines(n, k, rest);
    var b1 := OpenSection(b, n.name, n.values);
    OpenTagReads(b, n, k);
    ReadLine(b, open, body + ([close] + rest), b1);
    ReadChildren(b1, n.children, k + 1, [close] + rest);
    FillSection(b, n);
    var b2 := Builder(b.top, b.open + [Frame(n.name, n.values, n.children)]);
    CloseTagReads(b2, n, k);
    ReadLine(b2, close, rest, CloseSection(b2));
    CloseFilled(b, n);
  }

  lemma {:induction false} ReadChildren(b: Builder, cs: seq<Node>, k: nat, rest: seq<string>)
    requires forall c :: c in cs ==> Printable(c)
    ensures Run(b, ChildLines(cs, k) + rest) == Run(AddAll(b, cs), rest)
    decreases cs, 2
  {
    if cs == [] {
      assert ChildLines(cs, k) + rest == rest;
    } else {
      assert cs[0] in cs;
      assert forall c :: c in cs[1..] ==> c in cs;
      ChildLinesCons(cs, k, rest);
      ReadNode(b, cs[0], k, ChildLines(cs[1..], k) + rest);
      ReadChildren(AddChild(b, cs[0]), cs[1..], k, rest);
    }
  }

  lemma ChildLinesCons(cs: seq<Node>, k: nat, rest: seq<string>)
    requires cs != []
    ensures ChildLines(cs, k) + rest == NodeLines(cs[0], k) + (ChildLines(cs[1..], k) + rest)
  {
  }

  /**
   * `print_r` and `_parse` are inverse: a root whose sections all have
   * values, whose names and values are plain words and whose directive
   * names are already capitalised is read back from its printed form
   * unchanged.
   */
  lemma PrintParse(root: Node)
    requires root.section && root.name == RootName && root.values == []
    requires forall c :: c in root.children ==> Printable(c)
    ensures ParseLines(PrintTree(root)) == Ok(root)
  {
    ReadChildren(Start, root.children, 0, []);
    assert PrintTree(root) + [] == PrintTree(root);
    AddAllAtTop([], root.children);
    assert [] + root.children == root.children;
  }

  /** A section's opening line and its children, without the closing line. */
  lemma ReadOpened(b: Builder, s: Node, k: nat, rest: seq<string>)
    requires s.section && Printable(s)
    ensures Run(b, [OpenTag(s, k)] + (ChildLines(s.children, k + 1) + rest))
         == Run(Builder(b.top, b.open + [Frame(s.name, s.values, s.children)]), rest)
  {
    var b1 := OpenSection(b, s.name, s.values);
    OpenTagReads(b, s, k);
    ReadLine(b, OpenTag(s, k), ChildLines(s.children, k + 1) + rest, b1);
    assert s.children == s.children;
    assert forall c :: c in s.children ==> Printable(c);
    ReadChildren(b1, s.children, k + 1, rest);
    FillSection(b, s);
  }

  lemma FinishOpen(s: Node)
    requires s.section
    ensures Finish(Builder([], [Frame(s.name, s.values, s.children)])) == Node(RootName, [], true, [s])
  {
    CloseFilled(Start, s);
    assert Finish(Builder([s], [])) == Node(RootName, [], true, [s]);
  }

  /**
   * The end of the input closes every section still open: a section whose
   * closing tag is missing is returned as if it had been closed at the end.
   */
  lemma UnclosedSection(s: Node, k: nat)
    requires s.section && Printable(s)
    ensures ParseLines([OpenTag(s, k)] + ChildLines(s.children, k + 1)) == Ok(Node(RootName, [], true, [s]))
  {
    ReadOpened(Start, s, k, []);
    assert ChildLines(s.children, k + 1) + [] == ChildLines(s.children, k + 1);
    FinishOpen(s);
  }

  /**
   * A section closed under another name stops the parse, reporting the
   * name found and the name of the section that is open.
   */
  lemma MismatchedClose(s: Node, other: Node, k: nat)
    requires s.section && Printable(s) && other.section && Printable(other) && other.name != s.name
    ensures ParseLines([OpenTag(s, k)] + ChildLines(s.children, k + 1) + [CloseTag(other, k)])
         == Err(SectionMismatch(other.name, s.name))
  {
    var body := ChildLines(s.children, k + 1);
    var close := CloseTag(other, k);
    assert [OpenTag(s, k)] + body + [close] == [OpenTag(s, k)] + (body + ([close] + []));
    ReadMismatch(Start, s, other, k, []);
  }

  lemma ReadMismatch(b: Builder, s: Node, other: Node, k: nat, rest: seq<string>)
    requires s.section && Printable(s) && other.section && Printable(other) && other.name != s.name
    ensures Run(b, [OpenTag(s, k)] + (ChildLines(s.children, k + 1) + ([CloseTag(other, k)] + rest)))
         == Err(SectionMismatch(other.name, s.name))
  {
    ReadOpened(b, s, k, [CloseTag(other, k)] + rest);
    var b2 := Builder(b.top, b.open + [Frame(s.name, s.values, s.children)]);
    CloseTagReads(b2, other, k);
    FailLine(b2, CloseTag(other, k), rest, SectionMismatch(other.name, s.name));
  }

  /** A closing tag with no section open is a mismatch against the root's name `''`. */
  lemma StrayCloseFails(s: Node, k: nat, rest: seq<string>)
    requires s.section && Printable(s)
    ensures ParseLines([CloseTag(s, k)] + rest) == Err(SectionMismatch(s.name, RootName))
  {
    CloseTagReads(Start, s, k);
    FailLine(Start, CloseTag(s, k), rest, SectionMismatch(s.name, RootName));
  }
}
