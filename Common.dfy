/**
 * `clean_body` (client/common.py): every line is stripped; blank lines and,
 * unless comments are kept, lines whose first character is a comment
 * prefix are passed over; a line ending in `\` is joined with the lines
 * after it, which are deleted from the list; the kept lines are returned,
 * each followed by a newline.
 *
 * The `PARSE_CONF_COMMENTS` setting is the parameter `keepComments`.
 */
module Common {
  import opened Strings
  import opened Outcomes
  import opened LineJoin

  /** The `comments_prefix` argument: a `str`, a `tuple` or `list` of strings, or a value of any other type. */
  datatype CommentsPrefix = Chars(chars: string) | Items(items: seq<string>) | OtherType

  /** The `body` argument: a `str`, or a `list` that the caller still holds. */
  datatype Body = Text(text: string) | Lines(list: StringList)

  /** `line[0] in comments_prefix` */
  predicate StartsComment(c: char, prefix: CommentsPrefix) {
    match prefix
    case Chars(cs) => c in cs
    case Items(items) => [c] in items
    case OtherType => false
  }

  /** The stripped lines `clean_body` passes over. */
  function CleanSkip(prefix: CommentsPrefix, keepComments: bool): string -> bool {
    (line: string) => line == [] || (!keepComments && StartsComment(line[0], prefix))
  }

  /** `'%s\n' % line` for each line, concatenated. */
  function Render(lines: seq<string>): (r: string)
    ensures |r| >= |lines|
  {
    if lines == [] then [] else lines[0] + "\n" + Render(lines[1..])
  }

  /** What `clean_body` returns for the physical lines `lines`. */
  function Clean(lines: seq<string>, prefix: CommentsPrefix, keepComments: bool): Result<string, PyError> {
    if prefix.OtherType? then Err(TypeError)
    else
      var s := Logical(lines, CleanSkip(prefix, keepComments));
      if s.complete then Ok(Render(s.logical)) else Err(IndexError)
  }

  /** `os.path.join(a, b)` for POSIX paths; `path(name)` is `PathJoin(ROOT, name)`. */
  function PathJoin(a: string, b: string): (r: string)
    ensures |b| <= |r| && r[|r| - |b|..] == b
    ensures b != [] && b[0] == '/' ==> r == b
  {
    if b != [] && b[0] == '/' then b
    else if a == [] || a[|a| - 1] == '/' then a + b
    else a + "/" + b
  }

  /** The lines `clean_body` works on: a `str` body is split on `'\n'`. */
  function InputLines(text: string): seq<string> {
    SplitOn(text, '\n')
  }

  /** `clean_body(body, comments_prefix)` */
  method CleanBody(body: Body, prefix: CommentsPrefix, keepComments: bool) returns (r: Result<string, PyError>)
    modifies if body.Lines? then {body.list} else {}
    ensures body.Text? ==> r == Clean(InputLines(body.text), prefix, keepComments)
    ensures body.Lines? ==> r == Clean(old(body.list.items), prefix, keepComments)
    ensures body.Lines? && prefix.OtherType? ==> body.list.items == old(body.list.items)
    ensures body.Lines? && !prefix.OtherType? ==>
              body.list.items == Logical(old(body.list.items), CleanSkip(prefix, keepComments)).survivors
  {
    if prefix.OtherType? {
      return Err(TypeError);
    }
    var lines: StringList;
    if body.Lines? {
      lines := body.list;
    } else {
      lines := new StringList(InputLines(body.text));
    }
    r := CleanLines(lines, prefix, keepComments);
  }

  /** The loop of `clean_body` over the list `lines`, which it shortens in place. */
  method CleanLines(lines: StringList, prefix: CommentsPrefix, keepComments: bool) returns (r: Result<string, PyError>)
    requires !prefix.OtherType?
    modifies lines
    ensures r == Clean(old(lines.items), prefix, keepComments)
    ensures lines.items == Logical(old(lines.items), CleanSkip(prefix, keepComments)).survivors
  {
    ghost var input := lines.items;
    ghost var skip := CleanSkip(prefix, keepComments);
    ghost var done: seq<string> := [];
    StartLoop(input, skip);
    var body := "";
    var index := 0;
    while index < |lines.items|
      invariant index <= |lines.items|
      invariant body == Render(done)
      invariant Logical(input, skip) == Resume(done, lines.items[..index], Logical(lines.items[index..], skip))
      decreases |lines.items| - index
    {
      var line := Strip(lines.items[index]);
      if line == [] || (!keepComments && StartsComment(line[0], prefix)) {
        SkipStep(input, lines.items, index, done, skip);
        index := index + 1;
        continue;
      }
      ghost var before := lines.items;
      var j := JoinAt(lines, index, line);
      if j.MissingNext? {
        MissingStep(input, before, index, done, skip, lines.items);
        return Err(IndexError);
      }
      JoinStep(input, before, index, done, skip, j, lines.items);
      RenderAppend(done, j.line);
      body := body + j.line + "\n";
      done := done + [j.line];
      index := index + 1;
    }
    EndLoop(input, lines.items, done, skip);
    r := Ok(body);
  }

  lemma {:induction false} RenderAppend(lines: seq<string>, line: string)
    ensures Render(lines + [line]) == Render(lines) + line + "\n"
    decreases |lines|
  {
    if lines == [] {
      assert [] + [line] == [line];
    } else {
      assert (lines + [line])[1..] == lines[1..] + [line];
      RenderAppend(lines[1..], line);
    }
  }

  // ---------------------------------------------------------------------
  // Properties of the cleaned body
  // ---------------------------------------------------------------------

  /**
   * Every line of a cleaned body is non-empty and none ends in a
   * backslash: the continuation loop only stops once the line no longer
   * ends in `\`.
   */
  lemma CleanLinesShape(lines: seq<string>, prefix: CommentsPrefix, keepComments: bool)
    requires Clean(lines, prefix, keepComments).Ok?
    ensures var ls := Logical(lines, CleanSkip(prefix, keepComments)).logical;
            Clean(lines, prefix, keepComments).value == Render(ls)
            && forall l :: l in ls ==> l != [] && !EndsWithChar(l, '\\')
  {
    assert CleanSkip(prefix, keepComments)([]);
  }

  /**
   * Without continuations the body is the stripped lines that are not
   * passed over, in input order, each followed by a newline.
   */
  lemma CleanWithoutContinuation(lines: seq<string>, prefix: CommentsPrefix, keepComments: bool)
    requires !prefix.OtherType? && NoContinuation(lines)
    ensures Clean(lines, prefix, keepComments) == Ok(Render(Kept(lines, CleanSkip(prefix, keepComments))))
  {
    LogicalWithoutContinuation(lines, CleanSkip(prefix, keepComments));
  }

  /** Each line that is kept without a continuation is stripped. */
  lemma {:induction false} KeptAreStripped(lines: seq<string>, skip: string -> bool)
    requires skip([])
    ensures forall l :: l in Kept(lines, skip) ==> l != [] && Trimmed(l)
    decreases |lines|
  {
    if lines != [] {
      KeptAreStripped(lines[1..], skip);
    }
  }

  /** A comment line that is not kept leaves the result unchanged, wherever it stands. */
  lemma CommentLineDropped(line: string, rest: seq<string>, prefix: CommentsPrefix, keepComments: bool)
    requires !keepComments && Strip(line) != [] && StartsComment(Strip(line)[0], prefix)
    ensures Clean([line] + rest, prefix, keepComments) == Clean(rest, prefix, keepComments)
  {
    SkippedLineIsInvisible(line, rest, CleanSkip(prefix, keepComments));
  }

  /** With comments kept, a comment line is a line like any other. */
  lemma CommentLineKept(line: string, rest: seq<string>, prefix: CommentsPrefix)
    requires !prefix.OtherType? && Strip(line) != [] && !EndsWithChar(Strip(line), '\\')
    requires Clean(rest, prefix, true).Ok?
    ensures Clean([line] + rest, prefix, true) == Ok(Strip(line) + "\n" + Clean(rest, prefix, true).value)
  {
    assert ([line] + rest)[0] == line && ([line] + rest)[1..] == rest;
    assert Render([Strip(line)] + Logical(rest, CleanSkip(prefix, true)).logical)
        == Strip(line) + "\n" + Render(Logical(rest, CleanSkip(prefix, true)).logical);
  }

  /** A `\` on the last line that is not passed over raises `IndexError`. */
  lemma TrailingBackslashRaises(lines: seq<string>, prefix: CommentsPrefix, keepComments: bool)
    requires !prefix.OtherType? && lines != []
    requires !CleanSkip(prefix, keepComments)(Strip(lines[|lines| - 1]))
    requires EndsWithChar(Strip(lines[|lines| - 1]), '\\')
    ensures Clean(lines, prefix, keepComments) == Err(IndexError)
  {
    TrailingBackslashIsIncomplete(lines, CleanSkip(prefix, keepComments));
  }

  /**
   * A continued line followed by a blank line keeps the space that joins
   * them (`' '.join(['a', ''])` is `'a '`), so a line of the body can end
   * in whitespace.
   */
  lemma ContinuationOntoBlankLine(line: string, blank: string, prefix: CommentsPrefix, keepComments: bool)
    requires !prefix.OtherType? && EndsWithChar(Strip(line), '\\')
    requires !CleanSkip(prefix, keepComments)(Strip(line)) && AllSpace(blank)
    ensures var l := Strip(line);
            Clean([line, blank], prefix, keepComments) == Ok(Strip(l[..|l| - 1]) + " " + "\n")
  {
    var l := Strip(line);
    var glued := Strip(l[..|l| - 1]) + " ";
    GlueOntoBlank(l, blank, glued);
    var skip := CleanSkip(prefix, keepComments);
    ContinuationConsumesNext(line, blank, [], skip);
    assert [line, blank] + [] == [line, blank];
    assert Logical([], skip) == Scan([], [], true);
    assert Render([glued]) == glued + "\n";
  }

  lemma GlueOntoBlank(l: string, blank: string, glued: string)
    requires l != [] && AllSpace(blank) && glued == Strip(l[..|l| - 1]) + " "
    ensures Glue(l, blank) == glued && !EndsWithChar(glued, '\\')
  {
    StripBlank(blank);
  }

  lemma StripBlank(blank: string)
    requires AllSpace(blank)
    ensures Strip(blank) == []
  {
    StripPadded(blank, [], []);
    assert blank + [] + [] == blank;
  }

  // ---------------------------------------------------------------------
  // The body as text
  // ---------------------------------------------------------------------

  /** Splitting a rendered body on newlines gives its lines back, and one empty field. */
  lemma {:induction false} RenderSplit(lines: seq<string>)
    requires forall l :: l in lines ==> '\n' !in l
    ensures SplitOn(Render(lines), '\n') == lines + [""]
    decreases |lines|
  {
    if lines == [] {
      assert SplitOn("", '\n') == [""];
    } else {
      var l, tail := lines[0], lines[1..];
      assert l in lines;
      assert forall m :: m in tail ==> m in lines;
      RenderSplit(tail);
      RenderCons(l, tail);
      assert lines + [""] == [l] + (tail + [""]);
    }
  }

  lemma RenderCons(l: string, tail: seq<string>)
    requires '\n' !in l
    requires SplitOn(Render(tail), '\n') == tail + [""]
    ensures SplitOn(Render([l] + tail), '\n') == [l] + (tail + [""])
  {
    assert ([l] + tail)[0] == l && ([l] + tail)[1..] == tail;
    assert Render([l] + tail) == l + "\n" + Render(tail);
    SplitOnCons(l, Render(tail), '\n');
  }

  lemma StripFree(s: string, c: char)
    requires c !in s
    ensures c !in Strip(s)
  {
    StripSlice(s);
    var k := StripStart(s);
    assert forall i :: 0 <= i < |Strip(s)| ==> Strip(s)[i] == s[k + i];
  }

  /** Logical lines built from lines without `c` (other than a space) hold no `c`. */
  lemma {:induction false} LogicalFree(lines: seq<string>, skip: string -> bool, c: char)
    requires c != ' ' && forall l :: l in lines ==> c !in l
    ensures forall l :: l in Logical(lines, skip).logical ==> c !in l
    decreases |lines|, 1
  {
    if lines != [] {
      assert lines[0] in lines;
      assert forall m :: m in lines[1..] ==> m in lines;
      if skip(Strip(lines[0])) {
        LogicalFree(lines[1..], skip, c);
      } else {
        LogicalFreeRead(lines, skip, c);
      }
    }
  }

  lemma {:induction false} LogicalFreeRead(lines: seq<string>, skip: string -> bool, c: char)
    requires c != ' ' && forall l :: l in lines ==> c !in l
    requires lines != [] && !skip(Strip(lines[0]))
    ensures forall l :: l in Logical(lines, skip).logical ==> c !in l
    decreases |lines|, 0
  {
    var l := Strip(lines[0]);
    assert lines[0] in lines;
    StripFree(lines[0], c);
    assert forall m :: m in lines[1..] ==> m in lines;
    JoinFreeOf(l, lines[1..], c);
    var jr := JoinContinuation(l, lines[1..]);
    if jr.Joined? {
      JoinedRestIsSuffix(l, lines[1..]);
      assert forall m :: m in jr.rest ==> m in lines[1..];
      LogicalFree(jr.rest, skip, c);
    }
  }

  lemma {:induction false} JoinFreeOf(line: string, rest: seq<string>, c: char)
    requires c != ' ' && c !in line && forall l :: l in rest ==> c !in l
    ensures JoinContinuation(line, rest).Joined? ==> c !in JoinContinuation(line, rest).line
    decreases |rest|
  {
    if EndsWithChar(line, '\\') && rest != [] {
      assert rest[0] in rest;
      assert c !in line[..|line| - 1];
      StripFree(line[..|line| - 1], c);
      StripFree(rest[0], c);
      assert forall m :: m in rest[1..] ==> m in rest;
      JoinFreeOf(Glue(line, rest[0]), rest[1..], c);
    }
  }

  /**
   * For a `str` body, the cleaned text holds one line per logical line:
   * splitting it on `'\n'` gives those lines back, followed by the empty
   * field after the last newline.
   */
  lemma CleanTextLines(text: string, prefix: CommentsPrefix, keepComments: bool)
    requires Clean(InputLines(text), prefix, keepComments).Ok?
    ensures SplitOn(Clean(InputLines(text), prefix, keepComments).value, '\n')
         == Logical(InputLines(text), CleanSkip(prefix, keepComments)).logical + [""]
  {
    LogicalFree(InputLines(text), CleanSkip(prefix, keepComments), '\n');
    RenderSplit(Logical(InputLines(text), CleanSkip(prefix, keepComments)).logical);
  }
}
