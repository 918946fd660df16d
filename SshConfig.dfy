/**
 * `SSHConfig.parse` (client/sshconfigparser.py, repeated in
 * client/inventory.py): reads the SSH daemon configuration into its body
 * text and a map from each keyword to the values given for it.
 *
 * The file is the parameter `contents` (`None` when it cannot be opened);
 * `PARSE_CONF_COMMENTS` is `keepComments`; `root` is the client directory
 * `path` resolves against.
 */
module SshConfig {
  import opened Strings
  import opened Outcomes
  import opened LineJoin
  import opened Common

  type Items = map<string, seq<string>>

  /** The dictionary `parse` returns: `{'body', 'items', 'filename'}`. */
  datatype SshDict = SshDict(body: string, items: Items, filename: string)

  predicate IsCommentLine(line: string) {
    line != [] && line[0] == '#'
  }

  /** The stripped lines the reader passes over: blank ones, and `#` lines unless comments are kept. */
  function SshSkip(keepComments: bool): string -> bool {
    CleanSkip(Chars("#"), keepComments)
  }

  /**
   * Files one logical line under its first field: the first value of a
   * keyword is the remaining fields joined by spaces, each later one is
   * that preceded by a space. Comment lines are not filed.
   */
  function AddItem(items: Items, line: string): Items {
    if IsCommentLine(line) then items
    else
      var ls := SplitFields(line);
      var v := Join(" ", ls[1..]);
      if ls[0] in items then items[ls[0] := items[ls[0]] + [" " + v]] else items[ls[0] := [v]]
  }

  /** The items after filing the logical lines `lines` in order. */
  function ItemsFrom(lines: seq<string>): Items
    decreases |lines|
  {
    if lines == [] then map[] else AddItem(ItemsFrom(lines[..|lines| - 1]), lines[|lines| - 1])
  }

  /** What `parse` returns for the physical lines of the file, or `None` when it cannot be read. */
  function ParseSsh(root: string, filename: string, contents: Option<seq<string>>, keepComments: bool)
    : Result<SshDict, PyError>
  {
    if contents.None? || contents.value == [] then Ok(SshDict("", map[], PathJoin(root, filename)))
    else
      var s := Logical(contents.value, SshSkip(keepComments));
      if s.complete then Ok(SshDict(Render(s.logical), ItemsFrom(s.logical), PathJoin(root, filename)))
      else Err(IndexError)
  }

  lemma ItemsSnoc(lines: seq<string>, line: string)
    ensures ItemsFrom(lines + [line]) == AddItem(ItemsFrom(lines), line)
  {
    assert (lines + [line])[..|lines|] == lines;
  }

  lemma AddItemCases(items: Items, line: string)
    requires !IsCommentLine(line)
    ensures var ls := SplitFields(line);
            ls[0] in items ==> AddItem(items, line) == items[ls[0] := items[ls[0]] + [" " + Join(" ", ls[1..])]]
    ensures var ls := SplitFields(line);
            ls[0] !in items ==> AddItem(items, line) == items[ls[0] := [Join(" ", ls[1..])]]
  {
  }

  /** `SSHConfig.parse(filename)`. */
  method Parse(root: string, filename: string, contents: Option<seq<string>>, keepComments: bool)
    returns (r: Result<SshDict, PyError>)
    ensures r == ParseSsh(root, filename, contents, keepComments)
  {
    var resolved := PathJoin(root, filename);
    if contents.None? || contents.value == [] {
      return Ok(SshDict("", map[], resolved));
    }
    var lines := new StringList(contents.value);
    var read := ReadLines(lines, keepComments);
    if read.Err? {
      return Err(read.error);
    }
    r := Ok(SshDict(read.value.0, read.value.1, resolved));
  }

  /** The loop of `parse` over the list of lines: the body and the items, or the `IndexError` of a dangling `\`. */
  method ReadLines(lines: StringList, keepComments: bool) returns (r: Result<(string, Items), PyError>)
    modifies lines
    ensures var s := Logical(old(lines.items), SshSkip(keepComments));
            r == if s.complete then Ok((Render(s.logical), ItemsFrom(s.logical))) else Err(IndexError)
    ensures lines.items == Logical(old(lines.items), SshSkip(keepComments)).survivors
  {
    ghost var input := lines.items;
    ghost var skip := SshSkip(keepComments);
    ghost var done: seq<string> := [];
    StartLoop(input, skip);
    var body := "";
    var items: Items := map[];
    var index := 0;
    while index < |lines.items|
      invariant index <= |lines.items|
      invariant body == Render(done) && items == ItemsFrom(done)
      invariant Logical(input, skip) == Resume(done, lines.items[..index], Logical(lines.items[index..], skip))
      decreases |lines.items| - index
    {
      var line := Strip(lines.items[index]);
      if |line| == 0 || (!keepComments && line[0] == '#') {
        SkipStep(input, lines.items, index, done, skip);
        index := index + 1;
        continue;
      }
      ghost var before := lines.items;
      var j := JoinAt(lines, index, line);
      if j.MissingNext? {
        MissingStep(input, before, index, done, skip, lines.items);
        return Err(IndexError);
      }
      JoinStep(input, before, index, done, skip, j, lines.items);
      line := j.line;
      ItemsSnoc(done, line);
      items := FileLine(items, line);
      RenderAppend(done, line);
      body := body + line + "\n";
      done := done + [line];
      index := index + 1;
    }
    EndLoop(input, lines.items, done, skip);
    r := Ok((body, items));
  }

  /** The filing step of the loop for one non-empty logical line. */
  method FileLine(items: Items, line: string) returns (r: Items)
    requires line != []
    ensures r == AddItem(items, line)
  {
    r := items;
    if line[0] != '#' {
      var ls := SplitFields(line);
      AddItemCases(items, line);
      if ls[0] in r {
        r := r[ls[0] := r[ls[0]] + [" " + Join(" ", ls[1..])]];
      } else {
        r := r[ls[0] := [Join(" ", ls[1..])]];
      }
    }
  }

  // ---------------------------------------------------------------------
  // Properties
  // ---------------------------------------------------------------------

  /** The values given for keyword `k` by the non-comment lines of `lines`, in order. */
  function ValuesFor(lines: seq<string>, k: string): (r: seq<string>)
    ensures |r| <= |lines|
    decreases |lines|
  {
    if lines == [] then []
    else
      var l := lines[|lines| - 1];
      ValuesFor(lines[..|lines| - 1], k) + LineValue(l, k)
  }

  /** The value line `l` gives for keyword `k`, if it gives one. */
  function LineValue(l: string, k: string): seq<string> {
    if !IsCommentLine(l) && SplitFields(l)[0] == k then [Join(" ", SplitFields(l)[1..])] else []
  }

  /** Each value preceded by a space. */
  function Prefixed(vs: seq<string>): (r: seq<string>)
    ensures |r| == |vs|
    ensures forall i :: 0 <= i < |vs| ==> r[i] == " " + vs[i]
  {
    if vs == [] then [] else Prefixed(vs[..|vs| - 1]) + [" " + vs[|vs| - 1]]
  }

  /**
   * A keyword is an item exactly when some non-comment line gives it, and
   * its list is the first value given followed by every later one with a
   * leading space.
   */
  lemma {:induction false} ItemsByKeyword(lines: seq<string>, k: string)
    ensures k in ItemsFrom(lines) <==> ValuesFor(lines, k) != []
    ensures k in ItemsFrom(lines) ==>
              ItemsFrom(lines)[k] == [ValuesFor(lines, k)[0]] + Prefixed(ValuesFor(lines, k)[1..])
    decreases |lines|
  {
    if lines != [] {
      var init := lines[..|lines| - 1];
      var l := lines[|lines| - 1];
      ItemsByKeyword(init, k);
      AddItemAt(ItemsFrom(init), l, k);
      var vs := ValuesFor(init, k);
      if LineValue(l, k) != [] {
        var v := LineValue(l, k)[0];
        if vs != [] {
          ItemValueSnoc(vs, v);
        } else {
          assert vs + [v] == [v];
        }
      } else {
        assert ValuesFor(lines, k) == vs + [] == vs;
      }
    }
  }

  /** Filing line `l` touches only its own keyword. */
  lemma AddItemAt(items: Items, l: string, k: string)
    ensures LineValue(l, k) == [] ==> (k in AddItem(items, l) <==> k in items)
    ensures LineValue(l, k) == [] && k in items ==> AddItem(items, l)[k] == items[k]
    ensures LineValue(l, k) != [] ==> |LineValue(l, k)| == 1 && k in AddItem(items, l)
    ensures LineValue(l, k) != [] && k in items ==> AddItem(items, l)[k] == items[k] + [" " + LineValue(l, k)[0]]
    ensures LineValue(l, k) != [] && k !in items ==> AddItem(items, l)[k] == LineValue(l, k)
  {
  }

  lemma ItemValueSnoc(vs: seq<string>, v: string)
    requires vs != []
    ensures (vs + [v])[0] == vs[0]
    ensures [vs[0]] + Prefixed((vs + [v])[1..]) == [vs[0]] + Prefixed(vs[1..]) + [" " + v]
  {
    assert (vs + [v])[1..] == vs[1..] + [v];
    assert (vs[1..] + [v])[..|vs[1..]|] == vs[1..];
  }

  /** Every keyword is a single whitespace-free field. */
  lemma {:induction false} KeywordsHaveNoSpace(lines: seq<string>)
    ensures forall k :: k in ItemsFrom(lines) ==> NoSpace(k)
    decreases |lines|
  {
    if lines != [] {
      KeywordsHaveNoSpace(lines[..|lines| - 1]);
      var l := lines[|lines| - 1];
      if !IsCommentLine(l) {
        assert SplitFields(l)[0] in SplitFields(l);
      }
    }
  }

  /**
   * The body is exactly what `clean_body(lines, '#')` makes of the same
   * file, and the reader fails exactly when `clean_body` does.
   */
  lemma BodyIsCleanBody(root: string, filename: string, lines: seq<string>, keepComments: bool)
    requires lines != []
    ensures ParseSsh(root, filename, Some(lines), keepComments).Ok?
            <==> Clean(lines, Chars("#"), keepComments).Ok?
    ensures ParseSsh(root, filename, Some(lines), keepComments).Ok? ==>
              ParseSsh(root, filename, Some(lines), keepComments).value.body
              == Clean(lines, Chars("#"), keepComments).value
  {
  }

  /** A backslash at the end of the last line, when that line is not passed over, raises `IndexError`. */
  lemma TrailingBackslashFails(root: string, filename: string, lines: seq<string>, keepComments: bool)
    requires lines != [] && EndsWithChar(Strip(lines[|lines| - 1]), '\\')
    requires !SshSkip(keepComments)(Strip(lines[|lines| - 1]))
    ensures ParseSsh(root, filename, Some(lines), keepComments) == Err(IndexError)
  {
    TrailingBackslashIsIncomplete(lines, SshSkip(keepComments));
  }
}
