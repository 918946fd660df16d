/**
 * Backslash continuation, shared by every line-oriented reader of the
 * client (the Apache tree builder, `clean_body`, the SSH reader and the
 * iptables reader): a physical line whose stripped text ends in `\` is
 * glued to the next physical line, `' '.join([line[:-1].strip(),
 * next.strip()])`, and this repeats while the result still ends in `\`.
 * The physical lines that are glued on are consumed: they are never
 * examined on their own.
 *
 * `Logical` describes, for a whole input, which logical lines a reader
 * sees, which physical lines survive (the readers that work on a Python
 * list delete the consumed ones from it) and whether the input ran out in
 * the middle of a continuation (an `IndexError` or `StopIteration` in the
 * source).
 */
module LineJoin {
  import opened Strings

  /** The outcome of joining one continued line. */
  datatype Joined =
    | Joined(line: string, rest: seq<string>)  // the joined line and the physical lines after it
    | MissingNext                              // a `\` on the last physical line

  /**
   * Joins `line` with as many of the following physical lines `rest` as its
   * trailing backslashes ask for.
   */
  function JoinContinuation(line: string, rest: seq<string>): (r: Joined)
    ensures r.Joined? ==> !EndsWithChar(r.line, '\\')
    ensures r.Joined? ==> |r.rest| <= |rest|
    ensures r.Joined? && line != [] ==> r.line != []
    ensures !EndsWithChar(line, '\\') ==> r == Joined(line, rest)
    decreases |rest|
  {
    if !EndsWithChar(line, '\\') then Joined(line, rest)
    else if rest == [] then MissingNext
    else JoinContinuation(Glue(line, rest[0]), rest[1..])
  }

  /** The lines left after a join are a suffix of the lines it was given. */
  lemma {:induction false} JoinedRestIsSuffix(line: string, rest: seq<string>)
    requires JoinContinuation(line, rest).Joined?
    ensures JoinContinuation(line, rest).rest == rest[|rest| - |JoinContinuation(line, rest).rest|..]
    decreases |rest|
  {
    if EndsWithChar(line, '\\') {
      JoinedRestIsSuffix(Glue(line, rest[0]), rest[1..]);
      assert rest[1..][|rest| - 1 - |JoinContinuation(line, rest).rest|..]
          == rest[|rest| - |JoinContinuation(line, rest).rest|..];
    }
  }

  /** `' '.join([line[:-1].strip(), next.strip()])` */
  function Glue(line: string, next: string): (r: string)
    requires line != []
    ensures r != []
  {
    Strip(line[..|line| - 1]) + " " + Strip(next)
  }

  /**
   * What a reader sees of a sequence of physical lines.
   * `logical`: the logical lines it processes, in order;
   * `survivors`: the physical lines that are not consumed by a continuation;
   * `complete`: false when a continuation asked for a line past the end.
   */
  datatype Scan = Scan(logical: seq<string>, survivors: seq<string>, complete: bool)

  /**
   * Each physical line is stripped; one that `skip` rejects (blank or a
   * comment, by the reader's own rule) is passed over; any other is joined
   * with its continuation lines and becomes one logical line.
   */
  function Logical(lines: seq<string>, skip: string -> bool): (r: Scan)
    ensures forall j :: j in r.logical ==> !EndsWithChar(j, '\\')
    ensures skip([]) ==> forall j :: j in r.logical ==> j != []
    ensures |r.survivors| <= |lines|
    decreases |lines|
  {
    if lines == [] then Scan([], [], true)
    else
      var l := Strip(lines[0]);
      if skip(l) then
        var t := Logical(lines[1..], skip);
        Scan(t.logical, [lines[0]] + t.survivors, t.complete)
      else
        match JoinContinuation(l, lines[1..])
        case MissingNext => Scan([], [lines[0]], false)
        case Joined(j, rest) =>
          var t := Logical(rest, skip);
          Scan([j] + t.logical, [lines[0]] + t.survivors, t.complete)
  }

  /** The stripped physical lines a reader keeps when no line is continued. */
  function Kept(lines: seq<string>, skip: string -> bool): (r: seq<string>)
    ensures |r| <= |lines|
  {
    if lines == [] then []
    else if skip(Strip(lines[0])) then Kept(lines[1..], skip)
    else [Strip(lines[0])] + Kept(lines[1..], skip)
  }

  /** No kept line is one the reader would skip. */
  lemma {:induction false} KeptNotSkipped(lines: seq<string>, skip: string -> bool)
    ensures forall l :: l in Kept(lines, skip) ==> !skip(l)
    decreases |lines|
  {
    if lines != [] {
      KeptNotSkipped(lines[1..], skip);
    }
  }

  predicate NoContinuation(lines: seq<string>) {
    forall i :: 0 <= i < |lines| ==> !EndsWithChar(Strip(lines[i]), '\\')
  }

  /**
   * Without continuations, the logical lines are exactly the stripped lines
   * the reader does not skip, no line is consumed and the scan is complete.
   */
  lemma {:induction false} LogicalWithoutContinuation(lines: seq<string>, skip: string -> bool)
    requires NoContinuation(lines)
    ensures Logical(lines, skip) == Scan(Kept(lines, skip), lines, true)
    decreases |lines|
  {
    if lines != [] {
      assert !EndsWithChar(Strip(lines[0]), '\\');
      assert NoContinuation(lines[1..]) by {
        forall i | 0 <= i < |lines[1..]| ensures !EndsWithChar(Strip(lines[1..][i]), '\\') {
          assert lines[1..][i] == lines[i + 1];
        }
      }
      LogicalWithoutContinuation(lines[1..], skip);
      assert lines == [lines[0]] + lines[1..];
    }
  }

  /**
   * A line the reader skips contributes no logical line and is not consumed,
   * wherever it stands at a line boundary.
   */
  lemma SkippedLineIsInvisible(line: string, rest: seq<string>, skip: string -> bool)
    requires skip(Strip(line))
    ensures Logical([line] + rest, skip).logical == Logical(rest, skip).logical
    ensures Logical([line] + rest, skip).survivors == [line] + Logical(rest, skip).survivors
    ensures Logical([line] + rest, skip).complete == Logical(rest, skip).complete
  {
    assert ([line] + rest)[1..] == rest;
  }

  /**
   * A continued line swallows the next physical line, whatever that line
   * holds (even a blank or comment line): the two become one logical line
   * joined by a single space, and only the first survives.
   */
  lemma ContinuationConsumesNext(first: string, next: string, rest: seq<string>, skip: string -> bool)
    requires !skip(Strip(first))
    requires EndsWithChar(Strip(first), '\\')
    requires !EndsWithChar(Strip(Strip(first)[..|Strip(first)| - 1]) + " " + Strip(next), '\\')
    ensures Logical([first, next] + rest, skip).logical
         == [Strip(Strip(first)[..|Strip(first)| - 1]) + " " + Strip(next)] + Logical(rest, skip).logical
    ensures Logical([first, next] + rest, skip).survivors == [first] + Logical(rest, skip).survivors
    ensures Logical([first, next] + rest, skip).complete == Logical(rest, skip).complete
  {
    var lines := [first, next] + rest;
    assert lines[0] == first && lines[1..] == [next] + rest;
    assert ([next] + rest)[0] == next && ([next] + rest)[1..] == rest;
  }

  /** A `\` on the last line that is read leaves the scan incomplete. */
  lemma TrailingBackslashIsIncomplete(lines: seq<string>, skip: string -> bool)
    requires lines != []
    requires !skip(Strip(lines[|lines| - 1])) && EndsWithChar(Strip(lines[|lines| - 1]), '\\')
    ensures !Logical(lines, skip).complete
  {
    TrailingBackslashFrom(lines, skip);
  }

  lemma {:induction false} TrailingBackslashFrom(lines: seq<string>, skip: string -> bool)
    requires lines != []
    requires !skip(Strip(lines[|lines| - 1])) && EndsWithChar(Strip(lines[|lines| - 1]), '\\')
    ensures !Logical(lines, skip).complete
    decreases |lines|
  {
    var l := Strip(lines[0]);
    if |lines| == 1 {
      assert JoinContinuation(l, lines[1..]) == MissingNext;
    } else if skip(l) {
      assert lines[1..][|lines[1..]| - 1] == lines[|lines| - 1];
      TrailingBackslashFrom(lines[1..], skip);
    } else {
      match JoinContinuation(l, lines[1..])
      case MissingNext =>
      case Joined(j, rest) =>
        JoinedRestIsSuffix(l, lines[1..]);
        if rest != [] {
          assert rest[|rest| - 1] == lines[|lines| - 1];
          TrailingBackslashFrom(rest, skip);
        } else {
          JoinedRestEmptyEndsLast(l, lines[1..]);
        }
    }
  }

  /**
   * When a join consumes every remaining line, the last of them did not end
   * in a backslash after stripping.
   */
  lemma {:induction false} JoinedRestEmptyEndsLast(line: string, rest: seq<string>)
    requires rest != []
    requires JoinContinuation(line, rest).Joined? && JoinContinuation(line, rest).rest == []
    ensures !EndsWithChar(Strip(rest[|rest| - 1]), '\\')
    decreases |rest|
  {
    var t := Strip(rest[0]);
    var next := Glue(line, rest[0]);
    assert JoinContinuation(line, rest) == JoinContinuation(next, rest[1..]);
    if |rest| == 1 {
      assert !EndsWithChar(next, '\\');
      if t != [] {
        assert next[|next| - 1] == t[|t| - 1];
      }
    } else {
      assert rest[1..][|rest[1..]| - 1] == rest[|rest| - 1];
      JoinedRestEmptyEndsLast(next, rest[1..]);
    }
  }

  // ---------------------------------------------------------------------
  // The loop of a reader that enumerates a list and deletes the lines a
  // continuation consumes
  // ---------------------------------------------------------------------

  /**
   * Where such a loop stands: `done` are the logical lines it has
   * processed and `kept` the list entries before the current index; the
   * rest of the input is still to be scanned.
   */
  function Resume(done: seq<string>, kept: seq<string>, s: Scan): Scan {
    Scan(done + s.logical, kept + s.survivors, s.complete)
  }

  lemma StartLoop(input: seq<string>, skip: string -> bool)
    ensures Logical(input, skip) == Resume([], input[..0], Logical(input[0..], skip))
  {
    assert input[0..] == input;
  }

  /** Passing over a skipped line moves it to the kept part. */
  lemma SkipStep(input: seq<string>, items: seq<string>, index: nat, done: seq<string>, skip: string -> bool)
    requires index < |items| && skip(Strip(items[index]))
    requires Logical(input, skip) == Resume(done, items[..index], Logical(items[index..], skip))
    ensures Logical(input, skip) == Resume(done, items[..index + 1], Logical(items[index + 1..], skip))
  {
    SkippedAt(items, index, skip);
    ResumeShift(done, items[..index], items[index], items[..index + 1], [], Logical(items[index + 1..], skip));
  }

  lemma SkippedAt(items: seq<string>, index: nat, skip: string -> bool)
    requires index < |items| && skip(Strip(items[index]))
    ensures var t := Logical(items[index + 1..], skip);
            Logical(items[index..], skip) == Scan(t.logical, [items[index]] + t.survivors, t.complete)
  {
    assert items[index..][1..] == items[index + 1..];
  }

  /** Moving one entry from a scan's survivors to the kept part changes nothing. */
  lemma ResumeShift(done: seq<string>, kept: seq<string>, x: string, kept2: seq<string>, line: seq<string>, t: Scan)
    requires kept2 == kept + [x]
    ensures Resume(done, kept, Scan(line + t.logical, [x] + t.survivors, t.complete))
         == Resume(done + line, kept2, t)
  {
    assert kept + ([x] + t.survivors) == kept2 + t.survivors;
    assert done + (line + t.logical) == (done + line) + t.logical;
  }

  /** A line that is read, with the lines its continuation consumed deleted after it. */
  lemma JoinStep(input: seq<string>, items: seq<string>, index: nat, done: seq<string>, skip: string -> bool,
                 r: Joined, after: seq<string>)
    requires index < |items| && !skip(Strip(items[index]))
    requires Logical(input, skip) == Resume(done, items[..index], Logical(items[index..], skip))
    requires r == JoinContinuation(Strip(items[index]), items[index + 1..]) && r.Joined?
    requires after == items[..index + 1] + r.rest
    ensures Logical(input, skip) == Resume(done + [r.line], after[..index + 1], Logical(after[index + 1..], skip))
  {
    ReadAt(items, index, skip, r);
    SpliceSlices(items, index, r.rest, after);
    ResumeShift(done, items[..index], items[index], after[..index + 1], [r.line], Logical(r.rest, skip));
  }

  lemma SpliceSlices(items: seq<string>, index: nat, rest: seq<string>, after: seq<string>)
    requires index < |items| && after == items[..index + 1] + rest
    ensures after[..index + 1] == items[..index] + [items[index]] && after[index + 1..] == rest
  {
  }

  lemma ReadAt(items: seq<string>, index: nat, skip: string -> bool, r: Joined)
    requires index < |items| && !skip(Strip(items[index]))
    requires r == JoinContinuation(Strip(items[index]), items[index + 1..]) && r.Joined?
    ensures var t := Logical(r.rest, skip);
            Logical(items[index..], skip) == Scan([r.line] + t.logical, [items[index]] + t.survivors, t.complete)
  {
    assert items[index..][1..] == items[index + 1..];
  }

  /** A continuation that runs past the end leaves the scan incomplete. */
  lemma MissingStep(input: seq<string>, items: seq<string>, index: nat, done: seq<string>, skip: string -> bool,
                    after: seq<string>)
    requires index < |items| && !skip(Strip(items[index]))
    requires Logical(input, skip) == Resume(done, items[..index], Logical(items[index..], skip))
    requires JoinContinuation(Strip(items[index]), items[index + 1..]).MissingNext?
    requires after == items[..index + 1]
    ensures Logical(input, skip) == Scan(done, after, false)
  {
    assert items[index..][1..] == items[index + 1..];
    assert after == items[..index] + [items[index]];
  }

  /** At the end of the list the scan is complete. */
  lemma EndLoop(input: seq<string>, items: seq<string>, done: seq<string>, skip: string -> bool)
    requires Logical(input, skip) == Resume(done, items[..|items|], Logical(items[|items|..], skip))
    ensures Logical(input, skip) == Scan(done, items, true)
  {
    assert items[..|items|] == items;
    assert items[|items|..] == [];
  }

  // ---------------------------------------------------------------------
  // The in-place join of the readers that work on a Python list
  // ---------------------------------------------------------------------

  /** A Python list of strings, shared by reference with its caller. */
  class StringList {
    var items: seq<string>

    constructor (items: seq<string>)
      ensures this.items == items
    {
      this.items := items;
    }
  }

  /**
   * The continuation loop that `clean_body`, `SSHConfig.parse` and
   * `IPTables._parse` run on the list they enumerate: while the line ends
   * in `\`, glue `lines[index + 1]` to it and `del lines[index + 1]`.
   */
  method JoinAt(lines: StringList, index: nat, line: string) returns (r: Joined)
    requires index < |lines.items|
    modifies lines
    ensures r == JoinContinuation(line, old(lines.items)[index + 1..])
    ensures r.Joined? ==> lines.items == old(lines.items)[..index + 1] + r.rest
    ensures r.MissingNext? ==> lines.items == old(lines.items)[..index + 1]
  {
    ghost var head := lines.items[..index + 1];
    var rest := lines.items[index + 1..];
    assert lines.items == head + rest;
    var cur := line;
    while EndsWithChar(cur, '\\')
      invariant |head| == index + 1
      invariant lines.items == head + rest
      invariant JoinContinuation(line, old(lines.items)[index + 1..]) == JoinContinuation(cur, rest)
      decreases |rest|
    {
      if index + 1 == |lines.items| {
        // `lines[index + 1]` raises IndexError
        assert rest == [];
        return MissingNext;
      }
      var next := lines.items[index + 1];
      assert next == rest[0];
      cur := Glue(cur, next);
      lines.items := lines.items[..index + 1] + lines.items[index + 2..];
      rest := rest[1..];
      assert lines.items == head + rest;
    }
    r := Joined(cur, rest);
  }
}
