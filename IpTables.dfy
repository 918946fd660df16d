/**
 * `IPTables._parse` (client/inventory.py): normalises the output of
 * `iptables-save` into a body text. The output is the parameter `output`;
 * `PARSE_CONF_COMMENTS` is `keepComments`.
 */
module IpTables {
  import opened Strings
  import opened Outcomes
  import opened LineJoin
  import opened Common

  /**
   * The stripped lines `_parse` passes over: blank lines, `#` lines unless
   * comments are kept, `# Generated by` lines when they are, and
   * `# Completed on` lines always.
   */
  function IptSkip(keepComments: bool): string -> bool {
    (line: string) => line == [] || (!keepComments && line[0] == '#')
      || (keepComments && StartsWith(line, "# Generated by")) || StartsWith(line, "# Completed on")
  }

  /** `:<chain> <policy> [<packets>:<bytes>]` with something after the policy. */
  predicate IsChainSpec(line: string) {
    line != [] && line[0] == ':' && |Split(line)| > 2
  }

  /** A chain specification keeps only its first two fields; every other line is unchanged. */
  function Normalised(line: string): string {
    if IsChainSpec(line) then Split(line)[0] + " " + Split(line)[1] else line
  }

  function NormalisedAll(lines: seq<string>): (r: seq<string>)
    ensures |r| == |lines| && forall i :: 0 <= i < |lines| ==> r[i] == Normalised(lines[i])
  {
    seq(|lines|, i requires 0 <= i < |lines| => Normalised(lines[i]))
  }

  /** The body `_parse` builds from the output, or the `IndexError` of a dangling `\`. */
  function IptBody(output: string, keepComments: bool): Result<string, PyError> {
    var s := Logical(SplitOn(output, '\n'), IptSkip(keepComments));
    if s.complete then Ok(Render(NormalisedAll(s.logical))) else Err(IndexError)
  }

  /** `_parse()['body']` */
  method Parse(output: string, keepComments: bool) returns (r: Result<string, PyError>)
    ensures r == IptBody(output, keepComments)
  {
    var lines := new StringList(SplitOn(output, '\n'));
    ghost var input := lines.items;
    ghost var skip := IptSkip(keepComments);
    ghost var done: seq<string> := [];
    StartLoop(input, skip);
    var body := "";
    var index := 0;
    while index < |lines.items|
      invariant index <= |lines.items|
      invariant body == Render(NormalisedAll(done))
      invariant Logical(input, skip) == Resume(done, lines.items[..index], Logical(lines.items[index..], skip))
      decreases |lines.items| - index
    {
      var line := Strip(lines.items[index]);
      if |line| == 0 || (!keepComments && line[0] == '#')
         || (keepComments && StartsWith(line, "# Generated by")) || StartsWith(line, "# Completed on") {
        SkipStep(input, lines.items, index, done, skip);
        index := index + 1;
        continue;
      }
      ghost var before := lines.items;
      var j := JoinAt(lines, index, line);
      if j.MissingNext? {
        MissingStep(input, before, index, done, skip, lines.items);
        return Err(IndexError);
      }
      JoinStep(input, before, index, done, skip, j, lines.items);
      line := NormaliseChain(j.line);
      NormalisedSnoc(done, j.line);
      RenderAppend(NormalisedAll(done), line);
      body := body + line + "\n";
      done := done + [j.line];
      index := index + 1;
    }
    EndLoop(input, lines.items, done, skip);
    r := Ok(body);
  }

  /** The chain-specification rewrite of the loop, for one non-empty logical line. */
  method NormaliseChain(line: string) returns (r: string)
    requires line != []
    ensures r == Normalised(line)
  {
    r := line;
    if line[0] == ':' {
      var ls := Split(line);
      if |ls| > 2 && Strip(ls[0]) != [] {
        ChainFields(line);
        var chainName := Strip(ls[0])[1..];
        var chainPolicy := Strip(ls[1]);
        r := ":" + chainName + " " + chainPolicy;
      }
    }
  }

  lemma NormalisedSnoc(done: seq<string>, line: string)
    ensures NormalisedAll(done + [line]) == NormalisedAll(done) + [Normalised(line)]
  {
  }

  /** Stripping a `split()` token changes nothing. */
  lemma TokenUnstripped(t: string)
    requires t != [] && NoSpace(t)
    ensures Strip(t) == t
  {
    assert !IsSpace(t[0]) && !IsSpace(t[|t| - 1]);
    StripTrimmed(t);
  }

  /** A line starting with a non-space character splits into its leading token first. */
  lemma FirstToken(line: string)
    requires line != [] && !IsSpace(line[0])
    ensures Split(line) != [] && Split(line)[0] != [] && Split(line)[0][0] == line[0]
  {
    var k := TokenEnd(line);
    assert Split(line) == [line[..k]] + Split(line[k..]);
  }

  lemma Reattach(t: string)
    requires t != [] && t[0] == ':'
    ensures ":" + t[1..] == t
  {
    assert t == [t[0]] + t[1..];
  }

  /**
   * In a chain specification the first field is the chain with its `:` and
   * stripping a field changes nothing, so `':%s %s' % (chain, policy)` is
   * the first two fields joined by a space.
   */
  lemma ChainFields(line: string)
    requires IsChainSpec(line)
    ensures Strip(Split(line)[0]) == Split(line)[0] && Strip(Split(line)[1]) == Split(line)[1]
    ensures ":" + Split(line)[0][1..] == Split(line)[0]
  {
    var ls := Split(line);
    assert ls[0] in ls;
    assert ls[1] in ls;
    TokenUnstripped(ls[0]);
    TokenUnstripped(ls[1]);
    FirstToken(line);
    Reattach(ls[0]);
  }

  /**
   * A normalised chain specification is `:<chain> <policy>`: its fields
   * are the first two fields of the original line, counters dropped.
   */
  lemma ChainKeepsChainAndPolicy(line: string)
    requires IsChainSpec(line)
    ensures Split(Normalised(line)) == Split(line)[..2]
    ensures Normalised(line)[0] == ':'
  {
    var ls := Split(line);
    assert ls[0] in ls;
    assert ls[1] in ls;
    FirstToken(line);
    SplitPair(ls[0], ls[1]);
    assert ls[..2] == [ls[0], ls[1]];
  }

  /** Normalising twice is normalising once: a normalised chain line has two fields. */
  lemma NormaliseIdempotent(line: string)
    ensures Normalised(Normalised(line)) == Normalised(line)
  {
    if IsChainSpec(line) {
      ChainKeepsChainAndPolicy(line);
    }
  }

  /**
   * A body line is not a `# Completed on` line, not a `# Generated by`
   * line when comments are kept, and does not start with `#` when they are
   * not.
   */
  predicate Unmarked(line: string, keepComments: bool) {
    line != [] && !StartsWith(line, "# Completed on")
    && (keepComments ==> !StartsWith(line, "# Generated by"))
    && (!keepComments ==> line[0] != '#')
  }

  /** Normalising a line the loop keeps leaves it unmarked. */
  lemma NormalisedUnmarked(line: string, keepComments: bool)
    requires !IptSkip(keepComments)(line)
    ensures Unmarked(Normalised(line), keepComments)
  {
    if IsChainSpec(line) {
      var n := Normalised(line);
      ChainKeepsChainAndPolicy(line);
      assert n[0] != "# Completed on"[0];
      assert n[0] != "# Generated by"[0];
    }
  }

  /** Without continued lines, every line of the body is unmarked. */
  lemma MarkersNeverInBody(lines: seq<string>, keepComments: bool)
    requires NoContinuation(lines)
    ensures forall l :: l in NormalisedAll(Logical(lines, IptSkip(keepComments)).logical) ==>
              Unmarked(l, keepComments)
  {
    var skip := IptSkip(keepComments);
    LogicalWithoutContinuation(lines, skip);
    KeptNotSkipped(lines, skip);
    var kept := Kept(lines, skip);
    forall l | l in NormalisedAll(kept)
      ensures Unmarked(l, keepComments)
    {
      var i :| 0 <= i < |kept| && NormalisedAll(kept)[i] == l;
      assert kept[i] in kept;
      NormalisedUnmarked(kept[i], keepComments);
    }
  }
  // ---------------------------------------------------------------------
  // A marker reached through a continuation
  // ---------------------------------------------------------------------

  /** `"\\"`, a line holding only a backslash, is not skipped and is a single character. */
  lemma BackslashLine(keepComments: bool)
    ensures Strip("\\") == "\\" && !IptSkip(keepComments)("\\")
  {
    StripTrimmed("\\");
  }

  /** Gluing onto a lone `\\`: `''` joined with the stripped next line. */
  lemma GlueOntoBackslash(b: string)
    requires b != [] && Trimmed(b)
    ensures Glue("\\", b) == " " + b
  {
    StripTrimmed(b);
    assert "\\"[..0] == [];
  }

  /** Gluing `y` onto ` m \\`: the backslash and the padding go. */
  lemma GlueOntoMarker(m: string, y: string)
    requires m != [] && Trimmed(m) && Trimmed(y)
    ensures Glue(" " + (m + " \\"), y) == m + " " + y
  {
    var g1 := " " + (m + " \\");
    assert g1[..|g1| - 1] == " " + m + " ";
    StripPadded(" ", m, " ");
    StripTrimmed(y);
  }

  /** The two joins that turn `\\`, `m \\`, `y` into `m y`. */
  lemma JoinTwice(m: string, y: string)
    requires m != [] && Trimmed(m) && y != [] && Trimmed(y) && !EndsWithChar(y, '\\')
    ensures JoinContinuation("\\", [m + " \\", y]) == Joined(m + " " + y, [])
  {
    var b := m + " \\";
    GlueOntoBackslash(b);
    GlueOntoMarker(m, y);
    assert [b, y][1..] == [y] && [y][1..] == [];
    assert !EndsWithChar(m + " " + y, '\\');
    assert JoinContinuation(" " + b, [y]) == JoinContinuation(m + " " + y, []);
  }

  /**
   * As written, the skip test sees only the physical line. A lone `\\` line
   * followed by `m \\` and `y` is one logical line `m y`, whatever `m` is.
   */
  lemma ContinuedIntoOneLine(m: string, y: string, keepComments: bool)
    requires m != [] && Trimmed(m) && y != [] && Trimmed(y) && !EndsWithChar(y, '\\')
    ensures Logical(["\\", m + " \\", y], IptSkip(keepComments)).logical == [m + " " + y]
  {
    var lines := ["\\", m + " \\", y];
    BackslashLine(keepComments);
    JoinTwice(m, y);
    assert lines[1..] == [m + " \\", y];
  }

  /**
   * Findings, as written: with comments off, the lines `\`,
   * `# Completed on x \` and `y` put `# Completed on x y` into the body.
   */
  lemma CompletedMarkerInBody()
    ensures NormalisedAll(Logical(["\\", "# Completed on x \\", "y"], IptSkip(false)).logical)
              == ["# Completed on x y"]
    ensures !Unmarked("# Completed on x y", false)
  {
    var m := "# Completed on x";
    assert m + " \\" == "# Completed on x \\";
    assert m + " " + "y" == "# Completed on x y";
    ContinuedIntoOneLine(m, "y", false);
    assert !IsChainSpec("# Completed on x y");
  }

  /** The logical lines that pass the skip test, in order. */
  function Unskipped(ls: seq<string>, keepComments: bool): (r: seq<string>)
    ensures forall l :: l in r <==> l in ls && !IptSkip(keepComments)(l)
  {
    if ls == [] then []
    else if IptSkip(keepComments)(ls[0]) then Unskipped(ls[1..], keepComments)
    else [ls[0]] + Unskipped(ls[1..], keepComments)
  }

  /**
   * Findings, corrected: the skip test is applied to the joined logical
   * line too, so a marker reached through a continuation is dropped.
   */
  function IptBodyCorrected(output: string, keepComments: bool): Result<string, PyError> {
    var s := Logical(SplitOn(output, '\n'), IptSkip(keepComments));
    if s.complete then Ok(Render(NormalisedAll(Unskipped(s.logical, keepComments)))) else Err(IndexError)
  }

  /** Corrected, every line of the body is unmarked, continued lines included. */
  lemma MarkersNeverInCorrectedBody(output: string, keepComments: bool)
    requires IptBodyCorrected(output, keepComments).Ok?
    ensures var kept := Unskipped(Logical(SplitOn(output, '\n'), IptSkip(keepComments)).logical, keepComments);
      IptBodyCorrected(output, keepComments) == Ok(Render(NormalisedAll(kept)))
      && forall l :: l in NormalisedAll(kept) ==> Unmarked(l, keepComments)
  {
    var kept := Unskipped(Logical(SplitOn(output, '\n'), IptSkip(keepComments)).logical, keepComments);
    forall l | l in NormalisedAll(kept)
      ensures Unmarked(l, keepComments)
    {
      var i :| 0 <= i < |kept| && NormalisedAll(kept)[i] == l;
      assert kept[i] in kept;
      NormalisedUnmarked(kept[i], keepComments);
    }
  }

  /** Lines none of which is skipped pass the test unchanged. */
  lemma {:induction false} UnskippedNone(ls: seq<string>, keepComments: bool)
    requires forall l :: l in ls ==> !IptSkip(keepComments)(l)
    ensures Unskipped(ls, keepComments) == ls
  {
    if ls != [] {
      assert ls[0] in ls;
      assert forall l :: l in ls[1..] ==> l in ls;
      UnskippedNone(ls[1..], keepComments);
    }
  }

  /** Without continued lines the corrected body is the body as written. */
  lemma CorrectedAgreesWithoutContinuation(output: string, keepComments: bool)
    requires NoContinuation(SplitOn(output, '\n'))
    ensures IptBodyCorrected(output, keepComments) == IptBody(output, keepComments)
  {
    var lines := SplitOn(output, '\n');
    var skip := IptSkip(keepComments);
    LogicalWithoutContinuation(lines, skip);
    KeptNotSkipped(lines, skip);
    UnskippedNone(Logical(lines, skip).logical, keepComments);
  }
}
