/**
 * The port list `get_domains` (client/apacheparser.py) records for a
 * virtual host: its arguments joined with spaces, every run of non-digits
 * replaced by one space (`re.sub('[^0-9]+', ' ', ...)`), stripped, and split
 * on single spaces. The result is the runs of digits in the arguments, so
 * the octets of an IP address are listed as ports too, and arguments
 * without a digit give `['']`.
 */
module PortLists {
  import opened Strings

  predicate IsDigit(c: char) {
    '0' <= c <= '9'
  }

  predicate AllDigits(s: string) {
    forall i :: 0 <= i < |s| ==> IsDigit(s[i])
  }

  /** Length of the leading run of digits. */
  function DigitEnd(s: string): (k: nat)
    ensures k <= |s| && AllDigits(s[..k])
    ensures k < |s| ==> !IsDigit(s[k])
    ensures s != [] && IsDigit(s[0]) ==> k > 0
  {
    if s == [] || !IsDigit(s[0]) then 0 else 1 + DigitEnd(s[1..])
  }

  /** Length of the leading run of non-digits. */
  function OtherEnd(s: string): (k: nat)
    ensures k <= |s|
    ensures k < |s| ==> IsDigit(s[k])
    ensures s != [] && !IsDigit(s[0]) ==> k > 0
  {
    if s == [] || IsDigit(s[0]) then 0 else 1 + OtherEnd(s[1..])
  }

  /** `re.sub('[^0-9]+', ' ', s)` */
  function SpaceOutNonDigits(s: string): string
    decreases |s|
  {
    if s == [] then []
    else if IsDigit(s[0]) then
      var k := DigitEnd(s);
      s[..k] + SpaceOutNonDigits(s[k..])
    else " " + SpaceOutNonDigits(s[OtherEnd(s)..])
  }

  /** The maximal runs of digits in `s`, in order. */
  function DigitRuns(s: string): (r: seq<string>)
    ensures forall t :: t in r ==> t != [] && AllDigits(t)
    decreases |s|
  {
    if s == [] then []
    else if IsDigit(s[0]) then
      var k := DigitEnd(s);
      [s[..k]] + DigitRuns(s[k..])
    else DigitRuns(s[OtherEnd(s)..])
  }

  /** `re.split(' ', spaced.strip())`: the port list of the arguments once `SpaceOutNonDigits` has run. */
  function SplitPorts(spaced: string): seq<string> {
    SplitOn(Strip(spaced), ' ')
  }

  /** The port list of `args`: its digit runs, and `['']` when it holds no digit. */
  function PortList(args: string): (r: seq<string>)
    ensures r != [] && forall t :: t in r ==> AllDigits(t)
  {
    if DigitRuns(args) == [] then [""] else DigitRuns(args)
  }

  /** The port list `get_domains` computes from the joined arguments of a virtual host. */
  method ExtractPorts(args: string) returns (ports: seq<string>)
    ensures ports == PortList(args)
  {
    ports := SplitPorts(SpaceOutNonDigits(args));
    PortsAreDigitRuns(args);
  }

  /** The regular-expression pipeline of `get_domains` yields exactly the port list. */
  lemma PortsAreDigitRuns(args: string)
    ensures SplitPorts(SpaceOutNonDigits(args)) == PortList(args)
  {
    var a, b := SpacedShape(args);
    var runs := DigitRuns(args);
    var j := Join(" ", runs);
    if runs == [] {
      assert j == [];
    } else {
      assert runs[0] in runs && runs[|runs| - 1] in runs;
      JoinEnds(" ", runs);
    }
    StripPadded(a, j, b);
    if runs != [] {
      assert forall t :: t in runs ==> ' ' !in t by {
        forall t | t in runs ensures ' ' !in t {
          assert AllDigits(t);
        }
      }
      SplitOnJoin(runs, ' ');
    }
  }

  /** The spaced-out text is the digit runs joined by single spaces, with at most one space at either end. */
  lemma SpacedShape(s: string) returns (a: string, b: string)
    ensures AllSpace(a) && AllSpace(b)
    ensures SpaceOutNonDigits(s) == a + Join(" ", DigitRuns(s)) + b
  {
    if s == [] || IsDigit(s[0]) {
      a := [];
      b := DigitStartShape(s);
      assert a + Join(" ", DigitRuns(s)) == Join(" ", DigitRuns(s));
    } else {
      var u := OtherStep(s);
      a := " ";
      b := DigitStartShape(u);
      SeqAssoc(a, Join(" ", DigitRuns(u)), b);
    }
  }

  /** One run of non-digits becomes one space and holds no digit run. */
  lemma OtherStep(s: string) returns (u: string)
    requires s != [] && !IsDigit(s[0])
    ensures u == s[OtherEnd(s)..] && (u == [] || IsDigit(u[0]))
    ensures SpaceOutNonDigits(s) == " " + SpaceOutNonDigits(u) && DigitRuns(s) == DigitRuns(u)
  {
    u := s[OtherEnd(s)..];
  }

  /** One run of digits is copied and is the first digit run. */
  lemma DigitStep(s: string) returns (run: string, t: string)
    requires s != [] && IsDigit(s[0])
    ensures run == s[..DigitEnd(s)] && t == s[DigitEnd(s)..] && (t == [] || !IsDigit(t[0]))
    ensures SpaceOutNonDigits(s) == run + SpaceOutNonDigits(t) && DigitRuns(s) == [run] + DigitRuns(t)
  {
    run, t := s[..DigitEnd(s)], s[DigitEnd(s)..];
  }

  lemma {:induction false} DigitStartShape(s: string) returns (b: string)
    requires s == [] || IsDigit(s[0])
    ensures AllSpace(b)
    ensures SpaceOutNonDigits(s) == Join(" ", DigitRuns(s)) + b
    decreases |s|
  {
    if s == [] {
      b := [];
    } else {
      var run, t := DigitStep(s);
      if t == [] {
        b := [];
        assert SpaceOutNonDigits(s) == run + [];
        assert DigitRuns(s) == [run];
      } else {
        var u := OtherStep(t);
        var b2 := DigitStartShape(u);
        var rest := SpaceOutNonDigits(u);
        assert SpaceOutNonDigits(s) == run + (" " + rest);
        if DigitRuns(u) == [] {
          assert u == [];
          b := " ";
          assert DigitRuns(s) == [run];
          assert run + (" " + []) == run + " ";
        } else {
          b := b2;
          ConsJoin(run, DigitRuns(u), rest, b2);
        }
      }
    }
  }

  lemma ConsJoin(run: string, runs: seq<string>, rest: string, b: string)
    requires runs != [] && rest == Join(" ", runs) + b
    ensures run + (" " + rest) == Join(" ", [run] + runs) + b
  {
    var all := [run] + runs;
    assert all[0] == run && all[1..] == runs;
    assert Join(" ", all) == run + " " + Join(" ", runs);
  }
}
