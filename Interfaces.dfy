/**
 * `Interfaces.get_interfaces` (client/inventory.py): the address, hardware
 * address and netmask of each interface in the output of `ifconfig`, which
 * is the parameter `output`.
 *
 * The loop restarts an entry when `ls[0].strip()` holds, which every line
 * with a token satisfies; so the indented `inet addr:` line of an interface
 * opens an entry named `inet`. `AsWritten` models that test and `Corrected`
 * the evidently intended one, a line starting in the first column.
 */
module Interfaces {
  import opened Strings
  import opened Outcomes

  datatype Interface = Interface(ip: string, mac: string, mask: string)

  const Blank := Interface("", "", "")

  type Entries = map<string, Interface>

  /** The loop's state: the dictionary and the interface lines are written to. */
  datatype State = State(entries: Entries, current: string)

  datatype Variant = AsWritten | Corrected

  /** The token after a keyword: not asked for, beyond the end of the line, or present. */
  datatype Field = Absent | Missing | Present(value: string)

  /** What the loop reads off one line of the output. */
  datatype LineInfo =
    | Empty
    | Line(first: Option<string>, indented: bool, mac: Field, ip: Field, mask: string)

  /** Python's `ls.index(t)`: the first position of `t`. */
  function IndexOf(ls: seq<string>, t: string): (r: nat)
    requires t in ls
    ensures r < |ls| && ls[r] == t && t !in ls[..r]
  {
    if ls[0] == t then 0
    else
      assert ls == [ls[0]] + ls[1..];
      1 + IndexOf(ls[1..], t)
  }

  /** The token after the first `key` token. */
  function After(ls: seq<string>, key: string): Field {
    if key !in ls then Absent
    else if IndexOf(ls, key) + 1 < |ls| then Present(ls[IndexOf(ls, key) + 1])
    else Missing
  }

  /** `t.split(':')[1]` if `t` holds a `:`, else `t`. */
  function AfterColon(t: string): string {
    SplitOnSeveral(t, ':');
    if ':' in t then SplitOn(t, ':')[1] else t
  }

  /** What the loop reads off one line; the values are those the source assigns. */
  function Info(line: string): LineInfo {
    if line == [] then Empty
    else
      var ls := Split(line);
      var mac := After(ls, "HWaddr");
      var inet := After(ls, "inet");
      Line(if ls == [] then None else Some(ls[0]), IsSpace(line[0]),
           if mac.Present? then Present(Lower(mac.value)) else mac,
           if inet.Present? then Present(AfterColon(inet.value)) else inet,
           if ls == [] then "" else AfterColon(ls[|ls| - 1]))
  }

  function InfoAll(lines: seq<string>): (r: seq<LineInfo>)
    ensures |r| == |lines| && forall i :: 0 <= i < |lines| ==> r[i] == Info(lines[i])
  {
    seq(|lines|, i requires 0 <= i < |lines| => Info(lines[i]))
  }

  /**
   * The entry a line (re)starts. As written, every line with a token does;
   * as intended, only a line starting in the first column.
   */
  function Restart(v: Variant, info: LineInfo): Option<string> {
    match info
    case Empty => None
    case Line(first, indented, _, _, _) =>
      if v.AsWritten? || !indented then first else None
  }

  /** `i_dict[interface]['i_mac'] = mac`: the value first, then the lookup. */
  function WriteMac(st: State, mac: Field): Result<State, PyError> {
    match mac
    case Absent => Ok(st)
    case Missing => Err(IndexError)
    case Present(m) =>
      if st.current !in st.entries then Err(KeyError)
      else Ok(st.(entries := st.entries[st.current := st.entries[st.current].(mac := m)]))
  }

  /** The `inet` branch: the address, then the netmask. */
  function WriteInet(st: State, ip: Field, mask: string): Result<State, PyError> {
    match ip
    case Absent => Ok(st)
    case Missing => Err(IndexError)
    case Present(a) =>
      if st.current !in st.entries then Err(KeyError)
      else Ok(st.(entries := st.entries[st.current := st.entries[st.current].(ip := a, mask := mask)]))
  }

  /** One turn of the loop. */
  function Step(v: Variant, st: State, info: LineInfo): Result<State, PyError> {
    match info
    case Empty => Ok(st)
    case Line(first, _, mac, ip, mask) =>
      if v.AsWritten? && first.None? then Err(IndexError)   // `ls[0]` of a blank line
      else
        var st1 := match Restart(v, info)
          case Some(name) => State(st.entries[name := Blank], name)
          case None => st;
        match WriteMac(st1, mac)
        case Err(e) => Err(e)
        case Ok(st2) => WriteInet(st2, ip, mask)
  }

  const Start := State(map[], "")

  /** The state after the loop has read lines described by `infos`, or its first error. */
  function Collect(v: Variant, infos: seq<LineInfo>): Result<State, PyError>
    decreases |infos|
  {
    if infos == [] then Ok(Start)
    else
      match Collect(v, infos[..|infos| - 1])
      case Err(e) => Err(e)
      case Ok(st) => Step(v, st, infos[|infos| - 1])
  }

  /** The dictionary `get_interfaces` returns, as written or as intended. */
  function InterfacesOf(v: Variant, output: string): Result<Entries, PyError> {
    match Collect(v, InfoAll(SplitOn(output, '\n')))
    case Err(e) => Err(e)
    case Ok(st) => Ok(st.entries)
  }

  /** `get_interfaces()`, with the restart test as written or as intended. */
  method GetInterfaces(v: Variant, output: string) returns (r: Result<Entries, PyError>)
    ensures r == InterfacesOf(v, output)
  {
    var lines := SplitOn(output, '\n');
    ghost var infos := InfoAll(lines);
    var entries: Entries := map[];
    var interface := "";
    var i := 0;
    while i < |lines|
      invariant i <= |lines| && |infos| == |lines|
      invariant Collect(v, infos[..i]) == Ok(State(entries, interface))
      decreases |lines| - i
    {
      var info := ReadLine(lines[i]);
      assert infos[i] == info;
      CollectNext(v, infos, i);
      var next := ApplyLine(v, entries, interface, info);
      if next.Err? {
        NoInterfacesAfterError(v, infos, i + 1);
        return Err(next.error);
      }
      entries, interface := next.value.entries, next.value.current;
      i := i + 1;
    }
    assert infos[..i] == infos;
    r := Ok(entries);
  }

  /** The body of the loop, with the restart test as written or as intended. */
  method ApplyLine(v: Variant, entries: Entries, interface: string, info: LineInfo) returns (r: Result<State, PyError>)
    ensures r == Step(v, State(entries, interface), info)
  {
    if info.Empty? {
      return Ok(State(entries, interface));
    }
    // As written, `ls[0]` of a whitespace-only line.
    if v.AsWritten? && info.first.None? {
      return Err(IndexError);
    }
    var d, current := entries, interface;
    if (v.AsWritten? || !info.indented) && info.first.Some? {
      current := info.first.value;
      d := d[current := Blank];
    }
    // The hardware address.
    if info.mac.Missing? {
      return Err(IndexError);
    }
    if info.mac.Present? {
      if current !in d {
        return Err(KeyError);
      }
      d := d[current := d[current].(mac := info.mac.value)];
    }
    // The address and the netmask.
    if info.ip.Missing? {
      return Err(IndexError);
    }
    if info.ip.Present? {
      if current !in d {
        return Err(KeyError);
      }
      ghost var before := d;
      d := d[current := d[current].(ip := info.ip.value)];
      d := d[current := d[current].(mask := info.mask)];
      assert d == before[current := before[current].(ip := info.ip.value, mask := info.mask)];
    }
    r := Ok(State(d, current));
  }

  /** The tests the loop makes on one line. */
  method ReadLine(line: string) returns (info: LineInfo)
    ensures info == Info(line)
  {
    if line == [] {
      return Empty;
    }
    var ls := Split(line);
    var mac := After(ls, "HWaddr");
    if mac.Present? {
      mac := Present(Lower(mac.value));
    }
    var inet := After(ls, "inet");
    if inet.Present? {
      inet := Present(AfterColon(inet.value));
    }
    var first := if ls == [] then None else Some(ls[0]);
    var mask := if ls == [] then "" else AfterColon(ls[|ls| - 1]);
    info := Line(first, IsSpace(line[0]), mac, inet, mask);
  }

  /** One more line is one more step. */
  lemma CollectNext(v: Variant, infos: seq<LineInfo>, i: nat)
    requires i < |infos| && Collect(v, infos[..i]).Ok?
    ensures Collect(v, infos[..i + 1]) == Step(v, Collect(v, infos[..i]).value, infos[i])
  {
    assert infos[..i + 1][..i] == infos[..i];
  }

  /** Once a prefix fails, the whole output fails with the same error. */
  lemma {:induction false} NoInterfacesAfterError(v: Variant, infos: seq<LineInfo>, n: nat)
    requires n <= |infos| && Collect(v, infos[..n]).Err?
    ensures Collect(v, infos) == Collect(v, infos[..n])
    decreases |infos| - n
  {
    if n == |infos| {
      assert infos[..n] == infos;
    } else {
      assert infos[..n + 1][..n] == infos[..n];
      NoInterfacesAfterError(v, infos, n + 1);
    }
  }

  /**
   * A whitespace-only line: as written `ls[0]` of an empty `split()` raises
   * `IndexError`; as intended the line writes nothing.
   */
  lemma WhitespaceOnlyLine(st: State, line: string)
    requires line != [] && Split(line) == []
    ensures Step(AsWritten, st, Info(line)) == Err(IndexError)
    ensures Step(Corrected, st, Info(line)) == Ok(st)
  {
  }

  // ---------------------------------------------------------------------
  // Which entries exist
  // ---------------------------------------------------------------------

  /** A line adds exactly the entry it restarts. */
  lemma StepKey(v: Variant, st: State, info: LineInfo, k: string)
    requires Step(v, st, info).Ok?
    ensures k in Step(v, st, info).value.entries <==> k in st.entries || Restart(v, info) == Some(k)
  {
  }

  /** The entries are exactly the interfaces some line restarted. */
  lemma {:induction false} KeysAreRestarts(v: Variant, infos: seq<LineInfo>, k: string)
    requires Collect(v, infos).Ok?
    ensures k in Collect(v, infos).value.entries <==>
            exists i :: 0 <= i < |infos| && Restart(v, infos[i]) == Some(k)
    decreases |infos|
  {
    if infos != [] {
      var init := infos[..|infos| - 1];
      KeysAreRestarts(v, init, k);
      StepKey(v, Collect(v, init).value, infos[|infos| - 1], k);
      assert forall i :: 0 <= i < |init| ==> init[i] == infos[i];
    }
  }

  /** As written, every line with a token restarts the entry of its first token. */
  lemma AsWrittenRestart(line: string)
    ensures Restart(AsWritten, Info(line)) == if Split(line) == [] then None else Some(Split(line)[0])
  {
  }

  /** As intended, a line restarts an entry exactly when it starts in the first column. */
  lemma HeaderLinesRestart(line: string)
    ensures Restart(Corrected, Info(line)).Some? <==> line != [] && !IsSpace(line[0])
    ensures Restart(Corrected, Info(line)).Some? ==> Restart(Corrected, Info(line)).value == Split(line)[0]
  {
    if line != [] && !IsSpace(line[0]) {
      var k := TokenEnd(line);
      assert Split(line) == [line[..k]] + Split(line[k..]);
    }
  }

  // ---------------------------------------------------------------------
  // Where a line's fields go
  // ---------------------------------------------------------------------

  /** After a line, the current interface is the one it restarted, if any. */
  lemma StepCurrent(v: Variant, st: State, info: LineInfo)
    requires Step(v, st, info).Ok?
    ensures Step(v, st, info).value.current == (if Restart(v, info).Some? then Restart(v, info).value else st.current)
  {
  }

  /** The fields of a line are written to the current interface's entry. */
  lemma StepWritesCurrent(v: Variant, st: State, info: LineInfo)
    requires Step(v, st, info).Ok? && info.Line?
    ensures var st2 := Step(v, st, info).value;
      (info.mac.Present? || info.ip.Present? || Restart(v, info).Some? ==> st2.current in st2.entries)
      && (info.mac.Present? ==> st2.entries[st2.current].mac == info.mac.value)
      && (info.ip.Present? ==> st2.entries[st2.current].ip == info.ip.value
                               && st2.entries[st2.current].mask == info.mask)
  {
  }

  /** A restarted entry holds only what the restarting line writes. */
  lemma RestartBlanks(v: Variant, st: State, info: LineInfo)
    requires Step(v, st, info).Ok? && info.Line? && Restart(v, info).Some?
    ensures var e := Step(v, st, info).value.entries[Restart(v, info).value];
      e.mac == (if info.mac.Present? then info.mac.value else "")
      && e.ip == (if info.ip.Present? then info.ip.value else "")
      && e.mask == (if info.ip.Present? then info.mask else "")
  {
  }

  /** Every other entry is left alone. */
  lemma StepKeepsOthers(v: Variant, st: State, info: LineInfo, k: string)
    requires Step(v, st, info).Ok? && k in st.entries && k != Step(v, st, info).value.current
    ensures Step(v, st, info).value.entries[k] == st.entries[k]
  {
  }

  // ---------------------------------------------------------------------
  // When a KeyError happens
  // ---------------------------------------------------------------------

  /** The current interface has an entry exactly when some line has restarted one. */
  lemma {:induction false} CurrentHasEntry(v: Variant, infos: seq<LineInfo>)
    requires Collect(v, infos).Ok?
    ensures var st := Collect(v, infos).value;
      st.current in st.entries <==> exists i :: 0 <= i < |infos| && Restart(v, infos[i]).Some?
    decreases |infos|
  {
    if infos != [] {
      var init := infos[..|infos| - 1];
      CurrentHasEntry(v, init);
      assert forall i :: 0 <= i < |init| ==> init[i] == infos[i];
      if !exists i :: 0 <= i < |init| && Restart(v, init[i]).Some? {
        NoRestartNoEntries(v, init);
      }
    }
  }

  /** Before any restart the dictionary is empty. */
  lemma {:induction false} NoRestartNoEntries(v: Variant, infos: seq<LineInfo>)
    requires Collect(v, infos).Ok?
    requires forall i :: 0 <= i < |infos| ==> Restart(v, infos[i]).None?
    ensures Collect(v, infos).value.entries == map[]
    decreases |infos|
  {
    if infos != [] {
      NoRestartNoEntries(v, infos[..|infos| - 1]);
    }
  }

  /**
   * A `KeyError` comes from a line that writes a field before any line
   * has restarted an entry.
   */
  lemma {:induction false} KeyErrorBeforeAnyRestart(v: Variant, infos: seq<LineInfo>)
    requires Collect(v, infos) == Err(KeyError)
    ensures exists n :: 0 <= n < |infos| && Collect(v, infos[..n]).Ok?
              && Step(v, Collect(v, infos[..n]).value, infos[n]) == Err(KeyError)
              && (forall i :: 0 <= i <= n ==> Restart(v, infos[i]).None?)
    decreases |infos|
  {
    var n := |infos| - 1;
    var init := infos[..n];
    assert forall i :: 0 <= i < n ==> init[i] == infos[i];
    if Collect(v, init).Err? {
      KeyErrorBeforeAnyRestart(v, init);
      var m :| 0 <= m < |init| && Collect(v, init[..m]).Ok?
        && Step(v, Collect(v, init[..m]).value, init[m]) == Err(KeyError)
        && (forall i :: 0 <= i <= m ==> Restart(v, init[i]).None?);
      assert init[..m] == infos[..m];
    } else {
      CurrentHasEntry(v, init);
    }
  }

  /** As written, an entry is always open when a field is written: no `KeyError`. */
  lemma AsWrittenNeverKeyError(infos: seq<LineInfo>)
    ensures Collect(AsWritten, infos) != Err(KeyError)
  {
    if Collect(AsWritten, infos) == Err(KeyError) {
      KeyErrorBeforeAnyRestart(AsWritten, infos);
    }
  }

  /** As intended, output whose first line is a header line raises no `KeyError`. */
  lemma HeaderFirstNeverKeyError(lines: seq<string>)
    requires lines != [] && lines[0] != [] && !IsSpace(lines[0][0])
    ensures Collect(Corrected, InfoAll(lines)) != Err(KeyError)
  {
    HeaderLinesRestart(lines[0]);
    if Collect(Corrected, InfoAll(lines)) == Err(KeyError) {
      KeyErrorBeforeAnyRestart(Corrected, InfoAll(lines));
    }
  }

  // ---------------------------------------------------------------------
  // The indented `inet` line
  // ---------------------------------------------------------------------

  /** A one-token header line: it names the interface and writes nothing. */
  lemma HeaderInfo(h: string)
    requires h != [] && NoSpace(h) && h != "HWaddr" && h != "inet"
    ensures Info(h) == Line(Some(h), false, Absent, Absent, AfterColon(h))
  {
    SplitToken(h);
  }

  /** The tokens of an indented `inet <addr>` line. */
  lemma InetSplit(a: string)
    requires a != [] && NoSpace(a)
    ensures Split(" inet " + a) == ["inet", a]
  {
    SplitPair("inet", a);
    assert " inet " + a == " " + ("inet" + " " + a);
    SplitAppend(" ", "inet" + " " + a);
    assert Split(" ") == [];
  }

  /** An indented `inet <addr>` line: its first token is `inet`. */
  lemma InetInfo(a: string)
    requires a != [] && NoSpace(a) && a != "HWaddr"
    ensures Info(" inet " + a) == Line(Some("inet"), true, Absent, Present(AfterColon(a)), AfterColon(a))
  {
    InetSplit(a);
    var ls := ["inet", a];
    assert IndexOf(ls, "inet") == 0;
    assert "HWaddr" !in ls;
  }

  /** Reading two lines is two steps from the empty state. */
  lemma CollectTwo(v: Variant, first: LineInfo, second: LineInfo)
    ensures Step(v, Start, first).Err? ==> Collect(v, [first, second]) == Step(v, Start, first)
    ensures Step(v, Start, first).Ok? ==>
              Collect(v, [first, second]) == Step(v, Step(v, Start, first).value, second)
  {
    assert [first, second][..1] == [first];
    assert [first][..0] == [];
    assert Collect(v, [first]) == Step(v, Start, first);
  }

  /** As written, the indented line opens an entry `inet` of its own. */
  lemma InetStepAsWritten(h: string, m: string, x: string)
    requires h != "inet"
    ensures Collect(AsWritten, [Line(Some(h), false, Absent, Absent, m), Line(Some("inet"), true, Absent, Present(x), x)])
      == Ok(State(map[h := Blank, "inet" := Interface(x, "", x)], "inet"))
  {
    var header := Line(Some(h), false, Absent, Absent, m);
    var inet := Line(Some("inet"), true, Absent, Present(x), x);
    var entered := State(map[h := Blank], h);
    assert Step(AsWritten, Start, header) == Ok(entered);
    CollectTwo(AsWritten, header, inet);
    var both := State(map[h := Blank, "inet" := Blank], "inet");
    assert both.entries["inet"].(ip := x, mask := x) == Interface(x, "", x);
    assert both.entries["inet" := Interface(x, "", x)] == map[h := Blank, "inet" := Interface(x, "", x)];
    assert WriteInet(both, Present(x), x) == Ok(State(map[h := Blank, "inet" := Interface(x, "", x)], "inet"));
  }

  /** As intended, the indented line fills in the header's entry. */
  lemma InetStepCorrected(h: string, m: string, x: string)
    ensures Collect(Corrected, [Line(Some(h), false, Absent, Absent, m), Line(Some("inet"), true, Absent, Present(x), x)])
      == Ok(State(map[h := Interface(x, "", x)], h))
  {
    var header := Line(Some(h), false, Absent, Absent, m);
    var inet := Line(Some("inet"), true, Absent, Present(x), x);
    var entered := State(map[h := Blank], h);
    assert Step(Corrected, Start, header) == Ok(entered);
    CollectTwo(Corrected, header, inet);
    assert entered.entries[h].(ip := x, mask := x) == Interface(x, "", x);
    assert entered.entries[h := Interface(x, "", x)] == map[h := Interface(x, "", x)];
    assert WriteInet(entered, Present(x), x) == Ok(State(map[h := Interface(x, "", x)], h));
  }

  /**
   * The interface `h` followed by its indented `inet` line. As written, the
   * address lands in a new entry named `inet` and `h` keeps a blank entry;
   * as intended, `h` gets the address and netmask.
   */
  lemma IndentedInetLine(h: string, a: string)
    requires h != [] && NoSpace(h) && h != "HWaddr" && h != "inet"
    requires a != [] && NoSpace(a) && a != "HWaddr"
    ensures var infos := InfoAll([h, " inet " + a]);
      Collect(AsWritten, infos)
        == Ok(State(map[h := Blank, "inet" := Interface(AfterColon(a), "", AfterColon(a))], "inet"))
      && Collect(Corrected, infos) == Ok(State(map[h := Interface(AfterColon(a), "", AfterColon(a))], h))
  {
    HeaderInfo(h);
    InetInfo(a);
    var x := AfterColon(a);
    assert InfoAll([h, " inet " + a])
      == [Line(Some(h), false, Absent, Absent, AfterColon(h)), Line(Some("inet"), true, Absent, Present(x), x)];
    InetStepAsWritten(h, AfterColon(h), x);
    InetStepCorrected(h, AfterColon(h), x);
  }

  /**
   * As written, the entries are the first tokens of all the lines, the
   * indented ones included.
   */
  lemma AsWrittenKeys(lines: seq<string>, k: string)
    requires Collect(AsWritten, InfoAll(lines)).Ok?
    ensures k in Collect(AsWritten, InfoAll(lines)).value.entries <==>
            exists i :: 0 <= i < |lines| && Split(lines[i]) != [] && Split(lines[i])[0] == k
  {
    var infos := InfoAll(lines);
    KeysAreRestarts(AsWritten, infos, k);
    forall i | 0 <= i < |lines|
      ensures Restart(AsWritten, infos[i]) == Some(k) <==> Split(lines[i]) != [] && Split(lines[i])[0] == k
    {
      AsWrittenRestart(lines[i]);
    }
  }

  /** As intended, the entries are the first tokens of the lines starting in the first column. */
  lemma CorrectedKeys(lines: seq<string>, k: string)
    requires Collect(Corrected, InfoAll(lines)).Ok?
    ensures k in Collect(Corrected, InfoAll(lines)).value.entries <==>
            exists i :: 0 <= i < |lines| && lines[i] != [] && !IsSpace(lines[i][0]) && Split(lines[i])[0] == k
  {
    var infos := InfoAll(lines);
    KeysAreRestarts(Corrected, infos, k);
    forall i | 0 <= i < |lines|
      ensures Restart(Corrected, infos[i]) == Some(k) <==>
              lines[i] != [] && !IsSpace(lines[i][0]) && Split(lines[i])[0] == k
    {
      HeaderLinesRestart(lines[i]);
    }
  }
}
