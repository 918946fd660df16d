/**
 * `Services.get_services` (client/inventory.py): the listening processes
 * in the output of `lsof -ni -P`, which is the parameter `output`.
 */
module Services {
  import opened Strings
  import opened Outcomes

  /** Process name to the port field of its listening socket. */
  type Ports = map<string, string>

  /** What one output line contributes. */
  datatype Seen =
    | Ignored                               // empty, or no `(LISTEN)` field
    | Listens(name: string, port: string)   // the process and its port field
    | Malformed                             // the `IndexError` of a missing field

  const Listen := "(LISTEN)"

  /**
   * The fields are `re.split('\s*', line)`; `chunks[-2]` needs two fields
   * and `full_name.split(':')[1]` needs a `:` in it.
   */
  function LineSeen(line: string): Seen {
    if line == [] then Ignored
    else
      var chunks := SplitFields(line);
      if Listen !in chunks then Ignored
      else if |chunks| < 2 then Malformed
      else
        var parts := SplitOn(chunks[|chunks| - 2], ':');
        if |parts| < 2 then Malformed else Listens(chunks[0], parts[1])
  }

  /** What each line contributes, in output order. */
  function SeenAll(lines: seq<string>): (r: seq<Seen>)
    ensures |r| == |lines| && forall i :: 0 <= i < |lines| ==> r[i] == LineSeen(lines[i])
  {
    seq(|lines|, i requires 0 <= i < |lines| => LineSeen(lines[i]))
  }

  /** One step of the loop: a listening line sets its process's entry. */
  function AddSeen(ports: Ports, seen: Seen): Result<Ports, PyError> {
    match seen
    case Ignored => Ok(ports)
    case Malformed => Err(IndexError)
    case Listens(name, port) => Ok(ports[name := port])
  }

  /** The dictionary after the loop has read lines contributing `seen`, or its first error. */
  function Collect(seen: seq<Seen>): Result<Ports, PyError>
    decreases |seen|
  {
    if seen == [] then Ok(map[])
    else
      match Collect(seen[..|seen| - 1])
      case Err(e) => Err(e)
      case Ok(ports) => AddSeen(ports, seen[|seen| - 1])
  }

  function ServicesFrom(lines: seq<string>): Result<Ports, PyError> {
    Collect(SeenAll(lines))
  }

  /** `get_services()` */
  method GetServices(output: string) returns (r: Result<Ports, PyError>)
    ensures r == ServicesFrom(SplitOn(output, '\n'))
  {
    var lines := SplitOn(output, '\n');
    ghost var seen := SeenAll(lines);
    var ports: Ports := map[];
    var i := 0;
    while i < |lines|
      invariant i <= |lines|
      invariant Collect(seen[..i]) == Ok(ports)
      decreases |lines| - i
    {
      var s := ReadLine(lines[i]);
      assert seen[..i + 1][..i] == seen[..i];
      assert seen[i] == s;
      match s {
        case Ignored =>
        case Malformed =>
          NoServicesAfterError(seen, i + 1);
          return Err(IndexError);
        case Listens(procName, port) =>
          ports := ports[procName := port];
      }
      i := i + 1;
    }
    assert seen[..i] == seen;
    r := Ok(ports);
  }

  /** The tests the loop makes on one line. */
  method ReadLine(line: string) returns (s: Seen)
    ensures s == LineSeen(line)
  {
    if line == [] {
      return Ignored;
    }
    var chunks := SplitFields(line);
    if Listen !in chunks {
      return Ignored;
    }
    if |chunks| < 2 {
      return Malformed;
    }
    var procName := chunks[0];
    var fullName := chunks[|chunks| - 2];
    var parts := SplitOn(fullName, ':');
    if |parts| < 2 {
      return Malformed;
    }
    s := Listens(procName, parts[1]);
  }

  /** Once a prefix fails, the whole output fails with the same error. */
  lemma {:induction false} NoServicesAfterError(seen: seq<Seen>, n: nat)
    requires n <= |seen| && Collect(seen[..n]).Err?
    ensures Collect(seen) == Collect(seen[..n])
    decreases |seen| - n
  {
    if n == |seen| {
      assert seen[..n] == seen;
    } else {
      assert seen[..n + 1][..n] == seen[..n];
      NoServicesAfterError(seen, n + 1);
    }
  }

  /** The port fields of `name`'s listening lines, in output order. */
  function PortsOf(seen: seq<Seen>, name: string): seq<string>
    decreases |seen|
  {
    if seen == [] then []
    else
      var rest := PortsOf(seen[..|seen| - 1], name);
      match seen[|seen| - 1]
      case Listens(n, port) => if n == name then rest + [port] else rest
      case _ => rest
  }

  /**
   * A process is in the dictionary exactly when one of its lines listens,
   * and its entry is the port field of its LAST listening line: a later
   * line overwrites an earlier one.
   */
  lemma {:induction false} LastListenerWins(seen: seq<Seen>, name: string)
    requires Collect(seen).Ok?
    ensures var ports, ps := Collect(seen).value, PortsOf(seen, name);
      (name in ports <==> ps != []) && (name in ports ==> ports[name] == ps[|ps| - 1])
    decreases |seen|
  {
    if seen != [] {
      LastListenerWins(seen[..|seen| - 1], name);
    }
  }

  /** The loop fails, with `IndexError`, exactly when one of the lines is malformed. */
  lemma {:induction false} FailsIffMalformed(seen: seq<Seen>)
    ensures Collect(seen).Err? <==> Malformed in seen
    ensures Collect(seen).Err? ==> Collect(seen).error == IndexError
    decreases |seen|
  {
    if seen != [] {
      var init := seen[..|seen| - 1];
      FailsIffMalformed(init);
      assert seen == init + [seen[|seen| - 1]];
    }
  }

  /**
   * A `(LISTEN)` line is malformed exactly when it has a single field or
   * its second-to-last field holds no `:`.
   */
  lemma MalformedIff(line: string)
    requires line != [] && Listen in SplitFields(line)
    ensures var chunks := SplitFields(line);
      LineSeen(line).Malformed? <==> |chunks| < 2 || ':' !in chunks[|chunks| - 2]
  {
    var chunks := SplitFields(line);
    if |chunks| >= 2 {
      var parts := SplitOn(chunks[|chunks| - 2], ':');
      SplitOnSeveral(chunks[|chunks| - 2], ':');
      assert LineSeen(line) == if |parts| < 2 then Malformed else Listens(chunks[0], parts[1]);
    }
  }

  /**
   * The port field is what lies between the first and the second `:` of
   * the address: `*:22` gives `22`, `[::1]:631` gives the empty string.
   */
  lemma PortIsSecondField(host: string, port: string, rest: string)
    requires ':' !in host && ':' !in port
    ensures var parts := SplitOn(host + [':'] + port, ':'); |parts| >= 2 && parts[1] == port
    ensures var parts := SplitOn(host + [':'] + port + [':'] + rest, ':'); |parts| >= 2 && parts[1] == port
  {
    SplitOnCons(host, port, ':');
    SplitOnFree(port, ':');
    assert host + [':'] + port + [':'] + rest == host + [':'] + (port + [':'] + rest);
    SplitOnCons(host, port + [':'] + rest, ':');
    SplitOnCons(port, rest, ':');
  }
}
