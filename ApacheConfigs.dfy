/**
 * `ApacheConfig` (client/apacheparser.py): one parsed configuration file
 * and the views the inventory takes of it: the directive index built by
 * `scan_children`, the server-name-to-ports map of `get_domains`, the
 * include targets of `get_includes` and the cleaned text of `get_body`.
 *
 * The file's lines are a parameter of `Parse` and `GetBody`; `glob.glob`
 * is the parameter `glob`; the `DEBUG` and `APACHE_ROOT` settings and
 * `PARSE_CONF_COMMENTS` are parameters too.
 */
module ApacheConfigs {
  import opened Strings
  import opened Outcomes
  import opened LineJoin
  import opened ApacheNode
  import opened ApachePaths
  import opened Common
  import opened PortLists

  type Directives = map<string, seq<string>>
  type Domains = map<string, seq<seq<string>>>

  /** One entry of the list `scan_children` returns: `{'name', 'value', 'children'}`. */
  datatype Entry = Entry(name: string, value: string, children: seq<Entry>)

  /** `' '.join(child.values)` */
  function ValueOf(n: Node): string {
    Join(" ", n.values)
  }

  // ---------------------------------------------------------------------
  // The directive index
  // ---------------------------------------------------------------------

  /** The key a directive is filed under: its name if that is a key, else its lowercased name if that is, else its name. */
  function KeyFor(d: Directives, name: string): (k: string)
    ensures k == name || (k == Lower(name) && k in d && name !in d)
  {
    if name in d then name else if Lower(name) in d then Lower(name) else name
  }

  /** Files `value` at the end of the list for the key of `name`. */
  function AddValue(d: Directives, name: string, value: string): (r: Directives)
    ensures r.Keys == d.Keys + {KeyFor(d, name)}
    ensures forall k :: k in d && k != KeyFor(d, name) ==> r[k] == d[k]
  {
    var k := KeyFor(d, name);
    d[k := (if k in d then d[k] else []) + [value]]
  }

  /** The order in which `scan_children` files nodes: each node after all of its descendants. */
  function Postorder(cs: seq<Node>): seq<Node>
    decreases cs
  {
    if cs == [] then [] else Postorder(cs[0].children) + [cs[0]] + Postorder(cs[1..])
  }

  /** The index after filing the nodes `ns` in order. */
  function IndexAll(d: Directives, ns: seq<Node>): Directives
    decreases |ns|
  {
    if ns == [] then d else IndexAll(AddValue(d, ns[0].name, ValueOf(ns[0])), ns[1..])
  }

  /** The list `scan_children` returns for `cs`. */
  function Entries(cs: seq<Node>): (r: seq<Entry>)
    ensures |r| == |cs|
    ensures forall i :: 0 <= i < |cs| ==> r[i].name == cs[i].name && r[i].value == ValueOf(cs[i])
    decreases cs
  {
    if cs == [] then []
    else [Entry(cs[0].name, ValueOf(cs[0]), Entries(cs[0].children))] + Entries(cs[1..])
  }

  lemma {:induction false} PostorderAppend(a: seq<Node>, b: seq<Node>)
    ensures Postorder(a + b) == Postorder(a) + Postorder(b)
    decreases |a|
  {
    if a == [] {
      assert a + b == b;
    } else {
      assert (a + b)[0] == a[0] && (a + b)[1..] == a[1..] + b;
      PostorderAppend(a[1..], b);
    }
  }

  lemma PostorderSnoc(cs: seq<Node>, i: nat)
    requires i < |cs|
    ensures Postorder(cs[..i + 1]) == Postorder(cs[..i]) + Postorder(cs[i].children) + [cs[i]]
  {
    assert cs[..i + 1] == cs[..i] + [cs[i]];
    PostorderAppend(cs[..i], [cs[i]]);
    assert Postorder([cs[i]]) == Postorder(cs[i].children) + [cs[i]] + Postorder([]);
  }

  lemma {:induction false} IndexAllAppend(d: Directives, a: seq<Node>, b: seq<Node>)
    ensures IndexAll(d, a + b) == IndexAll(IndexAll(d, a), b)
    decreases |a|
  {
    if a == [] {
      assert a + b == b;
    } else {
      assert (a + b)[0] == a[0] && (a + b)[1..] == a[1..] + b;
      IndexAllAppend(AddValue(d, a[0].name, ValueOf(a[0])), a[1..], b);
    }
  }

  lemma {:induction false} EntriesAppend(a: seq<Node>, b: seq<Node>)
    ensures Entries(a + b) == Entries(a) + Entries(b)
    decreases |a|
  {
    if a == [] {
      assert a + b == b;
    } else {
      assert (a + b)[0] == a[0] && (a + b)[1..] == a[1..] + b;
      EntriesAppend(a[1..], b);
    }
  }

  lemma AddValueCases(d: Directives, name: string, value: string)
    ensures name in d ==> AddValue(d, name, value) == d[name := d[name] + [value]]
    ensures name !in d && Lower(name) in d ==>
              AddValue(d, name, value) == d[Lower(name) := d[Lower(name)] + [value]]
    ensures name !in d && Lower(name) !in d ==> AddValue(d, name, value) == d[name := [value]]
  {
    assert [] + [value] == [value];
  }

  /** Filing one more node after its subtree. */
  lemma ScanStep(d: Directives, cs: seq<Node>, i: nat, sub: Directives)
    requires i < |cs|
    requires sub == IndexAll(IndexAll(d, Postorder(cs[..i])), Postorder(cs[i].children))
    ensures AddValue(sub, cs[i].name, ValueOf(cs[i])) == IndexAll(d, Postorder(cs[..i + 1]))
  {
    PostorderSnoc(cs, i);
    IndexAllAppend(d, Postorder(cs[..i]), Postorder(cs[i].children));
    IndexAllAppend(d, Postorder(cs[..i]) + Postorder(cs[i].children), [cs[i]]);
    assert IndexAll(sub, [cs[i]]) == IndexAll(AddValue(sub, cs[i].name, ValueOf(cs[i])), []);
  }

  lemma EntriesSnoc(cs: seq<Node>, i: nat)
    requires i < |cs|
    ensures Entries(cs[..i + 1]) == Entries(cs[..i]) + [Entry(cs[i].name, ValueOf(cs[i]), Entries(cs[i].children))]
  {
    assert cs[..i + 1] == cs[..i] + [cs[i]];
    EntriesAppend(cs[..i], [cs[i]]);
  }

  /** The values of the nodes named exactly `k`, in order. */
  function ValuesNamed(ns: seq<Node>, k: string): (r: seq<string>)
    ensures |r| <= |ns|
  {
    if ns == [] then []
    else NodeValue(ns[0], k) + ValuesNamed(ns[1..], k)
  }

  /**
   * No node's lowercased name is a different name that is already a key or
   * that another node has: then the lowercase fallback never fires.
   */
  predicate NoCaseAlias(d: Directives, ns: seq<Node>) {
    forall i :: 0 <= i < |ns| && Lower(ns[i].name) != ns[i].name ==>
      Lower(ns[i].name) !in d && forall j :: 0 <= j < |ns| ==> ns[j].name != Lower(ns[i].name)
  }

  /** The tail of an alias-free sequence is alias-free after filing its head. */
  lemma NoCaseAliasTail(d: Directives, ns: seq<Node>)
    requires ns != [] && NoCaseAlias(d, ns)
    ensures KeyFor(d, ns[0].name) == ns[0].name
    ensures NoCaseAlias(AddValue(d, ns[0].name, ValueOf(ns[0])), ns[1..])
  {
    if Lower(ns[0].name) != ns[0].name {
      assert Lower(ns[0].name) !in d;
    }
    var d2 := AddValue(d, ns[0].name, ValueOf(ns[0]));
    forall i | 0 <= i < |ns[1..]| && Lower(ns[1..][i].name) != ns[1..][i].name
      ensures Lower(ns[1..][i].name) !in d2
      ensures forall j :: 0 <= j < |ns[1..]| ==> ns[1..][j].name != Lower(ns[1..][i].name)
    {
      assert ns[1..][i] == ns[i + 1];
      assert ns[0].name != Lower(ns[i + 1].name);
      forall j | 0 <= j < |ns[1..]| ensures ns[1..][j].name != Lower(ns[1..][i].name) {
        assert ns[1..][j] == ns[j + 1];
      }
    }
  }

  /**
   * Without case aliases, a name is a key of the index exactly when it was
   * a key before or some node has it, and its list is the old list
   * followed by the values of the nodes of that name, in filing order.
   */
  lemma IndexByName(d: Directives, ns: seq<Node>, k: string)
    requires NoCaseAlias(d, ns)
    ensures k in IndexAll(d, ns) <==> k in d || ValuesNamed(ns, k) != []
    ensures k in IndexAll(d, ns) ==> IndexAll(d, ns)[k] == ListAt(d, k) + ValuesNamed(ns, k)
  {
    IndexListAt(d, ns, k);
  }

  lemma {:induction false} IndexListAt(d: Directives, ns: seq<Node>, k: string)
    requires NoCaseAlias(d, ns)
    ensures k in IndexAll(d, ns) <==> k in d || ValuesNamed(ns, k) != []
    ensures ListAt(IndexAll(d, ns), k) == ListAt(d, k) + ValuesNamed(ns, k)
    decreases |ns|
  {
    if ns != [] {
      NoCaseAliasTail(d, ns);
      var d2 := AddValue(d, ns[0].name, ValueOf(ns[0]));
      IndexListAt(d2, ns[1..], k);
      AddValueListAt(d, ns[0], k);
      SeqAssoc(ListAt(d, k), NodeValue(ns[0], k), ValuesNamed(ns[1..], k));
    }
  }

  /** The value `n` contributes under `k`: its value when it has that name, else nothing. */
  function NodeValue(n: Node, k: string): seq<string> {
    if n.name == k then [ValueOf(n)] else []
  }

  /** Filing one node under its own name touches only that key. */
  lemma AddValueListAt(d: Directives, n: Node, k: string)
    requires KeyFor(d, n.name) == n.name
    ensures k in AddValue(d, n.name, ValueOf(n)) <==> k in d || NodeValue(n, k) != []
    ensures ListAt(AddValue(d, n.name, ValueOf(n)), k) == ListAt(d, k) + NodeValue(n, k)
  {
    if k != n.name {
      assert ListAt(d, k) + [] == ListAt(d, k);
    }
  }

  /**
   * Directives that differ from an existing key only in case are filed
   * under the lowercase key, and no key of their own spelling appears.
   */
  lemma LowercaseFallback(d: Directives, n: Node)
    requires n.name !in d && Lower(n.name) in d
    ensures n.name !in IndexAll(d, [n]) && Lower(n.name) in IndexAll(d, [n])
    ensures IndexAll(d, [n])[Lower(n.name)] == d[Lower(n.name)] + [ValueOf(n)]
  {
    assert IndexAll(d, [n]) == IndexAll(AddValue(d, n.name, ValueOf(n)), []);
  }

  /** Filing never removes a key and only appends to the lists. */
  lemma {:induction false} IndexOnlyAppends(d: Directives, ns: seq<Node>)
    ensures d.Keys <= IndexAll(d, ns).Keys
    ensures forall k :: k in d ==> d[k] <= IndexAll(d, ns)[k]
    decreases |ns|
  {
    if ns != [] {
      IndexOnlyAppends(AddValue(d, ns[0].name, ValueOf(ns[0])), ns[1..]);
    }
  }

  /**
   * A section holding one directive of the same name is filed after it:
   * `<Directory /a> <Directory /a/b> </Directory> </Directory>` indexes
   * `Directory` as `['/a/b', '/a']`.
   */
  lemma SectionAfterChild(s: Node, c: Node)
    requires s.children == [c] && c.children == [] && c.name == s.name
    ensures s.name in IndexAll(map[], Postorder([s]))
    ensures IndexAll(map[], Postorder([s]))[s.name] == [ValueOf(c), ValueOf(s)]
  {
    assert Postorder([c]) == [c] by {
      assert Postorder([c]) == Postorder([]) + [c] + Postorder([]);
    }
    assert Postorder([s]) == [c, s] by {
      assert Postorder([s]) == Postorder([c]) + [s] + Postorder([]);
    }
    assert KeyFor(map[], c.name) == c.name;
    var d1 := AddValue(map[], c.name, ValueOf(c));
    assert [] + [ValueOf(c)] == [ValueOf(c)];
    assert d1 == map[c.name := [ValueOf(c)]];
    assert KeyFor(d1, s.name) == s.name;
    assert [c, s][1..] == [s];
    assert IndexAll(map[], [c, s]) == IndexAll(d1, [s]);
    assert IndexAll(d1, [s]) == IndexAll(AddValue(d1, s.name, ValueOf(s)), []);
  }

  // ---------------------------------------------------------------------
  // Domains
  // ---------------------------------------------------------------------

  /** `sn[0].values[0]` exists for a virtual host that has a `ServerName` child. */
  predicate HasServerNameValue(v: Node) {
    var sn := Matching(v.children, "ServerName");
    sn != [] ==> sn[0].values != []
  }

  predicate ServerNamesHaveValues(root: Node) {
    forall v :: v in Matching(root.children, "VirtualHost") ==> HasServerNameValue(v)
  }

  /** The domain a virtual host is recorded under: the first value of its first `ServerName` child. */
  function DomainOf(v: Node): Option<string>
    requires HasServerNameValue(v)
  {
    var sn := Matching(v.children, "ServerName");
    if sn == [] then None else Some(sn[0].values[0])
  }

  /** `self.domains.setdefault(dn, []).append(ports)` for each virtual host in `vhs` that has a server name. */
  function DomainsFrom(d: Domains, vhs: seq<Node>): Domains
    requires forall v :: v in vhs ==> HasServerNameValue(v)
    decreases |vhs|
  {
    if vhs == [] then d
    else
      AddDomain(DomainsFrom(d, vhs[..|vhs| - 1]), vhs[|vhs| - 1])
  }

  /** Records one virtual host. */
  function AddDomain(d: Domains, v: Node): Domains
    requires HasServerNameValue(v)
  {
    match DomainOf(v)
    case None => d
    case Some(dn) => d[dn := (if dn in d then d[dn] else []) + [PortList(ValueOf(v))]]
  }

  /** What `v.findall('ServerName')` decides about recording `v`. */
  lemma AddDomainCases(d: Domains, v: Node, sn: seq<Node>)
    requires HasServerNameValue(v) && sn == Matching(v.children, "ServerName")
    ensures sn == [] ==> AddDomain(d, v) == d
    ensures sn != [] ==> (sn[0].values != [] &&
              AddDomain(d, v) == d[sn[0].values[0] := (if sn[0].values[0] in d then d[sn[0].values[0]] else []) + [PortList(ValueOf(v))]])
  {
  }

  lemma DomainsStep(d: Domains, vhs: seq<Node>, i: nat)
    requires i < |vhs| && forall v :: v in vhs ==> HasServerNameValue(v)
    ensures forall v :: v in vhs[..i] ==> HasServerNameValue(v)
    ensures DomainsFrom(d, vhs[..i + 1]) == AddDomain(DomainsFrom(d, vhs[..i]), vhs[i])
  {
    assert vhs[..i + 1][..i] == vhs[..i] && vhs[..i + 1][i] == vhs[i];
    assert forall v :: v in vhs[..i + 1] ==> v in vhs;
  }

  /** The port list `v` contributes under `dn`: one list when `v` is recorded under `dn`, else none. */
  function HostPorts(v: Node, dn: string): seq<seq<string>>
    requires HasServerNameValue(v)
  {
    if DomainOf(v) == Some(dn) then [PortList(ValueOf(v))] else []
  }

  /** The port lists of the virtual hosts recorded under `dn`, in order. */
  function PortsFor(vhs: seq<Node>, dn: string): seq<seq<string>>
    requires forall v :: v in vhs ==> HasServerNameValue(v)
    decreases |vhs|
  {
    if vhs == [] then []
    else PortsFor(vhs[..|vhs| - 1], dn) + HostPorts(vhs[|vhs| - 1], dn)
  }

  /** Recording one host touches only the key it is recorded under. */
  lemma AddDomainAt(d: Domains, v: Node, dn: string)
    requires HasServerNameValue(v)
    ensures dn in AddDomain(d, v) <==> dn in d || HostPorts(v, dn) != []
    ensures dn in AddDomain(d, v) ==>
              AddDomain(d, v)[dn] == (if dn in d then d[dn] else []) + HostPorts(v, dn)
  {
    if dn !in d && HostPorts(v, dn) != [] {
      assert [] + HostPorts(v, dn) == HostPorts(v, dn);
    }
    if dn in d && HostPorts(v, dn) == [] {
      assert d[dn] + [] == d[dn];
    }
  }

  /**
   * A domain is a key exactly when it was one already or some virtual
   * host is recorded under it, and its list is the old list followed by
   * those hosts' port lists in order; hosts without a `ServerName` add
   * nothing.
   */
  lemma DomainsByName(d: Domains, vhs: seq<Node>, dn: string)
    requires forall v :: v in vhs ==> HasServerNameValue(v)
    ensures dn in DomainsFrom(d, vhs) <==> dn in d || PortsFor(vhs, dn) != []
    ensures dn in DomainsFrom(d, vhs) ==>
              DomainsFrom(d, vhs)[dn] == ListAt(d, dn) + PortsFor(vhs, dn)
  {
    DomainsListAt(d, vhs, dn);
  }

  /** `m.get(k, [])`. */
  function ListAt<T>(m: map<string, seq<T>>, k: string): seq<T> {
    if k in m then m[k] else []
  }

  lemma {:induction false} DomainsListAt(d: Domains, vhs: seq<Node>, dn: string)
    requires forall v :: v in vhs ==> HasServerNameValue(v)
    ensures dn in DomainsFrom(d, vhs) <==> dn in d || PortsFor(vhs, dn) != []
    ensures ListAt(DomainsFrom(d, vhs), dn) == ListAt(d, dn) + PortsFor(vhs, dn)
    decreases |vhs|
  {
    if vhs != [] {
      var init := vhs[..|vhs| - 1];
      var v := vhs[|vhs| - 1];
      assert forall u :: u in init ==> u in vhs;
      DomainsListAt(d, init, dn);
      AddDomainListAt(DomainsFrom(d, init), v, dn);
      SeqAssoc(ListAt(d, dn), PortsFor(init, dn), HostPorts(v, dn));
    }
  }

  /** Recording one host touches only the key it is recorded under. */
  lemma AddDomainListAt(d: Domains, v: Node, dn: string)
    requires HasServerNameValue(v)
    ensures dn in AddDomain(d, v) <==> dn in d || HostPorts(v, dn) != []
    ensures ListAt(AddDomain(d, v), dn) == ListAt(d, dn) + HostPorts(v, dn)
  {
    AddDomainAt(d, v, dn);
    if dn !in AddDomain(d, v) {
      assert [] + [] == ListAt(d, dn) + HostPorts(v, dn);
    }
  }

  // ---------------------------------------------------------------------
  // Includes
  // ---------------------------------------------------------------------

  /** `server_root[1:-1]` when the root starts and ends with the same quotation mark. */
  function StripQuotes(s: string): (r: string)
    requires s != []
    ensures |r| <= |s|
  {
    if (s[0] == '"' || s[0] == '\'') && s[0] == s[|s| - 1] then
      (if |s| == 1 then [] else s[1..|s| - 1])
    else s
  }

  lemma QuotesRemoved(q: char, x: string)
    requires q == '"' || q == '\''
    ensures StripQuotes([q] + x + [q]) == x
  {
    var s := [q] + x + [q];
    assert s[1..|s| - 1] == x;
  }

  lemma UnquotedKept(s: string)
    requires s != [] && ((s[0] != '"' && s[0] != '\'') || s[0] != s[|s| - 1])
    ensures StripQuotes(s) == s
  {
  }

  /** A `ServerRoot` child, when there is one and `DEBUG` is off, has a value to strip quotes from. */
  predicate ServerRootUsable(root: Node, debug: bool) {
    var sr := First(Matching(root.children, "ServerRoot"));
    debug || sr.None? || Join("", sr.value.values) != []
  }

  /** The server root `get_includes` resolves include patterns against. */
  function ServerRootOf(root: Node, debug: bool, apacheRoot: string): string
    requires ServerRootUsable(root, debug)
  {
    if debug then apacheRoot
    else
      match First(Matching(root.children, "ServerRoot"))
      case None => apacheRoot
      case Some(sr) => StripQuotes(Join("", sr.values))
  }

  /** The patterns of the `Include` nodes `incs`, expanded by `glob`, concatenated in order. */
  function Globbed(glob: string -> seq<string>, serverRoot: string, incs: seq<Node>): seq<string>
    decreases |incs|
  {
    if incs == [] then []
    else Globbed(glob, serverRoot, incs[..|incs| - 1])
         + glob(PathJoin(serverRoot, Join("", incs[|incs| - 1].values)))
  }

  lemma GlobbedStep(glob: string -> seq<string>, serverRoot: string, incs: seq<Node>, i: nat)
    requires i < |incs|
    ensures Globbed(glob, serverRoot, incs[..i + 1])
            == Globbed(glob, serverRoot, incs[..i]) + glob(PathJoin(serverRoot, Join("", incs[i].values)))
  {
    assert incs[..i + 1][..i] == incs[..i] && incs[..i + 1][i] == incs[i];
  }

  /** The `Include` node `inc` names file `f` once its pattern is expanded. */
  predicate Expands(glob: string -> seq<string>, serverRoot: string, inc: Node, f: string) {
    f in glob(PathJoin(serverRoot, Join("", inc.values)))
  }

  /** A file is included exactly when some `Include` pattern expands to it. */
  lemma GlobbedMembers(glob: string -> seq<string>, serverRoot: string, incs: seq<Node>, f: string)
    ensures f in Globbed(glob, serverRoot, incs) <==>
              exists i :: 0 <= i < |incs| && Expands(glob, serverRoot, incs[i], f)
  {
    if f in Globbed(glob, serverRoot, incs) {
      var i := GlobbedWitness(glob, serverRoot, incs, f);
    }
    if exists i :: 0 <= i < |incs| && Expands(glob, serverRoot, incs[i], f) {
      var i :| 0 <= i < |incs| && Expands(glob, serverRoot, incs[i], f);
      GlobbedContains(glob, serverRoot, incs, f, i);
    }
  }

  /** Every included file comes from some `Include` node. */
  lemma {:induction false} GlobbedWitness(glob: string -> seq<string>, serverRoot: string, incs: seq<Node>, f: string)
    returns (i: nat)
    requires f in Globbed(glob, serverRoot, incs)
    ensures i < |incs| && Expands(glob, serverRoot, incs[i], f)
    decreases |incs|
  {
    var init := incs[..|incs| - 1];
    if f in Globbed(glob, serverRoot, init) {
      i := GlobbedWitness(glob, serverRoot, init, f);
      assert init[i] == incs[i];
    } else {
      i := |incs| - 1;
    }
  }

  /** Every file an `Include` node expands to is included. */
  lemma {:induction false} GlobbedContains(glob: string -> seq<string>, serverRoot: string, incs: seq<Node>, f: string, i: nat)
    requires i < |incs| && Expands(glob, serverRoot, incs[i], f)
    ensures f in Globbed(glob, serverRoot, incs)
    decreases |incs|
  {
    var init := incs[..|incs| - 1];
    if i < |init| {
      assert init[i] == incs[i];
      GlobbedContains(glob, serverRoot, init, f, i);
    }
  }

  /** `node.findall(name)` for a name without slashes: the direct children that match. */
  method FindChildren(n: Node, name: string) returns (r: seq<Node>)
    requires name != [] && '/' !in name
    ensures r == Matching(n.children, name)
  {
    r := FindAll(n, name);
    OneElementFindAll(n, name);
  }

  /** `node.find(name)` for a name without slashes: the first direct child that matches. */
  method FindChild(n: Node, name: string) returns (r: Option<Node>)
    requires name != [] && '/' !in name
    ensures r == First(Matching(n.children, name))
  {
    r := Find(n, name);
    OneElementQueries(n, name);
  }

  // ---------------------------------------------------------------------
  // The configuration object
  // ---------------------------------------------------------------------

  class ApacheConfig {
    var filename: Option<string>
    var root: Option<Node>
    var directives: Directives
    var domains: Domains

    constructor ()
      ensures filename == None && root == None && directives == map[] && domains == map[]
    {
      filename := None;
      root := None;
      directives := map[];
      domains := map[];
    }

    /**
     * `parse(filename)` on a readable file with lines `lines`: builds the
     * tree and indexes its nodes. A parse error leaves the tree and the
     * index as they were.
     */
    method Parse(name: string, lines: seq<string>) returns (err: Option<ParseError>)
      modifies this
      ensures filename == Some(name) && domains == old(domains)
      ensures ParseLines(lines).Err? ==>
                err == Some(ParseLines(lines).error) && root == old(root) && directives == old(directives)
      ensures ParseLines(lines).Ok? ==>
                err == None && root == Some(ParseLines(lines).value)
                && directives == IndexAll(old(directives), Postorder(ParseLines(lines).value.children))
    {
      filename := Some(name);
      var r := ApacheNode.Parse(lines);
      if r.Err? {
        return Some(r.error);
      }
      root := Some(r.value);
      var _ := ScanChildren(r.value.children);
      err := None;
    }

    /** `scan_children(children)`: files every node below `children`, each after its subtree. */
    method ScanChildren(children: seq<Node>) returns (body: seq<Entry>)
      modifies this
      ensures directives == IndexAll(old(directives), Postorder(children))
      ensures body == Entries(children)
      ensures filename == old(filename) && root == old(root) && domains == old(domains)
      decreases children
    {
      body := [];
      var i := 0;
      while i < |children|
        invariant i <= |children|
        invariant directives == IndexAll(old(directives), Postorder(children[..i]))
        invariant body == Entries(children[..i])
        invariant filename == old(filename) && root == old(root) && domains == old(domains)
      {
        var child := children[i];
        var name := child.name;
        var value := Join(" ", child.values);
        var sub := ScanChildren(child.children);
        EntriesSnoc(children, i);
        body := body + [Entry(name, value, sub)];
        ScanStep(old(directives), children, i, directives);
        File(name, value);
        i := i + 1;
      }
      assert children[..i] == children;
    }

    /** Appends `value` to the list of `name`, or of its lowercase form when only that is a key. */
    method File(name: string, value: string)
      modifies this
      ensures directives == AddValue(old(directives), name, value)
      ensures filename == old(filename) && root == old(root) && domains == old(domains)
    {
      AddValueCases(directives, name, value);
      if name in directives {
        directives := directives[name := directives[name] + [value]];
      } else if Lower(name) in directives {
        directives := directives[Lower(name) := directives[Lower(name)] + [value]];
      } else {
        directives := directives[name := [value]];
      }
    }

    function GetDirectives(): Directives
      reads this
    {
      directives
    }

    /**
     * `get_domains()`: for each `VirtualHost` child of the root that has a
     * `ServerName` child, appends the port list of its arguments under the
     * first value of that `ServerName`.
     */
    method GetDomains() returns (r: Domains)
      requires root.Some? && ServerNamesHaveValues(root.value)
      modifies this
      ensures filename == old(filename) && root == old(root) && directives == old(directives)
      ensures domains == DomainsFrom(old(domains), Matching(root.value.children, "VirtualHost"))
      ensures r == domains
    {
      var vh := FindChildren(root.value, "VirtualHost");
      var i := 0;
      while i < |vh|
        invariant i <= |vh|
        invariant domains == DomainsFrom(old(domains), vh[..i])
        invariant filename == old(filename) && root == old(root) && directives == old(directives)
      {
        DomainsStep(old(domains), vh, i);
        RecordHost(vh[i]);
        i := i + 1;
      }
      assert vh[..i] == vh;
      r := domains;
    }

    /** The body of the loop of `get_domains` for one virtual host `v`. */
    method RecordHost(v: Node)
      requires HasServerNameValue(v)
      modifies this
      ensures domains == AddDomain(old(domains), v)
      ensures filename == old(filename) && root == old(root) && directives == old(directives)
    {
      var ports := ExtractPorts(Join(" ", v.values));
      var sn := FindChildren(v, "ServerName");
      AddDomainCases(domains, v, sn);
      if sn != [] {
        var dn := sn[0].values[0];
        if dn in domains {
          domains := domains[dn := domains[dn] + [ports]];
        } else {
          assert [] + [ports] == [ports];
          domains := domains[dn := [ports]];
        }
      }
    }

    /**
     * `get_includes()`: the files the `Include` children of the root
     * expand to, each pattern resolved against the server root.
     */
    method GetIncludes(debug: bool, apacheRoot: string, glob: string -> seq<string>) returns (included: seq<string>)
      requires root.Some? && ServerRootUsable(root.value, debug)
      ensures included == Globbed(glob, ServerRootOf(root.value, debug, apacheRoot), Matching(root.value.children, "Include"))
    {
      var serverRoot := ServerRoot(debug, apacheRoot);
      var incs := FindChildren(root.value, "Include");
      included := [];
      var i := 0;
      while i < |incs|
        invariant i <= |incs|
        invariant included == Globbed(glob, serverRoot, incs[..i])
      {
        var pattern := Join("", incs[i].values);
        GlobbedStep(glob, serverRoot, incs, i);
        included := included + glob(PathJoin(serverRoot, pattern));
        i := i + 1;
      }
      assert incs[..i] == incs;
    }

    /** The server root of `get_includes`: `APACHE_ROOT` under `DEBUG` or without a `ServerRoot`, else its unquoted value. */
    method ServerRoot(debug: bool, apacheRoot: string) returns (serverRoot: string)
      requires root.Some? && ServerRootUsable(root.value, debug)
      ensures serverRoot == ServerRootOf(root.value, debug, apacheRoot)
    {
      var srNode := FindChild(root.value, "ServerRoot");
      if debug {
        serverRoot := apacheRoot;
      } else if srNode.Some? {
        serverRoot := Join("", srNode.value.values);
        if (serverRoot[0] == '"' || serverRoot[0] == '\'') && serverRoot[0] == serverRoot[|serverRoot| - 1] {
          serverRoot := if |serverRoot| == 1 then [] else serverRoot[1..|serverRoot| - 1];
        }
      } else {
        serverRoot := apacheRoot;
      }
    }

    /** `get_body()`: the cleaned text of the file, or `''` when it cannot be read. */
    method GetBody(contents: Option<seq<string>>, keepComments: bool) returns (r: Result<string, PyError>)
      ensures contents.None? ==> r == Ok("")
      ensures contents.Some? ==> r == Clean(contents.value, Chars("#"), keepComments)
    {
      if contents.None? {
        return Ok("");
      }
      var lines := new StringList(contents.value);
      r := CleanBody(Lines(lines), Chars("#"), keepComments);
    }
  }
}
