/**
 * `ApacheConfigList` (client/inventory.py): one record per Apache
 * configuration file, starting from `APACHE_CONF` and following each
 * file's Include targets depth first.
 *
 * Parsing a file is the oracle `facts`: its body, directives, domains and
 * include targets. Python's bound on the depth of recursion is `depth`,
 * the number of nested `recurse_apache_includes` frames the interpreter
 * allows; running out is the `RuntimeError` Python raises.
 */
module IncludeWalker {
  import opened Outcomes
  import opened ApacheConfigs

  /** What parsing one file yields. */
  datatype Facts = Facts(body: string, directives: Directives, domains: Domains, included: seq<string>)

  /** One entry of `apache_configs`. */
  datatype Record = Record(body: string, filename: string, directives: Directives,
                           domains: Domains, included: seq<string>)

  /** The position of the first `x` in `xs`. */
  function FirstIndex(xs: seq<string>, x: string): (r: nat)
    requires x in xs
    ensures r < |xs| && xs[r] == x && x !in xs[..r]
  {
    if xs[0] == x then 0
    else
      assert xs == [xs[0]] + xs[1..];
      1 + FirstIndex(xs[1..], x)
  }

  /** `del xs[xs.index(x)]`, with the `ValueError` of a missing `x` ignored. */
  function RemoveFirst(xs: seq<string>, x: string): (r: seq<string>)
    ensures x !in xs ==> r == xs
    ensures x in xs ==> var i := FirstIndex(xs, x); r == xs[..i] + xs[i + 1..]
  {
    if x !in xs then xs
    else
      var i := FirstIndex(xs, x);
      assert xs == xs[..i] + [x] + xs[i + 1..];
      xs[..i] + xs[i + 1..]
  }

  /** Exactly one `x` goes, if there is one; every other entry stays. */
  lemma RemoveFirstCounts(xs: seq<string>, x: string)
    ensures multiset(RemoveFirst(xs, x)) == multiset(xs) - multiset{x}
    ensures |RemoveFirst(xs, x)| == if x in xs then |xs| - 1 else |xs|
  {
    if x in xs {
      var i := FirstIndex(xs, x);
      assert xs == xs[..i] + [x] + xs[i + 1..];
    }
  }

  /** The record of `filename`, included from `parent`: the parent is dropped from its targets once. */
  function RecordOf(facts: string -> Facts, filename: string, parent: string): (r: Record)
    ensures r.filename == filename && r.included == RemoveFirst(facts(filename).included, parent)
  {
    var f := facts(filename);
    Record(f.body, filename, f.directives, f.domains, RemoveFirst(f.included, parent))
  }

  /** Records appended by one `recurse_apache_includes(parent, includes)`, or its error. */
  function WalkList(facts: string -> Facts, parent: string, includes: seq<string>, depth: nat)
    : Result<seq<Record>, PyError>
    decreases depth, |includes|
  {
    if depth == 0 then Err(RuntimeError)
    else if includes == [] then Ok([])
    else
      var r := RecordOf(facts, includes[0], parent);
      match WalkList(facts, includes[0], r.included, depth - 1)
      case Err(e) => Err(e)
      case Ok(nested) =>
        match WalkList(facts, parent, includes[1..], depth)
        case Err(e) => Err(e)
        case Ok(rest) => Ok([r] + nested + rest)
  }

  /** What `get_apache_configs()` returns on a fresh list. */
  function ApacheConfigsOf(facts: string -> Facts, confExists: bool, conf: string, depth: nat)
    : Result<seq<Record>, PyError>
  {
    if !confExists then Ok([])
    else
      var r := RecordOf(facts, conf, conf);
      match WalkList(facts, conf, r.included, depth)
      case Err(e) => Err(e)
      case Ok(rest) => Ok([r] + rest)
  }

  /** `done` in front of a successful outcome. */
  function Prepend(done: seq<Record>, r: Result<seq<Record>, PyError>): Result<seq<Record>, PyError> {
    if r.Ok? then Ok(done + r.value) else r
  }

  class ApacheConfigList {
    var apacheConfigs: seq<Record>

    constructor()
      ensures apacheConfigs == []
    {
      apacheConfigs := [];
    }

    /**
     * `recurse_apache_includes(fn, includes_list)`: on success it appends
     * the records of `WalkList`; on an error the list holds whatever was
     * appended before it.
     */
    method RecurseApacheIncludes(facts: string -> Facts, fn: string, includes: seq<string>, depth: nat)
      returns (error: Option<PyError>)
      modifies this
      ensures error.None? <==> WalkList(facts, fn, includes, depth).Ok?
      ensures error.Some? ==> error.value == WalkList(facts, fn, includes, depth).error
      ensures error.None? ==> apacheConfigs == old(apacheConfigs) + WalkList(facts, fn, includes, depth).value
      decreases depth
    {
      if depth == 0 {
        return Some(RuntimeError);
      }
      ghost var done: seq<Record> := [];
      assert includes[0..] == includes;
      PrependNothing(WalkList(facts, fn, includes, depth));
      var i := 0;
      while i < |includes|
        invariant i <= |includes|
        invariant apacheConfigs == old(apacheConfigs) + done
        invariant WalkList(facts, fn, includes, depth) == Prepend(done, WalkList(facts, fn, includes[i..], depth))
        decreases |includes| - i
      {
        var iFn := includes[i];
        var iApache := RecordOf(facts, iFn, fn);
        apacheConfigs := apacheConfigs + [iApache];
        ghost var before := apacheConfigs;
        error := RecurseApacheIncludes(facts, iFn, iApache.included, depth - 1);
        WalkStep(facts, fn, includes, i, depth);
        if error.Some? {
          return;
        }
        ghost var nested := WalkList(facts, iFn, iApache.included, depth - 1).value;
        Regroup(old(apacheConfigs), done, iApache, nested);
        PrependAssoc(done, [iApache] + nested, WalkList(facts, fn, includes[i + 1..], depth));
        done := done + ([iApache] + nested);
        i := i + 1;
      }
      assert includes[i..] == [];
      error := None;
    }

    /** `recurse()`: the record of `conf`, then the walk of its targets. */
    method Recurse(facts: string -> Facts, conf: string, depth: nat) returns (error: Option<PyError>)
      modifies this
      ensures var w := ApacheConfigsOf(facts, true, conf, depth);
        (error.None? <==> w.Ok?) && (error.Some? ==> error.value == w.error)
        && (error.None? ==> apacheConfigs == old(apacheConfigs) + w.value)
    {
      var apache := RecordOf(facts, conf, conf);
      apacheConfigs := apacheConfigs + [apache];
      ghost var before := apacheConfigs;
      error := RecurseApacheIncludes(facts, conf, apache.included, depth);
      ghost var w := WalkList(facts, conf, apache.included, depth);
      ConfigsUnfold(facts, conf, depth);
      if w.Ok? {
        assert apacheConfigs == before + w.value;
        assert old(apacheConfigs) + [apache] + w.value == old(apacheConfigs) + ([apache] + w.value);
      }
    }

    /** `get_apache_configs()`; `confExists` is `os.path.exists(APACHE_CONF)`. */
    method GetApacheConfigs(facts: string -> Facts, confExists: bool, conf: string, depth: nat)
      returns (r: Result<seq<Record>, PyError>)
      modifies this
      ensures r == Prepend(old(apacheConfigs), ApacheConfigsOf(facts, confExists, conf, depth))
      ensures r.Ok? ==> apacheConfigs == r.value
    {
      if confExists {
        var error := Recurse(facts, conf, depth);
        if error.Some? {
          return Err(error.value);
        }
      } else {
        assert apacheConfigs + [] == apacheConfigs;
      }
      r := Ok(apacheConfigs);
    }
  }

  lemma PrependAssoc(a: seq<Record>, b: seq<Record>, r: Result<seq<Record>, PyError>)
    ensures Prepend(a, Prepend(b, r)) == Prepend(a + b, r)
  {
    if r.Ok? {
      assert a + (b + r.value) == (a + b) + r.value;
    }
  }

  lemma Regroup(a: seq<Record>, done: seq<Record>, r: Record, nested: seq<Record>)
    ensures a + done + [r] + nested == a + (done + ([r] + nested))
  {
  }

  /** The record of `conf` comes first, then the walk of its targets. */
  lemma ConfigsUnfold(facts: string -> Facts, conf: string, depth: nat)
    ensures var r := RecordOf(facts, conf, conf);
      ApacheConfigsOf(facts, true, conf, depth) == Prepend([r], WalkList(facts, conf, r.included, depth))
  {
  }

  lemma PrependNothing(r: Result<seq<Record>, PyError>)
    ensures Prepend([], r) == r
  {
    if r.Ok? {
      assert [] + r.value == r.value;
    }
  }

  /** One turn of the walk's loop: the record of `includes[i]`, its own walk, then the rest. */
  lemma WalkStep(facts: string -> Facts, parent: string, includes: seq<string>, i: nat, depth: nat)
    requires depth > 0 && i < |includes|
    ensures var r := RecordOf(facts, includes[i], parent);
      var nested := WalkList(facts, includes[i], r.included, depth - 1);
      WalkList(facts, parent, includes[i..], depth)
        == if nested.Err? then nested else Prepend([r] + nested.value, WalkList(facts, parent, includes[i + 1..], depth))
  {
    assert includes[i..][0] == includes[i] && includes[i..][1..] == includes[i + 1..];
  }

  // ---------------------------------------------------------------------
  // What the walk produces
  // ---------------------------------------------------------------------

  /** The file names of the records, in order. */
  function Filenames(rs: seq<Record>): (r: seq<string>)
    ensures |r| == |rs| && forall i :: 0 <= i < |rs| ==> r[i] == rs[i].filename
  {
    seq(|rs|, i requires 0 <= i < |rs| => rs[i].filename)
  }

  /** Without the configuration file there are no records; with it, its own record comes first. */
  lemma RootRecordFirst(facts: string -> Facts, confExists: bool, conf: string, depth: nat)
    requires ApacheConfigsOf(facts, confExists, conf, depth).Ok?
    ensures var rs := ApacheConfigsOf(facts, confExists, conf, depth).value;
      (rs == [] <==> !confExists)
      && (confExists ==> rs[0].filename == conf
                         && rs[0].included == RemoveFirst(facts(conf).included, conf))
  {
  }

  /**
   * Every target of the list gets its own record, with the including file
   * dropped once from its targets.
   */
  lemma {:induction false} EveryTargetRecorded(facts: string -> Facts, parent: string, includes: seq<string>, depth: nat)
    requires WalkList(facts, parent, includes, depth).Ok?
    ensures var rs := WalkList(facts, parent, includes, depth).value;
      |rs| >= |includes|
      && forall i :: 0 <= i < |includes| ==> RecordOf(facts, includes[i], parent) in rs
    decreases |includes|
  {
    if includes != [] {
      var r := RecordOf(facts, includes[0], parent);
      var nested := WalkList(facts, includes[0], r.included, depth - 1).value;
      EveryTargetRecorded(facts, parent, includes[1..], depth);
      var rest := WalkList(facts, parent, includes[1..], depth).value;
      assert WalkList(facts, parent, includes, depth).value == [r] + nested + rest;
      forall i | 1 <= i < |includes|
        ensures RecordOf(facts, includes[i], parent) in rest
      {
        assert includes[1..][i - 1] == includes[i];
      }
    }
  }

  /**
   * A file that includes only itself is not pruned on its first visit
   * (the parent is dropped, not the file) and is pruned on the second:
   * it gets two records.
   */
  lemma SelfIncludeRecordedTwice(facts: string -> Facts, parent: string, f: string, depth: nat)
    requires f != parent && facts(f).included == [f] && depth >= 3
    ensures WalkList(facts, parent, [f], depth) == Ok([RecordOf(facts, f, parent), RecordOf(facts, f, f)])
    ensures RecordOf(facts, f, parent).included == [f] && RecordOf(facts, f, f).included == []
  {
    var first := RecordOf(facts, f, parent);
    var second := RecordOf(facts, f, f);
    assert first.included == [f];
    assert second.included == [];
    assert WalkList(facts, f, [], depth - 2) == Ok([]);
    assert [f][1..] == [];
    assert [second] + [] + [] == [second];
    assert WalkList(facts, f, [f], depth - 1) == Ok([second]);
    assert WalkList(facts, parent, [], depth) == Ok([]);
    assert [first] + [second] + [] == [first, second];
  }

  /** Two files that include each other: the second's include of the first is dropped. */
  lemma TwoCycleIsPruned(facts: string -> Facts, a: string, b: string, depth: nat)
    requires a != b && facts(a).included == [b] && facts(b).included == [a] && depth >= 2
    ensures ApacheConfigsOf(facts, true, a, depth) == Ok([RecordOf(facts, a, a), RecordOf(facts, b, a)])
    ensures RecordOf(facts, a, a).included == [b] && RecordOf(facts, b, a).included == []
  {
    var ra := RecordOf(facts, a, a);
    var rb := RecordOf(facts, b, a);
    assert ra.included == [b];
    assert rb.included == [];
    assert WalkList(facts, b, [], depth - 1) == Ok([]);
    assert [b][1..] == [];
    assert [rb] + [] + [] == [rb];
    assert WalkList(facts, a, [b], depth) == Ok([rb]);
    assert [ra] + [rb] == [ra, rb];
  }

  /** The files of a three-cycle `a -> b -> c -> a`. */
  predicate ThreeCycle(facts: string -> Facts, a: string, b: string, c: string) {
    a != b && b != c && c != a
    && facts(a).included == [b] && facts(b).included == [c] && facts(c).included == [a]
  }

  /** Along a three-cycle no include is ever the parent, so the walk goes on until the depth runs out. */
  lemma {:induction false} CycleWalkExhausts(facts: string -> Facts, a: string, b: string, c: string, depth: nat)
    requires ThreeCycle(facts, a, b, c)
    ensures WalkList(facts, a, [b], depth) == Err(RuntimeError)
    ensures WalkList(facts, b, [c], depth) == Err(RuntimeError)
    ensures WalkList(facts, c, [a], depth) == Err(RuntimeError)
    decreases depth
  {
    if depth > 0 {
      CycleWalkExhausts(facts, a, b, c, depth - 1);
      assert RecordOf(facts, b, a).included == [c];
      assert RecordOf(facts, c, b).included == [a];
      assert RecordOf(facts, a, c).included == [b];
    }
  }

  /** With a three-cycle of includes, `get_apache_configs` exceeds the recursion depth. */
  lemma ThreeCycleExhausts(facts: string -> Facts, a: string, b: string, c: string, depth: nat)
    requires ThreeCycle(facts, a, b, c)
    ensures ApacheConfigsOf(facts, true, a, depth) == Err(RuntimeError)
  {
    CycleWalkExhausts(facts, a, b, c, depth);
    assert RecordOf(facts, a, a).included == [b];
  }

  /** The files of a diamond: `a` includes `b` and `c`, and both include `d`. */
  predicate Diamond(facts: string -> Facts, a: string, b: string, c: string, d: string) {
    a != b && a != c && a != d && b != c && b != d && c != d
    && facts(a).included == [b, c] && facts(b).included == [d] && facts(c).included == [d]
    && facts(d).included == []
  }

  /** `d` reached from `b`, with nothing below it. */
  lemma LeafWalk(facts: string -> Facts, p: string, d: string, depth: nat)
    requires depth >= 2 && facts(d).included == [] && d != p
    ensures WalkList(facts, p, [d], depth) == Ok([RecordOf(facts, d, p)])
  {
    assert RecordOf(facts, d, p).included == [];
    assert WalkList(facts, d, [], depth - 1) == Ok([]);
    assert WalkList(facts, p, [], depth) == Ok([]);
    assert [d][1..] == [];
    assert [RecordOf(facts, d, p)] + [] + [] == [RecordOf(facts, d, p)];
  }

  /** There is no set of visited files: a file reached along two paths gets two records. */
  lemma DiamondRecordsTwice(facts: string -> Facts, a: string, b: string, c: string, d: string, depth: nat)
    requires Diamond(facts, a, b, c, d) && depth >= 3
    ensures ApacheConfigsOf(facts, true, a, depth).Ok?
    ensures Filenames(ApacheConfigsOf(facts, true, a, depth).value) == [a, b, d, c, d]
  {
    LeafWalk(facts, b, d, depth - 1);
    LeafWalk(facts, c, d, depth - 1);
    var rb := RecordOf(facts, b, a);
    var rc := RecordOf(facts, c, a);
    assert rb.included == [d] && rc.included == [d];
    assert RecordOf(facts, a, a).included == [b, c];
    assert [b, c][1..] == [c] && [c][1..] == [];
    assert WalkList(facts, a, [], depth) == Ok([]);
    assert [rc] + [RecordOf(facts, d, c)] + [] == [rc, RecordOf(facts, d, c)];
    assert WalkList(facts, a, [c], depth) == Ok([rc, RecordOf(facts, d, c)]);
    assert [rb] + [RecordOf(facts, d, b)] + [rc, RecordOf(facts, d, c)]
      == [rb, RecordOf(facts, d, b), rc, RecordOf(facts, d, c)];
    assert WalkList(facts, a, [b, c], depth)
      == Ok([rb, RecordOf(facts, d, b), rc, RecordOf(facts, d, c)]);
    assert [RecordOf(facts, a, a)] + [rb, RecordOf(facts, d, b), rc, RecordOf(facts, d, c)]
      == [RecordOf(facts, a, a), rb, RecordOf(facts, d, b), rc, RecordOf(facts, d, c)];
  }
}
