/**
 * The path queries of `ApacheNode` (client/apacheparser.py): `findall` and
 * `find` split a path on `/` and walk down from a node through the children
 * whose names match each element, compared case-insensitively.
 *
 * `_findall` and `_find` take the elements with `pathelements.pop(0)` from
 * one list shared by the whole recursion, so a sibling examined after a
 * matching subtree sees the path that subtree left behind.
 * `FindAllAsWritten` and `FindAsWritten` model that; `FindAll` and `Find`
 * walk by position in the path, as the documentation of the two functions
 * says, and are what the rest of the model uses. The two agree on every
 * path of one element, which is the only kind the client passes.
 */
module ApachePaths {
  import opened Strings
  import opened Outcomes
  import opened ApacheNode

  /** `path.strip('/').split('/')` */
  function PathElements(path: string): (r: seq<string>)
    ensures |r| >= 1
  {
    SplitOn(StripChar(path, '/'), '/')
  }

  /** `child.name.lower() == next.lower()` */
  predicate NameMatches(n: Node, element: string) {
    Lower(n.name) == Lower(element)
  }

  function First(ns: seq<Node>): Option<Node> {
    if ns == [] then None else Some(ns[0])
  }

  // ---------------------------------------------------------------------
  // The walk by position in the path
  // ---------------------------------------------------------------------

  /** Every node reached from `n` by the elements `elements[i..]`, in tree order. */
  function FindAllAt(n: Node, elements: seq<string>, i: nat): seq<Node>
    requires i <= |elements|
    decreases n
  {
    if i == |elements| then [n] else FindAllIn(n.children, elements, i)
  }

  function FindAllIn(cs: seq<Node>, elements: seq<string>, i: nat): seq<Node>
    requires i < |elements|
    decreases cs
  {
    if cs == [] then []
    else
      (if NameMatches(cs[0], elements[i]) then FindAllAt(cs[0], elements, i + 1) else [])
      + FindAllIn(cs[1..], elements, i)
  }

  /** `node.findall(path)`: an empty or all-slash path gives `[node]`. */
  function FindAll(n: Node, path: string): seq<Node> {
    var elements := PathElements(path);
    if elements[0] == [] then [n] else FindAllAt(n, elements, 0)
  }

  /** The first node reached from `n` by `elements[i..]`, or `None`. */
  function FindAt(n: Node, elements: seq<string>, i: nat): Option<Node>
    requires i <= |elements|
    decreases n
  {
    if i == |elements| then Some(n) else FindIn(n.children, elements, i)
  }

  function FindIn(cs: seq<Node>, elements: seq<string>, i: nat): Option<Node>
    requires i < |elements|
    decreases cs
  {
    if cs == [] then None
    else if NameMatches(cs[0], elements[i]) && FindAt(cs[0], elements, i + 1).Some? then
      FindAt(cs[0], elements, i + 1)
    else FindIn(cs[1..], elements, i)
  }

  /** `node.find(path)`: an empty or all-slash path gives the node itself. */
  function Find(n: Node, path: string): Option<Node> {
    var elements := PathElements(path);
    if elements[0] == [] then Some(n) else FindAt(n, elements, 0)
  }

  /** `find` returns the first node `findall` returns, and `None` when there is none. */
  lemma {:induction false} FindAtIsFirst(n: Node, elements: seq<string>, i: nat)
    requires i <= |elements|
    ensures FindAt(n, elements, i) == First(FindAllAt(n, elements, i))
    decreases n
  {
    if i < |elements| {
      FindInIsFirst(n.children, elements, i);
    }
  }

  lemma {:induction false} FindInIsFirst(cs: seq<Node>, elements: seq<string>, i: nat)
    requires i < |elements|
    ensures FindIn(cs, elements, i) == First(FindAllIn(cs, elements, i))
    decreases cs
  {
    if cs != [] {
      var here := if NameMatches(cs[0], elements[i]) then FindAllAt(cs[0], elements, i + 1) else [];
      assert FindAllIn(cs, elements, i) == here + FindAllIn(cs[1..], elements, i);
      FindAtIsFirst(cs[0], elements, i + 1);
      FindInIsFirst(cs[1..], elements, i);
      if here != [] {
        assert (here + FindAllIn(cs[1..], elements, i))[0] == here[0];
      } else {
        assert here + FindAllIn(cs[1..], elements, i) == FindAllIn(cs[1..], elements, i);
      }
    }
  }

  lemma FindIsFirst(n: Node, path: string)
    ensures Find(n, path) == First(FindAll(n, path))
  {
    if PathElements(path)[0] != [] {
      FindAtIsFirst(n, PathElements(path), 0);
    }
  }

  // ---------------------------------------------------------------------
  // Paths
  // ---------------------------------------------------------------------

  lemma {:induction false} StripCharEmpty(s: string, c: char)
    ensures StripChar(s, c) == [] <==> forall i :: 0 <= i < |s| ==> s[i] == c
    decreases |s|
  {
    if s != [] {
      if s[0] == c {
        StripCharEmpty(s[1..], c);
        assert forall i :: 1 <= i < |s| ==> s[i] == s[1..][i - 1];
      } else if s[|s| - 1] == c {
        StripCharEmpty(s[..|s| - 1], c);
        assert s[..|s| - 1][0] == s[0];
      }
    }
  }

  /** The first path element is empty exactly when the path is empty or all slashes. */
  lemma PathElementsEmpty(path: string)
    ensures PathElements(path)[0] == [] <==> forall i :: 0 <= i < |path| ==> path[i] == '/'
  {
    var s := StripChar(path, '/');
    StripCharEmpty(path, '/');
    if s != [] {
      assert FieldEnd(s, '/') > 0;
    }
  }

  /** `findall` of an empty or all-slash path is `[node]`; `find` of one is the node. */
  lemma EmptyPathIsSelf(n: Node, path: string)
    requires forall i :: 0 <= i < |path| ==> path[i] == '/'
    ensures FindAll(n, path) == [n] && Find(n, path) == Some(n)
  {
    PathElementsEmpty(path);
  }

  /** A name without slashes is a path of one element. */
  lemma OneElementPath(name: string)
    requires name != [] && '/' !in name
    ensures PathElements(name) == [name]
  {
    assert name[0] in name && name[|name| - 1] in name;
    assert StripChar(name, '/') == name;
    FieldEndOfFree(name, '/', []);
    assert name + [] == name;
    assert name[..|name|] == name;
  }

  // ---------------------------------------------------------------------
  // Paths of one element
  // ---------------------------------------------------------------------

  /** The children whose names match `element`, in child order. */
  function Matching(cs: seq<Node>, element: string): (r: seq<Node>)
    ensures forall x :: x in r <==> x in cs && NameMatches(x, element)
    ensures |r| <= |cs|
  {
    if cs == [] then []
    else (if NameMatches(cs[0], element) then [cs[0]] else []) + Matching(cs[1..], element)
  }

  lemma {:induction false} FindAllInOne(cs: seq<Node>, element: string)
    ensures FindAllIn(cs, [element], 0) == Matching(cs, element)
    decreases cs
  {
    if cs != [] {
      FindAllInOne(cs[1..], element);
    }
  }

  /**
   * For a path of one element, `findall` is exactly the direct children
   * whose names match case-insensitively, in child order, and `find` is the
   * first of them or `None`.
   */
  lemma OneElementQueries(n: Node, name: string)
    requires name != [] && '/' !in name
    ensures FindAll(n, name) == Matching(n.children, name)
    ensures Find(n, name) == First(Matching(n.children, name))
  {
    OneElementFindAll(n, name);
    FindIsFirst(n, name);
  }

  /** The `findall` half of `OneElementQueries`. */
  lemma OneElementFindAll(n: Node, name: string)
    requires name != [] && '/' !in name
    ensures FindAll(n, name) == Matching(n.children, name)
  {
    OneElementPath(name);
    FindAllInOne(n.children, name);
  }

  // ---------------------------------------------------------------------
  // The walk with the shared path list
  // ---------------------------------------------------------------------

  /** What a search found, and the shared path list it leaves. */
  datatype Search = Search(found: seq<Node>, path: seq<string>)

  /** `self._findall(pathelements)`, which consumes `pathelements` as it goes. */
  function FindAllAsWritten(n: Node, path: seq<string>): (r: Search)
    ensures |r.path| <= |path|
    decreases n
  {
    if path == [] then Search([n], path)
    else FindAllChildrenAsWritten(n.children, path[0], path[1..])
  }

  /** The `for child in self.children` loop of `_findall`, after `next = pathelements.pop(0)`. */
  function FindAllChildrenAsWritten(cs: seq<Node>, next: string, path: seq<string>): (r: Search)
    ensures |r.path| <= |path|
    decreases cs
  {
    if cs == [] then Search([], path)
    else if NameMatches(cs[0], next) then
      var here := FindAllAsWritten(cs[0], path);
      var later := FindAllChildrenAsWritten(cs[1..], next, here.path);
      Search(here.found + later.found, later.path)
    else FindAllChildrenAsWritten(cs[1..], next, path)
  }

  /** `node.findall(path)` as written. */
  function NodeFindAllAsWritten(n: Node, path: string): seq<Node> {
    var elements := PathElements(path);
    if elements[0] == [] then [n] else FindAllAsWritten(n, elements).found
  }

  /** What a search found, and the shared path list it leaves. */
  datatype Lookup = Lookup(found: Option<Node>, path: seq<string>)

  /** `self._find(pathelements)`, which consumes `pathelements` as it goes. */
  function FindAsWritten(n: Node, path: seq<string>): (r: Lookup)
    ensures |r.path| <= |path|
    decreases n
  {
    if path == [] then Lookup(Some(n), path)
    else FindChildrenAsWritten(n.children, path[0], path[1..])
  }

  /** The loop of `_find`; an `ApacheNode` is always true, so `if result` means found. */
  function FindChildrenAsWritten(cs: seq<Node>, next: string, path: seq<string>): (r: Lookup)
    ensures |r.path| <= |path|
    decreases cs
  {
    if cs == [] then Lookup(None, path)
    else if NameMatches(cs[0], next) then
      var here := FindAsWritten(cs[0], path);
      if here.found.Some? then here else FindChildrenAsWritten(cs[1..], next, here.path)
    else FindChildrenAsWritten(cs[1..], next, path)
  }

  /** `node.find(path)` as written. */
  function NodeFindAsWritten(n: Node, path: string): Option<Node> {
    var elements := PathElements(path);
    if elements[0] == [] then Some(n) else FindAsWritten(n, elements).found
  }

  lemma {:induction false} OneElementAllAsWritten(cs: seq<Node>, next: string)
    ensures FindAllChildrenAsWritten(cs, next, []) == Search(Matching(cs, next), [])
    decreases cs
  {
    if cs != [] {
      OneElementAllAsWritten(cs[1..], next);
    }
  }

  lemma {:induction false} OneElementAsWritten(cs: seq<Node>, next: string)
    ensures FindChildrenAsWritten(cs, next, []) == Lookup(First(Matching(cs, next)), [])
    decreases cs
  {
    if cs != [] {
      OneElementAsWritten(cs[1..], next);
    }
  }

  /**
   * On a path of one element the shared list is empty after the `pop`, so
   * the code as written and the walk by position give the same answers.
   */
  lemma OneElementAgrees(n: Node, name: string)
    requires name != [] && '/' !in name
    ensures NodeFindAllAsWritten(n, name) == FindAll(n, name)
    ensures NodeFindAsWritten(n, name) == Find(n, name)
  {
    OneElementPath(name);
    OneElementQueries(n, name);
    assert [name][1..] == [];
    OneElementAllAsWritten(n.children, name);
    OneElementAsWritten(n.children, name);
  }

  /**
   * Siblings are searched independently: every matching child is searched
   * with the same rest of the path, so the results for a run of siblings
   * are the results for its parts one after the other.
   */
  lemma {:induction false} FindAllInAppend(a: seq<Node>, b: seq<Node>, elements: seq<string>, i: nat)
    requires i < |elements|
    ensures FindAllIn(a + b, elements, i) == FindAllIn(a, elements, i) + FindAllIn(b, elements, i)
    decreases |a|
  {
    if a == [] {
      assert a + b == b;
    } else {
      assert (a + b)[0] == a[0] && (a + b)[1..] == a[1..] + b;
      FindAllInAppend(a[1..], b, elements, i);
    }
  }

  /** The first match in a run of siblings is the first in its first part that has one, else in the rest. */
  lemma {:induction false} FindInAppend(a: seq<Node>, b: seq<Node>, elements: seq<string>, i: nat)
    requires i < |elements|
    ensures FindIn(a + b, elements, i)
         == if FindIn(a, elements, i).Some? then FindIn(a, elements, i) else FindIn(b, elements, i)
    decreases |a|
  {
    if a == [] {
      assert a + b == b;
    } else {
      assert (a + b)[0] == a[0] && (a + b)[1..] == a[1..] + b;
      FindInAppend(a[1..], b, elements, i);
    }
  }

  lemma PathAB()
    ensures PathElements("A/B") == ["A", "B"]
  {
    assert StripChar("A/B", '/') == "A/B";
    assert FieldEnd("B", '/') == 1;
    assert SplitOn("B", '/') == ["B"];
    assert FieldEnd("A/B", '/') == 1;
    assert "A/B"[..1] == "A" && "A/B"[2..] == "B";
  }

  /**
   * Two sections `A`, each with a child `B`: `findall('A/B')` as written
   * returns the first `B` and then the second `A` itself, because the first
   * subtree has emptied the shared path; the walk by position returns both
   * `B`s.
   */
  lemma FindAllAsWrittenSharesPath()
    ensures var b1, b2 := Node("B", ["1"], false, []), Node("B", ["2"], false, []);
            var a1, a2 := Node("A", [], true, [b1]), Node("A", [], true, [b2]);
            var root := Node(RootName, [], true, [a1, a2]);
            NodeFindAllAsWritten(root, "A/B") == [b1, a2] && FindAll(root, "A/B") == [b1, b2]
  {
    var b1, b2 := Node("B", ["1"], false, []), Node("B", ["2"], false, []);
    var a1, a2 := Node("A", [], true, [b1]), Node("A", [], true, [b2]);
    var root := Node(RootName, [], true, [a1, a2]);
    PathAB();
    assert FindAllAsWritten(a1, ["B"]) == Search([b1], []) by {
      assert FindAllAsWritten(b1, []) == Search([b1], []);
    }
    assert FindAllChildrenAsWritten([a2], "A", []) == Search([a2], []) by {
      assert [a2][1..] == [];
    }
    assert FindAllChildrenAsWritten([a1, a2], "A", ["B"]) == Search([b1, a2], []) by {
      assert [a1, a2][1..] == [a2];
    }
    assert FindAllAt(a1, ["A", "B"], 1) == [b1] by {
      assert FindAllIn([b1], ["A", "B"], 1) == [b1];
    }
    assert FindAllAt(a2, ["A", "B"], 1) == [b2] by {
      assert FindAllIn([b2], ["A", "B"], 1) == [b2];
    }
    assert FindAllIn([a1, a2], ["A", "B"], 0) == [b1, b2] by {
      assert [a1, a2][1..] == [a2];
      assert FindAllIn([a2], ["A", "B"], 0) == [b2];
    }
  }

  /**
   * Two sections `A`, the first without children and the second with a
   * child `B`: `find('A/B')` as written returns the second `A`, because the
   * fruitless search in the first has emptied the shared path; the walk by
   * position returns the `B`.
   */
  lemma FindAsWrittenSharesPath()
    ensures var b := Node("B", [], false, []);
            var a1, a2 := Node("A", [], true, []), Node("A", [], true, [b]);
            var root := Node(RootName, [], true, [a1, a2]);
            NodeFindAsWritten(root, "A/B") == Some(a2) && Find(root, "A/B") == Some(b)
  {
    var b := Node("B", [], false, []);
    var a1, a2 := Node("A", [], true, []), Node("A", [], true, [b]);
    PathAB();
    assert FindAsWritten(a1, ["B"]) == Lookup(None, []);
    assert FindChildrenAsWritten([a2], "A", []) == Lookup(Some(a2), []) by {
      assert FindAsWritten(a2, []) == Lookup(Some(a2), []);
    }
    assert FindChildrenAsWritten([a1, a2], "A", ["B"]) == Lookup(Some(a2), []) by {
      assert [a1, a2][1..] == [a2];
    }
    assert FindAt(a1, ["A", "B"], 1) == None;
    assert FindAt(a2, ["A", "B"], 1) == Some(b) by {
      assert FindIn([b], ["A", "B"], 1) == Some(b);
    }
    assert FindIn([a1, a2], ["A", "B"], 0) == Some(b) by {
      assert [a1, a2][1..] == [a2];
      assert FindIn([a2], ["A", "B"], 0) == Some(b);
    }
  }
}
