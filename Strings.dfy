/**
 * The Python 2 `str` operations that the configuration scrapers rely on,
 * written out over `seq<char>`: whitespace stripping, the three ways the
 * code splits a line (`str.split()`, `re.split('\s*', ...)` and
 * `str.split(c)`), joining, and ASCII case mapping.
 *
 * Whitespace is the set Python 2 uses for byte strings and for `\s` in a
 * regular expression without the UNICODE flag: space, tab, newline,
 * vertical tab, form feed and carriage return.
 */
module Strings {

  predicate IsSpace(c: char) {
    c == ' ' || '\t' <= c <= '\r'
  }

  predicate NoSpace(s: string) {
    forall i :: 0 <= i < |s| ==> !IsSpace(s[i])
  }

  predicate AllSpace(s: string) {
    forall i :: 0 <= i < |s| ==> IsSpace(s[i])
  }

  /** Neither end of `s` is whitespace (the shape of a stripped string). */
  predicate Trimmed(s: string) {
    s == [] || (!IsSpace(s[0]) && !IsSpace(s[|s| - 1]))
  }

  predicate StartsWith(s: string, prefix: string) {
    |prefix| <= |s| && s[..|prefix|] == prefix
  }

  predicate EndsWithChar(s: string, c: char) {
    |s| > 0 && s[|s| - 1] == c
  }

  // ---------------------------------------------------------------------
  // Stripping
  // ---------------------------------------------------------------------

  function LStrip(s: string): (r: string)
    ensures |r| <= |s|
    ensures r == [] || !IsSpace(r[0])
  {
    if s != [] && IsSpace(s[0]) then LStrip(s[1..]) else s
  }

  function RStrip(s: string): (r: string)
    ensures |r| <= |s|
    ensures r == [] || !IsSpace(r[|r| - 1])
  {
    if s != [] && IsSpace(s[|s| - 1]) then RStrip(s[..|s| - 1]) else s
  }

  /** `lstrip` drops a prefix of whitespace. */
  lemma {:induction false} LStripShape(s: string)
    ensures LStrip(s) == s[|s| - |LStrip(s)|..]
    ensures AllSpace(s[..|s| - |LStrip(s)|])
    decreases |s|
  {
    if s != [] && IsSpace(s[0]) {
      LStripShape(s[1..]);
      assert s[1..][|s| - 1 - |LStrip(s)|..] == s[|s| - |LStrip(s)|..];
      assert forall i :: 1 <= i < |s| - |LStrip(s)| ==> s[i] == s[1..][i - 1];
    }
  }

  /** `rstrip` drops a suffix of whitespace. */
  lemma {:induction false} RStripShape(s: string)
    ensures RStrip(s) == s[..|RStrip(s)|]
    ensures AllSpace(s[|RStrip(s)|..])
    decreases |s|
  {
    if s != [] && IsSpace(s[|s| - 1]) {
      var t := s[..|s| - 1];
      RStripShape(t);
      assert t[..|RStrip(s)|] == s[..|RStrip(s)|];
      assert forall i :: |RStrip(s)| <= i < |t| ==> s[i] == t[i];
    }
  }

  /** Python's `s.strip()`. */
  function Strip(s: string): (r: string)
    ensures Trimmed(r)
    ensures |r| <= |s|
  {
    var l := LStrip(s);
    var r := RStrip(l);
    RStripShape(l);
    assert r != [] ==> r[0] == l[0];
    r
  }

  /** Where the stripped text starts in `s`. */
  function StripStart(s: string): (k: nat)
    ensures k + |Strip(s)| <= |s|
  {
    LStripShape(s);
    |s| - |LStrip(s)|
  }

  /** `s.strip()` is a slice of `s`. */
  lemma StripSlice(s: string)
    ensures Strip(s) == s[StripStart(s)..StripStart(s) + |Strip(s)|]
  {
    var l := LStrip(s);
    LStripShape(s);
    RStripShape(l);
  }

  lemma StripTrimmed(s: string)
    requires Trimmed(s)
    ensures Strip(s) == s
  {
  }

  lemma {:induction false} LStripSpaces(a: string, x: string)
    requires AllSpace(a)
    requires x == [] || !IsSpace(x[0])
    ensures LStrip(a + x) == x
  {
    if a != [] {
      assert (a + x)[1..] == a[1..] + x;
      LStripSpaces(a[1..], x);
    } else {
      assert a + x == x;
    }
  }

  lemma {:induction false} RStripSpaces(x: string, b: string)
    requires AllSpace(b)
    requires x == [] || !IsSpace(x[|x| - 1])
    ensures RStrip(x + b) == x
  {
    if b != [] {
      assert (x + b)[..|x + b| - 1] == x + b[..|b| - 1];
      RStripSpaces(x, b[..|b| - 1]);
    }
  }

  /** Stripping removes exactly the whitespace padding around a trimmed core. */
  lemma StripPadded(a: string, x: string, b: string)
    requires AllSpace(a) && AllSpace(b) && Trimmed(x)
    ensures Strip(a + x + b) == x
  {
    assert a + x + b == a + (x + b);
    if x == [] {
      assert AllSpace(a + b);
      LStripSpaces(a + b, []);
      assert a + b + [] == a + b;
      assert a + x + b == a + b;
      assert LStrip(a + x + b) == [];
    } else {
      LStripSpaces(a, x + b);
      RStripSpaces(x, b);
    }
  }

  /** `s.strip(c)` for a single character `c`, as `path.strip('/')`. */
  function StripChar(s: string, c: char): (r: string)
    ensures |r| <= |s|
    ensures r == [] || (r[0] != c && r[|r| - 1] != c)
    decreases |s|
  {
    if s == [] then []
    else if s[0] == c then StripChar(s[1..], c)
    else if s[|s| - 1] == c then StripChar(s[..|s| - 1], c)
    else s
  }

  // ---------------------------------------------------------------------
  // Splitting and joining
  // ---------------------------------------------------------------------

  /** Length of the leading run of non-whitespace characters. */
  function TokenEnd(s: string): (k: nat)
    ensures k <= |s|
    ensures forall i :: 0 <= i < k ==> !IsSpace(s[i])
    ensures k < |s| ==> IsSpace(s[k])
  {
    if s == [] || IsSpace(s[0]) then 0 else 1 + TokenEnd(s[1..])
  }

  /** Length of the leading run of whitespace characters. */
  function SpaceEnd(s: string): (k: nat)
    ensures k <= |s|
    ensures forall i :: 0 <= i < k ==> IsSpace(s[i])
    ensures k < |s| ==> !IsSpace(s[k])
  {
    if s == [] || !IsSpace(s[0]) then 0 else 1 + SpaceEnd(s[1..])
  }

  /** Python's `s.split()`: the maximal runs of non-whitespace, in order. */
  function Split(s: string): (r: seq<string>)
    ensures forall t :: t in r ==> t != [] && NoSpace(t)
    decreases |s|
  {
    if s == [] then []
    else if IsSpace(s[0]) then Split(s[1..])
    else
      var k := TokenEnd(s);
      [s[..k]] + Split(s[k..])
  }

  /** `s.split()` is empty exactly when `s` is all whitespace. */
  lemma {:induction false} SplitEmptyIff(s: string)
    ensures Split(s) == [] <==> AllSpace(s)
    decreases |s|
  {
    if s != [] && IsSpace(s[0]) {
      SplitEmptyIff(s[1..]);
      if AllSpace(s[1..]) {
        forall i | 1 <= i < |s| ensures IsSpace(s[i]) {
          assert s[i] == s[1..][i - 1];
        }
      }
    }
  }

  lemma {:induction false} TokenEndAppend(a: string, b: string)
    requires a == [] || b == [] || IsSpace(a[|a| - 1]) || IsSpace(b[0])
    ensures TokenEnd(a + b) == (if TokenEnd(a) < |a| then TokenEnd(a) else |a| + TokenEnd(b))
    ensures TokenEnd(a) == |a| && a != [] ==> TokenEnd(b) == 0
  {
    if a != [] && !IsSpace(a[0]) {
      assert (a + b)[1..] == a[1..] + b;
      TokenEndAppend(a[1..], b);
    } else if a == [] {
      assert a + b == b;
    }
  }

  /**
   * Splitting distributes over a concatenation whose seam is whitespace.
   */
  lemma {:induction false} SplitAppend(a: string, b: string)
    requires a == [] || b == [] || IsSpace(a[|a| - 1]) || IsSpace(b[0])
    ensures Split(a + b) == Split(a) + Split(b)
    decreases |a|
  {
    if a == [] {
      assert a + b == b;
    } else if IsSpace(a[0]) {
      SplitAppend(a[1..], b);
      SplitAppendSpace(a, b);
    } else if TokenEnd(a) < |a| {
      SplitAppend(a[TokenEnd(a)..], b);
      SplitAppendToken(a, b);
    } else {
      SplitAppendWhole(a, b);
    }
  }

  lemma SplitAppendSpace(a: string, b: string)
    requires a != [] && IsSpace(a[0])
    requires Split(a[1..] + b) == Split(a[1..]) + Split(b)
    ensures Split(a + b) == Split(a) + Split(b)
  {
    assert (a + b)[1..] == a[1..] + b;
    assert (a + b)[0] == a[0];
  }

  lemma SplitAppendToken(a: string, b: string)
    requires a != [] && !IsSpace(a[0]) && TokenEnd(a) < |a|
    requires a == [] || b == [] || IsSpace(a[|a| - 1]) || IsSpace(b[0])
    requires Split(a[TokenEnd(a)..] + b) == Split(a[TokenEnd(a)..]) + Split(b)
    ensures Split(a + b) == Split(a) + Split(b)
  {
    var k := TokenEnd(a);
    TokenEndAppend(a, b);
    SplitAtToken(a);
    SplitAtToken(a + b);
    SliceOfAppend(a, b, k);
    SeqAssoc([a[..k]], Split(a[k..]), Split(b));
  }

  /** One step of `Split` on a line that starts with a token. */
  lemma SplitAtToken(s: string)
    requires s != [] && !IsSpace(s[0])
    ensures Split(s) == [s[..TokenEnd(s)]] + Split(s[TokenEnd(s)..])
  {
  }

  lemma SliceOfAppend(a: string, b: string, k: nat)
    requires k <= |a|
    ensures (a + b)[..k] == a[..k] && (a + b)[k..] == a[k..] + b
  {
  }

  lemma SeqAssoc<T>(x: seq<T>, y: seq<T>, z: seq<T>)
    ensures x + (y + z) == (x + y) + z
  {
  }

  lemma SplitAppendWhole(a: string, b: string)
    requires a != [] && !IsSpace(a[0]) && TokenEnd(a) == |a|
    requires a == [] || b == [] || IsSpace(a[|a| - 1]) || IsSpace(b[0])
    ensures Split(a + b) == Split(a) + Split(b)
  {
    TokenEndAppend(a, b);
    assert (a + b)[0] == a[0];
    assert (a + b)[..|a|] == a;
    assert (a + b)[|a|..] == b;
    assert a[..|a|] == a;
    assert a[|a|..] == [];
    assert Split(a) == [a];
  }

  lemma SplitToken(t: string)
    requires t != [] && NoSpace(t)
    ensures Split(t) == [t]
  {
    assert TokenEnd(t) == |t|;
    assert t[..|t|] == t;
  }

  /** Python's `sep.join(parts)`. */
  function Join(sep: string, parts: seq<string>): (r: string)
  {
    if |parts| == 0 then ""
    else if |parts| == 1 then parts[0]
    else parts[0] + sep + Join(sep, parts[1..])
  }

  lemma JoinAppend(sep: string, parts: seq<string>, last: string)
    requires parts != []
    ensures Join(sep, parts + [last]) == Join(sep, parts) + sep + last
  {
    if |parts| > 1 {
      assert (parts + [last])[1..] == parts[1..] + [last];
      JoinAppend(sep, parts[1..], last);
    }
  }

  /** A character found in no part and not in the separator is not in the join. */
  lemma {:induction false} JoinFree(sep: string, parts: seq<string>, c: char)
    requires c !in sep && forall p :: p in parts ==> c !in p
    ensures c !in Join(sep, parts)
    decreases |parts|
  {
    if |parts| >= 1 {
      assert parts[0] in parts;
    }
    if |parts| > 1 {
      assert forall p :: p in parts[1..] ==> p in parts;
      JoinFree(sep, parts[1..], c);
    }
  }

  /** A join starts with its first part and ends with its last part. */
  lemma JoinEnds(sep: string, parts: seq<string>)
    requires |parts| > 0 && parts[0] != [] && parts[|parts| - 1] != []
    ensures Join(sep, parts) != [] && Join(sep, parts)[0] == parts[0][0]
    ensures var j, l := Join(sep, parts), parts[|parts| - 1]; j[|j| - 1] == l[|l| - 1]
  {
    var n := |parts|;
    if n > 1 {
      assert parts == parts[..n - 1] + [parts[n - 1]];
      JoinAppend(sep, parts[..n - 1], parts[n - 1]);
    }
  }

  /**
   * `' '.join(...).split()` gives the tokens back: joining whitespace-free
   * tokens with single spaces and splitting again is the identity.
   */
  lemma {:induction false} SplitJoin(toks: seq<string>)
    requires forall t :: t in toks ==> t != [] && NoSpace(t)
    ensures Split(Join(" ", toks)) == toks
  {
    if |toks| == 1 {
      assert toks[0] in toks;
      SplitToken(toks[0]);
    } else if |toks| > 1 {
      assert toks[0] in toks;
      assert forall t :: t in toks[1..] ==> t in toks;
      SplitToken(toks[0]);
      SplitJoin(toks[1..]);
      assert toks[0] + " " + Join(" ", toks[1..]) == (toks[0] + " ") + Join(" ", toks[1..]);
      SplitAppend(toks[0] + " ", Join(" ", toks[1..]));
      SplitAppend(toks[0], " ");
      assert Split(" ") == [];
      assert toks == [toks[0]] + toks[1..];
    }
  }
  /** Two tokens joined by one space split back into the two tokens. */
  lemma SplitPair(a: string, b: string)
    requires a != [] && NoSpace(a) && b != [] && NoSpace(b)
    ensures Split(a + " " + b) == [a, b]
  {
    var toks := [a, b];
    assert Join(" ", toks) == a + " " + b by {
      assert toks[1..] == [b];
    }
    SplitJoin(toks);
  }


  /**
   * `re.split('\s*', s)` in Python 2, which ignores empty matches and so
   * splits on every maximal run of whitespace: the fields between the runs,
   * with an empty first (last) field when `s` starts (ends) with whitespace.
   */
  function SplitFields(s: string): (r: seq<string>)
    ensures |r| >= 1
    ensures forall t :: t in r ==> NoSpace(t)
    decreases |s|
  {
    var k := TokenEnd(s);
    if k == |s| then [s]
    else
      var m := k + SpaceEnd(s[k..]);
      [s[..k]] + SplitFields(s[m..])
  }

  /** Length of the leading run of characters other than `c`. */
  function FieldEnd(s: string, c: char): (k: nat)
    ensures k <= |s| && c !in s[..k]
    ensures k < |s| ==> s[k] == c
  {
    if s == [] || s[0] == c then 0 else 1 + FieldEnd(s[1..], c)
  }

  /** Python's `s.split(c)` for one separator character. */
  function SplitOn(s: string, c: char): (r: seq<string>)
    ensures |r| >= 1
    ensures forall t :: t in r ==> c !in t
    decreases |s|
  {
    var k := FieldEnd(s, c);
    if k == |s| then [s] else [s[..k]] + SplitOn(s[k + 1..], c)
  }

  /** `c.join(s.split(c)) == s`. */
  lemma {:induction false} JoinSplitOn(s: string, c: char)
    ensures Join([c], SplitOn(s, c)) == s
    decreases |s|
  {
    var k := FieldEnd(s, c);
    if k < |s| {
      JoinSplitOn(s[k + 1..], c);
      assert s == s[..k] + [c] + s[k + 1..];
    } else {
      assert s[..k] == s;
    }
  }

  /** `c.join(parts).split(c) == parts` when no part contains `c`. */
  lemma {:induction false} SplitOnJoin(parts: seq<string>, c: char)
    requires |parts| >= 1
    requires forall p :: p in parts ==> c !in p
    ensures SplitOn(Join([c], parts), c) == parts
  {
    assert parts[0] in parts;
    if |parts| == 1 {
      SplitOnFree(parts[0], c);
    } else {
      assert Join([c], parts) == parts[0] + [c] + Join([c], parts[1..]);
      SplitOnCons(parts[0], Join([c], parts[1..]), c);
      assert forall p :: p in parts[1..] ==> p in parts;
      SplitOnJoin(parts[1..], c);
      assert parts == [parts[0]] + parts[1..];
    }
  }

  /** `(a + c + rest).split(c)` when `a` holds no `c`. */
  lemma SplitOnCons(a: string, rest: string, c: char)
    requires c !in a
    ensures SplitOn(a + [c] + rest, c) == [a] + SplitOn(rest, c)
  {
    var s := a + ([c] + rest);
    assert a + [c] + rest == s;
    FieldEndOfFree(a, c, [c] + rest);
    assert s[..|a|] == a;
    assert s[|a| + 1..] == rest;
  }

  /** A string without the separator splits into itself alone. */
  lemma SplitOnFree(s: string, c: char)
    requires c !in s
    ensures SplitOn(s, c) == [s]
  {
    FieldEndOfFree(s, c, []);
    assert s + [] == s;
  }

  /** `s.split(c)[1]` exists exactly when `c` occurs in `s`. */
  lemma SplitOnSeveral(s: string, c: char)
    ensures |SplitOn(s, c)| >= 2 <==> c in s
  {
    if c !in s {
      SplitOnFree(s, c);
    }
  }

  lemma {:induction false} FieldEndOfFree(a: string, c: char, b: string)
    requires c !in a
    requires b == [] || b[0] == c
    ensures FieldEnd(a + b, c) == |a|
  {
    if a == [] {
      assert a + b == b;
    } else {
      assert (a + b)[1..] == a[1..] + b;
      FieldEndOfFree(a[1..], c, b);
    }
  }

  // ---------------------------------------------------------------------
  // ASCII case mapping (Python 2 byte strings in the C locale)
  // ---------------------------------------------------------------------

  predicate IsLowerChar(c: char) {
    'a' <= c <= 'z'
  }

  function LowerChar(c: char): char {
    if 'A' <= c <= 'Z' then (c as int + 32) as char else c
  }

  function UpperChar(c: char): char {
    if 'a' <= c <= 'z' then (c as int - 32) as char else c
  }

  /** Python's `s.lower()`. */
  function Lower(s: string): (r: string)
    ensures |r| == |s|
  {
    seq(|s|, i requires 0 <= i < |s| => LowerChar(s[i]))
  }

  /**
   * The directive-name normalisation of the Apache parser:
   * `name[0].upper() + name[1:]` when `name[0].islower()`.
   */
  function Capitalize(name: string): (r: string)
    ensures |r| == |name|
  {
    if name != [] && IsLowerChar(name[0]) then [UpperChar(name[0])] + name[1..] else name
  }

  /**
   * Capitalising changes only the case of the first letter: it is
   * idempotent, never leaves a lower-case first letter, and does not change
   * the lower-cased name (so case-insensitive lookups are unaffected).
   */
  lemma CapitalizeProperties(name: string)
    ensures Capitalize(Capitalize(name)) == Capitalize(name)
    ensures Capitalize(name) == [] || !IsLowerChar(Capitalize(name)[0])
    ensures name != [] ==> Capitalize(name)[1..] == name[1..]
    ensures Lower(Capitalize(name)) == Lower(name)
  {
  }
}
