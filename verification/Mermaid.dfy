/**
 The Mermaid flowcharts of a module manager.

 A submodule is drawn by looking its name up in the manager again, so what is
 drawn is the unfolding of the names: a node of the drawing of a module is a path
 of submodule positions starting at it.
 */
module Mermaid {

  // -------------------------------------------------------------------- codes

  predicate IsCode(s: string) {
    forall i :: 0 <= i < |s| ==> 'A' <= s[i] <= 'Z'
  }

  function Letter(d: int): char
    requires 0 <= d < 26
  {
    'A' + d as char
  }

  function Digit(c: char): (d: int)
    requires 'A' <= c <= 'Z'
    ensures 0 <= d < 26 && Letter(d) == c
  {
    c as int - 'A' as int
  }

  ghost function Pow26(n: nat): (p: nat)
    ensures p > 0
  {
    if n == 0 then 1 else 26 * Pow26(n - 1)
  }

  /** The last `n` digits of `k` in base 26. */
  ghost function Code(n: nat, k: nat): (s: string)
    ensures |s| == n && IsCode(s)
  {
    if n == 0 then "" else Code(n - 1, k / 26) + [Letter(k % 26)]
  }

  ghost function Value(s: string): nat
    requires IsCode(s)
  {
    if s == "" then 0 else 26 * Value(s[..|s| - 1]) + Digit(s[|s| - 1])
  }

  lemma {:induction false} ValueBound(s: string)
    requires IsCode(s)
    ensures Value(s) < Pow26(|s|)
  {
    if s != "" {
      ValueBound(s[..|s| - 1]);
    }
  }

  lemma {:induction false} CodeOfValue(s: string)
    requires IsCode(s)
    ensures Code(|s|, Value(s)) == s
  {
    if s != "" {
      CodeOfValue(s[..|s| - 1]);
      assert s == s[..|s| - 1] + [s[|s| - 1]];
    }
  }

  lemma SplitMod(a: nat, b: nat, p: nat)
    requires p > 0 && b < 26
    ensures (26 * a + b) % (26 * p) == 26 * (a % p) + b
  {
    var q, r := a / p, a % p;
    var x, m := 26 * r + b, 26 * p;
    assert a == q * p + r;
    assert 26 * (q * p) == q * m;
    assert x + q * m == 26 * a + b && 0 <= x < m;
    ModUnique(x, q, m);
  }

  lemma ModUnique(x: nat, q: nat, m: nat)
    requires x < m
    ensures (x + q * m) % m == x
  {
    var y := x + q * m;
    var q', r := y / m, y % m;
    assert y == q' * m + r;
    assert (q' - q) * m == x - r;
    SmallMultiple(q' - q, m);
  }

  lemma SmallMultiple(d: int, m: int)
    requires -m < d * m < m
    ensures d == 0
  {
    if d > 0 {
      MulMonotone(1, d, m);
    } else if d < 0 {
      MulMonotone(d, -1, m);
    }
  }

  lemma {:induction false} MulMonotone(a: int, b: int, m: int)
    requires a <= b && 0 <= m
    ensures a * m <= b * m
    decreases b - a
  {
    if a < b {
      MulMonotone(a + 1, b, m);
      assert (a + 1) * m == a * m + m;
    }
  }

  lemma {:induction false} ValueOfCode(n: nat, k: nat)
    ensures Value(Code(n, k)) == k % Pow26(n)
  {
    if n > 0 {
      var s := Code(n, k);
      assert s[..n - 1] == Code(n - 1, k / 26);
      ValueOfCode(n - 1, k / 26);
      SplitMod(k / 26, k % 26, Pow26(n - 1));
    }
  }

  /** The next code: a carry turns a `Z` into an `A`. */
  ghost function Next(s: string): (r: string)
    ensures |r| == |s|
    ensures IsCode(s) ==> IsCode(r)
  {
    if s == "" then ""
    else if !('A' <= s[|s| - 1] < 'Z') then Next(s[..|s| - 1]) + ['A']
    else s[..|s| - 1] + [s[|s| - 1] + 1 as char]
  }

  lemma Carry(k: nat)
    ensures if k % 26 == 25 then (k + 1) % 26 == 0 && (k + 1) / 26 == k / 26 + 1
            else (k + 1) % 26 == k % 26 + 1 && (k + 1) / 26 == k / 26
  {
  }

  lemma {:induction false} NextOfCode(n: nat, k: nat)
    ensures Next(Code(n, k)) == Code(n, k + 1)
  {
    if n > 0 {
      var s := Code(n, k);
      assert s[..n - 1] == Code(n - 1, k / 26);
      Carry(k);
      if k % 26 == 25 {
        NextOfCode(n - 1, k / 26);
      }
    }
  }

  /** Adding a letter is adding one modulo 26 to the length of the code. */
  lemma NextAddsOne(s: string)
    requires IsCode(s)
    ensures Value(Next(s)) == (Value(s) + 1) % Pow26(|s|)
  {
    hide Next, Code, Value, Pow26;
    var n, k := |s|, Value(s);
    CodeOfValue(s);
    NextOfCode(n, k);
    ValueOfCode(n, k + 1);
  }

  /** The carry stops at `i`, or runs through if `i` is -1. */
  ghost predicate CarryStopsAt(s: string, r: string, i: int)
    requires IsCode(s) && |r| == |s|
  {
    && -1 <= i < |s|
    && (forall k :: 0 <= k < i ==> r[k] == s[k])
    && (i >= 0 ==> s[i] != 'Z' && r[i] == s[i] + 1 as char)
    && (forall k :: i < k < |s| ==> s[k] == 'Z' && r[k] == 'A')
  }

  lemma {:induction false} NextCarries(s: string, r: string, i: int)
    requires IsCode(s) && |r| == |s| && CarryStopsAt(s, r, i)
    ensures r == Next(s)
  {
    if s != "" {
      var n := |s| - 1;
      assert r == r[..n] + [r[n]];
      if i == n {
        assert r[..n] == s[..n];
      } else {
        NextCarries(s[..n], r[..n], i);
      }
    }
  }

  method AddLetter(code: array<char>)
    requires IsCode(code[..])
    modifies code
    ensures code[..] == Next(old(code[..]))
  {
    ghost var was := code[..];
    var i := code.Length - 1;
    while i >= 0
      invariant -1 <= i < code.Length
      invariant forall k :: 0 <= k <= i ==> code[k] == was[k]
      invariant forall k :: i < k < code.Length ==> was[k] == 'Z' && code[k] == 'A'
    {
      if code[i] == 'Z' {
        code[i] := 'A';
      } else {
        code[i] := code[i] + 1 as char;
        NextCarries(was, code[..], i);
        return;
      }
      i := i - 1;
    }
    NextCarries(was, code[..], -1);
  }

  // ------------------------------------------------------------------- wiring

  type Key = string

  /** What a submodule request holds: no module, a module that was never named,
      or a module with a name. */
  datatype Target = NoModule | Unnamed | Named(name: Key)

  type Row = seq<(Key, Target)>

  /** The manager's modules by name; the rank shows that names form no cycle. */
  datatype Table = Table(rows: map<Key, Row>, ghost rank: Key -> nat)

  ghost predicate IsSub(t: Table, key: Key, i: int) {
    key in t.rows && 0 <= i < |t.rows[key]|
  }

  ghost function Sub(t: Table, key: Key, i: int): Target
    requires IsSub(t, key, i)
  {
    t.rows[key][i].1
  }

  ghost predicate Acyclic(t: Table) {
    forall key, i :: IsSub(t, key, i) && Sub(t, key, i).Named? ==> t.rank(Sub(t, key, i).name) < t.rank(key)
  }

  /** Every name that is looked up while drawing `key` is there. */
  ghost predicate Printable(t: Table, key: Key)
    requires Acyclic(t)
    decreases t.rank(key)
  {
    && key in t.rows
    && forall i :: IsSub(t, key, i) ==> SubPrintable(t, key, i)
  }

  ghost predicate SubPrintable(t: Table, key: Key, i: int)
    requires Acyclic(t) && IsSub(t, key, i)
    decreases t.rank(key), 0
  {
    Sub(t, key, i).NoModule? || (Sub(t, key, i).Named? && Printable(t, Sub(t, key, i).name))
  }

  // -------------------------------------------------------------------- nodes

  type Path = seq<nat>

  /** `p` is a path of the unfolding of `key`. */
  ghost predicate IsPath(t: Table, key: Key, p: Path)
    requires Acyclic(t) && Printable(t, key)
    decreases |p|
  {
    p == [] ||
    (&& IsSub(t, key, p[0])
     && (assert SubPrintable(t, key, p[0]);
         if Sub(t, key, p[0]).NoModule? then |p| == 1 else IsPath(t, Sub(t, key, p[0]).name, p[1..])))
  }

  /** The order in which a depth-first walk meets two paths. */
  ghost predicate Before(p: Path, q: Path) {
    q != [] && (p == [] || p[0] < q[0] || (p[0] == q[0] && Before(p[1..], q[1..])))
  }

  ghost function Under(i: nat, ps: seq<Path>): (r: seq<Path>)
    ensures |r| == |ps| && forall k :: 0 <= k < |ps| ==> r[k] == [i] + ps[k]
  {
    seq(|ps|, k requires 0 <= k < |ps| => [i] + ps[k])
  }

  /** The nodes of the drawing of `key` in the order they are printed, the
      module itself first. */
  ghost function Nodes(t: Table, key: Key): (ps: seq<Path>)
    requires Acyclic(t) && Printable(t, key)
    ensures |ps| >= 1 && ps[0] == []
    decreases t.rank(key), 1, 0
  {
    NodesUpTo(t, key, |t.rows[key]|)
  }

  /** The module itself and what is below its first `n` submodules. */
  ghost function NodesUpTo(t: Table, key: Key, n: nat): (ps: seq<Path>)
    requires Acyclic(t) && Printable(t, key) && n <= |t.rows[key]|
    ensures |ps| >= 1 && ps[0] == []
    decreases t.rank(key), 0, n
  {
    if n == 0 then [[]]
    else
      assert IsSub(t, key, n - 1);
      NodesUpTo(t, key, n - 1) + Under(n - 1, SubNodes(t, key, n - 1))
  }

  ghost function SubNodes(t: Table, key: Key, i: nat): (ps: seq<Path>)
    requires Acyclic(t) && Printable(t, key) && IsSub(t, key, i)
    ensures |ps| >= 1 && ps[0] == []
    decreases t.rank(key), 0, 0
  {
    assert SubPrintable(t, key, i);
    if Sub(t, key, i).NoModule? then [[]] else Nodes(t, Sub(t, key, i).name)
  }

  lemma NodesStep(t: Table, key: Key, i: nat)
    requires Acyclic(t) && Printable(t, key) && IsSub(t, key, i)
    ensures NodesUpTo(t, key, i + 1) == NodesUpTo(t, key, i) + Under(i, SubNodes(t, key, i))
  {
  }

  lemma {:induction false} NodesArePathsUpTo(t: Table, key: Key, n: nat, p: Path)
    requires Acyclic(t) && Printable(t, key) && n <= |t.rows[key]|
    ensures p in NodesUpTo(t, key, n) <==> IsPath(t, key, p) && (p == [] || p[0] < n)
    decreases t.rank(key), 0, n
  {
    if n > 0 {
      var i := n - 1;
      assert IsSub(t, key, i);
      NodesArePathsUpTo(t, key, i, p);
      NodesStep(t, key, i);
      InUnder(i, SubNodes(t, key, i), p);
      if p != [] && p[0] == i {
        SubNodesArePaths(t, key, i, p[1..]);
        assert p == [i] + p[1..];
      }
    }
  }

  lemma {:induction false} SubNodesArePaths(t: Table, key: Key, i: nat, q: Path)
    requires Acyclic(t) && Printable(t, key) && IsSub(t, key, i)
    ensures q in SubNodes(t, key, i) <==> IsPath(t, key, [i] + q)
    decreases t.rank(key), 0, 0
  {
    assert SubPrintable(t, key, i);
    assert ([i] + q)[1..] == q;
    if Sub(t, key, i).Named? {
      NodesArePaths(t, Sub(t, key, i).name, q);
    }
  }

  lemma InUnder(i: nat, ps: seq<Path>, p: Path)
    ensures p in Under(i, ps) <==> p != [] && p[0] == i && p[1..] in ps
  {
    if p != [] && p[0] == i && p[1..] in ps {
      var k :| 0 <= k < |ps| && ps[k] == p[1..];
      assert Under(i, ps)[k] == p;
    }
    if p in Under(i, ps) {
      var k :| 0 <= k < |ps| && Under(i, ps)[k] == p;
      assert p == [i] + ps[k] && p[1..] == ps[k];
    }
  }

  /** Exactly the paths of the unfolding are printed. */
  lemma {:induction false} NodesArePaths(t: Table, key: Key, p: Path)
    requires Acyclic(t) && Printable(t, key)
    ensures p in Nodes(t, key) <==> IsPath(t, key, p)
    decreases t.rank(key), 1, 0
  {
    NodesArePathsUpTo(t, key, |t.rows[key]|, p);
  }

  /** In strictly increasing order. */
  ghost predicate Sorted(ps: seq<Path>) {
    forall j, k :: 0 <= j < k < |ps| ==> Before(ps[j], ps[k])
  }

  lemma {:induction false} NodesAreSorted(t: Table, key: Key)
    requires Acyclic(t) && Printable(t, key)
    ensures Sorted(Nodes(t, key))
    decreases t.rank(key), 1, 0
  {
    NodesAreSortedUpTo(t, key, |t.rows[key]|);
  }

  lemma {:induction false} NodesAreSortedUpTo(t: Table, key: Key, n: nat)
    requires Acyclic(t) && Printable(t, key) && n <= |t.rows[key]|
    ensures Sorted(NodesUpTo(t, key, n))
    decreases t.rank(key), 0, n
  {
    if n > 0 {
      var i := n - 1;
      assert IsSub(t, key, i) && SubPrintable(t, key, i);
      var ps, below := NodesUpTo(t, key, i), SubNodes(t, key, i);
      NodesAreSortedUpTo(t, key, i);
      if Sub(t, key, i).Named? {
        NodesAreSorted(t, Sub(t, key, i).name);
      }
      forall p | p in ps
        ensures p == [] || p[0] < i
      {
        NodesArePathsUpTo(t, key, i, p);
      }
      AppendSorted(ps, i, below);
    }
  }

  lemma AppendSorted(ps: seq<Path>, i: nat, below: seq<Path>)
    requires Sorted(ps) && Sorted(below) && forall p :: p in ps ==> p == [] || p[0] < i
    ensures Sorted(ps + Under(i, below))
  {
    var all := ps + Under(i, below);
    forall j, k | 0 <= j < k < |all|
      ensures Before(all[j], all[k])
    {
      if j < |ps| && k < |ps| {
        assert Before(ps[j], ps[k]);
      } else if j < |ps| {
        assert all[k] == [i] + below[k - |ps|];
        assert ps[j] in ps;
      } else {
        var p, q := below[j - |ps|], below[k - |ps|];
        assert Before(p, q);
        assert all[j] == [i] + p && all[k] == [i] + q;
        assert ([i] + p)[1..] == p && ([i] + q)[1..] == q;
      }
    }
  }

  // -------------------------------------------------------------------- edges

  /** An arrow between two numbered nodes. */
  datatype Edge = Edge(from: nat, key: Key, to: nat, text: string)

  const NO_SUBMODULE := "No Submodule associated with Key"

  ghost function LabelOf(s: Target): string {
    if s.Named? then s.name else NO_SUBMODULE
  }

  /** The request at the end of a path. */
  ghost function LastStep(t: Table, key: Key, p: Path): (Key, Target)
    decreases |p|
  {
    if p == [] || !IsSub(t, key, p[0]) then ("", NoModule)
    else if |p| == 1 then t.rows[key][p[0]]
    else if Sub(t, key, p[0]).Named? then LastStep(t, Sub(t, key, p[0]).name, p[1..])
    else ("", NoModule)
  }

  ghost function Position(ps: seq<Path>, p: Path): (k: nat)
    ensures k <= |ps| && (p in ps ==> k < |ps| && ps[k] == p)
  {
    if ps == [] || ps[0] == p then 0 else 1 + Position(ps[1..], p)
  }

  lemma {:induction false} PositionAppend(ps: seq<Path>, qs: seq<Path>, p: Path)
    ensures Position(ps + qs, p) == if p in ps then Position(ps, p) else |ps| + Position(qs, p)
  {
    if ps == [] {
      assert ps + qs == qs;
    } else {
      assert (ps + qs)[1..] == ps[1..] + qs;
      PositionAppend(ps[1..], qs, p);
    }
  }

  lemma {:induction false} PositionUnder(i: nat, ps: seq<Path>, p: Path)
    ensures Position(Under(i, ps), [i] + p) == Position(ps, p)
  {
    if ps != [] {
      assert ([i] + p)[1..] == p && ([i] + ps[0])[1..] == ps[0];
      assert Under(i, ps)[1..] == Under(i, ps[1..]);
      PositionUnder(i, ps[1..], p);
    }
  }

  /** The arrow into the `k`-th node, when the first node has number `start`. */
  ghost function EdgeInto(t: Table, key: Key, ps: seq<Path>, start: nat, k: nat): Edge
    requires k < |ps|
  {
    var p := ps[k];
    var (name, sub) := LastStep(t, key, p);
    Edge(start + if p == [] then 0 else Position(ps, p[..|p| - 1]), name, start + k, LabelOf(sub))
  }

  ghost function Edges(t: Table, key: Key, ps: seq<Path>, start: nat): (es: seq<Edge>)
    requires |ps| >= 1
    ensures |es| == |ps| - 1
    ensures forall k :: 0 <= k < |es| ==> es[k] == EdgeInto(t, key, ps, start, k + 1)
  {
    seq(|ps| - 1, k requires 0 <= k < |ps| - 1 => EdgeInto(t, key, ps, start, k + 1))
  }

  lemma {:induction false} PathWithoutLast(t: Table, key: Key, p: Path)
    requires Acyclic(t) && Printable(t, key) && IsPath(t, key, p) && p != []
    ensures IsPath(t, key, p[..|p| - 1])
    decreases |p|
  {
    if |p| > 1 {
      assert SubPrintable(t, key, p[0]);
      PathWithoutLast(t, Sub(t, key, p[0]).name, p[1..]);
      assert p[..|p| - 1][1..] == p[1..][..|p[1..]| - 1];
    }
  }

  /** Every arrow starts at its parent, which was printed before. */
  lemma EdgeStartsAtParent(t: Table, key: Key, start: nat, k: nat)
    requires Acyclic(t) && Printable(t, key) && 0 < k < |Nodes(t, key)|
    ensures var ps := Nodes(t, key);
            && ps[k] != []
            && var from := EdgeInto(t, key, ps, start, k).from - start;
               0 <= from < k && ps[from] == ps[k][..|ps[k]| - 1]
  {
    var ps := Nodes(t, key);
    NodesAreSorted(t, key);
    assert Before(ps[0], ps[k]);
    var parent := ps[k][..|ps[k]| - 1];
    NodesArePaths(t, key, ps[k]);
    PathWithoutLast(t, key, ps[k]);
    NodesArePaths(t, key, parent);
    var from := Position(ps, parent);
    if k < from {
      assert Before(ps[k], ps[from]);
      PrefixIsBefore(ps[k]);
    }
  }

  /** The name of the module at the end of a path, if there is one. */
  ghost function ModuleAt(t: Table, key: Key, p: Path): Key
    decreases |p|
  {
    if p == [] || !IsSub(t, key, p[0]) || !Sub(t, key, p[0]).Named? then key
    else ModuleAt(t, Sub(t, key, p[0]).name, p[1..])
  }

  lemma {:induction false} LastStepIsRequest(t: Table, key: Key, p: Path)
    requires Acyclic(t) && Printable(t, key) && IsPath(t, key, p) && p != []
    ensures var m, i := ModuleAt(t, key, p[..|p| - 1]), p[|p| - 1];
            IsSub(t, m, i) && LastStep(t, key, p) == t.rows[m][i]
    decreases |p|
  {
    if |p| > 1 {
      assert SubPrintable(t, key, p[0]);
      LastStepIsRequest(t, Sub(t, key, p[0]).name, p[1..]);
      assert p[..|p| - 1][1..] == p[1..][..|p[1..]| - 1];
    }
  }

  /** The arrow to a node has the key of a request of the module at its tail, and its
      head has the name of the module that is set there, or says that none is. */
  lemma ArrowSaysRequest(t: Table, key: Key, start: nat, k: nat)
    requires Acyclic(t) && Printable(t, key) && 0 < k < |Nodes(t, key)|
    ensures var ps := Nodes(t, key);
            var p, e := ps[k], EdgeInto(t, key, ps, start, k);
            && p != [] && e.to == start + k
            && var m, i := ModuleAt(t, key, p[..|p| - 1]), p[|p| - 1];
               IsSub(t, m, i) && e.key == t.rows[m][i].0
               && match Sub(t, m, i)
                  case Named(n) => e.text == n && ModuleAt(t, m, [i]) == n
                  case _ => e.text == "No Submodule associated with Key"
  {
    var ps := Nodes(t, key);
    EdgeStartsAtParent(t, key, start, k);
    NodesArePaths(t, key, ps[k]);
    LastStepIsRequest(t, key, ps[k]);
  }

  lemma {:induction false} PrefixIsBefore(p: Path)
    requires p != []
    ensures !Before(p, p[..|p| - 1])
  {
    if |p| > 1 {
      PrefixIsBefore(p[1..]);
      assert p[..|p| - 1][1..] == p[1..][..|p[1..]| - 1];
    }
  }

  /** The arrows of the drawing of submodule `i`. */
  ghost function BelowEdges(t: Table, key: Key, i: nat, start: nat): (es: seq<Edge>)
    requires Acyclic(t) && Printable(t, key) && IsSub(t, key, i)
    ensures |es| == |SubNodes(t, key, i)| - 1
  {
    assert SubPrintable(t, key, i);
    if Sub(t, key, i).NoModule? then [] else Edges(t, Sub(t, key, i).name, SubNodes(t, key, i), start)
  }

  /** The arrow to submodule `i`, drawn as node `to`, comes before its own. */
  ghost function SubEdges(t: Table, key: Key, i: nat, start: nat, to: nat): (es: seq<Edge>)
    requires Acyclic(t) && Printable(t, key) && IsSub(t, key, i)
    ensures |es| == |SubNodes(t, key, i)|
  {
    [Edge(start, t.rows[key][i].0, to, LabelOf(Sub(t, key, i)))] + BelowEdges(t, key, i, to)
  }

  /** Going on to the next submodule appends its arrows. */
  lemma EdgesStep(t: Table, key: Key, i: nat, start: nat)
    requires Acyclic(t) && Printable(t, key) && IsSub(t, key, i)
    ensures var ps := NodesUpTo(t, key, i);
            Edges(t, key, NodesUpTo(t, key, i + 1), start)
            == Edges(t, key, ps, start) + SubEdges(t, key, i, start, start + |ps|)
  {
    hide NodesUpTo, EdgeInto, SubEdges, Printable, Acyclic, SubNodes, Edges, Sub;
    var ps, all := NodesUpTo(t, key, i), NodesUpTo(t, key, i + 1);
    NodesStep(t, key, i);
    var old_, new_ := Edges(t, key, ps, start), SubEdges(t, key, i, start, start + |ps|);
    var es := Edges(t, key, all, start);
    assert |es| == |old_ + new_|;
    forall k | 0 <= k < |es|
      ensures es[k] == (old_ + new_)[k]
    {
      if k + 1 < |ps| {
        OldEdge(t, key, i, start, k + 1);
      } else {
        NewEdge(t, key, i, start, k + 1 - |ps|);
      }
    }
  }

  lemma OldEdge(t: Table, key: Key, i: nat, start: nat, k: nat)
    requires Acyclic(t) && Printable(t, key) && IsSub(t, key, i)
    requires 0 < k < |NodesUpTo(t, key, i)|
    ensures EdgeInto(t, key, NodesUpTo(t, key, i + 1), start, k) == EdgeInto(t, key, NodesUpTo(t, key, i), start, k)
  {
    var ps := NodesUpTo(t, key, i);
    var p := ps[k];
    assert NodesUpTo(t, key, i + 1) == ps + Under(i, SubNodes(t, key, i));
    if p != [] {
      NodesArePathsUpTo(t, key, i, p);
      PathWithoutLast(t, key, p);
      NodesArePathsUpTo(t, key, i, p[..|p| - 1]);
      PositionAppend(ps, Under(i, SubNodes(t, key, i)), p[..|p| - 1]);
    }
  }

  lemma NewEdge(t: Table, key: Key, i: nat, start: nat, j: nat)
    requires Acyclic(t) && Printable(t, key) && IsSub(t, key, i) && j < |SubNodes(t, key, i)|
    ensures var ps := NodesUpTo(t, key, i);
            EdgeInto(t, key, NodesUpTo(t, key, i + 1), start, |ps| + j) == SubEdges(t, key, i, start, start + |ps|)[j]
  {
    assert SubPrintable(t, key, i);
    var ps, below := NodesUpTo(t, key, i), SubNodes(t, key, i);
    var all := NodesUpTo(t, key, i + 1);
    assert all == ps + Under(i, below);
    var q, p := below[j], all[|ps| + j];
    assert p == [i] + q;
    if j == 0 {
      assert p == [i] && p[..0] == [];
    } else {
      BelowFirst(t, key, i, j);
      assert p[1..] == q && p[..|p| - 1] == [i] + q[..|q| - 1];
      NodesArePathsUpTo(t, key, i, [i] + q[..|q| - 1]);
      PositionAppend(ps, Under(i, below), [i] + q[..|q| - 1]);
      PositionUnder(i, below, q[..|q| - 1]);
    }
  }

  lemma BelowFirst(t: Table, key: Key, i: nat, j: nat)
    requires Acyclic(t) && Printable(t, key) && IsSub(t, key, i) && 0 < j < |SubNodes(t, key, i)|
    ensures Sub(t, key, i).Named? && SubNodes(t, key, i)[j] != []
  {
    assert SubPrintable(t, key, i);
    NodesAreSorted(t, Sub(t, key, i).name);
    assert Before(SubNodes(t, key, i)[0], SubNodes(t, key, i)[j]);
  }

  // ----------------------------------------------------------------- printing

  function Arrow(code: string, key: Key): string {
    "\n\t" + code + "-->" + "|" + key + "| "
  }

  function Box(text: string): string {
    "[" + text + "]"
  }

  ghost function Text(n: nat, e: Edge): string {
    Arrow(Code(n, e.from), e.key) + Code(n, e.to) + Box(e.text)
  }

  ghost function Texts(n: nat, es: seq<Edge>): string {
    if es == [] then "" else Text(n, es[0]) + Texts(n, es[1..])
  }

  lemma {:induction false} TextsAppend(n: nat, es: seq<Edge>, more: seq<Edge>)
    ensures Texts(n, es + more) == Texts(n, es) + Texts(n, more)
  {
    hide Text;
    if es == [] {
      assert es + more == more;
      assert Texts(n, es) == "";
    } else {
      TextsAppend(n, es[1..], more);
      assert (es + more)[1..] == es[1..] + more;
    }
  }

  /** The text of the arrows below the first `n` submodules. */
  ghost function TextUpTo(t: Table, key: Key, n: nat, len: nat, start: nat): string
    requires Acyclic(t) && Printable(t, key) && n <= |t.rows[key]|
  {
    Texts(len, Edges(t, key, NodesUpTo(t, key, n), start))
  }

  lemma TextStep(t: Table, key: Key, i: nat, len: nat, start: nat)
    requires Acyclic(t) && Printable(t, key) && IsSub(t, key, i)
    ensures var to := start + |NodesUpTo(t, key, i)|;
            TextUpTo(t, key, i + 1, len, start)
            == TextUpTo(t, key, i, len, start)
               + Text(len, Edge(start, t.rows[key][i].0, to, LabelOf(Sub(t, key, i))))
               + Texts(len, BelowEdges(t, key, i, to))
  {
    hide Text, Printable, Acyclic, NodesUpTo, Edges, BelowEdges;
    EdgesStep(t, key, i, start);
    var ps := NodesUpTo(t, key, i);
    var es := SubEdges(t, key, i, start, start + |ps|);
    TextsAppend(len, Edges(t, key, ps, start), es);
    assert es[1..] == BelowEdges(t, key, i, start + |ps|);
  }

  /** Prints the arrows of the drawing of `key`, whose node has number `start`;
      fails if a name on the way is missing. */
  method PrintSubmods(t: Table, key: Key, ss: string, code: array<char>, ghost start: nat)
    returns (ok: bool, out: string)
    requires Acyclic(t) && code[..] == Code(code.Length, start)
    modifies code
    ensures IsCode(code[..])
    ensures ok <==> Printable(t, key)
    ensures ok ==> out == ss + TextUpTo(t, key, |t.rows[key]|, code.Length, start)
    ensures ok ==> code[..] == Code(code.Length, start + |Nodes(t, key)| - 1)
    decreases t.rank(key)
  {
    hide Text, Texts, TextUpTo, Code, Next, NodesUpTo, Arrow, Box;
    out := ss;
    if key !in t.rows {
      return false, out;
    }
    var row := t.rows[key];
    var main := code[..];
    NothingYet(t, key, code.Length, start);
    var i := 0;
    while i < |row|
      invariant 0 <= i <= |row| && IsCode(code[..])
      invariant forall j :: 0 <= j < i ==> SubPrintable(t, key, j)
      invariant Printable(t, key) ==> out == ss + TextUpTo(t, key, i, code.Length, start)
      invariant Printable(t, key) ==> code[..] == Code(code.Length, start + |NodesUpTo(t, key, i)| - 1)
    {
      var (name, sub) := row[i];
      assert IsSub(t, key, i) && Sub(t, key, i) == sub;
      ghost var at := if Printable(t, key) then start + |NodesUpTo(t, key, i)| - 1 else Value(code[..]);
      CodeOfValue(code[..]);
      NextOfCode(code.Length, at);
      out := out + Arrow(main, name);
      AddLetter(code);
      out := out + code[..];
      match sub {
        case NoModule =>
          out := out + Box("No Submodule associated with Key");
        case Unnamed =>
          return false, out;
        case Named(n) =>
          out := out + Box(n);
          ok, out := PrintSubmods(t, n, out, code, at + 1);
          if !ok {
            return;
          }
      }
      if Printable(t, key) {
        Printed(t, key, i, code.Length, start, ss, out);
      }
      i := i + 1;
    }
    ok := true;
  }

  lemma NothingYet(t: Table, key: Key, len: nat, start: nat)
    requires Acyclic(t) && key in t.rows
    ensures Printable(t, key) ==> TextUpTo(t, key, 0, len, start) == "" && |NodesUpTo(t, key, 0)| == 1
  {
  }

  /** The text of the drawing of submodule `i`, whose node is `to`. */
  ghost function BelowText(t: Table, key: Key, i: nat, len: nat, to: nat): string
    requires Acyclic(t) && Printable(t, key) && IsSub(t, key, i)
  {
    assert SubPrintable(t, key, i);
    var sub := Sub(t, key, i);
    if sub.NoModule? then ""
    else
      assert Printable(t, sub.name);
      TextUpTo(t, sub.name, |t.rows[sub.name]|, len, to)
  }

  lemma BelowTextIs(t: Table, key: Key, i: nat, len: nat, to: nat)
    requires Acyclic(t) && Printable(t, key) && IsSub(t, key, i)
    ensures BelowText(t, key, i, len, to) == Texts(len, BelowEdges(t, key, i, to))
  {
    hide Texts, Edges, NodesUpTo;
    assert SubPrintable(t, key, i);
    if Sub(t, key, i).NoModule? {
      NoTexts(len);
    } else {
      var name := Sub(t, key, i).name;
      assert Printable(t, name);
      assert SubNodes(t, key, i) == Nodes(t, name) == NodesUpTo(t, name, |t.rows[name]|);
      assert BelowText(t, key, i, len, to) == TextUpTo(t, name, |t.rows[name]|, len, to);
    }
  }

  lemma NoTexts(len: nat)
    ensures Texts(len, []) == ""
  {
  }

  lemma Printed(t: Table, key: Key, i: nat, len: nat, start: nat, ss: string, out: string)
    requires Acyclic(t) && Printable(t, key) && IsSub(t, key, i)
    requires var to := start + |NodesUpTo(t, key, i)|;
             out == ss + TextUpTo(t, key, i, len, start) + Arrow(Code(len, start), t.rows[key][i].0)
                    + Code(len, to) + Box(LabelOf(Sub(t, key, i))) + BelowText(t, key, i, len, to)
    ensures out == ss + TextUpTo(t, key, i + 1, len, start)
    ensures |NodesUpTo(t, key, i + 1)| == |NodesUpTo(t, key, i)| + |SubNodes(t, key, i)|
  {
    hide NodesUpTo, TextUpTo, Code, Arrow, Box, LabelOf, Texts, BelowEdges, BelowText, Printable, Acyclic, SubNodes;
    var to := start + |NodesUpTo(t, key, i)|;
    NodesStep(t, key, i);
    TextStep(t, key, i, len, start);
    BelowTextIs(t, key, i, len, to);
    Regroup(ss, TextUpTo(t, key, i, len, start), Arrow(Code(len, start), t.rows[key][i].0), Code(len, to),
            Box(LabelOf(Sub(t, key, i))), BelowText(t, key, i, len, to));
  }

  lemma Regroup(a: string, b: string, c: string, d: string, e: string, f: string)
    ensures a + b + c + d + e + f == a + (b + (c + d + e) + f)
  {
    assert a + b + c + d + e + f == a + b + (c + d + e) + f;
    assert a + b + (c + d + e) + f == a + (b + (c + d + e) + f);
  }

  // ---------------------------------------------------------- the whole output

  ghost predicate AllPrintable(t: Table, keys: seq<Key>)
    requires Acyclic(t)
  {
    forall i :: 0 <= i < |keys| ==> Printable(t, keys[i])
  }

  /** How many nodes are drawn for the first `n` modules. */
  ghost function Total(t: Table, keys: seq<Key>, n: nat): nat
    requires Acyclic(t) && AllPrintable(t, keys) && n <= |keys|
  {
    if n == 0 then 0 else Total(t, keys, n - 1) + |Nodes(t, keys[n - 1])|
  }

  ghost function Section(t: Table, key: Key, start: nat): string
    requires Acyclic(t) && Printable(t, key)
  {
    "\n```mermaid" + "\nflowchart LR\n" + "\t" + Code(3, start) + Box(key)
    + Texts(3, Edges(t, key, Nodes(t, key), start)) + "\n```"
  }

  ghost function Sections(t: Table, keys: seq<Key>, n: nat): string
    requires Acyclic(t) && AllPrintable(t, keys) && n <= |keys|
  {
    if n == 0 then "" else Sections(t, keys, n - 1) + Section(t, keys[n - 1], Total(t, keys, n - 1))
  }

  /** `keys` are the names of the manager's modules.  Fails exactly when some
      name is missing. */
  method CreateMermaidGraph(t: Table, keys: seq<Key>) returns (ok: bool, ss: string)
    requires Acyclic(t)
    ensures ok <==> AllPrintable(t, keys)
    ensures ok ==> ss == if keys == [] then "No modules are loaded, load some modules!" else Sections(t, keys, |keys|)
  {
    hide Code, Texts, TextUpTo, Next, Section, Nodes, Sections, Total, Box, Value;
    NoSections(t, keys);
    ss := "";
    if |keys| == 0 {
      ss := "No modules are loaded, load some modules!";
      return true, ss;
    }
    var code := new char[3][ 'A', 'A', 'A' ];
    FirstCode();
    var i := 0;
    while i < |keys|
      invariant 0 <= i <= |keys| && IsCode(code[..])
      invariant forall j :: 0 <= j < i ==> Printable(t, keys[j])
      invariant AllPrintable(t, keys) ==> ss == Sections(t, keys, i) && code[..] == Code(3, Total(t, keys, i))
    {
      var mod := keys[i];
      ghost var start := if AllPrintable(t, keys) then Total(t, keys, i) else Value(code[..]);
      CodeOfValue(code[..]);
      ss := ss + "\n```mermaid";
      ss := ss + "\nflowchart LR\n";
      ss := ss + "\t" + code[..] + Box(mod);
      ok, ss := PrintSubmods(t, mod, ss, code, start);
      if !ok {
        return;
      }
      ss := ss + "\n```";
      NextOfCode(3, start + |Nodes(t, mod)| - 1);
      AddLetter(code);
      if AllPrintable(t, keys) {
        OneSection(t, keys, i, ss);
      }
      i := i + 1;
    }
    ok := true;
  }

  lemma NoSections(t: Table, keys: seq<Key>)
    requires Acyclic(t)
    ensures AllPrintable(t, keys) ==> Sections(t, keys, 0) == "" && Total(t, keys, 0) == 0
  {
  }

  lemma FirstCode()
    ensures Code(3, 0) == ['A', 'A', 'A']
  {
    assert Code(1, 0) == ['A'];
    assert Code(2, 0) == ['A', 'A'];
  }

  lemma OneSection(t: Table, keys: seq<Key>, i: nat, out: string)
    requires Acyclic(t) && AllPrintable(t, keys) && i < |keys|
    requires var key, start := keys[i], Total(t, keys, i);
             out == Sections(t, keys, i) + "\n```mermaid" + "\nflowchart LR\n" + ("\t" + Code(3, start) + Box(key))
                    + TextUpTo(t, key, |t.rows[key]|, 3, start) + "\n```"
    ensures out == Sections(t, keys, i + 1)
    ensures Total(t, keys, i + 1) == Total(t, keys, i) + |Nodes(t, keys[i])|
  {
    hide Code, Box, Texts, Edges;
  }

  /** The numbers of the drawn nodes in the order they are printed: the module
      and then the head of each arrow. */
  ghost function Numbers(t: Table, keys: seq<Key>, n: nat): seq<nat>
    requires Acyclic(t) && AllPrintable(t, keys) && n <= |keys|
  {
    if n == 0 then []
    else
      var start := Total(t, keys, n - 1);
      var es := Edges(t, keys[n - 1], Nodes(t, keys[n - 1]), start);
      Numbers(t, keys, n - 1) + [start] + seq(|es|, k requires 0 <= k < |es| => es[k].to)
  }

  /** Across all modules, the `k`-th printed node has number `k`. */
  lemma {:induction false} KthNodeIsNumberK(t: Table, keys: seq<Key>, n: nat)
    requires Acyclic(t) && AllPrintable(t, keys) && n <= |keys|
    ensures |Numbers(t, keys, n)| == Total(t, keys, n)
    ensures forall k :: 0 <= k < |Numbers(t, keys, n)| ==> Numbers(t, keys, n)[k] == k
  {
    if n > 0 {
      KthNodeIsNumberK(t, keys, n - 1);
    }
  }

  /** No two nodes share a label exactly when there are at most 26^3. */
  lemma LabelsDistinct(t: Table, keys: seq<Key>)
    requires Acyclic(t) && AllPrintable(t, keys)
    ensures var ns := Numbers(t, keys, |keys|);
            (forall j, k :: 0 <= j < k < |ns| ==> Code(3, ns[j]) != Code(3, ns[k]))
            <==> Total(t, keys, |keys|) <= 17576
  {
    hide Numbers, Total, Code, Value, Pow26;
    KthNodeIsNumberK(t, keys, |keys|);
    var ns := Numbers(t, keys, |keys|);
    forall j: nat, k: nat
      ensures Code(3, j) == Code(3, k) <==> j % 17576 == k % 17576
    {
      SameCode(j, k);
    }
    if |ns| > 17576 {
      assert Code(3, ns[0]) == Code(3, ns[17576]);
    }
  }

  lemma SameCode(j: nat, k: nat)
    ensures Code(3, j) == Code(3, k) <==> j % 17576 == k % 17576
  {
    assert Pow26(3) == 17576 by { assert Pow26(1) == 26 && Pow26(2) == 676; }
    hide Code, Value, Pow26;
    ValueOfCode(3, j);
    ValueOfCode(3, k);
    CodeOfValue(Code(3, j));
    CodeOfValue(Code(3, k));
  }

  /** Every module can be drawn exactly when every submodule that is set has the
      name of a module of the manager. */
  lemma PrintableIffClosed(t: Table)
    requires Acyclic(t)
    ensures (forall key :: key in t.rows ==> Printable(t, key))
            <==> (forall key, i :: IsSub(t, key, i) ==>
                    Sub(t, key, i).NoModule? || (Sub(t, key, i).Named? && Sub(t, key, i).name in t.rows))
  {
    if forall key :: key in t.rows ==> Printable(t, key) {
      forall key, i | IsSub(t, key, i)
        ensures Sub(t, key, i).NoModule? || (Sub(t, key, i).Named? && Sub(t, key, i).name in t.rows)
      {
        assert Printable(t, key) && SubPrintable(t, key, i);
        assert Sub(t, key, i).Named? ==> Printable(t, Sub(t, key, i).name);
      }
    } else if forall key, i :: IsSub(t, key, i) ==>
                Sub(t, key, i).NoModule? || (Sub(t, key, i).Named? && Sub(t, key, i).name in t.rows) {
      forall key | key in t.rows
        ensures Printable(t, key)
      {
        ClosedIsPrintable(t, key);
      }
    }
  }

  lemma {:induction false} ClosedIsPrintable(t: Table, key: Key)
    requires Acyclic(t) && key in t.rows
    requires forall key, i :: IsSub(t, key, i) ==>
               Sub(t, key, i).NoModule? || (Sub(t, key, i).Named? && Sub(t, key, i).name in t.rows)
    ensures Printable(t, key)
    decreases t.rank(key)
  {
    forall i | IsSub(t, key, i)
      ensures SubPrintable(t, key, i)
    {
      if Sub(t, key, i).Named? {
        ClosedIsPrintable(t, Sub(t, key, i).name);
      }
    }
  }
}
