/**
 What the Mermaid drawing has to do with the module objects.  Submodules are
 pointers, and pointers form no cycle; the drawing follows the names of the
 submodules through the manager instead.  A copy keeps the name of its original,
 so the two can differ, and names can even form a cycle.
 */
module DrawnObjects {
  import opened Mermaid
  import F = Fields

  /** A module object: its name, if it has one, and its submodule requests. */
  datatype Node<P> = Node(name: F.Option<Key>, subs: seq<(Key, F.Option<P>)>)

  /** The module objects, those of the manager by name, and a ranking that shows
      that pointers form no cycle. */
  datatype Objects<P> = Objects(nodes: map<P, Node<P>>, managed: map<Key, P>, rank: map<P, nat>)

  ghost predicate HasSub<P>(h: Objects<P>, p: P, i: int) {
    p in h.nodes && 0 <= i < |h.nodes[p].subs|
  }

  ghost function Pointer<P>(h: Objects<P>, p: P, i: int): F.Option<P>
    requires HasSub(h, p, i)
  {
    h.nodes[p].subs[i].1
  }

  ghost predicate Wired<P>(h: Objects<P>) {
    && h.rank.Keys == h.nodes.Keys
    && (forall key :: key in h.managed ==> h.managed[key] in h.nodes)
    && (forall p, i :: p in h.nodes && HasSub(h, p, i) && Pointer(h, p, i).Some? ==>
          Pointer(h, p, i).value in h.nodes && h.rank[Pointer(h, p, i).value] < h.rank[p])
  }

  // -------------------------------------------------- what the printer sees

  ghost function TargetOf<P>(h: Objects<P>, p: F.Option<P>): Target
    requires p.Some? ==> p.value in h.nodes
  {
    if p.None? then NoModule
    else if h.nodes[p.value].name.None? then Unnamed
    else Named(h.nodes[p.value].name.value)
  }

  /** The names of the submodules of an object. */
  ghost function RowOf<P>(h: Objects<P>, p: P): (row: Row)
    requires Wired(h) && p in h.nodes
    ensures |row| == |h.nodes[p].subs|
    ensures forall i :: 0 <= i < |row| ==> row[i] == (h.nodes[p].subs[i].0, TargetOf(h, Pointer(h, p, i)))
  {
    seq(|h.nodes[p].subs|, i requires 0 <= i < |h.nodes[p].subs| =>
      assert HasSub(h, p, i);
      (h.nodes[p].subs[i].0, TargetOf(h, Pointer(h, p, i))))
  }

  ghost function RowsOf<P>(h: Objects<P>): map<Key, Row>
    requires Wired(h)
  {
    map key | key in h.managed :: RowOf(h, h.managed[key])
  }

  // ----------------------------------------------- the unfolding of pointers

  ghost predicate IsPointerPath<P>(h: Objects<P>, p: P, path: Path)
    requires Wired(h) && p in h.nodes
    decreases |path|
  {
    path == [] ||
    (&& HasSub(h, p, path[0])
     && if Pointer(h, p, path[0]).None? then |path| == 1
        else IsPointerPath(h, Pointer(h, p, path[0]).value, path[1..]))
  }

  /** The request at the end of a path of pointers. */
  ghost function LastPointer<P>(h: Objects<P>, p: P, path: Path): (Key, Target)
    requires Wired(h) && p in h.nodes
    decreases |path|
  {
    if path == [] || !HasSub(h, p, path[0]) then ("", NoModule)
    else if |path| == 1 then RowOf(h, p)[path[0]]
    else if Pointer(h, p, path[0]).Some? then LastPointer(h, Pointer(h, p, path[0]).value, path[1..])
    else ("", NoModule)
  }

  /** Nodes, keys and labels of the drawing of `key` are those of `p`. */
  ghost predicate DrawnAs<P>(t: Table, key: Key, h: Objects<P>, p: P)
    requires Mermaid.Acyclic(t) && Printable(t, key) && Wired(h) && p in h.nodes
  {
    forall path :: DrawnPath(t, key, h, p, path)
  }

  ghost predicate DrawnPath<P>(t: Table, key: Key, h: Objects<P>, p: P, path: Path)
    requires Mermaid.Acyclic(t) && Printable(t, key) && Wired(h) && p in h.nodes
  {
    && (IsPath(t, key, path) <==> IsPointerPath(h, p, path))
    && (IsPath(t, key, path) ==> LastStep(t, key, path) == LastPointer(h, p, path))
  }

  /** `p` has the submodules of the manager's module `key`, by name, and so has
      each submodule the ones of the manager's module of its name. */
  ghost predicate LikeManaged<P>(h: Objects<P>, p: P, key: Key)
    requires Wired(h) && p in h.nodes
    decreases h.rank[p]
  {
    && key in h.managed && RowOf(h, p) == RowOf(h, h.managed[key])
    && forall i :: HasSub(h, p, i) && Pointer(h, p, i).Some? ==>
         var q := Pointer(h, p, i).value;
         h.nodes[q].name.Some? && LikeManaged(h, q, h.nodes[q].name.value)
  }

  lemma {:induction false} LikeIsDrawn<P>(t: Table, key: Key, h: Objects<P>, p: P, path: Path)
    requires Mermaid.Acyclic(t) && Printable(t, key) && Wired(h) && p in h.nodes && t.rows == RowsOf(h)
    requires LikeManaged(h, p, key)
    ensures DrawnPath(t, key, h, p, path)
    decreases |path|
  {
    if path != [] && IsSub(t, key, path[0]) {
      var i := path[0];
      assert t.rows[key] == RowOf(h, p) && HasSub(h, p, i) && SubPrintable(t, key, i);
      if Pointer(h, p, i).Some? {
        LikeIsDrawn(t, Sub(t, key, i).name, h, Pointer(h, p, i).value, path[1..]);
        EmptyPath(t, Sub(t, key, i).name, h, Pointer(h, p, i).value);
      }
    } else if path != [] {
      assert t.rows[key] == RowOf(h, p);
    }
  }

  lemma EmptyPath<P>(t: Table, key: Key, h: Objects<P>, p: P)
    requires Mermaid.Acyclic(t) && Printable(t, key) && Wired(h) && p in h.nodes
    ensures IsPath(t, key, []) && IsPointerPath(h, p, [])
  {
  }

  lemma OneStep<P>(t: Table, key: Key, h: Objects<P>, p: P, i: nat)
    requires Mermaid.Acyclic(t) && Printable(t, key) && Wired(h) && p in h.nodes
    ensures IsPath(t, key, [i]) <==> IsSub(t, key, i)
    ensures IsPointerPath(h, p, [i]) <==> HasSub(h, p, i)
    ensures IsSub(t, key, i) ==> LastStep(t, key, [i]) == t.rows[key][i]
    ensures HasSub(h, p, i) ==> LastPointer(h, p, [i]) == RowOf(h, p)[i]
  {
    assert [i][0] == i && [i][1..] == [];
    if IsSub(t, key, i) {
      assert SubPrintable(t, key, i);
      if Sub(t, key, i).Named? {
        EmptyPath(t, Sub(t, key, i).name, h, p);
      }
    }
    if HasSub(h, p, i) && Pointer(h, p, i).Some? {
      EmptyPath(t, key, h, Pointer(h, p, i).value);
    }
  }

  lemma DrawnRow<P>(t: Table, key: Key, h: Objects<P>, p: P)
    requires Mermaid.Acyclic(t) && Printable(t, key) && Wired(h) && p in h.nodes && DrawnAs(t, key, h, p)
    ensures t.rows[key] == RowOf(h, p)
  {
    forall i: nat
      ensures IsSub(t, key, i) <==> HasSub(h, p, i)
      ensures IsSub(t, key, i) ==> t.rows[key][i] == RowOf(h, p)[i]
    {
      assert DrawnPath(t, key, h, p, [i]);
      OneStep(t, key, h, p, i);
    }
    var row := RowOf(h, p);
    assert IsSub(t, key, |row|) <==> HasSub(h, p, |row|);
    assert IsSub(t, key, |t.rows[key]|) <==> HasSub(h, p, |t.rows[key]|);
    assert forall i :: 0 <= i < |row| ==> IsSub(t, key, i);
  }

  lemma DrawnBelow<P>(t: Table, key: Key, h: Objects<P>, p: P, i: nat)
    requires Mermaid.Acyclic(t) && Printable(t, key) && Wired(h) && p in h.nodes && DrawnAs(t, key, h, p)
    requires t.rows[key] == RowOf(h, p) && HasSub(h, p, i) && Pointer(h, p, i).Some?
    ensures IsSub(t, key, i) && Sub(t, key, i).Named? && Printable(t, Sub(t, key, i).name)
    ensures DrawnAs(t, Sub(t, key, i).name, h, Pointer(h, p, i).value)
  {
    assert IsSub(t, key, i) && SubPrintable(t, key, i);
    var n, q := Sub(t, key, i).name, Pointer(h, p, i).value;
    forall path
      ensures DrawnPath(t, n, h, q, path)
    {
      assert DrawnPath(t, key, h, p, [i] + path);
      assert ([i] + path)[1..] == path;
    }
  }

  lemma {:induction false} DrawnIsLike<P>(t: Table, key: Key, h: Objects<P>, p: P)
    requires Mermaid.Acyclic(t) && Printable(t, key) && Wired(h) && p in h.nodes && t.rows == RowsOf(h)
    requires DrawnAs(t, key, h, p)
    ensures LikeManaged(h, p, key)
    decreases h.rank[p]
  {
    DrawnRow(t, key, h, p);
    forall i | HasSub(h, p, i) && Pointer(h, p, i).Some?
      ensures var q := Pointer(h, p, i).value;
              h.nodes[q].name.Some? && LikeManaged(h, q, h.nodes[q].name.value)
    {
      DrawnBelow(t, key, h, p, i);
      DrawnIsLike(t, Sub(t, key, i).name, h, Pointer(h, p, i).value);
    }
  }

  /** A module is drawn as the unfolding of its pointers exactly when each submodule
      has, all the way down, the submodules of the manager's module of its name. */
  lemma DrawnAsUnfoldingIff<P>(t: Table, key: Key, h: Objects<P>)
    requires Mermaid.Acyclic(t) && Printable(t, key) && Wired(h) && t.rows == RowsOf(h)
    ensures key in h.managed
    ensures DrawnAs(t, key, h, h.managed[key]) <==> LikeManaged(h, h.managed[key], key)
  {
    var p := h.managed[key];
    if LikeManaged(h, p, key) {
      forall path
        ensures DrawnPath(t, key, h, p, path)
      {
        LikeIsDrawn(t, key, h, p, path);
      }
    }
    if DrawnAs(t, key, h, p) {
      DrawnIsLike(t, key, h, p);
    }
  }

  // ------------------------------------------------------ names without cycles

  /** How deep the unfolding of an object is below its first `n` requests. */
  ghost function Height<P>(h: Objects<P>, p: P, n: nat): nat
    requires Wired(h) && p in h.nodes && n <= |h.nodes[p].subs|
    decreases h.rank[p], 1, n
  {
    if n == 0 then 0
    else
      assert HasSub(h, p, n - 1);
      Max(Height(h, p, n - 1), 1 + Below(h, p, n - 1))
  }

  function Max(a: nat, b: nat): nat {
    if a <= b then b else a
  }

  ghost function Below<P>(h: Objects<P>, p: P, i: nat): nat
    requires Wired(h) && HasSub(h, p, i)
    decreases h.rank[p], 0
  {
    if Pointer(h, p, i).None? then 0 else Depth(h, Pointer(h, p, i).value)
  }

  ghost function Depth<P>(h: Objects<P>, p: P): nat
    requires Wired(h) && p in h.nodes
    decreases h.rank[p], 2
  {
    Height(h, p, |h.nodes[p].subs|)
  }

  lemma {:induction false} BelowIsLower<P>(h: Objects<P>, p: P, n: nat, i: nat)
    requires Wired(h) && p in h.nodes && i < n <= |h.nodes[p].subs| && Pointer(h, p, i).Some?
    ensures Depth(h, Pointer(h, p, i).value) < Height(h, p, n)
    decreases n
  {
    if i < n - 1 {
      BelowIsLower(h, p, n - 1, i);
    }
  }

  /** Objects that are like one and the same managed module are equally deep. */
  lemma {:induction false} LikeIsAsDeep<P>(h: Objects<P>, p: P, q: P, key: Key)
    requires Wired(h) && p in h.nodes && q in h.nodes && LikeManaged(h, p, key) && LikeManaged(h, q, key)
    ensures Depth(h, p) == Depth(h, q)
    decreases h.rank[p], 1, 0
  {
    assert RowOf(h, p) == RowOf(h, q);
    LikeIsAsHigh(h, p, q, key, |h.nodes[p].subs|);
  }

  lemma {:induction false} LikeIsAsHigh<P>(h: Objects<P>, p: P, q: P, key: Key, n: nat)
    requires Wired(h) && p in h.nodes && q in h.nodes && LikeManaged(h, p, key) && LikeManaged(h, q, key)
    requires n <= |h.nodes[p].subs| == |h.nodes[q].subs|
    ensures Height(h, p, n) == Height(h, q, n)
    decreases h.rank[p], 0, n
  {
    hide LikeManaged, Depth;
    if n > 0 {
      LikeBelow(h, p, q, key, n - 1);
      LikeIsAsHigh(h, p, q, key, n - 1);
      if Pointer(h, p, n - 1).Some? {
        var x, y := Pointer(h, p, n - 1).value, Pointer(h, q, n - 1).value;
        LikeIsAsDeep(h, x, y, h.nodes[x].name.value);
      }
      assert Below(h, p, n - 1) == Below(h, q, n - 1);
    }
  }

  lemma LikeBelow<P>(h: Objects<P>, p: P, q: P, key: Key, i: nat)
    requires Wired(h) && p in h.nodes && q in h.nodes && LikeManaged(h, p, key) && LikeManaged(h, q, key)
    requires HasSub(h, p, i)
    ensures HasSub(h, q, i) && (Pointer(h, p, i).Some? <==> Pointer(h, q, i).Some?)
    ensures Pointer(h, p, i).Some? ==>
              var x, y := Pointer(h, p, i).value, Pointer(h, q, i).value;
              && h.nodes[x].name.Some? && h.nodes[y].name == h.nodes[x].name
              && LikeManaged(h, x, h.nodes[x].name.value) && LikeManaged(h, y, h.nodes[x].name.value)
  {
    assert RowOf(h, p)[i] == RowOf(h, q)[i];
  }

  ghost predicate AllLikeManaged<P>(h: Objects<P>)
    requires Wired(h)
  {
    forall key :: key in h.managed ==> LikeManaged(h, h.managed[key], key)
  }

  ghost function NameRank<P>(h: Objects<P>): Key -> nat
    requires Wired(h)
  {
    key => if key in h.managed then Depth(h, h.managed[key]) else 0
  }

  /** Then drawing ends: names form no cycle, and every name is found. */
  lemma NamesFormNoCycle<P>(h: Objects<P>)
    requires Wired(h) && AllLikeManaged(h)
    ensures var t := Table(RowsOf(h), NameRank(h));
            Mermaid.Acyclic(t) && forall key :: key in h.managed ==> Printable(t, key)
  {
    var t := Table(RowsOf(h), NameRank(h));
    forall key, i | IsSub(t, key, i)
      ensures Sub(t, key, i).NoModule? || (Sub(t, key, i).Named? && Sub(t, key, i).name in h.managed)
      ensures Sub(t, key, i).Named? ==> t.rank(Sub(t, key, i).name) < t.rank(key)
    {
      var p := h.managed[key];
      assert LikeManaged(h, p, key) && HasSub(h, p, i);
      if Pointer(h, p, i).Some? {
        var q, n := Pointer(h, p, i).value, Sub(t, key, i).name;
        assert LikeManaged(h, q, n) && LikeManaged(h, h.managed[n], n);
        LikeIsAsDeep(h, q, h.managed[n], n);
        BelowIsLower(h, p, |h.nodes[p].subs|, i);
      }
    }
    PrintableIffClosed(t);
  }

  /** A module has a copy of itself as its submodule: pointers form no cycle, but
      no ranking of the names does without one. */
  lemma CopyMakesNamesCyclic(name: Key)
    ensures var h := Objects(map[0 := Node(F.Some(name), [("s", F.Some(1))]), 1 := Node(F.Some(name), [("s", F.None)])],
                             map[name := 0], map[0 := 1, 1 := 0]);
            Wired(h) && forall rank: Key -> nat :: !Mermaid.Acyclic(Table(RowsOf(h), rank))
  {
    var h := Objects(map[0 := Node(F.Some(name), [("s", F.Some(1))]), 1 := Node(F.Some(name), [("s", F.None)])],
                     map[name := 0], map[0 := 1, 1 := 0]);
    assert Wired(h);
    forall rank: Key -> nat
      ensures !Mermaid.Acyclic(Table(RowsOf(h), rank))
    {
      var t := Table(RowsOf(h), rank);
      assert HasSub(h, 0, 0) && IsSub(t, name, 0) && Sub(t, name, 0) == Named(name);
    }
  }
}
