/** `CategoryGraphBuilder`: the tree of categories built from the category
    facet's filters.

    A node is a value; a position is the list of child indices that leads
    from a node to one of its descendants. The in-place updates of the Java
    nodes become rebuilding the tree along the position of the changed node
    (`Replace`), which is the same thing for a tree whose nodes are not
    shared. */
module CategoryGraphs {
  import opened Wrappers
  import opened Strings
  import opened FilterQueries
  import Utils

  const CategoryPath: string := "categoryPath"
  const CategorySeparator: char := '.'

  /** `CategoryGraph`: an id, a count, a path and the child list. */
  datatype CategoryGraph = CategoryGraph(id: Option<string>, count: int, path: Option<string>, children: seq<CategoryGraph>)

  /** The fields of `Facet.Filter` that the builder reads. */
  datatype Filter = Filter(name: Option<string>, count: int, path: Option<string>)

  /** A node as `new CategoryGraph()` with an empty child list leaves it. */
  function Fresh(id: Option<string>): CategoryGraph {
    CategoryGraph(id, 0, None, [])
  }

  // ---------------------------------------------------------------------
  // Positions

  predicate ValidPos(g: CategoryGraph, p: seq<nat>)
    decreases p
  {
    p == [] || (p[0] < |g.children| && ValidPos(g.children[p[0]], p[1..]))
  }

  function At(g: CategoryGraph, p: seq<nat>): CategoryGraph
    requires ValidPos(g, p)
    decreases p
  {
    if p == [] then g else At(g.children[p[0]], p[1..])
  }

  /** The tree with the node at `p` replaced by `n`; everything off that
      position is kept. */
  function Replace(g: CategoryGraph, p: seq<nat>, n: CategoryGraph): (r: CategoryGraph)
    requires ValidPos(g, p)
    ensures ValidPos(r, p) && At(r, p) == n
    ensures p != [] ==> r.id == g.id && r.count == g.count && r.path == g.path
    ensures p != [] ==> |r.children| == |g.children|
    ensures p != [] ==> forall k :: 0 <= k < |g.children| && k != p[0] ==> r.children[k] == g.children[k]
    decreases p
  {
    if p == [] then n
    else g.(children := g.children[p[0] := Replace(g.children[p[0]], p[1..], n)])
  }

  // ---------------------------------------------------------------------
  // Searching

  /** Some node of the tree has the given id. */
  predicate Occurs(g: CategoryGraph, id: string) {
    g.id == Some(id) || exists k :: 0 <= k < |g.children| && Occurs(g.children[k], id)
  }

  /** `search`: the position of the first node in preorder whose id equals
      `id`, or `None` (the Java `null`) when no node has it. First in
      preorder: the node itself when it has the id, otherwise a node inside
      the first child whose subtree has it. */
  function Search(id: string, g: CategoryGraph): (r: Option<seq<nat>>)
    ensures r.Some? ==> ValidPos(g, r.value) && At(g, r.value).id == Some(id)
    ensures r.None? <==> !Occurs(g, id)
    ensures r == Some([]) <==> g.id == Some(id)
    ensures r.Some? && r.value != [] ==> forall k :: 0 <= k < r.value[0] ==> !Occurs(g.children[k], id)
    ensures r.Some? && r.value != [] ==> r.value[0] < |g.children| && Search(id, g.children[r.value[0]]) == Some(r.value[1..])
    decreases g, |g.children| + 1
  {
    if g.id == Some(id) then Some([]) else SearchFrom(id, g, 0)
  }

  /** The search over the children of `g` from index `i` on. */
  function SearchFrom(id: string, g: CategoryGraph, i: nat): (r: Option<seq<nat>>)
    requires i <= |g.children|
    ensures r.Some? ==> r.value != [] && i <= r.value[0] && ValidPos(g, r.value) && At(g, r.value).id == Some(id)
    ensures r.None? <==> forall k :: i <= k < |g.children| ==> !Occurs(g.children[k], id)
    ensures r.Some? ==> forall k :: i <= k < r.value[0] ==> !Occurs(g.children[k], id)
    ensures r.Some? ==> r.value[0] < |g.children| && Search(id, g.children[r.value[0]]) == Some(r.value[1..])
    decreases g, |g.children| - i
  {
    if i == |g.children| then None
    else
      match Search(id, g.children[i])
      case Some(p) => Some([i] + p)
      case None => SearchFrom(id, g, i + 1)
  }

  // ---------------------------------------------------------------------
  // Invariant: every node below the root has an id

  predicate Named(g: CategoryGraph) {
    forall k :: 0 <= k < |g.children| ==> g.children[k].id.Some? && Named(g.children[k])
  }

  lemma {:induction false} NamedAt(g: CategoryGraph, p: seq<nat>)
    requires Named(g) && ValidPos(g, p)
    ensures Named(At(g, p))
    ensures p != [] ==> At(g, p).id.Some?
    decreases p
  {
    if p != [] {
      NamedAt(g.children[p[0]], p[1..]);
    }
  }

  lemma {:induction false} NamedReplace(g: CategoryGraph, p: seq<nat>, n: CategoryGraph)
    requires Named(g) && ValidPos(g, p) && Named(n)
    requires p != [] ==> n.id.Some?
    ensures Named(Replace(g, p, n))
    decreases p
  {
    if p != [] {
      var c := g.children[p[0]];
      if p[1..] != [] {
        NamedReplace(c, p[1..], n);
      }
    }
  }

  // ---------------------------------------------------------------------
  // Sorting a child list by id (`Collections.sort` with `compareTo`)

  /** The key `compareTo` compares; under `Named` no child is without an id. */
  function Key(g: CategoryGraph): string {
    g.id.GetOr([])
  }

  predicate SortedById(s: seq<CategoryGraph>) {
    forall i, j :: 0 <= i < j < |s| ==> LexLessEq(Key(s[i]), Key(s[j]))
  }

  /** Inserts `x` after every element whose id is not greater than its own. */
  function Insert(s: seq<CategoryGraph>, x: CategoryGraph): (r: seq<CategoryGraph>)
    ensures multiset(r) == multiset(s) + multiset{x}
    ensures |r| == |s| + 1
    ensures forall y :: y in r <==> y in s || y == x
  {
    if s == [] then [x]
    else if !LexLessEq(Key(s[0]), Key(x)) then [x] + s
    else
      assert s == [s[0]] + s[1..];
      [s[0]] + Insert(s[1..], x)
  }

  /** Inserting into a sorted list keeps it sorted. */
  lemma {:induction false} InsertSorted(s: seq<CategoryGraph>, x: CategoryGraph)
    requires SortedById(s)
    ensures SortedById(Insert(s, x))
    decreases |s|
  {
    if s == [] {
    } else if !LexLessEq(Key(s[0]), Key(x)) {
      var r := [x] + s;
      assert r == Insert(s, x);
      LexLessEqTotal(Key(s[0]), Key(x));
      forall j | 0 < j < |r| ensures LexLessEq(Key(x), Key(r[j])) {
        if j > 1 {
          LexLessEqTrans(Key(x), Key(s[0]), Key(s[j - 1]));
        }
      }
      forall i, j | 0 < i < j < |r| ensures LexLessEq(Key(r[i]), Key(r[j])) {
        assert r[i] == s[i - 1] && r[j] == s[j - 1];
      }
    } else {
      var tail := s[1..];
      assert SortedById(tail) by {
        forall i, j | 0 <= i < j < |tail| ensures LexLessEq(Key(tail[i]), Key(tail[j])) {
          assert tail[i] == s[i + 1] && tail[j] == s[j + 1];
        }
      }
      InsertSorted(tail, x);
      var rest := Insert(tail, x);
      var r := [s[0]] + rest;
      assert r == Insert(s, x);
      forall j | 0 < j < |r| ensures LexLessEq(Key(s[0]), Key(r[j])) {
        assert r[j] == rest[j - 1];
        assert r[j] in rest;
        if r[j] != x {
          var k :| 0 <= k < |tail| && tail[k] == r[j];
          assert s[k + 1] == r[j];
        }
      }
      forall i, j | 0 < i < j < |r| ensures LexLessEq(Key(r[i]), Key(r[j])) {
        assert r[i] == rest[i - 1] && r[j] == rest[j - 1];
      }
    }
  }

  /** A stable sort of a child list by id. */
  function SortById(s: seq<CategoryGraph>): (r: seq<CategoryGraph>)
    ensures multiset(r) == multiset(s) && |r| == |s|
    ensures SortedById(r)
  {
    if s == [] then []
    else
      var init, last := s[..|s| - 1], s[|s| - 1];
      assert s == init + [last];
      InsertSorted(SortById(init), last);
      Insert(SortById(init), last)
  }

  /** The nodes of `s` whose id is `k`, in order. */
  function WithKey(s: seq<CategoryGraph>, k: string): (r: seq<CategoryGraph>)
    ensures |r| <= |s|
  {
    if s == [] then [] else (if Key(s[0]) == k then [s[0]] else []) + WithKey(s[1..], k)
  }

  lemma {:induction false} WithKeyConcat(a: seq<CategoryGraph>, b: seq<CategoryGraph>, k: string)
    ensures WithKey(a + b, k) == WithKey(a, k) + WithKey(b, k)
    decreases |a|
  {
    if a == [] {
      assert a + b == b;
    } else {
      assert (a + b)[0] == a[0];
      assert (a + b)[1..] == a[1..] + b;
      WithKeyConcat(a[1..], b, k);
    }
  }

  lemma {:induction false} WithKeyNone(s: seq<CategoryGraph>, k: string)
    requires forall j :: 0 <= j < |s| ==> Key(s[j]) != k
    ensures WithKey(s, k) == []
    decreases |s|
  {
    if s != [] {
      assert forall j :: 0 <= j < |s| - 1 ==> s[1..][j] == s[j + 1];
      WithKeyNone(s[1..], k);
    }
  }

  /** `[x]` when `x` has id `k`, otherwise nothing. */
  function Own(x: CategoryGraph, k: string): seq<CategoryGraph>
  {
    if Key(x) == k then [x] else []
  }

  lemma WithKeyCons(x: CategoryGraph, s: seq<CategoryGraph>, k: string)
    ensures WithKey([x] + s, k) == Own(x, k) + WithKey(s, k)
  {
    assert ([x] + s)[1..] == s;
  }

  lemma SortedTail(s: seq<CategoryGraph>)
    requires s != [] && SortedById(s)
    ensures SortedById(s[1..])
  {
    var tail := s[1..];
    forall i, j | 0 <= i < j < |tail| ensures LexLessEq(Key(tail[i]), Key(tail[j])) {
      assert tail[i] == s[i + 1] && tail[j] == s[j + 1];
    }
  }

  lemma ChildrenAssoc(a: seq<CategoryGraph>, b: seq<CategoryGraph>, c: seq<CategoryGraph>)
    ensures (a + b) + c == a + (b + c)
  {
  }

  /** Inserting `x` puts it after every node with the same id. */
  lemma {:induction false} InsertWithKey(s: seq<CategoryGraph>, x: CategoryGraph, k: string)
    requires SortedById(s)
    ensures WithKey(Insert(s, x), k) == WithKey(s, k) + Own(x, k)
    decreases |s|
  {
    if s == [] {
      assert Insert(s, x) == [x] + s;
      WithKeyCons(x, s, k);
      assert WithKey(Insert(s, x), k) == WithKey(s, k) + Own(x, k);
    } else if !LexLessEq(Key(s[0]), Key(x)) {
      assert Insert(s, x) == [x] + s;
      WithKeyCons(x, s, k);
      if Key(x) == k {
        forall j | 0 <= j < |s| ensures Key(s[j]) != k {
          if j > 0 {
            assert LexLessEq(Key(s[0]), Key(s[j]));
          } else {
            LexLessEqTotal(Key(x), Key(x));
          }
        }
        WithKeyNone(s, k);
      }
      assert WithKey(Insert(s, x), k) == WithKey(s, k) + Own(x, k);
    } else {
      var tail := s[1..];
      SortedTail(s);
      InsertWithKey(tail, x, k);
      assert Insert(s, x) == [s[0]] + Insert(tail, x);
      WithKeyCons(s[0], Insert(tail, x), k);
      assert WithKey(s, k) == Own(s[0], k) + WithKey(tail, k);
      ChildrenAssoc(Own(s[0], k), WithKey(tail, k), Own(x, k));
    }
  }

  /** The sort is stable: nodes with the same id keep their relative order. */
  lemma {:induction false} SortByIdStable(s: seq<CategoryGraph>, k: string)
    ensures WithKey(SortById(s), k) == WithKey(s, k)
    decreases |s|
  {
    if s != [] {
      var init, last := s[..|s| - 1], s[|s| - 1];
      assert s == init + [last];
      SortByIdStable(init, k);
      assert SortById(s) == Insert(SortById(init), last);
      InsertWithKey(SortById(init), last, k);
      WithKeyConcat(init, [last], k);
      WithKeyCons(last, [], k);
      assert [last] + [] == [last];
    }
  }

  lemma NamedSorted(g: CategoryGraph)
    requires Named(g)
    ensures Named(g.(children := SortById(g.children)))
  {
    var s := SortById(g.children);
    forall k | 0 <= k < |s| ensures s[k].id.Some? && Named(s[k]) {
      assert s[k] in multiset(g.children);
    }
  }

  // ---------------------------------------------------------------------
  // Size

  function Size(g: CategoryGraph): nat
    decreases g
  {
    1 + SizeAll(g.children)
  }

  function SizeAll(s: seq<CategoryGraph>): nat
    decreases s
  {
    if s == [] then 0 else Size(s[0]) + SizeAll(s[1..])
  }

  lemma {:induction false} SizeAllSnoc(s: seq<CategoryGraph>, x: CategoryGraph)
    ensures SizeAll(s + [x]) == SizeAll(s) + Size(x)
    decreases |s|
  {
    if s != [] {
      assert (s + [x])[1..] == s[1..] + [x];
      SizeAllSnoc(s[1..], x);
    } else {
      assert [x][1..] == [];
    }
  }

  lemma {:induction false} SizeAllUpdate(s: seq<CategoryGraph>, i: nat, x: CategoryGraph)
    requires i < |s|
    ensures SizeAll(s[i := x]) + Size(s[i]) == SizeAll(s) + Size(x)
    decreases |s|
  {
    if i > 0 {
      assert s[i := x][1..] == s[1..][i - 1 := x];
      SizeAllUpdate(s[1..], i - 1, x);
    } else {
      assert s[i := x][1..] == s[1..];
    }
  }

  lemma {:induction false} SizeReplace(g: CategoryGraph, p: seq<nat>, n: CategoryGraph)
    requires ValidPos(g, p)
    ensures Size(Replace(g, p, n)) + Size(At(g, p)) == Size(g) + Size(n)
    decreases p
  {
    if p != [] {
      var c := g.children[p[0]];
      SizeReplace(c, p[1..], n);
      SizeAllUpdate(g.children, p[0], Replace(c, p[1..], n));
    }
  }

  lemma {:induction false} SizeAllInsert(s: seq<CategoryGraph>, x: CategoryGraph)
    ensures SizeAll(Insert(s, x)) == SizeAll(s) + Size(x)
    decreases |s|
  {
    if s != [] && LexLessEq(Key(s[0]), Key(x)) {
      SizeAllInsert(s[1..], x);
      assert ([s[0]] + Insert(s[1..], x))[1..] == Insert(s[1..], x);
    } else if s != [] {
      assert ([x] + s)[1..] == s;
    }
  }

  lemma {:induction false} SizeAllSorted(s: seq<CategoryGraph>)
    ensures SizeAll(SortById(s)) == SizeAll(s)
    decreases |s|
  {
    if s != [] {
      var init, last := s[..|s| - 1], s[|s| - 1];
      assert s == init + [last];
      calc {
        SizeAll(SortById(s));
        SizeAll(Insert(SortById(init), last));
        { SizeAllInsert(SortById(init), last); }
        SizeAll(SortById(init)) + Size(last);
        { SizeAllSorted(init); }
        SizeAll(init) + Size(last);
        { SizeAllSnoc(init, last); }
        SizeAll(s);
      }
    }
  }

  // ---------------------------------------------------------------------
  // Labels

  /** Some node of the tree carries this id, count and path. */
  predicate Carries(g: CategoryGraph, id: string, count: int, path: Option<string>) {
    (g.id == Some(id) && g.count == count && g.path == path)
    || exists k :: 0 <= k < |g.children| && Carries(g.children[k], id, count, path)
  }

  lemma {:induction false} CarriesReplace(g: CategoryGraph, p: seq<nat>, n: CategoryGraph, id: string, count: int, path: Option<string>)
    requires ValidPos(g, p) && Carries(n, id, count, path)
    ensures Carries(Replace(g, p, n), id, count, path)
    decreases p
  {
    if p != [] {
      var r := Replace(g, p, n);
      CarriesReplace(g.children[p[0]], p[1..], n, id, count, path);
      assert Carries(r.children[p[0]], id, count, path);
    }
  }

  /** `CarriesReplace` for the leaf a named filter places. */
  lemma CarriesLeafReplace(g: CategoryGraph, p: seq<nat>, n: CategoryGraph, f: Filter)
    requires ValidPos(g, p)
    requires f.name.Some? ==> Carries(n, LeafId(f.name.value), ToInt32(f.count), f.path)
    ensures f.name.Some? ==> Carries(Replace(g, p, n), LeafId(f.name.value), ToInt32(f.count), f.path)
  {
    if f.name.Some? {
      CarriesReplace(g, p, n, LeafId(f.name.value), ToInt32(f.count), f.path);
    }
  }

  lemma CarriesSorted(g: CategoryGraph, id: string, count: int, path: Option<string>)
    requires Carries(g, id, count, path)
    ensures Carries(g.(children := SortById(g.children)), id, count, path)
  {
    var s := SortById(g.children);
    if !(g.id == Some(id) && g.count == count && g.path == path) {
      var k :| 0 <= k < |g.children| && Carries(g.children[k], id, count, path);
      assert g.children[k] in multiset(s);
      var j :| 0 <= j < |s| && s[j] == g.children[k];
    }
  }

  // ---------------------------------------------------------------------
  // Building

  /** `(int) filter.getCount()`: the low 32 bits of the long, as a signed int. */
  function ToInt32(n: int): (r: int)
    ensures -0x8000_0000 <= r < 0x8000_0000
    ensures (r - n) % 0x1_0000_0000 == 0
    ensures -0x8000_0000 <= n < 0x8000_0000 ==> r == n
  {
    var m := n % 0x1_0000_0000;
    if m < 0x8000_0000 then m else m - 0x1_0000_0000
  }

  /** The id of a leaf: the filter name after its last `.`. */
  function LeafId(name: string): (r: string)
    ensures CategorySeparator !in r
    ensures r == name || (|r| < |name| && name[|name| - |r| - 1] == CategorySeparator && name[|name| - |r|..] == r)
  {
    var dot := LastIndexOf(name, CategorySeparator);
    if dot == -1 then name else name[dot + 1..]
  }

  /** `createNewNode`: the node the filter name finds below `parent` (or a
      new last child when none has it) takes the leaf id, the count and the
      path of the filter; then the parent's child list is sorted by id. */
  function PlaceLeaf(parent: CategoryGraph, name: string, f: Filter): (r: CategoryGraph)
    requires Named(parent)
    ensures Named(r)
    ensures SortedById(r.children)
    ensures Carries(r, LeafId(name), ToInt32(f.count), f.path)
    ensures Size(r) == Size(parent) + (if Occurs(parent, name) then 0 else 1)
    ensures Occurs(parent, name) <==> |r.children| == |parent.children|
    ensures !Occurs(parent, name) ==> r.id == parent.id && r.count == parent.count && r.path == parent.path
    ensures parent.id != Some(name) ==> r.id == parent.id
    ensures parent.id.Some? ==> r.id.Some?
    ensures r.id == parent.id || (parent.id == Some(name) && r.id == Some(LeafId(name)))
  {
    var id, count := LeafId(name), ToInt32(f.count);
    var placed := (
      match Search(name, parent)
      case None =>
        var leaf := CategoryGraph(Some(id), count, f.path, []);
        SizeAllSnoc(parent.children, leaf);
        assert Carries(parent.(children := parent.children + [leaf]).children[|parent.children|], id, count, f.path);
        parent.(children := parent.children + [leaf])
      case Some(q) =>
        var node := At(parent, q);
        var labelled := node.(id := Some(id), count := count, path := f.path);
        NamedAt(parent, q);
        NamedReplace(parent, q, labelled);
        SizeReplace(parent, q, labelled);
        CarriesReplace(parent, q, labelled, id, count, f.path);
        Replace(parent, q, labelled));
    NamedSorted(placed);
    SizeAllSorted(placed.children);
    CarriesSorted(placed, id, count, f.path);
    placed.(children := SortById(placed.children))
  }

  /** `recursiveAdd` from `parts[index]` on, below `node`. Every segment but
      the last descends into the node that search finds with that id, or into
      a new last child with that id when none has it; the last places the
      leaf. A filter without a name fails there with a NullPointerException, after
      the intermediate nodes are in place; the tree it leaves is the one
      returned. */
  function RecursiveAdd(node: CategoryGraph, f: Filter, parts: seq<string>, index: nat): (r: CategoryGraph)
    requires Named(node)
    ensures Named(r)
    ensures Size(node) <= Size(r)
    ensures index < |parts| ==> Size(r) <= Size(node) + (|parts| - index)
    ensures index >= |parts| ==> r == node
    ensures node.id != f.name ==> r.id == node.id
    ensures node.id.Some? ==> r.id.Some?
    ensures r.id == node.id || (f.name.Some? && node.id == f.name && r.id == Some(LeafId(f.name.value)))
    ensures f.name.Some? && index < |parts| ==> Carries(r, LeafId(f.name.value), ToInt32(f.count), f.path)
    decreases |parts| - index
  {
    if |parts| == 0 || |parts| - index < 1 then node
    else if |parts| - index == 1 then
      if f.name.None? then node else PlaceLeaf(node, f.name.value, f)
    else
      var id := parts[index];
      match Search(id, node)
      case None =>
        var child := RecursiveAdd(Fresh(Some(id)), f, parts, index + 1);
        var r := node.(children := node.children + [child]);
        SizeAllSnoc(node.children, child);
        assert Size(Fresh(Some(id))) == 1;
        assert r.children[|node.children|] == child;
        r
      case Some(q) =>
        NamedAt(node, q);
        var child := RecursiveAdd(At(node, q), f, parts, index + 1);
        NamedReplace(node, q, child);
        SizeReplace(node, q, child);
        CarriesLeafReplace(node, q, child, f);
        Replace(node, q, child)
  }

  /** The tree after `addPath`, and the exception it throws, if any. */
  datatype Added = Added(tree: CategoryGraph, error: Option<Exception>)

  /** `addPath`: the last `categoryPath` expression of the filter's path is
      split on `.`; its first segment becomes the root id and the rest is
      added below the root. */
  function AddPathOf(root: CategoryGraph, f: Filter): (r: Added)
    requires Named(root)
    ensures Named(r.tree)
  {
    match Utils.FilterExpressionByName(f.path, CategoryPath)
    case Err(e) => Added(root, Some(e))
    case Ok(None) => Added(root, None)
    case Ok(Some(expression)) =>
      var parts := Split(expression, {CategorySeparator});
      if parts == [] then Added(root, Some(IndexOutOfBounds))
      else
        var error := if f.name.None? && |parts| >= 2 then Some(NullPointer) else None;
        Added(RecursiveAdd(root.(id := Some(parts[0])), f, parts, 1), error)
  }

  /** A filter whose path names no category leaves the tree as it was. */
  lemma NoCategoryPathUnchanged(root: CategoryGraph, f: Filter, fqs: seq<FilterQuery>)
    requires Named(root)
    requires ParsePath(f.path) == Ok(Some(fqs))
    requires forall k :: 0 <= k < |fqs| ==> fqs[k].fieldName != CategoryPath
    ensures AddPathOf(root, f) == Added(root, None)
  {
  }

  /** A segment of a category path holds no separator, so it is its own leaf id. */
  lemma SegmentIsLeafId(segment: string)
    requires forall k :: 0 <= k < |segment| ==> segment[k] != CategorySeparator
    ensures LeafId(segment) == segment
  {
  }

  /** The root takes the first segment of the category path as its id. When
      the filter's own name is that segment the leaf search finds the root
      itself and relabels it, with the same id. */
  lemma RootIdIsFirstSegment(root: CategoryGraph, f: Filter, expression: string)
    requires Named(root)
    requires Utils.FilterExpressionByName(f.path, CategoryPath) == Ok(Some(expression))
    requires Split(expression, {CategorySeparator}) != []
    ensures AddPathOf(root, f).tree.id == Some(Split(expression, {CategorySeparator})[0])
  {
    SegmentIsLeafId(Split(expression, {CategorySeparator})[0]);
  }

  /** A named filter with a category path of two or more segments ends up as
      a node with the leaf id, the filter's count and the filter's path. */
  lemma LeafIsPlaced(root: CategoryGraph, f: Filter, expression: string)
    requires Named(root) && f.name.Some?
    requires Utils.FilterExpressionByName(f.path, CategoryPath) == Ok(Some(expression))
    requires |Split(expression, {CategorySeparator})| >= 2
    ensures AddPathOf(root, f).error.None?
    ensures Carries(AddPathOf(root, f).tree, LeafId(f.name.value), ToInt32(f.count), f.path)
  {
  }

  /** An intermediate segment that search finds creates no node at its level:
      the nodes added are fewer than the segments left. */
  lemma IntermediateFound(node: CategoryGraph, f: Filter, parts: seq<string>, index: nat)
    requires Named(node)
    requires |parts| - index >= 2 && Search(parts[index], node).Some?
    ensures Size(RecursiveAdd(node, f, parts, index)) <= Size(node) + (|parts| - index - 1)
  {
    var q := Search(parts[index], node).value;
    NamedAt(node, q);
    var child := RecursiveAdd(At(node, q), f, parts, index + 1);
    SizeReplace(node, q, child);
  }

  /** An intermediate segment (which, like every segment of a split path,
      holds no separator) that search does not find becomes a new last child
      with that id, the earlier children untouched. */
  lemma IntermediateMissing(node: CategoryGraph, f: Filter, parts: seq<string>, index: nat)
    requires Named(node)
    requires |parts| - index >= 2 && !Occurs(node, parts[index])
    requires forall k :: 0 <= k < |parts[index]| ==> parts[index][k] != CategorySeparator
    ensures var r := RecursiveAdd(node, f, parts, index);
      |r.children| == |node.children| + 1 && r.children[..|node.children|] == node.children
      && r.children[|node.children|].id == Some(parts[index])
  {
    SegmentIsLeafId(parts[index]);
  }

  /** `CategoryGraphBuilder`: the root node, which `addPath` grows. */
  class CategoryGraphBuilder {
    var parentNode: CategoryGraph

    predicate Valid()
      reads this
    {
      Named(parentNode)
    }

    constructor()
      ensures Valid() && parentNode == Fresh(None)
    {
      parentNode := Fresh(None);
    }

    /** `getCategoryGraphList`. */
    function CategoryGraphList(): (r: seq<CategoryGraph>)
      reads this
      requires Valid()
      ensures forall k :: 0 <= k < |r| ==> r[k].id.Some?
    {
      parentNode.children
    }

    method AddPath(f: Filter) returns (error: Option<Exception>)
      requires Valid()
      modifies this
      ensures Valid()
      ensures Added(parentNode, error) == AddPathOf(old(parentNode), f)
    {
      var found := Utils.FindFilterExpressionByName(f.path, CategoryPath);
      if found.Err? {
        return Some(found.error);
      }
      if found.value.None? {
        return None;
      }
      var parts := Split(found.value.value, {CategorySeparator});
      if |parts| == 0 {
        return Some(IndexOutOfBounds);
      }
      parentNode := RecursiveAdd(parentNode.(id := Some(parts[0])), f, parts, 1);
      error := if f.name.None? && |parts| >= 2 then Some(NullPointer) else None;
    }
  }
}
