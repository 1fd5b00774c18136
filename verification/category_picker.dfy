/**
 * The selection logic and the tree grouping of the category picker
 * (src/components/CategoryPicker.tsx).  The list of categories, which the
 * component fetches from the backend, is an input here.
 */
module CategoryPicker {
  import opened Wrappers
  import opened Lists

  /** A row of the `categories` table as the picker selects it. */
  datatype Category = Category(
    id: int,
    name: string,
    slug: string,
    parentId: Option<int>,
    depth: int,
    path: string)

  // ---------------------------------------------------------------------
  // Selection

  /** `isChecked`: the id occurs in the selected list. */
  predicate IsChecked(value: seq<int>, id: int)
    ensures IsChecked(value, id) <==> exists i :: 0 <= i < |value| && value[i] == id
  {
    id in value
  }

  /** `value.filter(x => x !== id)`. */
  function RemoveAll(value: seq<int>, id: int): (r: seq<int>)
    ensures !IsChecked(r, id)
    ensures forall x {:trigger multiset(r)[x]} :: x != id ==> multiset(r)[x] == multiset(value)[x]
  {
    var r := Filter(value, x => x != id);
    forall x ensures multiset(r)[x] == if x != id then multiset(value)[x] else 0 {
      FilterMultiset(value, x => x != id, x);
    }
    r
  }

  /** `toggle`: the new selection passed to `onChange`.  In single mode the
      selection becomes empty or just this id; in multi mode every occurrence
      of a selected id is dropped, and an unselected id is appended. */
  function Toggle(value: seq<int>, id: int, single: bool): (r: seq<int>)
    // the id's checked state always flips
    ensures IsChecked(r, id) == !IsChecked(value, id)
    // single mode keeps at most this id
    ensures single ==> |r| <= 1 && (forall i :: 0 <= i < |r| ==> r[i] == id)
    // multi mode: unchecking removes every occurrence, checking appends at the end
    ensures !single && IsChecked(value, id) ==> |r| < |value|
    ensures !single && !IsChecked(value, id) ==> r == value + [id]
    // multi mode: every other id keeps its number of occurrences
    ensures !single ==> forall x {:trigger multiset(r)[x]} :: x != id ==> multiset(r)[x] == multiset(value)[x]
  {
    if single then
      if IsChecked(value, id) then [] else [id]
    else if IsChecked(value, id) then
      assert |RemoveAll(value, id)| < |value| by {
        var i :| 0 <= i < |value| && value[i] == id;
        FilterShrinks(value, x => x != id, i);
      }
      RemoveAll(value, id)
    else
      value + [id]
  }

  /** In multi mode a toggle leaves the other ids where they were: once the
      toggled id is taken out, old and new selections are the same list. */
  lemma ToggleKeepsOthers(value: seq<int>, id: int)
    ensures RemoveAll(Toggle(value, id, false), id) == RemoveAll(value, id)
  {
    var p := x => x != id;
    if IsChecked(value, id) {
      FilterIdempotent(value, p);
    } else {
      FilterConcat(value, [id], p);
      assert Filter([id], p) == [] by {
        assert [id][..0] == [];
      }
      assert Filter(value, p) + [] == Filter(value, p);
    }
  }

  /** In multi mode, checking an unchecked id and unchecking it again
      restores the selection exactly. */
  lemma ToggleTwiceRestores(value: seq<int>, id: int)
    requires !IsChecked(value, id)
    ensures Toggle(Toggle(value, id, false), id, false) == value
  {
    ToggleKeepsOthers(value, id);
    FilterKeepsAll(value, x => x != id);
  }

  // ---------------------------------------------------------------------
  // Tree structure

  /** A category at the top of the tree. */
  predicate IsRoot(c: Category) {
    c.depth == 0
  }

  /** `roots`: the categories of depth 0, in input order. */
  function Roots(cats: seq<Category>): (r: seq<Category>)
    ensures forall i :: 0 <= i < |r| ==> r[i] in cats && r[i].depth == 0
    ensures forall i :: 0 <= i < |cats| && cats[i].depth == 0 ==> cats[i] in r
  {
    Filter(cats, IsRoot)
  }

  /** The roots of a concatenation are the roots of each part, in order: the
      root list preserves the input order. */
  lemma RootsInOrder(a: seq<Category>, b: seq<Category>)
    ensures Roots(a + b) == Roots(a) + Roots(b)
  {
    FilterConcat(a, b, IsRoot);
  }

  /** A root appears in the root list as often as in the input. */
  lemma RootsMultiplicity(cats: seq<Category>, c: Category)
    ensures multiset(Roots(cats))[c] == if c.depth == 0 then multiset(cats)[c] else 0
  {
    FilterMultiset(cats, IsRoot, c);
  }

  // ---------------------------------------------------------------------
  // Grouping by parent

  /** The categories hanging directly under the category with id `k`. */
  function Children(cats: seq<Category>, k: int): (r: seq<Category>)
    ensures forall i :: 0 <= i < |r| ==> r[i].parentId == Some(k)
    // every child of `k`, as often as in the input, and nothing else
    ensures forall c {:trigger multiset(r)[c]} ::
              multiset(r)[c] == if c.parentId == Some(k) then multiset(cats)[c] else 0
  {
    var r := Filter(cats, (c: Category) => c.parentId == Some(k));
    forall c ensures multiset(r)[c] == if c.parentId == Some(k) then multiset(cats)[c] else 0 {
      FilterMultiset(cats, (c: Category) => c.parentId == Some(k), c);
    }
    r
  }

  /** The ids that some category names as its parent. */
  function ParentIds(cats: seq<Category>): set<int> {
    set c | c in cats && c.parentId.Some? :: c.parentId.value
  }

  /** The parent ids in the order a JavaScript `Map` meets them as keys:
      each at the first category that names it. */
  function ParentOrder(cats: seq<Category>): (r: seq<int>)
    ensures forall k :: k in r <==> k in ParentIds(cats)
    ensures forall i, j :: 0 <= i < j < |r| ==> r[i] != r[j]
  {
    if cats == [] then []
    else
      var init, c := cats[..|cats| - 1], cats[|cats| - 1];
      var r := ParentOrder(init);
      assert cats == init + [c];
      if c.parentId.Some? && c.parentId.value !in r then r + [c.parentId.value] else r
  }

  /** Keys are only ever added at the end: the order for a prefix of the
      input is a prefix of the order for the whole. */
  lemma {:induction false} ParentOrderExtends(cats: seq<Category>, n: nat)
    requires n <= |cats|
    ensures ParentOrder(cats[..n]) <= ParentOrder(cats)
    decreases |cats| - n
  {
    if n < |cats| {
      ParentOrderExtends(cats, n + 1);
      assert cats[..n + 1][..n] == cats[..n];
    } else {
      assert cats[..n] == cats;
    }
  }

  /** The comparison the groups are sorted by (`localeCompare(a, b) <= 0`):
      any total preorder on names, since ties between names that differ only
      in case or accents are allowed. */
  ghost predicate TotalPreorder(le: (string, string) -> bool) {
    && (forall a, b :: le(a, b) || le(b, a))
    && (forall a, b, c :: le(a, b) && le(b, c) ==> le(a, c))
  }

  predicate SortedByName(s: seq<Category>, le: (string, string) -> bool) {
    forall i, j :: 0 <= i < j < |s| ==> le(s[i].name, s[j].name)
  }

  /** Places `c` before the first element whose name it does not exceed. */
  function Insert(c: Category, s: seq<Category>, le: (string, string) -> bool): (r: seq<Category>)
    ensures multiset(r) == multiset(s) + multiset{c}
  {
    if s == [] then [c]
    else if le(c.name, s[0].name) then [c] + s
    else
      assert s == [s[0]] + s[1..];
      [s[0]] + Insert(c, s[1..], le)
  }

  /** The in-place `arr.sort(...)` of one group, as the sorted list it
      leaves behind: a reordering of the group. */
  function SortByName(s: seq<Category>, le: (string, string) -> bool): (r: seq<Category>)
    ensures multiset(r) == multiset(s)
  {
    if s == [] then []
    else
      assert s == [s[0]] + s[1..];
      Insert(s[0], SortByName(s[1..], le), le)
  }

  lemma {:induction false} InsertSorted(c: Category, s: seq<Category>, le: (string, string) -> bool)
    requires TotalPreorder(le)
    requires SortedByName(s, le)
    ensures SortedByName(Insert(c, s, le), le)
    decreases |s|
  {
    if s != [] && !le(c.name, s[0].name) {
      InsertSorted(c, s[1..], le);
      assert le(s[0].name, c.name);
      InsertKeepsLowerBound(c, s[1..], le, s[0].name);
    }
  }

  /** A name below `c` and below every element of `s` stays below every
      element once `c` is inserted. */
  lemma {:induction false} InsertKeepsLowerBound(c: Category, s: seq<Category>, le: (string, string) -> bool, x: string)
    requires le(x, c.name)
    requires forall i :: 0 <= i < |s| ==> le(x, s[i].name)
    ensures forall i :: 0 <= i < |Insert(c, s, le)| ==> le(x, Insert(c, s, le)[i].name)
    decreases |s|
  {
    if s != [] && !le(c.name, s[0].name) {
      InsertKeepsLowerBound(c, s[1..], le, x);
      var t := Insert(c, s[1..], le);
      assert Insert(c, s, le) == [s[0]] + t;
      forall i | 0 <= i < |t| + 1 ensures le(x, ([s[0]] + t)[i].name) {
        if i > 0 {
          assert ([s[0]] + t)[i] == t[i - 1];
        }
      }
    }
  }

  /** Every group comes out sorted by name. */
  lemma {:induction false} SortByNameSorted(s: seq<Category>, le: (string, string) -> bool)
    requires TotalPreorder(le)
    ensures SortedByName(SortByName(s, le), le)
    decreases |s|
  {
    if s != [] {
      SortByNameSorted(s[1..], le);
      InsertSorted(s[0], SortByName(s[1..], le), le);
    }
  }

  /** An id with children is named as a parent by some category. */
  lemma ChildrenOfNonParent(cats: seq<Category>, k: int)
    ensures Children(cats, k) != [] ==> k in ParentIds(cats)
  {
    if Children(cats, k) != [] {
      var d := Children(cats, k)[0];
      assert d in cats && d.parentId == Some(k);
    }
  }

  /** What one more category adds: its parent to the parent ids, and that
      parent to the key order if new. */
  lemma GroupStep(cats: seq<Category>, i: nat)
    requires i < |cats|
    ensures var c, pre, post := cats[i], cats[..i], cats[..i + 1];
            && ParentIds(post) == ParentIds(pre) + (if c.parentId.Some? then {c.parentId.value} else {})
            && ParentOrder(post) == if c.parentId.Some? && c.parentId.value !in ParentOrder(pre)
                                    then ParentOrder(pre) + [c.parentId.value] else ParentOrder(pre)
  {
    assert cats[..i + 1][..i] == cats[..i];
    assert cats[..i + 1] == cats[..i] + [cats[i]];
  }

  /** One more category joins the children of its parent, at the end. */
  lemma ChildrenStep(cats: seq<Category>, i: nat, k: int)
    requires i < |cats|
    ensures Children(cats[..i + 1], k)
            == Children(cats[..i], k) + (if cats[i].parentId == Some(k) then [cats[i]] else [])
  {
    assert cats[..i + 1][..i] == cats[..i];
  }

  /** Filing category `i` under its parent keeps the groups equal to the
      children seen so far. */
  lemma GroupsGrow(cats: seq<Category>, i: nat, before: map<int, seq<Category>>, after: map<int, seq<Category>>)
    requires i < |cats|
    requires before.Keys == ParentIds(cats[..i])
    requires forall k :: k in before ==> before[k] == Children(cats[..i], k)
    requires after == match cats[i].parentId
                      case None => before
                      case Some(p) => before[p := (if p in before then before[p] else []) + [cats[i]]]
    ensures after.Keys == ParentIds(cats[..i + 1])
    ensures forall k :: k in after ==> after[k] == Children(cats[..i + 1], k)
  {
    var c := cats[i];
    GroupStep(cats, i);
    forall k | k in after ensures after[k] == Children(cats[..i + 1], k) {
      ChildrenStep(cats, i, k);
      if c.parentId == Some(k) {
        if k !in before {
          ChildrenOfNonParent(cats[..i], k);
        }
      } else {
        assert Children(cats[..i], k) + [] == Children(cats[..i], k);
      }
    }
  }

  /** The `forEach` callback of `byParent`: a category with a parent is
      pushed onto its parent's group (a new, empty one if the key is not yet
      in the map), and a key set for the first time joins the key order. */
  method FileUnderParent(groups: map<int, seq<Category>>, keys: seq<int>, c: Category)
    returns (groups': map<int, seq<Category>>, keys': seq<int>)
    ensures c.parentId.None? ==> groups' == groups && keys' == keys
    ensures c.parentId.Some? ==>
              var p := c.parentId.value;
              && groups' == groups[p := (if p in groups then groups[p] else []) + [c]]
              && keys' == if p in groups then keys else keys + [p]
  {
    groups', keys' := groups, keys;
    if c.parentId.Some? {
      var p := c.parentId.value;
      var arr := if p in groups then groups[p] else [];
      if p !in groups {
        keys' := keys + [p];
      }
      groups' := groups[p := arr + [c]];
    }
  }

  /** The `forEach`/`push`/`set` pass of `byParent`: each category with a
      parent is appended to its parent's group, so groups keep input order.
      `keys` lists the map's keys in insertion order, the order in which a
      JavaScript `Map` is iterated. */
  method GroupByParent(cats: seq<Category>) returns (groups: map<int, seq<Category>>, keys: seq<int>)
    ensures groups.Keys == ParentIds(cats)
    ensures forall k :: k in groups ==> groups[k] == Children(cats, k)
    ensures keys == ParentOrder(cats)
    ensures forall k :: k in groups <==> k in keys
    ensures forall i, j :: 0 <= i < j < |keys| ==> keys[i] != keys[j]
  {
    groups, keys := map[], [];
    var i := 0;
    while i < |cats|
      invariant 0 <= i <= |cats|
      invariant groups.Keys == ParentIds(cats[..i])
      invariant forall k :: k in groups ==> groups[k] == Children(cats[..i], k)
      invariant keys == ParentOrder(cats[..i])
    {
      ghost var before := groups;
      groups, keys := FileUnderParent(groups, keys, cats[i]);
      GroupStep(cats, i);
      GroupsGrow(cats, i, before, groups);
      i := i + 1;
    }
    assert cats[..i] == cats;
  }

  /** The second pass of `byParent`: `m.forEach(arr => arr.sort(...))`,
      visiting the keys in insertion order and sorting every group. */
  method SortGroups(groups: map<int, seq<Category>>, keys: seq<int>, le: (string, string) -> bool)
    returns (m: map<int, seq<Category>>)
    requires forall k :: k in groups <==> k in keys
    requires forall i, j :: 0 <= i < j < |keys| ==> keys[i] != keys[j]
    ensures m.Keys == groups.Keys
    ensures forall k :: k in m ==> m[k] == SortByName(groups[k], le)
  {
    m := groups;
    for n := 0 to |keys|
      invariant m.Keys == groups.Keys
      invariant forall k :: k in m && k !in keys[..n] ==> m[k] == groups[k]
      invariant forall k :: k in keys[..n] ==> m[k] == SortByName(groups[k], le)
    {
      var k := keys[n];
      assert k !in keys[..n];
      m := m[k := SortByName(m[k], le)];
      assert keys[..n + 1] == keys[..n] + [k];
    }
    assert keys[..|keys|] == keys;
  }

  /** The group of `k` is sorted and holds exactly the children of `k`,
      each as often as in the input. */
  lemma GroupIsSortedChildren(cats: seq<Category>, le: (string, string) -> bool, k: int)
    requires TotalPreorder(le)
    ensures SortedByName(SortByName(Children(cats, k), le), le)
    ensures forall c {:trigger multiset(SortByName(Children(cats, k), le))[c]} ::
              multiset(SortByName(Children(cats, k), le))[c]
              == if c.parentId == Some(k) then multiset(cats)[c] else 0
  {
    SortByNameSorted(Children(cats, k), le);
  }

  /** `byParent`: for every id named as a parent, its direct children sorted
      by name. */
  method ByParent(cats: seq<Category>, le: (string, string) -> bool) returns (m: map<int, seq<Category>>)
    requires TotalPreorder(le)
    ensures m.Keys == ParentIds(cats)
    ensures forall k :: k in m ==> m[k] == SortByName(Children(cats, k), le)
    ensures forall k :: k in m ==> SortedByName(m[k], le)
    // a category with a parent appears under its parent, as often as in the input
    ensures forall k, c {:trigger multiset(m[k])[c]} :: k in m ==>
              multiset(m[k])[c] == if c.parentId == Some(k) then multiset(cats)[c] else 0
    // a category without a parent appears under no key
    ensures forall k, c: Category {:trigger multiset(m[k])[c]} :: k in m && c.parentId.None? ==> multiset(m[k])[c] == 0
  {
    var groups, keys := GroupByParent(cats);
    m := SortGroups(groups, keys, le);
    forall k | k in m
      ensures SortedByName(m[k], le)
      ensures forall c {:trigger multiset(m[k])[c]} ::
                multiset(m[k])[c] == if c.parentId == Some(k) then multiset(cats)[c] else 0
    {
      GroupIsSortedChildren(cats, le, k);
    }
  }
}
