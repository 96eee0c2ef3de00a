/** `flattenCategoryTree` of `categories/types.ts`: the category forest is listed in preorder,
    each entry carrying its node's id and name and its depth, for a select dropdown. */
module CategoryTree {

  /** A category as the tree endpoint returns it; only the fields the flattening reads are
      kept. */
  datatype Category = Category(id: string, name: string, children: Children)

  /** The optional `children` field: absent, or a (possibly empty) list. */
  datatype Children = Absent | Present(list: seq<Category>)

  /** One option of the dropdown. */
  datatype FlatItem = FlatItem(id: string, name: string, level: int)

  /** The children the loop descends into: none when absent. */
  function Kids(c: Category): (ks: seq<Category>)
    ensures c.children.Present? ==> ks == c.children.list
    ensures c.children.Absent? ==> ks == []
  {
    match c.children
    case Absent => []
    case Present(ks) => ks
  }

  /** The preorder listing of a forest whose roots sit at `level`. */
  function Preorder(cats: seq<Category>, level: int): seq<FlatItem>
    decreases cats
  {
    if |cats| == 0 then [] else Subtree(cats[0], level) + Preorder(cats[1..], level)
  }

  /** The listing of one category: its own entry, then its children one level deeper. */
  function Subtree(c: Category, level: int): seq<FlatItem>
    decreases c
  {
    [FlatItem(c.id, c.name, level)]
      + match c.children
        case Absent => []
        case Present(ks) => Preorder(ks, level + 1)
  }

  /** A category's listing is its entry followed by its children's. */
  lemma SubtreeIsEntryThenKids(c: Category, level: int)
    ensures Subtree(c, level) == [FlatItem(c.id, c.name, level)] + Preorder(Kids(c), level + 1)
  {
  }

  /** The number of categories in a forest. */
  function Count(cats: seq<Category>): nat
    decreases cats
  {
    if |cats| == 0 then 0 else CountOne(cats[0]) + Count(cats[1..])
  }

  function CountOne(c: Category): nat
    decreases c
  {
    1 + match c.children
        case Absent => 0
        case Present(ks) => Count(ks)
  }

  /** The children of any root hold fewer categories than the whole forest. */
  lemma {:induction false} KidsAreFewer(cats: seq<Category>, i: nat)
    requires i < |cats|
    ensures Count(Kids(cats[i])) < Count(cats)
    decreases i
  {
    if i > 0 {
      assert cats[1..][i - 1] == cats[i];
      KidsAreFewer(cats[1..], i - 1);
    }
  }

  /** `flattenCategoryTree(categories, level)`: a loop over the roots that pushes each one and
      then, when it has children, the recursively flattened children. */
  method FlattenCategoryTree(categories: seq<Category>, level: int) returns (result: seq<FlatItem>)
    ensures result == Preorder(categories, level)
    decreases Count(categories)
  {
    result := [];
    var i := 0;
    while i < |categories|
      invariant 0 <= i <= |categories|
      invariant result + Preorder(categories[i..], level) == Preorder(categories, level)
    {
      var category := categories[i];
      ghost var done := result;
      result := result + [FlatItem(category.id, category.name, level)];
      if category.children.Present? && |category.children.list| > 0 {
        KidsAreFewer(categories, i);
        var sub := FlattenCategoryTree(category.children.list, level + 1);
        result := result + sub;
      }
      FlattenStep(categories, i, level, done, result);
      i := i + 1;
    }
    assert categories[i..] == [];
  }

  /** One turn of the loop appends the listing of the current root. */
  lemma FlattenStep(cats: seq<Category>, i: nat, level: int, done: seq<FlatItem>, result: seq<FlatItem>)
    requires i < |cats|
    requires result == done + [FlatItem(cats[i].id, cats[i].name, level)] + Preorder(Kids(cats[i]), level + 1)
    ensures result + Preorder(cats[i + 1..], level) == done + Preorder(cats[i..], level)
  {
    assert cats[i..][0] == cats[i] && cats[i..][1..] == cats[i + 1..];
    SubtreeIsEntryThenKids(cats[i], level);
  }

  /** Flattening a forest in two parts lists the first part, then the second. */
  lemma {:induction false} PreorderAppend(a: seq<Category>, b: seq<Category>, level: int)
    ensures Preorder(a + b, level) == Preorder(a, level) + Preorder(b, level)
    decreases a
  {
    if |a| == 0 {
      assert a + b == b;
    } else {
      assert (a + b)[0] == a[0] && (a + b)[1..] == a[1..] + b;
      PreorderAppend(a[1..], b, level);
    }
  }

  /** There is one entry per category of the forest. */
  lemma {:induction false} PreorderLength(cats: seq<Category>, level: int)
    ensures |Preorder(cats, level)| == Count(cats)
    decreases cats
  {
    if |cats| > 0 {
      SubtreeLength(cats[0], level);
      PreorderLength(cats[1..], level);
    }
  }

  lemma {:induction false} SubtreeLength(c: Category, level: int)
    ensures |Subtree(c, level)| == CountOne(c)
    decreases c
  {
    match c.children
    case Absent =>
    case Present(ks) => PreorderLength(ks, level + 1);
  }

  /** A category without children contributes exactly its own entry. */
  lemma LeafIsOneEntry(c: Category, level: int)
    requires c.children.Absent? || c.children == Present([])
    ensures Preorder([c], level) == [FlatItem(c.id, c.name, level)]
  {
    assert [c][1..] == [];
    assert Subtree(c, level) == [FlatItem(c.id, c.name, level)] + Preorder([], level + 1);
  }

  /** A category is followed directly by its descendants, then by its next sibling's entry. */
  lemma {:induction false} ParentPrecedesDescendants(c: Category, rest: seq<Category>, level: int)
    ensures Preorder([c] + rest, level)
      == [FlatItem(c.id, c.name, level)] + Preorder(Kids(c), level + 1) + Preorder(rest, level)
  {
    assert ([c] + rest)[0] == c && ([c] + rest)[1..] == rest;
    SubtreeIsEntryThenKids(c, level);
  }

  /** Every entry is at least as deep as the roots. */
  lemma {:induction false} LevelsFromRoot(cats: seq<Category>, level: int)
    ensures forall k :: 0 <= k < |Preorder(cats, level)| ==> Preorder(cats, level)[k].level >= level
    decreases cats
  {
    if |cats| > 0 {
      SubtreeLevels(cats[0], level);
      LevelsFromRoot(cats[1..], level);
    }
  }

  lemma {:induction false} SubtreeLevels(c: Category, level: int)
    ensures forall k :: 0 <= k < |Subtree(c, level)| ==> Subtree(c, level)[k].level >= level
    decreases c
  {
    match c.children
    case Absent =>
    case Present(ks) => LevelsFromRoot(ks, level + 1);
  }

  /** The entries of a listing at the given level, in order. */
  function AtLevel(items: seq<FlatItem>, level: int): (r: seq<FlatItem>)
    ensures |r| <= |items|
  {
    if |items| == 0 then []
    else (if items[0].level == level then [items[0]] else []) + AtLevel(items[1..], level)
  }

  lemma {:induction false} AtLevelAppend(a: seq<FlatItem>, b: seq<FlatItem>, level: int)
    ensures AtLevel(a + b, level) == AtLevel(a, level) + AtLevel(b, level)
  {
    if |a| == 0 {
      assert a + b == b;
    } else {
      var h := if a[0].level == level then [a[0]] else [];
      assert (a + b)[0] == a[0] && (a + b)[1..] == a[1..] + b;
      assert AtLevel(a + b, level) == h + AtLevel(a[1..] + b, level);
      assert AtLevel(a, level) == h + AtLevel(a[1..], level);
      AtLevelAppend(a[1..], b, level);
      assert h + (AtLevel(a[1..], level) + AtLevel(b, level)) == (h + AtLevel(a[1..], level)) + AtLevel(b, level);
    }
  }

  lemma {:induction false} AtLevelNone(items: seq<FlatItem>, level: int)
    requires forall k :: 0 <= k < |items| ==> items[k].level > level
    ensures AtLevel(items, level) == []
  {
    if |items| > 0 {
      AtLevelNone(items[1..], level);
    }
  }

  /** The roots' own entries, in input order. */
  function RootItems(cats: seq<Category>, level: int): (r: seq<FlatItem>)
    ensures |r| == |cats|
    ensures forall i :: 0 <= i < |cats| ==> r[i] == FlatItem(cats[i].id, cats[i].name, level)
  {
    seq(|cats|, i requires 0 <= i < |cats| => FlatItem(cats[i].id, cats[i].name, level))
  }

  /** The entries at the initial level are exactly the roots, in input order: roots get the
      initial level and every child one more than its parent. */
  lemma {:induction false} RootsAtInitialLevel(cats: seq<Category>, level: int)
    ensures AtLevel(Preorder(cats, level), level) == RootItems(cats, level)
    decreases cats
  {
    if |cats| > 0 {
      var c := cats[0];
      var head := [FlatItem(c.id, c.name, level)];
      var kids := Preorder(Kids(c), level + 1);
      var rest := Preorder(cats[1..], level);
      SubtreeIsEntryThenKids(c, level);
      LevelsFromRoot(Kids(c), level + 1);
      AtLevelNone(kids, level);
      AtLevelAppend(head + kids, rest, level);
      AtLevelAppend(head, kids, level);
      assert AtLevel(head, level) == head by {
        assert head[1..] == [];
      }
      RootsAtInitialLevel(cats[1..], level);
      assert RootItems(cats, level) == head + RootItems(cats[1..], level);
    }
  }
}
