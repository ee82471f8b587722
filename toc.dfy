/**
 * The table of contents both writers build (tocItem / TOCItem): a list of
 * level-1 sections, each holding sub-items, which may hold sub-items of
 * their own. In the source the items are shared by reference; here they are values,
 * and an item is changed by rebuilding the path to it.
 */
module Toc {
  import opened Api
  import opened Naming

  datatype TocItem = TocItem(level: int, title: string, link: string, file: string, subSections: seq<TocItem>)

  /** An item at the third depth: level 2, nothing below it. */
  predicate Leaf(it: TocItem)
  {
    it.level == 2 && it.subSections == []
  }

  /** An item at the second depth: level 2, only leaves below it. */
  predicate SubItem(it: TocItem)
  {
    it.level == 2 && forall k :: 0 <= k < |it.subSections| ==> Leaf(it.subSections[k])
  }

  /** A section: level 1, a file, only second-depth items below it. */
  predicate Section(it: TocItem)
  {
    it.level == 1 && |it.file| > 0 && forall j :: 0 <= j < |it.subSections| ==> SubItem(it.subSections[j])
  }

  /** The shape every writer keeps its table of contents in: at most three deep. */
  predicate Shaped(sections: seq<TocItem>)
  {
    forall i :: 0 <= i < |sections| ==> Section(sections[i])
  }

  /** The item a writer adds for one operation. */
  function OperationItem(o: Operation, linkId: string): TocItem
  {
    TocItem(2, o.typeName, OperationLink(o.typeName, linkId), "", [])
  }

  /** The items for a list of operations, built in the order of the loop over them. */
  function OperationItems(ops: seq<Operation>, linkId: string): (r: seq<TocItem>)
    ensures |r| == |ops|
  {
    if ops == [] then []
    else OperationItems(ops[..|ops| - 1], linkId) + [OperationItem(ops[|ops| - 1], linkId)]
  }

  /** One item per operation, in the operations' order, each a leaf. */
  lemma {:induction false} OperationItemsAt(ops: seq<Operation>, linkId: string)
    ensures forall i :: 0 <= i < |ops| ==> OperationItems(ops, linkId)[i] == OperationItem(ops[i], linkId)
    ensures forall i :: 0 <= i < |ops| ==> Leaf(OperationItems(ops, linkId)[i])
  {
    if ops != [] {
      OperationItemsAt(ops[..|ops| - 1], linkId);
    }
  }

  /** The item a writer adds for one operation category, with its operations below it. */
  function CategoryItem(flavor: Flavor, c: OperationCategory, linkId: string): TocItem
  {
    TocItem(2, c.name, CategoryLink(flavor, c.name, linkId), "", OperationItems(c.operations, linkId))
  }

  /** The category items of a resource, built in the order of the loop: empty categories add nothing. */
  function CategoryItems(flavor: Flavor, cats: seq<OperationCategory>, linkId: string): (r: seq<TocItem>)
    ensures |r| <= |cats|
  {
    if cats == [] then []
    else
      var c := cats[|cats| - 1];
      CategoryItems(flavor, cats[..|cats| - 1], linkId) + (if c.operations == [] then [] else [CategoryItem(flavor, c, linkId)])
  }

  /** One more category adds its item when it has operations and nothing otherwise. */
  lemma CategoryItemsPrefix(flavor: Flavor, cats: seq<OperationCategory>, i: nat, linkId: string)
    requires i < |cats|
    ensures cats[i].operations == [] ==> CategoryItems(flavor, cats[..i + 1], linkId) == CategoryItems(flavor, cats[..i], linkId)
    ensures cats[i].operations != [] ==>
      CategoryItems(flavor, cats[..i + 1], linkId) == CategoryItems(flavor, cats[..i], linkId) + [CategoryItem(flavor, cats[i], linkId)]
  {
    assert cats[..i + 1][..i] == cats[..i];
  }

  /** The positions of the non-empty categories, in increasing order. */
  function NonEmptyPositions(cats: seq<OperationCategory>): (r: seq<nat>)
    ensures forall k :: 0 <= k < |r| ==> r[k] < |cats|
  {
    if cats == [] then []
    else NonEmptyPositions(cats[..|cats| - 1]) + (if cats[|cats| - 1].operations == [] then [] else [|cats| - 1])
  }

  /** The positions increase, and a position is listed exactly when its category has operations. */
  lemma {:induction false} NonEmptyPositionsExact(cats: seq<OperationCategory>)
    ensures forall k, l :: 0 <= k < l < |NonEmptyPositions(cats)| ==> NonEmptyPositions(cats)[k] < NonEmptyPositions(cats)[l]
    ensures forall i :: 0 <= i < |cats| ==> (cats[i].operations != [] <==> i in NonEmptyPositions(cats))
  {
    if cats != [] {
      var n := |cats| - 1;
      var init := cats[..n];
      NonEmptyPositionsExact(init);
      var pos0, pos := NonEmptyPositions(init), NonEmptyPositions(cats);
      assert pos == pos0 + (if cats[n].operations == [] then [] else [n]);
      forall i | 0 <= i < |cats| ensures cats[i].operations != [] <==> i in pos {
        if i < n {
          assert cats[i] == init[i];
          assert i in pos <==> i in pos0;
        } else {
          assert i !in pos0;
        }
      }
    }
  }

  /**
   * The category items are exactly the non-empty categories, in category
   * order: item k stands for the category at the k-th non-empty position
   * (NonEmptyPositionsExact says which positions those are).
   */
  lemma {:induction false} CategoryItemsSelectNonEmpty(flavor: Flavor, cats: seq<OperationCategory>, linkId: string)
    ensures |CategoryItems(flavor, cats, linkId)| == |NonEmptyPositions(cats)|
    ensures forall k :: 0 <= k < |NonEmptyPositions(cats)| ==>
      CategoryItems(flavor, cats, linkId)[k] == CategoryItem(flavor, cats[NonEmptyPositions(cats)[k]], linkId)
  {
    if cats != [] {
      var n := |cats| - 1;
      var init := cats[..n];
      CategoryItemsSelectNonEmpty(flavor, init, linkId);
      var items0, pos0 := CategoryItems(flavor, init, linkId), NonEmptyPositions(init);
      var items, pos := CategoryItems(flavor, cats, linkId), NonEmptyPositions(cats);
      assert items == items0 + (if cats[n].operations == [] then [] else [CategoryItem(flavor, cats[n], linkId)]);
      assert pos == pos0 + (if cats[n].operations == [] then [] else [n]);
      forall k | 0 <= k < |pos| ensures items[k] == CategoryItem(flavor, cats[pos[k]], linkId) {
        if k < |pos0| {
          assert items[k] == items0[k] && pos[k] == pos0[k];
          assert cats[pos0[k]] == init[pos0[k]];
        }
      }
    }
  }

  /** Every category item is a second-depth item holding one leaf per operation. */
  lemma {:induction false} CategoryItemsShaped(flavor: Flavor, cats: seq<OperationCategory>, linkId: string)
    ensures forall j :: 0 <= j < |CategoryItems(flavor, cats, linkId)| ==> SubItem(CategoryItems(flavor, cats, linkId)[j])
  {
    if cats != [] {
      CategoryItemsShaped(flavor, cats[..|cats| - 1], linkId);
      OperationItemsAt(cats[|cats| - 1].operations, linkId);
    }
  }

  /** Replaces the sub-items of the section at `cur`. */
  function WithSubSections(sections: seq<TocItem>, cur: nat, subs: seq<TocItem>): (r: seq<TocItem>)
    requires cur < |sections|
    ensures |r| == |sections| && r[..cur] == sections[..cur] && r[cur].subSections == subs
  {
    sections[cur := sections[cur].(subSections := subs)]
  }

  /** The section with `items` appended below its last sub-item. */
  function AppendToLastSub(sec: TocItem, items: seq<TocItem>): (r: TocItem)
    requires |sec.subSections| > 0
    ensures r.level == sec.level && r.title == sec.title && r.link == sec.link && r.file == sec.file
    ensures |r.subSections| == |sec.subSections|
    ensures r.subSections[..|sec.subSections| - 1] == sec.subSections[..|sec.subSections| - 1]
    ensures r.subSections[|sec.subSections| - 1].subSections == sec.subSections[|sec.subSections| - 1].subSections + items
  {
    var k := |sec.subSections| - 1;
    sec.(subSections := sec.subSections[k := sec.subSections[k].(subSections := sec.subSections[k].subSections + items)])
  }

  lemma AppendToLastSubNothing(sec: TocItem)
    requires |sec.subSections| > 0
    ensures AppendToLastSub(sec, []) == sec
  {
    var k := |sec.subSections| - 1;
    assert sec.subSections[k].subSections + [] == sec.subSections[k].subSections;
    assert sec.subSections[k := sec.subSections[k]] == sec.subSections;
  }

  lemma AppendToLastSubOfAppended(sec: TocItem, items: seq<TocItem>)
    requires |sec.subSections| > 0
    ensures var n := |sec.subSections| - 1; var last := sec.subSections[n];
      AppendToLastSub(sec, items) == sec.(subSections := sec.subSections[..n] + [last.(subSections := last.subSections + items)])
  {
    var n := |sec.subSections| - 1;
    var last := sec.subSections[n];
    assert sec.subSections[n := last.(subSections := last.subSections + items)] == sec.subSections[..n] + [last.(subSections := last.subSections + items)];
  }

  lemma AppendToLastSubTwice(sec: TocItem, a: seq<TocItem>, b: seq<TocItem>)
    requires |sec.subSections| > 0
    ensures AppendToLastSub(AppendToLastSub(sec, a), b) == AppendToLastSub(sec, a + b)
  {
    var k := |sec.subSections| - 1;
    var x := sec.subSections[k].subSections;
    assert x + a + b == x + (a + b);
    var s1 := AppendToLastSub(sec, a);
    assert s1.subSections[k := s1.subSections[k].(subSections := x + a + b)] == AppendToLastSub(sec, a + b).subSections;
  }

  /** Every item, each followed by everything below it: the order in which a reader meets them. */
  function Preorder(items: seq<TocItem>): seq<TocItem>
    decreases items
  {
    if items == [] then [] else [items[0]] + Preorder(items[0].subSections) + Preorder(items[1..])
  }

  lemma {:induction false} PreorderAppend(items: seq<TocItem>, x: TocItem)
    ensures Preorder(items + [x]) == Preorder(items) + [x] + Preorder(x.subSections)
    decreases |items|
  {
    if items == [] {
      assert ([x])[1..] == [];
    } else {
      assert (items + [x])[0] == items[0];
      assert (items + [x])[1..] == items[1..] + [x];
      PreorderAppend(items[1..], x);
    }
  }

  /** The files of the given items that are named and readable, in order. */
  function ReadableFiles(items: seq<TocItem>, readable: set<string>): seq<string>
  {
    if items == [] then []
    else (if |items[0].file| > 0 && items[0].file in readable then [items[0].file] else []) + ReadableFiles(items[1..], readable)
  }

  lemma {:induction false} ReadableFilesAppend(a: seq<TocItem>, b: seq<TocItem>, readable: set<string>)
    ensures ReadableFiles(a + b, readable) == ReadableFiles(a, readable) + ReadableFiles(b, readable)
  {
    if a == [] {
      assert a + b == b;
    } else {
      assert (a + b)[0] == a[0];
      assert (a + b)[1..] == a[1..] + b;
      ReadableFilesAppend(a[1..], b, readable);
    }
  }
}
