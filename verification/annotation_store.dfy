/**
  The lookup tables built once from the parsed document: categories and
  images keyed by id (first occurrence wins), and annotations grouped by
  the image they belong to.
 */
module AnnotationStore {
  import opened Records
  import opened Sequences

  /** The keys that occur in `xs`. */
  ghost function KeysOf<T>(xs: seq<T>, key: T -> int): set<int>
  {
    set i | 0 <= i < |xs| :: key(xs[i])
  }

  /** The keys carried by the elements of `xs` before position `i`. */
  ghost function KeysBefore<T>(xs: seq<T>, key: T -> int, i: int): set<int>
  {
    set j | 0 <= j < i && j < |xs| :: key(xs[j])
  }

  /** No element before position `i` carries the key of `xs[i]`. */
  ghost predicate IsFirstWithKey<T>(xs: seq<T>, key: T -> int, i: int)
  {
    0 <= i < |xs| && key(xs[i]) !in KeysBefore(xs, key, i)
  }

  /** `m` maps exactly the keys of `xs`, each to the earliest element of `xs` carrying it. */
  ghost predicate IsFirstWinsIndex<T>(xs: seq<T>, key: T -> int, m: map<int, T>)
  {
    && m.Keys == KeysOf(xs, key)
    && (forall i :: IsFirstWithKey(xs, key, i) ==> key(xs[i]) in m && m[key(xs[i])] == xs[i])
    && (forall k :: k in m ==> key(m[k]) == k)
  }

  /** One iteration of the insertion loop, on the last element of `xs`, keeps the first-wins property. */
  lemma FirstWinsStep<T>(xs: seq<T>, key: T -> int, m0: map<int, T>)
    requires |xs| > 0 && IsFirstWinsIndex(xs[..|xs| - 1], key, m0)
    ensures var last := xs[|xs| - 1];
      IsFirstWinsIndex(xs, key, if key(last) in m0 then m0 else m0[key(last) := last])
  {
    var init, last := xs[..|xs| - 1], xs[|xs| - 1];
    var m := if key(last) in m0 then m0 else m0[key(last) := last];
    assert forall j :: 0 <= j < |init| ==> xs[j] == init[j];
    assert KeysOf(xs, key) == KeysOf(init, key) + {key(last)};
    forall i | IsFirstWithKey(xs, key, i)
      ensures key(xs[i]) in m && m[key(xs[i])] == xs[i]
    {
      if i < |init| {
        assert IsFirstWithKey(init, key, i);
      } else {
        assert key(last) !in KeysOf(init, key);
      }
    }
  }

  /**
    The dictionary built by scanning `xs` in order and inserting each element
    under its key unless the key is already present. A skipped duplicate is
    only reported on the console, which this model leaves out.
   */
  function IndexFirstWins<T>(xs: seq<T>, key: T -> int): (m: map<int, T>)
    ensures IsFirstWinsIndex(xs, key, m)
  {
    if |xs| == 0 then map[]
    else
      var m0 := IndexFirstWins(xs[..|xs| - 1], key);
      FirstWinsStep(xs, key, m0);
      if key(xs[|xs| - 1]) in m0 then m0 else m0[key(xs[|xs| - 1]) := xs[|xs| - 1]]
  }

  /**
    Later elements never overwrite an earlier entry: whatever follows `xs`,
    a first-wins table of the whole list (`IndexFirstWins(xs + ys, key)` is
    one) still stores the element that first carried a key in `xs`.
   */
  lemma LaterDuplicatesNeverOverwrite<T>(xs: seq<T>, ys: seq<T>, key: T -> int, m: map<int, T>, i: int)
    requires IsFirstWithKey(xs, key, i)
    requires IsFirstWinsIndex(xs + ys, key, m)
    ensures key(xs[i]) in m && m[key(xs[i])] == xs[i]
  {
    assert forall j :: 0 <= j <= i ==> (xs + ys)[j] == xs[j];
    assert IsFirstWithKey(xs + ys, key, i);
  }

  /** `process_categories`: the category table keyed by id, first occurrence wins. */
  function ProcessCategories(categories: seq<Category>): (m: map<int, Category>)
    ensures m.Keys == KeysOf(categories, CategoryKey)
    ensures forall i :: IsFirstWithKey(categories, CategoryKey, i) ==>
      categories[i].id in m && m[categories[i].id] == categories[i]
  {
    IndexFirstWins(categories, CategoryKey)
  }

  /** `process_images`: the image table keyed by id, first occurrence wins. */
  function ProcessImages(images: seq<Image>): (m: map<int, Image>)
    ensures m.Keys == KeysOf(images, ImageKey)
    ensures forall i :: IsFirstWithKey(images, ImageKey, i) ==>
      images[i].id in m && m[images[i].id] == images[i]
  {
    IndexFirstWins(images, ImageKey)
  }

  /** The image ids that occur in `anns`. */
  ghost function ImageIdsOf(anns: seq<Annotation>): set<int>
  {
    KeysOf(anns, AnnotationImageKey)
  }

  /** `groups` holds, for each image id of `anns`, exactly that image's annotations in input order. */
  ghost predicate IsGrouping(anns: seq<Annotation>, groups: map<int, seq<Annotation>>)
  {
    && groups.Keys == ImageIdsOf(anns)
    && forall k :: k in groups ==> groups[k] == Filter(anns, OnImage(k))
  }

  /**
    One iteration of the grouping loop: `a` goes to the end of its image's
    list, which is created empty when the image is new; no other list changes.
   */
  function AppendToGroup(m0: map<int, seq<Annotation>>, a: Annotation): (m: map<int, seq<Annotation>>)
    ensures m.Keys == m0.Keys + {a.image_id}
    ensures m[a.image_id] == (if a.image_id in m0 then m0[a.image_id] else []) + [a]
    ensures forall k :: k in m0 && k != a.image_id ==> m[k] == m0[k]
  {
    if a.image_id in m0 then m0[a.image_id := m0[a.image_id] + [a]] else m0[a.image_id := [a]]
  }

  /** The list of image `j` after one iteration of the grouping loop. */
  lemma GroupStepAt(init: seq<Annotation>, last: Annotation, m0: map<int, seq<Annotation>>, j: int)
    requires j in m0 ==> m0[j] == Filter(init, OnImage(j))
    requires j !in m0 ==> forall i :: 0 <= i < |init| ==> init[i].image_id != j
    ensures j in AppendToGroup(m0, last) ==> AppendToGroup(m0, last)[j] == Filter(init + [last], OnImage(j))
  {
    FilterSnoc(init, last, OnImage(j));
    if j !in m0 {
      FilterEmpty(init, OnImage(j));
    }
  }

  /** One iteration of the grouping loop, on the last annotation of `anns`, keeps the grouping property. */
  lemma GroupStep(anns: seq<Annotation>, m0: map<int, seq<Annotation>>)
    requires |anns| > 0 && IsGrouping(anns[..|anns| - 1], m0)
    ensures IsGrouping(anns, AppendToGroup(m0, anns[|anns| - 1]))
  {
    var init, last := anns[..|anns| - 1], anns[|anns| - 1];
    var m := AppendToGroup(m0, last);
    assert anns == init + [last];
    assert forall i :: 0 <= i < |init| ==> anns[i] == init[i];
    assert ImageIdsOf(anns) == ImageIdsOf(init) + {last.image_id};
    forall j | j in m
      ensures m[j] == Filter(anns, OnImage(j))
    {
      GroupStepAt(init, last, m0, j);
    }
  }

  /**
    `process_segmentations`: every annotation appended to the list of its
    `image_id`, a list being created when the id is first seen.
   */
  function ProcessSegmentations(anns: seq<Annotation>): (m: map<int, seq<Annotation>>)
    ensures m.Keys == ImageIdsOf(anns)
    ensures forall k :: k in m ==> m[k] == Filter(anns, OnImage(k))
  {
    if |anns| == 0 then map[]
    else
      var m0 := ProcessSegmentations(anns[..|anns| - 1]);
      GroupStep(anns, m0);
      AppendToGroup(m0, anns[|anns| - 1])
  }

  /** The order in which `process_segmentations` first creates each image's list (the dictionary's key order). */
  function ImageOrder(anns: seq<Annotation>): (ks: seq<int>)
    ensures forall i, j :: 0 <= i < j < |ks| ==> ks[i] != ks[j]
    ensures forall k :: k in ks <==> k in ImageIdsOf(anns)
  {
    if |anns| == 0 then []
    else
      var init, last := anns[..|anns| - 1], anns[|anns| - 1];
      var ks0 := ImageOrder(init);
      assert anns == init + [last];
      assert ImageIdsOf(anns) == ImageIdsOf(init) + {last.image_id};
      if last.image_id in ks0 then ks0 else ks0 + [last.image_id]
  }

  /** The groups listed in `ks`, concatenated in that order. */
  function Flatten(groups: map<int, seq<Annotation>>, ks: seq<int>): seq<Annotation>
    requires forall i :: 0 <= i < |ks| ==> ks[i] in groups
  {
    if |ks| == 0 then [] else groups[ks[0]] + Flatten(groups, ks[1..])
  }

  /** Selecting the images `ks` splits into image `ks[0]` and the rest when `ks[0]` is not repeated. */
  lemma SelectionSplits(anns: seq<Annotation>, ks: seq<int>)
    requires |ks| > 0 && ks[0] !in ks[1..]
    ensures multiset(Filter(anns, ImageIn(ks)))
      == multiset(Filter(anns, OnImage(ks[0]))) + multiset(Filter(anns, ImageIn(ks[1..])))
  {
    var whole := multiset(Filter(anns, ImageIn(ks)));
    var head := multiset(Filter(anns, OnImage(ks[0])));
    var tail := multiset(Filter(anns, ImageIn(ks[1..])));
    FilterCounts(anns, ImageIn(ks));
    FilterCounts(anns, OnImage(ks[0]));
    FilterCounts(anns, ImageIn(ks[1..]));
    forall a: Annotation
      ensures whole[a] == head[a] + tail[a]
    {
      assert a.image_id in ks <==> a.image_id == ks[0] || a.image_id in ks[1..];
    }
  }

  /** Concatenating distinct groups yields, up to order, the annotations of those images. */
  lemma {:induction false} FlattenGroups(anns: seq<Annotation>, groups: map<int, seq<Annotation>>, ks: seq<int>)
    requires forall i, j :: 0 <= i < j < |ks| ==> ks[i] != ks[j]
    requires forall i :: 0 <= i < |ks| ==> ks[i] in groups && groups[ks[i]] == Filter(anns, OnImage(ks[i]))
    ensures multiset(Flatten(groups, ks)) == multiset(Filter(anns, ImageIn(ks)))
    decreases |ks|
  {
    if |ks| == 0 {
      FilterCounts(anns, ImageIn(ks));
      assert multiset(Filter(anns, ImageIn(ks))) == multiset{};
    } else {
      var rest := ks[1..];
      assert forall i :: 0 <= i < |rest| ==> rest[i] == ks[i + 1];
      FlattenGroups(anns, groups, rest);
      assert ks[0] !in rest;
      SelectionSplits(anns, ks);
    }
  }

  /** Selecting every image id that occurs keeps every annotation. */
  lemma SelectingEveryImageKeepsAll(anns: seq<Annotation>, ks: seq<int>)
    requires forall k :: k in ks <==> k in ImageIdsOf(anns)
    ensures multiset(Filter(anns, ImageIn(ks))) == multiset(anns)
  {
    FilterCounts(anns, ImageIn(ks));
    forall a | a in anns
      ensures a.image_id in ks
    {
      var i :| 0 <= i < |anns| && anns[i] == a;
      assert anns[i].image_id in ImageIdsOf(anns);
    }
  }

  /**
    The grouping loses and duplicates nothing: the groups of any table that
    groups `anns` by image (`ProcessSegmentations(anns)` is one), concatenated
    in the dictionary's key order, are a permutation of the annotations.
   */
  lemma SegmentationsRoundTrip(anns: seq<Annotation>, groups: map<int, seq<Annotation>>)
    requires IsGrouping(anns, groups)
    ensures multiset(Flatten(groups, ImageOrder(anns))) == multiset(anns)
    ensures |Flatten(groups, ImageOrder(anns))| == |anns|
  {
    var ks := ImageOrder(anns);
    var flat := Flatten(groups, ks);
    FlattenGroups(anns, groups, ks);
    SelectingEveryImageKeepsAll(anns, ks);
    assert |multiset(flat)| == |flat|;
  }

  /** The tables the constructor builds from the parsed document, next to the document itself. */
  datatype Store = Store(
    anno: Document,
    categories: map<int, Category>,
    images: map<int, Image>,
    segmentations: map<int, seq<Annotation>>)

  /**
    The constructor after the file has been read and parsed: it runs the
    table builders in turn. Each table is keyed by exactly the ids that occur
    in the corresponding list of the document.
   */
  function Load(doc: Document): (s: Store)
    ensures s.anno == doc
    ensures s.categories.Keys == KeysOf(doc.categories, CategoryKey)
    ensures s.images.Keys == KeysOf(doc.images, ImageKey)
    ensures s.segmentations.Keys == ImageIdsOf(doc.annotations)
  {
    Store(doc, ProcessCategories(doc.categories), ProcessImages(doc.images), ProcessSegmentations(doc.annotations))
  }
}
