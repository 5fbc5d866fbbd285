/**
  The query layer: read-only scans over the raw lists of the parsed
  document, resolving scenes to images, images to annotations, and scenes
  to summaries that join the two.
 */
module SceneIndex {
  import opened Optional
  import opened Records
  import opened Sequences
  import AnnotationStore

  /** Some image of the raw list shows `scene`. */
  ghost predicate SceneExists(doc: Document, scene: string)
  {
    exists i :: 0 <= i < |doc.images| && doc.images[i].scene == scene
  }

  /** Position `i` holds the earliest image of `scene` in the raw list. */
  ghost predicate IsFirstOfScene(images: seq<Image>, scene: string, i: int)
  {
    0 <= i < |images| && images[i].scene == scene && forall j :: 0 <= j < i ==> images[j].scene != scene
  }

  /** The loop of `getImgInfo` from position `start` on: the position of the first image of `scene`, if any. */
  function ScanForScene(images: seq<Image>, scene: string, start: nat): (r: Option<nat>)
    requires start <= |images|
    ensures r.None? <==> forall i :: start <= i < |images| ==> images[i].scene != scene
    ensures r.Some? ==> start <= r.value < |images| && images[r.value].scene == scene
    ensures r.Some? ==> forall j :: start <= j < r.value ==> images[j].scene != scene
    decreases |images| - start
  {
    if start == |images| then None
    else if images[start].scene == scene then Some(start)
    else ScanForScene(images, scene, start + 1)
  }

  /**
    `getImgInfo`: the first image of the raw list whose scene matches, or
    nothing (Python's implicit `None`) when no image shows the scene. It
    scans the raw list, not the de-duplicated image table.
   */
  function GetImgInfo(doc: Document, scene: string): (r: Option<Image>)
    ensures r.Some? <==> SceneExists(doc, scene)
    ensures r.Some? ==> exists i :: IsFirstOfScene(doc.images, scene, i) && doc.images[i] == r.value
  {
    match ScanForScene(doc.images, scene, 0)
    case None => None
    case Some(i) =>
      assert IsFirstOfScene(doc.images, scene, i);
      Some(doc.images[i])
  }

  /**
    `getAnnoInfo`: the annotations whose image id is listed in `imgIds`,
    in the order of the raw annotation list.
   */
  function GetAnnoInfo(doc: Document, imgIds: seq<int>): (r: seq<Annotation>)
    ensures IsSubsequence(r, doc.annotations)
    ensures forall a :: multiset(r)[a] == if a.image_id in imgIds then multiset(doc.annotations)[a] else 0
    ensures imgIds == [] ==> r == []
  {
    FilterSpec(doc.annotations, ImageIn(imgIds));
    assert imgIds == [] ==> IndicesWhere(doc.annotations, ImageIn(imgIds)) == {};
    Filter(doc.annotations, ImageIn(imgIds))
  }

  /** The single pass of `getAnnIds` over `anns`: the ids of the annotations on the listed images. */
  function CollectAnnIds(anns: seq<Annotation>, imgIds: seq<int>): (r: seq<int>)
    ensures |r| == |Filter(anns, ImageIn(imgIds))|
    ensures forall i :: 0 <= i < |r| ==> r[i] == Filter(anns, ImageIn(imgIds))[i].id
  {
    if |anns| == 0 then []
    else
      var rest := CollectAnnIds(anns[..|anns| - 1], imgIds);
      if anns[|anns| - 1].image_id in imgIds then rest + [anns[|anns| - 1].id] else rest
  }

  /**
    `getAnnIds`: the `id` field of every annotation `getAnnoInfo` returns for
    the same image ids, with the same length and order.
   */
  function GetAnnIds(doc: Document, imgIds: seq<int>): (r: seq<int>)
    ensures |r| == |GetAnnoInfo(doc, imgIds)|
    ensures forall i :: 0 <= i < |r| ==> r[i] == GetAnnoInfo(doc, imgIds)[i].id
  {
    CollectAnnIds(doc.annotations, imgIds)
  }

  /** The number of images of the raw list that show `scene`. */
  ghost function SceneCount(images: seq<Image>, scene: string): nat
  {
    |IndicesWhere(images, HasScene(scene))|
  }

  /** The per-scene match counts summed over `scenes`, repeats included. */
  ghost function TotalSceneCount(images: seq<Image>, scenes: seq<string>): nat
  {
    if |scenes| == 0 then 0
    else SceneCount(images, scenes[0]) + TotalSceneCount(images, scenes[1..])
  }

  /** The inner loop of `getImgIds`: the ids of the images of `scene`, in list order. */
  function SceneImageIds(images: seq<Image>, scene: string): (r: seq<int>)
    ensures |r| == |Filter(images, HasScene(scene))|
    ensures forall i :: 0 <= i < |r| ==> r[i] == Filter(images, HasScene(scene))[i].id
  {
    if |images| == 0 then []
    else
      var rest := SceneImageIds(images[..|images| - 1], scene);
      if images[|images| - 1].scene == scene then rest + [images[|images| - 1].id] else rest
  }

  /** The inner loop finds as many ids as there are images of the scene. */
  lemma SceneImageIdsLength(images: seq<Image>, scene: string)
    ensures |SceneImageIds(images, scene)| == SceneCount(images, scene)
  {
    FilterLength(images, HasScene(scene));
  }

  /** The inner loop yields exactly the ids of the images of the scene. */
  lemma SceneImageIdsMembers(images: seq<Image>, scene: string)
    ensures forall id :: (id in SceneImageIds(images, scene)
      <==> exists i :: 0 <= i < |images| && images[i].id == id && images[i].scene == scene)
  {
    var sel, r := Filter(images, HasScene(scene)), SceneImageIds(images, scene);
    FilterMembers(images, HasScene(scene));
    forall id | id in r
      ensures exists i :: 0 <= i < |images| && images[i].id == id && images[i].scene == scene
    {
      var k :| 0 <= k < |r| && r[k] == id;
      assert sel[k] in sel;
      var i :| 0 <= i < |images| && images[i] == sel[k];
    }
    forall i | 0 <= i < |images| && images[i].scene == scene
      ensures images[i].id in r
    {
      assert images[i] in sel;
      var k :| 0 <= k < |sel| && sel[k] == images[i];
      assert r[k] == images[i].id;
    }
  }

  /**
    `getImgIds`: for each requested scene in turn, the ids of all images of
    the raw list that show it. Its length is the sum of the per-scene match
    counts, so a repeated scene or a repeated image repeats ids, and an id
    comes back exactly when some image with that id shows a requested scene.
   */
  function GetImgIds(doc: Document, scenes: seq<string>): (r: seq<int>)
    ensures |r| == TotalSceneCount(doc.images, scenes)
    ensures forall id :: (id in r
      <==> exists i :: 0 <= i < |doc.images| && doc.images[i].id == id && doc.images[i].scene in scenes)
  {
    if |scenes| == 0 then []
    else
      var first, rest := scenes[0], scenes[1..];
      SceneImageIdsLength(doc.images, first);
      SceneImageIdsMembers(doc.images, first);
      assert forall x :: x in scenes <==> x == first || x in rest by {
        assert scenes == [first] + rest;
      }
      SceneImageIds(doc.images, first) + GetImgIds(doc, rest)
  }

  /**
    One requested scene contributes the ids of its images in raw-list order,
    one per matching image: the filter of the images showing the scene,
    projected to ids. With `ImgIdsSceneMajor` this fixes the whole result.
   */
  lemma ImgIdsOfOneScene(doc: Document, scene: string)
    ensures |GetImgIds(doc, [scene])| == |Filter(doc.images, HasScene(scene))|
    ensures forall i :: 0 <= i < |GetImgIds(doc, [scene])| ==>
      GetImgIds(doc, [scene])[i] == Filter(doc.images, HasScene(scene))[i].id
  {
    assert [scene][1..] == [];
    assert GetImgIds(doc, [scene]) == SceneImageIds(doc.images, scene) + GetImgIds(doc, []);
  }

  /** The result is scene-major: splitting the scene list splits the result at the same point. */
  lemma {:induction false} ImgIdsSceneMajor(doc: Document, scenes1: seq<string>, scenes2: seq<string>)
    ensures GetImgIds(doc, scenes1 + scenes2) == GetImgIds(doc, scenes1) + GetImgIds(doc, scenes2)
    decreases |scenes1|
  {
    if |scenes1| == 0 {
      assert scenes1 + scenes2 == scenes2;
    } else {
      var both := scenes1 + scenes2;
      assert both[0] == scenes1[0] && both[1..] == scenes1[1..] + scenes2;
      ImgIdsSceneMajor(doc, scenes1[1..], scenes2);
      var head := SceneImageIds(doc.images, scenes1[0]);
      assert GetImgIds(doc, both) == head + GetImgIds(doc, both[1..]);
      assert GetImgIds(doc, scenes1) == head + GetImgIds(doc, scenes1[1..]);
    }
  }

  /**
    `getImgInfo` and `getImgIds` agree on a single scene: the image found
    is the one whose id comes first, and nothing is found exactly when no
    id comes back.
   */
  lemma ImgInfoIsFirstOfImgIds(doc: Document, scene: string)
    ensures GetImgInfo(doc, scene).None? <==> GetImgIds(doc, [scene]) == []
    ensures GetImgInfo(doc, scene).Some? ==>
      |GetImgIds(doc, [scene])| > 0 && GetImgIds(doc, [scene])[0] == GetImgInfo(doc, scene).value.id
  {
    assert [scene][1..] == [];
    assert GetImgIds(doc, []) == [];
    var ids := GetImgIds(doc, [scene]);
    assert ids == SceneImageIds(doc.images, scene);
    match GetImgInfo(doc, scene)
    case None =>
      FilterEmpty(doc.images, HasScene(scene));
    case Some(img) =>
      var i :| IsFirstOfScene(doc.images, scene, i) && doc.images[i] == img;
      FilterHeadIsFirst(doc.images, HasScene(scene), i);
  }

  /**
    The record `getImgInfo` returns is the one the image table stores under
    its id, provided no two raw images share an id.
   */
  lemma ImgInfoAgreesWithImageTable(doc: Document, scene: string)
    requires forall i, j :: 0 <= i < j < |doc.images| ==> doc.images[i].id != doc.images[j].id
    ensures GetImgInfo(doc, scene).Some? ==>
      var img := GetImgInfo(doc, scene).value;
      img.id in AnnotationStore.ProcessImages(doc.images)
      && AnnotationStore.ProcessImages(doc.images)[img.id] == img
  {
    if GetImgInfo(doc, scene).Some? {
      var i :| IsFirstOfScene(doc.images, scene, i) && doc.images[i] == GetImgInfo(doc, scene).value;
      assert AnnotationStore.IsFirstWithKey(doc.images, ImageKey, i);
    }
  }

  /** The per-scene dictionary `mapScenesToInfo` builds. */
  datatype SceneInfo = SceneInfo(
    img1: string,
    img2: string,
    labels: seq<Segmentation>,
    actions: seq<Action>,
    bbox: seq<BBox>,
    depth1: string,
    depth2: string)

  /** A requested scene that no image shows: the source subscripts `None` and raises. */
  datatype QueryError = UnknownScene(scene: string)

  /** The three parallel lists the loop over an image's annotations appends to. */
  datatype SceneLists = SceneLists(labels: seq<Segmentation>, actions: seq<Action>, bbox: seq<BBox>)

  /** The loop that appends each annotation's polygons, action and box to the three lists. */
  function CollectLists(sel: seq<Annotation>): (lists: SceneLists)
    ensures |lists.labels| == |sel| && |lists.actions| == |sel| && |lists.bbox| == |sel|
    ensures forall i :: 0 <= i < |sel| ==>
      && lists.labels[i] == sel[i].segmentation
      && lists.actions[i] == sel[i].action
      && lists.bbox[i] == sel[i].bbox
  {
    if |sel| == 0 then SceneLists([], [], [])
    else
      var rest := CollectLists(sel[..|sel| - 1]);
      var a := sel[|sel| - 1];
      SceneLists(rest.labels + [a.segmentation], rest.actions + [a.action], rest.bbox + [a.bbox])
  }

  /**
    `info` is what the source builds for a scene that exists: the file names
    of its first image, and one entry per annotation of that image, entry
    `i` of all three lists coming from the same annotation, in input order.
   */
  ghost predicate DescribesScene(doc: Document, scene: string, info: SceneInfo)
  {
    && GetImgInfo(doc, scene).Some?
    && var img := GetImgInfo(doc, scene).value;
       var sel := GetAnnoInfo(doc, [img.id]);
       && info.img1 == img.image1 && info.img2 == img.image2
       && info.depth1 == img.depth1 && info.depth2 == img.depth2
       && |info.labels| == |sel| && |info.actions| == |sel| && |info.bbox| == |sel|
       && forall i :: 0 <= i < |sel| ==>
         && info.labels[i] == sel[i].segmentation
         && info.actions[i] == sel[i].action
         && info.bbox[i] == sel[i].bbox
  }

  /** The body of the scene loop for a scene whose image was found. */
  function SummarizeScene(doc: Document, img: Image): (info: SceneInfo)
    ensures info.img1 == img.image1 && info.img2 == img.image2
    ensures info.depth1 == img.depth1 && info.depth2 == img.depth2
    ensures |info.labels| == |info.actions| == |info.bbox| == |GetAnnoInfo(doc, [img.id])|
    ensures forall i :: 0 <= i < |info.labels| ==>
      && info.labels[i] == GetAnnoInfo(doc, [img.id])[i].segmentation
      && info.actions[i] == GetAnnoInfo(doc, [img.id])[i].action
      && info.bbox[i] == GetAnnoInfo(doc, [img.id])[i].bbox
  {
    var lists := CollectLists(GetAnnoInfo(doc, [img.id]));
    SceneInfo(img.image1, img.image2, lists.labels, lists.actions, lists.bbox, img.depth1, img.depth2)
  }

  /**
    `mapScenesToInfo`: a summary per requested scene. The scenes are handled
    in order, and the first one without an image stops the whole call, as
    the source's subscript of `None` does; a repeated scene rebuilds the same
    summary.
   */
  function MapScenesToInfo(doc: Document, scenes: seq<string>): (r: Result<map<string, SceneInfo>, QueryError>)
    ensures r.Success? <==> forall i :: 0 <= i < |scenes| ==> SceneExists(doc, scenes[i])
    ensures r.Success? ==> r.value.Keys == set s | s in scenes
    ensures r.Success? ==> forall s :: s in r.value ==> DescribesScene(doc, s, r.value[s])
    ensures r.Failure? ==> exists i ::
      && 0 <= i < |scenes| && scenes[i] == r.error.scene && !SceneExists(doc, scenes[i])
      && forall j :: 0 <= j < i ==> SceneExists(doc, scenes[j])
  {
    if |scenes| == 0 then Success(map[])
    else
      var init, last := scenes[..|scenes| - 1], scenes[|scenes| - 1];
      assert scenes == init + [last];
      match MapScenesToInfo(doc, init)
      case Failure(e) => Failure(e)
      case Success(m) =>
        match GetImgInfo(doc, last)
        case None => Failure(UnknownScene(last))
        case Some(img) => Success(m[last := SummarizeScene(doc, img)])
  }

  /**
    `getAnnoInfo` for one image is that image's list in the segmentation
    table (any table that groups the annotations by image, such as
    `ProcessSegmentations(doc.annotations)`), or empty when it has none.
   */
  lemma AnnoInfoOfOneImage(doc: Document, segs: map<int, seq<Annotation>>, k: int)
    requires AnnotationStore.IsGrouping(doc.annotations, segs)
    ensures GetAnnoInfo(doc, [k]) == if k in segs then segs[k] else []
  {
    FilterCongruent(doc.annotations, ImageIn([k]), OnImage(k));
    if k !in segs {
      forall i | 0 <= i < |doc.annotations| ensures doc.annotations[i].image_id != k {
        assert doc.annotations[i].image_id in AnnotationStore.ImageIdsOf(doc.annotations);
      }
      FilterEmpty(doc.annotations, OnImage(k));
    }
  }

  /**
    A scene summary (each entry of a successful `MapScenesToInfo` is one)
    lines up with its image's entry in the segmentation table: same length,
    entry by entry.
   */
  lemma SummaryMatchesSegmentations(doc: Document, segs: map<int, seq<Annotation>>, scene: string, info: SceneInfo)
    requires AnnotationStore.IsGrouping(doc.annotations, segs)
    requires DescribesScene(doc, scene, info)
    ensures var k := GetImgInfo(doc, scene).value.id;
      var group := if k in segs then segs[k] else [];
      && |info.labels| == |group| && |info.actions| == |group| && |info.bbox| == |group|
      && forall i :: 0 <= i < |group| ==>
        && info.labels[i] == group[i].segmentation
        && info.actions[i] == group[i].action
        && info.bbox[i] == group[i].bbox
  {
    AnnoInfoOfOneImage(doc, segs, GetImgInfo(doc, scene).value.id);
  }
}
