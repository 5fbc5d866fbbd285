# Synthetic dataset index — a Dafny model

This project models the in-memory indexing layer of `SyntheticDataset`
(`dataset/synthetic_dataset_tools.py`). The class loads a COCO-style
annotation document of shop scenes. Each scene has before/after images,
depth maps, and annotations carrying polygons, a box and an action label.
From that document it builds lookup tables and answers queries over them.

The document is already parsed. It is the record `Records.Document`, holding
the `images`, `annotations` and `categories` lists in file order. The rows are
`Image(id, scene, image1, image2, depth1, depth2)`,
`Annotation(id, image_id, category_id, segmentation, bbox, action)` and
`Category(id, name, supercategory)`. The polygons, the box and the action are
opaque payloads that are copied through unchanged.

Modules:

- `Optional`: `Option` for a lookup that may find nothing; `Result` for a call that may fail.
- `Sequences`: the generic accumulate-if loop `Filter`. Its meaning is proved in lemmas: it is an order-preserving subsequence, it keeps every occurrence of a kept element, and its length is the number of matching positions.
- `Records`: the document and its rows.
- `AnnotationStore`: the tables the constructor builds. `process_categories` and `process_images` build first-wins dictionaries keyed by id. `process_segmentations` groups annotations by image id. `Load` chains the three.
- `SceneIndex`: the queries `getImgInfo`, `getAnnoInfo`, `getAnnIds`, `getImgIds` and `mapScenesToInfo`. They scan the raw lists of the document, as the source does.

Modelling choices:

- Every loop of the source becomes a recursive function, with one recursive step per loop iteration. Most recurse on the prefix of their input list, so the last step handles the loop's last element. `GetImgIds` recurses on the suffix of the scene list: it handles the first scene and then the rest. `ScanForScene` walks forward by a `start` index, because `getImgInfo` returns at its first match.
- Argument lists such as `imgIds` and `scenes` are sequences. The source only tests membership in them (`in`) and iterates over them in order.
- `getImgInfo` falls off its loop when no scene matches and so returns `None`. This is `Option.None`.
- `mapScenesToInfo` subscripts that `None` when a requested scene has no image, and the call raises at line 94. The model returns `Failure(UnknownScene(s))`, where `s` is the first such scene in request order. It never returns a partial dictionary.
- `getImgIds` is scene-major. The outer loop runs over the requested scenes (line 63) and the inner one over the images (line 64).
- The source's dictionary key `"label"` is the field `labels` of `SceneInfo`, because `label` is a Dafny keyword.

## Model

| member | source | states |
|---|---|---|
| Sequences.FilterSpec | dataset/synthetic_dataset_tools.py:51-55 | The accumulate-if loop returns a subsequence of its input (order kept). It holds every occurrence of an element that passes and nothing else. Its length is the number of passing positions. |
| Sequences.FilterHeadIsFirst | dataset/synthetic_dataset_tools.py:64-66 | The first element kept by the loop is the earliest element of the input that passes. |
| Sequences.FilterCongruent | dataset/synthetic_dataset_tools.py:51-55 | Two tests that agree on every element keep the same elements. |
| AnnotationStore.IndexFirstWins | dataset/synthetic_dataset_tools.py:246-262 | The insert-unless-present loop builds a map whose keys are exactly the keys in the input. Each key maps to the earliest element carrying it, and every stored value carries its own key. |
| AnnotationStore.FirstWinsStep | dataset/synthetic_dataset_tools.py:250-253 | One iteration of the insert-unless-present loop keeps the first-wins property. |
| AnnotationStore.LaterDuplicatesNeverOverwrite | dataset/synthetic_dataset_tools.py:246-253 | In any first-wins table of `xs + ys`, such as `IndexFirstWins(xs + ys, key)`, the elements appended after `xs` never displace the element that first carried a key in `xs`. |
| AnnotationStore.ProcessCategories | dataset/synthetic_dataset_tools.py:243-253 | The category table's keys are exactly the category ids in the input. Each id maps to the first category in input order that carries it. |
| AnnotationStore.ProcessImages | dataset/synthetic_dataset_tools.py:255-262 | The image table's keys are exactly the distinct image ids in the input. Each id maps to the earliest image that carries it. |
| AnnotationStore.AppendToGroup | dataset/synthetic_dataset_tools.py:267-270 | One iteration adds the annotation to the end of its image's list, creating that list empty when the image id is new. The keys gain that image id, and every other list is unchanged. |
| AnnotationStore.GroupStep | dataset/synthetic_dataset_tools.py:266-270 | Appending one annotation to its image's list keeps the grouping property. |
| AnnotationStore.ProcessSegmentations | dataset/synthetic_dataset_tools.py:264-270 | The segmentation table's keys are exactly the image ids that occur in the annotations. Entry `k` is exactly the subsequence of annotations with `image_id == k`, in input order. |
| AnnotationStore.ImageOrder | dataset/synthetic_dataset_tools.py:266-270 | The order in which the grouping loop first creates each list (the dictionary's key order) has no repeats and lists exactly the image ids that occur. |
| AnnotationStore.FlattenGroups | dataset/synthetic_dataset_tools.py:264-270 | Concatenating the groups of distinct image ids gives, as a multiset, the annotations of those images. |
| AnnotationStore.SelectingEveryImageKeepsAll | dataset/synthetic_dataset_tools.py:264-270 | Selecting by every image id that occurs keeps every annotation, with its multiplicity. |
| AnnotationStore.SegmentationsRoundTrip | dataset/synthetic_dataset_tools.py:264-270 | For any table that groups the annotations by image, such as `ProcessSegmentations(anns)`, concatenating the groups in key order gives a permutation of the input annotations. Nothing is lost or duplicated, and the length is the same. |
| AnnotationStore.Load | dataset/synthetic_dataset_tools.py:35-39 | After loading, the three tables are keyed by exactly the category ids, image ids and annotated image ids of the document. |
| SceneIndex.ScanForScene | dataset/synthetic_dataset_tools.py:44-46 | The scan from a start position finds the first position at or after it whose image shows the scene. It finds nothing exactly when no such position exists. |
| SceneIndex.GetImgInfo | dataset/synthetic_dataset_tools.py:41-46 | It returns an image exactly when some raw image shows the scene, and then the first such image in list order. Otherwise it returns `None`. |
| SceneIndex.ImgInfoAgreesWithImageTable | dataset/synthetic_dataset_tools.py:41-46 | When no two raw images share an id, the image found by scene is the one the image table stores under its id. |
| SceneIndex.GetAnnoInfo | dataset/synthetic_dataset_tools.py:48-55 | The result is the order-preserving subsequence of annotations whose image id is listed, holding every such occurrence. An empty id list gives an empty result. |
| SceneIndex.CollectAnnIds | dataset/synthetic_dataset_tools.py:73-77 | The single pass that collects ids has the length of the matching-annotation filter, and entry `i` is the id of that filter's entry `i`. |
| SceneIndex.GetAnnIds | dataset/synthetic_dataset_tools.py:69-77 | The result is the `id` field of `getAnnoInfo`'s result for the same ids, with the same length and order. |
| SceneIndex.SceneImageIds | dataset/synthetic_dataset_tools.py:64-66 | The inner loop yields the ids of the filter of images showing the scene, entry by entry. |
| SceneIndex.SceneImageIdsLength | dataset/synthetic_dataset_tools.py:64-66 | The inner loop yields one id per image position showing the scene. |
| SceneIndex.SceneImageIdsMembers | dataset/synthetic_dataset_tools.py:64-66 | An id is yielded by the inner loop exactly when some image with that id shows the scene. |
| SceneIndex.GetImgIds | dataset/synthetic_dataset_tools.py:57-67 | The result's length is the sum, over the requested scenes with repeats, of the number of raw images showing each scene. An id is returned exactly when some raw image with that id shows a requested scene. |
| SceneIndex.ImgIdsOfOneScene | dataset/synthetic_dataset_tools.py:64-66 | One requested scene contributes one id per raw image that shows it, in raw-list order: entry `i` is the id of the `i`-th matching image. Together with `ImgIdsSceneMajor` this fixes the whole result. |
| SceneIndex.ImgIdsSceneMajor | dataset/synthetic_dataset_tools.py:62-67 | The result is scene-major: for concatenated scene lists it is the concatenation of the two results. |
| SceneIndex.ImgInfoIsFirstOfImgIds | dataset/synthetic_dataset_tools.py:41-67 | For one scene, `getImgInfo` finds nothing exactly when `getImgIds` returns no id. Otherwise the image found carries the first id returned. |
| SceneIndex.CollectLists | dataset/synthetic_dataset_tools.py:96-103 | The three lists built by the loop have the length of its input. Entry `i` of each list comes from annotation `i`. |
| SceneIndex.SummarizeScene | dataset/synthetic_dataset_tools.py:93-105 | The summary copies the image's four file names. Its three lists are aligned with `getAnnoInfo` for that image's id, entry by entry. |
| SceneIndex.MapScenesToInfo | dataset/synthetic_dataset_tools.py:89-107 | The call succeeds exactly when every requested scene has an image. Otherwise it fails naming the first scene, in request order, that has none. On success the keys are the requested scenes. Each value copies `img1`/`img2`/`depth1`/`depth2` from `getImgInfo`'s record and holds `labels`/`actions`/`bbox` with one aligned entry per annotation of that record's id, in input order. |
| SceneIndex.AnnoInfoOfOneImage | dataset/synthetic_dataset_tools.py:99 | For a single image id, `getAnnoInfo` equals that id's list in any table that groups the annotations by image, such as `ProcessSegmentations`. It is empty when the table has no list for that id. |
| SceneIndex.SummaryMatchesSegmentations | dataset/synthetic_dataset_tools.py:99-103 | A scene summary, such as any entry of a successful `MapScenesToInfo`, has lists as long as its image's list in the segmentation table. Their entries come from that list, in order. |

## Left out

- File loading in the constructor (`open`, `json.load`, lines 31-33) is left out: it is I/O. The model starts from the parsed document.
- Missing fields are left out: the model assumes every row carries all its fields. The source validates nothing when it loads. It raises `KeyError` at the first access to a missing field, and the model leaves those errors out. During construction it reads only `id` of categories and images and `image_id` of annotations (lines 247, 258, 267). The other fields are read only when a query touches them. `getImgInfo` reads `scene` only for the images up to its first match (line 45). `mapScenesToInfo` reads the file names and the annotation payloads (lines 94-105).
- The duplicate-id messages printed by `process_categories` and `process_images` are left out: they are console output. The skip itself is modelled.
- `display_image` is left out. It decodes, encodes and draws images through PIL, OpenCV and matplotlib. It scales by a floating-point ratio. When `image_id` is `'random'`, it picks a random image (lines 159-160). Its inner loop variable `i` shadows the outer one, and `polygons_list` stays empty, so its colouring and polygon output are not well defined.
- `display_info`, `display_licenses` and `display_categories` are left out: they are console printers. `display_categories` also reads `super_categories`, which is never filled.
- `process_info`, `process_licenses` and the `info`/`licenses` blocks are left out: they are pass-throughs with nothing to state.
- The `urlretrieve` import and the Python version switch are left out: they are unused runtime plumbing.
- The key order of the category and image dictionaries is left out: Dafny maps have no order. The key order of the segmentation dictionary is modelled as `ImageOrder`, because the round trip is stated over it.
- The key order of the dictionary returned by `mapScenesToInfo` is left out for the same reason.
- Ids are modelled as integers. JSON documents could carry other hashable id values, and the source never relies on that.
