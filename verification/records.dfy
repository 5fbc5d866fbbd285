/**
  The parsed annotation document and its three kinds of rows. The model
  assumes every row carries all its fields; the source raises `KeyError` at
  the first access to a missing field, and those errors are not modelled.
 */
module Records {

  /** A polygon list: each polygon is a flat [x0, y0, x1, y1, ...] point list. Copied through unchanged. */
  type Segmentation = seq<seq<real>>

  /** An [x, y, w, h] box. Copied through unchanged. */
  type BBox = seq<real>

  /** An action label such as "take", "put" or "shift". Copied through unchanged. */
  type Action = string

  datatype Image = Image(id: int, scene: string, image1: string, image2: string, depth1: string, depth2: string)

  datatype Annotation = Annotation(
    id: int,
    image_id: int,
    category_id: int,
    segmentation: Segmentation,
    bbox: BBox,
    action: Action)

  datatype Category = Category(id: int, name: string, supercategory: string)

  /** The `images`, `annotations` and `categories` lists of the document, in file order. */
  datatype Document = Document(images: seq<Image>, annotations: seq<Annotation>, categories: seq<Category>)

  function ImageKey(img: Image): int { img.id }

  function CategoryKey(c: Category): int { c.id }

  /** The key `process_segmentations` groups an annotation under. */
  function AnnotationImageKey(a: Annotation): int { a.image_id }

  /** Holds of the annotations that belong to image `k`. */
  function OnImage(k: int): Annotation -> bool
  {
    (a: Annotation) => a.image_id == k
  }

  /** Holds of the annotations whose image id is listed in `ids`. */
  function ImageIn(ids: seq<int>): Annotation -> bool
  {
    (a: Annotation) => a.image_id in ids
  }

  /** Holds of the images that show `scene`. */
  function HasScene(scene: string): Image -> bool
  {
    (img: Image) => img.scene == scene
  }
}
