/** The product record and the fixed catalogue the storefront renders
    (src/App.tsx, lines 9-106). */
module Catalog {

  /** One catalogue entry. `rating` is in tenths of a star (4.6 is 46), which
      orders products exactly as the source's decimal ratings do. The image
      URL is display-only and is not modelled. */
  datatype Product = Product(
    id: nat,
    title: string,
    price: nat,
    rating: nat,
    category: string,
    tags: seq<string>,
    inStock: bool)

  /** Identifiers of the category facet (`CATEGORIES`). */
  const CategoryIds: seq<string> := ["lighting", "wall", "floor", "furniture", "textile", "decor"]

  /** Identifiers of the tag facet (`TAGS`). */
  const TagIds: seq<string> := ["eco", "lux", "modern", "classic"]

  // The eight entries of `MOCK_PRODUCTS`, named after their titles.
  const Chandelier: Product := Product(1, "لوستر مدرن ۸ شاخه", 9800000, 46, "lighting", ["modern", "lux"], true)
  const HandwovenRug: Product := Product(2, "فرش دست‌بافت ۳x۲", 16500000, 49, "textile", ["classic", "lux"], true)
  const StoneWallpaper: Product := Product(3, "کاغذ دیواری طرح سنگ", 1850000, 42, "wall", ["modern"], true)
  const WoodenLoveseat: Product := Product(4, "مبل دونفره چوبی", 12500000, 44, "furniture", ["classic", "eco"], false)
  const LaminateFloor: Product := Product(5, "کفپوش لمینت آنتیک", 5200000, 41, "floor", ["modern", "eco"], true)
  const VelvetCushions: Product := Product(6, "ست کوسن مخمل", 890000, 40, "textile", ["modern"], true)
  const GildedMirror: Product := Product(7, "آینه دکوراتیو طلایی", 3700000, 47, "decor", ["lux", "modern"], true)
  const DeskLamp: Product := Product(8, "چراغ مطالعه سبز", 1450000, 43, "lighting", ["modern", "eco"], true)

  /** `MOCK_PRODUCTS`, in declaration order. */
  const MockProducts: seq<Product> := [
    Chandelier, HandwovenRug, StoneWallpaper, WoodenLoveseat,
    LaminateFloor, VelvetCushions, GildedMirror, DeskLamp
  ]

  /** The ids of a list of products, in order. */
  function Ids(ps: seq<Product>): (r: seq<nat>)
    ensures |r| == |ps|
    ensures forall k :: 0 <= k < |ps| ==> r[k] == ps[k].id
  {
    if ps == [] then [] else [ps[0].id] + Ids(ps[1..])
  }
}
