/**
 * Choice of one URL per photo of a listing, as `SendAdToTg.get_images`,
 * `SendAdToTg.get_first_image` and their local `get_largest_image_url` do it.
 *
 * A photo comes as a mapping from a resolution label "WxH" to a URL. The
 * labels are modelled already parsed, as `Resolution` values, and the
 * mapping as the sequence of its entries in iteration order (the keys of a
 * Python dict are distinct, which none of the proofs needs).
 */
module Images {
  import opened Outcomes

  datatype Resolution = Resolution(width: nat, height: nat)

  /** The resolution variants of one photo, in the mapping's iteration order. */
  type Variants = seq<(Resolution, string)>

  /** Raised by `max` on a photo without variants; `image` is the photo's position. */
  datatype SelectError = NoVariants(image: nat)

  function Area(r: Resolution): nat {
    r.width * r.height
  }

  /**
   * `k` is the first entry of `img[..n]` whose area is the largest there:
   * no entry is larger and every entry before `k` is strictly smaller.
   */
  ghost predicate FirstLargest(img: Variants, k: nat, n: nat) {
    && k < n <= |img|
    && (forall j :: 0 <= j < n ==> Area(img[j].0) <= Area(img[k].0))
    && (forall j :: 0 <= j < k ==> Area(img[j].0) < Area(img[k].0))
  }

  /**
   * Python's `max` with a key, resumed at entry `i` with `best` the winner so
   * far: a later entry replaces the winner only when its area is strictly
   * larger.
   */
  function LargestFrom(img: Variants, best: nat, i: nat): (k: nat)
    requires FirstLargest(img, best, i)
    ensures FirstLargest(img, k, |img|)
    decreases |img| - i
  {
    if i == |img| then best
    else if Area(img[i].0) > Area(img[best].0) then LargestFrom(img, i, i + 1)
    else LargestFrom(img, best, i + 1)
  }

  /** The position of the key `max` returns. */
  function LargestIndex(img: Variants): (k: nat)
    requires img != []
    ensures FirstLargest(img, k, |img|)
  {
    LargestFrom(img, 0, 1)
  }

  /** There is only one first largest entry, so the choice is well defined. */
  lemma FirstLargestUnique(img: Variants, k1: nat, k2: nat)
    requires FirstLargest(img, k1, |img|) && FirstLargest(img, k2, |img|)
    ensures k1 == k2
  {
    assert Area(img[k1].0) == Area(img[k2].0);
  }

  /** `get_largest_image_url`: the URL under the largest resolution, or the error `max` raises on an empty mapping. */
  function LargestUrl(img: Variants): (r: Option<string>)
    ensures r.None? <==> img == []
    ensures r.Some? ==> exists k: nat :: FirstLargest(img, k, |img|) && r.value == img[k].1
  {
    if img == [] then None else Some(img[LargestIndex(img)].1)
  }

  /** The list comprehension over the photos from photo `from` on. */
  function UrlsFrom(images: seq<Variants>, from: nat): (r: Result<seq<string>, SelectError>)
    requires from <= |images|
    ensures r.Err? ==> from <= r.error.image < |images| && images[r.error.image] == []
                       && forall i :: from <= i < r.error.image ==> images[i] != []
    ensures r.Err? <==> exists i :: from <= i < |images| && images[i] == []
    ensures r.Ok? ==> |r.value| == |images| - from
                      && forall i :: from <= i < |images| ==> LargestUrl(images[i]) == Some(r.value[i - from])
    decreases |images| - from
  {
    if from == |images| then Ok([])
    else match LargestUrl(images[from])
      case None => Err(NoVariants(from))
      case Some(url) =>
        match UrlsFrom(images, from + 1)
        case Err(e) => Err(e)
        case Ok(urls) => Ok([url] + urls)
  }

  /**
   * `get_images`: one URL per photo, in the listing's order, each the URL of
   * that photo's largest resolution; the first photo without variants makes
   * it fail.
   */
  function GetImages(images: seq<Variants>): (r: Result<seq<string>, SelectError>)
    ensures r.Err? <==> exists i :: 0 <= i < |images| && images[i] == []
    ensures r.Err? ==> r.error.image < |images| && images[r.error.image] == []
                       && forall i :: 0 <= i < r.error.image ==> images[i] != []
    ensures r.Ok? ==> |r.value| == |images|
                      && forall i :: 0 <= i < |images| ==> LargestUrl(images[i]) == Some(r.value[i])
  {
    UrlsFrom(images, 0)
  }

  /**
   * `get_first_image`: the URL chosen for the first photo, nothing when there
   * are no photos. All photos are looked at first, so a later photo without
   * variants still makes it fail.
   */
  function GetFirstImage(images: seq<Variants>): (r: Result<Option<string>, SelectError>)
    ensures r.Err? <==> GetImages(images).Err?
    ensures r.Ok? ==> (r.value.None? <==> images == [])
    ensures r.Ok? && images != [] ==> Some(r.value.value) == LargestUrl(images[0])
  {
    match GetImages(images)
    case Err(e) => Err(e)
    case Ok(urls) => if urls == [] then Ok(None) else Ok(Some(urls[0]))
  }

  /** The selection on a photo offered as 100x200, 300x300 and 50x50 picks the 300x300 URL. */
  lemma LargestUrlExample()
    ensures LargestUrl([(Resolution(100, 200), "u1"), (Resolution(300, 300), "u2"), (Resolution(50, 50), "u3")])
            == Some("u2")
  {
    var img := [(Resolution(100, 200), "u1"), (Resolution(300, 300), "u2"), (Resolution(50, 50), "u3")];
    assert FirstLargest(img, 1, 3);
    FirstLargestUnique(img, 1, LargestIndex(img));
  }

  /** On equal areas the entry met first wins. */
  lemma LargestUrlTie()
    ensures LargestUrl([(Resolution(20, 10), "wide"), (Resolution(10, 20), "tall")]) == Some("wide")
  {
    var img := [(Resolution(20, 10), "wide"), (Resolution(10, 20), "tall")];
    assert FirstLargest(img, 0, 2);
    FirstLargestUnique(img, 0, LargestIndex(img));
  }
}
