/**
 * The popup lightbox: an image gallery stepped with previous/next buttons, or a PDF frame.
 * Indices use JavaScript's `%`, whose remainder takes the sign of the dividend.
 */
module Gallery {
  import opened Wrappers

  /** `a % n` as JavaScript computes it for integers, truncating toward zero. */
  function JsRem(a: int, n: int): (r: int)
    requires n > 0
    ensures a >= 0 ==> 0 <= r < n && r == a % n
    ensures a < 0 ==> -n < r <= 0
  {
    if a >= 0 then a % n else -((-a) % n)
  }

  /** `(idx + 1) % gallery.length`. */
  function NextIndex(i: int, n: int): int
    requires n > 0
  {
    JsRem(i + 1, n)
  }

  /** `(idx - 1 + gallery.length) % gallery.length`. */
  function PrevIndex(i: int, n: int): int
    requires n > 0
  {
    JsRem(i - 1 + n, n)
  }

  /** From a valid index both steps land on a valid index, wrapping at either end. */
  lemma StepsInRange(i: int, n: int)
    requires 0 <= i < n
    ensures 0 <= NextIndex(i, n) < n && 0 <= PrevIndex(i, n) < n
    ensures NextIndex(i, n) == (if i == n - 1 then 0 else i + 1)
    ensures PrevIndex(i, n) == (if i == 0 then n - 1 else i - 1)
  {
    if i == n - 1 {
      ModUnique(i + 1, n, 1, 0);
    } else {
      ModUnique(i + 1, n, 0, i + 1);
    }
    if i > 0 {
      ModUnique(i - 1 + n, n, 1, i - 1);
    } else {
      ModUnique(i - 1 + n, n, 0, n - 1);
    }
  }

  /** Previous undoes next, and next undoes previous. */
  lemma StepsInverse(i: int, n: int)
    requires 0 <= i < n
    ensures PrevIndex(NextIndex(i, n), n) == i
    ensures NextIndex(PrevIndex(i, n), n) == i
  {
    StepsInRange(i, n);
    StepsInRange(NextIndex(i, n), n);
    StepsInRange(PrevIndex(i, n), n);
  }

  /** `m` presses of next from `i`. */
  function NextTimes(i: int, n: int, m: nat): int
    requires n > 0
  {
    if m == 0 then i else NextIndex(NextTimes(i, n, m - 1), n)
  }

  lemma {:induction false} MulAtLeast(k: int, n: int)
    requires k >= 1 && n > 0
    ensures k * n >= n
  {
    if k > 1 {
      MulAtLeast(k - 1, n);
      assert k * n == (k - 1) * n + n;
    }
  }

  /** The remainder of `q * n + r` is `r` when `0 <= r < n`. */
  lemma ModUnique(x: int, n: int, q: int, r: int)
    requires n > 0 && 0 <= r < n && x == q * n + r
    ensures x % n == r
  {
    var q', r' := x / n, x % n;
    assert x == q' * n + r' && 0 <= r' < n;
    assert (q' - q) * n == r - r' by {
      assert (q' - q) * n == q' * n - q * n;
    }
    if q' > q {
      MulAtLeast(q' - q, n);
    } else if q' < q {
      MulAtLeast(q - q', n);
    }
  }

  /** One more step adds one to the remainder, wrapping at `n`. */
  lemma ModSucc(a: int, n: int)
    requires a >= 0 && n > 0
    ensures (a + 1) % n == if a % n == n - 1 then 0 else a % n + 1
  {
    var q, r := a / n, a % n;
    assert a == q * n + r;
    if r == n - 1 {
      assert a + 1 == (q + 1) * n + 0;
      ModUnique(a + 1, n, q + 1, 0);
    } else {
      ModUnique(a + 1, n, q, r + 1);
    }
  }

  /** `m` presses of next from a valid index `i` show image `(i + m) % n`. */
  lemma {:induction false} NextTimesIndex(i: int, n: int, m: nat)
    requires 0 <= i < n
    ensures NextTimes(i, n, m) == (i + m) % n
  {
    if m > 0 {
      NextTimesIndex(i, n, m - 1);
      var j := (i + m - 1) % n;
      StepsInRange(j, n);
      ModSucc(i + m - 1, n);
    }
  }

  /** Pressing next as many times as there are images comes back to the first one shown. */
  lemma NextCycles(i: int, n: int)
    requires 0 <= i < n
    ensures NextTimes(i, n, n) == i
  {
    NextTimesIndex(i, n, n);
    ModUnique(i + n, n, 1, i);
  }

  datatype Mode = Img | Pdf

  /**
   * What `lbImg.src = gallery[i]` stores: the image at `i`, or, for an index outside the gallery,
   * the text `"undefined"` that `undefined` converts to.
   */
  function ImageAt(gallery: seq<string>, i: int): string {
    if 0 <= i < |gallery| then gallery[i] else "undefined"
  }

  class Lightbox {
    var open: bool
    var mode: Mode
    var gallery: seq<string>
    var idx: int
    /** `lbImg.src`, the image element's source. */
    var img: string
    /** `lbFrame.src`, the PDF on show. */
    var frame: string

    /** An open image gallery has at least one image, and the image element shows the one at `idx`. */
    ghost predicate Valid()
      reads this
    {
      open && mode == Img ==> |gallery| > 0 && img == ImageAt(gallery, idx)
    }

    /** The image on show: the image element's source while the lightbox is open in image mode. */
    function Image(): (r: Option<string>)
      reads this
      requires Valid()
      ensures r.Some? <==> open && mode == Img
      ensures r.Some? && 0 <= idx < |gallery| ==> r.value == gallery[idx]
    {
      if open && mode == Img then Some(img) else None
    }

    /** The page's initial state: hidden, image mode, no gallery, both sources empty. */
    constructor ()
      ensures !open && mode == Img && gallery == [] && idx == 0 && img == "" && frame == ""
      ensures Valid()
    {
      open, mode, gallery, idx, img, frame := false, Img, [], 0, "", "";
    }

    /** `openImages(urls, start)`: show the gallery `urls` from image `start`. */
    method OpenImages(urls: seq<string>, start: int)
      requires |urls| > 0
      modifies this
      ensures open && mode == Img && gallery == urls && frame == old(frame)
      ensures idx == JsRem(start + |urls|, |urls|) && img == ImageAt(urls, idx)
      ensures -|urls| <= start ==> 0 <= idx < |urls| && Image() == Some(urls[(start + |urls|) % |urls|])
      ensures Valid()
    {
      mode := Img;
      gallery := urls;
      idx := JsRem(start + |gallery|, |gallery|);
      img := ImageAt(gallery, idx);
      open := true;
    }

    /** `openPDF(url)`: the image element is hidden but keeps its source. */
    method OpenPdf(url: string)
      modifies this
      ensures open && mode == Pdf && frame == url
      ensures gallery == old(gallery) && idx == old(idx) && img == old(img)
      ensures Image() == None
      ensures Valid()
    {
      mode := Pdf;
      frame := url;
      open := true;
    }

    /** `closeLB()`: hide the lightbox and empty both sources; the mode and the gallery stay as they were. */
    method Close()
      modifies this
      ensures !open && mode == old(mode) && gallery == old(gallery) && idx == old(idx)
      ensures img == "" && frame == ""
      ensures Image() == None
      ensures Valid()
    {
      open := false;
      img := "";
      frame := "";
    }

    /** The previous button; it does nothing unless images are on show. */
    method Prev()
      requires open && Valid()
      modifies this
      ensures open == old(open) && mode == old(mode) && gallery == old(gallery) && frame == old(frame)
      ensures idx == if mode == Img then PrevIndex(old(idx), |gallery|) else old(idx)
      ensures img == if mode == Img then ImageAt(gallery, idx) else old(img)
      ensures Valid()
      ensures mode == Img && 0 <= old(idx) < |gallery| ==> 0 <= idx < |gallery| && Image() == Some(gallery[idx])
    {
      if mode == Img {
        idx := PrevIndex(idx, |gallery|);
        img := ImageAt(gallery, idx);
        if 0 <= old(idx) < |gallery| {
          StepsInRange(old(idx), |gallery|);
        }
      }
    }

    /** The next button; it does nothing unless images are on show. */
    method Next()
      requires open && Valid()
      modifies this
      ensures open == old(open) && mode == old(mode) && gallery == old(gallery) && frame == old(frame)
      ensures idx == if mode == Img then NextIndex(old(idx), |gallery|) else old(idx)
      ensures img == if mode == Img then ImageAt(gallery, idx) else old(img)
      ensures Valid()
      ensures mode == Img && 0 <= old(idx) < |gallery| ==> 0 <= idx < |gallery| && Image() == Some(gallery[idx])
    {
      if mode == Img {
        idx := NextIndex(idx, |gallery|);
        img := ImageAt(gallery, idx);
        if 0 <= old(idx) < |gallery| {
          StepsInRange(old(idx), |gallery|);
        }
      }
    }
  }
}
