/**
 * The scratch-off reveal of src/Components/Mystery.jsx: pointer handlers
 * scratch an opaque canvas, and on release a loop counts the fully
 * transparent pixels; more than 60% transparent completes the page.
 */
module Mystery {

  /** One byte of the canvas's RGBA image data. */
  newtype byte = x: int | 0 <= x < 256

  /** The canvas height the mount effect sets. */
  const CanvasHeight: nat := 200

  /** Zero alpha bytes (indices 3, 7, 11, ...) among the first `n` bytes. */
  function ClearedBelow(data: seq<byte>, n: nat): nat
    requires n <= |data|
  {
    if n == 0 then 0
    else ClearedBelow(data, n - 1) + (if (n - 1) % 4 == 3 && data[n - 1] == 0 then 1 else 0)
  }

  /** The number of fully transparent pixels of the image data. */
  function Cleared(data: seq<byte>): nat
  {
    ClearedBelow(data, |data|)
  }

  /** One stride of the loop: the four bytes of pixel `k / 4` add its alpha test. */
  lemma ClearedStride(data: seq<byte>, k: nat)
    requires k % 4 == 0 && k + 4 <= |data|
    ensures ClearedBelow(data, k + 4) == ClearedBelow(data, k) + (if data[k + 3] == 0 then 1 else 0)
  {
    assert ClearedBelow(data, k + 1) == ClearedBelow(data, k);
    assert ClearedBelow(data, k + 2) == ClearedBelow(data, k + 1);
    assert ClearedBelow(data, k + 3) == ClearedBelow(data, k + 2);
  }

  /** Bytes past the last full pixel hold no alpha byte. */
  lemma ClearedTail(data: seq<byte>, k: nat)
    requires k % 4 == 0 && k <= |data| < k + 4
    ensures Cleared(data) == ClearedBelow(data, k)
  {
    if |data| >= k + 1 {
      assert ClearedBelow(data, k + 1) == ClearedBelow(data, k);
    }
    if |data| >= k + 2 {
      assert ClearedBelow(data, k + 2) == ClearedBelow(data, k + 1);
    }
    if |data| == k + 3 {
      assert ClearedBelow(data, k + 3) == ClearedBelow(data, k + 2);
    }
  }

  /** `checkCompletion`'s loop: `for (let i = 3; i < data.length; i += 4)`. */
  method CountCleared(data: array<byte>) returns (cleared: nat)
    ensures cleared == Cleared(data[..])
  {
    cleared := 0;
    var i := 3;
    while i < data.Length
      invariant 3 <= i && i % 4 == 3
      invariant i - 3 <= data.Length
      invariant cleared == ClearedBelow(data[..], i - 3)
    {
      ClearedStride(data[..], i - 3);
      if data[i] == 0 {
        cleared := cleared + 1;
      }
      i := i + 4;
    }
    ClearedTail(data[..], i - 3);
  }

  /** At most one alpha byte in every four bytes. */
  lemma {:induction false} ClearedBelowBound(data: seq<byte>, n: nat)
    requires n <= |data|
    ensures ClearedBelow(data, n) <= n / 4
    decreases n
  {
    if n > 0 {
      ClearedBelowBound(data, n - 1);
    }
  }

  /** For image data of a `w` by `h` canvas, at most `w * h` pixels are cleared. */
  lemma ClearedAtMostPixels(data: seq<byte>, w: nat, h: nat)
    requires |data| == 4 * w * h
    ensures Cleared(data) <= w * h
  {
    ClearedBelowBound(data, |data|);
  }

  /** `percent > 60`, stated on integers: `cleared * 100 > 60 * w * h`. */
  predicate Completes(cleared: nat, w: nat, h: nat)
  {
    cleared * 100 > 60 * w * h
  }

  /** Multiplying by a positive number keeps a strict comparison. */
  lemma ScaleKeepsOrder(x: real, y: real, a: real)
    requires a > 0.0
    ensures x > y <==> x * a > y * a
  {
    var d := x - y;
    assert x * a - y * a == d * a;
    if d > 0.0 {
      assert d * a > 0.0;
    } else {
      assert (-d) * a >= 0.0;
    }
  }

  /** The integer test agrees with the source's `(cleared / (w * h)) * 100 > 60`. */
  lemma CompletesIsPercentTest(cleared: nat, w: nat, h: nat)
    requires w * h > 0
    ensures Completes(cleared, w, h) <==> (cleared as real / (w * h) as real) * 100.0 > 60.0
  {
    var area := (w * h) as real;
    var percent := (cleared as real / area) * 100.0;
    assert percent * area == cleared as real * 100.0;
    assert (60 * w * h) as real == 60.0 * area;
    assert (cleared * 100) as real == cleared as real * 100.0;
    ScaleKeepsOrder(percent, 60.0, area);
  }

  /** The revealed percentage lies in [0, 100]. */
  lemma PercentInRange(data: seq<byte>, w: nat, h: nat)
    requires |data| == 4 * w * h && w * h > 0
    ensures 0.0 <= (Cleared(data) as real / (w * h) as real) * 100.0 <= 100.0
  {
    ClearedAtMostPixels(data, w, h);
    var area := (w * h) as real;
    assert Cleared(data) as real <= area;
    assert Cleared(data) as real / area <= 1.0;
  }

  /** A scratch makes every byte of each fully covered pixel 0 ("destination-out"). */
  function ClearPixels(data: seq<byte>, disk: set<int>): (r: seq<byte>)
    ensures |r| == |data|
  {
    seq(|data|, i requires 0 <= i < |data| => if i / 4 in disk then 0 else data[i])
  }

  /** Scratching never makes a transparent pixel opaque again. */
  lemma {:induction false} ScratchNeverUncovers(data: seq<byte>, disk: set<int>, n: nat)
    requires n <= |data|
    ensures ClearedBelow(data, n) <= ClearedBelow(ClearPixels(data, disk), n)
    decreases n
  {
    if n > 0 {
      ScratchNeverUncovers(data, disk, n - 1);
    }
  }

  /** Scratching the same spot twice has no further effect. */
  lemma ScratchIdempotent(data: seq<byte>, disk: set<int>)
    ensures ClearPixels(ClearPixels(data, disk), disk) == ClearPixels(data, disk)
  {
  }

  /** The canvas and the state of the page. */
  class ScratchCard {
    const width: nat
    const height: nat
    /** The canvas's RGBA backing store, four bytes per pixel. */
    const pixels: array<byte>
    var completed: bool
    var isDrawing: bool

    ghost predicate Valid()
      reads this
    {
      pixels.Length == 4 * width * height
    }

    /** Mount: a `w` by 200 canvas filled with the opaque white frost. */
    constructor (w: nat)
      ensures Valid() && fresh(pixels)
      ensures width == w && height == CanvasHeight
      ensures forall i :: 0 <= i < pixels.Length ==> pixels[i] == 255
      ensures !completed && !isDrawing
    {
      width, height := w, CanvasHeight;
      pixels := new byte[4 * w * CanvasHeight](_ => 255);
      completed, isDrawing := false, false;
    }

    /** `scratch`: the pixels in `disk` are those the 25-unit circle covers. */
    method Scratch(disk: set<int>)
      modifies pixels
      ensures pixels[..] == ClearPixels(old(pixels[..]), disk)
    {
      forall i | 0 <= i < pixels.Length && i / 4 in disk {
        pixels[i] := 0;
      }
      assert pixels[..] == ClearPixels(old(pixels[..]), disk);
    }

    /** `checkCompletion`: sets `completed` when more than 60% is clear, never resets it. */
    method CheckCompletion()
      requires Valid()
      modifies this
      ensures Valid()
      ensures completed == (old(completed) || Completes(Cleared(pixels[..]), width, height))
      ensures completed && !old(completed) ==>
        width * height > 0 && (Cleared(pixels[..]) as real / (width * height) as real) * 100.0 > 60.0
      ensures isDrawing == old(isDrawing)
    {
      var cleared := CountCleared(pixels);
      ClearedAtMostPixels(pixels[..], width, height);
      if Completes(cleared, width, height) {
        CompletesIsPercentTest(cleared, width, height);
        completed := true;
      }
    }

    /** `handlePointerDown`: start drawing and scratch at the pointer. */
    method HandlePointerDown(disk: set<int>)
      requires Valid()
      modifies this, pixels
      ensures Valid()
      ensures isDrawing && completed == old(completed)
      ensures pixels[..] == ClearPixels(old(pixels[..]), disk)
    {
      isDrawing := true;
      Scratch(disk);
    }

    /** `handlePointerMove`: scratch only while drawing. */
    method HandlePointerMove(disk: set<int>)
      requires Valid()
      modifies pixels
      ensures Valid()
      ensures pixels[..] == if isDrawing then ClearPixels(old(pixels[..]), disk) else old(pixels[..])
    {
      if isDrawing {
        Scratch(disk);
      }
    }

    /** `handlePointerUp`, also bound to `mouseleave` and `touchend`. */
    method HandlePointerUp()
      requires Valid()
      modifies this
      ensures Valid()
      ensures !isDrawing
      ensures completed == (old(completed) || Completes(Cleared(pixels[..]), width, height))
    {
      isDrawing := false;
      CheckCompletion();
    }

    /** The Continue button is rendered once `completed` is set. */
    predicate ContinueShown()
      reads this
    {
      completed
    }
  }
}
