/**
 * The data path of `takeSnap` (PiBeamProfiler.py:216-226): a still frame of
 * height x width x 3 bytes is reduced to one intensity per pixel by summing
 * its channels, and a 1000 x 1000 window is sliced out of the result.
 */
module Imaging {

  /** A camera resolution as PiCamera takes it: (width, height). */
  datatype Res = Res(width: nat, height: nat)

  /** The preview resolution `imageres` (line 42) and the still resolution (line 216). */
  const PreviewRes := Res(640, 480)
  const CaptureRes := Res(3280, 2464)

  /** The side of the exported square (`imageDim`, line 219). */
  const ImageDim := 1000

  /**
   * The slice offsets of line 226, with the integer division of Python 2.
   * The offset computed from the WIDTH is applied to the first (row) axis and
   * the one computed from the HEIGHT to the second (column) axis, so the
   * window starts at row 1140 and column 732 rather than at the centre
   * (row 732, column 1140). It still lies inside the 2464 x 3280 image.
   */
  const RowOffset: nat := (CaptureRes.width - ImageDim) / 2
  const ColOffset: nat := (CaptureRes.height - ImageDim) / 2

  type Pixel = seq<int>
  /** `img.array`: rows of pixels, each pixel a sequence of channel values. */
  type Frame = seq<seq<Pixel>>
  /** A single-channel intensity array, row-major. */
  type Image = seq<seq<int>>

  predicate IsByte(v: int)
  {
    0 <= v < 256
  }

  predicate IsRgb(p: Pixel)
  {
    |p| == 3 && forall c :: 0 <= c < 3 ==> IsByte(p[c])
  }

  /** An RGB frame as the camera returns it at (width, height): height rows of width pixels. */
  predicate IsRgbFrame(f: Frame, res: Res)
  {
    |f| == res.height &&
    forall i :: 0 <= i < |f| ==> |f[i]| == res.width && forall j :: 0 <= j < |f[i]| ==> IsRgb(f[i][j])
  }

  /** Every value of the image lies in [0, bound]. */
  predicate Bounded(g: Image, bound: int)
  {
    forall i, j :: 0 <= i < |g| && 0 <= j < |g[i]| ==> 0 <= g[i][j] <= bound
  }

  /** The sum of one pixel's channel values; on byte channels it lies in [0, 255 * channels]. */
  function ChannelSum(p: Pixel): (r: int)
    ensures (forall c :: 0 <= c < |p| ==> IsByte(p[c])) ==> 0 <= r <= 255 * |p|
  {
    if p == [] then 0
    else
      assert forall c :: 0 <= c < |p| - 1 ==> p[1..][c] == p[c + 1];
      p[0] + ChannelSum(p[1..])
  }

  /** On an RGB pixel the sum is that of its three channels. */
  lemma {:induction false} ChannelSumRgb(p: Pixel)
    requires |p| == 3
    ensures ChannelSum(p) == p[0] + p[1] + p[2]
  {
    assert p[1..][1..][1..] == [];
    assert ChannelSum(p[1..][1..]) == p[2];
  }

  /** One row of `np.sum(img.array, axis=2)`. */
  function RowSum(row: seq<Pixel>): (r: seq<int>)
    ensures |r| == |row|
    ensures forall j :: 0 <= j < |row| ==> r[j] == ChannelSum(row[j])
  {
    if row == [] then [] else [ChannelSum(row[0])] + RowSum(row[1..])
  }

  /** `np.sum(img.array, axis=2)` (line 225): each pixel replaced by the sum of its channels. */
  function FrameSum(f: Frame): (g: Image)
    ensures |g| == |f|
    ensures forall i :: 0 <= i < |f| ==> |g[i]| == |f[i]|
    ensures forall i, j :: 0 <= i < |f| && 0 <= j < |f[i]| ==> g[i][j] == ChannelSum(f[i][j])
  {
    if f == [] then [] else [RowSum(f[0])] + FrameSum(f[1..])
  }

  /**
   * The summed still has the frame's shape, `resolution[1]` rows of
   * `resolution[0]` values (line 224), and no value exceeds 3 * 255 = 765.
   */
  lemma FrameSumShape(f: Frame, res: Res)
    requires IsRgbFrame(f, res)
    ensures |FrameSum(f)| == res.height
    ensures forall i :: 0 <= i < res.height ==> |FrameSum(f)[i]| == res.width
    ensures Bounded(FrameSum(f), 765)
  {
  }

  /**
   * Basic slicing `s[lo:hi]` of numpy and Python with non-negative bounds:
   * both bounds are clamped to the length, and an empty range gives nothing.
   */
  function Slice<T>(s: seq<T>, lo: nat, hi: nat): (r: seq<T>)
    ensures |r| <= |s|
    ensures lo <= hi <= |s| ==> |r| == hi - lo
    ensures forall k :: 0 <= k < |r| ==> lo + k < hi && lo + k < |s| && r[k] == s[lo + k]
  {
    var a := if lo < |s| then lo else |s|;
    var b := if hi < a then a else if hi < |s| then hi else |s|;
    s[a..b]
  }

  /** `g[top:bottom, left:right]` on a two-dimensional array. */
  function Crop(g: Image, top: nat, bottom: nat, left: nat, right: nat): (r: Image)
    ensures top <= bottom <= |g| ==> |r| == bottom - top
    ensures r != [] ==> top + |r| <= bottom && top + |r| <= |g|
    ensures forall i :: 0 <= i < |r| ==> left <= right <= |g[top + i]| ==> |r[i]| == right - left
    ensures forall i, j :: 0 <= i < |r| && 0 <= j < |r[i]| ==>
      left + j < right && left + j < |g[top + i]| && r[i][j] == g[top + i][left + j]
  {
    var rows := Slice(g, top, bottom);
    seq(|rows|, i requires 0 <= i < |rows| => Slice(rows[i], left, right))
  }

  /** The array `takeSnap` exports (lines 224-226): the channel sum, cut to the window. */
  function SnapshotImage(still: Frame): Image
  {
    Crop(FrameSum(still), RowOffset, RowOffset + ImageDim, ColOffset, ColOffset + ImageDim)
  }

  /**
   * On a still at 3280 x 2464 the exported array is exactly 1000 x 1000; the
   * window lies inside the 2464 x 3280 array; value (i, j) is the channel sum
   * of still pixel (1140 + i, 732 + j) and lies in [0, 765].
   */
  lemma SnapshotImageSpec(still: Frame)
    requires IsRgbFrame(still, CaptureRes)
    ensures RowOffset == 1140 && ColOffset == 732
    ensures RowOffset + ImageDim <= CaptureRes.height && ColOffset + ImageDim <= CaptureRes.width
    ensures |SnapshotImage(still)| == ImageDim
    ensures forall i :: 0 <= i < ImageDim ==> |SnapshotImage(still)[i]| == ImageDim
    ensures forall i, j :: 0 <= i < ImageDim && 0 <= j < ImageDim ==>
      SnapshotImage(still)[i][j] == still[RowOffset + i][ColOffset + j][0]
        + still[RowOffset + i][ColOffset + j][1] + still[RowOffset + i][ColOffset + j][2]
    ensures Bounded(SnapshotImage(still), 765)
  {
    var g := FrameSum(still);
    FrameSumShape(still, CaptureRes);
    var r := SnapshotImage(still);
    forall i, j | 0 <= i < ImageDim && 0 <= j < ImageDim
      ensures r[i][j] == still[RowOffset + i][ColOffset + j][0]
        + still[RowOffset + i][ColOffset + j][1] + still[RowOffset + i][ColOffset + j][2]
    {
      ChannelSumRgb(still[RowOffset + i][ColOffset + j]);
    }
  }
}
