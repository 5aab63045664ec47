/**
 * The crop taken around each detected face in the live stream
 * (WebCam.py:184-186): the face rectangle grown by a fixed margin and clamped
 * to the bounds 480 and 640 hard-coded at WebCam.py:185-186.
 */
module Crop {

  const FrameWidth: int := 640
  const FrameHeight: int := 480
  const Margin: int := 100

  /** A detector rectangle; `bottom` and `right` are the last row and column of the face. */
  datatype Rect = Rect(left: int, top: int, right: int, bottom: int)

  /** The slice `frame[rowStart:rowEnd, colStart:colEnd]` (ends exclusive). */
  datatype Window = Window(rowStart: int, rowEnd: int, colStart: int, colEnd: int)

  predicate InRows(w: Window, row: int)
  {
    w.rowStart <= row < w.rowEnd
  }

  predicate InCols(w: Window, col: int)
  {
    w.colStart <= col < w.colEnd
  }

  function Max(a: int, b: int): int
  {
    if a < b then b else a
  }

  function Min(a: int, b: int): int
  {
    if a < b then a else b
  }

  /**
   * The crop window of a face: exactly the rows and columns that lie both in
   * the frame and in the rectangle grown by `Margin` on every side. It never
   * starts before row or column 0 and never ends past the frame, and it holds
   * the whole face whenever the face lies inside the frame.
   */
  function CropWindow(r: Rect): (w: Window)
    ensures 0 <= w.rowStart && w.rowEnd <= FrameHeight
    ensures 0 <= w.colStart && w.colEnd <= FrameWidth
    ensures forall row :: InRows(w, row) <==> 0 <= row < FrameHeight && r.top - Margin <= row < r.bottom + Margin
    ensures forall col :: InCols(w, col) <==> 0 <= col < FrameWidth && r.left - Margin <= col < r.right + Margin
    ensures 0 <= r.top && r.bottom < FrameHeight ==> w.rowStart <= r.top && r.bottom < w.rowEnd
    ensures 0 <= r.left && r.right < FrameWidth ==> w.colStart <= r.left && r.right < w.colEnd
  {
    Window(Max(0, r.top - Margin), Min(r.bottom + Margin, FrameHeight),
           Max(0, r.left - Margin), Min(r.right + Margin, FrameWidth))
  }
}
