/** Rectangles given as percentages of the video frame, shared by detection
    boxes and the region of interest. */
module Geometry {

  /** `x`, `y` is the top-left corner; all four values are percentages of the
      frame's width or height. Nothing here forces them into 0..100: boxes
      come from the classifier unchecked. */
  datatype Rect = Rect(x: real, y: real, width: real, height: real)

  /** Horizontal coordinate of the centre of `r`. */
  function CentreX(r: Rect): real { r.x + r.width / 2.0 }

  /** Vertical coordinate of the centre of `r`. */
  function CentreY(r: Rect): real { r.y + r.height / 2.0 }
}
