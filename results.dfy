/** Failure-carrying results shared by the image, decoder and comparison modules. */
module Results {

  /** Every validation failure the core can report. */
  datatype Error =
    | WidthNotPositive      // image construction: width <= 0
    | HeightNotPositive     // image construction: height <= 0
    | SampleCountMismatch   // image construction: count is neither w*h nor 3*w*h
    | IndexOutOfBounds      // sample index outside the array
    | CoordinateOutOfRange  // pixel coordinate outside the image
    | BadMagic              // decoder: first header line has neither "Pf" nor "PF"
    | BadSize               // decoder: second header line is not two non-negative ints
    | BadScale              // decoder: third header line is not a float
    | SizeMismatch          // comparison of images of different width or height

  datatype Result<+T> = Ok(value: T) | Err(error: Error)

  datatype Option<+T> = None | Some(value: T)
}
