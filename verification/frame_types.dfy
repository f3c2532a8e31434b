/** Kinds of video frames. */
module FrameTypes {
  datatype FrameType = KeyFrame | DeltaFrame | EmptyFrame
}
