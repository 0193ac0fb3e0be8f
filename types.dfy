/** The value records exchanged between the frame sampler, the timeline and the editor. */
module Types {

  /** A pixel position in the canvas's native coordinate space. JavaScript numbers are reals here. */
  datatype Point = Point(x: real, y: real)

  /** A freehand annotation polygon; its points are in drawing order (`labelName` is the source's `label`). */
  datatype Mask = Mask(id: string, points: seq<Point>, labelName: string, confidence: real)

  datatype Label = Label(id: string, name: string, color: string)

  datatype Segmentation = Segmentation(masks: seq<Mask>, labels: seq<Label>, confidence: seq<real>)

  const EmptySegmentation := Segmentation([], [], [])

  /** One sampled video still, identified by `id`, taken at `timestamp` seconds. */
  datatype FrameData = FrameData(id: string, timestamp: real, segmentation: Segmentation, thumbnail: string)

  datatype Resolution = Resolution(width: nat, height: nat)

  /** The sampler's output: the frames in sampling order, the resolved duration and the native size. */
  datatype ProcessedVideoData = ProcessedVideoData(frames: seq<FrameData>, duration: real, resolution: Resolution)
}
