/** The records the fusion core reads and fills in, reduced to the fields it uses. */
module Records {
  import opened Geometry

  /** A lidar point: x forward, y left, z up (metres) and reflectivity r. */
  datatype LidarPoint = LidarPoint(x: real, y: real, z: real, r: real)

  /** A keypoint, reduced to its pixel position. */
  datatype KeyPoint = KeyPoint(pt: Point)

  /** A keypoint correspondence (cv::DMatch): queryIdx indexes the previous
      frame's keypoints, trainIdx the current frame's. */
  datatype Match = Match(queryIdx: int, trainIdx: int, distance: real)

  /** A detected object: id, region of interest, class, and the lidar points
      and keypoint matches that the core associates with it. */
  datatype BoundingBox = BoundingBox(
    boxId: int,
    roi: Rect,
    classId: int,
    lidarPoints: seq<LidarPoint>,
    kptMatches: seq<Match>)

  /** One camera frame as seen by the box matcher. */
  datatype DataFrame = DataFrame(keypoints: seq<KeyPoint>, boundingBoxes: seq<BoundingBox>)
}
