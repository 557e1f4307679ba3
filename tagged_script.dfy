/**
  tagged.py: the batch variant of main.py that keeps only the valid count and
  stops the whole run at the first `...m.vsi` path that does not exist.
*/
module TaggedScript {
  import opened Counting
  import opened Names
  import opened Contours
  import opened Batch

  /** The counting loop of `save_image_with_contours`: only the valid contours are counted. */
  method CountContours(blue: seq<Contour>, red: seq<Contour>, test: PolygonTest) returns (count: nat)
    ensures count == ValidCount(blue, red, test) == Classify(blue, red, test).valid
    ensures count <= SurvivorCount(blue) <= |blue|
  {
    count := 0;
    for i := 0 to |blue|
      invariant count == ValidCount(blue[..i], red, test)
    {
      var cb := blue[i];
      CountIfSnoc(blue, i, ValidTest(red, test));
      if cb.area <= NoiseFloor {
        continue;
      }
      if cb.m00 == 0.0 {
        continue;
      }
      var point := Centroid(cb);
      var isInside := AnyOnOrInside(red, point, test);
      if isInside {
        count := count + 1;
      }
    }
    assert blue[..|blue|] == blue;
  }

  /** The file name ending of the images tagged.py analyses. */
  const TaggedSuffix: string := "m.vsi"

  /** tagged.py ends the whole run (`sys.exit(1)`) at the first missing image. */
  const TaggedPolicy: Policy := Policy(TaggedSuffix, ExitOnMissing)

  /** The data directory the script walks. */
  const TaggedBase: string := "./data"

  /** The count `save_image_with_contours` returns for a loaded image's channels. */
  function TaggedAnalysis(test: PolygonTest): Channels -> nat {
    (image: Channels) => ValidCount(image.blue, image.red, test)
  }

  /**
    The script's top level: one row `[col, slide, region, count]` per `m.vsi`
    image of `./data/<col>/<slide>/<region>`, in sorted order at every level;
    the run stops at the first missing image or image that does not load.
  */
  method TaggedBatch(fs: FileSystem<Channels>, test: PolygonTest) returns (report: State<nat>)
    ensures report == Run(TaggedPolicy, fs, TaggedAnalysis(test), RegionWalk(SlashJoin, fs.listdir, TaggedBase))
    ensures DistinctListings(fs.listdir) ==> RowsOrdered(report.rows)
    ensures forall r :: r in report.rows ==> |r.labels| == 3 && EndsWith(r.labels[2], TaggedSuffix)
    ensures ExitCode(report) == 0 <==>
      forall e :: e in RegionWalk(SlashJoin, fs.listdir, TaggedBase) ==>
        e.Visit? && (EndsWith(e.path, TaggedSuffix) ==> fs.pathExists(e.path) && fs.load(e.path).Some?)
  {
    report := BulkRegions(SlashJoin, TaggedPolicy, fs, TaggedAnalysis(test), TaggedBase);
    ghost var walk := RegionWalk(SlashJoin, fs.listdir, TaggedBase);
    SlashJoinKeepsSuffix(TaggedSuffix);
    RegionWalkShaped(SlashJoin, fs.listdir, TaggedBase, TaggedSuffix);
    ReportShape(TaggedPolicy, fs, TaggedAnalysis(test), walk, 3);
    if DistinctListings(fs.listdir) {
      RegionWalkOrdered(SlashJoin, fs.listdir, TaggedBase);
    }
    RunFinishes(TaggedPolicy, fs, TaggedAnalysis(test), walk);
  }
}
