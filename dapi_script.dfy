/**
  DAPI_count.py: counts the contours of the grey-scale image whose area is
  above the noise floor, for every `...d.vsi` image of a collection/slide/region
  tree, and stops the run at the first such path that does not exist.
*/
module DapiScript {
  import opened Counting
  import opened Names
  import opened Contours
  import opened Batch

  /** DAPI_count.py's threshold (`if area > 5:`). */
  const DapiMinArea: real := NoiseFloor

  /** The area tally of `save_image_with_contours` for contour list `contours` and threshold `minArea`. */
  method CountContours(contours: seq<Contour>, minArea: real) returns (count: nat)
    ensures count == AboveCount(contours, minArea)
    ensures count <= |contours|
  {
    count := 0;
    for i := 0 to |contours|
      invariant count == AboveCount(contours[..i], minArea)
    {
      var c := contours[i];
      CountIfSnoc(contours, i, AboveTest(minArea));
      var area := c.area;
      if area > minArea {
        count := count + 1;
      }
    }
    assert contours[..|contours|] == contours;
  }

  /** The file name ending of the images DAPI_count.py analyses. */
  const DapiSuffix: string := "d.vsi"

  /** DAPI_count.py ends the whole run (`sys.exit(1)`) at the first missing image. */
  const DapiPolicy: Policy := Policy(DapiSuffix, ExitOnMissing)

  /** The data directory the script walks. */
  const DapiBase: string := "./data"

  /** The count `save_image_with_contours` returns for a loaded image's contours. */
  function DapiAnalysis(): seq<Contour> -> nat {
    (contours: seq<Contour>) => AboveCount(contours, DapiMinArea)
  }

  /**
    The script's top level: one row `[col, slide, region, count]` per `d.vsi`
    image of `./data/<col>/<slide>/<region>`, in sorted order at every level;
    the run stops at the first missing image or image that does not load.
  */
  method DapiBatch(fs: FileSystem<seq<Contour>>) returns (report: State<nat>)
    ensures report == Run(DapiPolicy, fs, DapiAnalysis(), RegionWalk(SlashJoin, fs.listdir, DapiBase))
    ensures DistinctListings(fs.listdir) ==> RowsOrdered(report.rows)
    ensures forall r :: r in report.rows ==> |r.labels| == 3 && EndsWith(r.labels[2], DapiSuffix)
    ensures ExitCode(report) == 0 <==>
      forall e :: e in RegionWalk(SlashJoin, fs.listdir, DapiBase) ==>
        e.Visit? && (EndsWith(e.path, DapiSuffix) ==> fs.pathExists(e.path) && fs.load(e.path).Some?)
  {
    report := BulkRegions(SlashJoin, DapiPolicy, fs, DapiAnalysis(), DapiBase);
    ghost var walk := RegionWalk(SlashJoin, fs.listdir, DapiBase);
    SlashJoinKeepsSuffix(DapiSuffix);
    RegionWalkShaped(SlashJoin, fs.listdir, DapiBase, DapiSuffix);
    ReportShape(DapiPolicy, fs, DapiAnalysis(), walk, 3);
    if DistinctListings(fs.listdir) {
      RegionWalkOrdered(SlashJoin, fs.listdir, DapiBase);
    }
    RunFinishes(DapiPolicy, fs, DapiAnalysis(), walk);
  }
}
