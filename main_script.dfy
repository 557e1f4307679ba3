/**
  main.py: the interactive script that counts, per image, how many blue
  contours survive the noise guards (`total`) and how many of those have their
  centroid on or inside a red contour (`valid`), for one image or for every
  `...m.vsi` image of a slide directory or of a collection/slide/region tree.
*/
module MainScript {
  import opened Options
  import opened Counting
  import opened Names
  import opened Contours
  import opened Batch

  /** The counting loop of `save_image_with_contours`, updating `count = [valid, total]` in place. */
  method CountContours(blue: seq<Contour>, red: seq<Contour>, test: PolygonTest) returns (count: Tally)
    ensures count == Classify(blue, red, test)
    ensures count.valid <= count.total <= |blue|
  {
    count := Tally(0, 0);
    for i := 0 to |blue|
      invariant count.valid == ValidCount(blue[..i], red, test)
      invariant count.total == SurvivorCount(blue[..i])
    {
      var cb := blue[i];
      CountIfSnoc(blue, i, Survives);
      CountIfSnoc(blue, i, ValidTest(red, test));
      if cb.area <= NoiseFloor {
        continue;
      }
      if cb.m00 == 0.0 {
        continue;
      }
      var point := Centroid(cb);
      var isInside := AnyOnOrInside(red, point, test);
      count := count.(total := count.total + 1);
      if isInside {
        count := count.(valid := count.valid + 1);
      }
    }
    assert blue[..|blue|] == blue;
  }

  /** The file name ending of the images main.py analyses. */
  const MainSuffix: string := "m.vsi"

  /** main.py's bulk loops report a missing image and go on with the next one. */
  const MainPolicy: Policy := Policy(MainSuffix, SkipMissing)

  /** The count `save_image_with_contours` returns for a loaded image's channels. */
  function Analysis(test: PolygonTest): Channels -> Tally {
    (image: Channels) => Classify(image.blue, image.red, test)
  }

  /**
    `main(image_path)`: the `[valid, total]` count of the loaded image, or None
    when the loader gives nothing and the script exits with status 1.
  */
  function LoadAndCount(fs: FileSystem<Channels>, test: PolygonTest, path: string): (r: Option<Tally>)
    ensures r.None? <==> fs.load(path).None?
    ensures r.Some? ==> r.value.valid <= r.value.total <= |fs.load(path).value.blue|
    ensures r.Some? ==> r.value.valid == ValidCount(fs.load(path).value.blue, fs.load(path).value.red, test)
    ensures r.Some? ==> r.value.total == SurvivorCount(fs.load(path).value.blue)
  {
    match fs.load(path)
    case None => None
    case Some(image) => Some(Analysis(test)(image))
  }

  /** How `process_single_image` ends. */
  datatype SingleOutcome = InvalidPath | Exited(code: int) | Counted(count: Tally)

  /**
    `process_single_image`: a path that does not exist or does not end with
    `m.vsi` is rejected; otherwise the image is loaded and counted, and a load
    that gives nothing ends the process with status 1.
  */
  function ProcessSingleImage(fs: FileSystem<Channels>, test: PolygonTest, path: string): (o: SingleOutcome)
    ensures o.InvalidPath? <==> !fs.pathExists(path) || !EndsWith(path, MainSuffix)
    ensures o.Exited? <==> fs.pathExists(path) && EndsWith(path, MainSuffix) && fs.load(path).None?
    ensures o.Exited? ==> o.code == 1
    ensures o.Counted? ==> fs.load(path).Some? && o.count.valid <= o.count.total <= |fs.load(path).value.blue|
    ensures o.Counted? ==> o.count == Classify(fs.load(path).value.blue, fs.load(path).value.red, test)
  {
    if !fs.pathExists(path) || !EndsWith(path, MainSuffix) then InvalidPath
    else
      match LoadAndCount(fs, test, path)
      case None => Exited(1)
      case Some(count) => Counted(count)
  }

  /**
    `process_bulk_slides`: one row `[slide, count]` per `m.vsi` image directly
    under `baseDir`, in sorted order; missing images are skipped.
  */
  method ProcessBulkSlides(fs: FileSystem<Channels>, test: PolygonTest, baseDir: string) returns (report: State<Tally>)
    ensures report == Run(MainPolicy, fs, Analysis(test), SlideWalk(PosixJoin, fs.listdir, baseDir))
    ensures report.Stopped? ==> !report.why.ImageMissing?
    ensures DistinctListings(fs.listdir) ==> RowsOrdered(report.rows)
    ensures forall r :: r in report.rows ==>
      |r.labels| == 1 && EndsWith(r.labels[0], MainSuffix) && r.count.valid <= r.count.total
    ensures ExitCode(report) == 0 <==>
      forall e :: e in SlideWalk(PosixJoin, fs.listdir, baseDir) ==>
        e.Visit? && (EndsWith(e.path, MainSuffix) && fs.pathExists(e.path) ==> fs.load(e.path).Some?)
  {
    report := BulkSlides(PosixJoin, MainPolicy, fs, Analysis(test), baseDir);
    ghost var walk := SlideWalk(PosixJoin, fs.listdir, baseDir);
    PosixJoinKeepsSuffix(MainSuffix);
    SlideWalkShaped(PosixJoin, fs.listdir, baseDir, MainSuffix);
    ReportShape(MainPolicy, fs, Analysis(test), walk, 1);
    if DistinctListings(fs.listdir) {
      SlideWalkOrdered(PosixJoin, fs.listdir, baseDir);
    }
    SkipNeverStopsOnMissing(MainPolicy, fs, Analysis(test), walk);
    ReportCounts(MainPolicy, fs, Analysis(test), walk, (t: Tally) => t.valid <= t.total);
    RunFinishes(MainPolicy, fs, Analysis(test), walk);
  }

  /**
    `process_bulk_slides_regions`: one row `[col, slide, region, count]` per
    `m.vsi` image of the collection/slide/region tree under `baseDir`, in
    sorted order at every level; missing images are skipped.
  */
  method ProcessBulkSlidesRegions(fs: FileSystem<Channels>, test: PolygonTest, baseDir: string) returns (report: State<Tally>)
    ensures report == Run(MainPolicy, fs, Analysis(test), RegionWalk(PosixJoin, fs.listdir, baseDir))
    ensures report.Stopped? ==> !report.why.ImageMissing?
    ensures DistinctListings(fs.listdir) ==> RowsOrdered(report.rows)
    ensures forall r :: r in report.rows ==>
      |r.labels| == 3 && EndsWith(r.labels[2], MainSuffix) && r.count.valid <= r.count.total
    ensures ExitCode(report) == 0 <==>
      forall e :: e in RegionWalk(PosixJoin, fs.listdir, baseDir) ==>
        e.Visit? && (EndsWith(e.path, MainSuffix) && fs.pathExists(e.path) ==> fs.load(e.path).Some?)
  {
    report := BulkRegions(PosixJoin, MainPolicy, fs, Analysis(test), baseDir);
    ghost var walk := RegionWalk(PosixJoin, fs.listdir, baseDir);
    PosixJoinKeepsSuffix(MainSuffix);
    RegionWalkShaped(PosixJoin, fs.listdir, baseDir, MainSuffix);
    ReportShape(MainPolicy, fs, Analysis(test), walk, 3);
    if DistinctListings(fs.listdir) {
      RegionWalkOrdered(PosixJoin, fs.listdir, baseDir);
    }
    SkipNeverStopsOnMissing(MainPolicy, fs, Analysis(test), walk);
    ReportCounts(MainPolicy, fs, Analysis(test), walk, (t: Tally) => t.valid <= t.total);
    RunFinishes(MainPolicy, fs, Analysis(test), walk);
  }
}
