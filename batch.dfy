/**
  The batch traversal shared by the scripts: list a directory, visit its
  entries in `sorted` order, keep only paths with the required suffix, and
  append one row of path labels plus a count for every image that loads.

  The traversal is split in two. The walk is the sequence of events the loops
  meet in order: a visit of a leaf entry (its labels and its path), or a
  directory that `os.listdir` cannot list (the loop dies with an exception).
  The run folds that sequence, one event at a time, into the rows written so
  far, or into a stop that keeps them (`sys.exit(1)` or an uncaught error).
  The file system is an oracle: `listdir`, `exists` and the loader are
  parameters.
*/
module Batch {
  import opened Options
  import opened Counting
  import opened Names

  /** `os.listdir`: the names in a directory, or None when the call raises. */
  type Lister = string -> Option<seq<string>>

  /** How a directory and an entry name become a path. */
  type Joiner = (string, string) -> string

  /** What a script does with a path that has the suffix but does not exist. */
  datatype MissingAction = SkipMissing | ExitOnMissing

  /** The two settings in which the batch loops of the scripts differ. */
  datatype Policy = Policy(suffix: string, onMissing: MissingAction)

  /** The file system as the scripts see it; the loader stands for `main`'s `load_image` and the OpenCV stages. */
  datatype FileSystem<E> = FileSystem(listdir: Lister, pathExists: string -> bool, load: string -> Option<E>)

  /** One CSV row: the path labels, then the count in a single field. */
  datatype Row<C> = Row(labels: seq<string>, count: C)

  /** Why a run ended early. */
  datatype Stop = ListingFailed(dir: string) | ImageMissing(path: string) | LoadFailed(path: string)

  /** The rows written so far, and whether the run is still going. */
  datatype State<C> = Running(rows: seq<Row<C>>) | Stopped(rows: seq<Row<C>>, why: Stop)

  datatype Event = Visit(labels: seq<string>, path: string) | Unlistable(dir: string)

  /** The process exit code a finished or stopped run leaves. */
  function ExitCode<C>(st: State<C>): int {
    if st.Running? then 0 else 1
  }

  // ---------------------------------------------------------------------------
  // The walk

  /** `sorted(os.listdir(dir))`. */
  function Listing(listdir: Lister, dir: string): Option<seq<string>> {
    match listdir(dir)
    case None => None
    case Some(names) => Some(Sort(names))
  }

  /** The events of a loop over `s`, block after block. */
  function ConcatMap<T>(s: seq<T>, f: T -> seq<Event>): seq<Event> {
    if s == [] then [] else ConcatMap(s[..|s| - 1], f) + f(s[|s| - 1])
  }

  /** The visit of one leaf entry `n` of directory `dir`, labelled `pre + [n]`. */
  function LeafBlock(join: Joiner, pre: seq<string>, dir: string): string -> seq<Event> {
    n => [Visit(pre + [n], join(dir, n))]
  }

  /** The innermost loop over the (sorted) entries `names` of `dir`. */
  function Leaves(join: Joiner, pre: seq<string>, dir: string, names: seq<string>): seq<Event> {
    ConcatMap(names, LeafBlock(join, pre, dir))
  }

  /** `for slide in sorted(os.listdir(base))` of `process_bulk_slides`. */
  function SlideWalk(join: Joiner, listdir: Lister, base: string): seq<Event> {
    match Listing(listdir, base)
    case None => [Unlistable(base)]
    case Some(slides) => Leaves(join, [], base, slides)
  }

  /** The region loop inside slide directory `slideDir`. */
  function RegionLevel(join: Joiner, listdir: Lister, col: string, slide: string, slideDir: string): seq<Event> {
    match Listing(listdir, slideDir)
    case None => [Unlistable(slideDir)]
    case Some(regions) => Leaves(join, [col, slide], slideDir, regions)
  }

  function SlideBlock(join: Joiner, listdir: Lister, col: string, colDir: string): string -> seq<Event> {
    slide => RegionLevel(join, listdir, col, slide, join(colDir, slide))
  }

  /** The slide loop inside collection directory `colDir`. */
  function SlideLevel(join: Joiner, listdir: Lister, col: string, colDir: string): seq<Event> {
    match Listing(listdir, colDir)
    case None => [Unlistable(colDir)]
    case Some(slides) => ConcatMap(slides, SlideBlock(join, listdir, col, colDir))
  }

  function ColBlock(join: Joiner, listdir: Lister, base: string): string -> seq<Event> {
    col => SlideLevel(join, listdir, col, join(base, col))
  }

  /** The three nested loops col -> slide -> region under `base`. */
  function RegionWalk(join: Joiner, listdir: Lister, base: string): seq<Event> {
    match Listing(listdir, base)
    case None => [Unlistable(base)]
    case Some(cols) => ConcatMap(cols, ColBlock(join, listdir, base))
  }

  // ---------------------------------------------------------------------------
  // The run

  /** One turn of the innermost loop body (or the raise of a failed listing). */
  function Step<E, C>(p: Policy, fs: FileSystem<E>, count: E -> C, st: State<C>, ev: Event): State<C> {
    match st
    case Stopped(_, _) => st
    case Running(rows) =>
      match ev
      case Unlistable(dir) => Stopped(rows, ListingFailed(dir))
      case Visit(labels, path) =>
        if !EndsWith(path, p.suffix) then st
        else if !fs.pathExists(path) then
          (if p.onMissing.SkipMissing? then st else Stopped(rows, ImageMissing(path)))
        else
          match fs.load(path)
          case None => Stopped(rows, LoadFailed(path))
          case Some(image) => Running(rows + [Row(labels, count(image))])
  }

  /** The state after the events `evs`, starting from an empty output file. */
  function Run<E, C>(p: Policy, fs: FileSystem<E>, count: E -> C, evs: seq<Event>): State<C> {
    if evs == [] then Running([])
    else Step(p, fs, count, Run(p, fs, count, evs[..|evs| - 1]), evs[|evs| - 1])
  }

  // ---------------------------------------------------------------------------
  // What a run does, event by event, stated independently of the loop

  /** The reason an event ends the run, if it does. */
  function HaltReason<E>(p: Policy, fs: FileSystem<E>, ev: Event): Option<Stop> {
    match ev
    case Unlistable(dir) => Some(ListingFailed(dir))
    case Visit(_, path) =>
      if EndsWith(path, p.suffix) && !fs.pathExists(path) && p.onMissing.ExitOnMissing? then Some(ImageMissing(path))
      else if EndsWith(path, p.suffix) && fs.pathExists(path) && fs.load(path).None? then Some(LoadFailed(path))
      else None
  }

  /** An event that writes a row: a visited path with the suffix that exists and loads. */
  predicate Emits<E>(p: Policy, fs: FileSystem<E>, ev: Event) {
    ev.Visit? && EndsWith(ev.path, p.suffix) && fs.pathExists(ev.path) && fs.load(ev.path).Some?
  }

  function EmitTest<E>(p: Policy, fs: FileSystem<E>): Event -> bool {
    ev => Emits(p, fs, ev)
  }

  /** The rows an event writes when the run reaches it. */
  function Emitted<E, C>(p: Policy, fs: FileSystem<E>, count: E -> C, ev: Event): seq<Row<C>> {
    if Emits(p, fs, ev) then [Row(ev.labels, count(fs.load(ev.path).value))] else []
  }

  /** All rows the events would write if nothing stopped the run. */
  function Emissions<E, C>(p: Policy, fs: FileSystem<E>, count: E -> C, evs: seq<Event>): seq<Row<C>> {
    if evs == [] then []
    else Emissions(p, fs, count, evs[..|evs| - 1]) + Emitted(p, fs, count, evs[|evs| - 1])
  }

  /** The position of the first event that ends the run, or `|evs|` when none does. */
  function FirstHalt<E>(p: Policy, fs: FileSystem<E>, evs: seq<Event>): (k: nat)
    ensures k <= |evs|
    ensures k < |evs| ==> HaltReason(p, fs, evs[k]).Some?
    ensures forall i :: 0 <= i < k ==> HaltReason(p, fs, evs[i]).None?
  {
    if evs == [] then 0
    else
      var n := |evs| - 1;
      var k := FirstHalt(p, fs, evs[..n]);
      if k < n then k
      else if HaltReason(p, fs, evs[n]).Some? then n
      else |evs|
  }

  lemma RunSnoc<E, C>(p: Policy, fs: FileSystem<E>, count: E -> C, evs: seq<Event>, ev: Event)
    ensures Run(p, fs, count, evs + [ev]) == Step(p, fs, count, Run(p, fs, count, evs), ev)
  {
    assert (evs + [ev])[..|evs|] == evs;
  }

  /**
    The run writes the rows of every event before the first halting one and
    stops there with that event's reason; with no halting event it writes the
    rows of all of them and finishes.
  */
  lemma {:induction false} RunCharacterised<E, C>(p: Policy, fs: FileSystem<E>, count: E -> C, evs: seq<Event>)
    ensures var k := FirstHalt(p, fs, evs);
      Run(p, fs, count, evs)
        == if k == |evs| then Running(Emissions(p, fs, count, evs))
           else Stopped(Emissions(p, fs, count, evs[..k]), HaltReason(p, fs, evs[k]).value)
  {
    if evs != [] {
      var n := |evs| - 1;
      var pre := evs[..n];
      RunCharacterised(p, fs, count, pre);
      var k := FirstHalt(p, fs, pre);
      if k < n {
        assert evs[..k] == pre[..k];
      } else {
        assert evs[..n] == pre;
      }
    }
  }

  /** Once stopped, later events change nothing: a stopped prefix fixes the run. */
  lemma {:induction false} RunStoppedPrefix<E, C>(p: Policy, fs: FileSystem<E>, count: E -> C, a: seq<Event>, b: seq<Event>)
    requires a <= b
    requires Run(p, fs, count, a).Stopped?
    ensures Run(p, fs, count, b) == Run(p, fs, count, a)
  {
    if |b| > |a| {
      var b' := b[..|b| - 1];
      assert a <= b';
      RunStoppedPrefix(p, fs, count, a, b');
    } else {
      assert a == b;
    }
  }

  /** A run finishes exactly when no event halts it, and a stop carries the reason of an event of the walk. */
  lemma RunOutcome<E, C>(p: Policy, fs: FileSystem<E>, count: E -> C, evs: seq<Event>)
    ensures Run(p, fs, count, evs).Running? <==> forall i :: 0 <= i < |evs| ==> HaltReason(p, fs, evs[i]).None?
    ensures Run(p, fs, count, evs).Stopped? ==>
      exists i :: 0 <= i < |evs| && HaltReason(p, fs, evs[i]) == Some(Run(p, fs, count, evs).why)
  {
    RunCharacterised(p, fs, count, evs);
  }

  /**
    A run finishes exactly when every directory could be listed, every visited
    path with the suffix exists (or the policy skips missing ones) and every
    such path that exists loads; it then has written one row per loaded image.
  */
  lemma RunFinishes<E, C>(p: Policy, fs: FileSystem<E>, count: E -> C, evs: seq<Event>)
    ensures Run(p, fs, count, evs).Running? <==>
      forall e :: e in evs ==> e.Visit? && (EndsWith(e.path, p.suffix) ==>
        (fs.pathExists(e.path) || p.onMissing.SkipMissing?) && (fs.pathExists(e.path) ==> fs.load(e.path).Some?))
    ensures Run(p, fs, count, evs).Running? ==> |Run(p, fs, count, evs).rows| == CountIf(evs, EmitTest(p, fs))
  {
    RunOutcome(p, fs, count, evs);
    RunCharacterised(p, fs, count, evs);
    EmissionsCount(p, fs, count, evs);
    if !Run(p, fs, count, evs).Running? {
      var i :| 0 <= i < |evs| && HaltReason(p, fs, evs[i]).Some?;
      assert evs[i] in evs;
    }
  }

  /** Every row carries the count of an image that loaded, so what holds of every count holds of every row. */
  lemma ReportCounts<E, C>(p: Policy, fs: FileSystem<E>, count: E -> C, evs: seq<Event>, inv: C -> bool)
    requires forall e :: inv(count(e))
    ensures forall r :: r in Run(p, fs, count, evs).rows ==> inv(r.count)
  {
    RunCharacterised(p, fs, count, evs);
    var k := FirstHalt(p, fs, evs);
    var done := if k == |evs| then evs else evs[..k];
    assert Run(p, fs, count, evs).rows == Emissions(p, fs, count, done);
    EmissionsFromVisits(p, fs, count, done);
    forall r | r in Emissions(p, fs, count, done) ensures inv(r.count) {
      var i :| 0 <= i < |done| && Emits(p, fs, done[i]) && done[i].labels == r.labels
        && r.count == count(fs.load(done[i].path).value);
      CountHolds(count, inv, fs.load(done[i].path).value);
    }
  }

  lemma CountHolds<E, C>(count: E -> C, inv: C -> bool, image: E)
    requires forall e :: inv(count(e))
    ensures inv(count(image))
  {
  }

  /** Under the skip policy a missing image never stops the run. */
  lemma SkipNeverStopsOnMissing<E, C>(p: Policy, fs: FileSystem<E>, count: E -> C, evs: seq<Event>)
    requires p.onMissing.SkipMissing?
    ensures Run(p, fs, count, evs).Stopped? ==> !Run(p, fs, count, evs).why.ImageMissing?
  {
    RunCharacterised(p, fs, count, evs);
  }

  /** Every emitted row carries the labels of a visit that has the suffix, exists and loads, and that image's count. */
  lemma {:induction false} EmissionsFromVisits<E, C>(p: Policy, fs: FileSystem<E>, count: E -> C, evs: seq<Event>)
    ensures forall r :: r in Emissions(p, fs, count, evs) ==>
      exists i :: 0 <= i < |evs| && Emits(p, fs, evs[i]) && evs[i].labels == r.labels
        && r.count == count(fs.load(evs[i].path).value)
  {
    if evs != [] {
      var n := |evs| - 1;
      var pre := evs[..n];
      EmissionsFromVisits(p, fs, count, pre);
      forall r | r in Emissions(p, fs, count, evs)
        ensures exists i :: (0 <= i < |evs| && Emits(p, fs, evs[i]) && evs[i].labels == r.labels
                             && r.count == count(fs.load(evs[i].path).value))
      {
        if r in Emissions(p, fs, count, pre) {
          var i :| 0 <= i < |pre| && Emits(p, fs, pre[i]) && pre[i].labels == r.labels
            && r.count == count(fs.load(pre[i].path).value);
          assert evs[i] == pre[i];
        } else {
          assert Emits(p, fs, evs[n]);
        }
      }
    }
  }

  /** The number of rows is the number of events that write one. */
  lemma {:induction false} EmissionsCount<E, C>(p: Policy, fs: FileSystem<E>, count: E -> C, evs: seq<Event>)
    ensures |Emissions(p, fs, count, evs)| == CountIf(evs, EmitTest(p, fs))
  {
    if evs != [] {
      EmissionsCount(p, fs, count, evs[..|evs| - 1]);
    }
  }

  // ---------------------------------------------------------------------------
  // Order of the rows

  /** Lexicographic order of label tuples, each label compared as Python compares `str`. */
  predicate LabelsLess(a: seq<string>, b: seq<string>) {
    a != [] && b != [] && (Less(a[0], b[0]) || (a[0] == b[0] && LabelsLess(a[1..], b[1..])))
  }

  lemma {:induction false} LabelsLessUnder(pre: seq<string>, a: string, b: string, x: seq<string>, y: seq<string>)
    requires Less(a, b)
    requires pre + [a] <= x && pre + [b] <= y
    ensures LabelsLess(x, y)
  {
    if pre != [] {
      assert x[0] == pre[0] == y[0];
      assert pre[1..] + [a] <= x[1..];
      assert pre[1..] + [b] <= y[1..];
      LabelsLessUnder(pre[1..], a, b, x[1..], y[1..]);
    } else {
      assert x[0] == a && y[0] == b;
    }
  }

  /** Visits come in strictly increasing label order. */
  predicate VisitsOrdered(evs: seq<Event>) {
    forall i, j :: 0 <= i < j < |evs| && evs[i].Visit? && evs[j].Visit? ==> LabelsLess(evs[i].labels, evs[j].labels)
  }

  /** Rows come in strictly increasing label order. */
  predicate RowsOrdered<C>(rows: seq<Row<C>>) {
    forall i, j :: 0 <= i < j < |rows| ==> LabelsLess(rows[i].labels, rows[j].labels)
  }

  /** Every visit's labels start with `h`. */
  predicate Headed(evs: seq<Event>, h: seq<string>) {
    forall e :: e in evs && e.Visit? ==> h <= e.labels
  }

  /** `os.listdir` never returns a name twice. */
  ghost predicate DistinctListings(listdir: Lister) {
    forall d :: listdir(d).Some? ==> NoRepeats(listdir(d).value)
  }

  lemma ListingStrict(listdir: Lister, dir: string)
    requires DistinctListings(listdir)
    requires Listing(listdir, dir).Some?
    ensures StrictlySorted(Listing(listdir, dir).value)
  {
    SortStrict(listdir(dir).value);
  }

  /** Blocks of strictly sorted names, each ordered and labelled under its name, give an ordered walk. */
  lemma {:induction false} ConcatMapOrdered(s: seq<string>, f: string -> seq<Event>, pre: seq<string>)
    requires StrictlySorted(s)
    requires forall k :: 0 <= k < |s| ==> VisitsOrdered(f(s[k])) && Headed(f(s[k]), pre + [s[k]])
    ensures VisitsOrdered(ConcatMap(s, f))
    ensures forall e :: e in ConcatMap(s, f) && e.Visit? ==> exists k :: 0 <= k < |s| && pre + [s[k]] <= e.labels
  {
    if s != [] {
      var n := |s| - 1;
      var s' := s[..n];
      forall k | 0 <= k < |s'| ensures VisitsOrdered(f(s'[k])) && Headed(f(s'[k]), pre + [s'[k]]) {
        assert s'[k] == s[k];
      }
      ConcatMapOrdered(s', f, pre);
      var a := ConcatMap(s', f);
      var b := f(s[n]);
      var ab := a + b;
      assert ConcatMap(s, f) == ab;
      forall i, j | 0 <= i < j < |ab| && ab[i].Visit? && ab[j].Visit?
        ensures LabelsLess(ab[i].labels, ab[j].labels)
      {
        if j < |a| {
          assert ab[i] == a[i] && ab[j] == a[j];
        } else if i >= |a| {
          assert ab[i] == b[i - |a|] && ab[j] == b[j - |a|];
        } else {
          assert ab[i] == a[i] && ab[j] == b[j - |a|];
          assert a[i] in a && b[j - |a|] in b;
          var k :| 0 <= k < |s'| && pre + [s'[k]] <= a[i].labels;
          assert Less(s[k], s[n]);
          LabelsLessUnder(pre, s[k], s[n], ab[i].labels, ab[j].labels);
        }
      }
      forall e | e in ab && e.Visit? ensures exists k :: 0 <= k < |s| && pre + [s[k]] <= e.labels {
        if e in a {
          var k :| 0 <= k < |s'| && pre + [s'[k]] <= e.labels;
          assert s[k] == s'[k];
        } else {
          assert pre + [s[n]] <= e.labels;
        }
      }
    }
  }

  lemma LeavesOrdered(join: Joiner, pre: seq<string>, dir: string, names: seq<string>)
    requires StrictlySorted(names)
    ensures VisitsOrdered(Leaves(join, pre, dir, names))
    ensures Headed(Leaves(join, pre, dir, names), pre)
  {
    var f := LeafBlock(join, pre, dir);
    forall k | 0 <= k < |names| ensures VisitsOrdered(f(names[k])) && Headed(f(names[k]), pre + [names[k]]) {
      assert f(names[k]) == [Visit(pre + [names[k]], join(dir, names[k]))];
    }
    ConcatMapOrdered(names, f, pre);
    forall e | e in Leaves(join, pre, dir, names) && e.Visit? ensures pre <= e.labels {
      var k :| 0 <= k < |names| && pre + [names[k]] <= e.labels;
    }
  }

  lemma RegionLevelOrdered(join: Joiner, listdir: Lister, col: string, slide: string, slideDir: string)
    requires DistinctListings(listdir)
    ensures VisitsOrdered(RegionLevel(join, listdir, col, slide, slideDir))
    ensures Headed(RegionLevel(join, listdir, col, slide, slideDir), [col, slide])
  {
    if Listing(listdir, slideDir).Some? {
      ListingStrict(listdir, slideDir);
      LeavesOrdered(join, [col, slide], slideDir, Listing(listdir, slideDir).value);
    }
  }

  lemma SlideLevelOrdered(join: Joiner, listdir: Lister, col: string, colDir: string)
    requires DistinctListings(listdir)
    ensures VisitsOrdered(SlideLevel(join, listdir, col, colDir))
    ensures Headed(SlideLevel(join, listdir, col, colDir), [col])
  {
    if Listing(listdir, colDir).Some? {
      var slides := Listing(listdir, colDir).value;
      ListingStrict(listdir, colDir);
      var f := SlideBlock(join, listdir, col, colDir);
      forall k | 0 <= k < |slides| ensures VisitsOrdered(f(slides[k])) && Headed(f(slides[k]), [col] + [slides[k]]) {
        RegionLevelOrdered(join, listdir, col, slides[k], join(colDir, slides[k]));
        assert [col] + [slides[k]] == [col, slides[k]];
      }
      ConcatMapOrdered(slides, f, [col]);
      forall e | e in ConcatMap(slides, f) && e.Visit? ensures [col] <= e.labels {
        var k :| 0 <= k < |slides| && [col] + [slides[k]] <= e.labels;
      }
    }
  }

  /** The nested walk visits regions in lexicographic (col, slide, region) order. */
  lemma RegionWalkOrdered(join: Joiner, listdir: Lister, base: string)
    requires DistinctListings(listdir)
    ensures VisitsOrdered(RegionWalk(join, listdir, base))
  {
    if Listing(listdir, base).Some? {
      var cols := Listing(listdir, base).value;
      ListingStrict(listdir, base);
      var f := ColBlock(join, listdir, base);
      forall k | 0 <= k < |cols| ensures VisitsOrdered(f(cols[k])) && Headed(f(cols[k]), [] + [cols[k]]) {
        SlideLevelOrdered(join, listdir, cols[k], join(base, cols[k]));
        assert [] + [cols[k]] == [cols[k]];
      }
      ConcatMapOrdered(cols, f, []);
    }
  }

  /** The flat walk visits slides in sorted order. */
  lemma SlideWalkOrdered(join: Joiner, listdir: Lister, base: string)
    requires DistinctListings(listdir)
    ensures VisitsOrdered(SlideWalk(join, listdir, base))
  {
    if Listing(listdir, base).Some? {
      ListingStrict(listdir, base);
      LeavesOrdered(join, [], base, Listing(listdir, base).value);
    }
  }

  /** Rows written in the order of ordered visits are ordered. */
  lemma {:induction false} EmissionsOrdered<E, C>(p: Policy, fs: FileSystem<E>, count: E -> C, evs: seq<Event>)
    requires VisitsOrdered(evs)
    ensures RowsOrdered(Emissions(p, fs, count, evs))
  {
    if evs != [] {
      var n := |evs| - 1;
      var pre := evs[..n];
      EmissionsOrdered(p, fs, count, pre);
      EmissionsFromVisits(p, fs, count, pre);
      var a := Emissions(p, fs, count, pre);
      var rows := Emissions(p, fs, count, evs);
      forall i, j | 0 <= i < j < |rows| ensures LabelsLess(rows[i].labels, rows[j].labels) {
        if j >= |a| {
          assert rows[i] == a[i] && rows[i] in a;
          var m :| 0 <= m < |pre| && Emits(p, fs, pre[m]) && pre[m].labels == rows[i].labels
            && rows[i].count == count(fs.load(pre[m].path).value);
          assert evs[m] == pre[m];
        } else {
          assert rows[i] == a[i] && rows[j] == a[j];
        }
      }
    }
  }

  /** Every visit has `depth` labels, and its path ends with `suffix` exactly when its last label does. */
  predicate Shaped(evs: seq<Event>, suffix: string, depth: nat) {
    forall e :: e in evs && e.Visit? ==>
      |e.labels| == depth && depth > 0 && (EndsWith(e.path, suffix) <==> EndsWith(e.labels[depth - 1], suffix))
  }

  lemma {:induction false} ConcatMapShaped<T>(s: seq<T>, f: T -> seq<Event>, suffix: string, depth: nat)
    requires forall k :: 0 <= k < |s| ==> Shaped(f(s[k]), suffix, depth)
    ensures Shaped(ConcatMap(s, f), suffix, depth)
  {
    if s != [] {
      var n := |s| - 1;
      forall k | 0 <= k < n ensures Shaped(f(s[..n][k]), suffix, depth) {
        assert s[..n][k] == s[k];
      }
      ConcatMapShaped(s[..n], f, suffix, depth);
      assert Shaped(f(s[n]), suffix, depth);
      var a := ConcatMap(s[..n], f);
      assert ConcatMap(s, f) == a + f(s[n]);
    }
  }

  lemma LeavesShaped(join: Joiner, pre: seq<string>, dir: string, names: seq<string>, suffix: string)
    requires KeepsSuffix(join, suffix)
    ensures Shaped(Leaves(join, pre, dir, names), suffix, |pre| + 1)
  {
    var f := LeafBlock(join, pre, dir);
    forall k | 0 <= k < |names| ensures Shaped(f(names[k]), suffix, |pre| + 1) {
      var e := Visit(pre + [names[k]], join(dir, names[k]));
      assert f(names[k]) == [e];
      assert e.labels[|pre|] == names[k];
      assert EndsWith(e.path, suffix) <==> EndsWith(names[k], suffix);
    }
    ConcatMapShaped(names, f, suffix, |pre| + 1);
  }

  lemma RegionWalkShaped(join: Joiner, listdir: Lister, base: string, suffix: string)
    requires KeepsSuffix(join, suffix)
    ensures Shaped(RegionWalk(join, listdir, base), suffix, 3)
  {
    if Listing(listdir, base).Some? {
      var cols := Listing(listdir, base).value;
      var cf := ColBlock(join, listdir, base);
      forall k | 0 <= k < |cols| ensures Shaped(cf(cols[k]), suffix, 3) {
        var colDir := join(base, cols[k]);
        if Listing(listdir, colDir).Some? {
          var slides := Listing(listdir, colDir).value;
          var sf := SlideBlock(join, listdir, cols[k], colDir);
          forall m | 0 <= m < |slides| ensures Shaped(sf(slides[m]), suffix, 3) {
            var slideDir := join(colDir, slides[m]);
            if Listing(listdir, slideDir).Some? {
              LeavesShaped(join, [cols[k], slides[m]], slideDir, Listing(listdir, slideDir).value, suffix);
            }
          }
          ConcatMapShaped(slides, sf, suffix, 3);
        }
      }
      ConcatMapShaped(cols, cf, suffix, 3);
    }
  }

  lemma SlideWalkShaped(join: Joiner, listdir: Lister, base: string, suffix: string)
    requires KeepsSuffix(join, suffix)
    ensures Shaped(SlideWalk(join, listdir, base), suffix, 1)
  {
    if Listing(listdir, base).Some? {
      LeavesShaped(join, [], base, Listing(listdir, base).value, suffix);
    }
  }

  /**
    What the file records for a walk of labels of length `depth`: rows in
    strictly increasing label order (when listings never repeat a name), each
    with `depth` labels of which the last ends with the suffix, carrying the
    count of its image.
  */
  lemma ReportShape<E, C>(p: Policy, fs: FileSystem<E>, count: E -> C, evs: seq<Event>, depth: nat)
    requires depth > 0
    requires Shaped(evs, p.suffix, depth)
    ensures var st := Run(p, fs, count, evs);
      (VisitsOrdered(evs) ==> RowsOrdered(st.rows))
      && forall r :: r in st.rows ==> |r.labels| == depth && EndsWith(r.labels[depth - 1], p.suffix)
  {
    RunCharacterised(p, fs, count, evs);
    var k := FirstHalt(p, fs, evs);
    var done := if k == |evs| then evs else evs[..k];
    assert Run(p, fs, count, evs).rows == Emissions(p, fs, count, done);
    EmissionsFromVisits(p, fs, count, done);
    if VisitsOrdered(evs) {
      assert VisitsOrdered(done);
      EmissionsOrdered(p, fs, count, done);
    }
    forall r | r in Emissions(p, fs, count, done)
      ensures |r.labels| == depth && EndsWith(r.labels[depth - 1], p.suffix)
    {
      var i :| 0 <= i < |done| && Emits(p, fs, done[i]) && done[i].labels == r.labels
        && r.count == count(fs.load(done[i].path).value);
      assert done[i] in evs;
    }
  }

  // ---------------------------------------------------------------------------
  // The loops

  lemma ConcatMapSnoc<T>(s: seq<T>, f: T -> seq<Event>, i: nat)
    requires i < |s|
    ensures ConcatMap(s[..i + 1], f) == ConcatMap(s[..i], f) + f(s[i])
  {
    assert s[..i + 1][..i] == s[..i];
  }

  lemma {:induction false} ConcatMapPrefix<T>(s: seq<T>, f: T -> seq<Event>, j: nat)
    requires j <= |s|
    ensures ConcatMap(s[..j], f) <= ConcatMap(s, f)
  {
    if j < |s| {
      var n := |s| - 1;
      assert s[..n][..j] == s[..j];
      ConcatMapPrefix(s[..n], f, j);
    } else {
      assert s[..j] == s;
    }
  }

  /** A run already stopped after a beginning of a block keeps that outcome through the whole block. */
  lemma StopWithin<T, E, C>(p: Policy, fs: FileSystem<E>, count: E -> C, done: seq<Event>, s: seq<T>, f: T -> seq<Event>, k: nat)
    requires k < |s|
    requires Run(p, fs, count, done + ConcatMap(s[..k + 1], f)).Stopped?
    ensures Run(p, fs, count, done + ConcatMap(s, f)) == Run(p, fs, count, done + ConcatMap(s[..k + 1], f))
  {
    ConcatMapPrefix(s, f, k + 1);
    RunStoppedPrefix(p, fs, count, done + ConcatMap(s[..k + 1], f), done + ConcatMap(s, f));
  }

  /**
    One turn of a loop over `s`: the events up to and including `s[k]`'s block
    are those before it followed by that block, and a run stopped by then stays
    stopped for the rest of the loop.
  */
  lemma BlockTurn<T, E, C>(p: Policy, fs: FileSystem<E>, count: E -> C, done: seq<Event>, s: seq<T>, f: T -> seq<Event>, k: nat)
    requires k < |s|
    ensures done + ConcatMap(s[..k + 1], f) == (done + ConcatMap(s[..k], f)) + f(s[k])
    ensures Run(p, fs, count, done + ConcatMap(s[..k + 1], f)).Stopped? ==>
      Run(p, fs, count, done + ConcatMap(s, f)) == Run(p, fs, count, done + ConcatMap(s[..k + 1], f))
  {
    ConcatMapSnoc(s, f, k);
    if Run(p, fs, count, done + ConcatMap(s[..k + 1], f)).Stopped? {
      StopWithin(p, fs, count, done, s, f, k);
    }
  }

  /** A directory that cannot be listed raises: the run stops with the rows written so far. */
  lemma UnlistableStops<E, C>(p: Policy, fs: FileSystem<E>, count: E -> C, evs: seq<Event>, dir: string)
    requires Run(p, fs, count, evs).Running?
    ensures Run(p, fs, count, evs + [Unlistable(dir)]) == Stopped(Run(p, fs, count, evs).rows, ListingFailed(dir))
  {
    RunSnoc(p, fs, count, evs, Unlistable(dir));
  }

  /**
    The innermost loop body, once per entry `name` of `names` in `dir`: skip a
    path without the suffix, skip or stop on a missing path, stop when the
    image does not load, otherwise write the row `pre + [name]` and its count.
  */
  method LeafLoop<E, C>(join: Joiner, p: Policy, fs: FileSystem<E>, count: E -> C,
                        pre: seq<string>, dir: string, names: seq<string>,
                        ghost done: seq<Event>, written: seq<Row<C>>)
    returns (st: State<C>)
    requires Run(p, fs, count, done) == Running(written)
    ensures st == Run(p, fs, count, done + Leaves(join, pre, dir, names))
  {
    ghost var f := LeafBlock(join, pre, dir);
    var rows := written;
    assert names[..0] == [] && done + ConcatMap(names[..0], f) == done;
    for k := 0 to |names|
      invariant Run(p, fs, count, done + ConcatMap(names[..k], f)) == Running(rows)
    {
      var name := names[k];
      var imagePath := join(dir, name);
      ghost var ev := Visit(pre + [name], imagePath);
      assert f(name) == [ev];
      BlockTurn(p, fs, count, done, names, f, k);
      RunSnoc(p, fs, count, done + ConcatMap(names[..k], f), ev);
      if !EndsWith(imagePath, p.suffix) {
        continue;
      }
      if !fs.pathExists(imagePath) {
        if p.onMissing.SkipMissing? {
          continue;
        }
        return Stopped(rows, ImageMissing(imagePath));
      }
      var image := fs.load(imagePath);
      if image.None? {
        return Stopped(rows, LoadFailed(imagePath));
      }
      rows := rows + [Row(pre + [name], count(image.value))];
    }
    assert names[..|names|] == names;
    st := Running(rows);
  }

  /** The slide loop inside collection `col` (directory `colDir`), with the region loop inside it. */
  method SlideLoop<E, C>(join: Joiner, p: Policy, fs: FileSystem<E>, count: E -> C,
                         col: string, colDir: string, slides: seq<string>,
                         ghost done: seq<Event>, written: seq<Row<C>>)
    returns (st: State<C>)
    requires Run(p, fs, count, done) == Running(written)
    ensures st == Run(p, fs, count, done + ConcatMap(slides, SlideBlock(join, fs.listdir, col, colDir)))
  {
    ghost var sf := SlideBlock(join, fs.listdir, col, colDir);
    var rows := written;
    assert slides[..0] == [] && done + ConcatMap(slides[..0], sf) == done;
    for j := 0 to |slides|
      invariant Run(p, fs, count, done + ConcatMap(slides[..j], sf)) == Running(rows)
    {
      var slide := slides[j];
      var slideDir := join(colDir, slide);
      ghost var before := done + ConcatMap(slides[..j], sf);
      BlockTurn(p, fs, count, done, slides, sf, j);
      var listing := Listing(fs.listdir, slideDir);
      if listing.None? {
        UnlistableStops(p, fs, count, before, slideDir);
        return Stopped(rows, ListingFailed(slideDir));
      }
      st := LeafLoop(join, p, fs, count, [col, slide], slideDir, listing.value, before, rows);
      if st.Stopped? {
        return;
      }
      rows := st.rows;
    }
    assert slides[..|slides|] == slides;
    st := Running(rows);
  }

  /** `process_bulk_slides`: one row `[slide, count]` per image directly under `base`. */
  method BulkSlides<E, C>(join: Joiner, p: Policy, fs: FileSystem<E>, count: E -> C, base: string)
    returns (report: State<C>)
    ensures report == Run(p, fs, count, SlideWalk(join, fs.listdir, base))
  {
    var listing := Listing(fs.listdir, base);
    if listing.None? {
      return Stopped([], ListingFailed(base));
    }
    assert [] + Leaves(join, [], base, listing.value) == SlideWalk(join, fs.listdir, base);
    report := LeafLoop(join, p, fs, count, [], base, listing.value, [], []);
  }

  /** `process_bulk_slides_regions` and the batch loops of tagged.py and DAPI_count.py: one row `[col, slide, region, count]` per image. */
  method BulkRegions<E, C>(join: Joiner, p: Policy, fs: FileSystem<E>, count: E -> C, base: string)
    returns (report: State<C>)
    ensures report == Run(p, fs, count, RegionWalk(join, fs.listdir, base))
  {
    var listing := Listing(fs.listdir, base);
    if listing.None? {
      return Stopped([], ListingFailed(base));
    }
    var cols := listing.value;
    ghost var cf := ColBlock(join, fs.listdir, base);
    assert RegionWalk(join, fs.listdir, base) == [] + ConcatMap(cols, cf);
    var rows: seq<Row<C>> := [];
    assert cols[..0] == [] && [] + ConcatMap(cols[..0], cf) == [];
    for i := 0 to |cols|
      invariant Run(p, fs, count, [] + ConcatMap(cols[..i], cf)) == Running(rows)
    {
      var col := cols[i];
      var colDir := join(base, col);
      ghost var before := [] + ConcatMap(cols[..i], cf);
      BlockTurn(p, fs, count, [], cols, cf, i);
      var slideListing := Listing(fs.listdir, colDir);
      if slideListing.None? {
        UnlistableStops(p, fs, count, before, colDir);
        return Stopped(rows, ListingFailed(colDir));
      }
      report := SlideLoop(join, p, fs, count, col, colDir, slideListing.value, before, rows);
      if report.Stopped? {
        return;
      }
      rows := report.rows;
    }
    assert cols[..|cols|] == cols;
    report := Running(rows);
  }
}
