/** The pruned walk over the source directories, and what it means for deleted-source retention. */
module Walk {
  import opened Basics
  import opened Database
  import opened Paths
  import opened Retention

  /** What lies under a source directory. lost are entries a failing directory read does not deliver. */
  datatype Node = File | Dir(entries: seq<Entry>, lost: seq<Entry>)
  datatype Entry = Entry(name: string, node: Node)

  /**
    The paths the callback of filepath.WalkDir enqueues, in walk order; an excluded directory is
    skipped as a whole.
   */
  function Enqueued(path: string, node: Node, excluded: string -> bool): seq<string>
    decreases node, 0
  {
    if excluded(path) then []
    else
      match node
      case File => [path]
      case Dir(entries, _) => EnqueuedAll(path, entries, excluded)
  }

  function EnqueuedAll(path: string, entries: seq<Entry>, excluded: string -> bool): seq<string>
    decreases entries, 0
  {
    if entries == [] then []
    else
      Enqueued(JoinPath(path, entries[0].name), entries[0].node, excluded) + EnqueuedAll(path, entries[1..], excluded)
  }

  /** The path of what is reached from path by these names. */
  function PathAt(path: string, names: seq<string>): string
    decreases |names|
  {
    if names == [] then path else PathAt(JoinPath(path, names[0]), names[1..])
  }

  /** A file lies at the end of these names, whether or not every directory read delivers its entry. */
  ghost predicate HasFile(node: Node, names: seq<string>)
    decreases |names|
  {
    if names == [] then node.File?
    else
      && node.Dir?
      && exists e :: (e in node.entries || e in node.lost) && e.name == names[0] && HasFile(e.node, names[1..])
  }

  /** A file lies at the end of these names and every directory read on the way delivers its entry. */
  ghost predicate Delivered(node: Node, names: seq<string>)
    decreases |names|
  {
    if names == [] then node.File?
    else node.Dir? && exists e :: e in node.entries && e.name == names[0] && Delivered(e.node, names[1..])
  }

  /** No directory read failed. */
  predicate NothingLost(node: Node) {
    node.File? || (node.lost == [] && forall i | 0 <= i < |node.entries| :: NothingLost(node.entries[i].node))
  }

  ghost predicate NamesOk(node: Node) {
    node.File? || ((forall e | e in node.entries :: IsName(e.name) && NamesOk(e.node))
                   && forall e | e in node.lost :: IsName(e.name) && NamesOk(e.node))
  }

  /** Some directory on the way, or the file itself, is excluded. */
  ghost predicate CutOff(path: string, names: seq<string>, excluded: string -> bool) {
    exists k :: 0 <= k <= |names| && excluded(PathAt(path, names[..k]))
  }

  // ---------- The walk, exactly ----------

  lemma {:induction false} InEnqueuedAll(path: string, entries: seq<Entry>, excluded: string -> bool, p: string)
    ensures p in EnqueuedAll(path, entries, excluded)
       <==> exists i :: 0 <= i < |entries| && p in Enqueued(JoinPath(path, entries[i].name), entries[i].node, excluded)
  {
    if entries != [] {
      var rest := entries[1..];
      InEnqueuedAll(path, rest, excluded, p);
      if p in EnqueuedAll(path, rest, excluded) {
        var i :| 0 <= i < |rest| && p in Enqueued(JoinPath(path, rest[i].name), rest[i].node, excluded);
        assert entries[i + 1] == rest[i];
      }
      if j :| 0 <= j < |entries| && p in Enqueued(JoinPath(path, entries[j].name), entries[j].node, excluded) {
        assert j > 0 ==> entries[j] == rest[j - 1];
      }
    }
  }

  lemma CutOffStep(path: string, names: seq<string>, excluded: string -> bool)
    requires names != []
    ensures CutOff(path, names, excluded)
       <==> excluded(path) || CutOff(JoinPath(path, names[0]), names[1..], excluded)
  {
    var next := JoinPath(path, names[0]);
    assert names[..0] == [] && PathAt(path, names[..0]) == path;
    forall k | 1 <= k <= |names|
      ensures PathAt(path, names[..k]) == PathAt(next, names[1..][..k - 1])
    {
      assert names[..k][0] == names[0] && names[..k][1..] == names[1..][..k - 1];
    }
    if k :| 0 <= k <= |names| - 1 && excluded(PathAt(next, names[1..][..k])) {
      assert excluded(PathAt(path, names[..k + 1]));
    }
  }

  lemma CutOffHere(path: string, excluded: string -> bool)
    ensures CutOff(path, [], excluded) <==> excluded(path)
  {
    var names: seq<string> := [];
    assert names[..0] == names && PathAt(path, names) == path;
  }

  /** The walk enqueues only files, and only such as no directory on the way cuts off. */
  lemma {:induction false} EnqueuedIsReached(path: string, node: Node, excluded: string -> bool, p: string)
    returns (names: seq<string>)
    requires p in Enqueued(path, node, excluded)
    ensures Delivered(node, names) && p == PathAt(path, names) && !CutOff(path, names, excluded)
    decreases node
  {
    match node {
      case File =>
        names := [];
        CutOffHere(path, excluded);
      case Dir(entries, _) =>
        InEnqueuedAll(path, entries, excluded, p);
        var i :| 0 <= i < |entries| && p in Enqueued(JoinPath(path, entries[i].name), entries[i].node, excluded);
        var e := entries[i];
        var rest := EnqueuedIsReached(JoinPath(path, e.name), e.node, excluded, p);
        names := [e.name] + rest;
        assert names[1..] == rest;
        CutOffStep(path, names, excluded);
        assert e in node.entries;
    }
  }

  /** It enqueues every file that the directory reads deliver and no directory on the way cuts off. */
  lemma {:induction false} ReachedIsEnqueued(path: string, node: Node, excluded: string -> bool, names: seq<string>)
    requires Delivered(node, names) && !CutOff(path, names, excluded)
    ensures PathAt(path, names) in Enqueued(path, node, excluded)
    decreases node
  {
    if names == [] {
      CutOffHere(path, excluded);
    } else {
      var e :| e in node.entries && e.name == names[0] && Delivered(e.node, names[1..]);
      var i :| 0 <= i < |node.entries| && node.entries[i] == e;
      CutOffStep(path, names, excluded);
      ReachedIsEnqueued(JoinPath(path, e.name), e.node, excluded, names[1..]);
      InEnqueuedAll(path, node.entries, excluded, PathAt(path, names));
    }
  }

  lemma {:induction false} DeliveredUnlessLost(node: Node, names: seq<string>)
    requires NothingLost(node) && HasFile(node, names)
    ensures Delivered(node, names)
    decreases node
  {
    if names != [] {
      var e :| (e in node.entries || e in node.lost) && e.name == names[0] && HasFile(e.node, names[1..]);
      var i :| 0 <= i < |node.entries| && node.entries[i] == e;
      DeliveredUnlessLost(e.node, names[1..]);
    }
  }

  // ---------- Exclusion goes down the tree ----------

  /** The names up to any directory on the way to a file. */
  lemma {:induction false} ParseOnTheWay(path: string, node: Node, names: seq<string>, k: nat)
    requires path != "" && NamesOk(node) && HasFile(node, names) && k <= |names|
    ensures Parse(PathAt(path, names[..k])) == Parse(path).(segs := Parse(path).segs + names[..k])
    decreases k
  {
    hide Parse, JoinPath;
    var segs := Parse(path).segs;
    if k > 0 {
      var e :| (e in node.entries || e in node.lost) && e.name == names[0] && HasFile(e.node, names[1..]);
      ParseOfJoin(path, names[0]);
      ParseOnTheWay(JoinPath(path, names[0]), e.node, names[1..], k - 1);
      assert names[..k][1..] == names[1..][..k - 1];
      assert names[..k] == [names[0]] + names[1..][..k - 1];
      Regroup(segs, [names[0]], names[1..][..k - 1]);
    } else {
      assert segs + names[..k] == segs;
    }
  }

  /** An entry of the exclusion list that means a directory with a name: not "/" and not ".". */
  predicate Proper(entry: string) {
    entry == "" || Parse(entry).segs != []
  }

  /** Whatever the regexes exclude, they exclude with everything below it. */
  ghost predicate GoesDown(regex: string -> bool, path: string, names: seq<string>) {
    forall k | 0 <= k <= |names| && regex(PathAt(path, names[..k])) :: regex(PathAt(path, names))
  }

  lemma ExclusionGoesDown(path: string, node: Node, names: seq<string>, excludes: seq<string>, regex: string -> bool)
    requires path != "" && NamesOk(node) && HasFile(node, names)
    requires (forall i | 0 <= i < |excludes| :: Proper(excludes[i])) && GoesDown(regex, path, names)
    ensures var excluded := Exclusion(excludes, regex);
      CutOff(path, names, excluded) <==> excluded(PathAt(path, names))
  {
    hide Parse, Under, JoinPath, HasFile;
    var excluded := Exclusion(excludes, regex);
    var end := PathAt(path, names);
    assert names[..|names|] == names;
    if k :| 0 <= k <= |names| && excluded(PathAt(path, names[..k])) {
      var way := PathAt(path, names[..k]);
      if !regex(way) {
        var i :| 0 <= i < |excludes| && excludes[i] != "" && Under(way, excludes[i]);
        ParseOnTheWay(path, node, names, k);
        ParseOnTheWay(path, node, names, |names|);
        assert names == names[..k] + names[k..];
        assert Parse(end).segs == Parse(way).segs + names[k..];
        UnderGoesDown(way, end, excludes[i], names[k..]);
      }
    }
  }

  lemma UnderGoesDown(way: string, end: string, base: string, more: seq<string>)
    requires Under(way, base) && Parse(base).segs != []
    requires Parse(end) == Parse(way).(segs := Parse(way).segs + more)
    ensures Under(end, base)
  {
    hide Parse, Under;
    UnderIsAncestor(way, base);
    UnderIsAncestor(end, base);
    assert more == [] ==> Parse(way).segs + more == Parse(way).segs;
  }

  /**
    With no failing reads, proper exclusion entries, and regexes that go down, the walk enqueues
    exactly the files under the directory that isExcluded does not reject.
   */
  lemma WalkIsExact(path: string, node: Node, excludes: seq<string>, regex: string -> bool, names: seq<string>)
    requires path != "" && NamesOk(node) && NothingLost(node) && HasFile(node, names)
    requires (forall i | 0 <= i < |excludes| :: Proper(excludes[i])) && GoesDown(regex, path, names)
    ensures var excluded := Exclusion(excludes, regex);
      PathAt(path, names) in Enqueued(path, node, excluded) <==> !excluded(PathAt(path, names))
  {
    var excluded := Exclusion(excludes, regex);
    var p := PathAt(path, names);
    ExclusionGoesDown(path, node, names, excludes, regex);
    if !excluded(p) {
      DeliveredUnlessLost(node, names);
      ReachedIsEnqueued(path, node, excluded, names);
    }
    if p in Enqueued(path, node, excluded) {
      var others := EnqueuedIsReached(path, node, excluded, p);
      assert others[..|others|] == others;
    }
  }

  // ---------- The retention pass after the walk ----------

  datatype Source = Source(dir: string, node: Node)

  /** Everything that walking all source directories enqueues; a file below two of them comes twice. */
  function EnqueuedUnder(sources: seq<Source>, excluded: string -> bool): seq<string> {
    if sources == [] then []
    else Enqueued(sources[0].dir, sources[0].node, excluded) + EnqueuedUnder(sources[1..], excluded)
  }

  /** seenPaths after walking all source directories. */
  function Seen(sources: seq<Source>, excluded: string -> bool): set<string> {
    Elements(EnqueuedUnder(sources, excluded))
  }

  function Elements(paths: seq<string>): set<string> {
    set p | p in paths
  }

  /** isExcluded under a job's settings. */
  function Exclusion(excludes: seq<string>, regex: string -> bool): string -> bool {
    p => IsExcluded(p, excludes, regex)
  }

  lemma {:induction false} UnderMore(sources: seq<Source>, source: Source, excluded: string -> bool)
    ensures EnqueuedUnder(sources + [source], excluded)
         == EnqueuedUnder(sources, excluded) + Enqueued(source.dir, source.node, excluded)
  {
    var all := sources + [source];
    if sources == [] {
      assert all[1..] == [];
    } else {
      assert all[1..] == sources[1..] + [source];
      UnderMore(sources[1..], source, excluded);
    }
  }

  /** The walk of one job: the paths seen and the items sent to the workers. */
  class Walker {
    var seenPaths: set<string>
    var work: seq<string>

    constructor ()
      ensures seenPaths == {} && work == []
    {
      seenPaths, work := {}, [];
    }

    /** filepath.WalkDir with the callback of Run, for a job that is not cancelled. */
    method WalkDir(path: string, node: Node, excluded: string -> bool)
      modifies this
      ensures work == old(work) + Enqueued(path, node, excluded)
      ensures seenPaths == old(seenPaths) + Elements(Enqueued(path, node, excluded))
      decreases node, 0
    {
      if excluded(path) {
        return;
      }
      match node {
        case Dir(entries, _) =>
          WalkEntries(path, entries, excluded);
        case File =>
          seenPaths := seenPaths + {path};
          work := work + [path];
      }
    }

    method WalkEntries(path: string, entries: seq<Entry>, excluded: string -> bool)
      modifies this
      ensures work == old(work) + EnqueuedAll(path, entries, excluded)
      ensures seenPaths == old(seenPaths) + Elements(EnqueuedAll(path, entries, excluded))
      decreases entries, 0
    {
      hide Elements, JoinPath;
      NoElements();
      if entries != [] {
        ghost var before, first := work, Enqueued(JoinPath(path, entries[0].name), entries[0].node, excluded);
        ghost var rest := EnqueuedAll(path, entries[1..], excluded);
        WalkDir(JoinPath(path, entries[0].name), entries[0].node, excluded);
        WalkEntries(path, entries[1..], excluded);
        Regroup(before, first, rest);
        ElementsOfBoth(first, rest);
      }
    }

    /** The loop of Run over the source directories. */
    method WalkSources(sources: seq<Source>, excludes: seq<string>, regex: string -> bool)
      requires seenPaths == {} && work == []
      modifies this
      ensures work == EnqueuedUnder(sources, Exclusion(excludes, regex))
      ensures seenPaths == Seen(sources, Exclusion(excludes, regex))
    {
      var excluded := Exclusion(excludes, regex);
      for i := 0 to |sources|
        invariant work == EnqueuedUnder(sources[..i], excluded) && seenPaths == Elements(work)
      {
        ghost var before := work;
        WalkDir(sources[i].dir, sources[i].node, excluded);
        UnderMore(sources[..i], sources[i], excluded);
        ElementsOfBoth(before, Enqueued(sources[i].dir, sources[i].node, excluded));
        assert sources[..i + 1] == sources[..i] + [sources[i]];
      }
      assert sources[..|sources|] == sources;
    }
  }

  lemma NoElements()
    ensures Elements([]) == {}
  {
  }

  lemma ElementsOfBoth(a: seq<string>, b: seq<string>)
    ensures Elements(a + b) == Elements(a) + Elements(b)
  {
  }

  lemma {:induction false} InSeen(sources: seq<Source>, excluded: string -> bool, i: nat, p: string)
    requires i < |sources| && p in Enqueued(sources[i].dir, sources[i].node, excluded)
    ensures p in Seen(sources, excluded)
  {
    if i > 0 {
      InSeen(sources[1..], excluded, i - 1, p);
    }
  }

  /** The pass of a job belongs to the walk of the same job. */
  ghost predicate OfJob(pass: Pass, sources: seq<Source>, dirs: seq<string>, excludes: seq<string>,
                        regex: string -> bool) {
    && |dirs| == |sources| && (forall i | 0 <= i < |dirs| :: dirs[i] == sources[i].dir)
    && (forall p :: pass.covers(p) <==> IsWithinSourceDirs(p, dirs) && !IsExcluded(p, excludes, regex))
    && pass.seen == Seen(sources, Exclusion(excludes, regex))
  }

  /**
    Under those hypotheses a file that is present is not marked, is unmarked if that update goes
    through, and is not purged.
   */
  lemma PresentFilesAreSafe(pass: Pass, sources: seq<Source>, dirs: seq<string>, excludes: seq<string>,
                            regex: string -> bool,
                            i: nat, names: seq<string>, row: FileRow)
    requires OfJob(pass, sources, dirs, excludes, regex) && i < |sources| && sources[i].dir != ""
    requires NamesOk(sources[i].node) && NothingLost(sources[i].node) && HasFile(sources[i].node, names)
    requires (forall j | 0 <= j < |excludes| :: Proper(excludes[j])) && GoesDown(regex, sources[i].dir, names)
    requires row.source == PathAt(sources[i].dir, names)
    ensures row.deletedAt.None? ==> NewMark(row, pass).None?
    ensures pass.covers(row.source) && row.source !in pass.clearFails ==> NewMark(row, pass).None?
    ensures !HasExpired(row, pass)
  {
    if pass.covers(row.source) {
      var excluded := Exclusion(excludes, regex);
      WalkIsExact(sources[i].dir, sources[i].node, excludes, regex, names);
      InSeen(sources, excluded, i, row.source);
    }
  }

  lemma ExcludedIsNotSeen(sources: seq<Source>, excluded: string -> bool, path: string)
    requires excluded(path)
    ensures path !in Seen(sources, excluded)
  {
    if path in Seen(sources, excluded) {
      var i := SeenIn(sources, excluded, path);
      EnqueuedIsNotExcluded(sources[i].dir, sources[i].node, excluded, path);
    }
  }

  lemma EnqueuedIsNotExcluded(path: string, node: Node, excluded: string -> bool, p: string)
    requires p in Enqueued(path, node, excluded)
    ensures !excluded(p)
  {
    var names := EnqueuedIsReached(path, node, excluded, p);
    assert names[..|names|] == names;
  }

  /** A record at or below an entry of the exclusion list, or excluded by a regex, is neither seen nor touched. */
  lemma ExcludedRecordsStay(pass: Pass, sources: seq<Source>, dirs: seq<string>, excludes: seq<string>,
                            regex: string -> bool, row: FileRow)
    requires OfJob(pass, sources, dirs, excludes, regex)
    requires regex(row.source) || exists i ::
      0 <= i < |excludes| && excludes[i] != "" && IsAtOrBelow(row.source, excludes[i])
    ensures row.source !in pass.seen && NewMark(row, pass) == row.deletedAt && !HasExpired(row, pass)
  {
    WithinAndExcludedIff(row.source, dirs, excludes, regex);
    hide IsExcluded, IsAtOrBelow, IsWithinSourceDirs;
    ExcludedIsNotSeen(sources, Exclusion(excludes, regex), row.source);
  }

  /** A pass leaves alone every record that lies below none of the job's directories other than "/" and ".". */
  lemma OnlyCoveredRecordsChange(pass: Pass, sources: seq<Source>, dirs: seq<string>, excludes: seq<string>,
                                 regex: string -> bool, row: FileRow)
    requires OfJob(pass, sources, dirs, excludes, regex)
    requires forall i | 0 <= i < |dirs| :: !IsAtOrBelow(row.source, dirs[i])
    ensures NewMark(row, pass) == row.deletedAt && !HasExpired(row, pass)
  {
    WithinAndExcludedIff(row.source, dirs, excludes, regex);
    hide IsExcluded, IsWithinSourceDirs;
  }

  /**
    Without them: a file whose path is covered and which was not marked is marked exactly when the walk
    did not come by it, that is, when on every way to it a directory was excluded or a directory read
    failed to deliver it. A source directory that cannot be read gets all of its files marked.
   */
  lemma PresentFileIsMarkedIff(pass: Pass, sources: seq<Source>, dirs: seq<string>, excludes: seq<string>,
                               regex: string -> bool, row: FileRow)
    requires OfJob(pass, sources, dirs, excludes, regex)
    requires pass.covers(row.source) && row.deletedAt.None? && row.source !in pass.markFails
    ensures var excluded := Exclusion(excludes, regex);
      NewMark(row, pass).Some? <==>
        forall i, names | 0 <= i < |sources| && Delivered(sources[i].node, names)
          && PathAt(sources[i].dir, names) == row.source ::
          CutOff(sources[i].dir, names, excluded)
  {
    var excluded := Exclusion(excludes, regex);
    if row.source in pass.seen {
      var i := SeenIn(sources, excluded, row.source);
      var names := EnqueuedIsReached(sources[i].dir, sources[i].node, excluded, row.source);
    } else {
      forall i, names | 0 <= i < |sources| && Delivered(sources[i].node, names)
        && PathAt(sources[i].dir, names) == row.source
        ensures CutOff(sources[i].dir, names, excluded)
      {
        if !CutOff(sources[i].dir, names, excluded) {
          ReachedIsEnqueued(sources[i].dir, sources[i].node, excluded, names);
          InSeen(sources, excluded, i, row.source);
        }
      }
    }
  }

  lemma {:induction false} SeenIn(sources: seq<Source>, excluded: string -> bool, p: string) returns (i: nat)
    requires p in Seen(sources, excluded)
    ensures i < |sources| && p in Enqueued(sources[i].dir, sources[i].node, excluded)
  {
    if p in Enqueued(sources[0].dir, sources[0].node, excluded) {
      i := 0;
    } else {
      var j := SeenIn(sources[1..], excluded, p);
      i := j + 1;
    }
  }

  // ---------- A present file that is purged ----------

  /** A directory d with a file f in it. */
  function SmallTree(): Node {
    Dir([Entry("d", SmallDir())], [])
  }

  function SmallDir(): Node {
    Dir([Entry("f", File)], [])
  }

  lemma RenderedPaths()
    ensures Render(Path(true, ["s"])) == "/s" && Render(Path(true, ["s", "d"])) == "/s/d"
    ensures Render(Path(true, ["s", "d", "f"])) == "/s/d/f"
  {
    assert ["s", "d", "f"][1..] == ["d", "f"] && ["d", "f"][1..] == ["f"] && ["s", "d"][1..] == ["d"];
    assert Join(["f"]) == "f" && Join(["d"]) == "d" && Join(["d", "f"]) == "d/f";
    assert Join(["s"]) == "s" && Join(["s", "d"]) == "s/d" && Join(["s", "d", "f"]) == "s/d/f";
  }

  lemma PathsOfSmallTree()
    ensures JoinPath("/s", "d") == "/s/d" && JoinPath("/s/d", "f") == "/s/d/f" && Under("/s/d/f", "/s")
  {
    var s := Path(true, ["s"]);
    RenderedPaths();
    ParseOfRender(s);
    hide Join, Render, Parse, JoinPath, Under, Normal, Clean;
    assert ["s"] + ["d"] == ["s", "d"] && ["s", "d"] + ["f"] == ["s", "d", "f"];
    ParseOfJoin("/s", "d");
    ParseOfJoin("/s/d", "f");
    UnderIsAncestor("/s/d/f", "/s");
  }

  lemma PathOfSmallFile()
    ensures PathAt("/s", ["d", "f"]) == "/s/d/f"
  {
    PathsOfSmallTree();
    hide JoinPath;
    assert ["d", "f"][1..] == ["f"] && ["f"][1..] == [];
    assert PathAt("/s/d", ["f"]) == PathAt("/s/d/f", []);
  }

  lemma NothingEnqueued(excluded: string -> bool)
    requires excluded("/s/d")
    ensures Enqueued("/s", SmallTree(), excluded) == []
  {
    var entries := [Entry("d", SmallDir())];
    PathsOfSmallTree();
    hide JoinPath;
    assert entries[1..] == [];
    assert Enqueued("/s/d", SmallDir(), excluded) == [];
    assert EnqueuedAll("/s", entries, excluded) == [];
  }

  lemma NothingSeen(excluded: string -> bool)
    requires excluded("/s/d")
    ensures Seen([Source("/s", SmallTree())], excluded) == {}
  {
    NothingEnqueued(excluded);
    hide Enqueued, SmallTree;
    assert [Source("/s", SmallTree())][1..] == [];
  }

  /** A covered file that two passes in a row do not see, the second after the retention time. */
  lemma MissedIsPurged(pass: Pass, row: FileRow)
    requires pass.covers(row.source) && row.source !in pass.seen && row.source !in pass.markFails && row.deletedAt.None?
    ensures NewMark(row, pass) == Some(StoredSecond(pass.now))
    ensures HasExpired(row.(deletedAt := NewMark(row, pass)), pass.(now := pass.now + pass.retention))
  {
    assert StoredSecond(pass.now) * SECOND <= pass.now;
  }

  lemma SmallFileIsCovered(regex: string -> bool)
    requires !regex("/s/d/f")
    ensures IsWithinSourceDirs("/s/d/f", ["/s"]) && !IsExcluded("/s/d/f", [], regex)
  {
    PathsOfSmallTree();
    hide Under;
    assert Under("/s/d/f", ["/s"][0]);
  }

  /** The pass of a job with this source directory and regex, when all of its updates go through. */
  function JobPass(now: int, retention: int, source: Source, regex: string -> bool): Pass {
    Pass(now, retention, p => IsWithinSourceDirs(p, [source.dir]) && !IsExcluded(p, [], regex),
         Seen([source], Exclusion([], regex)), {}, {})
  }

  lemma JobPassIsOfJob(now: int, retention: int, source: Source, regex: string -> bool)
    ensures OfJob(JobPass(now, retention, source, regex), [source], [source.dir], [], regex)
  {
    hide IsWithinSourceDirs, IsExcluded, Seen;
  }

  /** The walk with this regex: it sees nothing, and the pass covers the file all the same. */
  lemma SmallFileIsMissed(now: int, retention: int, regex: string -> bool)
    requires regex("/s/d") && !regex("/s/d/f")
    ensures var pass := JobPass(now, retention, Source("/s", SmallTree()), regex);
      && pass.now == now && pass.retention == retention && pass.markFails == {}
      && pass.covers("/s/d/f") && "/s/d/f" !in pass.seen
  {
    NothingSeen(Exclusion([], regex));
    SmallFileIsCovered(regex);
    hide Seen, IsWithinSourceDirs, IsExcluded, SmallTree;
  }

  /**
    The regex matches the directory /s/d and not the file /s/d/f in it: the directory is skipped, the
    file counts as one the job covers, so it is marked while it is there, and purged when the
    retention time is over.
   */
  lemma SkippedFileIsPurged(now: int, retention: int, regex: string -> bool, row: FileRow)
    requires regex("/s/d") && !regex("/s/d/f") && row.source == "/s/d/f" && row.deletedAt.None?
    ensures NamesOk(SmallTree()) && NothingLost(SmallTree()) && HasFile(SmallTree(), ["d", "f"])
    ensures row.source == PathAt("/s", ["d", "f"]) && !IsExcluded(row.source, [], regex)
    ensures var pass := JobPass(now, retention, Source("/s", SmallTree()), regex);
      && OfJob(pass, [Source("/s", SmallTree())], ["/s"], [], regex)
      && NewMark(row, pass) == Some(StoredSecond(now))
      && HasExpired(row.(deletedAt := NewMark(row, pass)), pass.(now := now + retention))
  {
    var source := Source("/s", SmallTree());
    hide *;
    PathOfSmallFile();
    SmallTreeHasFile();
    SmallFileIsCovered(regex);
    JobPassIsOfJob(now, retention, source, regex);
    SmallFileIsMissed(now, retention, regex);
    MissedIsPurged(JobPass(now, retention, source, regex), row);
  }

  lemma SmallTreeHasFile()
    ensures NamesOk(SmallTree()) && NothingLost(SmallTree()) && HasFile(SmallTree(), ["d", "f"])
  {
    assert ["d", "f"][1..] == ["f"] && ["f"][1..] == [];
    var d, f := Entry("d", SmallDir()), Entry("f", File);
    assert SmallTree().entries[0] == d && SmallDir().entries[0] == f;
    assert HasFile(f.node, []);
    assert HasFile(d.node, ["f"]);
  }
}
