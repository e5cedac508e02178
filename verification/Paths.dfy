/** Path strings: what filepath.Clean makes of them, and what the prefix tests on them mean. */
module Paths {

  /** A path read lexically: rooted or not, and its segments once ".", ".." and "//" are resolved. */
  datatype Path = Path(rooted: bool, segs: seq<string>)

  /** The pieces between slashes. */
  function Split(s: string): (parts: seq<string>)
    ensures parts != []
  {
    if s == "" then [""]
    else
      var rest := Split(s[1..]);
      if s[0] == '/' then [""] + rest else [[s[0]] + rest[0]] + rest[1..]
  }

  /** One more piece, the way Clean treats it. */
  function Push(rooted: bool, segs: seq<string>, piece: string): seq<string> {
    if piece == "" || piece == "." then segs
    else if piece != ".." then segs + [piece]
    else if segs != [] && segs[|segs| - 1] != ".." then segs[..|segs| - 1]
    else if rooted then segs
    else segs + [".."]
  }

  function Reduce(rooted: bool, parts: seq<string>): seq<string> {
    if parts == [] then []
    else Push(rooted, Reduce(rooted, parts[..|parts| - 1]), parts[|parts| - 1])
  }

  function Parse(s: string): Path {
    var rooted := s != "" && s[0] == '/';
    Path(rooted, Reduce(rooted, Split(s)))
  }

  function Join(segs: seq<string>): string {
    if segs == [] then ""
    else if |segs| == 1 then segs[0]
    else segs[0] + "/" + Join(segs[1..])
  }

  function Render(p: Path): string {
    if p.segs == [] then if p.rooted then "/" else "."
    else (if p.rooted then "/" else "") + Join(p.segs)
  }

  /** filepath.Clean. */
  function Clean(s: string): string {
    Render(Parse(s))
  }

  /** filepath.Join of a directory and the name of an entry. */
  function JoinPath(dir: string, name: string): string {
    if dir == "" then Clean(name) else Clean(dir + "/" + name)
  }

  /** The test both isWithinSourceDirs and isExcluded make: equal, or starting with base and a slash. */
  predicate Under(path: string, base: string) {
    Clean(path) == Clean(base) || Clean(base) + "/" <= Clean(path)
  }

  predicate IsWithinSourceDirs(path: string, dirs: seq<string>) {
    exists i :: 0 <= i < |dirs| && Under(path, dirs[i])
  }

  predicate IsExcluded(path: string, excludes: seq<string>, regex: string -> bool) {
    (exists i :: 0 <= i < |excludes| && excludes[i] != "" && Under(path, excludes[i])) || regex(path)
  }

  // ---------- Normal forms ----------

  predicate IsSegment(s: string) {
    s != "" && s != "." && '/' !in s
  }

  /** The name of a directory entry. */
  predicate IsName(s: string) {
    IsSegment(s) && s != ".."
  }

  predicate Segments(segs: seq<string>) {
    forall i | 0 <= i < |segs| :: IsSegment(segs[i])
  }

  /** What Clean leaves: no ".." below anything else, and none in a rooted path. */
  predicate Normal(p: Path) {
    && Segments(p.segs)
    && forall i | 0 <= i < |p.segs| && p.segs[i] == ".." :: !p.rooted && forall j | 0 <= j < i :: p.segs[j] == ".."
  }

  lemma {:induction false} PiecesHaveNoSlash(s: string)
    ensures forall i | 0 <= i < |Split(s)| :: '/' !in Split(s)[i]
  {
    if s != "" {
      PiecesHaveNoSlash(s[1..]);
    }
  }

  lemma {:induction false} ReduceIsNormal(rooted: bool, parts: seq<string>)
    requires forall i | 0 <= i < |parts| :: '/' !in parts[i]
    ensures Normal(Path(rooted, Reduce(rooted, parts)))
  {
    if parts != [] {
      ReduceIsNormal(rooted, parts[..|parts| - 1]);
    }
  }

  lemma ParseIsNormal(s: string)
    ensures Normal(Parse(s))
  {
    PiecesHaveNoSlash(s);
    ReduceIsNormal(Parse(s).rooted, Split(s));
  }

  /** Resolving already resolved segments changes nothing. */
  lemma {:induction false} ReduceOfNormal(p: Path)
    requires Normal(p)
    ensures Reduce(p.rooted, p.segs) == p.segs
    decreases |p.segs|
  {
    if p.segs != [] {
      var front, last := p.segs[..|p.segs| - 1], p.segs[|p.segs| - 1];
      FrontIsNormal(p);
      ReduceOfNormal(Path(p.rooted, front));
      assert Push(p.rooted, front, last) == front + [last] == p.segs by {
        PushOfNormal(p);
      }
    }
  }

  lemma FrontIsNormal(p: Path)
    requires Normal(p) && p.segs != []
    ensures Normal(Path(p.rooted, p.segs[..|p.segs| - 1]))
  {
  }

  lemma PushOfNormal(p: Path)
    requires Normal(p) && p.segs != []
    ensures Push(p.rooted, p.segs[..|p.segs| - 1], p.segs[|p.segs| - 1]) == p.segs
  {
  }

  lemma {:induction false} SplitOfSegment(s: string)
    requires '/' !in s
    ensures Split(s) == [s]
  {
    if s != "" {
      SplitOfSegment(s[1..]);
      assert s == [s[0]] + s[1..];
    }
  }

  lemma {:induction false} SplitAtSlash(a: string, b: string)
    ensures Split(a + "/" + b) == Split(a) + Split(b)
  {
    if a == "" {
      assert (a + "/" + b)[1..] == b;
    } else {
      assert (a + "/" + b)[1..] == a[1..] + "/" + b;
      SplitAtSlash(a[1..], b);
    }
  }

  lemma {:induction false} SplitOfJoin(segs: seq<string>)
    requires segs != [] && Segments(segs)
    ensures Split(Join(segs)) == segs
  {
    SplitOfSegment(segs[0]);
    if |segs| > 1 {
      SplitAtSlash(segs[0], Join(segs[1..]));
      SplitOfJoin(segs[1..]);
    }
  }

  lemma ReducePrefixEmpty(rooted: bool, parts: seq<string>)
    ensures Reduce(rooted, [""] + parts) == Reduce(rooted, parts)
  {
    if parts == [] {
      assert [""] + parts == [""];
      assert Reduce(rooted, [""][..0]) == [];
    } else {
      var whole := [""] + parts;
      assert whole[..|whole| - 1] == [""] + parts[..|parts| - 1];
      ReducePrefixEmpty(rooted, parts[..|parts| - 1]);
    }
  }

  /** A rendered normal path reads back as itself. */
  lemma ParseOfRender(p: Path)
    requires Normal(p)
    ensures Parse(Render(p)) == p
  {
    if p.segs == [] {
      SplitOfSegment(".");
      SplitAtSlash("", "");
      assert "" + "/" + "" == "/" && [""] + [""] == ["", ""];
      ReduceSmall(p.rooted);
    } else {
      hide Split, Reduce, Join, Normal;
      var joined := Join(p.segs);
      RenderSplits(p);
      ReduceOfNormal(p);
      NormalSegments(p);
      FirstCharacter(p.segs);
      if p.rooted {
        ReducePrefixEmpty(true, p.segs);
      }
    }
  }

  lemma NormalSegments(p: Path)
    requires Normal(p)
    ensures Segments(p.segs)
  {
  }

  lemma RenderSplits(p: Path)
    requires Normal(p) && p.segs != []
    ensures Split(Render(p)) == if p.rooted then [""] + p.segs else p.segs
  {
    var joined := Join(p.segs);
    SplitOfJoin(p.segs);
    if p.rooted {
      SplitAtSlash("", joined);
      assert "" + "/" + joined == "/" + joined;
      SplitOfSegment("");
    } else {
      assert Render(p) == joined;
    }
  }

  lemma ReduceSmall(rooted: bool)
    ensures Reduce(rooted, ["", ""]) == [] && Reduce(rooted, ["."]) == []
  {
    assert ["", ""][..1] == [""] && [""][..0] == [] && ["."][..0] == [];
    assert Reduce(rooted, [""]) == [];
  }

  lemma FirstCharacter(segs: seq<string>)
    requires segs != [] && Segments(segs)
    ensures Join(segs) != "" && Join(segs)[0] == segs[0][0] != '/'
  {
  }

  /** An entry's path has the directory's segments and the entry's name after them. */
  lemma ParseOfJoin(dir: string, name: string)
    requires dir != "" && IsName(name)
    ensures Parse(JoinPath(dir, name)) == Path(Parse(dir).rooted, Parse(dir).segs + [name])
    ensures JoinPath(dir, name) == Render(Path(Parse(dir).rooted, Parse(dir).segs + [name]))
    ensures JoinPath(dir, name) != ""
  {
    var s := dir + "/" + name;
    SplitAtSlash(dir, name);
    SplitOfSegment(name);
    assert (Split(dir) + [name])[..|Split(dir)|] == Split(dir);
    assert s[0] == dir[0];
    assert Parse(s) == Path(Parse(dir).rooted, Parse(dir).segs + [name]);
    ParseIsNormal(s);
    ParseOfRender(Parse(s));
    FirstCharacter(Parse(s).segs);
  }

  /** Under no directory an entry's path is its name. */
  lemma JoinOfNothing(name: string)
    requires IsName(name)
    ensures JoinPath("", name) == name
  {
    SplitOfSegment(name);
    assert [name][..0] == [] && Reduce(false, [name]) == [name];
  }

  // ---------- What cleaning takes away ----------

  /** What comes after is resolved from what the pieces before it amount to. */
  lemma {:induction false} ReduceAfter(rooted: bool, xs: seq<string>, ys: seq<string>, more: seq<string>)
    requires Reduce(rooted, xs) == Reduce(rooted, ys)
    ensures Reduce(rooted, xs + more) == Reduce(rooted, ys + more)
    decreases |more|
  {
    if more == [] {
      assert xs + more == xs && ys + more == ys;
    } else {
      var front, last := more[..|more| - 1], more[|more| - 1];
      ReduceAfter(rooted, xs, ys, front);
      assert (xs + more)[..|xs + more| - 1] == xs + front && (ys + more)[..|ys + more| - 1] == ys + front;
    }
  }

  lemma ReduceOneMore(rooted: bool, xs: seq<string>, piece: string)
    ensures Reduce(rooted, xs + [piece]) == Push(rooted, Reduce(rooted, xs), piece)
  {
    assert (xs + [piece])[..|xs|] == xs;
  }

  lemma SplitTwice(a: string, x: string, b: string)
    requires '/' !in x
    ensures Split(a + "/" + x + "/" + b) == Split(a) + [x] + Split(b)
  {
    SplitAtSlash(a + "/" + x, b);
    SplitAtSlash(a, x);
    SplitOfSegment(x);
  }

  /** An empty piece and a dot between two slashes mean nothing. */
  lemma NothingBetweenSlashes(a: string, x: string, b: string)
    requires a != "" && (x == "" || x == ".")
    ensures Clean(a + "/" + x + "/" + b) == Clean(a + "/" + b)
  {
    var rooted := a[0] == '/';
    SplitTwice(a, x, b);
    SplitAtSlash(a, b);
    ReduceOneMore(rooted, Split(a), x);
    hide Split, Reduce, Render;
    ReduceAfter(rooted, Split(a) + [x], Split(a), Split(b));
    assert (a + "/" + x + "/" + b)[0] == a[0] && (a + "/" + b)[0] == a[0];
  }

  /** A name followed by ".." vanishes. */
  lemma NameAndDotsVanish(a: string, name: string, b: string)
    requires a != "" && IsName(name)
    ensures Clean(a + "/" + name + "/" + ".." + "/" + b) == Clean(a + "/" + b)
  {
    var rooted := a[0] == '/';
    SplitTwice(a + "/" + name, "..", b);
    SplitAtSlash(a, name);
    SplitOfSegment(name);
    SplitAtSlash(a, b);
    ReduceOneMore(rooted, Split(a), name);
    ReduceOneMore(rooted, Split(a) + [name], "..");
    PushAndPop(rooted, Reduce(rooted, Split(a)), name);
    hide Split, Reduce, Render, Push;
    ReduceAfter(rooted, Split(a) + [name] + [".."], Split(a), Split(b));
    assert (a + "/" + name + "/" + ".." + "/" + b)[0] == a[0] && (a + "/" + b)[0] == a[0];
  }

  lemma PushAndPop(rooted: bool, segs: seq<string>, name: string)
    requires IsName(name)
    ensures Push(rooted, Push(rooted, segs, name), "..") == segs
  {
  }

  /** Dots at the top of a rooted path vanish, and at the front of a relative one they stay. */
  lemma DotsInFront(b: string)
    ensures Clean("/" + ".." + "/" + b) == Clean("/" + b)
    ensures Parse("..") == Path(false, [".."])
  {
    assert "" + "/" + ".." + "/" + b == "/" + ".." + "/" + b && "" + "/" + b == "/" + b;
    SplitTwice("", "..", b);
    SplitAtSlash("", b);
    SplitOfSegment("");
    SplitOfSegment("..");
    assert [""] + [".."] == ["", ".."];
    TopOfRoot();
    hide Split, Reduce, Render, Push;
    ReduceAfter(true, ["", ".."], [""], Split(b));
  }

  lemma TopOfRoot()
    ensures Reduce(true, ["", ".."]) == Reduce(true, [""]) && Reduce(false, [".."]) == [".."]
  {
    assert ["", ".."][..1] == [""] && [""][..0] == [] && [".."][..0] == [];
  }

  // ---------- What the string tests mean ----------

  /** Two texts without slashes, each followed by its end or a slash: one begins the other only if they are equal. */
  lemma SegmentsAlign(a: string, x: string, b: string, y: string)
    requires '/' !in a && '/' !in b
    requires y == "" || y[0] == '/'
    requires a + "/" + x <= b + y
    ensures a == b && y != "" && x <= y[1..]
  {
    var whole := b + y;
    assert forall i | 0 <= i < |a| :: whole[i] == (a + "/" + x)[i] == a[i] && a[i] in a;
    assert forall i | 0 <= i < |b| :: whole[i] == b[i] && b[i] in b;
    assert whole[|a|] == (a + "/" + x)[|a|] == '/';
    assert |a| >= |b|;
    assert |b| < |whole| ==> whole[|b|] == y[0];
    assert |a| <= |b|;
    assert whole[|a|..] == y;
    assert (a + "/" + x)[|a|..] == "/" + x;
  }

  lemma {:induction false} JoinPrefix(qs: seq<string>, ps: seq<string>)
    requires Segments(qs) && Segments(ps) && qs != []
    ensures Join(qs) + "/" <= Join(ps) <==> qs < ps
  {
    if ps != [] {
      var q, p := qs[0], ps[0];
      var y := if |ps| == 1 then "" else "/" + Join(ps[1..]);
      assert Join(ps) == p + y;
      if |qs| == 1 {
        if Join(qs) + "/" <= Join(ps) {
          assert q + "/" + "" == Join(qs) + "/";
          SegmentsAlign(q, "", p, y);
          assert qs == [p];
        }
        if qs < ps {
          assert q == p && Join(ps) == q + "/" + Join(ps[1..]);
        }
      } else {
        var x := Join(qs[1..]) + "/";
        assert Join(qs) + "/" == q + "/" + x;
        if Join(qs) + "/" <= Join(ps) {
          SegmentsAlign(q, x, p, y);
          assert y[1..] == Join(ps[1..]);
          JoinPrefix(qs[1..], ps[1..]);
          assert qs == [q] + qs[1..] && ps == [p] + ps[1..];
        }
        if qs < ps {
          assert qs[1..] < ps[1..] && q == p;
          JoinPrefix(qs[1..], ps[1..]);
          assert Join(ps) == p + "/" + Join(ps[1..]);
          SameStart(p + "/", x, Join(ps[1..]));
          assert q + "/" + x == (p + "/") + x;
        }
      }
    }
  }

  /** The path of base or, unless that has no segments, a path below it. */
  predicate IsAtOrBelow(path: string, base: string) {
    var p, b := Parse(path), Parse(base);
    p == b || (b.segs != [] && p.rooted == b.rooted && b.segs < p.segs)
  }

  /**
    The string test, exactly: the same path, or a path below base, segment by segment. A base that
    cleans to "/" or "." has no segments, and nothing but itself passes the test.
   */
  lemma UnderIsAncestor(path: string, base: string)
    ensures Under(path, base) <==> IsAtOrBelow(path, base)
  {
    var p, b := Parse(path), Parse(base);
    ParseIsNormal(path);
    ParseIsNormal(base);
    ParseOfRender(p);
    ParseOfRender(b);
    assert Clean(path) == Clean(base) <==> p == b;
    RenderPrefix(b, p);
  }

  /** What isWithinSourceDirs and isExcluded decide, by segments. */
  lemma WithinAndExcludedIff(path: string, dirs: seq<string>, excludes: seq<string>, regex: string -> bool)
    ensures IsWithinSourceDirs(path, dirs) <==> exists i :: 0 <= i < |dirs| && IsAtOrBelow(path, dirs[i])
    ensures IsExcluded(path, excludes, regex) <==>
      || regex(path)
      || exists i :: 0 <= i < |excludes| && excludes[i] != "" && IsAtOrBelow(path, excludes[i])
  {
    forall base
      ensures Under(path, base) <==> IsAtOrBelow(path, base)
    {
      UnderIsAncestor(path, base);
    }
    hide Under, IsAtOrBelow;
  }

  lemma RenderPrefix(b: Path, p: Path)
    requires Normal(b) && Normal(p)
    ensures Render(b) + "/" <= Render(p) <==> b.segs != [] && p.rooted == b.rooted && b.segs < p.segs
  {
    if p.segs != [] {
      FirstCharacter(p.segs);
    }
    if b.segs != [] {
      FirstCharacter(b.segs);
      if p.segs != [] && p.rooted == b.rooted {
        JoinPrefix(b.segs, p.segs);
        SameStart(if p.rooted then "/" else "", Join(b.segs) + "/", Join(p.segs));
        assert Render(b) + "/" == (if p.rooted then "/" else "") + (Join(b.segs) + "/");
      } else if p.segs == [] {
        assert |Render(p)| == 1 && |Render(b) + "/"| >= 2;
      } else {
        assert (Render(b) + "/")[0] != Render(p)[0];
      }
    } else {
      NothingBelowRoot(b, p);
    }
  }

  lemma SameStart(start: string, a: string, b: string)
    ensures start + a <= start + b <==> a <= b
  {
    if start + a <= start + b {
      assert (start + a)[|start|..] == a && (start + b)[|start|..] == b;
    }
  }

  lemma NothingBelowRoot(b: Path, p: Path)
    requires Normal(p) && b.segs == []
    ensures !(Render(b) + "/" <= Render(p))
  {
    var r, start := Render(p), Render(b) + "/";
    assert |start| == 2 && start[1] == '/' && start[0] in {'/', '.'};
    if p.segs == [] {
      assert |r| == 1;
    } else {
      FirstCharacter(p.segs);
      var first := p.segs[0];
      if p.rooted {
        assert r[1] == Join(p.segs)[0];
      } else {
        assert r == Join(p.segs) && first <= r;
        if |first| >= 2 {
          assert r[1] == first[1] && first[1] in first;
        } else {
          assert first == [first[0]];
          assert r[0] == first[0] != '.';
        }
      }
    }
  }
}
