/**
  The directory tree shown to the user: the children of one directory, and what opening directory
  after directory from the top reaches.
 */
module Listing {
  import opened Basics
  import opened Database
  import opened Paths
  import opened Prefixes
  import opened Utf8

  datatype DirChild = Dir(name: string) | File(name: string, id: nat, full: string, size: int, mtime: int)

  // ---------- The order of a listing ----------

  /** Directories before files, each alphabetically. */
  predicate Leq(a: DirChild, b: DirChild) {
    if a.Dir? != b.Dir? then a.Dir? else NameLeq(a.name, b.name)
  }

  ghost predicate Sorted(s: seq<DirChild>) {
    forall i, j | 0 <= i < j < |s| :: Leq(s[i], s[j])
  }

  /** Every directory before every file, and each kind by the bytes of its names. */
  ghost predicate DirectoriesFirst(s: seq<DirChild>) {
    && (forall i, j | 0 <= i < |s| && 0 <= j < |s| && s[i].Dir? && s[j].File? :: i < j)
    && (forall i, j | 0 <= i < j < |s| && s[i].Dir? == s[j].Dir? :: Before(s[i].name, s[j].name))
  }

  lemma SortedIff(s: seq<DirChild>)
    ensures Sorted(s) <==> DirectoriesFirst(s)
  {
    forall i, j | 0 <= i < j < |s|
      ensures NameLeq(s[i].name, s[j].name) <==> Before(s[i].name, s[j].name)
    {
      NameLeqIff(s[i].name, s[j].name);
    }
    hide NameLeq, Before;
  }

  lemma ChildrenChain(a: DirChild, b: DirChild, c: DirChild)
    requires Leq(a, b) && Leq(b, c)
    ensures Leq(a, c)
  {
    if a.Dir? == b.Dir? && b.Dir? == c.Dir? {
      NamesChain(a.name, b.name, c.name);
    }
  }

  function Insert(c: DirChild, s: seq<DirChild>): seq<DirChild> {
    if s == [] || Leq(c, s[0]) then [c] + s else [s[0]] + Insert(c, s[1..])
  }

  lemma {:induction false} InsertKeepsSorted(c: DirChild, s: seq<DirChild>)
    requires Sorted(s)
    ensures Sorted(Insert(c, s)) && multiset(Insert(c, s)) == multiset(s) + multiset{c}
  {
    if s != [] {
      assert s == [s[0]] + s[1..];
      hide NameLeq;
      if Leq(c, s[0]) {
        forall j | 0 <= j < |s|
          ensures Leq(c, s[j])
        {
          if j > 0 {
            ChildrenChain(c, s[0], s[j]);
          }
        }
      } else {
        NamesCompare(c.name, s[0].name);
        var rest := Insert(c, s[1..]);
        InsertKeepsSorted(c, s[1..]);
        forall x | x in rest
          ensures Leq(s[0], x)
        {
          assert x in multiset(rest);
          assert x == c || x in s[1..];
        }
      }
    }
  }

  method SortChildren(children: seq<DirChild>) returns (sorted: seq<DirChild>)
    ensures Sorted(sorted) && multiset(sorted) == multiset(children)
  {
    sorted := [];
    for i := 0 to |children|
      invariant Sorted(sorted) && multiset(sorted) == multiset(children[..i])
    {
      InsertKeepsSorted(children[i], sorted);
      assert children[..i + 1] == children[..i] + [children[i]];
      sorted := Insert(children[i], sorted);
    }
    assert children[..|children|] == children;
  }

  // ---------- One directory ----------

  /** The files the query selects: not marked deleted, display path LIKE the prefix. */
  function Selected(t: Tables, prefix: string): set<nat> {
    set f | f in t.files && t.files[f].deletedAt.None? && (prefix == "" || Like(prefix + "%", t.files[f].display))
  }

  /** The text before the first slash. */
  function Head(s: string): string {
    if s == "" || s[0] == '/' then "" else [s[0]] + Head(s[1..])
  }

  /** What is left of a display path after as many bytes as the prefix has. */
  function Rest(t: Tables, prefix: string, f: nat): string
    requires f in t.files && |prefix| <= |t.files[f].display|
  {
    t.files[f].display[|prefix|..]
  }

  predicate IsFileHere(t: Tables, prefix: string, f: nat) {
    && f in t.files && |prefix| <= |t.files[f].display|
    && Rest(t, prefix, f) != "" && '/' !in Rest(t, prefix, f)
  }

  predicate IsBelow(t: Tables, prefix: string, f: nat, d: string) {
    && f in t.files && |prefix| <= |t.files[f].display|
    && '/' in Rest(t, prefix, f) && d != "" && Head(Rest(t, prefix, f)) == d
  }

  ghost predicate IsDirHere(t: Tables, prefix: string, rows: set<nat>, d: string) {
    exists f :: f in rows && IsBelow(t, prefix, f, d)
  }

  /** The size and time of a file child are those of some latest versions, or 0 when there are none. */
  ghost predicate Faithful(t: Tables, prefix: string, c: DirChild)
    requires c.File? && IsFileHere(t, prefix, c.id)
  {
    && c.name == Rest(t, prefix, c.id) && c.full == t.files[c.id].display
    && (if VersionsOf(t, c.id) == {} then c.size == 0 && c.mtime == 0
        else && (exists v :: IsLatest(t, c.id, v) && c.size == t.versions[v].size)
             && (exists v :: IsLatest(t, c.id, v) && c.mtime == t.versions[v].mtime))
  }

  /** The children of these rows, each once. */
  ghost predicate IsListing(t: Tables, prefix: string, rows: set<nat>, m: multiset<DirChild>) {
    && (forall c :: m[c] <= 1)
    && (forall d :: Dir(d) in m <==> IsDirHere(t, prefix, rows, d))
    && (forall c | c in m && c.File? :: c.id in rows && IsFileHere(t, prefix, c.id) && Faithful(t, prefix, c))
    && (forall f | f in rows && IsFileHere(t, prefix, f) :: exists c :: c in m && c.File? && c.id == f)
    && (forall c, c' | c in m && c' in m && c.File? && c'.File? && c.id == c'.id :: c == c')
  }

  lemma ListsNothing(t: Tables, prefix: string)
    ensures IsListing(t, prefix, {}, multiset{})
  {
  }

  lemma ListsSkipped(t: Tables, prefix: string, rows: set<nat>, m: multiset<DirChild>, f: nat)
    requires IsListing(t, prefix, rows, m) && !IsFileHere(t, prefix, f)
    requires forall d | IsBelow(t, prefix, f, d) :: Dir(d) in m
    ensures IsListing(t, prefix, rows + {f}, m)
  {
    forall d
      ensures Dir(d) in m <==> IsDirHere(t, prefix, rows + {f}, d)
    {
      if g :| g in rows + {f} && IsBelow(t, prefix, g, d) {
        assert g in rows ==> IsDirHere(t, prefix, rows, d);
      }
      if g :| g in rows && IsBelow(t, prefix, g, d) {
        assert g in rows + {f};
      }
    }
  }

  lemma ListsNewDir(t: Tables, prefix: string, rows: set<nat>, m: multiset<DirChild>, f: nat, d: string)
    requires IsListing(t, prefix, rows, m) && !IsFileHere(t, prefix, f) && IsBelow(t, prefix, f, d) && Dir(d) !in m
    ensures IsListing(t, prefix, rows + {f}, m + multiset{Dir(d)})
  {
    var m' := m + multiset{Dir(d)};
    forall e
      ensures Dir(e) in m' <==> IsDirHere(t, prefix, rows + {f}, e)
    {
      if g :| g in rows + {f} && IsBelow(t, prefix, g, e) {
        assert g in rows ==> IsDirHere(t, prefix, rows, e);
      }
      if g :| g in rows && IsBelow(t, prefix, g, e) {
        assert g in rows + {f};
      }
      assert f in rows + {f};
    }
    FilesCarryOver(t, prefix, rows, m, f, m');
  }

  lemma FilesCarryOver(t: Tables, prefix: string, rows: set<nat>, m: multiset<DirChild>, f: nat, m': multiset<DirChild>)
    requires IsListing(t, prefix, rows, m) && !IsFileHere(t, prefix, f)
    requires forall c: DirChild | c.File? :: c in m' <==> c in m
    ensures forall g | g in rows + {f} && IsFileHere(t, prefix, g) :: exists c :: c in m' && c.File? && c.id == g
  {
  }

  lemma ListsNewFile(t: Tables, prefix: string, rows: set<nat>, m: multiset<DirChild>, c: DirChild)
    requires IsListing(t, prefix, rows, m) && c.File? && c.id !in rows
    requires IsFileHere(t, prefix, c.id) && Faithful(t, prefix, c)
    ensures IsListing(t, prefix, rows + {c.id}, m + multiset{c})
  {
    hide Faithful;
    assert c !in m;
    SameDirs(t, prefix, rows, c.id);
    NewFileIsThere(t, prefix, rows, m, c);
    hide IsDirHere, IsFileHere;
  }

  /** A row that is a file here adds no directory. */
  lemma SameDirs(t: Tables, prefix: string, rows: set<nat>, f: nat)
    requires IsFileHere(t, prefix, f)
    ensures forall d :: IsDirHere(t, prefix, rows + {f}, d) <==> IsDirHere(t, prefix, rows, d)
  {
  }

  lemma NewFileIsThere(t: Tables, prefix: string, rows: set<nat>, m: multiset<DirChild>, c: DirChild)
    requires IsListing(t, prefix, rows, m) && c.File?
    ensures forall g | g in rows + {c.id} && IsFileHere(t, prefix, g) ::
      exists e :: e in m + multiset{c} && e.File? && e.id == g
  {
  }

  lemma {:induction false} HeadIsSegment(s: string)
    ensures '/' !in Head(s) && Head(s) <= s
    ensures '/' in s ==> Head(s) + "/" <= s
    ensures '/' !in s ==> Head(s) == s
  {
    if s != "" && s[0] != '/' {
      HeadIsSegment(s[1..]);
    }
  }

  /** SELECT ... ORDER BY encrypted_at DESC LIMIT 1, once for the size and once for the time. */
  method FileChild(db: Database, prefix: string, f: nat) returns (c: DirChild)
    requires IsFileHere(db.State(), prefix, f)
    ensures c.File? && c.id == f && Faithful(db.State(), prefix, c)
  {
    var size, mtime := 0, 0;
    if db.RowsOf(f) != {} {
      var v := db.LatestVersion(f);
      size := db.versions[v].size;
      v := db.LatestVersion(f);
      mtime := db.versions[v].mtime;
    }
    c := File(db.files[f].display[|prefix|..], f, db.files[f].display, size, mtime);
  }

  /**
    ListDirectChildren. None stands for the slice out of range that a selected path shorter than the
    prefix runs into.
   */
  method ListDirectChildren(db: Database, prefix: string) returns (r: Option<seq<DirChild>>)
    ensures r.None? <==> exists f :: f in Selected(db.State(), prefix) && |db.files[f].display| < |prefix|
    ensures r.Some? ==>
      DirectoriesFirst(r.value) && IsListing(db.State(), prefix, Selected(db.State(), prefix), multiset(r.value))
  {
    hide *;
    ghost var t := db.State();
    var rows := SelectLive(db, prefix);
    var left := rows;
    var seenDirs: set<string> := {};
    var children: seq<DirChild> := [];
    ghost var done: set<nat> := {};
    ListsNothing(t, prefix);
    while left != {}
      invariant left <= rows && done == rows - left
      invariant forall f | f in done :: |db.files[f].display| >= |prefix|
      invariant IsListing(t, prefix, done, multiset(children))
      invariant forall d :: d in seenDirs <==> Dir(d) in children
      decreases left
    {
      var f :| f in left;
      if |db.files[f].display| < |prefix| {
        return None;
      }
      var added;
      added, seenDirs := OneRow(db, prefix, f, children, seenDirs, done);
      ghost var before := children;
      children := children + added;
      left, done := left - {f}, done + {f};
      assert multiset(before + added) == multiset(children);
    }
    assert done == rows;
    children := SortChildren(children);
    SortedIff(children);
    r := Some(children);
  }

  method SelectLive(db: Database, prefix: string) returns (rows: set<nat>)
    ensures rows == Selected(db.State(), prefix) && rows <= db.files.Keys
  {
    rows := set f | f in db.files && db.files[f].deletedAt.None?
      && (prefix == "" || Like(prefix + "%", db.files[f].display));
  }

  /** What one row adds to the children found so far. */
  method OneRow(db: Database, prefix: string, f: nat, children: seq<DirChild>, seen: set<string>, ghost done: set<nat>)
    returns (added: seq<DirChild>, seenDirs: set<string>)
    requires f in db.files && |prefix| <= |db.files[f].display| && f !in done
    requires IsListing(db.State(), prefix, done, multiset(children)) && forall d :: d in seen <==> Dir(d) in children
    ensures IsListing(db.State(), prefix, done + {f}, multiset(children + added))
    ensures forall d :: d in seenDirs <==> Dir(d) in children + added
  {
    ghost var t := db.State();
    hide IsListing, Like, Faithful, Head, IsDirHere;
    added, seenDirs := [], seen;
    assert children + [] == children;
    var rest := db.files[f].display[|prefix|..];
    HeadIsSegment(rest);
    if rest == "" {
      ListsSkipped(t, prefix, done, multiset(children), f);
    } else if '/' in rest {
      var dirName := Head(rest);
      if dirName != "" && dirName !in seenDirs {
        ListsNewDir(t, prefix, done, multiset(children), f, dirName);
        added, seenDirs := [Dir(dirName)], seenDirs + {dirName};
        MultisetOfMore(children, Dir(dirName));
      } else {
        ListsSkipped(t, prefix, done, multiset(children), f);
      }
    } else {
      var child := FileChild(db, prefix, f);
      ListsNewFile(t, prefix, done, multiset(children), child);
      added := [child];
      MultisetOfMore(children, child);
    }
  }

  lemma MultisetOfMore(children: seq<DirChild>, c: DirChild)
    ensures multiset(children + [c]) == multiset(children) + multiset{c}
  {
  }

  // ---------- The whole tree ----------

  function Front(ds: seq<string>): seq<string>
    requires ds != []
  {
    ds[..|ds| - 1]
  }

  function Last(ds: seq<string>): string
    requires ds != []
  {
    ds[|ds| - 1]
  }

  /** The prefix that opening these directories one after the other leads to. */
  function PrefixOf(ds: seq<string>): string
    decreases |ds|
  {
    if ds == [] then "" else PrefixOf(Front(ds)) + (Last(ds) + "/")
  }

  /** From the top, each of these directories is listed under the ones before it. */
  ghost predicate Opens(t: Tables, ds: seq<string>)
    decreases |ds|
  {
    ds != [] ==>
      && Opens(t, Front(ds))
      && IsDirHere(t, PrefixOf(Front(ds)), Selected(t, PrefixOf(Front(ds))), Last(ds))
  }

  /** The file is listed under these directories. */
  ghost predicate IsReached(t: Tables, ds: seq<string>, f: nat) {
    Opens(t, ds) && f in Selected(t, PrefixOf(ds)) && IsFileHere(t, PrefixOf(ds), f)
  }

  predicate IsLive(t: Tables, f: nat) {
    f in t.files && t.files[f].deletedAt.None?
  }

  /** On the directory prefixes of live display paths LIKE selects no live path that does not start with them. */
  ghost predicate LikeIsLiteralOnDirs(t: Tables) {
    forall f, g, p: string | IsLive(t, f) && IsLive(t, g) && p + "/" <= t.files[f].display
      && Like(p + "/" + "%", t.files[g].display) :: p + "/" <= t.files[g].display
  }

  /** No piece between the slashes of a display path is empty. */
  predicate NoEmptySegments(display: string) {
    "" !in Split(display)
  }

  predicate Plain(ds: seq<string>) {
    forall i | 0 <= i < |ds| :: ds[i] != "" && '/' !in ds[i]
  }

  lemma PlainFront(ds: seq<string>)
    requires ds != [] && Plain(ds)
    ensures Plain(Front(ds)) && '/' !in Last(ds)
  {
  }

  lemma PrefixOfUnfolds(ds: seq<string>)
    requires ds != []
    ensures PrefixOf(ds) == PrefixOf(Front(ds)) + (Last(ds) + "/")
  {
  }

  lemma PrefixEndsInSlash(ds: seq<string>)
    ensures PrefixOf(ds) != "" ==> PrefixOf(ds)[|PrefixOf(ds)| - 1] == '/'
  {
  }

  lemma OpensUnfolds(t: Tables, ds: seq<string>)
    requires ds != []
    ensures Opens(t, ds) <==>
      Opens(t, Front(ds)) && IsDirHere(t, PrefixOf(Front(ds)), Selected(t, PrefixOf(Front(ds))), Last(ds))
  {
  }

  lemma {:induction false} SplitUnderPrefix(ds: seq<string>, rest: string)
    requires Plain(ds)
    ensures Split(PrefixOf(ds) + rest) == ds + Split(rest)
    decreases |ds|
  {
    if ds == [] {
      assert "" + rest == rest;
    } else {
      var front, d := Front(ds), Last(ds);
      PlainFront(ds);
      PrefixOfUnfolds(ds);
      SplitAtSlash(d, rest);
      SplitOfSegment(d);
      hide *;
      SplitUnderPrefix(front, d + "/" + rest);
      Regroup(PrefixOf(front), d + "/", rest);
      FrontAndLast(ds);
      Regroup(front, [d], Split(rest));
    }
  }

  lemma FrontAndLast(ds: seq<string>)
    requires ds != []
    ensures ds == Front(ds) + [Last(ds)] && |Front(ds)| < |ds|
  {
  }

  lemma {:induction false} PrefixOfMore(d: string, ds: seq<string>)
    ensures PrefixOf([d] + ds) == d + "/" + PrefixOf(ds)
    decreases |ds|
  {
    var all := [d] + ds;
    if ds == [] {
      assert Front(all) == [] && Last(all) == d;
    } else {
      assert Front(all) == [d] + Front(ds) && Last(all) == Last(ds);
      PrefixOfMore(d, Front(ds));
    }
  }

  /** A display path read as the directories to open and the name to find there. */
  lemma {:induction false} PathIsPrefixAndName(display: string)
    ensures display == PrefixOf(Front(Split(display))) + Last(Split(display))
  {
    HeadIsSegment(display);
    var d := Head(display);
    SplitOfSegment(d);
    if '/' in display {
      var rest := display[|d| + 1..];
      assert display == d + "/" + rest;
      SplitAtSlash(d, rest);
      PathIsPrefixAndName(rest);
      PrefixOfMore(d, Front(Split(rest)));
      assert Front(Split(display)) == [d] + Front(Split(rest));
    }
  }

  lemma {:induction false} HeadOf(d: string, rest: string)
    requires '/' !in d
    ensures Head(d + "/" + rest) == d
  {
    var s := d + "/" + rest;
    if d != "" {
      assert d[0] in d;
      assert s[1..] == d[1..] + "/" + rest;
      HeadOf(d[1..], rest);
    }
  }

  /** Some live path begins with this prefix. */
  ghost predicate BeginsALivePath(t: Tables, prefix: string) {
    exists f :: IsLive(t, f) && prefix <= t.files[f].display
  }

  /** The prefix of opened directories begins a live path, and they are plain names. */
  lemma {:induction false} OpenedIsDirPrefix(t: Tables, ds: seq<string>)
    requires Opens(t, ds) && LikeIsLiteralOnDirs(t)
    ensures Plain(ds) && (ds != [] ==> BeginsALivePath(t, PrefixOf(ds)))
    decreases |ds|
  {
    if ds != [] {
      OpensUnfolds(t, ds);
      hide Opens, LikeIsLiteralOnDirs, BeginsALivePath, PrefixOf, Selected, IsDirHere, Plain, Last;
      OpenedIsDirPrefix(t, Front(ds));
      OpenOneMore(t, ds);
      PlainMore(ds);
    }
  }

  lemma PlainMore(ds: seq<string>)
    requires ds != [] && Plain(Front(ds)) && Last(ds) != "" && '/' !in Last(ds)
    ensures Plain(ds)
  {
  }

  lemma OpenOneMore(t: Tables, ds: seq<string>)
    requires ds != [] && LikeIsLiteralOnDirs(t) && (Front(ds) != [] ==> BeginsALivePath(t, PrefixOf(Front(ds))))
    requires IsDirHere(t, PrefixOf(Front(ds)), Selected(t, PrefixOf(Front(ds))), Last(ds))
    ensures BeginsALivePath(t, PrefixOf(ds)) && Last(ds) != "" && '/' !in Last(ds)
  {
    hide LikeIsLiteralOnDirs, PrefixOf, Selected, Head, Like;
    var prefix, d := PrefixOf(Front(ds)), Last(ds);
    var f :| f in Selected(t, prefix) && IsBelow(t, prefix, f, d);
    SelectedStarts(t, Front(ds), f);
    var rest := Rest(t, prefix, f);
    HeadIsSegment(rest);
    PrefixOfUnfolds(ds);
    StillPrefix(prefix, d + "/", rest);
  }

  lemma StillPrefix(a: string, b: string, c: string)
    requires b <= c
    ensures a + b <= a + c
  {
  }

  /** Under opened directories the query selects by starting with their prefix. */
  lemma SelectedStarts(t: Tables, ds: seq<string>, g: nat)
    requires LikeIsLiteralOnDirs(t) && (ds != [] ==> BeginsALivePath(t, PrefixOf(ds)))
    ensures g in Selected(t, PrefixOf(ds)) <==> IsLive(t, g) && PrefixOf(ds) <= t.files[g].display
  {
    hide Like;
    if ds != [] && IsLive(t, g) {
      var p := PrefixOf(Front(ds)) + Last(ds);
      assert PrefixOf(ds) == p + "/";
      hide PrefixOf;
      if PrefixOf(ds) <= t.files[g].display {
        DirPrefixIsLike(PrefixOf(ds), t.files[g].display);
      }
    }
  }

  /** Opening the directories of a live path, all of them named, works at every level. */
  lemma {:induction false} DirsOpen(t: Tables, f: nat, ds: seq<string>, name: string)
    requires IsLive(t, f) && t.files[f].display == PrefixOf(ds) + name && Plain(ds)
    ensures Opens(t, ds)
    decreases |ds|
  {
    if ds != [] {
      var prefix, d := PrefixOf(Front(ds)), Last(ds);
      var rest := d + "/" + name;
      PrefixOfUnfolds(ds);
      OpensUnfolds(t, ds);
      hide Opens, PrefixOf, Like;
      assert PrefixOf(ds) + name == prefix + rest;
      DirsOpen(t, f, Front(ds), rest);
      PrefixEndsInSlash(Front(ds));
      assert IsDirHere(t, prefix, Selected(t, prefix), d) by {
        DirPrefixIsLike(prefix, t.files[f].display);
        HeadOf(d, name);
        assert Rest(t, prefix, f) == rest;
        assert rest[|d|] == '/';
        assert f in Selected(t, prefix) && IsBelow(t, prefix, f, d);
      }
    }
  }

  lemma PlaceOfName(ds: seq<string>, name: string)
    requires Plain(ds) && name != "" && '/' !in name
    ensures NoEmptySegments(PrefixOf(ds) + name) && ds == Front(Split(PrefixOf(ds) + name))
  {
    SplitUnderPrefix(ds, name);
    SplitOfSegment(name);
    hide Split, PrefixOf;
  }

  /** Listed under directories its path begins with, a file is in the place its path names. */
  lemma OwnPlace(t: Tables, ds: seq<string>, f: nat)
    requires IsReached(t, ds, f) && Plain(ds) && PrefixOf(ds) <= t.files[f].display
    ensures NoEmptySegments(t.files[f].display) && ds == Front(Split(t.files[f].display))
  {
    var name := Rest(t, PrefixOf(ds), f);
    assert t.files[f].display == PrefixOf(ds) + name;
    hide Split, PrefixOf, Opens, Like, Plain, Front, NoEmptySegments;
    PlaceOfName(ds, name);
  }

  /**
    Opening every directory from the top down lists a live file in one place at most: under the
    directories its display path names.
   */
  lemma ReachedOnce(t: Tables, ds: seq<string>, f: nat)
    requires LikeIsLiteralOnDirs(t) && IsReached(t, ds, f)
    ensures IsLive(t, f) && NoEmptySegments(t.files[f].display)
    ensures ds == Front(Split(t.files[f].display))
  {
    hide Split, PrefixOf, Opens, Like, LikeIsLiteralOnDirs, Plain, NoEmptySegments, Front;
    OpenedIsDirPrefix(t, ds);
    SelectedStarts(t, ds, f);
    OwnPlace(t, ds, f);
  }

  /** And it lists it, unless some piece of the path is empty: directories without a name are skipped. */
  lemma ReachedIff(t: Tables, f: nat)
    requires LikeIsLiteralOnDirs(t) && IsLive(t, f)
    ensures (exists ds :: IsReached(t, ds, f)) <==> NoEmptySegments(t.files[f].display)
  {
    if ds :| IsReached(t, ds, f) {
      ReachedOnce(t, ds, f);
    }
    if NoEmptySegments(t.files[f].display) {
      NamedIsReached(t, f);
    }
  }

  lemma NamedIsReached(t: Tables, f: nat)
    requires IsLive(t, f) && NoEmptySegments(t.files[f].display)
    ensures IsReached(t, Front(Split(t.files[f].display)), f)
  {
    var display := t.files[f].display;
    var parts := Split(display);
    var ds, name := Front(parts), Last(parts);
    PathIsPrefixAndName(display);
    PiecesHaveNoSlash(display);
    assert forall i | 0 <= i < |parts| :: parts[i] in parts;
    DirsOpen(t, f, ds, name);
    PrefixEndsInSlash(ds);
    DirPrefixIsLike(PrefixOf(ds), display);
    hide Split, PrefixOf, Opens, Like;
    assert Rest(t, PrefixOf(ds), f) == name;
  }

  // ---------- Files listed in two places ----------

  ghost predicate IsReachedTwice(t: Tables, f: nat) {
    exists ds, ds' :: ds != ds' && IsReached(t, ds, f) && IsReached(t, ds', f)
  }

  /** What no display path on record has: a percent sign or a piece without a name. */
  ghost predicate PathsAreOrdinary(t: Tables) {
    forall f | IsLive(t, f) :: '%' !in t.files[f].display && NoEmptySegments(t.files[f].display)
  }

  lemma {:induction false} PrefixOfAppend(ds: seq<string>, es: seq<string>)
    ensures PrefixOf(ds + es) == PrefixOf(ds) + PrefixOf(es)
    decreases |es|
  {
    if es == [] {
      assert ds + es == ds;
    } else {
      PrefixOfUnfolds(ds + es);
      PrefixOfUnfolds(es);
      hide PrefixOf;
      assert Front(ds + es) == ds + Front(es) && Last(ds + es) == Last(es);
      PrefixOfAppend(ds, Front(es));
      Regroup(PrefixOf(ds), PrefixOf(Front(es)), Last(es) + "/");
    }
  }

  /** The directories a path up to a slash names. */
  lemma PrefixOfSplit(p: string)
    ensures PrefixOf(Split(p)) == p + "/"
  {
    PathIsPrefixAndName(p);
    PrefixOfUnfolds(Split(p));
  }

  lemma PiecesArePlain(p: string, rest: string)
    requires NoEmptySegments(p + "/" + rest)
    ensures Plain(Split(p)) && NoEmptySegments(rest)
  {
    SplitAtSlash(p, rest);
    PiecesHaveNoSlash(p);
    hide Split;
    forall i | 0 <= i < |Split(p)|
      ensures Split(p)[i] != ""
    {
      assert Split(p)[i] in Split(p) + Split(rest);
    }
  }

  /** The display path of f passes for the prefix of these directories byte for byte, and goes on with rest. */
  predicate LooksUnder(t: Tables, ds: seq<string>, f: nat, rest: string) {
    && IsLive(t, f) && Aligned(PrefixOf(ds), t.files[f].display)
    && |PrefixOf(ds)| <= |t.files[f].display| && t.files[f].display[|PrefixOf(ds)|..] == rest
  }

  lemma LooksSelected(t: Tables, ds: seq<string>, f: nat, rest: string)
    requires LooksUnder(t, ds, f, rest)
    ensures f in Selected(t, PrefixOf(ds)) && Rest(t, PrefixOf(ds), f) == rest
  {
    PassingIsLike(PrefixOf(ds), t.files[f].display);
    hide PrefixOf, Like;
  }

  /** A path without empty pieces that goes on below its first one. */
  lemma FirstPiece(rest: string) returns (more: string)
    requires '/' in rest && NoEmptySegments(rest)
    ensures var d := Head(rest);
      && rest == d + "/" + more && d != "" && |more| < |rest|
      && NoEmptySegments(more) && Split(rest) == [d] + Split(more)
  {
    var d := Head(rest);
    HeadIsSegment(rest);
    more := rest[|d| + 1..];
    assert rest == d + "/" + more;
    hide Head;
    SplitOfSegment(d);
    SplitAtSlash(d, more);
    assert d in Split(rest);
    PiecesArePlain(d, more);
  }

  /** A file that is selected under opened directories is listed there or further down. */
  lemma {:induction false} ReachedBelow(t: Tables, ds: seq<string>, f: nat, rest: string)
    requires Opens(t, ds) && LooksUnder(t, ds, f, rest) && NoEmptySegments(rest)
    ensures IsReached(t, ds + Front(Split(rest)), f)
    decreases |rest|
  {
    LooksSelected(t, ds, f, rest);
    hide PrefixOf, Aligned, Opens, Selected, LooksUnder, Plain, Head;
    if '/' in rest {
      var d := Head(rest);
      var more := FirstPiece(rest);
      OpenOneBelow(t, ds, d, f, more);
      ReachedBelow(t, ds + [d], f, more);
      hide *;
      FrontOfMore(d, Split(more));
      Regroup(ds, [d], Front(Split(more)));
    } else {
      SplitOfSegment(rest);
      assert rest in Split(rest);
      assert ds + Front(Split(rest)) == ds;
    }
  }

  lemma FrontOfMore(d: string, es: seq<string>)
    requires es != []
    ensures Front([d] + es) == [d] + Front(es)
  {
  }

  lemma OpenOneBelow(t: Tables, ds: seq<string>, d: string, f: nat, more: string)
    requires Opens(t, ds) && LooksUnder(t, ds, f, d + "/" + more)
    requires f in Selected(t, PrefixOf(ds)) && IsBelow(t, PrefixOf(ds), f, d)
    ensures Opens(t, ds + [d]) && LooksUnder(t, ds + [d], f, more)
  {
    assert Front(ds + [d]) == ds && Last(ds + [d]) == d;
    OpensUnfolds(t, ds + [d]);
    PrefixOfUnfolds(ds + [d]);
    PrefixEndsInSlash(ds);
    hide Opens, PrefixOf, Head, Selected, IsBelow, Aligned;
    AlignedFurther(PrefixOf(ds), d + "/", more, t.files[f].display);
  }

  /** What is aligned with a directory prefix goes on after a slash, with named pieces. */
  lemma AlignedLooksUnder(t: Tables, ds: seq<string>, g: nat)
    requires ds != [] && IsLive(t, g) && NoEmptySegments(t.files[g].display)
    requires Aligned(PrefixOf(ds), t.files[g].display)
    ensures |PrefixOf(ds)| <= |t.files[g].display| && NoEmptySegments(t.files[g].display[|PrefixOf(ds)|..])
    ensures LooksUnder(t, ds, g, t.files[g].display[|PrefixOf(ds)|..])
  {
    var prefix, display := PrefixOf(ds), t.files[g].display;
    var p := PrefixOf(Front(ds)) + Last(ds);
    assert prefix == p + "/";
    hide PrefixOf, NoEmptySegments;
    AlignedRest(prefix, display);
    AlignedAfterSlash(p, display);
    PiecesArePlain(display[..|p|], display[|p| + 1..]);
  }

  lemma PlacesDiffer(ds: seq<string>, es: seq<string>, own: seq<string>, display: string)
    requires PrefixOf(own) <= display && !(PrefixOf(ds) <= display)
    ensures ds + es != own
  {
    PrefixOfAppend(ds, es);
    hide PrefixOf;
  }

  /**
    Opened directories whose prefix LIKE takes, byte for byte, for the beginning of a path that does
    not begin with it.
   */
  ghost predicate Mistakes(t: Tables, ds: seq<string>, g: nat) {
    Opens(t, ds) && IsLive(t, g) && Aligned(PrefixOf(ds), t.files[g].display) && !(PrefixOf(ds) <= t.files[g].display)
  }

  /** The file is listed under the directories of its own path and again under these. */
  lemma MistakenIsReachedTwice(t: Tables, ds: seq<string>, g: nat)
    requires Mistakes(t, ds, g) && NoEmptySegments(t.files[g].display)
    ensures IsReachedTwice(t, g)
  {
    var display := t.files[g].display;
    NoPrefix();
    assert ds != [];
    hide Split, Opens, Aligned, PrefixOf, IsReached, Front, NoEmptySegments, LooksUnder;
    AlignedLooksUnder(t, ds, g);
    var rest := display[|PrefixOf(ds)|..];
    ReachedBelow(t, ds, g, rest);
    NamedIsReached(t, g);
    PathIsPrefixAndName(display);
    PlacesDiffer(ds, Front(Split(rest)), Front(Split(display)), display);
  }

  /** No opened directory has a percent sign in its name, and each has a name without a slash. */
  lemma {:induction false} OpenedIsOrdinary(t: Tables, ds: seq<string>)
    requires Opens(t, ds) && PathsAreOrdinary(t)
    ensures Plain(ds) && '%' !in PrefixOf(ds)
    decreases |ds|
  {
    if ds == [] {
      NoPrefix();
    } else {
      OpensUnfolds(t, ds);
      PrefixOfUnfolds(ds);
      hide Opens, PrefixOf, Plain, Last, IsDirHere, PathsAreOrdinary;
      OpenedIsOrdinary(t, Front(ds));
      ListedDirIsOrdinary(t, PrefixOf(Front(ds)), Last(ds));
      PlainMore(ds);
    }
  }

  lemma ListedDirIsOrdinary(t: Tables, prefix: string, d: string)
    requires PathsAreOrdinary(t) && IsDirHere(t, prefix, Selected(t, prefix), d)
    ensures d != "" && '/' !in d && '%' !in d
  {
    hide Like, NoEmptySegments;
    var f :| f in Selected(t, prefix) && IsBelow(t, prefix, f, d);
    assert IsLive(t, f);
    var rest := Rest(t, prefix, f);
    HeadIsSegment(rest);
    assert forall i | 0 <= i < |d| :: d[i] == rest[i] == t.files[f].display[|prefix| + i];
  }

  /** Where a file is listed its path is aligned: else a slash of it would still be to come. */
  lemma ReachedIsAligned(t: Tables, ds: seq<string>, f: nat)
    requires IsReached(t, ds, f) && '%' !in PrefixOf(ds)
    ensures Aligned(PrefixOf(ds), t.files[f].display)
  {
    if ds == [] {
      NoPrefix();
      assert Characters("") == [];
    } else {
      var p := PrefixOf(Front(ds)) + Last(ds);
      PrefixOfUnfolds(ds);
      assert PrefixOf(ds) == p + "/";
      hide PrefixOf, Opens, Like, Aligned;
      SelectedIsAlignedOrGoesOn(p, t.files[f].display);
    }
  }

  lemma ListedElsewhereIsMistake(t: Tables, ds: seq<string>, f: nat)
    requires PathsAreOrdinary(t) && IsReached(t, ds, f) && ds != Front(Split(t.files[f].display))
    ensures Mistakes(t, ds, f)
  {
    hide Split, PrefixOf, Opens, Like, Plain, Front, Aligned, PathsAreOrdinary;
    OpenedIsOrdinary(t, ds);
    ReachedIsAligned(t, ds, f);
    if PrefixOf(ds) <= t.files[f].display {
      OwnPlace(t, ds, f);
    }
  }

  /**
    Where paths are ordinary, some file is listed in two places exactly when LIKE takes the prefix of
    directories that can be opened, byte for byte, for the beginning of a path that does not begin with it.
   */
  lemma ReachedTwiceIff(t: Tables)
    requires PathsAreOrdinary(t)
    ensures (exists f :: IsReachedTwice(t, f)) <==> exists ds, g :: Mistakes(t, ds, g)
  {
    if f :| IsReachedTwice(t, f) {
      var ds, ds' :| ds != ds' && IsReached(t, ds, f) && IsReached(t, ds', f);
      hide IsReached, Mistakes, PathsAreOrdinary, Split, Front;
      var other := if ds == Front(Split(t.files[f].display)) then ds' else ds;
      ListedElsewhereIsMistake(t, other, f);
    }
    if ds, g :| Mistakes(t, ds, g) {
      MistakenIsReachedTwice(t, ds, g);
    }
  }

  /** Where LIKE selects by a directory of a live path, it takes characters of as many bytes. */
  ghost predicate SelectionsAreAligned(t: Tables) {
    forall f, g, p: string | IsLive(t, f) && IsLive(t, g) && p + "/" <= t.files[f].display
      && Like(p + "/" + "%", t.files[g].display) :: Aligned(p + "/", t.files[g].display)
  }

  /** p is a directory of f's path, LIKE takes it for the beginning of g's path, and it is not. */
  ghost predicate TakenFor(t: Tables, f: nat, g: nat, p: string) {
    IsLive(t, f) && IsLive(t, g) && p + "/" <= t.files[f].display
    && Like(p + "/" + "%", t.files[g].display) && !(p + "/" <= t.files[g].display)
  }

  lemma TakenIsMistake(t: Tables, f: nat, g: nat, p: string)
    requires PathsAreOrdinary(t) && SelectionsAreAligned(t) && TakenFor(t, f, g, p)
    ensures Mistakes(t, Split(p), g)
  {
    var name := t.files[f].display[|p| + 1..];
    assert t.files[f].display == p + "/" + name;
    assert Aligned(p + "/", t.files[g].display);
    hide Like, Aligned, Opens, Split, PrefixOf, Plain, SelectionsAreAligned;
    PrefixOfSplit(p);
    PiecesArePlain(p, name);
    DirsOpen(t, f, Split(p), name);
  }

  /** Then the directories of the live paths decide. */
  lemma AlignedIsReachedTwiceIff(t: Tables)
    requires PathsAreOrdinary(t) && SelectionsAreAligned(t)
    ensures (exists f :: IsReachedTwice(t, f)) <==> !LikeIsLiteralOnDirs(t)
  {
    if LikeIsLiteralOnDirs(t) {
      hide IsReached, LikeIsLiteralOnDirs, Split, Front;
      forall f
        ensures !IsReachedTwice(t, f)
      {
        if ds, ds' :| ds != ds' && IsReached(t, ds, f) && IsReached(t, ds', f) {
          ReachedOnce(t, ds, f);
          ReachedOnce(t, ds', f);
        }
      }
    } else {
      var f, g, p: string :| IsLive(t, f) && IsLive(t, g) && p + "/" <= t.files[f].display
        && Like(p + "/" + "%", t.files[g].display) && !(p + "/" <= t.files[g].display);
      TakenIsMistake(t, f, g, p);
      hide Mistakes, SelectionsAreAligned, NoEmptySegments, IsReachedTwice, Like;
      MistakenIsReachedTwice(t, Split(p), g);
    }
  }

  /** So they do where no live path has an underscore, and where all live paths are ASCII. */
  lemma WhenSelectionsAreAligned(t: Tables)
    requires PathsAreOrdinary(t)
    requires (forall f | IsLive(t, f) :: '_' !in t.files[f].display)
      || (forall f | IsLive(t, f) :: AllAscii(t.files[f].display))
    ensures SelectionsAreAligned(t)
  {
    hide Like, Aligned, NoEmptySegments;
    forall f, g, p: string | IsLive(t, f) && IsLive(t, g) && p + "/" <= t.files[f].display
      && Like(p + "/" + "%", t.files[g].display)
      ensures Aligned(p + "/", t.files[g].display)
    {
      assert forall i | 0 <= i < |p| + 1 :: (p + "/")[i] == t.files[f].display[i];
      SelectsEvenly(p + "/", t.files[g].display);
    }
  }

  /** A directory at the top lists whatever file LIKE selects under it. */
  lemma ReachedUnder(t: Tables, g: nat, d: string, name: string, f: nat, rest: string)
    requires IsLive(t, g) && t.files[g].display == d + "/" + name && d != "" && '/' !in d
    requires IsLive(t, f) && Like(d + "/" + "%", t.files[f].display)
    requires |t.files[f].display| == |d| + 1 + |rest| && t.files[f].display[|d| + 1..] == rest
    requires rest != "" && '/' !in rest
    ensures IsReached(t, [d], f)
  {
    PrefixOfUnfolds([d]);
    assert Front([d]) == [];
    hide Opens, PrefixOf, Like;
    assert PrefixOf([]) == "" && PrefixOf([d]) == d + "/" by {
      NoPrefix();
    }
    DirsOpen(t, g, [d], name);
  }

  lemma NoPrefix()
    ensures PrefixOf([]) == ""
  {
  }

  function TwoFiles(a: string, b: string): Tables {
    Tables(map[1 := FileRow("1", a, None), 2 := FileRow("2", b, None)], map[], 3, 1)
  }

  lemma BothAreLive(a: string, b: string)
    ensures var t := TwoFiles(a, b);
      IsLive(t, 1) && t.files[1].display == a && IsLive(t, 2) && t.files[2].display == b
  {
  }

  /** With an underscore in a directory's name the same file can be listed in two places. */
  lemma ListedTwice() returns (t: Tables)
    ensures t == TwoFiles("a_/x", "ab/y") && IsReached(t, ["ab"], 2) && IsReached(t, ["a_"], 2)
  {
    t := TwoFiles("a_/x", "ab/y");
    BothAreLive("a_/x", "ab/y");
    UnderscoreTakesLetter();
    hide TwoFiles, IsReached, Like, IsLive;
    assert "a_" + "/" + "x" == "a_/x" && "ab" + "/" + "y" == "ab/y" && "ab/y"[3..] == "y";
    ReachedUnder(t, 2, "ab", "y", 2, "y");
    ReachedUnder(t, 1, "a_", "x", 2, "y");
  }

  lemma UnderscoreTakesLetter()
    ensures Like("ab" + "/" + "%", "ab/y") && Like("a_" + "/" + "%", "ab/y")
  {
    assert "ab" + "/" == "ab/" && "a_" + "/" == "a_/";
    hide Like;
    DirPrefixIsLike("ab/", "ab/y");
    AsciiCharacters("a_/");
    AsciiCharacters("ab/y");
    assert Passes(Singles("a_/"), Singles("ab/y"));
    PassingIsLike("a_/", "ab/y");
  }

  /** With percent signs in a directory's name, opening it runs into a selected path shorter than its prefix. */
  lemma OpeningCanPanic() returns (t: Tables)
    ensures t == TwoFiles("a%%/x", "a/b") && Opens(t, ["a%%"]) && PrefixOf(["a%%"]) == "a%%/"
    ensures 2 in Selected(t, "a%%/") && |t.files[2].display| < |"a%%/"|
  {
    t := TwoFiles("a%%/x", "a/b");
    NoPrefix();
    PrefixOfUnfolds(["a%%"]);
    assert Front(["a%%"]) == [];
    PercentsTakeNothing();
    hide Opens, PrefixOf, Like;
    assert "a%%" + "/" == "a%%/" && "a%%/" + "x" == "a%%/x";
    DirsOpen(t, 1, ["a%%"], "x");
  }

  lemma PercentsTakeNothing()
    ensures Like("a%%/" + "%", "a/b")
  {
    AsciiCharacters("a%%/" + "%");
    AsciiCharacters("a/b");
    assert Singles("a%%/" + "%") == ["a"] + ["%"] + ["%", "/"] + ["%"] && Singles("a/b") == ["a", "/", "b"];
    hide Characters, LikeCharacters;
    PercentsMatchNothing();
  }

  lemma PercentsMatchNothing()
    ensures LikeCharacters(["a"] + ["%"] + ["%", "/"] + ["%"], ["a", "/", "b"])
  {
    var p1, p2, p3, p4 := ["a", "%", "%", "/", "%"], ["%", "%", "/", "%"], ["%", "/", "%"], ["/", "%"];
    var t1, t2 := ["a", "/", "b"], ["/", "b"];
    assert p1 == ["a"] + ["%"] + ["%", "/"] + ["%"];
    assert p1[1..] == p2 && p2[1..] == p3 && p3[1..] == p4 && t1[1..] == t2;
    assert p4 == ["/"] + ["%"];
    PassingMatches(["/"], t2);
    assert LikeCharacters(p3, t2);
    assert LikeCharacters(p2, t2);
  }

  // ---------- An underscore that takes two bytes ----------

  const TWO_BYTES: string := "\U{C3}\U{A9}"

  lemma CharactersWithTwoBytes()
    ensures Characters("a" + TWO_BYTES + "/" + "y") == ["a", TWO_BYTES, "/", "y"]
    ensures Characters("a" + TWO_BYTES + "/") == ["a", TWO_BYTES, "/"]
  {
    OneCharacter('a');
    OneCharacter('y');
    assert TWO_BYTES[1..] == "\U{A9}" && Continuation("\U{A9}") == 1 by {
      assert "\U{A9}"[1..] == "";
    }
    assert Characters(TWO_BYTES) == [TWO_BYTES] by {
      assert TWO_BYTES[..2] == TWO_BYTES && TWO_BYTES[2..] == "";
    }
    CharactersAppend("a", TWO_BYTES);
    AroundAscii("a" + TWO_BYTES, '/', "y");
    AroundAscii("a" + TWO_BYTES, '/', "");
    assert "a" + TWO_BYTES + "/" + "" == "a" + TWO_BYTES + "/";
  }

  /** A directory with an underscore, and one of the same length in characters and not in bytes. */
  function MixedFiles(): Tables {
    TwoFiles("a_" + "/" + "x", "a" + TWO_BYTES + "/" + "y")
  }

  lemma MixedFilesAre()
    ensures var t := MixedFiles();
      && (forall f :: IsLive(t, f) <==> f in {1, 2}) && 1 in t.files && 2 in t.files
      && t.files[1].display == "a_" + "/" + "x" && t.files[2].display == "a" + TWO_BYTES + "/" + "y"
  {
  }

  lemma MixedPathsAreOrdinary()
    ensures PathsAreOrdinary(MixedFiles())
  {
    MixedFilesAre();
    TwoPieces("a_", "x");
    TwoPieces("a" + TWO_BYTES, "y");
    hide MixedFiles, NoEmptySegments, IsLive;
  }

  lemma TwoPieces(d: string, name: string)
    requires d != "" && name != "" && '/' !in d && '/' !in name
    ensures NoEmptySegments(d + "/" + name)
  {
    SplitAtSlash(d, name);
    SplitOfSegment(d);
    SplitOfSegment(name);
  }

  /** What opening the top and the two directories finds. */
  lemma MixedDirs(d: string, e: string)
    ensures IsDirHere(MixedFiles(), "", Selected(MixedFiles(), ""), d) ==> d == "a_" || d == "a" + TWO_BYTES
    ensures e == "a_" || e == "a" + TWO_BYTES ==>
      !IsDirHere(MixedFiles(), e + "/", Selected(MixedFiles(), e + "/"), d)
  {
    var t := MixedFiles();
    MixedFilesAre();
    HeadOf("a_", "x");
    HeadOf("a" + TWO_BYTES, "y");
    hide MixedFiles, Like, Head;
    assert t.files[1].display[0..] == t.files[1].display && t.files[2].display[0..] == t.files[2].display;
    assert t.files[1].display[3..] == "x" && t.files[1].display[4..] == "";
    assert t.files[2].display[3..] == "/y" && t.files[2].display[4..] == "y";
    NoHead();
  }

  lemma NoHead()
    ensures Head("/y") == ""
  {
  }

  lemma NothingBelow(e: string, d: string)
    requires e == "a_" || e == "a" + TWO_BYTES
    ensures !IsDirHere(MixedFiles(), PrefixOf([e]), Selected(MixedFiles(), PrefixOf([e])), d)
  {
    PrefixOfUnfolds([e]);
    NoPrefix();
    assert Front([e]) == [];
    hide PrefixOf, IsDirHere, MixedFiles;
    MixedDirs(d, e);
  }

  lemma OpensFront(t: Tables, ds: seq<string>)
    requires Opens(t, ds) && ds != []
    ensures Opens(t, Front(ds))
  {
  }

  lemma {:induction false} MixedOpens(ds: seq<string>)
    requires Opens(MixedFiles(), ds)
    ensures ds == [] || ds == ["a_"] || ds == ["a" + TWO_BYTES]
    decreases |ds|
  {
    hide Opens, MixedFiles, IsDirHere, PrefixOf;
    if ds != [] {
      var front, d := Front(ds), Last(ds);
      OpensFront(MixedFiles(), ds);
      MixedOpens(front);
      assert ds == front + [d];
      NoPrefix();
      MixedDirs(d, "");
      if front != [] {
        NothingBelow(front[0], d);
        assert front == [front[0]];
      }
      OpensUnfolds(MixedFiles(), ds);
    }
  }

  lemma NoneIsMistaken(ds: seq<string>, g: nat)
    ensures !Mistakes(MixedFiles(), ds, g)
  {
    if Opens(MixedFiles(), ds) && IsLive(MixedFiles(), g) {
      MixedOpens(ds);
      MixedFilesAre();
      NoPrefix();
      if ds != [] {
        PrefixOfUnfolds(ds);
        assert Front(ds) == [];
        assert PrefixOf(ds) == ds[0] + "/";
        NotAligned();
      }
      hide MixedFiles, Opens, Aligned, PrefixOf;
    }
  }

  lemma NotAligned()
    ensures !Aligned("a_" + "/", "a" + TWO_BYTES + "/" + "y")
    ensures !Aligned("a" + TWO_BYTES + "/", "a_" + "/" + "x")
  {
    CharactersWithTwoBytes();
    AsciiCharacters("a_" + "/");
    AsciiCharacters("a_" + "/" + "x");
    var ps, ts := Characters("a" + TWO_BYTES + "/"), Characters("a_" + "/" + "x");
    assert Characters("a_" + "/")[1] == "_" == ts[1];
    assert !SameButCase(ps[1], ts[1]);
  }

  /**
    LIKE takes "a_/" for the beginning of the second path, whose character in that place has two
    bytes, and yet no file is listed in two places.
   */
  lemma NotListedTwice()
    ensures PathsAreOrdinary(MixedFiles()) && !LikeIsLiteralOnDirs(MixedFiles())
    ensures forall f :: !IsReachedTwice(MixedFiles(), f)
  {
    MixedPathsAreOrdinary();
    MixedIsTaken();
    forall ds, g
      ensures !Mistakes(MixedFiles(), ds, g)
    {
      NoneIsMistaken(ds, g);
    }
    ReachedTwiceIff(MixedFiles());
    hide MixedFiles, Mistakes, IsReachedTwice, PathsAreOrdinary;
  }

  lemma MixedIsTaken()
    ensures !LikeIsLiteralOnDirs(MixedFiles())
  {
    var t := MixedFiles();
    MixedFilesAre();
    CharactersWithTwoBytes();
    AsciiCharacters("a_" + "/");
    assert Characters("a_" + "/")[1] == "_";
    hide MixedFiles, Characters, Like;
    PassingIsLike("a_" + "/", t.files[2].display);
    assert !("a_" + "/" <= t.files[2].display) by {
      assert t.files[2].display[1] != '_';
    }
  }
}
