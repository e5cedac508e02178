/** What LIKE selects, place by place, and what a purge or a deletion by prefix takes and leaves. */
module Selection {
  import opened Basics
  import opened Database
  import opened Utf8
  import opened Prefixes
  import opened Protocol
  import opened Backup
  import opened Purge

  /** d is the small letter for the capital c. */
  predicate IsSmallFor(c: char, d: char) {
    'A' <= c <= 'Z' && d as int == c as int + 32
  }

  /** The same byte, or the same ASCII letter in the other case. */
  predicate SameLetter(c: char, d: char) {
    c == d || IsSmallFor(c, d) || IsSmallFor(d, c)
  }

  /** The same character, or the same ASCII letter in the other case. */
  predicate SameCharacter(c: string, d: string) {
    c == d || (|c| == 1 && |d| == 1 && SameLetter(c[0], d[0]))
  }

  /** LIKE takes a character for another only when they are the same, or one letter in its two cases. */
  lemma SameButCaseIff(a: string, b: string)
    ensures SameButCase(a, b) <==> SameCharacter(a, b)
  {
  }

  // ---------- LIKE by positions ----------

  /** The pattern character c takes the characters of the text from i to j. */
  predicate Takes(c: string, text: seq<string>, i: nat, j: nat) {
    if c == "%" then i <= j
    else j == i + 1 && i < |text| && (c == "_" || SameCharacter(c, text[i]))
  }

  /** Each pattern character takes what lies between its place and the next, from k to the end of the text. */
  predicate Fit(pattern: seq<string>, text: seq<string>, k: nat, at: seq<nat>) {
    && |at| == |pattern| + 1 && at[0] == k && at[|pattern|] == |text|
    && forall i | 0 <= i < |pattern| :: Takes(pattern[i], text, at[i], at[i + 1])
  }

  ghost predicate Fits(pattern: seq<string>, text: seq<string>) {
    exists at: seq<nat> :: Fit(pattern, text, 0, at)
  }

  lemma {:induction false} MatchFits(pattern: seq<string>, text: seq<string>, k: nat) returns (at: seq<nat>)
    requires k <= |text| && LikeCharacters(pattern, text[k..])
    ensures Fit(pattern, text, k, at)
    decreases |pattern| + |text| - k
  {
    hide SameButCase, SameCharacter;
    if pattern == [] {
      at := [k];
    } else {
      if pattern[0] == "%" && !LikeCharacters(pattern[1..], text[k..]) {
        assert text[k..][1..] == text[k + 1..];
        var later := MatchFits(pattern, text, k + 1);
        assert Takes(pattern[0], text, k + 1, later[1]);
        at := [k] + later[1..];
      } else {
        assert pattern[0] != "%" ==> text[k..][1..] == text[k + 1..];
        var rest := MatchFits(pattern[1..], text, if pattern[0] == "%" then k else k + 1);
        if pattern[0] != "%" {
          SameButCaseIff(pattern[0], text[k]);
        }
        at := [k] + rest;
        assert forall i | 0 < i < |pattern| :: pattern[i] == pattern[1..][i - 1];
      }
    }
  }

  lemma {:induction false} FitMatches(pattern: seq<string>, text: seq<string>, k: nat, at: seq<nat>)
    requires k <= |text| && Fit(pattern, text, k, at)
    ensures LikeCharacters(pattern, text[k..])
    decreases |pattern| + |text| - k
  {
    hide SameButCase, SameCharacter;
    if pattern != [] {
      assert Takes(pattern[0], text, k, at[1]);
      if pattern[0] == "%" && at[1] > k {
        FitsToTheEnd(pattern[1..], text, at[1], at[1..]);
        FitMatches(pattern, text, k + 1, [k + 1] + at[1..]);
        assert text[k..][1..] == text[k + 1..];
      } else {
        FitMatches(pattern[1..], text, at[1], at[1..]);
        if pattern[0] != "%" {
          SameButCaseIff(pattern[0], text[k]);
          assert text[k..][1..] == text[k + 1..];
        }
      }
    }
  }

  lemma {:induction false} FitsToTheEnd(pattern: seq<string>, text: seq<string>, k: nat, at: seq<nat>)
    requires Fit(pattern, text, k, at)
    ensures k <= |text|
  {
    hide SameCharacter;
    if pattern != [] {
      assert Takes(pattern[0], text, k, at[1]);
      FitsToTheEnd(pattern[1..], text, at[1], at[1..]);
    }
  }

  /**
    LIKE, for any pattern: the text can be cut so that a percent sign takes any stretch, an underscore
    one character, and any other character one that is the same up to ASCII case.
   */
  lemma LikeIff(pattern: string, text: string)
    ensures Like(pattern, text) <==> Fits(Characters(pattern), Characters(text))
  {
    var ps, ts := Characters(pattern), Characters(text);
    assert ts[0..] == ts;
    hide Characters, Fit, LikeCharacters;
    if Like(pattern, text) {
      var at := MatchFits(ps, ts, 0);
      assert Fits(ps, ts);
    }
    if Fits(ps, ts) {
      var at: seq<nat> :| Fit(ps, ts, 0, at);
      FitMatches(ps, ts, 0, at);
    }
  }

  predicate NoWildcards(prefix: string) {
    '%' !in prefix && '_' !in prefix
  }

  predicate EachIsSame(ps: seq<string>, ts: seq<string>) {
    |ps| <= |ts| && forall i | 0 <= i < |ps| :: SameCharacter(ps[i], ts[i])
  }

  /** Each character of the prefix is the one at its place in the text, or its letter in the other case. */
  predicate Begins(prefix: string, text: string) {
    EachIsSame(Characters(prefix), Characters(text))
  }

  lemma NoWildcardCharacters(prefix: string)
    requires NoWildcards(prefix)
    ensures forall i | 0 <= i < |Characters(prefix)| :: !IsWildcard(Characters(prefix)[i])
  {
    forall i | 0 <= i < |Characters(prefix)|
      ensures !IsWildcard(Characters(prefix)[i])
    {
      var c := Characters(prefix)[i];
      BytesAreThere(prefix, c);
      assert c[0] in c;
    }
  }

  /** Without wildcards in the prefix, a text is selected exactly when it begins with it letter by letter. */
  lemma SelectedIff(prefix: string, text: string)
    requires NoWildcards(prefix)
    ensures Like(prefix + "%", text) <==> Begins(prefix, text)
  {
    var ps, ts := Characters(prefix), Characters(text);
    LikeWithoutPercent(prefix, text);
    NoWildcardCharacters(prefix);
    hide Characters, Like, IsWildcard, SameButCase, SameCharacter;
    forall i | 0 <= i < |ps| && i < |ts|
      ensures SameButCase(ps[i], ts[i]) <==> SameCharacter(ps[i], ts[i])
    {
      SameButCaseIff(ps[i], ts[i]);
    }
  }

  /** Each byte of the prefix is the one at its place, or its letter in the other case. */
  predicate BeginsInBytes(prefix: string, text: string) {
    |prefix| <= |text| && forall i | 0 <= i < |prefix| :: SameLetter(prefix[i], text[i])
  }

  /** For an ASCII prefix that is the same byte by byte. */
  lemma AsciiBeginsIff(prefix: string, text: string)
    requires AllAscii(prefix)
    ensures Begins(prefix, text) <==> BeginsInBytes(prefix, text)
  {
    AsciiCharacters(prefix);
    if BeginsInBytes(prefix, text) {
      BytesBegin(prefix, text);
    }
    if Begins(prefix, text) {
      CharactersBegin(prefix, text);
    }
  }

  lemma SameLetterIsAscii(c: char, d: char)
    requires IsAscii(c) && SameLetter(c, d)
    ensures IsAscii(d)
  {
  }

  lemma BytesBegin(prefix: string, text: string)
    requires AllAscii(prefix) && BeginsInBytes(prefix, text)
    ensures Begins(prefix, text)
  {
    var n := |prefix|;
    var start, rest := text[..n], text[n..];
    AsciiCharacters(prefix);
    hide Characters, SameLetter, Singles;
    forall i | 0 <= i < n
      ensures IsAscii(start[i])
    {
      SameLetterIsAscii(prefix[i], text[i]);
    }
    AsciiCharacters(start);
    assert text == start + rest;
    CharactersAppend(start, rest);
    SinglesAreSame(prefix, start, Characters(rest));
  }

  lemma SinglesAreSame(a: string, b: string, more: seq<string>)
    requires BeginsInBytes(a, b)
    ensures EachIsSame(Singles(a), Singles(b) + more)
  {
    hide SameLetter;
    forall i | 0 <= i < |a|
      ensures SameCharacter(Singles(a)[i], (Singles(b) + more)[i])
    {
      assert SameLetter(a[i], b[i]);
    }
  }

  lemma CharactersBegin(prefix: string, text: string)
    requires AllAscii(prefix) && Begins(prefix, text)
    ensures BeginsInBytes(prefix, text)
  {
    var n := |prefix|;
    AsciiCharacters(prefix);
    ReadsOn(text, n);
    hide Characters, SameLetter;
    var ts := Characters(text)[..n];
    forall i | 0 <= i < n
      ensures |ts[i]| == 1 && (ts[i][0] == prefix[i] || SameLetter(prefix[i], ts[i][0]))
    {
      assert SameCharacter(Singles(prefix)[i], Characters(text)[i]);
    }
    JoinedSingles(ts);
    forall i | 0 <= i < n
      ensures i < |text| && SameLetter(prefix[i], text[i])
    {
      SameIsSame(prefix[i]);
      assert Joined(ts)[i] == ts[i][0];
    }
  }

  lemma SameIsSame(c: char)
    ensures SameLetter(c, c)
  {
  }

  lemma {:induction false} JoinedSingles(cs: seq<string>)
    requires forall i | 0 <= i < |cs| :: |cs[i]| == 1
    ensures |Joined(cs)| == |cs| && forall i | 0 <= i < |cs| :: Joined(cs)[i] == cs[i][0]
  {
    if cs != [] {
      JoinedSingles(cs[1..]);
    }
  }

  // ---------- The tables ----------

  /** The files of the tables that the prefix is about. */
  ghost predicate IsUnder(t: Tables, prefix: string, f: nat) {
    f in t.files && (prefix == "" || Begins(prefix, t.files[f].display))
  }

  lemma UnderIff(t: Tables, prefix: string, f: nat)
    requires NoWildcards(prefix)
    ensures f in FilesUnder(t, prefix) <==> IsUnder(t, prefix, f)
  {
    if f in t.files {
      SelectedIff(prefix, t.files[f].display);
    }
    hide Like, Begins;
  }

  /** Every other file stays, with its rows, and what is under the prefix goes, with its rows. */
  ghost predicate OnlyTheOthers(t: Tables, t': Tables, prefix: string) {
    && (forall f :: f in t'.files <==> f in t.files && !IsUnder(t, prefix, f))
    && (forall f | f in t'.files :: t'.files[f] == t.files[f])
    && (forall v :: v in t'.versions <==> v in t.versions && !IsUnder(t, prefix, t.versions[v].file))
    && (forall v | v in t'.versions :: t'.versions[v] == t.versions[v])
  }

  lemma RemovedIs(t: Tables, prefix: string)
    requires NoWildcards(prefix)
    ensures OnlyTheOthers(t, FilesRemoved(t, FilesUnder(t, prefix)), prefix)
  {
    forall f
      ensures f in FilesUnder(t, prefix) <==> IsUnder(t, prefix, f)
    {
      UnderIff(t, prefix, f);
    }
    hide FilesUnder, IsUnder;
  }

  /** The deletion by prefix, without wildcards: what begins with the prefix goes, and nothing else. */
  method DeletePrefix(db: Database, prefix: string, commits: bool) returns (ok: bool)
    requires Sound(db.State()) && NoWildcards(prefix)
    modifies db
    ensures ok <==> commits
    ensures Sound(db.State())
    ensures if ok then OnlyTheOthers(old(db.State()), db.State(), prefix) else db.State() == old(db.State())
  {
    ghost var t := db.State();
    RemovedIs(t, prefix);
    ok := db.DeleteFilesByDisplayPrefix(prefix, commits);
  }

  /** A blob that no row under the prefix has. */
  lemma SparedBlob(t: Tables, prefix: string, blobs: seq<BlobId>, broken: nat -> bool, reached: nat, blob: BlobId)
    requires NoWildcards(prefix) && ListsBlobs(t, Prefix(prefix), blobs) && reached <= |blobs|
    requires forall v | v in t.versions && t.versions[v].blob == blob :: !IsUnder(t, prefix, t.versions[v].file)
    ensures blob !in DeletedBy(blobs, broken, reached)
  {
    if j :| 0 <= j < reached && blobs[j] == blob {
      assert blobs[j] in Listed(t, Prefix(prefix));
      var v :| v in Rows(t, Prefix(prefix)) && t.versions[v].blob == blob;
      UnderIff(t, prefix, t.versions[v].file);
      assert false;
    }
  }

  /** A blob that some row under the prefix has. */
  lemma ListedBlob(t: Tables, prefix: string, blobs: seq<BlobId>, broken: nat -> bool, v: nat)
    requires NoWildcards(prefix) && ListsBlobs(t, Prefix(prefix), blobs)
    requires v in t.versions && IsUnder(t, prefix, t.versions[v].file) && forall j | 0 <= j < |blobs| :: !broken(j)
    ensures t.versions[v].blob in DeletedBy(blobs, broken, |blobs|)
  {
    UnderIff(t, prefix, t.versions[v].file);
    assert v in Rows(t, Prefix(prefix));
    assert t.versions[v].blob in Listed(t, Prefix(prefix));
    var j :| 0 <= j < |blobs| && blobs[j] == t.versions[v].blob;
    assert !broken(j);
  }

  /** No object goes but those of rows under the prefix. */
  ghost predicate SparesOthers(t: Tables, prefix: string, objects: map<BlobId, Bytes>, objects': map<BlobId, Bytes>) {
    && (forall blob | blob in objects' :: blob in objects && objects'[blob] == objects[blob])
    && (forall blob | blob in objects && blob !in objects' ::
          exists v :: v in t.versions && t.versions[v].blob == blob && IsUnder(t, prefix, t.versions[v].file))
  }

  lemma DeletedSparesOthers(t: Tables, prefix: string, blobs: seq<BlobId>, broken: nat -> bool, reached: nat,
                            objects: map<BlobId, Bytes>)
    requires NoWildcards(prefix) && ListsBlobs(t, Prefix(prefix), blobs) && reached <= |blobs|
    ensures SparesOthers(t, prefix, objects, objects - DeletedBy(blobs, broken, reached))
  {
    var objects' := objects - DeletedBy(blobs, broken, reached);
    hide ListsBlobs, IsUnder, NoWildcards, DeletedBy;
    forall blob | blob in objects && blob !in objects'
      ensures exists v :: v in t.versions && t.versions[v].blob == blob && IsUnder(t, prefix, t.versions[v].file)
    {
      if !exists v :: v in t.versions && t.versions[v].blob == blob && IsUnder(t, prefix, t.versions[v].file) {
        SparedBlob(t, prefix, blobs, broken, reached, blob);
      }
    }
  }

  ghost predicate NoneLeft(t: Tables, prefix: string, objects: map<BlobId, Bytes>) {
    forall v | v in t.versions && IsUnder(t, prefix, t.versions[v].file) :: t.versions[v].blob !in objects
  }

  lemma DeletedAll(t: Tables, prefix: string, blobs: seq<BlobId>, broken: nat -> bool, objects: map<BlobId, Bytes>)
    requires NoWildcards(prefix) && ListsBlobs(t, Prefix(prefix), blobs) && Breaks(broken, |blobs|) == 0
    ensures NoneLeft(t, prefix, objects - DeletedBy(blobs, broken, |blobs|))
  {
    NoneBroke(broken, |blobs|);
    hide ListsBlobs, IsUnder, NoWildcards, DeletedBy, Breaks;
    forall v | v in t.versions && IsUnder(t, prefix, t.versions[v].file)
      ensures t.versions[v].blob !in objects - DeletedBy(blobs, broken, |blobs|)
    {
      ListedBlob(t, prefix, blobs, broken, v);
    }
  }

  /**
    The purge by prefix, without wildcards and however it ends: no object goes but those of rows under
    the prefix, and no row but those. When it completes they have all gone.
   */
  method PurgePrefix(db: Database, remote: RemoteStore, prefix: string, w: PurgeWeather)
    returns (result: PurgeResult, ending: Ending)
    requires Sound(db.State()) && NoWildcards(prefix)
    modifies db, remote
    ensures SparesOthers(old(db.State()), prefix, old(remote.objects), remote.objects)
    ensures if ending == Complete || ending == WithErrors then OnlyTheOthers(old(db.State()), db.State(), prefix)
            else db.State() == old(db.State())
    ensures ending == Complete ==> NoneLeft(old(db.State()), prefix, remote.objects)
  {
    hide *;
    ghost var t, objects := db.State(), remote.objects;
    ghost var blobs, reached;
    RemovedIs(t, prefix);
    result, ending, blobs, reached := PurgeByPrefixWithReport(db, remote, prefix, w);
    DeletedSparesOthers(t, prefix, blobs, w.broken, reached, objects);
    if ending == Complete {
      DeletedAll(t, prefix, blobs, w.broken, objects);
    }
  }

  lemma NoneBroke(broken: nat -> bool, n: nat)
    requires Breaks(broken, n) == 0
    ensures forall j | 0 <= j < n :: !broken(j)
  {
    var s := set i | 0 <= i < n && broken(i);
    assert Breaks(broken, n) == |s|;
    assert s == {};
    forall j | 0 <= j < n
      ensures !broken(j)
    {
      assert j !in s;
    }
  }

  // ---------- One letter ----------

  /** A file whose path differs from the prefix in one letter, not only in its case, is not purged. */
  lemma OtherLetterStays(prefix: string, display: string, i: nat)
    requires AllAscii(prefix) && NoWildcards(prefix)
    requires i < |prefix| && (|display| <= i || !SameLetter(prefix[i], display[i]))
    ensures !Like(prefix + "%", display)
  {
    SelectedIff(prefix, display);
    AsciiBeginsIff(prefix, display);
  }
}
