/** What selecting files by LIKE 'prefix%' selects, compared with starting with the prefix. */
module Prefixes {
  import opened Basics
  import opened Database
  import opened Utf8

  predicate IsWildcard(c: string) {
    c == "%" || c == "_"
  }

  /** Each character of text passes for the one at the same place in the prefix. */
  predicate Passes(prefix: seq<string>, text: seq<string>) {
    && |prefix| <= |text|
    && forall i | 0 <= i < |prefix| :: IsWildcard(prefix[i]) || SameButCase(prefix[i], text[i])
  }

  lemma LikeReads(prefix: string, text: string)
    ensures Like(prefix + "%", text) <==> LikeCharacters(Characters(prefix) + ["%"], Characters(text))
  {
    CharactersAppend(prefix, "%");
    OneCharacter('%');
  }

  lemma {:induction false} AnythingGoes(text: seq<string>)
    ensures LikeCharacters(["%"], text)
  {
    assert ["%"][1..] == [];
    if text != [] {
      AnythingGoes(text[1..]);
    }
  }

  lemma {:induction false} PassingMatches(prefix: seq<string>, text: seq<string>)
    requires Passes(prefix, text)
    ensures LikeCharacters(prefix + ["%"], text)
  {
    if prefix == [] {
      assert prefix + ["%"] == ["%"];
      AnythingGoes(text);
    } else {
      assert (prefix + ["%"])[1..] == prefix[1..] + ["%"];
      PassingMatches(prefix[1..], text[1..]);
      if prefix[0] == "%" {
        assert LikeCharacters(prefix + ["%"], text[1..]);
      }
    }
  }

  lemma PassingIsLike(prefix: string, text: string)
    requires Passes(Characters(prefix), Characters(text))
    ensures Like(prefix + "%", text)
  {
    LikeReads(prefix, text);
    PassingMatches(Characters(prefix), Characters(text));
  }

  /** Everything that starts with the prefix is selected, whatever is in it. */
  lemma PrefixIsLike(prefix: string, text: string)
    requires StartsWith(prefix, text)
    ensures Like(prefix + "%", text)
  {
    var ps, ts := Characters(prefix), Characters(text);
    assert forall i | 0 <= i < |ps| :: ps[i] == ts[i];
    PassingIsLike(prefix, text);
  }

  /** A directory prefix begins a text with its bytes exactly if it does with its characters. */
  lemma DirPrefix(prefix: string, text: string)
    requires prefix <= text && (prefix != "" ==> IsAscii(prefix[|prefix| - 1]))
    ensures StartsWith(prefix, text) && Characters(text) == Characters(prefix) + Characters(text[|prefix|..])
  {
    assert text == prefix + text[|prefix|..];
    CharactersAppend(prefix, text[|prefix|..]);
  }

  lemma DirPrefixIsLike(prefix: string, text: string)
    requires prefix <= text && (prefix != "" ==> IsAscii(prefix[|prefix| - 1]))
    ensures Like(prefix + "%", text)
  {
    DirPrefix(prefix, text);
    PrefixIsLike(prefix, text);
  }

  /** Without '%' LIKE asks each character to pass for the one at its place, with '_' taking any one character. */
  lemma LikeWithoutPercent(prefix: string, text: string)
    requires '%' !in prefix
    ensures Like(prefix + "%", text) <==> Passes(Characters(prefix), Characters(text))
  {
    LikeReads(prefix, text);
    NoPercentCharacter(prefix);
    hide Characters;
    MatchesWithoutPercent(Characters(prefix), Characters(text));
  }

  lemma {:induction false} MatchesWithoutPercent(prefix: seq<string>, text: seq<string>)
    requires "%" !in prefix
    ensures LikeCharacters(prefix + ["%"], text) <==> Passes(prefix, text)
  {
    if Passes(prefix, text) {
      PassingMatches(prefix, text);
    }
    if prefix != [] && LikeCharacters(prefix + ["%"], text) {
      assert (prefix + ["%"])[1..] == prefix[1..] + ["%"];
      assert prefix[0] in prefix;
      MatchesWithoutPercent(prefix[1..], text[1..]);
      forall i | 0 <= i < |prefix|
        ensures IsWildcard(prefix[i]) || SameButCase(prefix[i], text[i])
      {
        if i > 0 {
          assert prefix[i] == prefix[1..][i - 1] && text[i] == text[1..][i - 1];
        }
      }
    }
  }

  // ---------- Selecting what starts with the prefix ----------

  predicate IsLetter(c: char) {
    'a' <= c <= 'z' || 'A' <= c <= 'Z'
  }

  /** LIKE treats this byte specially: a wildcard or an ASCII letter. */
  predicate IsSpecial(c: char) {
    c == '%' || c == '_' || IsLetter(c)
  }

  /** Nothing in the prefix that LIKE treats specially. */
  predicate IsLiteral(prefix: string) {
    forall i | 0 <= i < |prefix| :: !IsSpecial(prefix[i])
  }

  /** A byte other than c that LIKE takes for it. */
  function LookAlike(c: char): (d: char)
    requires IsSpecial(c)
    ensures d != c && IsAscii(d) && (IsWildcard([c]) || SameButCase([c], [d]))
  {
    if c == '%' || c == '_' then 'a'
    else if 'a' <= c then c - 'a' + 'A'
    else c - 'A' + 'a'
  }

  /** LIKE and starting with the prefix say the same about this text. */
  predicate Agree(prefix: string, text: string) {
    Like(prefix + "%", text) <==> StartsWith(prefix, text)
  }

  /** The characters around an ASCII byte. */
  lemma AroundAscii(a: string, c: char, b: string)
    requires IsAscii(c)
    ensures Characters(a + [c] + b) == Characters(a) + [[c]] + Characters(b)
  {
    CharactersAppend(a + [c], b);
    CharactersAppend(a, [c]);
    OneCharacter(c);
  }

  /** A text that LIKE selects and that does not start with the prefix. */
  lemma Misleads(prefix: string, i: nat) returns (text: string)
    requires i < |prefix| && IsSpecial(prefix[i])
    ensures Like(prefix + "%", text) && !(prefix <= text)
  {
    var a, c, b := prefix[..i], prefix[i], prefix[i + 1..];
    var d := LookAlike(c);
    text := a + [d] + b;
    assert prefix == a + [c] + b;
    AroundAscii(a, c, b);
    AroundAscii(a, d, b);
    hide Characters, LookAlike;
    PassingIsLike(prefix, text);
    assert text[i] != prefix[i];
  }

  /** Without anything special LIKE asks for the very characters. */
  lemma LiteralPasses(prefix: string, text: string)
    requires IsLiteral(prefix) && Like(prefix + "%", text)
    ensures StartsWith(prefix, text)
  {
    var ps, ts := Characters(prefix), Characters(text);
    assert '%' !in prefix;
    LikeWithoutPercent(prefix, text);
    forall i | 0 <= i < |ps|
      ensures ps[i] == ts[i]
    {
      BytesAreThere(prefix, ps[i]);
      assert forall b | b in ps[i] :: !IsSpecial(b);
      assert ps[i][0] in ps[i];
    }
  }

  /** The selection is by starting with the prefix exactly when the prefix has no wildcard and no ASCII letter. */
  lemma LikeIsStartsWithIff(prefix: string)
    ensures (forall text :: Agree(prefix, text)) <==> IsLiteral(prefix)
  {
    if IsLiteral(prefix) {
      forall text
        ensures Agree(prefix, text)
      {
        if StartsWith(prefix, text) {
          PrefixIsLike(prefix, text);
        }
        if Like(prefix + "%", text) {
          LiteralPasses(prefix, text);
        }
      }
    } else {
      var i :| 0 <= i < |prefix| && IsSpecial(prefix[i]);
      var text := Misleads(prefix, i);
      StartsWithIff(prefix, text);
      assert !Agree(prefix, text);
    }
  }

  /** The files whose display path starts with the prefix. */
  function FilesStartingWith(t: Tables, prefix: string): set<nat> {
    set f | f in t.files && StartsWith(prefix, t.files[f].display)
  }

  /**
    A purge or a prefix deletion is about every file under the prefix, and about no other file in
    any table exactly when the prefix has no wildcard and no letter.
   */
  lemma PrefixSelectsIff(prefix: string)
    ensures forall t :: FilesStartingWith(t, prefix) <= FilesUnder(t, prefix)
    ensures (forall t :: FilesUnder(t, prefix) == FilesStartingWith(t, prefix)) <==> IsLiteral(prefix)
  {
    hide StartsWith, Like;
    forall t
      ensures FilesStartingWith(t, prefix) <= FilesUnder(t, prefix)
    {
      forall f | f in FilesStartingWith(t, prefix)
        ensures f in FilesUnder(t, prefix)
      {
        PrefixIsLike(prefix, t.files[f].display);
      }
    }
    LikeIsStartsWithIff(prefix);
    if !IsLiteral(prefix) {
      var text :| !Agree(prefix, text);
      if StartsWith(prefix, text) {
        PrefixIsLike(prefix, text);
      }
      var t := Tables(map[1 := FileRow("", text, None)], map[], 2, 1);
      assert 1 in FilesUnder(t, prefix) && 1 !in FilesStartingWith(t, prefix);
    } else {
      forall t
        ensures FilesUnder(t, prefix) == FilesStartingWith(t, prefix)
      {
        forall f | f in FilesUnder(t, prefix)
          ensures f in FilesStartingWith(t, prefix)
        {
          if prefix == "" {
            assert Characters("") == [];
            EverythingStarts(t.files[f].display);
          }
          assert Agree(prefix, t.files[f].display);
        }
      }
    }
  }

  lemma EverythingStarts(text: string)
    ensures StartsWith("", text)
  {
  }

  // ---------- Texts shorter than the prefix ----------

  /** Continuation bytes follow no ASCII byte and begin no text: so it is in UTF-8. */
  predicate Orderly(s: string) {
    (s != "" ==> !Continues(s[0])) && forall i | 0 < i < |s| && Continues(s[i]) :: !IsAscii(s[i - 1])
  }

  lemma {:induction false} OnePercentLess(a: seq<string>, b: seq<string>)
    ensures LikeCharacters(a + ["%"] + b + ["%"], a + b)
  {
    if a == [] {
      assert a + ["%"] + b + ["%"] == ["%"] + (b + ["%"]) && a + b == b;
      assert (["%"] + (b + ["%"]))[1..] == b + ["%"];
      PassingMatches(b, b);
    } else {
      assert (a + ["%"] + b + ["%"])[1..] == a[1..] + ["%"] + b + ["%"] && (a + b)[1..] == a[1..] + b;
      OnePercentLess(a[1..], b);
      if a[0] == "%" {
        assert LikeCharacters(a + ["%"] + b + ["%"], a[1..] + b);
      }
    }
  }

  lemma ShorterIsSelected(prefix: string, i: nat) returns (text: string)
    requires i < |prefix| && prefix[i] == '%' && Orderly(prefix)
    ensures Like(prefix + "%", text) && |text| < |prefix|
  {
    var a, b := prefix[..i], prefix[i + 1..];
    text := a + b;
    assert prefix == a + ['%'] + b;
    assert b != "" ==> b[0] == prefix[i + 1];
    AroundAscii(a, '%', b);
    CharactersAppend(a, b);
    hide Characters;
    OnePercentLess(Characters(a), Characters(b));
    LikeReads(prefix, text);
    assert ['%'] == "%";
  }

  predicate NoneEmpty(cs: seq<string>) {
    forall i | 0 <= i < |cs| :: cs[i] != ""
  }

  lemma NoEmptyCharacters(s: string)
    ensures NoneEmpty(Characters(s))
  {
    var cs := Characters(s);
    forall i | 0 <= i < |cs|
      ensures cs[i] != ""
    {
      BytesAreThere(s, cs[i]);
    }
  }

  lemma PassesOn(prefix: seq<string>, text: seq<string>)
    requires Passes(prefix, text) && NoneEmpty(text) && prefix != []
    ensures Passes(prefix[1..], text[1..]) && NoneEmpty(text[1..])
    ensures Joined(text[..|prefix|]) == text[0] + Joined(text[1..][..|prefix| - 1])
  {
    assert text[..|prefix|][0] == text[0] && text[..|prefix|][1..] == text[1..][..|prefix| - 1];
  }

  /** What passes is no shorter in bytes: only '_' can take a longer character, and none takes a shorter one. */
  lemma {:induction false} PassingIsNoShorter(prefix: seq<string>, text: seq<string>)
    requires Passes(prefix, text) && NoneEmpty(text)
    ensures |Joined(prefix)| <= |Joined(text[..|prefix|])|
  {
    if prefix != [] {
      PassesOn(prefix, text);
      PassingIsNoShorter(prefix[1..], text[1..]);
    }
  }

  lemma SelectedIsNoShorter(prefix: string, text: string)
    requires '%' !in prefix && Like(prefix + "%", text)
    ensures |prefix| <= |text|
  {
    LikeWithoutPercent(prefix, text);
    NoEmptyCharacters(text);
    hide Passes, Like;
    PassingIsNoShorter(Characters(prefix), Characters(text));
    AllJoined(prefix);
    ReadsOn(text, |Characters(prefix)|);
  }

  /** Some text with fewer bytes than the prefix is selected exactly when the prefix has a percent sign. */
  lemma SelectsShorterIff(prefix: string)
    requires Orderly(prefix)
    ensures (exists text :: Like(prefix + "%", text) && |text| < |prefix|) <==> '%' in prefix
  {
    hide Like, Orderly;
    if '%' in prefix {
      var i :| 0 <= i < |prefix| && prefix[i] == '%';
      var text := ShorterIsSelected(prefix, i);
    } else if text :| Like(prefix + "%", text) && |text| < |prefix| {
      SelectedIsNoShorter(prefix, text);
    }
  }

  // ---------- Byte for byte ----------

  /** Each character of text passes for the one in its place in the prefix and has as many bytes. */
  predicate PassesEvenly(prefix: seq<string>, text: seq<string>) {
    Passes(prefix, text) && forall i | 0 <= i < |prefix| :: |prefix[i]| == |text[i]|
  }

  /**
    The text looks to LIKE as if it began with the prefix, and slicing the prefix's bytes off takes
    just those characters.
   */
  predicate Aligned(prefix: string, text: string) {
    PassesEvenly(Characters(prefix), Characters(text))
  }

  lemma {:induction false} EvenLength(prefix: seq<string>, text: seq<string>)
    requires |prefix| <= |text| && forall i | 0 <= i < |prefix| :: |prefix[i]| == |text[i]|
    ensures |Joined(prefix)| == |Joined(text[..|prefix|])|
  {
    if prefix != [] {
      assert text[..|prefix|][0] == text[0] && text[..|prefix|][1..] == text[1..][..|prefix| - 1];
      EvenLength(prefix[1..], text[1..]);
    }
  }

  /** What is left of an aligned text after the prefix's bytes. */
  lemma AlignedRest(prefix: string, text: string)
    requires Aligned(prefix, text)
    ensures |prefix| <= |text| && Characters(text[|prefix|..]) == Characters(text)[|Characters(prefix)|..]
  {
    var ps, ts := Characters(prefix), Characters(text);
    EvenLength(ps, ts);
    AllJoined(prefix);
    ReadsOn(text, |ps|);
  }

  lemma EvenFurther(ps: seq<string>, ds: seq<string>, more: seq<string>, ts: seq<string>)
    requires PassesEvenly(ps, ts) && ts[|ps|..] == ds + more
    ensures PassesEvenly(ps + ds, ts)
  {
    assert forall i | 0 <= i < |ds| :: ts[|ps| + i] == ts[|ps|..][i] == ds[i];
  }

  /** An aligned text goes on being aligned with what it goes on with. */
  lemma AlignedFurther(prefix: string, d: string, more: string, text: string)
    requires Aligned(prefix, text) && |prefix| <= |text| && text[|prefix|..] == d + more
    requires Apart(prefix, d) && Apart(d, more)
    ensures Aligned(prefix + d, text) && |prefix + d| <= |text| && text[|prefix + d|..] == more
  {
    AlignedRest(prefix, text);
    CharactersAppend(prefix, d);
    CharactersAppend(d, more);
    hide Characters, PassesEvenly;
    EvenFurther(Characters(prefix), Characters(d), Characters(more), Characters(text));
    assert text[|prefix + d|..] == text[|prefix|..][|d|..] == more;
  }

  lemma {:induction false} NarrowIsEven(prefix: seq<string>, text: seq<string>)
    requires Passes(prefix, text) && NoneEmpty(text)
    requires |Joined(prefix)| >= |Joined(text[..|prefix|])|
    ensures PassesEvenly(prefix, text)
  {
    if prefix != [] {
      PassesOn(prefix, text);
      PassingIsNoShorter(prefix[1..], text[1..]);
      NarrowIsEven(prefix[1..], text[1..]);
      forall i | 0 <= i < |prefix|
        ensures |prefix[i]| == |text[i]|
      {
        if i > 0 {
          assert prefix[i] == prefix[1..][i - 1] && text[i] == text[1..][i - 1];
        }
      }
    }
  }

  lemma SlashTakesSlash(ps: seq<string>, ts: seq<string>)
    requires Passes(ps + ["/"], ts)
    ensures var taken := Joined(ts[..|ps| + 1]); taken != "" && taken[|taken| - 1] == '/'
  {
    var n := |ps|;
    assert (ps + ["/"])[n] == "/";
    assert ts[n] == "/";
    assert ts[..n + 1] == ts[..n] + ["/"];
    JoinedAppend(ts[..n], ["/"]);
    assert Joined(["/"]) == "/" + Joined([]);
  }

  /** The characters that a directory prefix takes end with a slash. */
  lemma TakenEndsWithSlash(p: string, text: string)
    requires Passes(Characters(p + "/"), Characters(text))
    ensures var taken := Joined(Characters(text)[..|Characters(p + "/")|]);
      taken <= text && |taken| > |p| && taken[|taken| - 1] == '/'
  {
    var ps, ts := Characters(p + "/"), Characters(text);
    CharactersAppend(p, "/");
    OneCharacter('/');
    AllJoined(p + "/");
    NoEmptyCharacters(text);
    ReadsOn(text, |ps|);
    hide Characters, Passes;
    PassingIsNoShorter(ps, ts);
    SlashTakesSlash(Characters(p), ts);
  }

  /**
    A directory prefix that LIKE selects the text by: each character has as many bytes, or the slicing
    leaves the slash that the prefix's last one stands for.
   */
  lemma SelectedIsAlignedOrGoesOn(p: string, text: string)
    requires '%' !in p && Like(p + "/" + "%", text)
    ensures |p| < |text| && (Aligned(p + "/", text) || '/' in text[|p| + 1..])
  {
    var prefix := p + "/";
    LikeWithoutPercent(prefix, text);
    TakenEndsWithSlash(p, text);
    NoEmptyCharacters(text);
    AllJoined(prefix);
    hide Characters, Passes, Like;
    var taken := Joined(Characters(text)[..|Characters(prefix)|]);
    if |taken| == |prefix| {
      NarrowIsEven(Characters(prefix), Characters(text));
    } else {
      assert text[|prefix|..][|taken| - 1 - |prefix|] == '/';
    }
  }

  lemma NoPercentCharacter(prefix: string)
    requires '%' !in prefix
    ensures "%" !in Characters(prefix)
  {
    forall c | c in Characters(prefix)
      ensures c != "%"
    {
      BytesAreThere(prefix, c);
      assert c[0] in c;
    }
  }

  predicate AllAscii(s: string) {
    forall i | 0 <= i < |s| :: IsAscii(s[i])
  }

  /** Each byte by itself. */
  function Singles(s: string): (cs: seq<string>)
    ensures |cs| == |s| && forall i | 0 <= i < |s| :: cs[i] == [s[i]]
  {
    seq(|s|, i requires 0 <= i < |s| => [s[i]])
  }

  /** The characters of an ASCII text are its bytes. */
  lemma {:induction false} AsciiCharacters(s: string)
    requires AllAscii(s)
    ensures Characters(s) == Singles(s)
  {
    if s != "" {
      AsciiCharacters(s[1..]);
      assert s[..1] == [s[0]];
      assert Singles(s) == [[s[0]]] + Singles(s[1..]);
    }
  }

  lemma AlignedTakes(prefix: string, text: string)
    requires Aligned(prefix, text)
    ensures |Characters(prefix)| <= |Characters(text)|
    ensures |Joined(Characters(text)[..|Characters(prefix)|])| == |prefix|
  {
    EvenLength(Characters(prefix), Characters(text));
    AllJoined(prefix);
  }

  /** The slash of a directory prefix stands at the same place in an aligned text. */
  lemma AlignedAfterSlash(p: string, text: string)
    requires Aligned(p + "/", text)
    ensures |p| < |text| && text == text[..|p|] + "/" + text[|p| + 1..]
  {
    TakenEndsWithSlash(p, text);
    AlignedTakes(p + "/", text);
    hide *;
    SlashAt(p, Joined(Characters(text)[..|Characters(p + "/")|]), text);
  }

  lemma SlashAt(p: string, taken: string, text: string)
    requires taken <= text && |taken| == |p| + 1 && taken[|p|] == '/'
    ensures text == text[..|p|] + "/" + text[|p| + 1..]
  {
    assert text[|p|] == '/';
  }

  /** Without underscores in the prefix, or without longer characters in the text, LIKE selects byte for byte. */
  lemma SelectsEvenly(prefix: string, text: string)
    requires '%' !in prefix && Like(prefix + "%", text)
    requires '_' !in prefix || AllAscii(text)
    ensures Aligned(prefix, text)
  {
    var ps, ts := Characters(prefix), Characters(text);
    LikeWithoutPercent(prefix, text);
    forall i | 0 <= i < |ps|
      ensures |ps[i]| == |ts[i]|
    {
      BytesAreThere(prefix, ps[i]);
      assert ps[i][0] in ps[i];
      if IsWildcard(ps[i]) {
        AsciiCharacters(text);
      }
    }
  }
}
