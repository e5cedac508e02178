/**
  Texts are bytes, one char each, as a Go string is; what needs their characters reads them as SQLite
  reads UTF-8.
 */
module Utf8 {
  import opened Basics

  /** A continuation byte of UTF-8; texts are bytes, one char each. */
  predicate Continues(c: char) {
    '\U{80}' <= c < '\U{C0}'
  }

  /** How many continuation bytes a text begins with. */
  function Continuation(s: string): (n: nat)
    ensures n <= |s|
  {
    if s != "" && Continues(s[0]) then 1 + Continuation(s[1..]) else 0
  }

  /** The length of the first character: one byte below 0xC0, or a byte from there on and the continuation after it. */
  function FirstLength(s: string): (n: nat)
    requires s != ""
    ensures 1 <= n <= |s|
  {
    if s[0] < '\U{C0}' then 1 else 1 + Continuation(s[1..])
  }

  /** The characters of a text as SQLite reads them, each as its bytes. */
  function Characters(s: string): seq<string> {
    if s == "" then [] else [s[..FirstLength(s)]] + Characters(s[FirstLength(s)..])
  }

  predicate IsAscii(c: char) {
    c < '\U{80}'
  }

  /** No character reaches across the end of a. */
  predicate Apart(a: string, b: string) {
    a == "" || b == "" || IsAscii(a[|a| - 1]) || !Continues(b[0])
  }

  lemma {:induction false} ContinuationOf(a: string, b: string)
    requires b == "" || !Continues(b[0]) || exists i :: 0 <= i < |a| && !Continues(a[i])
    ensures Continuation(a + b) == Continuation(a)
  {
    if a == "" {
      assert a + b == b;
    } else if Continues(a[0]) {
      assert (a + b)[1..] == a[1..] + b;
      if i :| 0 <= i < |a| && !Continues(a[i]) {
        assert a[i] == a[1..][i - 1];
      }
      ContinuationOf(a[1..], b);
    }
  }

  lemma FirstLengthOf(a: string, b: string)
    requires a != "" && Apart(a, b)
    ensures FirstLength(a + b) == FirstLength(a)
  {
    assert (a + b)[1..] == a[1..] + b;
    if !(b == "" || !Continues(b[0])) && |a| > 1 {
      assert !Continues(a[1..][|a| - 2]);
    }
    if !(a[0] < '\U{C0}') {
      ContinuationOf(a[1..], b);
    }
  }

  lemma {:induction false} CharactersAppend(a: string, b: string)
    requires Apart(a, b)
    ensures Characters(a + b) == Characters(a) + Characters(b)
    decreases |a|
  {
    if a == "" {
      assert a + b == b;
    } else {
      var n := FirstLength(a);
      FirstLengthOf(a, b);
      RestApart(a, b, n);
      FirstAndRest(a);
      FirstAndRest(a + b);
      hide *;
      SumAfter(a, b, n);
      CharactersAppend(a[n..], b);
      Regroup([a[..n]], Characters(a[n..]), Characters(b));
    }
  }

  lemma RestApart(a: string, b: string, n: nat)
    requires Apart(a, b) && n <= |a|
    ensures Apart(a[n..], b)
  {
  }

  lemma OneCharacter(c: char)
    requires c < '\U{C0}'
    ensures Characters([c]) == [[c]]
  {
    assert [c][..1] == [c] && [c][1..] == "";
  }

  /** The bytes of these characters. */
  function Joined(cs: seq<string>): string {
    if cs == [] then "" else cs[0] + Joined(cs[1..])
  }

  lemma {:induction false} JoinedBegins(s: string, n: nat)
    requires n <= |Characters(s)|
    ensures Joined(Characters(s)[..n]) <= s
    decreases n
  {
    if n > 0 {
      hide Characters, FirstLength, Joined;
      var k := FirstLength(s);
      JoinedFirst(s, n);
      JoinedBegins(s[k..], n - 1);
      StillBegins(s[..k], Joined(Characters(s[k..])[..n - 1]), s[k..], s);
    }
  }

  lemma StillBegins(a: string, b: string, rest: string, s: string)
    requires b <= rest && a + rest == s
    ensures a + b <= s
  {
  }

  /** What is left of s once its first n characters are read. */
  function After(s: string, n: nat): string
    requires n <= |Characters(s)|
  {
    JoinedBegins(s, n);
    s[|Joined(Characters(s)[..n])|..]
  }

  /** Reading on after the first n characters. */
  lemma {:induction false} ReadsOn(s: string, n: nat)
    requires n <= |Characters(s)|
    ensures Joined(Characters(s)[..n]) <= s
    ensures Characters(After(s, n)) == Characters(s)[n..]
    decreases n
  {
    JoinedBegins(s, n);
    hide Joined;
    if n > 0 {
      FirstAndRest(s);
      hide *;
      ReadsOn(s[FirstLength(s)..], n - 1);
      AfterOne(s, n);
      FirstOfMore(s[..FirstLength(s)], Characters(s[FirstLength(s)..]), n);
    } else {
      AfterNone(s);
    }
  }

  lemma AfterNone(s: string)
    ensures After(s, 0) == s
  {
    assert Characters(s)[..0] == [];
  }

  lemma AfterIs(s: string, n: nat, begin: string)
    requires n <= |Characters(s)| && Joined(Characters(s)[..n]) == begin
    ensures |begin| <= |s| && After(s, n) == s[|begin|..]
  {
    JoinedBegins(s, n);
    hide Characters, Joined;
  }

  lemma AfterOne(s: string, n: nat)
    requires 0 < n <= |Characters(s)|
    ensures n - 1 <= |Characters(s[FirstLength(s)..])| && After(s, n) == After(s[FirstLength(s)..], n - 1)
  {
    var k := FirstLength(s);
    hide *;
    JoinedFirst(s, n);
    var begin := Joined(Characters(s[k..])[..n - 1]);
    AfterIs(s, n, s[..k] + begin);
    AfterIs(s[k..], n - 1, begin);
    SuffixOfSuffix(s, k, |begin|);
  }

  lemma JoinedFirst(s: string, n: nat)
    requires 0 < n <= |Characters(s)|
    ensures var k := FirstLength(s);
      && n - 1 <= |Characters(s[k..])|
      && Joined(Characters(s)[..n]) == s[..k] + Joined(Characters(s[k..])[..n - 1])
  {
    FirstAndRest(s);
    hide *;
    var k := FirstLength(s);
    FirstOfMore(s[..k], Characters(s[k..]), n);
    JoinedMore(s[..k], Characters(s[k..])[..n - 1]);
  }

  lemma JoinedMore(c: string, more: seq<string>)
    ensures Joined([c] + more) == c + Joined(more)
  {
  }

  lemma SuffixOfSuffix(s: string, k: nat, m: nat)
    requires k + m <= |s|
    ensures s[k..][m..] == s[k + m..]
  {
  }

  lemma FirstOfMore(c: string, more: seq<string>, n: nat)
    requires 0 < n <= |more| + 1
    ensures var all := [c] + more;
      all[..n] == [c] + more[..n - 1] && all[n..] == more[n - 1..]
  {
  }

  lemma AllJoined(s: string)
    ensures Joined(Characters(s)) == s
  {
    var cs := Characters(s);
    ReadsOn(s, |cs|);
    assert cs[..|cs|] == cs && cs[|cs|..] == [];
    assert s[|Joined(cs)|..] == "";
  }

  lemma {:induction false} JoinedAppend(a: seq<string>, b: seq<string>)
    ensures Joined(a + b) == Joined(a) + Joined(b)
  {
    if a == [] {
      assert a + b == b;
    } else {
      assert (a + b)[1..] == a[1..] + b;
      JoinedAppend(a[1..], b);
    }
  }

  /** The bytes of a text's characters are bytes of the text, and there are no empty characters. */
  lemma {:induction false} BytesAreThere(s: string, c: string)
    requires c in Characters(s)
    ensures c != "" && forall b | b in c :: b in s
    decreases |s|
  {
    var n := FirstLength(s);
    if c != s[..n] {
      BytesAreThere(s[n..], c);
    }
  }

  /** text begins with the characters of the prefix. */
  predicate StartsWith(prefix: string, text: string) {
    Characters(prefix) <= Characters(text)
  }

  /** The prefix ends in a character of several bytes, or in the beginning of one. */
  predicate EndsOpen(prefix: string) {
    var cs := Characters(prefix);
    cs != [] && cs[|cs| - 1] != "" && cs[|cs| - 1][0] >= '\U{C0}'
  }

  /** The characters begin the text exactly when the bytes do and the last character does not go on after them. */
  lemma {:induction false} StartsWithIff(prefix: string, text: string)
    ensures StartsWith(prefix, text) <==>
      prefix <= text && !(EndsOpen(prefix) && |prefix| < |text| && Continues(text[|prefix|]))
  {
    if StartsWith(prefix, text) {
      StartsWithMeans(prefix, text);
    }
    if prefix <= text {
      var rest := text[|prefix|..];
      assert text == prefix + rest;
      if !(EndsOpen(prefix) && rest != "" && Continues(rest[0])) {
        ClosedAppend(prefix, rest);
      }
    }
  }

  lemma {:induction false} ClosedAppend(a: string, b: string)
    requires !(EndsOpen(a) && b != "" && Continues(b[0]))
    ensures Characters(a + b) == Characters(a) + Characters(b)
    decreases |a|
  {
    if a == "" {
      assert a + b == b;
    } else {
      hide EndsOpen, FirstLength, Characters, Continues;
      var n := FirstLength(a);
      ClosedFirst(a, b);
      ClosedRest(a, b);
      FirstAndRest(a);
      FirstAndRest(a + b);
      SumAfter(a, b, n);
      ClosedAppend(a[n..], b);
      Regroup([a[..n]], Characters(a[n..]), Characters(b));
    }
  }

  lemma SumAfter(a: string, b: string, n: nat)
    requires n <= |a|
    ensures (a + b)[..n] == a[..n] && (a + b)[n..] == a[n..] + b
  {
  }

  lemma FirstAndRest(s: string)
    requires s != ""
    ensures Characters(s) == [s[..FirstLength(s)]] + Characters(s[FirstLength(s)..])
  {
  }

  lemma ClosedFirst(a: string, b: string)
    requires a != "" && !(EndsOpen(a) && b != "" && Continues(b[0]))
    ensures FirstLength(a + b) == FirstLength(a)
  {
    assert (a + b)[1..] == a[1..] + b;
    if a[0] >= '\U{C0}' {
      if FirstLength(a) == |a| {
        assert Characters(a) == [a] by {
          assert a[..|a|] == a && a[|a|..] == "";
        }
      } else {
        ContinuationStops(a[1..]);
      }
      ContinuationOf(a[1..], b);
    }
  }

  lemma ClosedRest(a: string, b: string)
    requires a != "" && !(EndsOpen(a) && b != "" && Continues(b[0]))
    ensures !(EndsOpen(a[FirstLength(a)..]) && b != "" && Continues(b[0]))
  {
  }

  lemma {:induction false} ContinuationStops(s: string)
    ensures Continuation(s) < |s| ==> !Continues(s[Continuation(s)])
  {
    if s != "" && Continues(s[0]) {
      ContinuationStops(s[1..]);
    }
  }

  lemma StartsWithMeans(prefix: string, text: string)
    requires StartsWith(prefix, text)
    ensures prefix <= text
    ensures !(EndsOpen(prefix) && |prefix| < |text| && Continues(text[|prefix|]))
  {
    var ps, ts := Characters(prefix), Characters(text);
    AllJoined(prefix);
    ReadsOn(text, |ps|);
    assert ts[..|ps|] == ps;
    if EndsOpen(prefix) && |prefix| < |text| {
      LastCharacterEnds(prefix, text);
    }
  }

  lemma LastCharacterEnds(prefix: string, text: string)
    requires StartsWith(prefix, text) && EndsOpen(prefix) && |prefix| < |text|
    ensures !Continues(text[|prefix|])
  {
    var ps, ts := Characters(prefix), Characters(text);
    var n := |ps| - 1;
    var c := ps[n];
    ReadsOn(text, n);
    assert ts[..n] == ps[..n] && ts[n] == c;
    assert ps == ps[..n] + [c];
    JoinedAppend(ps[..n], [c]);
    assert Joined([c]) == c + Joined([]);
    AllJoined(prefix);
    var x := text[|Joined(ps[..n])|..];
    assert Characters(x)[0] == ts[n..][0] == x[..FirstLength(x)];
    ContinuationStops(x[1..]);
    assert text[|prefix|] == x[|c|];
  }

  // ---------- Code points ----------

  /** The bytes of a code point: section 3 of RFC 3629. */
  function Encoded(c: nat): (s: string)
    requires c < 0x11_0000
    ensures s != ""
  {
    if c < 0x80 then [c as char]
    else if c < 0x800 then [(0xC0 + c / 64) as char, Tail(c)]
    else if c < 0x1_0000 then [(0xE0 + c / 4096) as char, Tail(c / 64), Tail(c)]
    else [(0xF0 + c / 262144) as char, Tail(c / 4096), Tail(c / 64), Tail(c)]
  }

  function Tail(c: nat): char {
    (0x80 + c % 64) as char
  }

  function EncodedAll(cs: seq<nat>): string
    requires forall i | 0 <= i < |cs| :: cs[i] < 0x11_0000
  {
    if cs == [] then "" else Encoded(cs[0]) + EncodedAll(cs[1..])
  }

  lemma OneCodePoint(c: nat)
    requires c < 0x11_0000
    ensures Characters(Encoded(c)) == [Encoded(c)] && !Continues(Encoded(c)[0])
  {
    var s := Encoded(c);
    assert forall i | 0 < i < |s| :: Continues(s[i]);
    AllContinue(s[1..]);
    assert s[..|s|] == s;
  }

  lemma {:induction false} AllContinue(s: string)
    requires forall i | 0 <= i < |s| :: Continues(s[i])
    ensures Continuation(s) == |s|
  {
    if s != "" {
      AllContinue(s[1..]);
    }
  }

  /** The characters of any text in UTF-8 are its code points. */
  lemma {:induction false} CharactersAreCodePoints(cs: seq<nat>)
    requires forall i | 0 <= i < |cs| :: cs[i] < 0x11_0000
    ensures |Characters(EncodedAll(cs))| == |cs|
    ensures forall i | 0 <= i < |cs| :: Characters(EncodedAll(cs))[i] == Encoded(cs[i])
  {
    if cs != [] {
      var rest := EncodedAll(cs[1..]);
      CharactersAreCodePoints(cs[1..]);
      OneCodePoint(cs[0]);
      if |cs| > 1 {
        OneCodePoint(cs[1]);
        assert rest[0] == Encoded(cs[1])[0];
      }
      hide Encoded, Characters, Continues;
      CharactersAppend(Encoded(cs[0]), rest);
    }
  }
}
