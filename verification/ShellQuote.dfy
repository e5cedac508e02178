/**
  The remote commands: how a path is quoted for the remote shell, what the shell reads back, and
  where a blob id takes the path.
 */
module ShellQuote {
  import opened Basics
  import opened Paths

  const QUOTE: char := '\''
  const NUL: char := '\0'

  /** strings.ReplaceAll(s, "'", `'\''`). */
  function Escape(s: string): string {
    if s == "" then ""
    else (if s[0] == QUOTE then "'\\''" else [s[0]]) + Escape(s[1..])
  }

  function ShellQuote(s: string): string {
    "'" + Escape(s) + "'"
  }

  // ---------- A reader of shell commands ----------

  datatype Token = Word(text: string) | Redirect

  /** Between two tokens, inside a word, or inside single quotes. */
  datatype Mode = Between | InWord | Quoted

  /** Characters that start something other than part of a plain word (an expansion, an operator, a comment). */
  predicate IsSpecial(c: char) {
    c in "|&;<()$`\"*?[]{}~=%!#\n" || c == NUL
  }

  /**
    The tokens of a command made of words, blanks and output redirections: sections 2.2.1 (a
    backslash keeps the next character, or joins two lines), 2.2.2 (single quotes keep everything up
    to the next one) and 2.3 of the POSIX.1-2017 Shell Command Language. None when the command holds
    anything else or ends inside quotes.
   */
  function Tokens(s: string, mode: Mode, word: string): Option<seq<Token>> {
    if s == "" then
      match mode
      case Between => Some([])
      case InWord => Some([Word(word)])
      case Quoted => None
    else if s[0] == NUL then None
    else if mode == Quoted then
      if s[0] == QUOTE then Tokens(s[1..], InWord, word) else Tokens(s[1..], Quoted, word + [s[0]])
    else if s[0] == QUOTE then Tokens(s[1..], Quoted, word)
    else if s[0] == '\\' then
      if |s| == 1 then None
      else if s[1] == '\n' then Tokens(s[2..], mode, word)
      else if s[1] == NUL then None
      else Tokens(s[2..], InWord, word + [s[1]])
    else if s[0] == ' ' || s[0] == '\t' then
      if mode == InWord then Prepend(Word(word), Tokens(s[1..], Between, "")) else Tokens(s[1..], Between, "")
    else if s[0] == '>' then
      if mode == Between && |s| >= 2 && s[1] == ' ' then Prepend(Redirect, Tokens(s[1..], Between, "")) else None
    else if IsSpecial(s[0]) then None
    else Tokens(s[1..], InWord, word + [s[0]])
  }

  function Prepend(t: Token, rest: Option<seq<Token>>): Option<seq<Token>> {
    if rest.None? then None else Some([t] + rest.value)
  }

  /** Inside quotes the escaped text reads as s, whatever comes after the closing quote. */
  lemma {:induction false} EscapedReadsBack(s: string, word: string, rest: string)
    requires NUL !in s
    ensures Tokens(Escape(s) + "'" + rest, Quoted, word) == Tokens(rest, InWord, word + s)
  {
    var text := Escape(s) + "'" + rest;
    if s == "" {
      assert text == "'" + rest && text[1..] == rest;
      assert word + s == word;
    } else {
      var later := Escape(s[1..]) + "'" + rest;
      EscapedReadsBack(s[1..], word + [s[0]], rest);
      assert word + [s[0]] + s[1..] == word + s;
      if s[0] == QUOTE {
        assert text == "'\\''" + later;
        CloseEscapeReopen(later, word);
      } else {
        assert text == [s[0]] + later && text[1..] == later;
      }
    }
  }

  /** The four characters that stand for a quote: close, escaped quote, reopen. */
  lemma CloseEscapeReopen(later: string, word: string)
    ensures Tokens("'\\''" + later, Quoted, word) == Tokens(later, Quoted, word + "'")
  {
    var s0 := "'\\''" + later;
    var s1 := "\\''" + later;
    var s3 := "'" + later;
    assert s0[1..] == s1 && s1[2..] == s3 && s3[1..] == later;
    assert Tokens(s0, Quoted, word) == Tokens(s1, InWord, word);
    assert Tokens(s1, InWord, word) == Tokens(s3, InWord, word + "'");
  }

  /** A quoted text in a command, at the start of a word or inside one, adds exactly itself to the word. */
  lemma QuoteReadsBack(s: string, mode: Mode, word: string, rest: string)
    requires NUL !in s && mode != Quoted
    ensures Tokens(ShellQuote(s) + rest, mode, word) == Tokens(rest, InWord, word + s)
  {
    var text := ShellQuote(s) + rest;
    assert text == "'" + (Escape(s) + "'" + rest);
    assert text[1..] == Escape(s) + "'" + rest;
    EscapedReadsBack(s, word, rest);
  }

  /** What section 2.2 of the POSIX.1-2017 Shell Command Language wants quoted, always or in some places. */
  predicate NeedsQuoting(c: char) {
    c in "|&;<>()$`\\\"' \t\n" || c in "*?[#~=%"
  }

  lemma FirstToken(t: Token, rest: Option<seq<Token>>, w: string)
    requires Prepend(t, rest) == Some([Word(w)])
    ensures t == Word(w)
  {
    assert ([t] + rest.value)[0] == t;
  }

  lemma {:induction false} WordIsNoLonger(s: string, mode: Mode, word: string, w: string)
    requires Tokens(s, mode, word) == Some([Word(w)]) && (mode == Between ==> word == "")
    ensures |w| <= |word| + |s|
    decreases |s|
  {
    if s != "" {
      if mode == Quoted {
        if s[0] == QUOTE {
          WordIsNoLonger(s[1..], InWord, word, w);
        } else {
          WordIsNoLonger(s[1..], Quoted, word + [s[0]], w);
        }
      } else if s[0] == QUOTE {
        WordIsNoLonger(s[1..], Quoted, word, w);
      } else if s[0] == '\\' {
        if s[1] == '\n' {
          WordIsNoLonger(s[2..], mode, word, w);
        } else {
          WordIsNoLonger(s[2..], InWord, word + [s[1]], w);
        }
      } else if s[0] == ' ' || s[0] == '\t' {
        if mode == Between {
          WordIsNoLonger(s[1..], Between, "", w);
        } else {
          FirstToken(Word(word), Tokens(s[1..], Between, ""), w);
        }
      } else if s[0] == '>' {
        FirstToken(Redirect, Tokens(s[1..], Between, ""), w);
      } else {
        WordIsNoLonger(s[1..], InWord, word + [s[0]], w);
      }
    }
  }

  /** Without quotes a text with any of these characters is not read as that one word. */
  lemma {:induction false} QuotingIsNeeded(s: string, mode: Mode, word: string)
    requires mode != Quoted && (mode == Between ==> word == "") && Tokens(s, mode, word) == Some([Word(word + s)])
    ensures forall i | 0 <= i < |s| :: !NeedsQuoting(s[i])
    decreases |s|
  {
    if s != "" {
      var w := word + s;
      if s[0] == QUOTE {
        WordIsNoLonger(s[1..], Quoted, word, w);
      } else if s[0] == '\\' {
        if s[1] == '\n' {
          WordIsNoLonger(s[2..], mode, word, w);
        } else {
          WordIsNoLonger(s[2..], InWord, word + [s[1]], w);
        }
      } else if s[0] == ' ' || s[0] == '\t' {
        if mode == Between {
          WordIsNoLonger(s[1..], Between, "", w);
        } else {
          FirstToken(Word(word), Tokens(s[1..], Between, ""), w);
        }
      } else if s[0] == '>' {
        FirstToken(Redirect, Tokens(s[1..], Between, ""), w);
      } else {
        assert word + [s[0]] + s[1..] == w;
        QuotingIsNeeded(s[1..], InWord, word + [s[0]]);
        assert !NeedsQuoting(s[0]);
        assert forall i | 0 < i < |s| :: s[i] == s[1..][i - 1];
      }
    }
  }

  lemma {:induction false} EscapeKeepsNul(s: string)
    requires NUL in s
    ensures NUL in Escape(s)
  {
    if s[0] != NUL {
      EscapeKeepsNul(s[1..]);
    }
  }

  lemma {:induction false} NoTokensWithNul(s: string, mode: Mode, word: string)
    requires NUL in s
    ensures Tokens(s, mode, word) == None
    decreases |s|
  {
    if s[0] != NUL {
      assert NUL in s[1..];
      if |s| >= 2 && s[1] != NUL {
        assert NUL in s[2..];
      }
      if mode == Quoted {
        NoTokensWithNul(s[1..], if s[0] == QUOTE then InWord else Quoted,
                        if s[0] == QUOTE then word else word + [s[0]]);
      } else if s[0] == QUOTE {
        NoTokensWithNul(s[1..], Quoted, word);
      } else if s[0] == '\\' {
        if s[1] == '\n' {
          NoTokensWithNul(s[2..], mode, word);
        } else if s[1] != NUL {
          NoTokensWithNul(s[2..], InWord, word + [s[1]]);
        }
      } else if s[0] in " \t>" {
        NoTokensWithNul(s[1..], Between, "");
      } else {
        NoTokensWithNul(s[1..], InWord, word + [s[0]]);
      }
    }
  }

  /** The shell reads the quoted text as one word, the text itself, exactly when it holds no NUL. */
  lemma QuoteIsOneWordIff(s: string)
    ensures Tokens(ShellQuote(s), Between, "") == Some([Word(s)]) <==> NUL !in s
  {
    var text := ShellQuote(s);
    assert text + "" == text && "" + s == s;
    if NUL in s {
      EscapeKeepsNul(s);
      NoTokensWithNul(text, Between, "");
    } else {
      QuoteReadsBack(s, Between, "", "");
    }
  }

  // ---------- The commands ----------

  predicate IsPlain(s: string) {
    forall i | 0 <= i < |s| :: !IsSpecial(s[i]) && s[i] !in " \t>\\'"
  }

  lemma {:induction false} PlainWord(name: string, word: string, rest: string)
    requires IsPlain(name) && name + word != ""
    ensures Tokens(name + " " + rest, if word == "" then Between else InWord, word)
         == Prepend(Word(word + name), Tokens(rest, Between, ""))
  {
    var text := name + " " + rest;
    if name == "" {
      assert text == " " + rest && text[1..] == rest && word + name == word;
    } else {
      assert text[1..] == name[1..] + " " + rest;
      PlainWord(name[1..], word + [name[0]], rest);
      assert word + [name[0]] + name[1..] == word + name;
    }
  }

  /** "sha256sum " and a quoted path, or "cat " and one: the program and the path, whatever the path holds. */
  lemma CommandReadsBack(program: string, path: string)
    requires IsPlain(program) && program != "" && NUL !in path
    ensures Tokens(program + " " + ShellQuote(path), Between, "") == Some([Word(program), Word(path)])
  {
    PlainWord(program, "", ShellQuote(path));
    QuoteIsOneWordIff(path);
    assert "" + program == program;
    assert [Word(program)] + [Word(path)] == [Word(program), Word(path)];
  }

  /** A redirection before a word. */
  lemma RedirectReadsBack(quoted: string)
    ensures Tokens("> " + quoted, Between, "") == Prepend(Redirect, Tokens(quoted, Between, ""))
  {
    var text, blank := "> " + quoted, " " + quoted;
    assert text[1..] == blank && blank[1..] == quoted;
    assert Tokens(blank, Between, "") == Tokens(quoted, Between, "");
  }

  /** "cat > " and a quoted path: the upload writes to that path and nowhere else. */
  lemma UploadReadsBack(dest: string)
    requires NUL !in dest
    ensures Tokens("cat > " + ShellQuote(dest), Between, "") == Some([Word("cat"), Redirect, Word(dest)])
  {
    hide *;
    var quoted := ShellQuote(dest);
    CatIsPlain(quoted);
    PlainWord("cat", "", "> " + quoted);
    RedirectReadsBack(quoted);
    QuoteIsOneWordIff(dest);
    TokensOfUpload(dest);
  }

  lemma CatIsPlain(quoted: string)
    ensures IsPlain("cat") && "cat" + "" != "" && "" + "cat" == "cat"
    ensures "cat > " + quoted == "cat" + " " + ("> " + quoted)
  {
  }

  lemma TokensOfUpload(dest: string)
    ensures Prepend(Word("cat"), Prepend(Redirect, Some([Word(dest)]))) == Some([Word("cat"), Redirect, Word(dest)])
  {
    assert [Word("cat")] + ([Redirect] + [Word(dest)]) == [Word("cat"), Redirect, Word(dest)];
  }

  // ---------- Where a blob id leads ----------

  predicate IsBlobIdCharacter(c: char) {
    '0' <= c <= '9' || 'a' <= c <= 'f' || 'A' <= c <= 'F' || c == '-'
  }

  lemma BlobIdCharacterIff(c: char)
    ensures IsBlobIdCharacter(c) <==> c in "0123456789abcdefABCDEF-"
  {
    var digits := "0123456789abcdefABCDEF-";
    if '0' <= c <= '9' {
      assert digits[c as int - '0' as int] == c;
    } else if 'a' <= c <= 'f' {
      assert digits[10 + c as int - 'a' as int] == c;
    } else if 'A' <= c <= 'F' {
      assert digits[16 + c as int - 'A' as int] == c;
    } else if c == '-' {
      assert digits[22] == c;
    }
  }

  /** validateBlobID: only the characters are looked at, so the empty id passes. */
  method ValidateBlobID(blobID: string) returns (ok: bool)
    ensures ok <==> forall i | 0 <= i < |blobID| :: blobID[i] in "0123456789abcdefABCDEF-"
    ensures ok <==> forall i | 0 <= i < |blobID| :: IsBlobIdCharacter(blobID[i])
  {
    for i := 0 to |blobID|
      invariant forall j | 0 <= j < i :: IsBlobIdCharacter(blobID[j]) && blobID[j] in "0123456789abcdefABCDEF-"
    {
      BlobIdCharacterIff(blobID[i]);
      if !IsBlobIdCharacter(blobID[i]) {
        return false;
      }
    }
    return true;
  }

  /** filepath.Join of the remote directory, the shard (the id's first character) and the id. */
  function BlobPath(remote: string, blobID: string): string
    requires blobID != ""
  {
    Clean(if remote == "" then blobID[..1] + "/" + blobID else remote + "/" + blobID[..1] + "/" + blobID)
  }

  lemma IdsAreNames(blobID: string)
    requires blobID != "" && forall i | 0 <= i < |blobID| :: IsBlobIdCharacter(blobID[i])
    ensures IsName(blobID) && IsName(blobID[..1])
  {
    assert IsBlobIdCharacter(blobID[0]);
  }

  lemma {:induction false} ReduceTwoNames(rooted: bool, parts: seq<string>, a: string, b: string)
    requires IsName(a) && IsName(b)
    ensures Reduce(rooted, parts + [a] + [b]) == Reduce(rooted, parts) + [a, b]
  {
    var one, two := parts + [a], parts + [a] + [b];
    assert one[..|one| - 1] == parts && two[..|two| - 1] == one;
  }

  /** The path of a blob is two steps below the remote directory, so it never leaves it. */
  lemma BlobPathIsBelow(remote: string, blobID: string)
    requires blobID != "" && forall i | 0 <= i < |blobID| :: IsBlobIdCharacter(blobID[i])
    ensures Parse(BlobPath(remote, blobID))
         == Path(Parse(remote).rooted, (if remote == "" then [] else Parse(remote).segs) + [blobID[..1], blobID])
  {
    IdsAreNames(blobID);
    var shard := blobID[..1];
    var raw := if remote == "" then shard + "/" + blobID else remote + "/" + shard + "/" + blobID;
    SplitOfSegment(shard);
    SplitOfSegment(blobID);
    if remote == "" {
      SplitAtSlash(shard, blobID);
      ReduceTwoNames(false, [], shard, blobID);
      assert [] + [shard] + [blobID] == Split(raw);
      assert raw[0] == shard[0] == blobID[0];
      assert IsBlobIdCharacter(blobID[0]);
    } else {
      SplitAtSlash(remote, shard);
      SplitAtSlash(remote + "/" + shard, blobID);
      ReduceTwoNames(Parse(remote).rooted, Split(remote), shard, blobID);
      assert raw[0] == remote[0];
    }
    ParseIsNormal(raw);
    ParseOfRender(Parse(raw));
  }

  /** Different ids never share a path. */
  lemma BlobPathsDiffer(remote: string, a: string, b: string)
    requires a != "" && b != "" && a != b
    requires forall i | 0 <= i < |a| :: IsBlobIdCharacter(a[i])
    requires forall i | 0 <= i < |b| :: IsBlobIdCharacter(b[i])
    ensures BlobPath(remote, a) != BlobPath(remote, b)
  {
    BlobPathIsBelow(remote, a);
    BlobPathIsBelow(remote, b);
    var p, q := Parse(BlobPath(remote, a)).segs, Parse(BlobPath(remote, b)).segs;
    assert p[|p| - 1] == a && q[|q| - 1] == b;
  }
}
