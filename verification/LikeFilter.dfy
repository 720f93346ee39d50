/**
  The search filters of backend/database.py: user text is escaped by three chained
  replacements and put between '%' signs, and SQLite's LIKE with escape '\' runs the
  pattern. LIKE compares letters without regard to ASCII case.
*/
module LikeFilter {
  import opened Text

  /** candidate LIKE pattern ESCAPE '\' */
  predicate Like(pattern: string, s: string)
    decreases |pattern| + |s|
  {
    if pattern == "" then s == ""
    else if pattern[0] == '%' then Like(pattern[1..], s) || (s != "" && Like(pattern, s[1..]))
    else if pattern[0] == '_' then s != "" && Like(pattern[1..], s[1..])
    else if pattern[0] == '\\' then
      |pattern| >= 2 && s != "" && Fold(pattern[1]) == Fold(s[0]) && Like(pattern[2..], s[1..])
    else s != "" && Fold(pattern[0]) == Fold(s[0]) && Like(pattern[1..], s[1..])
  }

  /** The replacements in the order in which the code chains them. */
  function Escape(text: string): string {
    Replace(Replace(Replace(text, "\\", "\\\\"), "%", "\\%"), "_", "\\_")
  }

  function Pattern(text: string): string {
    "%" + Escape(text) + "%"
  }

  predicate Special(c: char) {
    c == '\\' || c == '%' || c == '_'
  }

  /** Each special character escaped once. */
  function EscapeEach(text: string): string {
    if text == "" then ""
    else (if Special(text[0]) then ['\\', text[0]] else [text[0]]) + EscapeEach(text[1..])
  }

  lemma ReplaceFirst(s: string, c: char, new_: string)
    requires s != ""
    ensures Replace(s, [c], new_) == (if s[0] == c then new_ else [s[0]]) + Replace(s[1..], [c], new_)
  {
    assert s[..1] == [s[0]];
  }

  lemma {:induction false} ReplaceConcat(s: string, t: string, c: char, new_: string)
    ensures Replace(s + t, [c], new_) == Replace(s, [c], new_) + Replace(t, [c], new_)
  {
    if s == "" {
      assert s + t == t;
    } else {
      assert (s + t)[0] == s[0] && (s + t)[1..] == s[1..] + t;
      ReplaceConcat(s[1..], t, c, new_);
      ReplaceFirst(s, c, new_);
      ReplaceFirst(s + t, c, new_);
    }
  }

  lemma ReplaceOne(x: char, c: char, new_: string)
    ensures Replace([x], [c], new_) == if x == c then new_ else [x]
  {
    assert [x][1..] == "";
    assert StartsWith([x], [c]) <==> x == c by {
      assert StartsWith([x], [c]) ==> [x][..1][0] == [c][0];
    }
  }

  lemma EscapeOne(x: char)
    ensures Escape([x]) == if Special(x) then ['\\', x] else [x]
  {
    ReplaceOne(x, '\\', "\\\\");
    ReplaceOne(x, '%', "\\%");
    ReplaceOne(x, '_', "\\_");
    ReplaceOne('\\', '%', "\\%");
    ReplaceOne('\\', '_', "\\_");
    ReplaceOne('%', '_', "\\_");
    assert "\\\\" == "\\" + "\\" && "\\%" == "\\" + "%";
    ReplaceConcat("\\", "\\", '%', "\\%");
    ReplaceConcat("\\", "\\", '_', "\\_");
    ReplaceConcat("\\", "%", '_', "\\_");
  }

  /** The chain escapes each special character exactly once: the backslash goes first, so
      the backslashes added for '%' and '_' are not doubled. */
  lemma {:induction false} ChainEscapesEach(text: string)
    ensures Escape(text) == EscapeEach(text)
  {
    if text != "" {
      ChainEscapesEach(text[1..]);
      var x, rest := [text[0]], text[1..];
      assert text == x + rest;
      ReplaceConcat(x, rest, '\\', "\\\\");
      var x1, rest1 := Replace(x, "\\", "\\\\"), Replace(rest, "\\", "\\\\");
      ReplaceConcat(x1, rest1, '%', "\\%");
      ReplaceConcat(Replace(x1, "%", "\\%"), Replace(rest1, "%", "\\%"), '_', "\\_");
      EscapeOne(text[0]);
    }
  }

  lemma {:induction false} FoldAllDrop(s: string, n: nat)
    requires n <= |s|
    ensures FoldAll(s)[n..] == FoldAll(s[n..]) && FoldAll(s)[..n] == FoldAll(s[..n])
  {
    if n > 0 {
      FoldAllDrop(s[1..], n - 1);
      assert FoldAll(s)[n..] == FoldAll(s[1..])[n - 1..];
      assert s[1..][n - 1..] == s[n..] && s[..n][1..] == s[1..][..n - 1];
      assert FoldAll(s)[..n] == [Fold(s[0])] + FoldAll(s[1..])[..n - 1];
    }
  }

  /** Whether the candidate starts with the text, letter case aside. */
  predicate FoldedStart(s: string, text: string) {
    StartsWith(FoldAll(s), FoldAll(text))
  }

  lemma {:induction false} AllLike(s: string)
    ensures Like("%", s)
  {
    assert "%"[1..] == "";
    if s != "" {
      AllLike(s[1..]);
    }
  }

  lemma FoldedStartCons(s: string, text: string)
    requires text != ""
    ensures FoldedStart(s, text) <==> s != "" && Fold(s[0]) == Fold(text[0]) && FoldedStart(s[1..], text[1..])
  {
    var fs, ft := FoldAll(s), FoldAll(text);
    if FoldedStart(s, text) {
      assert fs[0] == fs[..|ft|][0] == ft[0];
      assert fs[1..][..|ft| - 1] == fs[..|ft|][1..] == ft[1..];
    }
    if s != "" && Fold(s[0]) == Fold(text[0]) && FoldedStart(s[1..], text[1..]) {
      assert fs[1..][..|ft| - 1] == ft[1..];
      assert fs[..|ft|] == [fs[0]] + fs[1..][..|ft| - 1];
    }
  }

  /** After the leading '%', the escaped text matches itself and the last '%' anything. */
  lemma {:induction false} LikeStart(text: string, s: string)
    ensures Like(EscapeEach(text) + "%", s) <==> FoldedStart(s, text)
  {
    var p := EscapeEach(text) + "%";
    if text == "" {
      assert p == "%";
      AllLike(s);
      assert FoldAll(s)[..0] == "";
    } else {
      FoldedStartCons(s, text);
      var rest := EscapeEach(text[1..]) + "%";
      if Special(text[0]) {
        assert p[0] == '\\' && p[1] == text[0] && p[2..] == rest;
      } else {
        assert p[0] == text[0] && p[1..] == rest;
      }
      if s != "" {
        LikeStart(text[1..], s[1..]);
      }
    }
  }

  lemma {:induction false} LikeAnywhere(text: string, s: string)
    ensures Like("%" + (EscapeEach(text) + "%"), s) <==> Contains(FoldAll(s), FoldAll(text))
  {
    var rest := EscapeEach(text) + "%";
    var p := "%" + rest;
    assert p[1..] == rest;
    LikeStart(text, s);
    if s != "" {
      LikeAnywhere(text, s[1..]);
    }
  }

  /** For every search text and every candidate, the filter accepts exactly the candidates
      that contain the text, ASCII case aside. */
  lemma FilterIsSubstring(text: string, candidate: string)
    ensures Like(Pattern(text), candidate) <==> Contains(FoldAll(candidate), FoldAll(text))
  {
    ChainEscapesEach(text);
    assert Pattern(text) == "%" + (EscapeEach(text) + "%");
    LikeAnywhere(text, candidate);
  }
}
