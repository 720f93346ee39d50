/** Python's str.replace, str.split and substring test and lower case on sequences of characters. */
module Text {
  predicate StartsWith(s: string, prefix: string) {
    |prefix| <= |s| && s[..|prefix|] == prefix
  }

  /** str.replace: left to right, without overlaps. */
  function Replace(s: string, old_: string, new_: string): string
    requires old_ != ""
  {
    if s == "" then ""
    else if StartsWith(s, old_) then new_ + Replace(s[|old_|..], old_, new_)
    else [s[0]] + Replace(s[1..], old_, new_)
  }

  /** str.split with a separator. */
  function Split(s: string, sep: string): (parts: seq<string>)
    requires sep != ""
    ensures parts != []
  {
    if s == "" then [""]
    else if StartsWith(s, sep) then [""] + Split(s[|sep|..], sep)
    else
      var rest := Split(s[1..], sep);
      [[s[0]] + rest[0]] + rest[1..]
  }

  function Join(parts: seq<string>): string {
    if parts == [] then "" else parts[0] + Join(parts[1..])
  }

  predicate Contains(s: string, t: string) {
    StartsWith(s, t) || (s != "" && Contains(s[1..], t))
  }

  // Lower case, for ASCII letters.

  function Fold(c: char): char {
    if 'A' <= c <= 'Z' then ((c as int) + 32) as char else c
  }

  function FoldAll(s: string): (r: string)
    ensures |r| == |s|
  {
    if s == "" then "" else [Fold(s[0])] + FoldAll(s[1..])
  }

  lemma StartsWithHead(s: string, prefix: string)
    requires prefix != "" && StartsWith(s, prefix)
    ensures s[0] == prefix[0]
  {
    assert s[..|prefix|][0] == s[0];
  }

  /** Contains finds the text at some position. */
  lemma {:induction false} ContainsIff(s: string, t: string)
    ensures Contains(s, t) <==> exists i :: 0 <= i <= |s| && StartsWith(s[i..], t)
  {
    assert s[0..] == s;
    if s != "" && !StartsWith(s, t) {
      ContainsIff(s[1..], t);
      if i :| 0 <= i <= |s[1..]| && StartsWith(s[1..][i..], t) {
        assert s[i + 1..] == s[1..][i..];
      }
      if i :| 0 <= i <= |s| && StartsWith(s[i..], t) {
        assert i > 0;
        assert s[1..][i - 1..] == s[i..];
      }
    }
  }

  /** Text in which the first character of the pattern does not occur is copied. */
  lemma {:induction false} ReplaceSkips(t: string, rest: string, old_: string, new_: string)
    requires old_ != "" && old_[0] !in t
    ensures Replace(t + rest, old_, new_) == t + Replace(rest, old_, new_)
  {
    if t == "" {
      assert t + rest == rest;
    } else {
      assert (t + rest)[0] == t[0] && (t + rest)[1..] == t[1..] + rest;
      ReplaceSkips(t[1..], rest, old_, new_);
    }
  }

  lemma ReplaceHits(rest: string, old_: string, new_: string)
    requires old_ != ""
    ensures Replace(old_ + rest, old_, new_) == new_ + Replace(rest, old_, new_)
  {
    assert (old_ + rest)[..|old_|] == old_ && (old_ + rest)[|old_|..] == rest;
  }
}
