/** How backend/database.py validates a tag name: _validate_tag_name, on ASCII text. */
module TagNames {
  import opened Wrappers
  import opened Text
  import opened TagTable

  const MAX_LENGTH: nat := 100

  predicate Space(c: char) {
    c == ' ' || '\t' <= c <= '\r' || '\U{1c}' <= c <= '\U{1f}'
  }

  predicate AlphaNumeric(c: char) {
    'a' <= c <= 'z' || 'A' <= c <= 'Z' || '0' <= c <= '9'
  }

  predicate IsAlnum(s: string) {
    s != "" && forall k | 0 <= k < |s| :: AlphaNumeric(s[k])
  }

  function StripLeft(s: string): string {
    if s != "" && Space(s[0]) then StripLeft(s[1..]) else s
  }

  function StripRight(s: string): string {
    if s != "" && Space(s[|s| - 1]) then StripRight(s[..|s| - 1]) else s
  }

  function Delete(s: string, c: char): string {
    Replace(s, [c], "")
  }

  /** The name as it is stored and looked up, or None where the code raises. */
  function Clean(raw: string): Option<TagName> {
    var name := FoldAll(StripRight(StripLeft(raw)));
    if 0 < |name| <= MAX_LENGTH && IsAlnum(Delete(Delete(Delete(name, '-'), '_'), ':')) then Some(name) else None
  }

  lemma {:induction false} DeleteKeeps(s: string, c: char)
    ensures forall x :: x in Delete(s, c) <==> x in s && x != c
  {
    if s != "" {
      DeleteKeeps(s[1..], c);
      assert s[..1] == [s[0]];
      assert s == [s[0]] + s[1..];
    }
  }

  lemma {:induction false} FoldAllAt(s: string)
    ensures forall k | 0 <= k < |s| :: FoldAll(s)[k] == Fold(s[k])
  {
    if s != "" {
      FoldAllAt(s[1..]);
    }
  }

  lemma AllowedCharacters(raw: string, k: nat)
    requires Clean(raw).Some? && k < |Clean(raw).value|
    ensures var c := Clean(raw).value[k]; AlphaNumeric(c) || c == '-' || c == '_' || c == ':'
  {
    var name := Clean(raw).value;
    DeleteKeeps(name, '-');
    DeleteKeeps(Delete(name, '-'), '_');
    DeleteKeeps(Delete(Delete(name, '-'), '_'), ':');
    assert name[k] in name;
  }

  /** Validating a validated name changes nothing. */
  lemma CleanTwice(raw: string)
    requires Clean(raw).Some?
    ensures Clean(Clean(raw).value) == Clean(raw)
  {
    var name, stripped := Clean(raw).value, StripRight(StripLeft(raw));
    AllowedCharacters(raw, 0);
    AllowedCharacters(raw, |name| - 1);
    FoldAllAt(stripped);
    FoldAllAt(name);
    assert FoldAll(name) == name;
  }

  /** The names that removals take up before the first one that is refused. */
  function Cleaned(names: seq<string>): seq<TagName> {
    if names == [] || Clean(names[0]).None? then [] else [Clean(names[0]).value] + Cleaned(names[1..])
  }

  predicate AllClean(names: seq<string>) {
    forall k | 0 <= k < |names| :: Clean(names[k]).Some?
  }

  lemma {:induction false} CleanedAreClean(names: seq<string>, t: TagName)
    requires t in Cleaned(names)
    ensures Clean(t) == Some(t)
  {
    if t == Clean(names[0]).value {
      CleanTwice(names[0]);
    } else {
      CleanedAreClean(names[1..], t);
    }
  }

  /** update_subject_tags validates the names it removes but not those it adds: an assigned
      tag can be removed by some list of names exactly when its name is in validated form. */
  lemma RemovableIffClean(m: Table, s: Subject, t: TagName)
    requires Assigned(m, s, t)
    ensures (exists names :: !Assigned(Removed(m, s, Cleaned(names)), s, t)) <==> Clean(t) == Some(t)
  {
    if names :| !Assigned(Removed(m, s, Cleaned(names)), s, t) {
      CleanedAreClean(names, t);
    }
    if Clean(t) == Some(t) {
      assert Cleaned([t]) == [t];
      assert !Assigned(Removed(m, s, Cleaned([t])), s, t);
    }
  }

  /** A tag set with a capital letter stays, whatever names a delta removes. */
  lemma CapitalTagStays(s: Subject, identity: Identity, names: seq<string>)
    ensures var m := SetTags(map[], s, ["Prod"], identity);
            Assigned(m, s, "Prod") && Assigned(Removed(m, s, Cleaned(names)), s, "Prod")
  {
    var m := SetTags(map[], s, ["Prod"], identity);
    SetThenGet(map[], s, ["Prod"], identity, ["Prod"]);
    assert Assigned(m, s, ["Prod"][0]);
    if "Prod" in Cleaned(names) {
      CleanedAreClean(names, "Prod");
      FoldAllAt(StripRight(StripLeft("Prod")));
      NotSpaceEnds();
      assert false;
    }
  }

  lemma NotSpaceEnds()
    ensures StripRight(StripLeft("Prod")) == "Prod"
    ensures FoldAll("Prod")[0] == 'p'
  {
    FoldAllAt("Prod");
  }

  /** What a delta that fails after its removals leaves: it has changed the table exactly if a
      name it took up, before the first refused one if any, was assigned. */
  lemma FailedDeltaIdleIff(m: Table, s: Subject, remove: seq<string>)
    ensures Removed(m, s, Cleaned(remove)) == m <==> forall t | t in Cleaned(remove) :: !Assigned(m, s, t)
  {
    var m' := Removed(m, s, Cleaned(remove));
    if t :| t in Cleaned(remove) && Assigned(m, s, t) {
      assert Key(t, s) !in m';
    } else {
      assert forall k :: k in m' <==> k in m;
    }
  }

  /** A delta that takes away one tag and adds another that is there already fails, and the
      first is gone. */
  lemma FailedAdditionKeepsRemoval(s: Subject, identity: Identity)
    ensures var m := SetTags(map[], s, ["a", "b"], identity);
            && IsListing(m, s, ["a", "b"]) && !Addable(Removed(m, s, Cleaned(["a"])), s, ["b"])
            && forall max :: IsListing(Delta(m, s, ["b"], Cleaned(["a"]), max, identity), s, ["b"])
  {
    var m := SetTags(map[], s, ["a", "b"], identity);
    SetThenGet(map[], s, ["a", "b"], identity, ["a", "b"]);
    LetterIsClean('a');
    assert Cleaned(["a"]) == ["a"];
    var kept := Removed(m, s, ["a"]);
    forall t ensures Assigned(kept, s, t) <==> t in ["b"] {
      assert Assigned(m, s, t) <==> t in ["a", "b"];
      assert t in ["a", "b"] <==> t == "a" || t == "b";
      assert t in ["a"] <==> t == "a";
      assert Assigned(kept, s, t) <==> Assigned(m, s, t) && t !in ["a"];
    }
    assert "b" in ["b"] && Assigned(kept, s, "b");
    assert IsListing(kept, s, ["b"]);
  }

  /** Names after a refused one are not taken up, but those before are. */
  lemma RefusalKeepsRemoval(s: Subject, identity: Identity)
    ensures var m := SetTags(map[], s, ["a"], identity);
            && Assigned(m, s, "a") && !AllClean(["a", ""])
            && !Assigned(Removed(m, s, Cleaned(["a", ""])), s, "a")
  {
    SetThenGet(map[], s, ["a"], identity, ["a"]);
    assert Assigned(SetTags(map[], s, ["a"], identity), s, ["a"][0]);
    LetterIsClean('a');
    assert ["a", ""][1] == "" && Clean("").None?;
    assert "a" in Cleaned(["a", ""]);
  }

  lemma LetterIsClean(c: char)
    requires 'a' <= c <= 'z'
    ensures Clean([c]) == Some([c])
  {
    assert [c][..0] == "" && [c][1..] == "";
    assert StripLeft([c]) == [c] && StripRight([c]) == [c];
    FoldAllAt([c]);
    assert FoldAll([c]) == [c];
    DeleteOther(c, '-');
    DeleteOther(c, '_');
    DeleteOther(c, ':');
  }

  lemma DeleteOther(x: char, c: char)
    requires x != c
    ensures Delete([x], c) == [x]
  {
    assert [x][..1] == [x] && [x][1..] == "";
    assert Delete("", c) == "";
    assert !StartsWith([x], [c]) by {
      assert [x][0] != [c][0];
    }
  }

  // ---------------------------------------------------------------- validation, exactly

  predicate AllSpaces(s: string) {
    forall k | 0 <= k < |s| :: Space(s[k])
  }

  lemma {:induction false} StripLeftAt(s: string, i: nat)
    requires i <= |s| && AllSpaces(s[..i]) && (i < |s| ==> !Space(s[i]))
    ensures StripLeft(s) == s[i..]
  {
    if i > 0 {
      assert s[..i][0] == s[0];
      assert s[1..][..i - 1] == s[..i][1..];
      StripLeftAt(s[1..], i - 1);
    }
  }

  lemma {:induction false} StripRightAt(s: string, j: nat)
    requires j <= |s| && AllSpaces(s[j..]) && (j > 0 ==> !Space(s[j - 1]))
    ensures StripRight(s) == s[..j]
  {
    if j < |s| {
      var n := |s| - 1;
      assert s[j..][n - j] == s[n];
      assert s[..n][j..] == s[j..][..n - j];
      StripRightAt(s[..n], j);
    } else {
      assert s[..j] == s;
    }
  }

  /** The text without the white space around it. */
  predicate Trims(raw: string, core: string, i: nat, j: nat) {
    && i <= j <= |raw| && core == raw[i..j]
    && AllSpaces(raw[..i]) && AllSpaces(raw[j..])
    && (core != "" ==> !Space(core[0]) && !Space(core[|core| - 1]))
  }

  lemma TrimsIsStrip(raw: string, core: string, i: nat, j: nat)
    requires Trims(raw, core, i, j)
    ensures StripRight(StripLeft(raw)) == core
  {
    if core == "" {
      BlankStrips(raw, i);
    } else {
      assert raw[i] == core[0];
      StripLeftAt(raw, i);
      TailStrips(raw, i, j);
    }
  }

  lemma BlankStrips(raw: string, i: nat)
    requires i <= |raw| && AllSpaces(raw[..i]) && AllSpaces(raw[i..])
    ensures StripLeft(raw) == "" && StripRight("") == ""
  {
    forall k | 0 <= k < |raw| ensures Space(raw[..|raw|][k]) {
      assert raw[k] == if k < i then raw[..i][k] else raw[i..][k - i];
    }
    StripLeftAt(raw, |raw|);
  }

  lemma TailStrips(raw: string, i: nat, j: nat)
    requires i < j <= |raw| && AllSpaces(raw[j..]) && !Space(raw[j - 1])
    ensures StripRight(raw[i..]) == raw[i..j]
  {
    var rest := raw[i..];
    assert rest[j - i..] == raw[j..];
    assert rest[j - i - 1] == raw[j - 1];
    StripRightAt(rest, j - i);
    assert rest[..j - i] == raw[i..j];
  }

  lemma {:induction false} LeftEnd(s: string) returns (i: nat)
    ensures i <= |s| && AllSpaces(s[..i]) && (i < |s| ==> !Space(s[i]))
  {
    if s != "" && Space(s[0]) {
      var k := LeftEnd(s[1..]);
      i := k + 1;
      forall m | 0 <= m < i ensures Space(s[..i][m]) {
        if m > 0 {
          assert s[..i][m] == s[1..][..k][m - 1];
        }
      }
    } else {
      i := 0;
    }
  }

  lemma {:induction false} RightEnd(s: string) returns (j: nat)
    ensures j <= |s| && AllSpaces(s[j..]) && (j > 0 ==> !Space(s[j - 1]))
  {
    if s != "" && Space(s[|s| - 1]) {
      var n := |s| - 1;
      j := RightEnd(s[..n]);
      forall m | 0 <= m < |s[j..]| ensures Space(s[j..][m]) {
        if j + m < n {
          assert s[j..][m] == s[..n][j..][m];
        }
      }
    } else {
      j := |s|;
    }
  }

  lemma TrimExists(raw: string) returns (core: string, i: nat, j: nat)
    ensures Trims(raw, core, i, j)
  {
    i := LeftEnd(raw);
    var k := RightEnd(raw);
    if k <= i {
      j := |raw|;
    } else {
      j := k;
    }
    core := raw[i..j];
  }

  lemma AlnumIff(name: string)
    ensures IsAlnum(Delete(Delete(Delete(name, '-'), '_'), ':')) <==>
            && (forall c | c in name :: AlphaNumeric(c) || c == '-' || c == '_' || c == ':')
            && exists c :: c in name && AlphaNumeric(c)
  {
    var left := Delete(Delete(Delete(name, '-'), '_'), ':');
    DeleteKeeps(name, '-');
    DeleteKeeps(Delete(name, '-'), '_');
    DeleteKeeps(Delete(Delete(name, '-'), '_'), ':');
    assert forall c :: c in left <==> c in name && c != '-' && c != '_' && c != ':';
    if IsAlnum(left) {
      assert left[0] in left;
      forall c | c in name ensures AlphaNumeric(c) || c == '-' || c == '_' || c == ':' {
        if c in left {
          var k :| 0 <= k < |left| && left[k] == c;
        }
      }
    }
    if c :| c in name && AlphaNumeric(c) {
      assert c in left;
      if forall d | d in name :: AlphaNumeric(d) || d == '-' || d == '_' || d == ':' {
        assert forall k | 0 <= k < |left| :: left[k] in left;
      }
    }
  }

  /** Validation, exactly: what is left after trimming has 1 to 100 characters, all of them
      letters, digits or one of - _ : and one at least a letter or digit; the name is that
      in lower case. */
  lemma CleanIff(raw: string, core: string, i: nat, j: nat)
    requires Trims(raw, core, i, j)
    ensures Clean(raw).Some? <==>
            && 1 <= |core| <= 100
            && (forall c | c in core :: AlphaNumeric(c) || c == '-' || c == '_' || c == ':')
            && exists c :: c in core && AlphaNumeric(c)
    ensures Clean(raw).Some? ==>
              && |Clean(raw).value| == |core|
              && forall k | 0 <= k < |core| ::
                   Clean(raw).value[k] == if 'A' <= core[k] <= 'Z' then core[k] - 'A' + 'a' else core[k]
  {
    TrimsIsStrip(raw, core, i, j);
    FoldAllAt(core);
    AlnumIff(FoldAll(core));
    FoldedCharacters(core);
  }

  lemma FoldedCharacters(core: string)
    ensures var name := FoldAll(core);
            && ((forall c | c in name :: AlphaNumeric(c) || c == '-' || c == '_' || c == ':') <==>
                (forall c | c in core :: AlphaNumeric(c) || c == '-' || c == '_' || c == ':'))
            && ((exists c :: c in name && AlphaNumeric(c)) <==> exists c :: c in core && AlphaNumeric(c))
  {
    var name := FoldAll(core);
    FoldAllAt(core);
    forall k | 0 <= k < |core| ensures name[k] in name && core[k] in core {
    }
    forall c | c in core ensures Fold(c) in name {
      var k :| 0 <= k < |core| && core[k] == c;
    }
    forall c | c in name ensures exists d :: d in core && Fold(d) == c {
      var k :| 0 <= k < |name| && name[k] == c;
      assert core[k] in core;
    }
    if c :| c in core && AlphaNumeric(c) {
      assert Fold(c) in name && AlphaNumeric(Fold(c));
    }
  }
}
