/** Sticky tags: reattach_tags_for_container of backend/database.py. */
module TagReattach {
  import opened Wrappers
  import opened TagTable

  const CONTAINER := "container"

  /** A rebuilt container, with the identity by which its former tags are looked up. */
  datatype Rebuilt = Rebuilt(host: string, id: string, name: string, project: Option<string>, service: Option<string>)

  predicate HasCompose(c: Rebuilt) {
    c.project.Some? && c.project.value != "" && c.service.Some? && c.service.value != ""
  }

  /** make_composite_key raises unless this holds. */
  predicate KeyValid(c: Rebuilt) {
    c.host != "" && |c.id| == 12
  }

  function SubjectOf(c: Rebuilt): Subject {
    Subject(CONTAINER, c.host + ":" + c.id)
  }

  predicate ComposeMatch(m: Table, c: Rebuilt, k: Key) {
    && k in m && k.subject.kind == CONTAINER && HasCompose(c)
    && m[k].identity.project == c.project && m[k].identity.service == c.service
    && m[k].identity.host == Some(c.host)
  }

  predicate NameMatch(m: Table, c: Rebuilt, k: Key) {
    && k in m && k.subject.kind == CONTAINER
    && m[k].identity.name == Some(c.name) && m[k].identity.host == Some(c.host)
  }

  function ComposeTags(m: Table, c: Rebuilt): set<TagName> {
    set k | k in m && ComposeMatch(m, c, k) :: k.tag
  }

  function NameTags(m: Table, c: Rebuilt): set<TagName> {
    set k | k in m && NameMatch(m, c, k) :: k.tag
  }

  function Missing(m: Table, s: Subject, tags: set<TagName>): set<TagName> {
    set t | t in tags && !Assigned(m, s, t)
  }

  /** New assignments get the column's default index 0. */
  function Attach(m: Table, s: Subject, tags: set<TagName>, identity: Identity): Table {
    m + map t | t in tags :: Key(t, s) := Row(0, identity)
  }

  function ComposeIdentity(c: Rebuilt): Identity {
    Identity(c.project, c.service, Some(c.host), Some(c.name))
  }

  function NameIdentity(c: Rebuilt): Identity {
    Identity(None, None, Some(c.host), Some(c.name))
  }

  /** The tags one call adds: those of the compose identity, or failing that those of the name. */
  function NewTags(m: Table, c: Rebuilt): set<TagName> {
    var byCompose := Missing(m, SubjectOf(c), ComposeTags(m, c));
    if byCompose != {} then byCompose else Missing(m, SubjectOf(c), NameTags(m, c))
  }

  /** The table after one call, for a container with a valid key. */
  function Reattach(m: Table, c: Rebuilt): Table {
    var byCompose := Missing(m, SubjectOf(c), ComposeTags(m, c));
    if byCompose != {} then Attach(m, SubjectOf(c), byCompose, ComposeIdentity(c))
    else Attach(m, SubjectOf(c), Missing(m, SubjectOf(c), NameTags(m, c)), NameIdentity(c))
  }

  /** What one call leaves assigned and findable. */
  lemma ReattachEffect(m: Table, c: Rebuilt)
    ensures var m', s := Reattach(m, c), SubjectOf(c);
            && (forall t :: Assigned(m', s, t) <==> Assigned(m, s, t) || t in NewTags(m, c))
            && (forall k | k in m :: k in m' && m'[k] == m[k])
            && (forall k | k in m' && k !in m :: k.subject == s)
            && ComposeTags(m', c) == ComposeTags(m, c)
            && NameTags(m', c) == NameTags(m, c) + NewTags(m, c)
  {
    var m', s := Reattach(m, c), SubjectOf(c);
    var added := NewTags(m, c);
    forall t | t in added ensures Key(t, s) in m' && NameMatch(m', c, Key(t, s)) {
    }
    forall k | k in m ensures k in m' && m'[k] == m[k] {
    }
    forall t ensures t in ComposeTags(m', c) <==> t in ComposeTags(m, c) {
      if t in ComposeTags(m, c) {
        var k :| k in m && ComposeMatch(m, c, k) && k.tag == t;
        assert ComposeMatch(m', c, k);
      }
      if t in ComposeTags(m', c) {
        var k :| k in m' && ComposeMatch(m', c, k) && k.tag == t;
        if k in m {
          assert ComposeMatch(m, c, k);
        } else {
          assert t in added;
        }
      }
    }
    forall t ensures t in NameTags(m', c) <==> t in NameTags(m, c) || t in added {
      if t in NameTags(m, c) {
        var k :| k in m && NameMatch(m, c, k) && k.tag == t;
        assert NameMatch(m', c, k);
      }
      if t in added {
        assert NameMatch(m', c, Key(t, s));
      }
      if t in NameTags(m', c) {
        var k :| k in m' && NameMatch(m', c, k) && k.tag == t;
        if k in m {
          assert NameMatch(m, c, k);
        }
      }
    }
  }

  lemma AttachNothing(m: Table, s: Subject, identity: Identity)
    ensures Attach(m, s, {}, identity) == m
  {
  }

  /** A call changes nothing exactly when it finds no tag to add. */
  lemma UnchangedIff(m: Table, c: Rebuilt)
    ensures Reattach(m, c) == m <==> NewTags(m, c) == {}
  {
    var s := SubjectOf(c);
    if t :| t in NewTags(m, c) {
      ReattachEffect(m, c);
      assert Assigned(Reattach(m, c), s, t) && !Assigned(m, s, t);
    } else {
      assert NewTags(m, c) == {};
      AttachNothing(m, s, ComposeIdentity(c));
      AttachNothing(m, s, NameIdentity(c));
    }
  }

  /** The row is a record of this compose service on this host, for a container of any id. */
  predicate SameService(m: Table, k: Key, c: Rebuilt) {
    && k in m && k.subject.kind == "container"
    && c.project.Some? && c.project.value != "" && m[k].identity.project == c.project
    && c.service.Some? && c.service.value != "" && m[k].identity.service == c.service
    && m[k].identity.host == Some(c.host)
  }

  /** The row is a record of a container of this name on this host. */
  predicate SameName(m: Table, k: Key, c: Rebuilt) {
    && k in m && k.subject.kind == "container"
    && m[k].identity.name == Some(c.name) && m[k].identity.host == Some(c.host)
  }

  lemma ServiceNewsIff(m: Table, c: Rebuilt)
    ensures Missing(m, SubjectOf(c), ComposeTags(m, c)) != {} <==>
            exists k :: SameService(m, k, c) && Key(k.tag, SubjectOf(c)) !in m
  {
    var news := Missing(m, SubjectOf(c), ComposeTags(m, c));
    if k :| SameService(m, k, c) && Key(k.tag, SubjectOf(c)) !in m {
      assert ComposeMatch(m, c, k);
      assert k.tag in news;
    }
    if u :| u in news {
      var k :| k in m && ComposeMatch(m, c, k) && k.tag == u;
      assert SameService(m, k, c);
    }
  }

  /** Whose tags a call gives to the container, in the fields of the rows: each new tag was
      recorded for this compose service or else for this name, on this host; the tags of the
      service all come, and if they bring nothing new, those of the name do. */
  lemma TagsBelong(m: Table, c: Rebuilt, t: TagName)
    ensures var s, m' := Subject("container", c.host + ":" + c.id), Reattach(m, c);
            var ofService := exists k :: SameService(m, k, c) && k.tag == t;
            var ofName := exists k :: SameName(m, k, c) && k.tag == t;
            var serviceIsNews := exists k :: SameService(m, k, c) && Key(k.tag, s) !in m;
            && (Key(t, s) in m' <==> Key(t, s) in m || ofService || (ofName && !serviceIsNews))
  {
    var s := SubjectOf(c);
    ReattachEffect(m, c);
    forall k: Key ensures SameService(m, k, c) <==> ComposeMatch(m, c, k) {
    }
    forall k: Key ensures SameName(m, k, c) <==> NameMatch(m, c, k) {
    }
    ServiceNewsIff(m, c);
  }

  /** What is recorded with a new assignment: index 0, host and name, and the compose identity if
      it was found by that. */
  lemma NewRowsRecord(m: Table, c: Rebuilt, k: Key)
    requires k in Reattach(m, c) && k !in m
    ensures var s, row := Subject("container", c.host + ":" + c.id), Reattach(m, c)[k];
            && k.subject == s && row.order == 0
            && row.identity.host == Some(c.host) && row.identity.name == Some(c.name)
            && if exists l :: SameService(m, l, c) && Key(l.tag, s) !in m
               then row.identity.project == c.project && row.identity.service == c.service
               else row.identity.project == None && row.identity.service == None
  {
    ServiceNewsIff(m, c);
  }

  lemma ReattachedAtZero(m: Table, c: Rebuilt)
    ensures forall t | t in NewTags(m, c) ::
              !Assigned(m, SubjectOf(c), t) && Assigned(Reattach(m, c), SubjectOf(c), t) &&
              Order(Reattach(m, c), SubjectOf(c), t) == 0
  {
  }

  /** Reattached tags all get index 0. They keep the container's indices distinct exactly if
      these were, at most one tag is new, and if one is, none stands at 0 already. */
  lemma ReattachOrders(m: Table, c: Rebuilt)
    ensures var s, added := SubjectOf(c), NewTags(m, c);
            OrdersDistinct(Reattach(m, c), s) <==>
            && OrdersDistinct(m, s)
            && (forall t, u | t in added && u in added :: t == u)
            && (added != {} ==> forall t | Assigned(m, s, t) :: Order(m, s, t) != 0)
  {
    var s, added, m' := SubjectOf(c), NewTags(m, c), Reattach(m, c);
    ReattachEffect(m, c);
    ReattachedAtZero(m, c);
    assert forall t | Assigned(m, s, t) :: Assigned(m', s, t) && Order(m', s, t) == Order(m, s, t);
  }

  function Repeat(m: Table, c: Rebuilt, n: nat): Table {
    if n == 0 then m else Reattach(Repeat(m, c, n - 1), c)
  }

  /** One call is enough exactly when the compose identity brought nothing new, or the name
      has nothing beyond it: a successful compose match suppresses the name fallback. */
  lemma OneCallSettlesIff(m: Table, c: Rebuilt)
    ensures var s := SubjectOf(c);
            Repeat(m, c, 2) == Repeat(m, c, 1) <==>
            || Missing(m, s, ComposeTags(m, c)) == {}
            || Missing(m, s, NameTags(m, c)) <= ComposeTags(m, c)
  {
    var s := SubjectOf(c);
    var m1 := Reattach(m, c);
    assert Repeat(m, c, 1) == m1 by { assert Repeat(m, c, 0) == m; }
    ReattachEffect(m, c);
    UnchangedIff(m1, c);
    assert Missing(m1, s, ComposeTags(m1, c)) == {};
    assert NewTags(m1, c) == Missing(m1, s, NameTags(m1, c));
    if Missing(m, s, ComposeTags(m, c)) == {} {
      assert NewTags(m1, c) == {};
    } else {
      forall t ensures t in NewTags(m1, c) <==> t in Missing(m, s, NameTags(m, c)) && t !in ComposeTags(m, c) {
      }
    }
  }

  /** A second call adds just what the name has beyond the first call's result. */
  lemma SecondCall(m: Table, c: Rebuilt)
    ensures var s, m1 := SubjectOf(c), Reattach(m, c);
            && (forall t | t in ComposeTags(m, c) :: Assigned(m1, s, t))
            && (forall t :: t in NewTags(m1, c) <==> t in NameTags(m, c) && !Assigned(m1, s, t))
  {
    var s, m1 := SubjectOf(c), Reattach(m, c);
    ReattachEffect(m, c);
    forall t | t in ComposeTags(m, c) ensures Assigned(m1, s, t) {
      assert t in Missing(m, s, ComposeTags(m, c)) || Assigned(m, s, t);
    }
    assert Missing(m1, s, ComposeTags(m1, c)) == {};
    assert NewTags(m1, c) == Missing(m1, s, NameTags(m1, c));
  }

  lemma NewTagsMatch(m: Table, c: Rebuilt)
    ensures NewTags(m, c) <= ComposeTags(m, c) + NameTags(m, c)
  {
  }

  lemma CarriesAfterTwo(m: Table, c: Rebuilt)
    ensures forall t :: Assigned(Reattach(Reattach(m, c), c), SubjectOf(c), t) <==>
              Assigned(m, SubjectOf(c), t) || t in ComposeTags(m, c) || t in NameTags(m, c)
  {
    var m1, s := Reattach(m, c), SubjectOf(c);
    ReattachEffect(m, c);
    assert forall t :: Assigned(m1, s, t) <==> Assigned(m, s, t) || t in NewTags(m, c);
    NewTagsMatch(m, c);
    SecondCall(m, c);
    assert forall t :: Assigned(Reattach(m1, c), s, t) <==> Assigned(m1, s, t) || t in NewTags(m1, c) by {
      ReattachEffect(m1, c);
    }
  }

  /** After two calls a third finds nothing. */
  lemma ThirdCallIdle(m: Table, c: Rebuilt)
    ensures Reattach(Reattach(Reattach(m, c), c), c) == Reattach(Reattach(m, c), c)
  {
    var m1, s := Reattach(m, c), SubjectOf(c);
    var m2 := Reattach(m1, c);
    SecondCall(m, c);
    SecondCall(m1, c);
    ReattachEffect(m, c);
    ReattachEffect(m1, c);
    forall t ensures t !in NewTags(m2, c) {
      assert t in NameTags(m1, c) ==> t in NameTags(m, c) || Assigned(m1, s, t);
    }
    assert NewTags(m2, c) == {};
    UnchangedIff(m2, c);
  }

  lemma {:induction false} RepeatSettles(m: Table, c: Rebuilt, n: nat)
    requires n >= 2
    ensures Repeat(m, c, n) == Reattach(Reattach(m, c), c)
  {
    if n == 2 {
      assert Repeat(m, c, 0) == m && Repeat(m, c, 1) == Reattach(m, c);
    } else {
      RepeatSettles(m, c, n - 1);
      ThirdCallIdle(m, c);
    }
  }

  /** Two calls always settle: whatever the table, every further call leaves it alone, and the
      container then carries just its former tags, all tags recorded under its compose
      identity and all tags recorded under its name. */
  lemma TwoCallsSettle(m: Table, c: Rebuilt, n: nat)
    requires n >= 2
    ensures Repeat(m, c, n) == Repeat(m, c, 2)
    ensures forall t :: Assigned(Repeat(m, c, n), SubjectOf(c), t) <==>
              Assigned(m, SubjectOf(c), t) || t in ComposeTags(m, c) || t in NameTags(m, c)
  {
    RepeatSettles(m, c, n);
    RepeatSettles(m, c, 2);
    CarriesAfterTwo(m, c);
  }

  const FORMER := Subject(CONTAINER, "h:old")
  const REBUILT := Rebuilt("h", "0123456789ab", "web", Some("p"), Some("s"))

  /** One tag recorded under the compose identity of the container, another under its name. */
  function TwoIdentities(): Table {
    map[Key("a", FORMER) := Row(0, Identity(Some("p"), Some("s"), Some("h"), None)),
        Key("b", FORMER) := Row(1, Identity(None, None, Some("h"), Some("web")))]
  }

  lemma TwoIdentitiesTags()
    ensures ComposeTags(TwoIdentities(), REBUILT) == {"a"} && NameTags(TwoIdentities(), REBUILT) == {"b"}
  {
    var m, a, b := TwoIdentities(), Key("a", FORMER), Key("b", FORMER);
    assert a in m && b in m && forall k | k in m :: k == a || k == b;
    assert ComposeMatch(m, REBUILT, a) && !ComposeMatch(m, REBUILT, b);
    assert !NameMatch(m, REBUILT, a) && NameMatch(m, REBUILT, b);
  }

  lemma NewSubject(t: TagName)
    ensures !Assigned(TwoIdentities(), SubjectOf(REBUILT), t)
  {
    assert |SubjectOf(REBUILT).id| > |FORMER.id|;
  }

  /** There the first call attaches the one tag, and only the second call the other. */
  lemma SecondCallAdds()
    ensures KeyValid(REBUILT)
    ensures var once := Reattach(TwoIdentities(), REBUILT);
            && Assigned(once, SubjectOf(REBUILT), "a") && !Assigned(once, SubjectOf(REBUILT), "b")
            && Assigned(Reattach(once, REBUILT), SubjectOf(REBUILT), "b")
  {
    var m, s := TwoIdentities(), SubjectOf(REBUILT);
    TwoIdentitiesTags();
    NewSubject("a");
    NewSubject("b");
    assert Missing(m, s, {"a"}) == {"a"};
    assert NewTags(m, REBUILT) == {"a"};
    ReattachEffect(m, REBUILT);
    CarriesAfterTwo(m, REBUILT);
  }

  /** Two tags recorded under the name of the container. */
  function TwoByName(): Table {
    map[Key("a", FORMER) := Row(0, Identity(None, None, Some("h"), Some("web"))),
        Key("b", FORMER) := Row(1, Identity(None, None, Some("h"), Some("web")))]
  }

  lemma TwoByNameTags()
    ensures NewTags(TwoByName(), REBUILT) == {"a", "b"}
    ensures forall t :: !Assigned(TwoByName(), SubjectOf(REBUILT), t)
    ensures OrdersDistinct(TwoByName(), FORMER)
  {
    var m, a, b := TwoByName(), Key("a", FORMER), Key("b", FORMER);
    assert a in m && b in m && forall k | k in m :: k == a || k == b;
    assert |SubjectOf(REBUILT).id| > |FORMER.id|;
    assert ComposeTags(m, REBUILT) == {};
    assert NameMatch(m, REBUILT, a) && NameMatch(m, REBUILT, b);
    assert NameTags(m, REBUILT) == {"a", "b"};
  }

  lemma BothReattached(t: TagName)
    ensures var m', s := Reattach(TwoByName(), REBUILT), SubjectOf(REBUILT);
            && (Assigned(m', s, t) <==> t == "a" || t == "b")
            && (Assigned(m', s, t) ==> Order(m', s, t) == 0)
  {
    TwoByNameTags();
    ReattachEffect(TwoByName(), REBUILT);
    ReattachedAtZero(TwoByName(), REBUILT);
    assert t in {"a", "b"} <==> t == "a" || t == "b";
  }

  /** They were in order, and come back in either order. */
  lemma ReattachedTagsTie()
    ensures OrdersDistinct(TwoByName(), FORMER)
    ensures IsListing(Reattach(TwoByName(), REBUILT), SubjectOf(REBUILT), ["a", "b"])
    ensures IsListing(Reattach(TwoByName(), REBUILT), SubjectOf(REBUILT), ["b", "a"])
  {
    var m', s := Reattach(TwoByName(), REBUILT), SubjectOf(REBUILT);
    TwoByNameTags();
    forall t ensures Assigned(m', s, t) <==> t == "a" || t == "b" {
      BothReattached(t);
    }
    BothReattached("a");
    BothReattached("b");
    TieListings(m', s, "a", "b");
  }

  lemma TieListings(m: Table, s: Subject, a: TagName, b: TagName)
    requires a != b && forall t :: Assigned(m, s, t) <==> t == a || t == b
    requires Assigned(m, s, a) && Assigned(m, s, b) && Order(m, s, a) == Order(m, s, b)
    ensures IsListing(m, s, [a, b]) && IsListing(m, s, [b, a])
  {
    PairListing(m, s, a, b);
    PairListing(m, s, b, a);
  }
}
