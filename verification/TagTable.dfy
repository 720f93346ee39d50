/**
  The tag_assignments table of backend/database.py and the two modes of
  update_subject_tags. A tag is identified by its unique name; the primary key of an
  assignment is the tag with the type and id of its subject.
*/
module TagTable {
  import opened Wrappers

  type TagName = string

  datatype Subject = Subject(kind: string, id: string)

  datatype Key = Key(tag: TagName, subject: Subject)

  /** The logical identity recorded with an assignment; None is NULL. */
  datatype Identity = Identity(project: Option<string>, service: Option<string>, host: Option<string>,
                               name: Option<string>)

  datatype Row = Row(order: int, identity: Identity)

  type Table = map<Key, Row>

  predicate Assigned(m: Table, s: Subject, t: TagName) {
    Key(t, s) in m
  }

  function Order(m: Table, s: Subject, t: TagName): int
    requires Assigned(m, s, t)
  {
    m[Key(t, s)].order
  }

  predicate Distinct(tags: seq<TagName>) {
    forall i, j | 0 <= i < j < |tags| :: tags[i] != tags[j]
  }

  /** What get_tags_for_subject may return: the subject's tags sorted by order_index; the
      database is free in the order of tags that share an index. */
  ghost predicate IsListing(m: Table, s: Subject, tags: seq<TagName>) {
    && Distinct(tags)
    && (forall t :: t in tags <==> Assigned(m, s, t))
    && (forall i, j | 0 <= i < j < |tags| ::
          Assigned(m, s, tags[i]) && Assigned(m, s, tags[j]) &&
          Order(m, s, tags[i]) <= Order(m, s, tags[j]))
  }

  ghost predicate OrdersDistinct(m: Table, s: Subject) {
    forall t, u | Assigned(m, s, t) && Assigned(m, s, u) && Order(m, s, t) == Order(m, s, u) :: t == u
  }

  /** The two tables agree on every subject but s. */
  ghost predicate SameElsewhere(m: Table, m': Table, s: Subject) {
    forall k: Key | k.subject != s :: (k in m <==> k in m') && (k in m ==> m[k] == m'[k])
  }

  // ---------------------------------------------------------------- listings

  /** With distinct indices the listing is determined. */
  lemma {:induction false} ListingUnique(m: Table, s: Subject, a: seq<TagName>, b: seq<TagName>)
    requires OrdersDistinct(m, s) && IsListing(m, s, a) && IsListing(m, s, b)
    ensures a == b
  {
    SortedUnique(a, b, t => if Assigned(m, s, t) then Order(m, s, t) else 0);
  }

  lemma PairListing(m: Table, s: Subject, a: TagName, b: TagName)
    requires a != b && forall t :: Assigned(m, s, t) <==> t == a || t == b
    requires Assigned(m, s, a) && Assigned(m, s, b) && Order(m, s, a) <= Order(m, s, b)
    ensures IsListing(m, s, [a, b])
  {
    forall t ensures t in [a, b] <==> t == a || t == b {
    }
  }

  lemma HeadIn(tags: seq<TagName>)
    requires tags != []
    ensures tags[0] in tags
  {
  }

  lemma InTail(tags: seq<TagName>, t: TagName)
    requires Distinct(tags) && tags != []
    ensures t in tags[1..] <==> t in tags && t != tags[0]
  {
  }

  lemma SameHead(a: seq<TagName>, b: seq<TagName>, rank: TagName -> int)
    requires a != [] && forall t :: t in a <==> t in b
    requires forall t, u | t in a && u in a && rank(t) == rank(u) :: t == u
    requires forall i, j | 0 <= i < j < |a| :: rank(a[i]) <= rank(a[j])
    requires forall i, j | 0 <= i < j < |b| :: rank(b[i]) <= rank(b[j])
    ensures b != [] && a[0] == b[0]
  {
    assert a[0] in b && b != [] && b[0] in a;
    var i :| 0 <= i < |b| && b[i] == a[0];
    var j :| 0 <= j < |a| && a[j] == b[0];
    assert rank(b[0]) <= rank(a[0]) <= rank(b[0]);
  }

  lemma {:induction false} SortedUnique(a: seq<TagName>, b: seq<TagName>, rank: TagName -> int)
    requires Distinct(a) && Distinct(b)
    requires forall t :: t in a <==> t in b
    requires forall t, u | t in a && u in a && rank(t) == rank(u) :: t == u
    requires forall i, j | 0 <= i < j < |a| :: rank(a[i]) <= rank(a[j])
    requires forall i, j | 0 <= i < j < |b| :: rank(b[i]) <= rank(b[j])
    ensures a == b
  {
    if a == [] {
      if b != [] {
        HeadIn(b);
        assert false;
      }
    } else {
      SameHead(a, b, rank);
      forall t ensures t in a[1..] <==> t in b[1..] {
        InTail(a, t);
        InTail(b, t);
      }
      SortedUnique(a[1..], b[1..], rank);
    }
  }

  // ---------------------------------------------------------------- set mode

  function WithoutSubject(m: Table, s: Subject): Table {
    map k | k in m && k.subject != s :: m[k]
  }

  /** The table after assigning the tags at base, base + 1, ... */
  function Appended(m: Table, s: Subject, tags: seq<TagName>, base: int, identity: Identity): Table {
    if tags == [] then m
    else
      var n := |tags| - 1;
      Appended(m, s, tags[..n], base, identity)[Key(tags[n], s) := Row(base + n, identity)]
  }

  function SetTags(m: Table, s: Subject, tags: seq<TagName>, identity: Identity): Table {
    Appended(WithoutSubject(m, s), s, tags, 0, identity)
  }

  lemma {:induction false} AppendedKeys(m: Table, s: Subject, tags: seq<TagName>, base: int, identity: Identity)
    ensures forall k :: k in Appended(m, s, tags, base, identity) <==> k in m || (k.subject == s && k.tag in tags)
    ensures forall k | k in m && !(k.subject == s && k.tag in tags) ::
              Appended(m, s, tags, base, identity)[k] == m[k]
  {
    if tags != [] {
      var n := |tags| - 1;
      AppendedKeys(m, s, tags[..n], base, identity);
      assert tags == tags[..n] + [tags[n]];
    }
  }

  lemma {:induction false} AppendedOrders(m: Table, s: Subject, tags: seq<TagName>, base: int, identity: Identity)
    requires Distinct(tags)
    ensures forall i | 0 <= i < |tags| ::
              Assigned(Appended(m, s, tags, base, identity), s, tags[i]) &&
              Order(Appended(m, s, tags, base, identity), s, tags[i]) == base + i &&
              Appended(m, s, tags, base, identity)[Key(tags[i], s)].identity == identity
  {
    if tags != [] {
      var n := |tags| - 1;
      AppendedOrders(m, s, tags[..n], base, identity);
      assert forall i | 0 <= i < n :: tags[..n][i] == tags[i] != tags[n];
    }
  }

  /** Setting an ordered list of distinct tags and reading it back returns that very list,
      at indices 0, 1, 2, ..., and no other subject changes. */
  lemma SetThenGet(m: Table, s: Subject, tags: seq<TagName>, identity: Identity, listing: seq<TagName>)
    requires Distinct(tags)
    ensures IsListing(SetTags(m, s, tags, identity), s, listing) <==> listing == tags
    ensures forall i | 0 <= i < |tags| ::
              Assigned(SetTags(m, s, tags, identity), s, tags[i]) &&
              Order(SetTags(m, s, tags, identity), s, tags[i]) == i &&
              SetTags(m, s, tags, identity)[Key(tags[i], s)].identity == identity
    ensures SameElsewhere(m, SetTags(m, s, tags, identity), s)
  {
    var m' := SetTags(m, s, tags, identity);
    AppendedKeys(WithoutSubject(m, s), s, tags, 0, identity);
    AppendedOrders(WithoutSubject(m, s), s, tags, 0, identity);
    assert forall t :: Assigned(m', s, t) <==> t in tags;
    assert IsListing(m', s, tags);
    assert OrdersDistinct(m', s);
    if IsListing(m', s, listing) {
      ListingUnique(m', s, listing, tags);
    }
  }

  // ---------------------------------------------------------------- delta mode

  /** The largest index of the subject, as the query's func.max. */
  ghost predicate IsMaxOrder(m: Table, s: Subject, max: Option<int>) {
    match max
    case None => forall t :: !Assigned(m, s, t)
    case Some(o) =>
      && (exists t :: Assigned(m, s, t) && Order(m, s, t) == o)
      && (forall t | Assigned(m, s, t) :: Order(m, s, t) <= o)
  }

  /** `scalar() or -1`: zero counts as false. */
  function OrMinusOne(max: Option<int>): int {
    if max.None? || max.value == 0 then -1 else max.value
  }

  function Removed(m: Table, s: Subject, remove: seq<TagName>): Table {
    map k | k in m && !(k.subject == s && k.tag in remove) :: m[k]
  }

  /** The additions do not violate the primary key. */
  predicate Addable(m: Table, s: Subject, add: seq<TagName>) {
    Distinct(add) && forall t | t in add :: !Assigned(m, s, t)
  }

  /** The removals are committed one by one before the additions, which fail as a whole. */
  function Delta(m: Table, s: Subject, add: seq<TagName>, remove: seq<TagName>, max: Option<int>,
                 identity: Identity): Table
  {
    var kept := Removed(m, s, remove);
    if Addable(kept, s, add) then Appended(kept, s, add, OrMinusOne(max) + 1, identity) else kept
  }

  /** `or -1` restarts the numbering at 0 although a tag stays at index 0. */
  ghost predicate RestartsOnTop(m: Table, s: Subject, remove: seq<TagName>, max: Option<int>) {
    max == Some(0) && exists t :: Assigned(m, s, t) && t !in remove && Order(m, s, t) == 0
  }

  /** Every tag of the list comes after t. */
  ghost predicate AllAfter(m: Table, s: Subject, t: TagName, tags: seq<TagName>) {
    Assigned(m, s, t) &&
    forall i | 0 <= i < |tags| :: Assigned(m, s, tags[i]) && Order(m, s, t) < Order(m, s, tags[i])
  }

  ghost predicate OrdersNatural(m: Table, s: Subject) {
    forall t | Assigned(m, s, t) :: Order(m, s, t) >= 0
  }

  lemma DeltaEntries(m: Table, s: Subject, add: seq<TagName>, remove: seq<TagName>, max: Option<int>, identity: Identity)
    requires Addable(Removed(m, s, remove), s, add)
    ensures var m' := Delta(m, s, add, remove, max, identity);
            && (forall t :: Assigned(m', s, t) <==> t in add || (Assigned(m, s, t) && t !in remove))
            && (forall t | Assigned(m, s, t) && t !in remove :: m'[Key(t, s)] == m[Key(t, s)])
            && (forall i | 0 <= i < |add| ::
                  Order(m', s, add[i]) == (if max.None? || max.value == 0 then i else max.value + 1 + i) &&
                  m'[Key(add[i], s)].identity == identity)
            && SameElsewhere(m, m', s)
  {
    AppendedKeys(Removed(m, s, remove), s, add, OrMinusOne(max) + 1, identity);
    AppendedOrders(Removed(m, s, remove), s, add, OrMinusOne(max) + 1, identity);
    var m' := Delta(m, s, add, remove, max, identity);
    forall t | Assigned(m, s, t) && t !in remove ensures t !in add && Order(m', s, t) == Order(m, s, t) {
      assert Assigned(Removed(m, s, remove), s, t);
    }
  }

  /** A delta that adds something keeps the indices distinct, and puts the new tags last in
      their given order, exactly when it does not restart on top of a tag at index 0. */
  lemma DeltaOrders(m: Table, s: Subject, add: seq<TagName>, remove: seq<TagName>, max: Option<int>, identity: Identity)
    requires OrdersDistinct(m, s) && OrdersNatural(m, s) && IsMaxOrder(m, s, max)
    requires Addable(Removed(m, s, remove), s, add) && add != []
    ensures var m' := Delta(m, s, add, remove, max, identity);
            && (OrdersDistinct(m', s) <==> !RestartsOnTop(m, s, remove, max))
            && ((forall t | Assigned(m, s, t) && t !in remove :: AllAfter(m', s, t, add)) <==>
                !RestartsOnTop(m, s, remove, max))
            && OrdersNatural(m', s)
  {
    var m' := Delta(m, s, add, remove, max, identity);
    DeltaEntries(m, s, add, remove, max, identity);
    if RestartsOnTop(m, s, remove, max) {
      var t :| Assigned(m, s, t) && t !in remove && Order(m, s, t) == 0;
      assert Assigned(Removed(m, s, remove), s, t);
      assert Order(m', s, t) == 0 == Order(m', s, add[0]);
    } else {
      forall t | Assigned(m, s, t) && t !in remove ensures AllAfter(m', s, t, add) {
        assert Order(m, s, t) <= max.value;
      }
      forall t, u | Assigned(m', s, t) && Assigned(m', s, u) && Order(m', s, t) == Order(m', s, u)
        ensures t == u
      {
        if t in add {
          var i :| 0 <= i < |add| && add[i] == t;
        }
        if u in add {
          var j :| 0 <= j < |add| && add[j] == u;
        }
      }
    }
  }

  /** When nothing is added or the numbering does not restart, reading the subject afterwards
      gives the tags that were kept, in their order, followed by the new ones. */
  lemma DeltaThenGet(m: Table, s: Subject, add: seq<TagName>, remove: seq<TagName>, max: Option<int>,
                     identity: Identity, kept: seq<TagName>, listing: seq<TagName>)
    requires OrdersDistinct(m, s) && OrdersNatural(m, s) && IsMaxOrder(m, s, max)
    requires Addable(Removed(m, s, remove), s, add)
    requires add != [] ==> !RestartsOnTop(m, s, remove, max)
    requires IsListing(Removed(m, s, remove), s, kept)
    ensures IsListing(Delta(m, s, add, remove, max, identity), s, listing) <==> listing == kept + add
  {
    var m' := Delta(m, s, add, remove, max, identity);
    var r := Removed(m, s, remove);
    DeltaEntries(m, s, add, remove, max, identity);
    if add == [] {
      assert kept + add == kept;
    } else {
      DeltaOrders(m, s, add, remove, max, identity);
    }
    forall t ensures t in kept <==> Assigned(m, s, t) && t !in remove {
      assert t in kept <==> Assigned(r, s, t);
    }
    assert OrdersDistinct(m', s);
    var all := kept + add;
    forall i, j | 0 <= i < j < |all| ensures all[i] != all[j] && Order(m', s, all[i]) <= Order(m', s, all[j]) {
      if j < |kept| {
        assert kept[i] in kept && kept[j] in kept;
        assert Order(r, s, kept[i]) <= Order(r, s, kept[j]);
      } else if i < |kept| {
        assert kept[i] in kept && all[j] == add[j - |kept|];
      } else {
        assert all[i] == add[i - |kept|] && all[j] == add[j - |kept|];
      }
    }
    assert IsListing(m', s, all);
    if IsListing(m', s, listing) {
      ListingUnique(m', s, listing, all);
    }
  }

  /** The restart in the commonest case: adding a second tag leaves both at index 0, and the
      subject may from then on be read in either order. */
  lemma SecondTagTies(s: Subject, a: TagName, b: TagName, identity: Identity)
    requires a != b
    ensures var m := SetTags(map[], s, [a], identity);
            && IsMaxOrder(m, s, Some(0))
            && var m' := Delta(m, s, [b], [], Some(0), identity);
               IsListing(m', s, [a, b]) && IsListing(m', s, [b, a])
  {
    var m := SetTags(map[], s, [a], identity);
    SetThenGet(map[], s, [a], identity, [a]);
    assert IsListing(m, s, [a]);
    assert Order(m, s, [a][0]) == 0;
    assert forall t :: Assigned(m, s, t) <==> t in [a];
    assert IsMaxOrder(m, s, Some(0));
    assert !Assigned(m, s, b) && Removed(m, s, []) == m;
    DeltaEntries(m, s, [b], [], Some(0), identity);
    var m' := Delta(m, s, [b], [], Some(0), identity);
    assert Order(m', s, [b][0]) == 0 && Order(m', s, a) == 0;
    assert forall t :: Assigned(m', s, t) <==> t == a || t == b;
  }
}
