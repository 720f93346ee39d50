/** The tag methods of DatabaseManager in backend/database.py, on the table in place. */
module Database {
  import opened Wrappers
  import opened OldestFirst
  import opened TagTable
  import opened TagNames
  import opened TagReattach
  import opened HostTags

  datatype Error = InvalidSubjectType | BothModes | NoMode | TooManyTags | InvalidTagName | DuplicateAssignment | InvalidKey

  datatype Result<+T> = Ok(value: T) | Err(error: Error)

  const MAX_TAGS_PER_OPERATION: nat := 50

  /** Python's truth of an optional list. */
  predicate Truthy(tags: Option<seq<TagName>>) {
    tags.Some? && tags.value != []
  }

  function OrEmpty(tags: Option<seq<TagName>>): seq<TagName> {
    if tags.Some? then tags.value else []
  }

  predicate ValidSubject(s: Subject) {
    s.kind == "host" || s.kind == "container" || s.kind == "group"
  }

  /** The checks made before the table is touched. */
  function Refusal(s: Subject, add: Option<seq<TagName>>, remove: Option<seq<TagName>>,
                   ordered: Option<seq<TagName>>): Option<Error>
  {
    if !ValidSubject(s) then Some(InvalidSubjectType)
    else if ordered.Some? && (Truthy(add) || Truthy(remove)) then Some(BothModes)
    else if ordered.None? && add.None? && remove.None? then Some(NoMode)
    else if |OrEmpty(add)| > MAX_TAGS_PER_OPERATION || |OrEmpty(remove)| > MAX_TAGS_PER_OPERATION ||
            |OrEmpty(ordered)| > MAX_TAGS_PER_OPERATION then Some(TooManyTags)
    else None
  }

  function TagsIn(rows: seq<Key>): set<TagName> {
    set k | k in rows :: k.tag
  }

  lemma MissingStep(m: Table, s: Subject, rows: seq<Key>, i: nat)
    requires i < |rows|
    ensures Missing(m, s, TagsIn(rows[..i + 1])) ==
            Missing(m, s, TagsIn(rows[..i])) + if Assigned(m, s, rows[i].tag) then {} else {rows[i].tag}
  {
    assert rows[..i + 1] == rows[..i] + [rows[i]];
    assert TagsIn(rows[..i + 1]) == TagsIn(rows[..i]) + {rows[i].tag};
  }

  lemma AttachOne(m: Table, s: Subject, tags: set<TagName>, t: TagName, identity: Identity)
    ensures Attach(m, s, tags, identity)[Key(t, s) := Row(0, identity)] == Attach(m, s, tags + {t}, identity)
    ensures Assigned(Attach(m, s, tags, identity), s, t) <==> Assigned(m, s, t) || t in tags
  {
    var a, b := Attach(m, s, tags, identity)[Key(t, s) := Row(0, identity)], Attach(m, s, tags + {t}, identity);
    forall k: Key ensures (k in a <==> k in b) && (k in a ==> a[k] == b[k]) {
    }
    assert a == b;
  }

  lemma CleanedNext(names: seq<string>, i: nat)
    requires i < |names|
    ensures Cleaned(names[i..]) ==
            if Clean(names[i]).None? then [] else [Clean(names[i]).value] + Cleaned(names[i + 1..])
  {
    assert names[i..][0] == names[i] && names[i..][1..] == names[i + 1..];
  }

  lemma RemovedNext(m: Table, s: Subject, done: seq<TagName>, t: TagName)
    ensures Removed(Removed(m, s, done), s, [t]) == Removed(m, s, done + [t])
  {
    forall k: Key ensures k in Removed(Removed(m, s, done), s, [t]) <==> k in Removed(m, s, done + [t]) {
    }
  }

  /** The tags listed so far are sorted, and precede those to do, which come with their index. */
  ghost predicate ListedSoFar(m: Table, s: Subject, tags: seq<TagName>, todo: map<TagName, int>) {
    && Distinct(tags)
    && (forall t :: Assigned(m, s, t) <==> t in tags || t in todo)
    && (forall t | t in todo :: t !in tags && Assigned(m, s, t) && todo[t] == Order(m, s, t))
    && (forall i | 0 <= i < |tags| :: Assigned(m, s, tags[i]))
    && (forall i, j | 0 <= i < j < |tags| :: Order(m, s, tags[i]) <= Order(m, s, tags[j]))
    && (forall i, t | 0 <= i < |tags| && t in todo :: Order(m, s, tags[i]) <= todo[t])
  }

  lemma ListNext(m: Table, s: Subject, tags: seq<TagName>, todo: map<TagName, int>, t: TagName)
    requires ListedSoFar(m, s, tags, todo)
    requires t in todo && forall u | u in todo :: todo[t] <= todo[u]
    ensures ListedSoFar(m, s, tags + [t], todo - {t})
  {
    var longer := tags + [t];
    forall i | 0 <= i < |longer| ensures longer[i] == if i < |tags| then tags[i] else t {
    }
    assert forall u :: u in longer <==> u in tags || u == t;
  }

  /** A former row is found exactly if one is recorded for the service or the name. */
  lemma FormerRows(m: Table, c: Rebuilt)
    ensures ComposeTags(m, c) != {} || NameTags(m, c) != {} <==>
            exists k :: SameService(m, k, c) || SameName(m, k, c)
  {
    if k :| SameService(m, k, c) || SameName(m, k, c) {
      assert ComposeMatch(m, c, k) || NameMatch(m, c, k);
      assert k.tag in ComposeTags(m, c) || k.tag in NameTags(m, c);
    } else {
      assert forall k :: !SameService(m, k, c) && !SameName(m, k, c);
      assert forall k | k in m :: ComposeMatch(m, c, k) ==> SameService(m, k, c);
      assert forall k | k in m :: NameMatch(m, c, k) ==> SameName(m, k, c);
    }
  }

  /** What an update must satisfy to be carried out: a subject of a known kind, exactly one
      mode (an ordered list with no others, or at least one other list), at most 50 tags a list. */
  lemma AcceptedIff(s: Subject, add: Option<seq<TagName>>, remove: Option<seq<TagName>>, ordered: Option<seq<TagName>>)
    ensures Refusal(s, add, remove, ordered).None? <==>
            && s.kind in {"host", "container", "group"}
            && (if ordered.Some? then (add.Some? ==> add.value == []) && (remove.Some? ==> remove.value == [])
                else add.Some? || remove.Some?)
            && (forall tags | Some(tags) in {add, remove, ordered} :: |tags| <= 50)
    ensures Refusal(s, add, remove, ordered) == Some(InvalidSubjectType) <==> s.kind !in {"host", "container", "group"}
    ensures Refusal(s, add, remove, ordered) == Some(BothModes) ==>
              ordered.Some? && ((add.Some? && add.value != []) || (remove.Some? && remove.value != []))
    ensures Refusal(s, add, remove, ordered) == Some(NoMode) ==> add == None && remove == None && ordered == None
    ensures Refusal(s, add, remove, ordered) == Some(TooManyTags) ==>
              exists tags :: Some(tags) in {add, remove, ordered} && |tags| > 50
  {
    assert add in {add, remove, ordered} && remove in {add, remove, ordered} && ordered in {add, remove, ordered};
  }

  class DatabaseManager {
    var table: Table   // tag_assignments

    /** func.max(order_index) over the subject's rows */
    method MaxOrder(s: Subject) returns (max: Option<int>)
      ensures IsMaxOrder(table, s, max)
    {
      var todo := set k | k in table && k.subject == s;
      max := None;
      while todo != {}
        invariant forall k | k in todo :: k in table && k.subject == s
        invariant match max
                  case None => forall t | Assigned(table, s, t) :: Key(t, s) in todo
                  case Some(o) =>
                    (exists t :: Assigned(table, s, t) && Order(table, s, t) == o) &&
                    (forall t | Assigned(table, s, t) && Key(t, s) !in todo :: Order(table, s, t) <= o)
        decreases todo
      {
        var k :| k in todo;
        todo := todo - {k};
        assert k == Key(k.tag, s) && Assigned(table, s, k.tag);
        if max.None? || max.value < table[k].order {
          max := Some(table[k].order);
          assert Order(table, s, k.tag) == max.value;
        }
      }
    }

    /** The additions of one transaction, from index `base`. A tag that is assigned already
        violates the primary key, and the whole transaction is rolled back. */
    method AddAssignments(s: Subject, tags: seq<TagName>, base: int, identity: Identity) returns (ok: bool)
      modifies this
      ensures ok <==> Addable(old(table), s, tags)
      ensures table == if ok then Appended(old(table), s, tags, base, identity) else old(table)
    {
      var pending := table;
      for i := 0 to |tags|
        invariant table == old(table)
        invariant pending == Appended(table, s, tags[..i], base, identity)
        invariant Addable(table, s, tags[..i])
      {
        AppendedKeys(table, s, tags[..i], base, identity);
        assert tags[..i + 1] == tags[..i] + [tags[i]];
        if Key(tags[i], s) in pending {
          NotAddable(table, s, tags, i);
          return false;
        }
        pending := pending[Key(tags[i], s) := Row(base + i, identity)];
      }
      assert tags[..|tags|] == tags;
      table := pending;
      return true;
    }

    lemma NotAddable(m: Table, s: Subject, tags: seq<TagName>, i: nat)
      requires i < |tags|
      requires Assigned(m, s, tags[i]) || tags[i] in tags[..i]
      ensures !Addable(m, s, tags)
    {
      if tags[i] in tags[..i] {
        var j :| 0 <= j < i && tags[..i][j] == tags[i];
        assert tags[j] == tags[i];
      }
    }

    /** update_subject_tags; in delta mode the removals stay even if a later one is refused
        or the additions fail. */
    method UpdateSubjectTags(s: Subject, add: Option<seq<TagName>>, remove: Option<seq<string>>,
                             ordered: Option<seq<TagName>>, identity: Identity) returns (r: Result<seq<TagName>>)
      modifies this
      ensures Refusal(s, add, remove, ordered).Some? ==>
                r == Err(Refusal(s, add, remove, ordered).value) && table == old(table)
      ensures Refusal(s, add, remove, ordered).None? && ordered.Some? ==>
                && r == (if Distinct(ordered.value) then Ok(ordered.value) else Err(DuplicateAssignment))
                && table == if r.Ok? then SetTags(old(table), s, ordered.value, identity) else old(table)
      ensures Refusal(s, add, remove, ordered).None? && ordered.None? && !AllClean(OrEmpty(remove)) ==>
                r == Err(InvalidTagName) && table == Removed(old(table), s, Cleaned(OrEmpty(remove)))
      ensures Refusal(s, add, remove, ordered).None? && ordered.None? && AllClean(OrEmpty(remove)) ==>
                && (if Addable(Removed(old(table), s, Cleaned(OrEmpty(remove))), s, OrEmpty(add))
                    then r.Ok? && IsListing(table, s, r.value) else r == Err(DuplicateAssignment))
                && exists max :: IsMaxOrder(old(table), s, max) &&
                     table == Delta(old(table), s, OrEmpty(add), Cleaned(OrEmpty(remove)), max, identity)
      ensures Refusal(s, add, remove, ordered).None? && ordered.None? && r.Err? ==>
                (table == old(table) <==> forall t | t in Cleaned(OrEmpty(remove)) :: !Assigned(old(table), s, t))
    {
      var refusal := Refusal(s, add, remove, ordered);
      if refusal.Some? {
        return Err(refusal.value);
      }
      if ordered.Some? {
        var before := table;
        table := WithoutSubject(table, s);
        var ok := AddAssignments(s, ordered.value, 0, identity);
        if !ok {
          table := before;
        }
        return if ok then Ok(ordered.value) else Err(DuplicateAssignment);
      } else {
        var max := MaxOrder(s);
        FailedDeltaIdleIff(table, s, OrEmpty(remove));
        var ok := RemoveTags(s, OrEmpty(remove));
        if !ok {
          return Err(InvalidTagName);
        }
        ok := AddAssignments(s, OrEmpty(add), OrMinusOne(max) + 1, identity);
        if !ok {
          return Err(DuplicateAssignment);
        }
        r := GetTagsForSubject(s);
      }
    }

    /** The removals of delta mode, up to the first refused name. */
    method RemoveTags(s: Subject, names: seq<string>) returns (ok: bool)
      requires ValidSubject(s)
      modifies this
      ensures ok <==> AllClean(names)
      ensures table == Removed(old(table), s, Cleaned(names))
    {
      ghost var done := [];
      assert names[0..] == names;
      for i := 0 to |names|
        invariant table == Removed(old(table), s, done)
        invariant Cleaned(names) == done + Cleaned(names[i..])
        invariant forall k | 0 <= k < i :: Clean(names[k]).Some?
      {
        var r := RemoveTagFromSubject(names[i], s);
        CleanedNext(names, i);
        if r.Err? {
          assert done + [] == done;
          return false;
        }
        RemovedNext(old(table), s, done, Clean(names[i]).value);
        done := done + [Clean(names[i]).value];
      }
      assert done + [] == done;
      return true;
    }

    /** remove_tag_from_subject, in a transaction of its own; whether there was something to
        remove. */
    method RemoveTagFromSubject(name: string, s: Subject) returns (r: Result<bool>)
      modifies this
      ensures Clean(name).None? ==> r == Err(InvalidTagName) && table == old(table)
      ensures Clean(name).Some? && !ValidSubject(s) ==> r == Err(InvalidSubjectType) && table == old(table)
      ensures Clean(name).Some? && ValidSubject(s) ==>
                && r == Ok(Assigned(old(table), s, Clean(name).value))
                && table == Removed(old(table), s, [Clean(name).value])
    {
      var clean := Clean(name);
      if clean.None? {
        return Err(InvalidTagName);
      }
      if !ValidSubject(s) {
        return Err(InvalidSubjectType);
      }
      var key := Key(clean.value, s);
      if key in table {
        table := table - {key};
        return Ok(true);
      }
      return Ok(false);
    }

    /** get_tags_for_subject */
    method GetTagsForSubject(s: Subject) returns (r: Result<seq<TagName>>)
      ensures r == Err(InvalidSubjectType) || (r.Ok? && IsListing(table, s, r.value))
      ensures r.Ok? <==> ValidSubject(s)
    {
      if !ValidSubject(s) {
        return Err(InvalidSubjectType);
      }
      var tags := [];
      var todo := map k | k in table && k.subject == s :: k.tag := table[k].order;
      while todo != map[]
        invariant ListedSoFar(table, s, tags, todo)
        decreases todo.Keys
      {
        ghost var oldest := OldestExists(todo);
        assert exists t :: t in todo && forall u | u in todo :: todo[t] <= todo[u];
        var t :| t in todo && forall u | u in todo :: todo[t] <= todo[u];
        ListNext(table, s, tags, todo, t);
        tags := tags + [t];
        todo := todo - {t};
      }
      return Ok(tags);
    }

    /** Rows of a query without ORDER BY, in any order. */
    method Select(keys: set<Key>) returns (rows: seq<Key>)
      ensures forall k :: k in rows <==> k in keys
    {
      rows := [];
      var todo := keys;
      while todo != {}
        invariant todo <= keys
        invariant forall k :: k in rows <==> k in keys && k !in todo
        decreases todo
      {
        var k :| k in todo;
        rows := rows + [k];
        todo := todo - {k};
      }
    }

    /** One of the two loops of reattach_tags_for_container: a tag that is not assigned yet
        is added once. */
    method AttachMissing(s: Subject, rows: seq<Key>, identity: Identity) returns (added: seq<TagName>)
      modifies this
      ensures forall t :: t in added <==> t in Missing(old(table), s, TagsIn(rows))
      ensures table == Attach(old(table), s, Missing(old(table), s, TagsIn(rows)), identity)
    {
      added := [];
      ghost var m, done := table, {};
      AttachNothing(m, s, identity);
      for i := 0 to |rows|
        invariant done == Missing(m, s, TagsIn(rows[..i]))
        invariant forall t :: t in added <==> t in done
        invariant table == Attach(m, s, done, identity)
      {
        var t := rows[i].tag;
        MissingStep(m, s, rows, i);
        AttachOne(m, s, done, t, identity);
        if t !in added && Key(t, s) !in table {
          table := table[Key(t, s) := Row(0, identity)];
          added := added + [t];
          done := done + {t};
        }
      }
      assert rows[..|rows|] == rows;
    }

    /** reattach_tags_for_container */
    method ReattachTags(c: Rebuilt) returns (r: Result<seq<TagName>>)
      modifies this
      ensures r.Err? <==>
                (c.host == "" || |c.id| != 12) &&
                exists k :: SameService(old(table), k, c) || SameName(old(table), k, c)
      ensures KeyValid(c) ==> table == Reattach(old(table), c) &&
                              forall t :: t in r.value <==> t in NewTags(old(table), c)
      ensures !KeyValid(c) ==> table == old(table)
    {
      var added := [];
      var s := SubjectOf(c);
      FormerRows(table, c);
      ghost var byCompose := ComposeTags(table, c);
      AttachNothing(table, s, NameIdentity(c));
      if HasCompose(c) {
        var rows := Select(set k | k in table && ComposeMatch(table, c, k));
        assert TagsIn(rows) == byCompose;
        if rows != [] && !KeyValid(c) {
          assert rows[0] in rows;
          return Err(InvalidKey);
        }
        if rows != [] {
          added := AttachMissing(s, rows, ComposeIdentity(c));
        }
      } else {
        assert byCompose == {};
      }
      assert added == [] <==> Missing(old(table), s, byCompose) == {} by {
        assert forall t :: t in added <==> t in Missing(old(table), s, byCompose);
        assert added != [] ==> added[0] in added;
      }
      if added == [] {
        AttachNothing(old(table), s, ComposeIdentity(c));
        assert table == old(table);
        var rows := Select(set k | k in table && NameMatch(table, c, k));
        assert TagsIn(rows) == NameTags(table, c);
        if rows != [] && !KeyValid(c) {
          assert rows[0] in rows;
          return Err(InvalidKey);
        }
        if rows != [] {
          added := AttachMissing(s, rows, NameIdentity(c));
        }
      }
      return Ok(added);
    }

    /** get_tags_for_host on the rows that the database answers with. */
    method GetTagsForHost(host: string, rows: seq<Pair>) returns (result: map<string, seq<TagName>>)
      requires IsAnswer(table, host, rows)
      ensures host == "" ==> result == map[]
      ensures host != "" ==> Grouped(result, host, rows)
    {
      if host == "" {
        return map[];
      }
      result := map[];
      var lo := host + ":";
      for i := 0 to |rows|
        invariant Grouped(result, host, rows[..i])
      {
        var p := rows[i];
        assert p in rows;
        RangeIsPrefix(host, p.id);
        var cid := p.id[|lo|..];
        assert p.id == lo + cid;
        ghost var before := result;
        result := result[cid := (if cid in result then result[cid] else []) + [p.tag]];
        assert rows[..i + 1][..i] == rows[..i];
        forall c: string
          ensures (c in result <==> TagsOf(rows[..i + 1], lo + c) != []) &&
                  (c in result ==> result[c] == TagsOf(rows[..i + 1], lo + c))
        {
          assert (c in before <==> TagsOf(rows[..i], lo + c) != []) &&
                 (c in before ==> before[c] == TagsOf(rows[..i], lo + c));
          if c != cid {
            assert (lo + c)[|lo|..] == c;
          }
        }
      }
      assert rows[..|rows|] == rows;
    }
  }
}
