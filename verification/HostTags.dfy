/** The batched tag query of backend/database.py (get_tags_for_host): a half-open range scan. */
module HostTags {
  import opened Text
  import opened TagTable
  import opened TagReattach

  /** Byte order of strings, as SQLite compares them. */
  predicate Less(a: string, b: string) {
    b != "" && (a == "" || a[0] < b[0] || (a[0] == b[0] && Less(a[1..], b[1..])))
  }

  predicate InRange(host: string, id: string) {
    !Less(id, host + ":") && Less(id, host + ";")
  }

  /** The scan from "host:" up to but not including "host;" selects exactly the ids that
      start with "host:". */
  lemma {:induction false} RangeIsPrefix(host: string, id: string)
    ensures InRange(host, id) <==> StartsWith(id, host + ":")
  {
    var lo, hi := host + ":", host + ";";
    if host == "" {
      assert lo == ":" && hi == ";" && lo[1..] == "" && hi[1..] == "";
      assert ':' as int + 1 == ';' as int;
      if id != "" {
        assert id[..1] == [id[0]];
        assert id[0] < ';' <==> id[0] <= ':';
        assert Less(id, lo) <==> id[0] < ':';
        assert Less(id, hi) <==> id[0] < ';';
        assert StartsWith(id, lo) <==> id[0] == ':';
      }
    } else {
      assert lo[0] == hi[0] == host[0] && lo[1..] == host[1..] + ":" && hi[1..] == host[1..] + ";";
      if id != "" && id[0] == host[0] {
        RangeIsPrefix(host[1..], id[1..]);
        StartsWithCons(id, lo);
      } else if StartsWith(id, lo) {
        StartsWithHead(id, lo);
        assert false;
      }
    }
  }

  lemma StartsWithCons(s: string, p: string)
    requires s != "" && p != "" && s[0] == p[0]
    ensures StartsWith(s, p) <==> StartsWith(s[1..], p[1..])
  {
    if |p| <= |s| {
      assert s[..|p|] == [s[0]] + s[1..][..|p| - 1];
      assert p == [p[0]] + p[1..];
      if s[..|p|] == p {
        assert s[..|p|][1..] == s[1..][..|p| - 1];
      }
    }
  }

  datatype Pair = Pair(id: string, tag: TagName)

  function ContainerSubject(id: string): Subject {
    Subject(CONTAINER, id)
  }

  /** The answers the database may give to the batched query: the matching rows ordered by
      subject and index, in any order among equals. */
  ghost predicate IsAnswer(m: Table, host: string, rows: seq<Pair>) {
    && (forall i, j | 0 <= i < j < |rows| :: rows[i] != rows[j])
    && (forall p :: p in rows <==> Assigned(m, ContainerSubject(p.id), p.tag) && InRange(host, p.id))
    && (forall i, j | 0 <= i < j < |rows| :: InOrder(m, rows[i], rows[j]))
  }

  predicate InOrder(m: Table, p: Pair, q: Pair) {
    && Assigned(m, ContainerSubject(p.id), p.tag) && Assigned(m, ContainerSubject(q.id), q.tag)
    && (Less(p.id, q.id) ||
        (p.id == q.id && Order(m, ContainerSubject(p.id), p.tag) <= Order(m, ContainerSubject(q.id), q.tag)))
  }

  function TagsOf(rows: seq<Pair>, id: string): seq<TagName> {
    if rows == [] then []
    else if rows[|rows| - 1].id == id then TagsOf(rows[..|rows| - 1], id) + [rows[|rows| - 1].tag]
    else TagsOf(rows[..|rows| - 1], id)
  }

  lemma {:induction false} LessIrreflexive(a: string)
    ensures !Less(a, a)
  {
    if a != "" {
      LessIrreflexive(a[1..]);
    }
  }

  lemma {:induction false} TagsOfSorted(m: Table, rows: seq<Pair>, id: string)
    requires forall i, j | 0 <= i < j < |rows| :: rows[i] != rows[j] && InOrder(m, rows[i], rows[j])
    requires forall p | p in rows :: Assigned(m, ContainerSubject(p.id), p.tag)
    ensures var tags := TagsOf(rows, id);
            && (forall t :: t in tags <==> Pair(id, t) in rows)
            && Distinct(tags)
            && (forall i, j | 0 <= i < j < |tags| ::
                  Pair(id, tags[i]) in rows && Pair(id, tags[j]) in rows &&
                  Order(m, ContainerSubject(id), tags[i]) <= Order(m, ContainerSubject(id), tags[j]))
  {
    if rows != [] {
      var n := |rows| - 1;
      TagsOfSorted(m, rows[..n], id);
      var before := TagsOf(rows[..n], id);
      assert rows == rows[..n] + [rows[n]];
      if rows[n].id == id {
        LessIrreflexive(id);
        forall t | t in before
          ensures t != rows[n].tag && Order(m, ContainerSubject(id), t) <= Order(m, ContainerSubject(id), rows[n].tag)
        {
          var j :| 0 <= j < n && rows[j] == Pair(id, t);
          assert InOrder(m, rows[j], rows[n]);
        }
      }
    }
  }

  /** For every container the batched answer is one that get_tags_for_subject may give. */
  lemma AnswerAgrees(m: Table, host: string, rows: seq<Pair>, id: string)
    requires IsAnswer(m, host, rows) && StartsWith(id, host + ":")
    ensures IsListing(m, ContainerSubject(id), TagsOf(rows, id))
  {
    RangeIsPrefix(host, id);
    TagsOfSorted(m, rows, id);
    forall t ensures t in TagsOf(rows, id) <==> Assigned(m, ContainerSubject(id), t) {
      assert Pair(id, t) in rows <==> Assigned(m, ContainerSubject(id), t);
    }
  }

  /** The entries of the result before each container's listing is looked at. */
  ghost predicate Grouped(result: map<string, seq<TagName>>, host: string, rows: seq<Pair>) {
    forall cid :: (cid in result <==> TagsOf(rows, host + ":" + cid) != []) &&
                  (cid in result ==> result[cid] == TagsOf(rows, host + ":" + cid))
  }

  /** With distinct indices the batched result agrees entry by entry with
      get_tags_for_subject, and leaves out just the containers without tags. */
  lemma BatchedAgrees(m: Table, host: string, rows: seq<Pair>, result: map<string, seq<TagName>>,
                      cid: string, listing: seq<TagName>)
    requires IsAnswer(m, host, rows) && Grouped(result, host, rows)
    requires OrdersDistinct(m, ContainerSubject(host + ":" + cid))
    requires IsListing(m, ContainerSubject(host + ":" + cid), listing)
    ensures listing == if cid in result then result[cid] else []
  {
    var id := host + ":" + cid;
    assert id[..|host + ":"|] == host + ":";
    AnswerAgrees(m, host, rows, id);
    ListingUnique(m, ContainerSubject(id), listing, TagsOf(rows, id));
  }
}
