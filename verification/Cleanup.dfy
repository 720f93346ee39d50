/** The batched cleanup loops of backend/database.py. */
module Cleanup {
  import opened Wrappers
  import opened Basics

  datatype Metadata = Metadata(container: string, host: string)

  /** A tag assignment as far as its cleanup looks at it; lastSeen None is NULL. */
  datatype Sighting = Sighting(tag: string, kind: string, id: string, lastSeen: Option<int>)

  /** The rows a query with LIMIT n may return: any n of them, or all if there are fewer. */
  predicate LimitAnswer<T(==)>(rows: set<T>, n: nat, batch: set<T>) {
    batch <= rows && |batch| == if |rows| < n then |rows| else n
  }

  lemma {:induction false} SubsetOfSize<T>(rows: set<T>, n: nat) returns (batch: set<T>)
    requires n <= |rows|
    ensures batch <= rows && |batch| == n
  {
    if n == 0 {
      batch := {};
    } else {
      var x :| x in rows;
      batch := SubsetOfSize(rows - {x}, n - 1);
      batch := batch + {x};
    }
  }

  lemma LimitAnswerExists<T>(rows: set<T>, n: nat)
    ensures exists batch :: LimitAnswer(rows, n, batch)
  {
    var batch := SubsetOfSize(rows, if |rows| < n then |rows| else n);
    assert LimitAnswer(rows, n, batch);
  }

  // ---------------------------------------------------------------- deployment metadata

  /** The container is gone and its host reported; None: every host counts as reporting. */
  predicate Orphaned(r: Metadata, existing: set<string>, hosts: Option<set<string>>) {
    r.container !in existing && (hosts.None? || r.host in hosts.value)
  }

  function Orphans(rows: set<Metadata>, existing: set<string>, hosts: Option<set<string>>): set<Metadata> {
    set r | r in rows && Orphaned(r, existing, hosts)
  }

  function Kept(rows: set<Metadata>, existing: set<string>, hosts: Option<set<string>>): set<Metadata> {
    rows - Orphans(rows, existing, hosts)
  }

  /** A pass over this batch ends the loop. */
  predicate Stops(batch: set<Metadata>, batchSize: nat) {
    batch == {} || |batch| < batchSize
  }

  /** Each pass stops the loop or deletes something, whatever batch the query picks. */
  ghost predicate AlwaysProgresses(rows: set<Metadata>, existing: set<string>, hosts: Option<set<string>>,
                                   batchSize: nat)
  {
    forall batch | LimitAnswer(rows, batchSize, batch) ::
      Stops(batch, batchSize) || Orphans(batch, existing, hosts) != {}
  }

  /** The loop is sure to progress exactly when a full batch cannot consist of rows that are
      kept. A pass without progress leaves the table as it was, so the loop can repeat it
      for ever. */
  lemma ProgressIff(rows: set<Metadata>, existing: set<string>, hosts: Option<set<string>>, batchSize: nat)
    ensures AlwaysProgresses(rows, existing, hosts, batchSize) <==>
            batchSize == 0 || |Kept(rows, existing, hosts)| < batchSize
  {
    var kept := Kept(rows, existing, hosts);
    SubsetSize(kept, rows);
    if batchSize > 0 && |kept| >= batchSize {
      var batch := SubsetOfSize(kept, batchSize);
      assert LimitAnswer(rows, batchSize, batch);
      assert Orphans(batch, existing, hosts) == {};
    } else {
      forall batch | LimitAnswer(rows, batchSize, batch)
        ensures Stops(batch, batchSize) || Orphans(batch, existing, hosts) != {}
      {
        if Orphans(batch, existing, hosts) == {} {
          assert batch <= kept by {
            forall r | r in batch ensures r in kept {
              assert r !in Orphans(batch, existing, hosts);
            }
          }
          SubsetSize(batch, kept);
        }
      }
    }
  }

  /** The table after passes over the given batches. */
  function RowsAfter(rows: set<Metadata>, existing: set<string>, hosts: Option<set<string>>,
                     batches: seq<set<Metadata>>): set<Metadata>
  {
    if batches == [] then rows
    else RowsAfter(rows, existing, hosts, batches[..|batches| - 1]) - Orphans(batches[|batches| - 1], existing, hosts)
  }

  /** Each batch is one the query may pick, and none ends the loop. */
  ghost predicate GoesOn(rows: set<Metadata>, existing: set<string>, hosts: Option<set<string>>, batchSize: nat,
                         batches: seq<set<Metadata>>)
  {
    batches == [] ||
    (var before, batch := batches[..|batches| - 1], batches[|batches| - 1];
     && GoesOn(rows, existing, hosts, batchSize, before)
     && LimitAnswer(RowsAfter(rows, existing, hosts, before), batchSize, batch)
     && !Stops(batch, batchSize))
  }

  ghost predicate CanGoOnFor(rows: set<Metadata>, existing: set<string>, hosts: Option<set<string>>, batchSize: nat,
                             n: nat)
  {
    exists batches :: |batches| == n && GoesOn(rows, existing, hosts, batchSize, batches)
  }

  /** A full batch of kept rows is read again and again, and the table stays as it is. */
  lemma {:induction false} KeptBatchRepeats(rows: set<Metadata>, existing: set<string>, hosts: Option<set<string>>,
                                            batch: set<Metadata>, n: nat)
      returns (batches: seq<set<Metadata>>)
    requires batch != {} && batch <= Kept(rows, existing, hosts)
    ensures |batches| == n && GoesOn(rows, existing, hosts, |batch|, batches)
    ensures RowsAfter(rows, existing, hosts, batches) == rows
  {
    if n == 0 {
      batches := [];
    } else {
      var before := KeptBatchRepeats(rows, existing, hosts, batch, n - 1);
      batches := before + [batch];
      KeptBatchNext(rows, existing, hosts, batch, before);
    }
  }

  lemma KeptBatchNext(rows: set<Metadata>, existing: set<string>, hosts: Option<set<string>>, batch: set<Metadata>,
                      before: seq<set<Metadata>>)
    requires batch != {} && batch <= Kept(rows, existing, hosts)
    requires GoesOn(rows, existing, hosts, |batch|, before) && RowsAfter(rows, existing, hosts, before) == rows
    ensures GoesOn(rows, existing, hosts, |batch|, before + [batch])
    ensures RowsAfter(rows, existing, hosts, before + [batch]) == rows
  {
    assert (before + [batch])[..|before|] == before;
    SubsetSize(batch, rows);
    assert Orphans(batch, existing, hosts) == {};
    assert LimitAnswer(rows, |batch|, batch);
  }

  /** Otherwise every pass that goes on deletes an orphan. */
  lemma {:induction false} PassesBounded(rows: set<Metadata>, existing: set<string>, hosts: Option<set<string>>,
                                         batchSize: nat, batches: seq<set<Metadata>>)
    requires batchSize == 0 || |Kept(rows, existing, hosts)| < batchSize
    requires GoesOn(rows, existing, hosts, batchSize, batches)
    ensures var left := RowsAfter(rows, existing, hosts, batches);
            && |batches| + |Orphans(left, existing, hosts)| <= |Orphans(rows, existing, hosts)|
            && Kept(left, existing, hosts) == Kept(rows, existing, hosts)
  {
    if batches != [] {
      var before, batch := batches[..|batches| - 1], batches[|batches| - 1];
      PassesBounded(rows, existing, hosts, batchSize, before);
      var m := RowsAfter(rows, existing, hosts, before);
      ProgressIff(m, existing, hosts, batchSize);
      PassDeletes(m, existing, hosts, batch);
      assert Orphans(batch, existing, hosts) != {};
    }
  }

  /** What a pass leaves. */
  lemma PassDeletes(rows: set<Metadata>, existing: set<string>, hosts: Option<set<string>>, batch: set<Metadata>)
    requires batch <= rows
    ensures var gone := Orphans(batch, existing, hosts);
            && Orphans(rows - gone, existing, hosts) == Orphans(rows, existing, hosts) - gone
            && |Orphans(rows - gone, existing, hosts)| == |Orphans(rows, existing, hosts)| - |gone|
            && Kept(rows - gone, existing, hosts) == Kept(rows, existing, hosts)
            && |rows - gone| == |rows| - |gone|
  {
    var gone := Orphans(batch, existing, hosts);
    assert gone <= Orphans(rows, existing, hosts);
    assert Orphans(rows - gone, existing, hosts) == Orphans(rows, existing, hosts) - gone;
  }

  /** A pass over a short batch leaves no orphan, and one over a full batch deletes some if
      fewer rows than the batch size are kept. */
  lemma PassProgresses(rows: set<Metadata>, existing: set<string>, hosts: Option<set<string>>, batchSize: nat,
                       batch: set<Metadata>)
    requires LimitAnswer(rows, batchSize, batch) && batch != {}
    ensures |batch| < batchSize ==>
              Orphans(batch, existing, hosts) == Orphans(rows, existing, hosts) &&
              rows - Orphans(batch, existing, hosts) == Kept(rows, existing, hosts)
    ensures |batch| >= batchSize && |Kept(rows, existing, hosts)| < batchSize ==>
              Orphans(batch, existing, hosts) != {} && |Orphans(batch, existing, hosts)| > 0
  {
    if |batch| < batchSize {
      SubsetSize(batch, rows);
    } else {
      ProgressIff(rows, existing, hosts, batchSize);
    }
  }

  /** The loop can go on for ever exactly when a full batch of kept rows exists. */
  lemma RunsOnIff(rows: set<Metadata>, existing: set<string>, hosts: Option<set<string>>, batchSize: nat)
    ensures (forall n: nat :: CanGoOnFor(rows, existing, hosts, batchSize, n)) <==>
            0 < batchSize <= |Kept(rows, existing, hosts)|
  {
    if 0 < batchSize <= |Kept(rows, existing, hosts)| {
      var batch := SubsetOfSize(Kept(rows, existing, hosts), batchSize);
      forall n: nat ensures CanGoOnFor(rows, existing, hosts, batchSize, n) {
        var batches := KeptBatchRepeats(rows, existing, hosts, batch, n);
      }
    } else {
      var n := |Orphans(rows, existing, hosts)| + 1;
      if CanGoOnFor(rows, existing, hosts, batchSize, n) {
        var batches :| |batches| == n && GoesOn(rows, existing, hosts, batchSize, batches);
        PassesBounded(rows, existing, hosts, batchSize, batches);
        assert false;
      }
    }
  }

  /** One kept row and a batch size of one: the loop never ends. */
  lemma OneKeptRow(n: nat)
    ensures CanGoOnFor({Metadata("h:c", "h")}, {"h:c"}, None, 1, n)
  {
    var row := Metadata("h:c", "h");
    assert Kept({row}, {"h:c"}, None) == {row};
    var batches := KeptBatchRepeats({row}, {"h:c"}, None, {row}, n);
  }

  // ---------------------------------------------------------------- stale tag assignments

  predicate Stale(r: Sighting, cutoff: int) {
    r.kind == "container" && r.lastSeen.Some? && r.lastSeen.value < cutoff
  }

  function StaleRows(rows: set<Sighting>, cutoff: int): set<Sighting> {
    set r | r in rows && Stale(r, cutoff)
  }

  lemma FreshRows(rows: set<Sighting>, cutoff: int)
    ensures rows - StaleRows(rows, cutoff) ==
            set r | r in rows && (r.kind == "container" && r.lastSeen.Some? ==> r.lastSeen.value >= cutoff)
  {
  }

  // ---------------------------------------------------------------- the loops

  class Housekeeping {
    var metadata: set<Metadata>       // deployment_metadata
    var sightings: set<Sighting>      // tag_assignments

    /** The loop, watched for a number of passes, whichever rows each query picks. It deletes
        nothing but orphaned rows of reporting hosts and counts them; when it has ended, all
        of them are gone; and it ends within one pass more than there are orphans, unless a
        full batch of kept rows exists. */
    method CleanupOrphanedDeploymentMetadata(existing: set<string>, hosts: Option<set<string>>, batchSize: nat,
                                             passes: nat)
      returns (deleted: nat, ended: bool)
      modifies this`metadata
      ensures Kept(old(metadata), existing, hosts) <= metadata <= old(metadata)
      ensures deleted == |old(metadata)| - |metadata|
      ensures ended ==> metadata == if batchSize == 0 then old(metadata)
                                    else old(metadata) - Orphans(old(metadata), existing, hosts)
      ensures forall r | r in old(metadata) && r !in metadata ::
                r.container !in existing && (hosts.Some? ==> r.host in hosts.value)
      ensures ended && batchSize > 0 ==>
                forall r | r in metadata :: r.container in existing || (hosts.Some? && r.host !in hosts.value)
      ensures ended && batchSize > 0 ==> deleted == |Orphans(old(metadata), existing, hosts)|
      ensures passes > |Orphans(old(metadata), existing, hosts)| ==>
              batchSize == 0 || |Kept(old(metadata), existing, hosts)| < batchSize ==> ended
    {
      deleted := 0;
      ghost var bounded := batchSize == 0 || |Kept(metadata, existing, hosts)| < batchSize;
      ghost var orphans := Orphans(metadata, existing, hosts);
      for k := 0 to passes
        invariant metadata <= old(metadata)
        invariant Kept(metadata, existing, hosts) == Kept(old(metadata), existing, hosts)
        invariant deleted == |old(metadata)| - |metadata|
        invariant deleted + |Orphans(metadata, existing, hosts)| == |orphans|
        invariant bounded ==> k + |Orphans(metadata, existing, hosts)| <= |orphans|
        invariant batchSize == 0 ==> metadata == old(metadata)
      {
        LimitAnswerExists(metadata, batchSize);
        var batch :| LimitAnswer(metadata, batchSize, batch);
        if batch == {} {
          assert batchSize > 0 ==> Orphans(metadata, existing, hosts) == {};
          return deleted, true;
        }
        PassDeletes(metadata, existing, hosts, batch);
        PassProgresses(metadata, existing, hosts, batchSize, batch);
        var orphaned := Orphans(batch, existing, hosts);
        metadata := metadata - orphaned;
        deleted := deleted + |orphaned|;
        if |batch| < batchSize {
          return deleted, true;
        }
      }
      return deleted, false;
    }

    /** Deletes exactly the container assignments last seen before the cutoff and returns
        their number; a batch size of zero deletes nothing. */
    method CleanupOrphanedTagAssignments(cutoff: int, batchSize: nat) returns (deleted: nat)
      modifies this`sightings
      ensures sightings == if batchSize == 0 then old(sightings) else old(sightings) - StaleRows(old(sightings), cutoff)
      ensures batchSize > 0 ==>
                sightings == set r | r in old(sightings) &&
                                     (r.kind == "container" && r.lastSeen.Some? ==> r.lastSeen.value >= cutoff)
      ensures deleted == |old(sightings)| - |sightings|
    {
      deleted := 0;
      while true
        invariant sightings <= old(sightings)
        invariant sightings - StaleRows(sightings, cutoff) == old(sightings) - StaleRows(old(sightings), cutoff)
        invariant batchSize == 0 ==> sightings == old(sightings)
        invariant deleted == |old(sightings)| - |sightings|
        decreases sightings
      {
        var stale := StaleRows(sightings, cutoff);
        LimitAnswerExists(stale, batchSize);
        var batch :| LimitAnswer(stale, batchSize, batch);
        if batch == {} {
          break;
        }
        if |batch| < batchSize {
          SubsetSize(batch, stale);
        }
        assert StaleRows(sightings - batch, cutoff) == stale - batch;
        assert |sightings - batch| == |sightings| - |batch|;
        sightings := sightings - batch;
        deleted := deleted + |batch|;
        if |batch| < batchSize {
          break;
        }
      }
      FreshRows(old(sightings), cutoff);
      assert batchSize > 0 ==> StaleRows(sightings, cutoff) == {};
    }
  }
}
