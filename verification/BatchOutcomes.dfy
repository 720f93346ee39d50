/**
  What the batch engine writes on an item, in terms of the steps taken for it: which outcome the
  action returned, which steps raised, which blocks committed.
*/
module BatchOutcomes {
  import opened Wrappers
  import opened BatchJobs
  import opened BatchResults
  import opened BatchCauses

  // ---------------------------------------------------------------- what was taken

  /** The n-th step was taken, and in it the item's action returned the outcome. */
  ghost predicate ReturnedAt(schedule: seq<Action>, n: nat, i: ItemId, o: Outcome)
    requires n < |schedule|
  {
    var s, a := Exec(Init(), schedule[..n]), schedule[n];
    a.ItemStep? && a.item == i && a.outcome == o && Enabled(s, a) && s.items[i].pc == Executing
  }

  ghost predicate Returned(schedule: seq<Action>, i: ItemId, o: Outcome) {
    exists n | 0 <= n < |schedule| :: ReturnedAt(schedule, n, i, o)
  }

  /** The n-th step was taken, and in it a block or a broadcast before the except branch raised. */
  ghost predicate RaisedAt(schedule: seq<Action>, n: nat, i: ItemId)
    requires n < |schedule|
  {
    var s, a := Exec(Init(), schedule[..n]), schedule[n];
    && a.ItemStep? && a.item == i && !a.ok && Enabled(s, a)
    && var pc := s.items[i].pc;
       pc == Starting || pc == Announcing || pc == Loading || pc.Committing? || pc == Reporting
  }

  ghost predicate Raised(schedule: seq<Action>, i: ItemId) {
    exists n | 0 <= n < |schedule| :: RaisedAt(schedule, n, i)
  }

  lemma ReturnedNext(schedule: seq<Action>, i: ItemId, o: Outcome)
    requires schedule != []
    ensures var last := |schedule| - 1;
            Returned(schedule, i, o) <==> Returned(schedule[..last], i, o) || ReturnedAt(schedule, last, i, o)
  {
    var last := |schedule| - 1;
    forall n | 0 <= n < last ensures ReturnedAt(schedule[..last], n, i, o) <==> ReturnedAt(schedule, n, i, o) {
      assert schedule[..last][..n] == schedule[..n];
    }
  }

  lemma RaisedNext(schedule: seq<Action>, i: ItemId)
    requires schedule != []
    ensures var last := |schedule| - 1;
            Raised(schedule, i) <==> Raised(schedule[..last], i) || RaisedAt(schedule, last, i)
  {
    var last := |schedule| - 1;
    forall n | 0 <= n < last ensures RaisedAt(schedule[..last], n, i) <==> RaisedAt(schedule, n, i) {
      assert schedule[..last][..n] == schedule[..n];
    }
  }

  lemma {:induction false} NothingReturnedYet(schedule: seq<Action>, i: ItemId, o: Outcome)
    requires i >= |Exec(Init(), schedule).items|
    ensures !Returned(schedule, i, o) && !Raised(schedule, i)
  {
    if schedule != [] {
      var last := |schedule| - 1;
      var before := Exec(Init(), schedule[..last]);
      assert |before.items| <= |Exec(Init(), schedule).items|;
      NothingReturnedYet(schedule[..last], i, o);
      ReturnedNext(schedule, i, o);
      RaisedNext(schedule, i);
    }
  }

  // ---------------------------------------------------------------- the committed outcome

  /** What the row says about the outcome the action returned. */
  ghost predicate OutcomeOk(it: Item, o: Outcome, returned: bool, committed: bool) {
    && (it.pc == Committing(o) ==> returned)
    && (returned ==> PcWork(it.pc) < 6)
    && (it.pc.Committing? && returned ==> it.pc == Committing(o))
    && (committed ==> it.first.Some? && PcWork(it.pc) < 5)
    && (committed ==> (it.first == Some(o) <==> returned))
  }

  lemma OutcomeNext(it: Item, o: Outcome, returned: bool, committed: bool, ok: bool, outcome: Outcome)
    requires ItemOk(it) && OutcomeOk(it, o, returned, committed) && !it.pc.Unspawned? && !it.pc.Ended?
    ensures OutcomeOk(Advance(it, ok, outcome), o, returned || (it.pc.Executing? && outcome == o),
                      committed || (it.pc.Committing? && ok))
  {
  }

  lemma {:induction false} OutcomeRemembered(schedule: seq<Action>, i: ItemId, o: Outcome)
    requires i < |Exec(Init(), schedule).items|
    ensures OutcomeOk(Exec(Init(), schedule).items[i], o, Returned(schedule, i, o), OutcomeCommitted(schedule, i))
  {
    if schedule != [] {
      var last := |schedule| - 1;
      var s, a := Exec(Init(), schedule[..last]), schedule[last];
      Reachable(schedule[..last]);
      CommittedNext(schedule, i);
      ReturnedNext(schedule, i, o);
      if i < |s.items| {
        OutcomeRemembered(schedule[..last], i, o);
        if a.ItemStep? && a.item == i && Enabled(s, a) {
          assert ItemOk(s.items[i]);
          OutcomeNext(s.items[i], o, Returned(schedule[..last], i, o), OutcomeCommitted(schedule[..last], i),
                      a.ok, a.outcome);
        } else if Enabled(s, a) {
          OtherItemKept(s, a, i);
        }
      } else {
        NothingReturnedYet(schedule[..last], i, o);
        NoResultYet(schedule[..last], i);
        FreshItem(s, a, i);
      }
    }
  }

  lemma FreshItem(s: State, a: Action, i: ItemId)
    requires Enabled(s, a) && |s.items| <= i < |Apply(s, a).items|
    ensures exists h :: Apply(s, a).items[i] == NewItem(|s.jobs|, h)
  {
    NewItemsFresh(|s.jobs|, a.requested);
    assert Apply(s, a).items[i] == NewItems(|s.jobs|, a.requested)[i - |s.items|];
  }

  /** The outcome first committed for an item is the one its action returned, if a result block
      committed at all. */
  lemma CommittedIsReturned(schedule: seq<Action>, i: ItemId, o: Outcome)
    requires i < |Exec(Init(), schedule).items| && OutcomeCommitted(schedule, i)
    ensures Exec(Init(), schedule).items[i].first == Some(o) <==> Returned(schedule, i, o)
  {
    OutcomeRemembered(schedule, i, o);
  }

  // ---------------------------------------------------------------- the way to the end

  /** What the row says about whether a step raised. */
  ghost predicate WayOk(it: Item, raised: bool, committed: bool, recorded: bool, lost: bool) {
    && (raised ==> PcWork(it.pc) <= 3)
    && (it.pc.Failing? ==> raised)
    && (recorded || lost ==> raised)
    && (PcWork(it.pc) < 3 && raised ==> recorded || lost)
    && (PcWork(it.pc) < 5 && !raised ==> committed)
  }

  lemma WayNext(it: Item, raised: bool, committed: bool, recorded: bool, lost: bool, ok: bool, outcome: Outcome)
    requires WayOk(it, raised, committed, recorded, lost) && !it.pc.Unspawned? && !it.pc.Ended?
    requires it.pc.ReportingFailure? ==> recorded
    ensures var pc := it.pc;
            var raises := !ok && (pc == Starting || pc == Announcing || pc == Loading || pc.Committing? || pc == Reporting);
            WayOk(Advance(it, ok, outcome), raised || raises, committed || (pc.Committing? && ok),
                  recorded || (pc.Failing? && ok), lost || (pc.Failing? && !ok))
  {
  }

  lemma {:induction false} WayRemembered(schedule: seq<Action>, i: ItemId)
    requires i < |Exec(Init(), schedule).items|
    ensures WayOk(Exec(Init(), schedule).items[i], Raised(schedule, i), OutcomeCommitted(schedule, i),
                  ErrorRecorded(schedule, i), ErrorLost(schedule, i))
    ensures Exec(Init(), schedule).items[i].pc.ReportingFailure? ==> ErrorRecorded(schedule, i)
  {
    if schedule != [] {
      var last := |schedule| - 1;
      var s, a := Exec(Init(), schedule[..last]), schedule[last];
      CommittedNext(schedule, i);
      RaisedNext(schedule, i);
      ItemDidNext(schedule, i, Failing, true);
      ItemDidNext(schedule, i, Failing, false);
      if i < |s.items| {
        WayRemembered(schedule[..last], i);
        if a.ItemStep? && a.item == i && Enabled(s, a) {
          WayNext(s.items[i], Raised(schedule[..last], i), OutcomeCommitted(schedule[..last], i),
                  ErrorRecorded(schedule[..last], i), ErrorLost(schedule[..last], i), a.ok, a.outcome);
        } else if Enabled(s, a) {
          OtherItemKept(s, a, i);
        }
      } else {
        NothingReturnedYet(schedule[..last], i, Error);
        NoResultYet(schedule[..last], i);
        FreshItem(s, a, i);
      }
    }
  }

  /** The status of an item whose task has ended, exactly: an error if the except branch
      committed, else the outcome its action returned if that was committed. The except branch is
      reached exactly if a block or a broadcast before it raised. */
  lemma EndedStatus(schedule: seq<Action>, i: ItemId, o: Outcome)
    requires i < |Exec(Init(), schedule).items| && Exec(Init(), schedule).items[i].pc.Ended?
    ensures Exec(Init(), schedule).items[i].status == Finished(o) <==>
            if ErrorRecorded(schedule, i) then o == Error
            else OutcomeCommitted(schedule, i) && Returned(schedule, i, o)
    ensures Raised(schedule, i) <==> ErrorRecorded(schedule, i) || ErrorLost(schedule, i)
    ensures !Raised(schedule, i) ==> OutcomeCommitted(schedule, i)
  {
    var it := Exec(Init(), schedule).items[i];
    Reachable(schedule);
    OutcomeRemembered(schedule, i, o);
    WayRemembered(schedule, i);
    ResultRemembered(schedule, i);
    CommittedNotLost(schedule, i);
    EndedItem(it, o, Returned(schedule, i, o), OutcomeCommitted(schedule, i), Raised(schedule, i),
              ErrorRecorded(schedule, i), ErrorLost(schedule, i));
  }

  lemma EndedItem(it: Item, o: Outcome, returned: bool, committed: bool, raised: bool, recorded: bool, lost: bool)
    requires ItemOk(it) && it.pc.Ended?
    requires OutcomeOk(it, o, returned, committed) && WayOk(it, raised, committed, recorded, lost)
    requires ResultOk(it, committed, recorded, lost)
    requires if recorded then it.status == Finished(Error) else !it.rewritten
    ensures it.status == Finished(o) <==> if recorded then o == Error else committed && returned
    ensures raised <==> recorded || lost
    ensures !raised ==> committed
  {
  }

  /** An overwritten result is one whose broadcast raised, a recorded error otherwise the first. */
  lemma CommittedNotLost(schedule: seq<Action>, i: ItemId)
    requires i < |Exec(Init(), schedule).items|
    ensures var it := Exec(Init(), schedule).items[i];
            ErrorRecorded(schedule, i) ==> it.status == Finished(Error)
    ensures var it := Exec(Init(), schedule).items[i];
            !ErrorRecorded(schedule, i) ==> !it.rewritten
  {
    PastRemembered(schedule, i);
    ErrorStays(schedule, i);
  }

  predicate ErrorShown(it: Item, recorded: bool) {
    recorded ==> it.status == Finished(Error) && PcWork(it.pc) < 3
  }

  lemma ErrorKept(it: Item, recorded: bool, ok: bool, outcome: Outcome)
    requires ErrorShown(it, recorded)
    ensures ErrorShown(Advance(it, ok, outcome), recorded || (it.pc.Failing? && ok))
  {
  }

  lemma {:induction false} ErrorStays(schedule: seq<Action>, i: ItemId)
    requires i < |Exec(Init(), schedule).items|
    ensures ErrorShown(Exec(Init(), schedule).items[i], ErrorRecorded(schedule, i))
  {
    if schedule != [] {
      var last := |schedule| - 1;
      var s, a := Exec(Init(), schedule[..last]), schedule[last];
      ItemDidNext(schedule, i, Failing, true);
      if i < |s.items| {
        ErrorStays(schedule[..last], i);
        if a.ItemStep? && a.item == i && Enabled(s, a) {
          ErrorKept(s.items[i], ErrorRecorded(schedule[..last], i), a.ok, a.outcome);
        } else if Enabled(s, a) {
          OtherItemKept(s, a, i);
        }
      } else {
        NoResultYet(schedule[..last], i);
      }
    }
  }

  // ---------------------------------------------------------------- on the way

  /** The steps that an item must have behind it where it stands, and the status it shows there. */
  ghost predicate OrderOk(it: Item, started: bool, announced: bool, loaded: bool) {
    && (it.pc == Announcing ==> started)
    && (it.pc == Loading ==> started && announced)
    && (it.pc == Executing || it.pc.Committing? ==> started && announced && loaded)
    && (it.pc.Unspawned? || it.pc == Waiting || it.pc == Starting ==> it.status == Queued)
    && (it.pc == Announcing || it.pc == Loading || it.pc == Executing || it.pc.Committing? ==> it.status == Running)
  }

  lemma OrderNext(it: Item, started: bool, announced: bool, loaded: bool, ok: bool, outcome: Outcome)
    requires OrderOk(it, started, announced, loaded) && !it.pc.Unspawned? && !it.pc.Ended?
    ensures OrderOk(Advance(it, ok, outcome), started || (it.pc == Starting && ok),
                    announced || (it.pc == Announcing && ok), loaded || (it.pc == Loading && ok))
  {
  }

  /** An action runs only after the item was committed as running, announced and its job was
      read; the item reads queued before and running meanwhile. */
  lemma {:induction false} WorkedInOrder(schedule: seq<Action>, i: ItemId)
    requires i < |Exec(Init(), schedule).items|
    ensures OrderOk(Exec(Init(), schedule).items[i], ItemDid(schedule, i, Starting, true),
                    ItemDid(schedule, i, Announcing, true), ItemDid(schedule, i, Loading, true))
  {
    if schedule != [] {
      var last := |schedule| - 1;
      var s, a := Exec(Init(), schedule[..last]), schedule[last];
      ItemDidNext(schedule, i, Starting, true);
      ItemDidNext(schedule, i, Announcing, true);
      ItemDidNext(schedule, i, Loading, true);
      if i < |s.items| {
        WorkedInOrder(schedule[..last], i);
        if a.ItemStep? && a.item == i && Enabled(s, a) {
          OrderNext(s.items[i], ItemDid(schedule[..last], i, Starting, true),
                    ItemDid(schedule[..last], i, Announcing, true), ItemDid(schedule[..last], i, Loading, true),
                    a.ok, a.outcome);
        } else if Enabled(s, a) {
          OtherItemKept(s, a, i);
        }
      } else {
        FreshItem(s, a, i);
      }
    }
  }

  // ---------------------------------------------------------------- creation

  function CountHost(requested: seq<Option<HostId>>, h: HostId): nat {
    if requested == [] then 0
    else CountHost(requested[..|requested| - 1], h) + Bit(requested[|requested| - 1] == Some(h))
  }

  function CountOn(items: seq<Item>, j: JobId, h: HostId): nat {
    if items == [] then 0
    else CountOn(items[..|items| - 1], j, h) +
         Bit(items[|items| - 1].job == j && items[|items| - 1].host == h && items[|items| - 1].status == Queued)
  }

  lemma {:induction false} CountOnConcat(a: seq<Item>, b: seq<Item>, j: JobId, h: HostId)
    ensures CountOn(a + b, j, h) == CountOn(a, j, h) + CountOn(b, j, h)
  {
    if b == [] {
      assert a + b == a;
    } else {
      var n := |b| - 1;
      CountOnConcat(a, b[..n], j, h);
      assert (a + b)[..|a + b| - 1] == a + b[..n];
    }
  }

  lemma CountOnOne(it: Item, j: JobId, h: HostId)
    ensures CountOn([it], j, h) == Bit(it.job == j && it.host == h && it.status == Queued)
  {
    assert [it][..0] == [];
  }

  lemma NewItemCount(j: JobId, before: seq<Option<HostId>>, id: Option<HostId>, h: HostId)
    requires CountOn(NewItems(j, before), j, h) == CountHost(before, h)
    ensures CountOn(NewItems(j, before + [id]), j, h) == CountHost(before + [id], h)
  {
    NewItemsNext(j, before, id);
    assert (before + [id])[..|before|] == before;
    if id.Some? {
      CountOnConcat(NewItems(j, before), [NewItem(j, id.value)], j, h);
      CountOnOne(NewItem(j, id.value), j, h);
    }
  }

  lemma {:induction false} NewItemsCount(j: JobId, requested: seq<Option<HostId>>, h: HostId)
    ensures CountOn(NewItems(j, requested), j, h) == CountHost(requested, h)
  {
    if requested == [] {
      assert NewItems(j, requested) == [];
    } else {
      var before, id := requested[..|requested| - 1], requested[|requested| - 1];
      NewItemsCount(j, before, h);
      NewItemCount(j, before, id, h);
      assert requested == before + [id];
    }
  }

  lemma {:induction false} NoneYet(items: seq<Item>, j: JobId, h: HostId)
    requires forall i | 0 <= i < |items| :: items[i].job < j
    ensures CountOn(items, j, h) == 0
  {
    if items != [] {
      NoneYet(items[..|items| - 1], j, h);
    }
  }

  /** A new job has, for each host, as many queued items as ids found there were requested; its
      total counts every requested id, and no other job or item changes. */
  lemma CreateMakes(schedule: seq<Action>, requested: seq<Option<HostId>>, h: HostId)
    ensures var s := Exec(Init(), schedule);
            var s' := ApplyCreate(s, requested);
            && CountOn(s'.items, |s.jobs|, h) == CountHost(requested, h)
            && |s'.jobs| == |s.jobs| + 1 && s'.jobs[..|s.jobs|] == s.jobs
            && s'.jobs[|s.jobs|].total == |requested| && s'.jobs[|s.jobs|].status == JobQueued
            && s'.items[..|s.items|] == s.items
  {
    var s := Exec(Init(), schedule);
    Reachable(schedule);
    CountOnConcat(s.items, NewItems(|s.jobs|, requested), |s.jobs|, h);
    NewItemsCount(|s.jobs|, requested, h);
    NoneYet(s.items, |s.jobs|, h);
  }
}
