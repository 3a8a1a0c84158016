/**
 * The finalizer's decisions (Sidekiq::Batch::Callback::Finalize) as functions on an abstract
 * store: one function per operation, giving the new store and the effects the call emits.
 *
 * Each MULTI transaction against Redis is one step on a map from batch id to the batch's
 * record. A key that is missing reads as zero counters and empty sets, as HINCRBY by 0 and
 * SCARD do on a missing key. Sidekiq::Batch.enqueue_callbacks and Sidekiq::Batch.cleanup_redis
 * are not part of this model: calling them is recorded as an Enqueue or a Cleanup effect.
 */
module FinalizeSteps {
  import opened Wrappers

  /** The bookkeeping of one batch: its own pending jobs, its child count, and the child ids
      that reported success, completion or failure to it. */
  datatype Record = Record(pending: int, children: int, success: set<Bid>, complete: set<Bid>, failed: set<Bid>)

  type Store = map<Bid, Record>

  const EmptyRecord := Record(0, 0, {}, {}, {})

  /** The record of b as the store's reads see it: an absent batch has zero counters and empty sets. */
  function Get(store: Store, b: Bid): Record {
    if b in store then store[b] else EmptyRecord
  }

  datatype Event = Success | Complete

  /** Calls to code outside the model: enqueue_callbacks(event, bid) and cleanup_redis(bid). */
  datatype Effect = Enqueue(event: Event, bid: Bid) | Cleanup(bid: Bid)

  /** The store after one operation and what the operation emitted, in order. */
  datatype Step = Step(store: Store, effects: seq<Effect>)

  /** The success condition of a batch: no pending jobs and every child reported success. */
  predicate SuccessHolds(r: Record) {
    r.pending == 0 && r.children == |r.success|
  }

  /** The complete condition of a batch: every child completed and every pending job failed. */
  predicate CompleteHolds(r: Record) {
    |r.complete| == r.children && r.pending == |r.failed|
  }

  /** Finalize#success(bid, status, parent_bid). */
  function SuccessStep(store: Store, bid: Bid, parentBid: Option<Bid>): Step {
    if parentBid.None? then Step(store, [])
    else
      var p := parentBid.value;
      var before := Get(store, p);
      var after := before.(success := before.success + {bid}, complete := before.complete + {bid});
      Step(store[p := after],
           (if SuccessHolds(after) then [Enqueue(Success, p)] else [])
           + (if CompleteHolds(after) then [Enqueue(Complete, p)] else []))
  }

  /** Finalize#complete(bid, status, parent_bid). Reading the batch's own counters with
      HINCRBY by 0 creates its record when it is missing. The read of the batch's own counters
      and the add to the parent are two transactions in the source; here they form one step. */
  function CompleteStep(store: Store, bid: Bid, parentBid: Option<Bid>): Step {
    var own := Get(store, bid);
    var touched := store[bid := own];
    if SuccessHolds(own) then Step(touched, [Enqueue(Success, bid)])
    else if parentBid.None? then Step(touched, [])
    else
      var p := parentBid.value;
      var before := Get(touched, p);
      var after := before.(complete := before.complete + {bid});
      Step(touched[p := after], if CompleteHolds(after) then [Enqueue(Complete, p)] else [])
  }

  /** The options of a finalize job: the data batch and the event name. */
  datatype FinalizeOpts = FinalizeOpts(bid: Bid, event: string)

  /** An event name other than success or complete: Ruby's send raises before any cleanup. */
  datatype DispatchError = UnknownEvent(name: string)

  /** Status#parent_bid of a batch, from the parent links recorded when batches were created. */
  function ParentOf(parents: map<Bid, Bid>, bid: Bid): Option<Bid> {
    if bid in parents then Some(parents[bid]) else None
  }

  /** Finalize#dispatch(status, opts) for a callback batch whose id is callbackBid. */
  function DispatchStep(store: Store, parents: map<Bid, Bid>, callbackBid: Bid, opts: FinalizeOpts): (r: Result<Step, DispatchError>)
    ensures r.Err? <==> opts.event != "success" && opts.event != "complete"
    ensures r.Err? ==> r.error == UnknownEvent(opts.event)
  {
    var bid := opts.bid;
    if opts.event != "success" && opts.event != "complete" then Err(UnknownEvent(opts.event))
    else
      var routine := if opts.event == "success" then SuccessStep(store, bid, ParentOf(parents, bid))
                     else CompleteStep(store, bid, ParentOf(parents, bid));
      Ok(Step(routine.store,
              routine.effects + DispatchCleanups(callbackBid, bid, opts.event)))
  }

  /** Finalize#cleanup_redis(bid, callback_bid = nil). */
  function CleanupRedisEffects(bid: Bid, callbackBid: Option<Bid>): (r: seq<Effect>)
    ensures |r| >= 1 && r[0] == Cleanup(bid)
    ensures forall e | e in r :: e.Cleanup? && (e.bid == bid || Some(e.bid) == callbackBid)
    ensures callbackBid.Some? ==> Cleanup(callbackBid.value) in r
    ensures |r| == (if callbackBid.Some? then 2 else 1)
    ensures callbackBid.Some? ==> r[1] == Cleanup(callbackBid.value)
  {
    [Cleanup(bid)] + if callbackBid.Some? then [Cleanup(callbackBid.value)] else []
  }

  // ---------------------------------------------------------------------------------------
  // One call of success

  /** Without a parent, success leaves the store alone and enqueues nothing. */
  lemma SuccessWithoutParent(store: Store, bid: Bid)
    ensures SuccessStep(store, bid, None) == Step(store, [])
  {
  }

  /**
   * With a parent, success adds bid to the parent's success and complete sets (each grows by
   * one when bid was absent and stays the same when it was present), keeps the parent's
   * counters and failed set, and changes no other batch's record.
   */
  lemma SuccessParentUpdate(store: Store, bid: Bid, p: Bid)
    ensures var st := SuccessStep(store, bid, Some(p));
            var before := Get(store, p);
            var after := Get(st.store, p);
            && after.success == before.success + {bid}
            && after.complete == before.complete + {bid}
            && |after.success| == |before.success| + (if bid in before.success then 0 else 1)
            && |after.complete| == |before.complete| + (if bid in before.complete then 0 else 1)
            && after.pending == before.pending
            && after.children == before.children
            && after.failed == before.failed
            && st.store.Keys == store.Keys + {p}
            && (forall b | b != p :: Get(st.store, b) == Get(store, b))
  {
    var before := Get(store, p);
    CardAdd(before.success, bid);
    CardAdd(before.complete, bid);
  }

  /** Adding an element grows a set's cardinality by one when it was absent and not at all otherwise. */
  lemma CardAdd(s: set<Bid>, x: Bid)
    ensures |s + {x}| == |s| + (if x in s then 0 else 1)
  {
    if x in s {
      assert s + {x} == s;
    }
  }

  /**
   * With a parent, success enqueues the parent's success callback iff the parent's success
   * condition holds after the add, and its complete callback iff the complete condition holds;
   * nothing else is enqueued, success before complete.
   */
  lemma SuccessDecision(store: Store, bid: Bid, p: Bid)
    ensures var st := SuccessStep(store, bid, Some(p));
            var after := Get(st.store, p);
            && (Enqueue(Success, p) in st.effects <==> SuccessHolds(after))
            && (Enqueue(Complete, p) in st.effects <==> CompleteHolds(after))
            && (forall e | e in st.effects :: e == Enqueue(Success, p) || e == Enqueue(Complete, p))
            && |st.effects| == (if SuccessHolds(after) then 1 else 0) + (if CompleteHolds(after) then 1 else 0)
            && (SuccessHolds(after) && CompleteHolds(after) ==>
                  st.effects == [Enqueue(Success, p), Enqueue(Complete, p)])
  {
  }

  /** A parent with one child and no jobs of its own gets both callbacks from that child's success. */
  lemma SuccessMayFireBoth(bid: Bid, p: Bid)
    ensures SuccessStep(map[p := Record(0, 1, {}, {}, {})], bid, Some(p)).effects
            == [Enqueue(Success, p), Enqueue(Complete, p)]
  {
    var after := Record(0, 1, {bid}, {bid}, {});
    assert |after.success| == 1 && |after.complete| == 1;
    assert SuccessHolds(after) && CompleteHolds(after);
  }

  /**
   * Replaying success against the state it produced changes nothing more, and makes the same
   * decision again: a callback enqueued by the first call is enqueued a second time.
   */
  lemma SuccessReplay(store: Store, bid: Bid, parentBid: Option<Bid>)
    ensures var first := SuccessStep(store, bid, parentBid);
            var second := SuccessStep(first.store, bid, parentBid);
            second == first
  {
    if parentBid.Some? {
      var p := parentBid.value;
      var first := SuccessStep(store, bid, parentBid);
      var r := Get(first.store, p);
      assert r.success + {bid} == r.success && r.complete + {bid} == r.complete;
      assert first.store[p := r] == first.store;
    }
  }

  /**
   * Success reported to a parent whose record is gone enqueues nothing, but writes the parent's
   * sets again with bid as their only member.
   */
  lemma SuccessAfterCleanup(store: Store, bid: Bid, p: Bid)
    requires p !in store
    ensures var st := SuccessStep(store, bid, Some(p));
            st.effects == [] && st.store == store[p := Record(0, 0, {bid}, {bid}, {})]
  {
    assert |{bid}| == 1;
  }

  // ---------------------------------------------------------------------------------------
  // One call of complete

  /**
   * When the batch's own success condition holds, complete enqueues success for the batch itself
   * and nothing else, and leaves every record as it reads (the parent's complete set untouched).
   */
  lemma CompleteOwnSuccess(store: Store, bid: Bid, parentBid: Option<Bid>)
    requires SuccessHolds(Get(store, bid))
    ensures var st := CompleteStep(store, bid, parentBid);
            && st.effects == [Enqueue(Success, bid)]
            && (forall b :: Get(st.store, b) == Get(store, b))
  {
  }

  /**
   * When the batch's own success condition fails and it has a parent, complete adds bid to the
   * parent's complete set only (never the success set), keeps the parent's counters and failed set,
   * changes no other record as it reads, and enqueues the parent's complete callback iff the
   * parent's complete condition holds after the add, and nothing else.
   */
  lemma CompleteCascade(store: Store, bid: Bid, p: Bid)
    requires !SuccessHolds(Get(store, bid))
    ensures var st := CompleteStep(store, bid, Some(p));
            var before := Get(store, p);
            var after := Get(st.store, p);
            && after.complete == before.complete + {bid}
            && |after.complete| == |before.complete| + (if bid in before.complete then 0 else 1)
            && after.success == before.success
            && after.pending == before.pending
            && after.children == before.children
            && after.failed == before.failed
            && (forall b | b != p :: Get(st.store, b) == Get(store, b))
            && (Enqueue(Complete, p) in st.effects <==> CompleteHolds(after))
            && (forall e | e in st.effects :: e == Enqueue(Complete, p))
            && |st.effects| == (if CompleteHolds(after) then 1 else 0)
  {
    var touched := store[bid := Get(store, bid)];
    assert Get(touched, p) == Get(store, p);
    CardAdd(Get(store, p).complete, bid);
  }

  /**
   * complete on a batch whose record is gone reads zero pending jobs and zero children with no
   * successes, so the batch's own success condition holds and its success callback is enqueued
   * again.
   */
  lemma CompleteAfterCleanup(store: Store, bid: Bid, parentBid: Option<Bid>)
    requires bid !in store
    ensures var st := CompleteStep(store, bid, parentBid);
            st.effects == [Enqueue(Success, bid)] && st.store == store[bid := EmptyRecord]
  {
  }

  /** Without a parent and without its own success, complete enqueues nothing and changes no record as it reads. */
  lemma CompleteWithoutParent(store: Store, bid: Bid)
    requires !SuccessHolds(Get(store, bid))
    ensures var st := CompleteStep(store, bid, None);
            st.effects == [] && (forall b :: Get(st.store, b) == Get(store, b))
  {
  }

  /** Replaying complete against the state it produced changes nothing and makes the same decision. */
  lemma CompleteReplay(store: Store, bid: Bid, parentBid: Option<Bid>)
    ensures var first := CompleteStep(store, bid, parentBid);
            var second := CompleteStep(first.store, bid, parentBid);
            second == first
  {
    var first := CompleteStep(store, bid, parentBid);
    var own := Get(store, bid);
    var touched := store[bid := own];
    if !SuccessHolds(own) && parentBid.Some? {
      var p := parentBid.value;
      if p == bid {
        var after := own.(complete := own.complete + {bid});
        assert first.store == store[bid := after];
        assert !SuccessHolds(after);
        assert after.(complete := after.complete + {bid}) == after;
      } else {
        assert Get(first.store, bid) == own;
        var r := Get(first.store, p);
        assert r.complete + {bid} == r.complete;
        assert first.store[bid := own] == first.store;
        assert first.store[p := r] == first.store;
      }
    } else {
      assert touched[bid := own] == touched;
    }
  }

  // ---------------------------------------------------------------------------------------
  // dispatch

  /** success and complete only ever enqueue callbacks; they never clean up. */
  lemma RoutinesOnlyEnqueue(store: Store, bid: Bid, parentBid: Option<Bid>)
    ensures forall e | e in SuccessStep(store, bid, parentBid).effects :: e.Enqueue?
    ensures forall e | e in CompleteStep(store, bid, parentBid).effects :: e.Enqueue?
  {
  }

  /**
   * dispatch runs exactly the routine the event names, for opts' batch and the parent its status
   * records: its store is that routine's store and its effects begin with that routine's effects.
   */
  lemma DispatchRoutes(store: Store, parents: map<Bid, Bid>, callbackBid: Bid, opts: FinalizeOpts)
    requires opts.event == "success" || opts.event == "complete"
    ensures var routine := if opts.event == "success" then SuccessStep(store, opts.bid, ParentOf(parents, opts.bid))
                           else CompleteStep(store, opts.bid, ParentOf(parents, opts.bid));
            var r := DispatchStep(store, parents, callbackBid, opts);
            && r.Ok?
            && r.value.store == routine.store
            && routine.effects <= r.value.effects
  {
  }

  /** The cleanups dispatch makes after its routine: the callback batch when it is not the data
      batch, then the data batch when the event is success. */
  function DispatchCleanups(callbackBid: Bid, bid: Bid, event: string): seq<Effect> {
    (if bid != callbackBid then [Cleanup(callbackBid)] else [])
    + (if event == "success" then [Cleanup(bid)] else [])
  }

  /** The cleanup facts of dispatch, for any list of enqueues followed by its cleanups. */
  lemma CleanupsAfterEnqueues(enqueues: seq<Effect>, callbackBid: Bid, bid: Bid, event: string)
    requires forall e | e in enqueues :: e.Enqueue?
    ensures var cleanups := DispatchCleanups(callbackBid, bid, event);
            var effects := enqueues + cleanups;
            && |effects| == |enqueues| + (if callbackBid != bid then 1 else 0)
                                       + (if event == "success" then 1 else 0)
            && effects[|enqueues|..] == cleanups
            && (forall e | e in cleanups :: e.Cleanup?)
            && (Cleanup(bid) in effects <==> event == "success")
            && (callbackBid != bid ==> Cleanup(callbackBid) in effects)
            && (forall e | e in effects && e.Cleanup? :: e.bid == callbackBid || e.bid == bid)
            && (forall i, j | 0 <= i < j < |effects| && effects[i].Cleanup? :: effects[j].Cleanup?)
  {
    var cleanups := DispatchCleanups(callbackBid, bid, event);
    var effects := enqueues + cleanups;
    var first: seq<Effect> := if bid != callbackBid then [Cleanup(callbackBid)] else [];
    var second: seq<Effect> := if event == "success" then [Cleanup(bid)] else [];
    assert cleanups == first + second;
    assert Cleanup(bid) !in first;
    assert Cleanup(bid) in cleanups <==> Cleanup(bid) in second;
    forall k | 0 <= k < |enqueues| ensures effects[k].Enqueue? {
      assert effects[k] == enqueues[k] && enqueues[k] in enqueues;
    }
    assert forall k | |enqueues| <= k < |effects| :: effects[k] == cleanups[k - |enqueues|];
    forall i, j | 0 <= i < j < |effects| && effects[i].Cleanup? ensures effects[j].Cleanup? {
      assert i >= |enqueues|;
      assert effects[j] in cleanups;
    }
  }

  /**
   * dispatch cleans up the data batch iff the event is success, and the callback batch iff it
   * differs from the data batch (or is the data batch and the event is success); it cleans up
   * no other batch, every cleanup comes after every callback enqueued, and after the routine's
   * effects there is one cleanup per branch taken and nothing else.
   */
  lemma DispatchCleanup(store: Store, parents: map<Bid, Bid>, callbackBid: Bid, opts: FinalizeOpts)
    requires opts.event == "success" || opts.event == "complete"
    ensures var routine := if opts.event == "success" then SuccessStep(store, opts.bid, ParentOf(parents, opts.bid))
                           else CompleteStep(store, opts.bid, ParentOf(parents, opts.bid));
            var effects := DispatchStep(store, parents, callbackBid, opts).value.effects;
            && |effects| == |routine.effects| + (if callbackBid != opts.bid then 1 else 0)
                                              + (if opts.event == "success" then 1 else 0)
            && (forall e | e in effects[|routine.effects|..] :: e.Cleanup?)
            && (Cleanup(opts.bid) in effects <==> opts.event == "success")
            && (callbackBid != opts.bid ==> Cleanup(callbackBid) in effects)
            && (forall e | e in effects && e.Cleanup? :: e.bid == callbackBid || e.bid == opts.bid)
            && (forall i, j | 0 <= i < j < |effects| && effects[i].Cleanup? :: effects[j].Cleanup?)
  {
    var parent := ParentOf(parents, opts.bid);
    var routine := if opts.event == "success" then SuccessStep(store, opts.bid, parent)
                   else CompleteStep(store, opts.bid, parent);
    assert DispatchStep(store, parents, callbackBid, opts).value.effects
           == routine.effects + DispatchCleanups(callbackBid, opts.bid, opts.event);
    RoutinesOnlyEnqueue(store, opts.bid, parent);
    CleanupsAfterEnqueues(routine.effects, callbackBid, opts.bid, opts.event);
  }
}
