/**
 * Sidekiq::Batch::Callback::Finalize as an object over the shared store. Each method performs its
 * MULTI transactions as updates of `store` (complete's two run back to back, with no other report in
 * between), reads back the counters and cardinalities, and appends
 * the enqueue and cleanup calls it makes to `effects`, in the order the source makes them. Each
 * method is proved against the step function of the same name in FinalizeSteps, whose properties
 * are proved there and in FinalizeCascade.
 */
module CallbackFinalize {
  import opened Wrappers
  import opened FinalizeSteps

  class Finalizer {
    /** The batch records held in Redis, by batch id. */
    var store: Store
    /** Status#parent_bid of each batch that has a parent. */
    const parents: map<Bid, Bid>
    /** Every enqueue_callbacks and cleanup_redis call made so far, oldest first. */
    var effects: seq<Effect>

    constructor (initial: Store, parents: map<Bid, Bid>)
      ensures store == initial && this.parents == parents && effects == []
    {
      store := initial;
      this.parents := parents;
      effects := [];
    }

    /** Finalize#success(bid, status, parent_bid). */
    method Success(bid: Bid, parentBid: Option<Bid>)
      modifies this
      ensures store == SuccessStep(old(store), bid, parentBid).store
      ensures effects == old(effects) + SuccessStep(old(store), bid, parentBid).effects
      ensures parentBid.None? ==> store == old(store) && effects == old(effects)
      ensures parentBid.Some? ==>
                var p := parentBid.value;
                && Get(store, p).success == Get(old(store), p).success + {bid}
                && Get(store, p).complete == Get(old(store), p).complete + {bid}
                && (Enqueue(Event.Success, p) in effects[|old(effects)|..] <==> SuccessHolds(Get(store, p)))
                && (Enqueue(Event.Complete, p) in effects[|old(effects)|..] <==> CompleteHolds(Get(store, p)))
    {
      if parentBid.Some? {
        var p := parentBid.value;
        var r := Get(store, p);
        r := r.(success := r.success + {bid}, complete := r.complete + {bid});
        store := store[p := r];
        var pending, children := r.pending, r.children;
        var success, complete, failure := |r.success|, |r.complete|, |r.failed|;
        if pending == 0 && children == success {
          effects := effects + [Enqueue(Event.Success, p)];
        }
        if complete == children && pending == failure {
          effects := effects + [Enqueue(Event.Complete, p)];
        }
        SuccessDecision(old(store), bid, p);
      }
    }

    /** Finalize#complete(bid, status, parent_bid). */
    method Complete(bid: Bid, parentBid: Option<Bid>)
      modifies this
      ensures store == CompleteStep(old(store), bid, parentBid).store
      ensures effects == old(effects) + CompleteStep(old(store), bid, parentBid).effects
      ensures SuccessHolds(Get(old(store), bid)) ==>
                effects == old(effects) + [Enqueue(Event.Success, bid)]
                && (forall b :: Get(store, b) == Get(old(store), b))
      ensures !SuccessHolds(Get(old(store), bid)) && parentBid.Some? ==>
                var p := parentBid.value;
                && Get(store, p).complete == Get(old(store), p).complete + {bid}
                && Get(store, p).success == Get(old(store), p).success
                && (Enqueue(Event.Complete, p) in effects[|old(effects)|..] <==> CompleteHolds(Get(store, p)))
    {
      var own := Get(store, bid);
      store := store[bid := own];
      var pending, children, success := own.pending, own.children, |own.success|;
      var ownSuccess := pending == 0 && children == success;
      if ownSuccess {
        effects := effects + [Enqueue(Event.Success, bid)];
      }
      if parentBid.Some? && !ownSuccess {
        var p := parentBid.value;
        var r := Get(store, p);
        r := r.(complete := r.complete + {bid});
        store := store[p := r];
        var complete, pendingP, childrenP, failure := |r.complete|, r.pending, r.children, |r.failed|;
        if complete == childrenP && pendingP == failure {
          effects := effects + [Enqueue(Event.Complete, p)];
        }
        CompleteCascade(old(store), bid, p);
      }
      if ownSuccess {
        CompleteOwnSuccess(old(store), bid, parentBid);
      }
    }

    /**
     * Finalize#dispatch(status, opts), where callbackBid is status.bid: runs the routine the event
     * names for opts' batch, then cleans up the callback batch when it is not the data batch, then
     * the data batch when the event is success. Any other event name fails before anything happens.
     */
    method Dispatch(callbackBid: Bid, opts: FinalizeOpts) returns (err: Option<DispatchError>)
      modifies this
      ensures match DispatchStep(old(store), parents, callbackBid, opts)
              case Ok(st) => err.None? && store == st.store && effects == old(effects) + st.effects
              case Err(e) => err == Some(e) && store == old(store) && effects == old(effects)
      ensures err.None? ==> (Cleanup(opts.bid) in effects[|old(effects)|..] <==> opts.event == "success")
    {
      var bid := opts.bid;
      var callbackBatch := bid != callbackBid;
      var parentBid := ParentOf(parents, bid);
      if opts.event == "success" {
        Success(bid, parentBid);
      } else if opts.event == "complete" {
        Complete(bid, parentBid);
      } else {
        return Some(UnknownEvent(opts.event));
      }
      if callbackBatch {
        effects := effects + [Cleanup(callbackBid)];
      }
      if opts.event == "success" {
        effects := effects + [Cleanup(bid)];
      }
      err := None;
      ghost var st := DispatchStep(old(store), parents, callbackBid, opts).value;
      assert store == st.store && effects == old(effects) + st.effects;
      assert effects[|old(effects)|..] == st.effects;
      DispatchCleanup(old(store), parents, callbackBid, opts);
    }

    /** Finalize#cleanup_redis(bid, callback_bid = nil). */
    method CleanupRedis(bid: Bid, callbackBid: Option<Bid>)
      modifies this
      ensures store == old(store)
      ensures effects == old(effects) + CleanupRedisEffects(bid, callbackBid)
    {
      effects := effects + [Cleanup(bid)];
      if callbackBid.Some? {
        effects := effects + [Cleanup(callbackBid.value)];
      }
    }
  }
}
