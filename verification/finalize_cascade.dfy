/**
 * The cascade across many calls: why "children == |success|" (and "|complete| == children")
 * first holds on exactly one report when distinct children each report once. Set-add grows a
 * cardinality by at most one, and by exactly one for a child not yet in the set.
 */
module FinalizeCascade {
  import opened Wrappers
  import opened FinalizeSteps

  /** No id occurs twice. */
  predicate Distinct(s: seq<Bid>) {
    forall i, j | 0 <= i < j < |s| :: s[i] != s[j]
  }

  function Elems(s: seq<Bid>): set<Bid> {
    set x | x in s
  }

  /** Distinct ids make a set as large as the sequence. */
  lemma {:induction false} DistinctCard(s: seq<Bid>)
    requires Distinct(s)
    ensures |Elems(s)| == |s|
    decreases |s|
  {
    if s != [] {
      var init := s[..|s| - 1];
      var last := s[|s| - 1];
      assert Distinct(init);
      DistinctCard(init);
      assert Elems(s) == Elems(init) + {last} by {
        assert s == init + [last];
      }
      forall i | 0 <= i < |init| ensures init[i] != last {
        assert s[i] != s[|s| - 1];
      }
    }
  }

  lemma ElemsSnoc(s: seq<Bid>, x: Bid)
    ensures Elems(s + [x]) == Elems(s) + {x}
  {
    assert forall y | y in s + [x] :: y in s || y == x;
  }

  /** A non-empty sequence is its prefix followed by its last element. */
  lemma SnocOfInit<T>(s: seq<T>)
    requires |s| >= 1
    ensures s[..|s| - 1] + [s[|s| - 1]] == s
  {
  }

  /** Set union regrouped around a final element. */
  lemma UnionSnoc<T>(a: set<T>, b: set<T>, x: T)
    ensures (a + b) + {x} == a + (b + {x})
  {
  }

  /** Adding distinct ids that a set does not hold grows it by their number. */
  lemma DisjointCard(a: set<Bid>, s: seq<Bid>)
    requires Distinct(s)
    requires forall i | 0 <= i < |s| :: s[i] !in a
    ensures |a + Elems(s)| == |a| + |s|
  {
    DistinctCard(s);
    assert a !! Elems(s);
  }

  // ---------------------------------------------------------------------------------------
  // Children reporting success, one after another

  /** The store after the children in kids each ran success against parent p, in order. */
  function AfterSuccesses(store: Store, kids: seq<Bid>, p: Bid): Store
    decreases |kids|
  {
    if kids == [] then store
    else SuccessStep(AfterSuccesses(store, kids[..|kids| - 1], p), kids[|kids| - 1], Some(p)).store
  }

  /** What the k-th child's success call enqueues, after the ones before it. */
  function SuccessFiredAt(store: Store, kids: seq<Bid>, p: Bid, k: nat): seq<Effect>
    requires k < |kids|
  {
    SuccessStep(AfterSuccesses(store, kids[..k], p), kids[k], Some(p)).effects
  }

  /** After the children's success calls, the parent's success set holds exactly them in addition to
      what it held, and its counters and failed set are what they were. */
  lemma {:induction false} AfterSuccessesParent(store: Store, kids: seq<Bid>, p: Bid)
    ensures var before := Get(store, p);
            var after := Get(AfterSuccesses(store, kids, p), p);
            && after.success == before.success + Elems(kids)
            && after.pending == before.pending
            && after.children == before.children
            && after.failed == before.failed
    decreases |kids|
  {
    if kids != [] {
      var init := kids[..|kids| - 1];
      var last := kids[|kids| - 1];
      AfterSuccessesParent(store, init, p);
      var pre := AfterSuccesses(store, init, p);
      assert AfterSuccesses(store, kids, p) == SuccessStep(pre, last, Some(p)).store;
      SuccessParentUpdate(pre, last, p);
      assert Elems(kids) == Elems(init) + {last} by {
        SnocOfInit(kids);
        ElemsSnoc(init, last);
      }
      UnionSnoc(Get(store, p).success, Elems(init), last);
    }
  }

  /** The k-th child's success call enqueues the parent's success callback iff the parent's success
      condition holds once the children up to and including the k-th have reported. */
  lemma SuccessFiredAtIff(store: Store, kids: seq<Bid>, p: Bid, k: nat)
    requires k < |kids|
    ensures (Enqueue(Success, p) in SuccessFiredAt(store, kids, p, k))
            <==> SuccessHolds(Get(AfterSuccesses(store, kids[..k + 1], p), p))
  {
    var pre := AfterSuccesses(store, kids[..k], p);
    assert kids[..k + 1][..k] == kids[..k];
    assert AfterSuccesses(store, kids[..k + 1], p) == SuccessStep(pre, kids[k], Some(p)).store;
    SuccessDecision(pre, kids[k], p);
  }

  /**
   * When children not yet in the parent's success set report success one at a time, the k-th
   * report (counting from 0) enqueues the parent's success callback iff the parent has no pending
   * jobs and its child count is the initial success count plus k + 1.
   */
  lemma SuccessCascadeAt(store: Store, kids: seq<Bid>, p: Bid, k: nat)
    requires Distinct(kids)
    requires forall i | 0 <= i < |kids| :: kids[i] !in Get(store, p).success
    requires k < |kids|
    ensures var before := Get(store, p);
            (Enqueue(Success, p) in SuccessFiredAt(store, kids, p, k))
              <==> before.pending == 0 && before.children == |before.success| + k + 1
  {
    var before := Get(store, p);
    var done := kids[..k + 1];
    SuccessFiredAtIff(store, kids, p, k);
    AfterSuccessesParent(store, done, p);
    assert Distinct(done);
    assert forall i | 0 <= i < |done| :: done[i] !in before.success;
    DisjointCard(before.success, done);
  }

  /**
   * The key property: a parent with no pending jobs, N children and an empty success set, whose N
   * distinct children each report success once, has its success callback enqueued by the N-th
   * report and by no earlier one.
   */
  lemma ExactlyOnceSuccess(store: Store, kids: seq<Bid>, p: Bid)
    requires Distinct(kids)
    requires Get(store, p).pending == 0
    requires Get(store, p).children == |kids|
    requires Get(store, p).success == {}
    ensures forall k | 0 <= k < |kids| ::
              Enqueue(Success, p) in SuccessFiredAt(store, kids, p, k) <==> k == |kids| - 1
  {
    forall k | 0 <= k < |kids|
      ensures Enqueue(Success, p) in SuccessFiredAt(store, kids, p, k) <==> k == |kids| - 1
    {
      SuccessCascadeAt(store, kids, p, k);
    }
  }

  // ---------------------------------------------------------------------------------------
  // Children reporting success or complete, one after another

  /** A child's terminal report to its parent: success, or complete (finished with failures). */
  datatype Report = Report(event: Event, child: Bid)

  function ChildrenOf(reports: seq<Report>): (s: seq<Bid>)
    ensures |s| == |reports|
    ensures forall i | 0 <= i < |s| :: s[i] == reports[i].child
  {
    seq(|reports|, i requires 0 <= i < |reports| => reports[i].child)
  }

  /** The children of a prefix of the reports are the prefix of their children. */
  lemma ChildrenOfPrefix(reports: seq<Report>, k: nat)
    requires k <= |reports|
    ensures ChildrenOf(reports[..k]) == ChildrenOf(reports)[..k]
  {
  }

  /** The finalizer routine a report runs, against parent p. */
  function ReportStep(store: Store, r: Report, p: Bid): Step {
    if r.event == Success then SuccessStep(store, r.child, Some(p))
    else CompleteStep(store, r.child, Some(p))
  }

  function AfterReports(store: Store, reports: seq<Report>, p: Bid): Store
    decreases |reports|
  {
    if reports == [] then store
    else ReportStep(AfterReports(store, reports[..|reports| - 1], p), reports[|reports| - 1], p).store
  }

  /** What the k-th report enqueues, after the ones before it. */
  function ReportFiredAt(store: Store, reports: seq<Report>, p: Bid, k: nat): seq<Effect>
    requires k < |reports|
  {
    ReportStep(AfterReports(store, reports[..k], p), reports[k], p).effects
  }

  /** The reports are well formed for parent p: no child is p, and a child reporting complete has
      not itself succeeded (the complete routine would otherwise fire the child's own success). */
  predicate ReportsFor(store: Store, reports: seq<Report>, p: Bid) {
    forall i | 0 <= i < |reports| ::
      reports[i].child != p && (reports[i].event == Complete ==> !SuccessHolds(Get(store, reports[i].child)))
  }

  /** A prefix of well-formed reports is well formed. */
  lemma ReportsForPrefix(store: Store, reports: seq<Report>, p: Bid, k: nat)
    requires ReportsFor(store, reports, p)
    requires k <= |reports|
    ensures ReportsFor(store, reports[..k], p)
  {
    forall i | 0 <= i < k
      ensures reports[..k][i].child != p
      ensures reports[..k][i].event == Complete ==> !SuccessHolds(Get(store, reports[..k][i].child))
    {
      assert reports[..k][i] == reports[i];
    }
  }

  /** One report adds its child to the parent's complete set, keeps the parent's counters and
      failed set, and leaves every other record as it reads. */
  lemma ReportStepParent(pre: Store, r: Report, p: Bid)
    requires r.child != p
    requires r.event == Complete ==> !SuccessHolds(Get(pre, r.child))
    ensures var before := Get(pre, p);
            var st := ReportStep(pre, r, p);
            var after := Get(st.store, p);
            && after.complete == before.complete + {r.child}
            && after.pending == before.pending
            && after.children == before.children
            && after.failed == before.failed
            && (Enqueue(Complete, p) in st.effects <==> CompleteHolds(after))
            && (Enqueue(Success, p) in st.effects ==> r.event == Success)
  {
    if r.event == Success {
      SuccessParentUpdate(pre, r.child, p);
      SuccessDecision(pre, r.child, p);
    } else {
      CompleteCascade(pre, r.child, p);
    }
  }

  /** A report changes no record other than the parent's, as the store's reads see it. */
  lemma ReportStepOthers(pre: Store, r: Report, p: Bid)
    ensures forall b | b != p :: Get(ReportStep(pre, r, p).store, b) == Get(pre, b)
  {
  }

  /** After any reports to p, every record other than p's reads as before. */
  lemma {:induction false} AfterReportsOthers(store: Store, reports: seq<Report>, p: Bid)
    ensures forall b | b != p :: Get(AfterReports(store, reports, p), b) == Get(store, b)
    decreases |reports|
  {
    if reports != [] {
      var init := reports[..|reports| - 1];
      AfterReportsOthers(store, init, p);
      ReportStepOthers(AfterReports(store, init, p), reports[|reports| - 1], p);
    }
  }

  /** After the reports, the parent's complete set holds every reporting child in addition to what it
      held, and its counters and failed set are unchanged. */
  lemma {:induction false} AfterReportsParent(store: Store, reports: seq<Report>, p: Bid)
    requires ReportsFor(store, reports, p)
    ensures var before := Get(store, p);
            var after := Get(AfterReports(store, reports, p), p);
            && after.complete == before.complete + Elems(ChildrenOf(reports))
            && after.pending == before.pending
            && after.children == before.children
            && after.failed == before.failed
    decreases |reports|
  {
    if reports != [] {
      var init := reports[..|reports| - 1];
      var last := reports[|reports| - 1];
      ReportsForPrefix(store, reports, p, |reports| - 1);
      AfterReportsParent(store, init, p);
      var pre := AfterReports(store, init, p);
      assert Get(pre, last.child) == Get(store, last.child) by {
        AfterReportsOthers(store, init, p);
      }
      ReportStepParent(pre, last, p);
      assert Elems(ChildrenOf(reports)) == Elems(ChildrenOf(init)) + {last.child} by {
        ChildrenOfPrefix(reports, |reports| - 1);
        SnocOfInit(ChildrenOf(reports));
        ElemsSnoc(ChildrenOf(init), last.child);
      }
      UnionSnoc(Get(store, p).complete, Elems(ChildrenOf(init)), last.child);
    }
  }

  /** The k-th report enqueues the parent's complete callback iff the parent's complete condition
      holds once the reports up to and including the k-th have run; only a success report can
      enqueue the parent's success callback. */
  lemma ReportFiredAtIff(store: Store, reports: seq<Report>, p: Bid, k: nat)
    requires ReportsFor(store, reports, p)
    requires k < |reports|
    ensures (Enqueue(Complete, p) in ReportFiredAt(store, reports, p, k))
            <==> CompleteHolds(Get(AfterReports(store, reports[..k + 1], p), p))
    ensures Enqueue(Success, p) in ReportFiredAt(store, reports, p, k) ==> reports[k].event == Success
  {
    var r := reports[k];
    var pre := AfterReports(store, reports[..k], p);
    assert reports[..k + 1][..k] == reports[..k];
    assert AfterReports(store, reports[..k + 1], p) == ReportStep(pre, r, p).store;
    assert Get(pre, r.child) == Get(store, r.child) by {
      AfterReportsOthers(store, reports[..k], p);
    }
    ReportStepParent(pre, r, p);
  }

  /**
   * When children not yet in the parent's complete set each report once, by success or by complete,
   * the k-th report (counting from 0) enqueues the parent's complete callback iff the parent's child
   * count is its initial complete count plus k + 1 and its pending count equals its failed count;
   * and only a success report can enqueue the parent's success callback.
   */
  lemma CompleteCascadeAt(store: Store, reports: seq<Report>, p: Bid, k: nat)
    requires ReportsFor(store, reports, p)
    requires Distinct(ChildrenOf(reports))
    requires forall i | 0 <= i < |reports| :: reports[i].child !in Get(store, p).complete
    requires k < |reports|
    ensures var before := Get(store, p);
            && ((Enqueue(Complete, p) in ReportFiredAt(store, reports, p, k))
                  <==> before.children == |before.complete| + k + 1 && before.pending == |before.failed|)
            && (Enqueue(Success, p) in ReportFiredAt(store, reports, p, k) ==> reports[k].event == Success)
  {
    var before := Get(store, p);
    var done := reports[..k + 1];
    ReportFiredAtIff(store, reports, p, k);
    ReportsForPrefix(store, reports, p, k + 1);
    AfterReportsParent(store, done, p);
    var kids := ChildrenOf(done);
    ChildrenOfPrefix(reports, k + 1);
    assert Distinct(kids);
    assert forall i | 0 <= i < |kids| :: kids[i] !in before.complete;
    DisjointCard(before.complete, kids);
  }

  /**
   * A parent whose N distinct children each report once, by success or by complete, with an empty
   * complete set and as many pending jobs as failed ones, has its complete callback enqueued by the
   * N-th report and by no earlier one.
   */
  lemma ExactlyOnceComplete(store: Store, reports: seq<Report>, p: Bid)
    requires ReportsFor(store, reports, p)
    requires Distinct(ChildrenOf(reports))
    requires Get(store, p).complete == {}
    requires Get(store, p).children == |reports|
    requires Get(store, p).pending == |Get(store, p).failed|
    ensures forall k | 0 <= k < |reports| ::
              Enqueue(Complete, p) in ReportFiredAt(store, reports, p, k) <==> k == |reports| - 1
  {
    forall k | 0 <= k < |reports|
      ensures Enqueue(Complete, p) in ReportFiredAt(store, reports, p, k) <==> k == |reports| - 1
    {
      CompleteCascadeAt(store, reports, p, k);
    }
  }
}
