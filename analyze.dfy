/**
 * `analyzeOrders`: for each new order, collect its distinct item ids and, when
 * there is more than one, split it and submit the payload array in one POST to
 * `orders/createorders`. An error thrown for one order is rethrown from inside
 * the loop, so the orders after it are not processed.
 */
module Analyze {
  import opened Wrappers
  import opened Orders
  import opened Splitter

  /** What one iteration of the loop does with an order: `None` when it has at most one
      distinct id (nothing is submitted), otherwise the result of splitting it. */
  type Verdict = Option<Result<seq<Order>, SplitError>>

  /** An order is split only when it has more than one distinct item id. */
  predicate NeedsSplit(order: Order) {
    |DistinctItemIds(order.items)| > 1
  }

  /** The verdict of the loop body on `order`: a split that goes through carries one
      payload per distinct id, so at least two. */
  function VerdictOf(order: Order): (v: Verdict)
    ensures v.Some? && v.value.Success? ==> |v.value.value| == |DistinctItemIds(order.items)| >= 2
  {
    if NeedsSplit(order) then Some(Split(order, DistinctItemIds(order.items))) else None
  }

  /** The verdicts of a batch of orders, one per order. */
  function Verdicts(orders: seq<Order>): (vs: seq<Verdict>)
    ensures |vs| == |orders|
  {
    if |orders| == 0 then [] else Verdicts(orders[..|orders| - 1]) + [VerdictOf(orders[|orders| - 1])]
  }

  /** The verdict of each order is in its place. */
  lemma {:induction false} VerdictsAt(orders: seq<Order>, i: nat)
    requires i < |orders|
    ensures Verdicts(orders)[i] == VerdictOf(orders[i])
    decreases |orders|
  {
    if i < |orders| - 1 {
      VerdictsAt(orders[..|orders| - 1], i);
    }
  }

  /** The verdicts of a prefix of the orders are a prefix of their verdicts. */
  lemma VerdictsPrefix(orders: seq<Order>, k: nat)
    requires k <= |orders|
    ensures Verdicts(orders[..k]) == Verdicts(orders)[..k]
  {
    forall i | 0 <= i < k ensures Verdicts(orders[..k])[i] == Verdicts(orders)[i] {
      VerdictsAt(orders[..k], i);
      VerdictsAt(orders, i);
    }
  }

  /** Whether the loop body throws on a verdict. */
  predicate IsThrow(v: Verdict) {
    v.Some? && v.value.Failure?
  }

  /** Whether processing `order` throws. */
  predicate Throws(order: Order) {
    IsThrow(VerdictOf(order))
  }

  /** How the loop ended: every order was processed, or the split of order `at` threw. */
  datatype Outcome = Completed | Aborted(at: nat, error: SplitError)

  /** The POST bodies submitted for one verdict: the payload array of a split, nothing
      otherwise (a split that throws does so before anything is submitted). */
  function PostsFor(v: Verdict): seq<seq<Order>> {
    match v
    case Some(Success(payloads)) => [payloads]
    case _ => []
  }

  /** The POST bodies submitted for a sequence of verdicts, one after the other. */
  function Posts(vs: seq<Verdict>): seq<seq<Order>> {
    if |vs| == 0 then [] else Posts(vs[..|vs| - 1]) + PostsFor(vs[|vs| - 1])
  }

  /** The number of verdicts processed before the loop ended. */
  function Processed(outcome: Outcome, n: nat): nat {
    match outcome
    case Completed => n
    case Aborted(at, _) => at
  }

  /** The state of the loop after its first `n` iterations: the POST bodies submitted so far
      and whether an order has thrown. */
  function Run(vs: seq<Verdict>, n: nat): (seq<seq<Order>>, Outcome)
    requires n <= |vs|
  {
    if n == 0 then ([], Completed) else Step(Run(vs, n - 1), vs[n - 1], n - 1)
  }

  /** Iteration `i` of the loop, on the state the earlier iterations left: nothing happens
      once an order has thrown. */
  function Step(state: (seq<seq<Order>>, Outcome), v: Verdict, i: nat): (seq<seq<Order>>, Outcome) {
    if state.1.Aborted? then state
    else match v
      case None => state
      case Some(Failure(e)) => (state.0, Aborted(i, e))
      case Some(Success(payloads)) => (state.0 + [payloads], Completed)
  }

  /** The body of the `try` block on one order: the distinct ids, and the split when there
      is more than one of them. It takes the whole batch and its index only so that the
      loop's proof meets `Verdicts` directly, which keeps the solver's work small. */
  method AnalyzeOrder(newOrders: seq<Order>, x: nat) returns (v: Verdict)
    requires x < |newOrders|
    ensures v == Verdicts(newOrders)[x]
  {
    var order := newOrders[x];
    VerdictsAt(newOrders, x);
    var orderItems := DistinctItemIds(order.items);
    if |orderItems| > 1 {
      var orderUpdateArray := SplitShipstationOrder(order, orderItems);
      v := Some(orderUpdateArray);
    } else {
      v := None;
    }
  }

  /** The loop of `analyzeOrders`; `posts` are the bodies submitted to the API, in order. */
  method AnalyzeOrders(newOrders: seq<Order>) returns (posts: seq<seq<Order>>, outcome: Outcome)
    ensures (posts, outcome) == Run(Verdicts(newOrders), |newOrders|)
  {
    ghost var vs := Verdicts(newOrders);
    posts, outcome := [], Completed;
    var x := 0;
    // A thrown error is rethrown from the `catch` block, which leaves the loop.
    while x < |newOrders| && outcome.Completed?
      invariant 0 <= x <= |newOrders|
      invariant Run(vs, x) == (posts, outcome)
      // Implied by the invariant above; kept as a hint that keeps the solver's work small.
      invariant outcome.Aborted? ==> x == |newOrders| || Run(vs, x).1.Aborted?
    {
      var v := AnalyzeOrder(newOrders, x);
      assert Run(vs, x + 1) == Step((posts, outcome), v, x);
      if v.Some? {
        if v.value.Failure? {
          outcome := Aborted(x, v.value.error);
        } else {
          posts := posts + [v.value.value];
        }
      }
      x := x + 1;
    }
    if outcome.Aborted? {
      RunAfterAbort(vs, x);
    }
  }

  /** Once an order has thrown, the remaining orders are not processed. */
  lemma {:induction false} RunAfterAbort(vs: seq<Verdict>, n: nat)
    requires n <= |vs| && Run(vs, n).1.Aborted?
    ensures Run(vs, |vs|) == Run(vs, n)
    decreases |vs| - n
  {
    if n < |vs| {
      assert Run(vs, n + 1) == Run(vs, n);
      RunAfterAbort(vs, n + 1);
    }
  }

  /** The loop stops at the first verdict that throws, and reports it with its error;
      every verdict before it goes through. */
  lemma {:induction false} RunStopsAtFirstThrow(vs: seq<Verdict>, n: nat)
    requires n <= |vs|
    ensures Processed(Run(vs, n).1, n) <= n
    ensures forall j :: 0 <= j < Processed(Run(vs, n).1, n) ==> !IsThrow(vs[j])
    ensures Run(vs, n).1.Aborted? ==>
              Run(vs, n).1.at < n && vs[Run(vs, n).1.at] == Some(Failure(Run(vs, n).1.error))
    decreases n
  {
    if n > 0 {
      RunStopsAtFirstThrow(vs, n - 1);
    }
  }

  /** The POST bodies are those of the processed verdicts, one after the other. */
  lemma {:induction false} RunPosts(vs: seq<Verdict>, n: nat)
    requires n <= |vs|
    ensures Processed(Run(vs, n).1, n) <= n
    ensures Run(vs, n).0 == Posts(vs[..Processed(Run(vs, n).1, n)])
    decreases n
  {
    if n > 0 {
      RunPosts(vs, n - 1);
      if Run(vs, n - 1).1.Completed? {
        assert vs[..n][..n - 1] == vs[..n - 1];
      }
    }
  }

  /** Each order contributes its own POSTs independently of the others. */
  lemma {:induction false} PostsAppend(a: seq<Verdict>, b: seq<Verdict>)
    ensures Posts(a + b) == Posts(a) + Posts(b)
    decreases |b|
  {
    if |b| == 0 {
      assert a + b == a;
    } else {
      assert (a + b)[..|a + b| - 1] == a + b[..|b| - 1];
      PostsAppend(a, b[..|b| - 1]);
    }
  }

  /** A single order gives exactly one POST, carrying its whole payload array, when it has more
      than one distinct id and its split does not throw, and no POST otherwise. */
  lemma PostsOfOne(order: Order)
    ensures NeedsSplit(order) && !Throws(order) ==>
              Posts(Verdicts([order])) == [Split(order, DistinctItemIds(order.items)).value]
    ensures !NeedsSplit(order) || Throws(order) ==> Posts(Verdicts([order])) == []
  {
    var vs := Verdicts([order]);
    assert [order][..0] == [];
    assert vs == [VerdictOf(order)];
    assert vs[..0] == [];
  }

  /** Every POST carries at least two payloads: an order is never submitted unsplit. */
  lemma {:induction false} PostsAreSplits(vs: seq<Verdict>)
    requires forall j :: 0 <= j < |vs| && vs[j].Some? && vs[j].value.Success? ==> |vs[j].value.value| >= 2
    ensures forall i :: 0 <= i < |Posts(vs)| ==> |Posts(vs)[i]| >= 2
    decreases |vs|
  {
    if |vs| > 0 {
      PostsAreSplits(vs[..|vs| - 1]);
    }
  }

  /** Where `analyzeOrders(newOrders)` stops: at the first order whose split throws, with
      that order's error; every order before it goes through. */
  lemma AnalyzeStopsAtFirstThrow(newOrders: seq<Order>)
    ensures var outcome := Run(Verdicts(newOrders), |newOrders|).1;
            var k := Processed(outcome, |newOrders|);
            k <= |newOrders|
            && (forall j :: 0 <= j < k ==> !Throws(newOrders[j]))
            && (outcome.Aborted? ==> k < |newOrders| && NeedsSplit(newOrders[k])
                                     && Split(newOrders[k], DistinctItemIds(newOrders[k].items)) == Failure(outcome.error))
  {
    var vs := Verdicts(newOrders);
    RunStopsAtFirstThrow(vs, |newOrders|);
    var outcome := Run(vs, |newOrders|).1;
    forall j | 0 <= j < Processed(outcome, |newOrders|) ensures !Throws(newOrders[j]) {
      VerdictsAt(newOrders, j);
    }
    if outcome.Aborted? {
      VerdictsAt(newOrders, outcome.at);
    }
  }

  /** What `analyzeOrders(newOrders)` submits: the POSTs of the orders before the stop, one
      per order that needs a split, each with at least two payloads. */
  lemma AnalyzePosts(newOrders: seq<Order>)
    ensures var (posts, outcome) := Run(Verdicts(newOrders), |newOrders|);
            var k := Processed(outcome, |newOrders|);
            k <= |newOrders|
            && posts == Posts(Verdicts(newOrders[..k]))
            && (forall i :: 0 <= i < |posts| ==> |posts[i]| >= 2)
  {
    var vs := Verdicts(newOrders);
    var n := |newOrders|;
    RunPosts(vs, n);
    var k := Processed(Run(vs, n).1, n);
    var prefix := vs[..k];
    VerdictsPrefix(newOrders, k);
    forall j | 0 <= j < |prefix| && prefix[j].Some? && prefix[j].value.Success?
      ensures |prefix[j].value.value| >= 2
    {
      VerdictsAt(newOrders, j);
    }
    PostsAreSplits(prefix);
  }

  /** An order whose first item has a non-`null` id never makes the loop stop early. */
  lemma CompletesWhenFirstIdPresent(order: Order)
    requires |order.items| > 0 ==> order.items[0].orderItemId.Some?
    ensures !Throws(order)
  {
    SplitFailsIffFirstIdNull(order);
  }
}
