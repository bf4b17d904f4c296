/** Deferred deletion of the metrics of stopped targets (pkg/server/metrics_cleaner.go). */
module MetricsCleaner {
  import opened Bytes

  /** Target address to the number of scrapes left before its metrics are deleted. */
  type Pending = map<Str, int>

  function Marked(p: Pending, a: Str): Pending
  {
    p[a := 1]
  }

  function Aborted(p: Pending, a: Str): Pending
  {
    p - {a}
  }

  /** What a scrape collects for deletion. */
  function Expired(p: Pending): set<Str>
  {
    set a | a in p && p[a] <= 1
  }

  /** What a scrape leaves: everything else, one step closer to deletion. */
  function Scraped(p: Pending): Pending
  {
    map a | a in p && p[a] > 1 :: p[a] - 1
  }

  /** The pending map while a scrape has still to look at `rest`. */
  ghost function HalfScraped(p: Pending, rest: set<Str>): Pending
  {
    map a | a in p && (a in rest || p[a] > 1) :: if a in rest then p[a] else p[a] - 1
  }

  lemma ScrapeOne(p: Pending, rest: set<Str>, a: Str)
    requires a in rest && a in p
    ensures HalfScraped(p, rest - {a}) ==
      if p[a] <= 1 then HalfScraped(p, rest) - {a} else HalfScraped(p, rest)[a := p[a] - 1]
  {
  }

  predicate Distinct(list: seq<Str>)
  {
    forall i, j :: 0 <= i < j < |list| ==> list[i] != list[j]
  }

  class MetricsCleaner {
    var pendingDeletes: Pending

    constructor ()
      ensures pendingDeletes == map[]
    {
      pendingDeletes := map[];
    }

    method MarkForDeletion(target: Str)
      modifies this
      ensures pendingDeletes == Marked(old(pendingDeletes), target)
    {
      pendingDeletes := pendingDeletes[target := 1];
    }

    method AbortDeletion(target: Str)
      modifies this
      ensures pendingDeletes == Aborted(old(pendingDeletes), target)
    {
      pendingDeletes := pendingDeletes - {target};
    }

    /** The locked part of the scrape handler: one pass over the map, in any order, deleting entries as it goes. */
    method Collect() returns (toDelete: seq<Str>)
      modifies this
      ensures pendingDeletes == Scraped(old(pendingDeletes))
      ensures Members(toDelete) == Expired(old(pendingDeletes)) && Distinct(toDelete)
    {
      toDelete := [];
      ghost var p := pendingDeletes;
      var rest := pendingDeletes.Keys;
      assert p == HalfScraped(p, rest);
      while rest != {}
        invariant rest <= p.Keys
        invariant pendingDeletes == HalfScraped(p, rest)
        invariant Members(toDelete) == Expired(p) - rest && Distinct(toDelete)
      {
        var target :| target in rest;
        ScrapeOne(p, rest, target);
        ghost var before := toDelete;
        assert target !in Members(before);
        rest := rest - {target};
        if pendingDeletes[target] <= 1 {
          toDelete := toDelete + [target];
          pendingDeletes := pendingDeletes - {target};
          assert Members(toDelete) == Members(before) + {target};
        } else {
          pendingDeletes := pendingDeletes[target := pendingDeletes[target] - 1];
        }
      }
      assert HalfScraped(p, {}) == Scraped(p);
    }
  }

  /** The pending map after `n` scrapes with nothing else happening. */
  function AfterScrapes(p: Pending, n: nat): Pending
  {
    if n == 0 then p else AfterScrapes(Scraped(p), n - 1)
  }

  /** An entry with `n` scrapes left is collected by the n-th scrape, not earlier and not again. */
  lemma {:induction false} CollectedByCountdown(p: Pending, a: Str, n: nat, i: nat)
    requires a in p && p[a] == n && 1 <= n
    ensures a in AfterScrapes(p, i) <==> i < n
    ensures i < n ==> (a in Expired(AfterScrapes(p, i)) <==> i == n - 1)
    decreases n
  {
    if i == 0 {
    } else if n > 1 {
      CollectedByCountdown(Scraped(p), a, n - 1, i - 1);
    } else {
      StaysAbsent(Scraped(p), a, i - 1);
    }
  }

  lemma {:induction false} StaysAbsent(p: Pending, a: Str, i: nat)
    requires a !in p
    ensures a !in AfterScrapes(p, i)
  {
    if i > 0 {
      StaysAbsent(Scraped(p), a, i - 1);
    }
  }
}
