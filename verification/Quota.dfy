/** The largest size of a static file that visitors' browsers may cache, for a given storage quota. */
module Quota {

  const MEBI := 1024 * 1024

  function Sum(s: seq<nat>): nat {
    if s == [] then 0 else s[0] + Sum(s[1..])
  }

  /** All files that a limit admits, taken together. */
  function Admitted(s: seq<nat>, limit: int): nat {
    if s == [] then 0 else (if s[0] <= limit then s[0] else 0) + Admitted(s[1..], limit)
  }

  /** Largest first. */
  predicate Descending(s: seq<nat>) {
    |s| > 1 ==> s[0] >= s[1] && Descending(s[1..])
  }

  lemma {:induction false} FirstLargest(s: seq<nat>, k: nat)
    requires Descending(s) && k < |s|
    ensures s[0] >= s[k] && Descending(s[1..])
  {
    if k > 0 {
      FirstLargest(s[1..], k - 1);
    }
  }

  function SafeQuota(megabytes: int): nat {
    (if megabytes > 10 then megabytes - 10 else 0) * MEBI
  }

  // ---- Sorting ----

  function Insert(x: nat, s: seq<nat>): seq<nat> {
    if s == [] || x >= s[0] then [x] + s else [s[0]] + Insert(x, s[1..])
  }

  /** `file_sizes.sort(reverse=True)`. */
  function Sorted(s: seq<nat>): seq<nat> {
    if s == [] then [] else Insert(s[0], Sorted(s[1..]))
  }

  lemma {:induction false} InsertSorts(x: nat, s: seq<nat>)
    requires Descending(s)
    ensures Descending(Insert(x, s)) && Insert(x, s) != []
    ensures s != [] ==> Insert(x, s)[0] == (if x >= s[0] then x else s[0])
  {
    if s == [] || x >= s[0] {
      assert ([x] + s)[1..] == s;
    } else {
      var t := Insert(x, s[1..]);
      if |s| > 1 {
        InsertSorts(x, s[1..]);
      } else {
        assert t == [x];
      }
      assert ([s[0]] + t)[1..] == t;
    }
  }

  lemma {:induction false} InsertAdds(x: nat, s: seq<nat>, limit: int)
    ensures Admitted(Insert(x, s), limit) == Admitted(s, limit) + (if x <= limit then x else 0)
    ensures Sum(Insert(x, s)) == x + Sum(s)
    ensures multiset(Insert(x, s)) == multiset(s) + multiset{x}
  {
    if s == [] || x >= s[0] {
      assert ([x] + s)[1..] == s;
    } else {
      var t := Insert(x, s[1..]);
      InsertAdds(x, s[1..], limit);
      assert ([s[0]] + t)[1..] == t;
      assert s == [s[0]] + s[1..];
    }
  }

  /** The sorted sizes are in order, they are the same sizes, and every limit admits as much of them. */
  lemma {:induction false} SortedSorts(s: seq<nat>, limit: int)
    ensures Descending(Sorted(s)) && multiset(Sorted(s)) == multiset(s)
    ensures Admitted(Sorted(s), limit) == Admitted(s, limit) && Sum(Sorted(s)) == Sum(s)
  {
    if s != [] {
      SortedSorts(s[1..], limit);
      InsertSorts(s[0], Sorted(s[1..]));
      InsertAdds(s[0], Sorted(s[1..]), limit);
      assert s == [s[0]] + s[1..];
    }
  }

  // ---- The limit ----

  lemma {:induction false} AdmittedAll(s: seq<nat>, limit: int)
    requires forall i :: 0 <= i < |s| ==> s[i] <= limit
    ensures Admitted(s, limit) == Sum(s)
  {
    if s != [] {
      assert forall i :: 0 <= i < |s| - 1 ==> s[1..][i] == s[i + 1];
      AdmittedAll(s[1..], limit);
    }
  }

  lemma {:induction false} AdmittedMost(s: seq<nat>, limit: int)
    ensures Admitted(s, limit) <= Sum(s)
  {
    if s != [] {
      AdmittedMost(s[1..], limit);
    }
  }

  /** A limit below the file at `k` leaves out it and all before it; a limit that admits it admits all after it. */
  lemma {:induction false} AdmittedFrom(s: seq<nat>, k: nat, limit: int)
    requires Descending(s) && k < |s|
    ensures limit < s[k] ==> Admitted(s, limit) <= Sum(s[k + 1..])
    ensures limit >= s[k] ==> Admitted(s, limit) >= s[k] + Sum(s[k + 1..])
    decreases k
  {
    if k == 0 {
      if limit < s[0] {
        AdmittedMost(s[1..], limit);
      } else {
        forall i | 0 <= i < |s| - 1 ensures s[1..][i] <= limit { FirstLargest(s, i + 1); }
        AdmittedAll(s[1..], limit);
      }
    } else {
      FirstLargest(s, k);
      AdmittedFrom(s[1..], k - 1, limit);
      assert s[1..][k - 1] == s[k] && s[1..][k..] == s[k + 1..];
    }
  }

  lemma SumFrom(s: seq<nat>, k: nat)
    requires k < |s|
    ensures Sum(s[k..]) == s[k] + Sum(s[k + 1..])
  {
    assert s[k..][1..] == s[k + 1..];
  }

  /** What the limit is for: nothing may be cached without a quota; without files it is 10 MiB; a limit that everything
      fits admits every file; and otherwise the admitted files fit, and no larger limit would let them fit. */
  ghost predicate IsBest(sizes: seq<nat>, quota: nat, limit: int) {
    if quota == 0 then limit == 0
    else if sizes == [] then limit == 10 * MEBI
    else if Sum(sizes) <= quota then
      && limit >= 10 * MEBI && Admitted(sizes, limit) == Sum(sizes)
      && (forall x :: x in sizes ==> x + 1024 <= limit)
      && (limit == 10 * MEBI || exists x :: x in sizes && limit == x + 1024)
    else
      limit >= 0 && Admitted(sizes, limit) <= quota
      && forall larger :: larger > limit ==> Admitted(sizes, larger) > quota
  }

  /** `get_global_static_info` on the sorted sizes of `get_fs_stats`. */
  method DynamicMaxSize(sizes: seq<nat>, megabytes: int) returns (limit: int)
    requires Descending(sizes)
    ensures IsBest(sizes, SafeQuota(megabytes), limit)
  {
    var quota := SafeQuota(megabytes);
    var total := Total(sizes);
    if quota <= 0 {
      return 0;
    }
    if sizes == [] {
      return 10 * MEBI;
    }
    if total <= quota {
      limit := sizes[0] + 1024;
      if limit < 10 * MEBI {
        limit := 10 * MEBI;
      }
      forall i | 0 <= i < |sizes| ensures sizes[i] + 1024 <= limit { FirstLargest(sizes, i); }
      AdmittedAll(sizes, limit);
      assert sizes[0] in sizes;
      return;
    }
    var current := total;
    limit := 0;
    NothingAfter(sizes);
    for k := 0 to |sizes|
      invariant current == Sum(sizes[k..]) && current > quota
    {
      SumFrom(sizes, k);
      current := current - sizes[k];
      if current <= quota {
        limit := sizes[k] - 1;
        AdmittedFrom(sizes, k, limit);
        forall larger | larger > limit ensures Admitted(sizes, larger) > quota {
          AdmittedFrom(sizes, k, larger);
        }
        return;
      }
    }
  }

  lemma NothingAfter(s: seq<nat>)
    ensures Sum(s[|s|..]) == 0 && s[0..] == s
  {
  }

  /** `sum(file_sizes)`. */
  method Total(sizes: seq<nat>) returns (total: nat)
    ensures total == Sum(sizes)
  {
    total := 0;
    assert sizes[0..] == sizes;
    for k := 0 to |sizes|
      invariant total + Sum(sizes[k..]) == Sum(sizes)
    {
      SumFrom(sizes, k);
      total := total + sizes[k];
    }
    assert sizes[|sizes|..] == [];
  }

  lemma SameElements(a: seq<nat>, b: seq<nat>)
    requires multiset(a) == multiset(b)
    ensures (a == [] <==> b == []) && forall x :: x in a <==> x in b
  {
    assert forall x :: (x in a <==> x in multiset(a)) && (x in b <==> x in multiset(b));
    assert |multiset(a)| == |a| && |multiset(b)| == |b|;
  }

  /** Sorting is only for the computation: the best limit is the same for the files in any order. */
  lemma BestForAll(found: seq<nat>, quota: nat, limit: int)
    ensures IsBest(Sorted(found), quota, limit) <==> IsBest(found, quota, limit)
  {
    hide Sorted;
    var s := Sorted(found);
    forall l: int ensures Admitted(s, l) == Admitted(found, l) && Sum(s) == Sum(found) { SortedSorts(found, l); }
    SortedSorts(found, limit);
    SameElements(s, found);
  }

  /** The limit that is published for the files as they were found. */
  method PublishedLimit(found: seq<nat>, megabytes: int) returns (limit: int)
    ensures IsBest(found, SafeQuota(megabytes), limit)
  {
    SortedSorts(found, 0);
    limit := DynamicMaxSize(Sorted(found), megabytes);
    BestForAll(found, SafeQuota(megabytes), limit);
  }

  /** What the best limit means in bytes: of the quota in megabytes ten are kept free; what is admitted fits the rest;
      and where not everything does, a larger limit would admit more than that. */
  lemma LimitMeans(sizes: seq<nat>, megabytes: int, limit: int)
    requires IsBest(sizes, SafeQuota(megabytes), limit)
    ensures megabytes <= 10 ==> limit == 0
    ensures megabytes > 10 && sizes == [] ==> limit == 10485760
    ensures megabytes > 10 && sizes != [] ==>
              && Admitted(sizes, limit) + 10485760 <= 1048576 * megabytes
              && forall larger :: larger > limit ==>
                   || Admitted(sizes, larger) == Admitted(sizes, limit)
                   || Admitted(sizes, larger) + 10485760 > 1048576 * megabytes
  {
    if megabytes > 10 && sizes != [] && Sum(sizes) <= SafeQuota(megabytes) {
      forall larger | larger > limit ensures Admitted(sizes, larger) == Admitted(sizes, limit) {
        assert forall i :: 0 <= i < |sizes| ==> sizes[i] in sizes;
        AdmittedAll(sizes, larger);
      }
    }
  }
}
