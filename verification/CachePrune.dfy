/** Pruning the SCons cache: least recently used first, no more than needed, whatever file operations fail. */
module CachePrune {
  import opened Sequences
  import opened Sorting

  datatype CacheItem = CacheItem(path: string, time: real, size: nat)

  /** What becomes of an attempt to delete an item. */
  datatype Fate = RenameFails | RemoveFails | Deleted

  const GIGABYTES := 1024 * 1024 * 1024

  function Sizes(items: seq<CacheItem>): nat {
    if items == [] then 0 else Sizes(items[..|items| - 1]) + items[|items| - 1].size
  }

  // ----- Collecting -----

  /** An entry of a cache directory: a directory, a file that cannot be queried, or an item. */
  datatype Listed = Directory | Unreadable | File(item: CacheItem)

  function Items(listing: seq<Listed>): seq<CacheItem> {
    if listing == [] then []
    else
      var last := listing[|listing| - 1];
      Items(listing[..|listing| - 1]) + if last.File? then [last.item] else []
  }

  /** Every readable file is among the items as often as it is listed, and nothing else is. */
  lemma {:induction false} ItemsAre(listing: seq<Listed>)
    ensures forall x :: multiset(Items(listing))[x] == multiset(listing)[File(x)]
  {
    if listing != [] {
      var init, last := listing[..|listing| - 1], listing[|listing| - 1];
      ItemsAre(init);
      assert listing == init + [last];
    }
  }

  lemma ItemsSnoc(listing: seq<Listed>, last: Listed)
    ensures Items(listing + [last]) == Items(listing) + if last.File? then [last.item] else []
  {
    assert (listing + [last])[..|listing|] == listing;
  }

  /** The items keep the order of the listing. */
  lemma {:induction false} ItemsConcat(a: seq<Listed>, b: seq<Listed>)
    ensures Items(a + b) == Items(a) + Items(b)
  {
    if b == [] {
      assert a + b == a;
    } else {
      var init, last := b[..|b| - 1], b[|b| - 1];
      hide Items;
      ItemsConcat(a, init);
      ItemsSnoc(a + init, last);
      ItemsSnoc(init, last);
      assert b == init + [last] && a + b == (a + init) + [last];
    }
  }

  method CollectCacheContents(listing: seq<Listed>) returns (total: nat, contents: seq<CacheItem>)
    ensures contents == Items(listing) && total == Sizes(contents)
  {
    total, contents := 0, [];
    for i := 0 to |listing|
      invariant contents == Items(listing[..i]) && total == Sizes(contents)
    {
      if listing[i].File? {
        total := total + listing[i].item.size;
        contents := contents + [listing[i].item];
        assert contents[..|contents| - 1] == Items(listing[..i]);
      }
      assert listing[..i + 1][..i] == listing[..i];
    }
    assert listing[..|listing|] == listing;
  }

  // ----- Sorting -----

  predicate Newer(a: CacheItem, b: CacheItem) {
    a.time >= b.time
  }

  /** `sort(key=time, reverse=True)`: newest first, equals in their old order. */
  function NewestFirst(items: seq<CacheItem>): seq<CacheItem> {
    Sort(Newer, items)
  }

  ghost predicate Descending(items: seq<CacheItem>) {
    forall i, j :: 0 <= i < j < |items| ==> items[i].time >= items[j].time
  }

  lemma NewestFirstIsDescending(items: seq<CacheItem>)
    ensures Descending(NewestFirst(items)) && multiset(NewestFirst(items)) == multiset(items)
  {
    hide Sort;
    SortSorts(Newer, items);
    SortKeeps(Newer, items);
    var r := NewestFirst(items);
    forall i, j | 0 <= i < j < |r|
      ensures r[i].time >= r[j].time
    {
      assert Newer(r[i], r[j]);
    }
  }

  // ----- Attempts -----

  /** The attempts that deleted their item; attempt `k` meets `fate(k)`. */
  function DeletedOf(attempted: seq<CacheItem>, fate: nat -> Fate): seq<CacheItem> {
    if attempted == [] then []
    else
      var n: nat := |attempted| - 1;
      DeletedOf(attempted[..n], fate) + if fate(n) == Deleted then [attempted[n]] else []
  }

  lemma {:induction false} DeletedWithoutFailure(attempted: seq<CacheItem>, fate: nat -> Fate)
    requires forall k: nat :: k < |attempted| ==> fate(k) == Deleted
    ensures DeletedOf(attempted, fate) == attempted
  {
    if attempted != [] {
      var n: nat := |attempted| - 1;
      DeletedWithoutFailure(attempted[..n], fate);
      assert attempted[..n] + [attempted[n]] == attempted;
    }
  }

  lemma {:induction false} SizesConcat(a: seq<CacheItem>, b: seq<CacheItem>)
    ensures Sizes(a + b) == Sizes(a) + Sizes(b)
  {
    if b == [] {
      assert a + b == a;
    } else {
      var c, init := a + b, b[..|b| - 1];
      SizesConcat(a, init);
      assert c[..|c| - 1] == a + init;
    }
  }

  lemma {:induction false} SizesOfPermutation(a: seq<CacheItem>, b: seq<CacheItem>)
    requires multiset(a) == multiset(b)
    ensures Sizes(a) == Sizes(b)
  {
    if a == [] {
      assert |multiset(b)| == 0;
    } else {
      hide Sizes;
      var k := HeadOccurs(a, b);
      SizesOfPermutation(a[1..], Without(b, k));
      assert a == [a[0]] + a[1..] && b == b[..k] + ([a[0]] + b[k + 1..]);
      SizesConcat([a[0]], a[1..]);
      SizesConcat(b[..k], [a[0]] + b[k + 1..]);
      SizesConcat([a[0]], b[k + 1..]);
      SizesConcat(b[..k], b[k + 1..]);
    }
  }

  // ----- Pruning -----

  function Target(cacheSizeGb: int, cleanRatio: real): real {
    (cacheSizeGb * GIGABYTES) as real * cleanRatio
  }

  /** The target is the given share of the quota: all of it for one, nothing for zero, and more for more. */
  lemma TargetIsShare(cacheSizeGb: int, a: real, b: real)
    requires cacheSizeGb > 0
    ensures Target(cacheSizeGb, 0.0) == 0.0 && Target(cacheSizeGb, 1.0) == (cacheSizeGb * GIGABYTES) as real
    ensures a < b <==> Target(cacheSizeGb, a) < Target(cacheSizeGb, b)
    ensures Target(cacheSizeGb, a + b) == Target(cacheSizeGb, a) + Target(cacheSizeGb, b)
  {
    var quota := (cacheSizeGb * GIGABYTES) as real;
    assert quota * b - quota * a == quota * (b - a);
  }

  /** Every item of `tried` is at most as recently used as every item of `kept`. */
  ghost predicate NoNewer(tried: seq<CacheItem>, kept: seq<CacheItem>) {
    forall a, k :: a in tried && k in kept ==> a.time <= k.time
  }

  ghost predicate OldestFirst(tried: seq<CacheItem>) {
    forall i, j :: 0 <= i < j < |tried| ==> tried[i].time <= tried[j].time
  }

  /** The tracked size after the first `k` attempts. */
  ghost function SizeAfter(contents: seq<CacheItem>, fate: nat -> Fate, tried: seq<CacheItem>, k: nat): int
    requires k <= |tried|
  {
    Sizes(contents) - Sizes(DeletedOf(tried[..k], fate))
  }

  /** Every attempt is made while the tracked size is at least `target`. */
  ghost predicate NeverBelow(contents: seq<CacheItem>, target: real, fate: nat -> Fate, tried: seq<CacheItem>) {
    forall k :: 0 <= k < |tried| ==> SizeAfter(contents, fate, tried, k) as real >= target
  }

  /**
    What holds after each attempt: the oldest items were tried, oldest first, each while the
    tracked size was still at least `target`; `size` has lost exactly what was deleted.
   */
  ghost predicate Pruned(contents: seq<CacheItem>, target: real, fate: nat -> Fate,
                         tried: seq<CacheItem>, kept: seq<CacheItem>, size: int)
  {
    && multiset(tried) + multiset(kept) == multiset(contents)
    && NoNewer(tried, kept) && OldestFirst(tried)
    && NeverBelow(contents, target, fate, tried)
    && size == SizeAfter(contents, fate, tried, |tried|)
  }

  lemma PrunedStart(contents: seq<CacheItem>, target: real, fate: nat -> Fate, kept: seq<CacheItem>)
    requires multiset(kept) == multiset(contents)
    ensures Pruned(contents, target, fate, [], kept, Sizes(contents))
  {
    assert multiset([]) + multiset(kept) == multiset(kept);
    assert Sizes(DeletedOf([], fate)) == 0;
  }

  lemma OldestIsLast(kept: seq<CacheItem>, oldest: CacheItem)
    requires Descending(kept + [oldest])
    ensures Descending(kept) && NoNewer([oldest], kept)
  {
    var all := kept + [oldest];
    forall i, j | 0 <= i < j < |kept|
      ensures kept[i].time >= kept[j].time
    {
      assert all[i].time >= all[j].time;
    }
    forall k | k in kept
      ensures oldest.time <= k.time
    {
      var i :| 0 <= i < |kept| && kept[i] == k;
      assert all[i].time >= all[|kept|].time;
    }
  }

  lemma NeverBelowStep(contents: seq<CacheItem>, target: real, fate: nat -> Fate, tried: seq<CacheItem>, x: CacheItem)
    requires NeverBelow(contents, target, fate, tried)
    requires SizeAfter(contents, fate, tried, |tried|) as real >= target
    ensures NeverBelow(contents, target, fate, tried + [x])
  {
    hide Sizes, DeletedOf;
    var more := tried + [x];
    forall k | 0 <= k < |more|
      ensures SizeAfter(contents, fate, more, k) as real >= target
    {
      assert more[..k] == tried[..k];
      assert SizeAfter(contents, fate, tried, k) as real >= target;
    }
  }

  lemma SizeStep(contents: seq<CacheItem>, fate: nat -> Fate, tried: seq<CacheItem>, x: CacheItem)
    ensures SizeAfter(contents, fate, tried + [x], |tried| + 1)
         == SizeAfter(contents, fate, tried, |tried|) - if fate(|tried|) == Deleted then x.size else 0
  {
    var more, gone := tried + [x], DeletedOf(tried, fate);
    assert more[..|tried| + 1] == more && more[..|tried|] == tried && tried[..|tried|] == tried;
    assert (gone + [x])[..|gone|] == gone && gone + [] == gone;
  }

  lemma OrderStep(tried: seq<CacheItem>, kept: seq<CacheItem>, oldest: CacheItem)
    requires NoNewer(tried, kept + [oldest]) && OldestFirst(tried) && Descending(kept + [oldest])
    ensures NoNewer(tried + [oldest], kept) && OldestFirst(tried + [oldest])
  {
    OldestIsLast(kept, oldest);
    assert oldest in kept + [oldest];
    forall i | 0 <= i < |tried|
      ensures tried[i].time <= oldest.time
    {
      assert tried[i] in tried;
    }
  }

  lemma PrunedStep(contents: seq<CacheItem>, target: real, fate: nat -> Fate,
                   tried: seq<CacheItem>, kept: seq<CacheItem>, oldest: CacheItem, size: int)
    requires Pruned(contents, target, fate, tried, kept + [oldest], size)
    requires Descending(kept + [oldest])
    requires size as real >= target
    ensures Pruned(contents, target, fate, tried + [oldest], kept,
                   size - if fate(|tried|) == Deleted then oldest.size else 0)
  {
    hide NoNewer, OldestFirst, NeverBelow, SizeAfter, Descending;
    assert multiset(tried + [oldest]) == multiset(tried) + multiset{oldest};
    assert multiset(kept + [oldest]) == multiset(kept) + multiset{oldest};
    OrderStep(tried, kept, oldest);
    NeverBelowStep(contents, target, fate, tried, oldest);
    SizeStep(contents, fate, tried, oldest);
  }

  /** With nothing left and nothing failed, everything was deleted. */
  lemma AllDeleted(contents: seq<CacheItem>, target: real, fate: nat -> Fate, tried: seq<CacheItem>, size: int)
    requires Pruned(contents, target, fate, tried, [], size)
    requires forall k: nat :: k < |tried| ==> fate(k) == Deleted
    ensures size == 0
  {
    assert tried[..|tried|] == tried;
    DeletedWithoutFailure(tried, fate);
    SizesOfPermutation(tried, contents);
  }

  /**
    `fate` decides every file operation and may make any of them fail.  Below the quota nothing
    is tried; otherwise the result says whether the tracked size got below the target before the
    items ran out, and it does whenever no operation fails and the target is positive.
   */
  method PruneCache(listing: seq<Listed>, cacheSizeGb: int, cleanRatio: real, fate: nat -> Fate)
    returns (ok: bool, size: int, tried: seq<CacheItem>, kept: seq<CacheItem>)
    ensures Pruned(Items(listing), Target(cacheSizeGb, cleanRatio), fate, tried, kept, size)
    ensures Sizes(Items(listing)) < cacheSizeGb * GIGABYTES ==> ok && tried == []
    ensures Sizes(Items(listing)) >= cacheSizeGb * GIGABYTES ==> (ok <==> size as real < Target(cacheSizeGb, cleanRatio))
    ensures !ok ==> kept == []
    ensures Target(cacheSizeGb, cleanRatio) > 0.0 && (forall k: nat :: k < |tried| ==> fate(k) == Deleted) ==> ok
  {
    hide Pruned, Target, Descending, NewestFirst, Items, Sizes, DeletedOf;
    var total, contents := CollectCacheContents(listing);
    var quota := cacheSizeGb * GIGABYTES;
    var target := Target(cacheSizeGb, cleanRatio);
    tried, kept, size := [], contents, total;
    PrunedStart(contents, target, fate, contents);
    if total >= quota {
      kept := NewestFirst(contents);
      NewestFirstIsDescending(contents);
      PrunedStart(contents, target, fate, kept);
      while size as real >= target
        invariant Descending(kept) && Pruned(contents, target, fate, tried, kept, size)
        decreases |kept|
      {
        if kept == [] {
          if target > 0.0 && forall k: nat :: k < |tried| ==> fate(k) == Deleted {
            AllDeleted(contents, target, fate, tried, size);
          }
          return false, size, tried, kept;
        }
        var n := |tried|;
        var item := kept[|kept| - 1];
        assert kept == kept[..|kept| - 1] + [item];
        PrunedStep(contents, target, fate, tried, kept[..|kept| - 1], item, size);
        OldestIsLast(kept[..|kept| - 1], item);
        kept := kept[..|kept| - 1];
        tried := tried + [item];
        match fate(n)
        case RenameFails =>
        case RemoveFails =>
        case Deleted =>
          size := size - item.size;
      }
    }
    ok := true;
  }
}
