/** The terrain segment pool: a FIFO queue of free segment handles and a list
    of active ones. Handles are created lazily (at warm-up, or when a request
    finds the queue empty), are never destroyed, and move between the two
    collections on request and release. */
module Pooling {
  import opened Geometry
  import opened Segments

  // ---------------------------------------------------------------------
  // List<T>.Remove
  // ---------------------------------------------------------------------

  /** Index of the first occurrence of x in s. */
  function IndexOf<T(==)>(s: seq<T>, x: T): (i: nat)
    requires x in s
    ensures i < |s| && s[i] == x && x !in s[..i]
  {
    if s[0] == x then 0 else 1 + IndexOf(s[1..], x)
  }

  /** List<T>.Remove: drop the first occurrence of x, keeping the order of the
      remaining elements; a list without x is left as it is. */
  function RemoveFirst<T(==)>(s: seq<T>, x: T): (r: seq<T>)
    ensures x !in s ==> r == s
    ensures x in s ==> |r| == |s| - 1 && multiset(r) == multiset(s) - multiset{x}
  {
    if x in s then
      var i := IndexOf(s, x);
      assert s == s[..i] + [x] + s[i + 1..];
      s[..i] + s[i + 1..]
    else s
  }

  /** List<T>.Remove drops exactly the first occurrence of x: the result is
      the list cut around the leftmost index that holds x. */
  lemma RemoveFirstSplit<T>(s: seq<T>, x: T)
    requires x in s
    ensures exists i :: 0 <= i < |s| && s[i] == x && x !in s[..i] && RemoveFirst(s, x) == s[..i] + s[i + 1..]
  {
    var i := IndexOf(s, x);
    assert RemoveFirst(s, x) == s[..i] + s[i + 1..];
  }

  /** Removing an element that occurs once leaves exactly the other elements. */
  lemma RemoveOnly<T>(s: seq<T>, x: T)
    requires x in s && multiset(s)[x] <= 1
    ensures forall y :: y in RemoveFirst(s, x) <==> y in s && y != x
  {
    var r := RemoveFirst(s, x);
    forall y
      ensures y in r <==> y in s && y != x
    {
      assert multiset(r)[y] == multiset(s)[y] - multiset{x}[y];
    }
  }

  /** Removing the front element of a list is dropping its head. */
  lemma RemoveFront<T>(s: seq<T>)
    requires |s| > 0
    ensures RemoveFirst(s, s[0]) == s[1..]
  {
    assert IndexOf(s, s[0]) == 0;
  }

  /** No element occurs twice. */
  predicate Distinct<T(==)>(s: seq<T>)
  {
    forall i, j :: 0 <= i < j < |s| ==> s[i] != s[j]
  }

  /** A sequence in which no element has multiplicity above one repeats nothing. */
  lemma DistinctFromMultiset<T>(s: seq<T>)
    requires forall x :: multiset(s)[x] <= 1
    ensures Distinct(s)
  {
    forall i, j | 0 <= i < j < |s|
      ensures s[i] != s[j]
    {
      if s[i] == s[j] {
        RepeatCounted(s, i, j);
      }
    }
  }

  /** After i handles of `queue` have been taken and appended to `base`,
      taking the head of what remains appends the i-th handle. */
  lemma TakeNext<T>(base: seq<T>, queue: seq<T>, i: nat)
    ensures i < |queue| ==>
      queue[i..] != [] && queue[i..][0] == queue[i] && queue[i..][1..] == queue[i + 1..] &&
      base + queue[..i] + [queue[i]] == base + queue[..i + 1]
  {
  }

  /** Cutting a queue after its first k elements and joining the halves
      gives it back. */
  lemma SplitAt<T>(queue: seq<T>, k: nat)
    ensures k <= |queue| ==> queue[..k] + queue[k..] == queue
  {
  }

  /** An element found at two positions has multiplicity at least two. */
  lemma RepeatCounted<T>(s: seq<T>, i: nat, j: nat)
    requires i < j < |s| && s[i] == s[j]
    ensures multiset(s)[s[i]] >= 2
  {
    var x := s[i];
    assert s == s[..j] + [s[j]] + s[j + 1..];
    assert s[..j][i] == x;
    assert multiset(s[..j])[x] >= 1;
    assert multiset(s) == multiset(s[..j]) + multiset{x} + multiset(s[j + 1..]);
  }

  // ---------------------------------------------------------------------
  // The pool
  // ---------------------------------------------------------------------

  class TerrainPool {
    const prefabAssigned: bool     // terrainSegmentPrefab != null
    const initialPoolSize: int
    const maxPoolSize: int

    var enabled: bool
    var free: seq<TerrainSegment>      // the queue `pool`; front at index 0
    var active: seq<TerrainSegment>    // activeSegments
    ghost var All: set<TerrainSegment> // every handle this pool has created

    /** Every handle ever created is in exactly one of the two collections, and
        neither collection repeats a handle; a handle's game object is active
        exactly when the handle is in the active list; every handle in the queue
        is in the cleared state. A disabled pool has created nothing. */
    ghost predicate Valid()
      reads this, All
    {
      multiset(free) + multiset(active) == multiset(All) &&
      (forall s :: s in All ==> (s.active <==> s in active) && (s in free ==> s.Cleared())) &&
      (!enabled ==> All == {})
    }

    /** The invariant, spelled out: the queue and the active list are disjoint,
        each is duplicate-free, and together they hold exactly the handles
        ever created, so their lengths add up to the number of handles. */
    lemma Partition()
      requires Valid()
      ensures forall s :: s in All <==> s in free || s in active
      ensures forall s :: s in free ==> s !in active
      ensures Distinct(free) && Distinct(active)
      ensures forall s :: multiset(active)[s] <= 1
      ensures |free| + |active| == |All|
    {
      forall x: TerrainSegment
        ensures multiset(free)[x] <= 1 && multiset(active)[x] <= 1
        ensures x in All <==> x in free || x in active
        ensures x in free ==> x !in active
      {
        assert multiset(free)[x] + multiset(active)[x] == multiset(All)[x];
        assert multiset(All)[x] == if x in All then 1 else 0;
      }
      DistinctFromMultiset(free);
      DistinctFromMultiset(active);
      assert |multiset(free) + multiset(active)| == |multiset(All)|;
    }

    /** The membership half of Partition: every handle ever created is in
        exactly one of the two collections. It repeats two of Partition's
        conclusions so that callers that need only these do not carry the
        others into their proofs. */
    lemma Membership()
      requires Valid()
      ensures forall s :: s in All <==> s in free || s in active
      ensures forall s :: s in free ==> s !in active
    {
      Partition();
    }

    /** The front of the active list occurs nowhere else in it. */
    lemma FrontUnique()
      requires Valid() && active != []
      ensures active[0] !in active[1..]
    {
      Partition();
      assert forall j :: 1 <= j < |active| ==> active[j] != active[0];
    }

    /** Awake: with no prefab the pool disables itself and creates neither
        collections nor handles; otherwise it starts with two empty collections
        and warms up. */
    constructor Awake(prefabAssigned: bool, initialPoolSize: int, maxPoolSize: int)
      ensures this.prefabAssigned == prefabAssigned
      ensures this.initialPoolSize == initialPoolSize && this.maxPoolSize == maxPoolSize
      ensures Valid() && enabled == prefabAssigned && active == [] && fresh(All)
      ensures !prefabAssigned ==> free == [] && All == {}
      ensures prefabAssigned ==> |free| == Clamp(initialPoolSize, maxPoolSize)
    {
      this.prefabAssigned := prefabAssigned;
      this.initialPoolSize := initialPoolSize;
      this.maxPoolSize := maxPoolSize;
      enabled := prefabAssigned;
      free, active := [], [];
      All := {};
      new;
      if prefabAssigned {
        InitializePool();
      }
    }

    /** The warm-up size: initialPoolSize, capped by maxPoolSize, never negative. */
    static function Clamp(initialPoolSize: int, maxPoolSize: int): (k: nat)
      ensures k <= initialPoolSize || initialPoolSize <= 0
      ensures k <= maxPoolSize || maxPoolSize <= 0
      ensures k == 0 || k == initialPoolSize || k == maxPoolSize
      ensures initialPoolSize <= 0 || maxPoolSize <= 0 ==> k == 0
      ensures initialPoolSize > 0 && maxPoolSize > 0 ==> k > 0
    {
      if initialPoolSize <= 0 || maxPoolSize <= 0 then 0
      else if initialPoolSize < maxPoolSize then initialPoolSize
      else maxPoolSize
    }

    /** Warm-up: attempt initialPoolSize creations; each stops adding once the
        queue holds maxPoolSize handles. */
    method InitializePool()
      requires Valid() && enabled
      modifies this
      ensures Valid() && enabled && active == old(active)
      ensures |old(free)| >= maxPoolSize ==> free == old(free) && All == old(All)
      ensures |old(free)| < maxPoolSize ==>
        |free| == |old(free)| + Clamp(initialPoolSize, maxPoolSize - |old(free)|)
      ensures free[..|old(free)|] == old(free) && fresh(All - old(All))
    {
      var i := 0;
      while i < initialPoolSize
        invariant Valid() && enabled && active == old(active)
        invariant 0 <= i && (i <= initialPoolSize || initialPoolSize <= 0)
        invariant initialPoolSize <= 0 ==> i == 0
        invariant |old(free)| >= maxPoolSize ==> free == old(free) && All == old(All)
        invariant |old(free)| < maxPoolSize ==>
          |free| == |old(free)| + Clamp(i, maxPoolSize - |old(free)|)
        invariant |free| >= |old(free)| && free[..|old(free)|] == old(free)
        invariant fresh(All - old(All))
      {
        CreateNewSegment();
        i := i + 1;
      }
    }

    /** Add one fresh, inactive handle at the back of the queue, unless the
        queue already holds maxPoolSize handles. */
    method CreateNewSegment()
      requires Valid() && enabled
      modifies this
      ensures Valid() && enabled && active == old(active)
      ensures |old(free)| >= maxPoolSize ==> free == old(free) && All == old(All)
      ensures |old(free)| < maxPoolSize ==>
        |free| == |old(free)| + 1 && free[..|old(free)|] == old(free) &&
        fresh(free[|old(free)|]) && All == old(All) + {free[|old(free)|]}
    {
      if |free| >= maxPoolSize {
        return;
      }
      var segment := new TerrainSegment();
      segment.active := false;
      assert segment !in All;
      assert multiset(All + {segment}) == multiset(All) + multiset{segment};
      free := free + [segment];
      All := All + {segment};
    }

    /** Take the front of the queue (creating a handle first if the queue is
        empty and maxPoolSize > 0), activate it and append it to the active
        list. Returns null, changing nothing, only when the queue is empty and
        maxPoolSize <= 0. */
    method GetSegment() returns (segment: TerrainSegment?)
      requires Valid() && enabled
      modifies this, All`active
      ensures Valid() && enabled
      ensures old(free) != [] ==>
        segment == old(free[0]) && free == old(free[1..]) && All == old(All)
      ensures old(free) == [] && maxPoolSize > 0 ==>
        segment != null && fresh(segment) && free == [] && All == old(All) + {segment}
      ensures old(free) == [] && maxPoolSize <= 0 ==>
        segment == null && free == old(free) && active == old(active) && All == old(All)
      ensures segment != null ==>
        active == old(active) + [segment] && segment !in old(active) &&
        segment.active && segment.Cleared()
    {
      if |free| == 0 {
        if |free| < maxPoolSize {
          CreateNewSegment();
        } else {
          return null;
        }
      }
      segment := free[0];
      assert segment in All && segment !in active by {
        assert multiset(free)[segment] >= 1;
        assert multiset(All)[segment] <= 1;
      }
      assert free == [segment] + free[1..];
      free := free[1..];
      segment.active := true;
      active := active + [segment];
    }

    /** Release a handle: null and handles not in the active list are ignored;
        an active handle is removed from the active list, reset, deactivated
        and enqueued at the back of the queue. */
    method ReturnSegment(segment: TerrainSegment?)
      requires Valid()
      requires segment != null ==> enabled
      modifies this, segment
      ensures Valid() && enabled == old(enabled) && All == old(All)
      ensures if segment != null && segment in old(active) then
          active == RemoveFirst(old(active), segment) && free == old(free) + [segment] &&
          segment.Cleared() && !segment.active &&
          segment.width == old(segment.width) && segment.height == old(segment.height) &&
          segment.colliderPoints == old(segment.colliderPoints)
        else
          free == old(free) && active == old(active) && (segment != null ==> unchanged(segment))
    {
      if segment == null {
        return;
      }
      if segment in active {
        Release(segment);
      }
    }

    /** The body of a release that passed the guard: remove from the active
        list, reset, deactivate, enqueue. */
    method Release(segment: TerrainSegment)
      requires Valid() && segment in active
      modifies this`active, this`free
      modifies segment`position, segment`vertices, segment`triangles, segment`uvs, segment`points, segment`active
      ensures Valid() && enabled == old(enabled) && All == old(All)
      ensures active == RemoveFirst(old(active), segment) && free == old(free) + [segment]
      ensures segment.Cleared() && !segment.active
      ensures segment.width == old(segment.width) && segment.height == old(segment.height)
      ensures segment.colliderPoints == old(segment.colliderPoints)
    {
      MoveToQueue(segment);
      segment.Reset();
      segment.active := false;
      forall s | s in All
        ensures (s.active <==> s in active) && (s in free ==> s.Cleared())
      {
        if s != segment {
          assert s in free ==> s in old(free);
        }
      }
    }

    /** The list half of a release: the handle leaves the active list and
        joins the back of the queue. */
    method MoveToQueue(segment: TerrainSegment)
      requires Valid() && segment in active
      modifies this`active, this`free
      ensures active == RemoveFirst(old(active), segment) && free == old(free) + [segment]
      ensures multiset(free) + multiset(active) == multiset(All)
      ensures forall s :: s in active <==> s in old(active) && s != segment
    {
      assert multiset(active)[segment] <= 1 by {
        assert multiset(All)[segment] == 1;
      }
      RemoveOnly(active, segment);
      active := RemoveFirst(active, segment);
      free := free + [segment];
      assert multiset(free) == multiset(old(free)) + multiset{segment};
    }

    /** Release every active handle, iterating over a snapshot of the active
        list, so the queue receives them in active-list order. */
    method ReturnAllSegments()
      requires Valid() && enabled
      modifies this, active
      ensures Valid() && enabled && All == old(All)
      ensures active == [] && free == old(free) + old(active)
    {
      var snapshot := active;
      var i := 0;
      while i < |snapshot|
        invariant 0 <= i <= |snapshot|
        invariant Valid() && enabled && All == old(All)
        invariant active == snapshot[i..] && free == old(free) + snapshot[..i]
      {
        assert snapshot[i..][1..] == snapshot[i + 1..];
        assert old(free) + snapshot[..i + 1] == free + [snapshot[i]] by {
          assert snapshot[..i + 1] == snapshot[..i] + [snapshot[i]];
        }
        RemoveFront(active);
        ReturnSegment(snapshot[i]);
        i := i + 1;
      }
    }
  }
}
