// The buffer pool of crates/storage/src/buffer_pool.rs and its LRU replacer,
// crates/storage/src/replacer.rs, over a disk whose I/O succeeds.
module BufferPool {

  type PageId = nat
  type FrameId = nat

  datatype Option<+T> = None | Some(value: T)
  datatype Error = BufferFull | PageNotFound(page: PageId) | PageNotPinned(page: PageId) | CannotDeletePinned(page: PageId)
  datatype Result<+T> = Ok(value: T) | Err(error: Error)

  // ---- Replacer ----

  class Replacer {
    var evictable: set<FrameId>
    var accessOrder: map<nat, FrameId>
    var lastAccess: map<FrameId, nat>
    var clock: nat

    // The two maps are inverse to each other, and no access is in the future.
    ghost predicate Valid()
      reads this
    {
      && (forall t | t in accessOrder :: t <= clock && accessOrder[t] in lastAccess && lastAccess[accessOrder[t]] == t)
      && (forall f | f in lastAccess :: lastAccess[f] in accessOrder && accessOrder[lastAccess[f]] == f)
    }

    constructor ()
      ensures Valid() && evictable == {} && lastAccess == map[] && clock == 0
    {
      evictable, accessOrder, lastAccess, clock := {}, map[], map[], 0;
    }

    // `f` becomes the most recently accessed frame.
    method RecordAccess(f: FrameId)
      requires Valid()
      modifies this
      ensures Valid() && evictable == old(evictable)
      ensures lastAccess == old(lastAccess)[f := clock] && clock == old(clock) + 1
      ensures forall g | g in lastAccess && g != f :: lastAccess[g] < lastAccess[f]
    {
      if f in lastAccess {
        accessOrder := accessOrder - {lastAccess[f]};
      }
      clock := clock + 1;
      accessOrder := accessOrder[clock := f];
      lastAccess := lastAccess[f := clock];
    }

    method SetEvictable(f: FrameId, may: bool)
      requires Valid()
      modifies this`evictable
      ensures Valid() && evictable == if may then old(evictable) + {f} else old(evictable) - {f}
    {
      evictable := if may then evictable + {f} else evictable - {f};
    }

    // The tracked evictable frame accessed longest ago, if there is one.
    method Evict() returns (victim: Option<FrameId>)
      requires Valid()
      modifies this
      ensures Valid() && clock == old(clock)
      ensures victim.None? <==> old(evictable) !! old(lastAccess).Keys
      ensures victim.None? ==> evictable == old(evictable) && lastAccess == old(lastAccess)
      ensures victim.Some? ==>
        var f := victim.value;
        && f in old(evictable) && f in old(lastAccess)
        && (forall g | g in old(evictable) && g in old(lastAccess) :: old(lastAccess)[f] <= old(lastAccess)[g])
        && evictable == old(evictable) - {f} && lastAccess == old(lastAccess) - {f}
    {
      // Ascending timestamps, as the ordered map iterates.
      for t := 0 to clock + 1
        invariant Valid() && evictable == old(evictable) && lastAccess == old(lastAccess) && clock == old(clock)
        invariant forall g | g in evictable && g in lastAccess :: lastAccess[g] >= t
      {
        if t in accessOrder && accessOrder[t] in evictable {
          var f := accessOrder[t];
          accessOrder := accessOrder - {t};
          lastAccess := lastAccess - {f};
          evictable := evictable - {f};
          return Some(f);
        }
      }
      victim := None;
    }

    method Remove(f: FrameId)
      requires Valid()
      modifies this
      ensures Valid() && evictable == old(evictable) - {f} && lastAccess == old(lastAccess) - {f} && clock == old(clock)
    {
      if f in lastAccess {
        accessOrder := accessOrder - {lastAccess[f]};
      }
      lastAccess := lastAccess - {f};
      evictable := evictable - {f};
    }
  }

  // ---- Pool ----

  datatype Frame<Data> = Frame(page: Data, pageId: Option<PageId>, pins: nat, dirty: bool)

  // The pool's fields, with the replacer's sets; `store` is the last logical
  // contents of every live page, `touched` the frames changed through
  // `PageMut` since they were last clean or marked dirty.
  datatype State<Data> = State(
    frames: seq<Frame<Data>>,
    table: map<PageId, FrameId>,
    free: seq<FrameId>,
    evictable: set<FrameId>,
    tracked: set<FrameId>,
    disk: map<PageId, Data>,
    nextPage: nat,
    store: map<PageId, Data>,
    touched: set<FrameId>)

  // A frame is free, or holds a live page with its current contents, evictable
  // exactly when unpinned. `limbo` is a frame taken but not filled yet.
  ghost predicate FrameOk<Data>(s: State<Data>, limbo: Option<FrameId>, f: FrameId) {
    f < |s.frames| ==>
      var x := s.frames[f];
      match x.pageId
      case None =>
        (f in s.free <==> limbo != Some(f)) && f !in s.evictable && f !in s.tracked && f !in s.touched && x.pins == 0 && !x.dirty
      case Some(p) =>
        && f !in s.free && limbo != Some(f) && f in s.tracked && (f in s.evictable <==> x.pins == 0)
        && p in s.table && s.table[p] == f
        && p in s.store && x.page == s.store[p]
        && (f in s.touched ==> x.pins > 0)
        && (!x.dirty && f !in s.touched ==> p in s.disk && s.disk[p] == x.page)
  }

  ghost predicate PageOk<Data>(s: State<Data>, p: PageId) {
    && (p in s.table ==> s.table[p] < |s.frames| && s.frames[s.table[p]].pageId == Some(p))
    && (p in s.store ==> p in s.disk)
    && (p in s.store && p !in s.table ==> s.disk[p] == s.store[p])
    && (p in s.disk ==> p < s.nextPage)
  }

  ghost predicate Inv<Data>(s: State<Data>, limbo: Option<FrameId>) {
    && (forall f :: FrameOk(s, limbo, f))
    && (forall p :: PageOk(s, p))
    && (forall i | 0 <= i < |s.free| :: s.free[i] < |s.frames|)
    && (forall i, j | 0 <= i < j < |s.free| :: s.free[i] != s.free[j])
    && (forall f | f in s.evictable || f in s.tracked || f in s.touched :: f < |s.frames|)
    && (limbo.Some? ==> limbo.value < |s.frames| && s.frames[limbo.value].pageId == None)
  }

  // No frame is free and none may be evicted exactly when all are pinned.
  lemma FullIffAllPinned<Data>(s: State<Data>)
    requires Inv(s, None)
    ensures s.free == [] && s.evictable !! s.tracked <==> forall f | 0 <= f < |s.frames| :: s.frames[f].pins > 0
  {
    if s.free == [] && s.evictable !! s.tracked {
      forall f | 0 <= f < |s.frames| ensures s.frames[f].pins > 0 {
        assert FrameOk(s, None, f);
      }
    }
    if s.free != [] {
      assert FrameOk(s, None, s.free[0]);
      assert s.frames[s.free[0]].pins == 0;
    }
    if f :| f in s.evictable && f in s.tracked {
      assert FrameOk(s, None, f);
      assert s.frames[f].pins == 0;
    }
  }

  // Frame `f`, unpinned before, has been made available; all else is as it was.
  ghost predicate Freed<Data>(s: State<Data>, s': State<Data>, f: FrameId) {
    && Inv(s', Some(f)) && |s'.frames| == |s.frames| && f < |s.frames| && s.frames[f].pins == 0
    && s'.store == s.store && s'.touched == s.touched && s'.nextPage == s.nextPage
    && (forall g | 0 <= g < |s.frames| && g != f :: s'.frames[g] == s.frames[g])
    && s'.table.Keys <= s.table.Keys && s'.disk.Keys == s.disk.Keys
  }

  // ---- Recency: `fetches` lists the pages fetched, in order ----

  // Page `p` was last fetched at time `t`.
  ghost predicate LastAt(fetches: seq<PageId>, p: PageId, t: nat) {
    1 <= t <= |fetches| && fetches[t - 1] == p && forall i | t <= i < |fetches| :: fetches[i] != p
  }

  ghost predicate LastOk(fetches: seq<PageId>, table: map<PageId, FrameId>, last: map<FrameId, nat>, p: PageId) {
    p in table ==> table[p] in last && LastAt(fetches, p, last[table[p]])
  }

  // The replacer's timestamps are the times of the last fetches.
  ghost predicate RecencyOk(fetches: seq<PageId>, clock: nat, table: map<PageId, FrameId>, last: map<FrameId, nat>) {
    |fetches| == clock && forall p :: LastOk(fetches, table, last, p)
  }

  // Page `p` was last fetched no later than `q`.
  ghost predicate NoLater(fetches: seq<PageId>, p: PageId, q: PageId) {
    exists t, u :: LastAt(fetches, p, t) && LastAt(fetches, q, u) && t <= u
  }

  // The page in frame `f` is, of the pages in unpinned frames, the one fetched longest ago.
  ghost predicate Oldest<Data>(fetches: seq<PageId>, frames: seq<Frame<Data>>, f: FrameId) {
    && f < |frames| && frames[f].pins == 0 && frames[f].pageId.Some?
    && forall g | 0 <= g < |frames| && frames[g].pins == 0 ::
         frames[g].pageId.Some? && NoLater(fetches, frames[f].pageId.value, frames[g].pageId.value)
  }

  // A fetch of page `p` into frame `f`, where no other page is.
  lemma FetchedOk(fetches: seq<PageId>, clock: nat, table: map<PageId, FrameId>, last: map<FrameId, nat>,
                  p: PageId, f: FrameId)
    requires RecencyOk(fetches, clock, table, last) && forall q | q in table && q != p :: table[q] != f
    ensures RecencyOk(fetches + [p], clock + 1, table[p := f], last[f := clock + 1])
  {
    var fetches', table', last' := fetches + [p], table[p := f], last[f := clock + 1];
    forall q ensures LastOk(fetches', table', last', q) {
      assert LastOk(fetches, table, last, q);
    }
  }

  // The same for a page that is in its frame already.
  lemma RefetchedOk<Data>(s: State<Data>, fetches: seq<PageId>, clock: nat, last: map<FrameId, nat>, p: PageId, f: FrameId)
    requires Inv(s, None) && RecencyOk(fetches, clock, s.table, last) && p in s.table && s.table[p] == f
    ensures RecencyOk(fetches + [p], clock + 1, s.table, last[f := clock + 1])
  {
    assert PageOk(s, p);
    OnlyPage(s, None, p, f);
    FetchedOk(fetches, clock, s.table, last, p, f);
    assert s.table[p := f] == s.table;
  }

  // No page is in a frame without one, and only its own page is in a frame.
  lemma OnlyPage<Data>(s: State<Data>, limbo: Option<FrameId>, p: PageId, f: FrameId)
    requires Inv(s, limbo) && f < |s.frames| && (s.frames[f].pageId == None || s.frames[f].pageId == Some(p))
    ensures forall q | q in s.table && q != p :: s.table[q] != f
  {
    forall q | q in s.table && q != p ensures s.table[q] != f {
      assert PageOk(s, q);
    }
  }

  // Taking page `p` out of its frame `f`.
  lemma StillRecent<Data>(s: State<Data>, fetches: seq<PageId>, clock: nat, last: map<FrameId, nat>, p: PageId, f: FrameId)
    requires Inv(s, None) && RecencyOk(fetches, clock, s.table, last) && p in s.table && s.table[p] == f
    ensures RecencyOk(fetches, clock, s.table - {p}, last - {f})
  {
    assert PageOk(s, p);
    OnlyPage(s, None, p, f);
    var table, last' := s.table - {p}, last - {f};
    forall q ensures LastOk(fetches, table, last', q) {
      assert LastOk(fetches, s.table, last, q);
    }
  }

  lemma OldestBy<Data>(s: State<Data>, fetches: seq<PageId>, clock: nat, last: map<FrameId, nat>, f: FrameId)
    requires Inv(s, None) && RecencyOk(fetches, clock, s.table, last) && last.Keys == s.tracked && s.free == []
    requires f in s.evictable && f in last && forall g | g in s.evictable && g in last :: last[f] <= last[g]
    ensures Oldest(fetches, s.frames, f)
  {
    assert FrameOk(s, None, f);
    var p := s.frames[f].pageId.value;
    assert LastOk(fetches, s.table, last, p);
    forall g | 0 <= g < |s.frames| && s.frames[g].pins == 0
      ensures s.frames[g].pageId.Some? && NoLater(fetches, p, s.frames[g].pageId.value)
    {
      assert FrameOk(s, None, g);
      assert LastOk(fetches, s.table, last, s.frames[g].pageId.value);
    }
  }

  class Pool<Data(==)> {
    const replacer: Replacer
    const blank: PageId -> Data
    var frames: seq<Frame<Data>>
    var table: map<PageId, FrameId>
    var free: seq<FrameId>
    var disk: map<PageId, Data>
    var nextPage: nat
    ghost var store: map<PageId, Data>
    ghost var touched: set<FrameId>
    ghost var fetches: seq<PageId>

    ghost function View(): State<Data>
      reads this, replacer
    {
      State(frames, table, free, replacer.evictable, replacer.lastAccess.Keys, disk, nextPage, store, touched)
    }

    ghost predicate Valid()
      reads this, replacer
    {
      replacer.Valid() && Inv(View(), None) && Recency()
    }

    ghost predicate Recency()
      reads this, replacer
    {
      RecencyOk(fetches, replacer.clock, table, replacer.lastAccess)
    }

    ghost predicate AllPinned()
      reads this
    {
      forall f | 0 <= f < |frames| :: frames[f].pins > 0
    }

    constructor (size: nat, blank: PageId -> Data, disk: map<PageId, Data>, nextPage: nat)
      requires forall p | p in disk :: p < nextPage
      ensures Valid() && fresh(replacer) && store == disk && |frames| == size && this.blank == blank && fetches == []
    {
      replacer := new Replacer();
      this.blank, this.disk, this.nextPage := blank, disk, nextPage;
      frames := seq(size, i requires 0 <= i => Frame(blank(i), None, 0, false));
      free := seq(size, i requires 0 <= i => i);
      table, store, touched, fetches := map[], disk, {}, [];
      new;
      forall f: nat ensures FrameOk(View(), None, f) {
        assert f < size ==> free[f] == f;
      }
      forall p ensures PageOk(View(), p) {
      }
    }

    // A frame to fill: from the free list, else the least recently accessed
    // unpinned one, written back first if dirty. Fails exactly when all are pinned.
    method FindFreeFrame() returns (r: Result<FrameId>)
      requires Valid()
      modifies this, replacer
      ensures replacer.Valid() && Recency() && fetches == old(fetches)
      ensures r.Err? <==> old(AllPinned())
      ensures r.Err? ==> r.error == BufferFull && Valid() && View() == old(View())
      ensures r.Ok? ==> Freed(old(View()), View(), r.value)
      ensures r.Ok? && old(free) == [] ==> Oldest(fetches, old(frames), r.value)
    {
      ghost var s := View();
      FullIffAllPinned(s);
      if |free| > 0 {
        var f := free[0];
        assert FrameOk(s, None, f);
        free := free[1..];
        Taken(s, View(), f);
        return Ok(f);
      }
      var victim := replacer.Evict();
      if victim.None? {
        return Err(BufferFull);
      }
      var f := victim.value;
      assert FrameOk(s, None, f);
      var x := frames[f];
      var p := x.pageId.value;
      assert PageOk(s, p);
      if x.dirty {
        disk := disk[p := x.page];
      }
      table := table - {p};
      frames := frames[f := x.(pageId := None, dirty := false)];
      Evicted(s, View(), f);
      OldestBy(s, fetches, old(replacer.clock), old(replacer.lastAccess), f);
      StillRecent(s, fetches, old(replacer.clock), old(replacer.lastAccess), p, f);
      r := Ok(f);
    }

    // Put page `p` into frame `f`, pinned and just accessed.
    method Install(f: FrameId, p: PageId, x: Frame<Data>)
      requires replacer.Valid() && f < |frames|
      modifies this`frames, this`table, this`fetches, replacer
      ensures replacer.Valid() && frames == old(frames)[f := x] && table == old(table)[p := f]
      ensures fetches == old(fetches) + [p] && replacer.clock == old(replacer.clock) + 1
      ensures replacer.evictable == old(replacer.evictable) - {f}
      ensures replacer.lastAccess == old(replacer.lastAccess)[f := replacer.clock]
    {
      frames := frames[f := x];
      table := table[p := f];
      fetches := fetches + [p];
      replacer.RecordAccess(f);
      replacer.SetEvictable(f, false);
    }

    // Fetch and pin. The frame shows the page's last logical contents; failure
    // is exactly a miss with all frames pinned. Pinned frames stay as they are.
    method FetchPage(p: PageId) returns (r: Result<FrameId>)
      requires Valid() && p in store
      modifies this, replacer
      ensures Valid() && store == old(store) && touched == old(touched)
      ensures r.Err? <==> p !in old(table) && old(AllPinned())
      ensures r.Err? ==> r.error == BufferFull && View() == old(View())
      ensures fetches == if r.Ok? then old(fetches) + [p] else old(fetches)
      ensures r.Ok? && p !in old(table) && old(free) == [] ==> Oldest(old(fetches), old(frames), r.value)
      ensures r.Ok? ==>
        && r.value < |frames| == |old(frames)| && frames[r.value].pageId == Some(p)
        && frames[r.value].page == store[p] && frames[r.value].pins > 0
        && (p in old(table) ==> frames[r.value] == old(frames)[r.value].(pins := old(frames)[r.value].pins + 1))
        && (p !in old(table) ==> old(frames)[r.value].pins == 0 && frames[r.value] == Frame(store[p], Some(p), 1, false))
        && (forall g | 0 <= g < |frames| && g != r.value :: frames[g] == old(frames)[g])
    {
      if p in table {
        var f := Repin(p);
        return Ok(f);
      }
      var got := FindFreeFrame();
      if got.Err? {
        return got;
      }
      var f := got.value;
      ghost var s1 := View();
      assert PageOk(s1, p);
      OnlyPage(s1, Some(f), p, f);
      FetchedOk(fetches, replacer.clock, table, replacer.lastAccess, p, f);
      Install(f, p, Frame(disk[p], Some(p), 1, false));
      Filled(s1, View(), f, p);
      r := Ok(f);
    }

    // A page that is in a frame already.
    method Repin(p: PageId) returns (f: FrameId)
      requires Valid() && p in store && p in table
      modifies this, replacer
      ensures Valid() && store == old(store) && touched == old(touched)
      ensures f < |frames| == |old(frames)| && frames[f].pageId == Some(p) && frames[f].page == store[p]
      ensures frames == old(frames)[f := old(frames)[f].(pins := old(frames)[f].pins + 1)]
      ensures fetches == old(fetches) + [p]
    {
      ghost var s := View();
      assert PageOk(s, p);
      f := table[p];
      assert FrameOk(s, None, f);
      RefetchedOk(s, fetches, replacer.clock, replacer.lastAccess, p, f);
      fetches := fetches + [p];
      frames := frames[f := frames[f].(pins := frames[f].pins + 1)];
      replacer.SetEvictable(f, false);
      replacer.RecordAccess(f);
      Repinned(s, View(), f);
    }

    // Allocate a page on disk and load it, pinned.
    method NewPage(zero: Data) returns (r: Result<(PageId, FrameId)>)
      requires Valid()
      modifies this, replacer
      ensures Valid() && touched == old(touched)
      ensures r.Err? <==> old(AllPinned())
      ensures r.Err? ==> r.error == BufferFull && View() == old(View())
      ensures fetches == if r.Ok? then old(fetches) + [r.value.0] else old(fetches)
      ensures r.Ok? && old(free) == [] ==> Oldest(old(fetches), old(frames), r.value.1)
      ensures r.Ok? ==>
        var (p, f) := r.value;
        && p !in old(store) && store == old(store)[p := blank(p)]
        && f < |frames| == |old(frames)| && frames[f] == Frame(blank(p), Some(p), 1, true) && old(frames)[f].pins == 0
        && (forall g | 0 <= g < |frames| && g != f :: frames[g] == old(frames)[g])
    {
      var got := FindFreeFrame();
      if got.Err? {
        return Err(got.error);
      }
      var f := got.value;
      var p := Allocate(f, zero);
      r := Ok((p, f));
    }

    // A new page in frame `f`, which holds none.
    method Allocate(f: FrameId, zero: Data) returns (p: PageId)
      requires replacer.Valid() && Inv(View(), Some(f)) && f < |frames| && Recency()
      modifies this, replacer
      ensures Valid() && touched == old(touched) && fetches == old(fetches) + [p]
      ensures p !in old(store) && store == old(store)[p := blank(p)]
      ensures frames == old(frames)[f := Frame(blank(p), Some(p), 1, true)]
    {
      ghost var s1 := View();
      p := nextPage;
      nextPage := nextPage + 1;
      disk := disk[p := zero];
      store := store[p := blank(p)];
      var x := Frame(blank(p), Some(p), 1, true);
      OnlyPage(s1, Some(f), p, f);
      FetchedOk(fetches, replacer.clock, table, replacer.lastAccess, p, f);
      Install(f, p, x);
      Allocated(s1, View(), f, p, zero, x);
    }

    // Reading and changing the page in a pinned frame.
    method ReadPage(f: FrameId) returns (page: Data)
      requires Valid() && f < |frames| && frames[f].pins > 0
      ensures frames[f].pageId.Some? && frames[f].pageId.value in store && page == store[frames[f].pageId.value]
    {
      assert FrameOk(View(), None, f);
      page := frames[f].page;
    }

    method PageMut(f: FrameId, page: Data)
      requires Valid() && f < |frames| && frames[f].pins > 0
      modifies this
      ensures Valid() && frames == old(frames)[f := old(frames)[f].(page := page)]
      ensures frames[f].pageId.Some? && store == old(store)[frames[f].pageId.value := page]
      ensures touched == old(touched) + {f} && table == old(table) && disk == old(disk) && fetches == old(fetches)
    {
      ghost var s := View();
      assert FrameOk(s, None, f);
      frames := frames[f := frames[f].(page := page)];
      store := store[frames[f].pageId.value := page];
      touched := touched + {f};
      Changed(s, View(), f, page);
    }

    // The last unpin of a changed page has to say so, unless it is dirty already.
    method UnpinPage(p: PageId, dirty: bool) returns (r: Result<()>)
      requires Valid()
      requires p in table && table[p] < |frames| && table[p] in touched && frames[table[p]].pins == 1 ==>
        dirty || frames[table[p]].dirty
      modifies this, replacer
      ensures Valid() && store == old(store) && disk == old(disk) && table == old(table) && fetches == old(fetches)
      ensures p !in table ==> r == Err(PageNotFound(p)) && frames == old(frames)
      ensures p in table ==>
        && table[p] < |frames| == |old(frames)|
        && var x := old(frames)[table[p]];
           if x.pins == 0 then r == Err(PageNotPinned(p)) && frames == old(frames)
           else r == Ok(()) && frames == old(frames)[table[p] := x.(pins := x.pins - 1, dirty := x.dirty || dirty)]
    {
      ghost var s := View();
      assert PageOk(s, p);
      if p !in table {
        return Err(PageNotFound(p));
      }
      var f := table[p];
      var x := frames[f];
      assert FrameOk(s, None, f);
      if x.pins == 0 {
        return Err(PageNotPinned(p));
      }
      var y := x.(pins := x.pins - 1, dirty := x.dirty || dirty);
      frames := frames[f := y];
      if y.pins == 0 {
        replacer.SetEvictable(f, true);
      }
      if y.dirty {
        touched := touched - {f};
      }
      Unpinned(s, View(), f, y);
      r := Ok(());
    }

    method FlushPage(p: PageId) returns (r: Result<()>)
      requires Valid()
      modifies this
      ensures Valid() && store == old(store) && table == old(table) && free == old(free) && fetches == old(fetches)
      ensures r == if p in table then Ok(()) else Err(PageNotFound(p))
      ensures |frames| == |old(frames)| && forall g | 0 <= g < |frames| ::
        frames[g] == old(frames)[g].(dirty := old(frames)[g].dirty && !(p in table && table[p] == g))
      ensures p in table ==> table[p] < |frames| && (old(frames)[table[p]].dirty ==> p in store && p in disk && disk[p] == store[p])
      ensures forall q | q != p && q in old(disk) :: q in disk && disk[q] == old(disk)[q]
    {
      ghost var s := View();
      assert PageOk(s, p);
      if p !in table {
        return Err(PageNotFound(p));
      }
      var f := table[p];
      assert FrameOk(s, None, f);
      if frames[f].dirty {
        disk := disk[p := frames[f].page];
        frames := frames[f := frames[f].(dirty := false)];
        touched := touched - {f};
        Flushed(s, View(), f, p);
      }
      r := Ok(());
    }

    // Write back everything: no frame stays dirty, and if no pinned frame holds
    // an unmarked change, the disk has the whole store.
    method FlushAll()
      requires Valid()
      modifies this
      ensures Valid() && store == old(store) && |frames| == |old(frames)| && fetches == old(fetches)
      ensures forall g | 0 <= g < |frames| :: frames[g] == old(frames)[g].(dirty := false)
      ensures touched == {} ==> forall p | p in store :: p in disk && disk[p] == store[p]
    {
      var dirty: seq<PageId> := [];
      for i := 0 to |frames|
        invariant forall g | 0 <= g < i && frames[g].dirty :: frames[g].pageId.Some? && frames[g].pageId.value in dirty
      {
        assert FrameOk(View(), None, i);
        if frames[i].dirty && frames[i].pageId.Some? {
          dirty := dirty + [frames[i].pageId.value];
        }
      }
      for i := 0 to |dirty|
        invariant Valid() && store == old(store) && |frames| == |old(frames)| && fetches == old(fetches)
        invariant forall g | 0 <= g < |frames| :: frames[g] == old(frames)[g].(dirty := frames[g].dirty)
        invariant forall g | 0 <= g < |frames| && frames[g].dirty ::
                    frames[g].pageId.Some? && frames[g].pageId.value in dirty[i..]
      {
        assert forall q :: q in dirty[i..] ==> q == dirty[i] || q in dirty[i + 1..];
        forall g | 0 <= g < |frames| && frames[g].pageId.Some?
          ensures frames[g].pageId.value in table && table[frames[g].pageId.value] == g
        {
          assert FrameOk(View(), None, g);
        }
        var _ := FlushPage(dirty[i]);
      }
      forall p | p in store && touched == {} ensures p in disk && disk[p] == store[p] {
        assert PageOk(View(), p);
        if p in table {
          assert FrameOk(View(), None, table[p]);
        }
      }
    }

    // Forget a page. Its contents are no longer part of the store.
    method DeletePage(p: PageId) returns (r: Result<()>)
      requires Valid()
      modifies this, replacer
      ensures Valid() && |frames| == |old(frames)| && fetches == old(fetches)
      ensures r.Err? <==> p in old(table) && old(table)[p] < |old(frames)| && old(frames)[old(table)[p]].pins > 0
      ensures r.Err? ==> r.error == CannotDeletePinned(p) && View() == old(View())
      ensures r.Ok? ==> store == old(store) - {p} && p !in table
      ensures forall g | 0 <= g < |frames| && !(p in old(table) && g == old(table)[p]) :: frames[g] == old(frames)[g]
    {
      ghost var s := View();
      assert PageOk(s, p);
      if p in table {
        var f := table[p];
        assert FrameOk(s, None, f);
        if frames[f].pins > 0 {
          return Err(CannotDeletePinned(p));
        }
        StillRecent(s, fetches, replacer.clock, replacer.lastAccess, p, f);
        table := table - {p};
        replacer.Remove(f);
        frames := frames[f := frames[f].(pageId := None, dirty := false, pins := 0)];
        free := free + [f];
      }
      store := store - {p};
      Forgotten(s, View(), p);
      r := Ok(());
    }
  }

  lemma Taken<Data>(s: State<Data>, s': State<Data>, f: FrameId)
    requires Inv(s, None) && |s.free| > 0 && f == s.free[0] && s' == s.(free := s.free[1..])
    ensures Freed(s, s', f)
  {
    assert FrameOk(s, None, f);
    forall g ensures FrameOk(s', Some(f), g) {
      assert FrameOk(s, None, g);
    }
    forall p ensures PageOk(s', p) {
      assert PageOk(s, p);
    }
  }

  lemma Evicted<Data>(s: State<Data>, s': State<Data>, f: FrameId)
    requires Inv(s, None) && f < |s.frames| && f in s.evictable && s.frames[f].pageId.Some?
    requires
      var x := s.frames[f];
      s' == s.(frames := s.frames[f := x.(pageId := None, dirty := false)],
               table := s.table - {x.pageId.value},
               disk := if x.dirty then s.disk[x.pageId.value := x.page] else s.disk,
               evictable := s.evictable - {f},
               tracked := s.tracked - {f})
    ensures Freed(s, s', f)
  {
    assert FrameOk(s, None, f) && PageOk(s, s.frames[f].pageId.value);
    forall g ensures FrameOk(s', Some(f), g) {
      assert FrameOk(s, None, g);
    }
    forall p ensures PageOk(s', p) {
      assert PageOk(s, p);
    }
  }

  lemma Repinned<Data>(s: State<Data>, s': State<Data>, f: FrameId)
    requires Inv(s, None) && f < |s.frames| && s.frames[f].pageId.Some?
    requires s' == s.(frames := s.frames[f := s.frames[f].(pins := s.frames[f].pins + 1)],
                      evictable := s.evictable - {f}, tracked := s.tracked + {f})
    ensures Inv(s', None)
  {
    forall g ensures FrameOk(s', None, g) {
      assert FrameOk(s, None, g);
    }
    forall q ensures PageOk(s', q) {
      assert PageOk(s, q);
    }
  }

  lemma Filled<Data>(s: State<Data>, s': State<Data>, f: FrameId, p: PageId)
    requires Inv(s, Some(f)) && p in s.store && p !in s.table && p in s.disk
    requires s' == s.(frames := s.frames[f := Frame(s.disk[p], Some(p), 1, false)], table := s.table[p := f],
                      evictable := s.evictable - {f}, tracked := s.tracked + {f})
    ensures Inv(s', None)
  {
    assert PageOk(s, p) && FrameOk(s, Some(f), f);
    forall g ensures FrameOk(s', None, g) {
      assert FrameOk(s, Some(f), g);
    }
    forall q ensures PageOk(s', q) {
      assert PageOk(s, q);
    }
  }

  lemma Allocated<Data>(s: State<Data>, s': State<Data>, f: FrameId, p: PageId, zero: Data, x: Frame<Data>)
    requires Inv(s, Some(f)) && p == s.nextPage && x.pageId == Some(p) && x.pins == 1 && x.dirty
    requires s' == s.(frames := s.frames[f := x], table := s.table[p := f], nextPage := p + 1,
                      disk := s.disk[p := zero], store := s.store[p := x.page],
                      evictable := s.evictable - {f}, tracked := s.tracked + {f})
    ensures Inv(s', None) && p !in s.store
  {
    assert PageOk(s, p) && FrameOk(s, Some(f), f);
    forall g ensures FrameOk(s', None, g) {
      assert FrameOk(s, Some(f), g);
    }
    forall q ensures PageOk(s', q) {
      assert PageOk(s, q);
    }
  }

  lemma Changed<Data>(s: State<Data>, s': State<Data>, f: FrameId, page: Data)
    requires Inv(s, None) && f < |s.frames| && s.frames[f].pins > 0 && s.frames[f].pageId.Some?
    requires s' == s.(frames := s.frames[f := s.frames[f].(page := page)],
                      store := s.store[s.frames[f].pageId.value := page], touched := s.touched + {f})
    ensures Inv(s', None)
  {
    assert FrameOk(s, None, f) && PageOk(s, s.frames[f].pageId.value);
    forall g ensures FrameOk(s', None, g) {
      assert FrameOk(s, None, g);
    }
    forall q ensures PageOk(s', q) {
      assert PageOk(s, q);
    }
  }

  lemma Unpinned<Data>(s: State<Data>, s': State<Data>, f: FrameId, y: Frame<Data>)
    requires Inv(s, None) && f < |s.frames| && s.frames[f].pins > 0 && s.frames[f].pageId.Some?
    requires y == s.frames[f].(pins := s.frames[f].pins - 1, dirty := y.dirty) && (s.frames[f].dirty ==> y.dirty)
    requires f in s.touched && y.pins == 0 ==> y.dirty
    requires s' == s.(frames := s.frames[f := y],
                      evictable := if y.pins == 0 then s.evictable + {f} else s.evictable,
                      touched := if y.dirty then s.touched - {f} else s.touched)
    ensures Inv(s', None)
  {
    forall g ensures FrameOk(s', None, g) {
      assert FrameOk(s, None, g);
    }
    forall q ensures PageOk(s', q) {
      assert PageOk(s, q);
    }
  }

  lemma Flushed<Data>(s: State<Data>, s': State<Data>, f: FrameId, p: PageId)
    requires Inv(s, None) && f < |s.frames| && s.frames[f].pageId == Some(p)
    requires s' == s.(frames := s.frames[f := s.frames[f].(dirty := false)],
                      disk := s.disk[p := s.frames[f].page], touched := s.touched - {f})
    ensures Inv(s', None)
  {
    assert FrameOk(s, None, f) && PageOk(s, p);
    forall g ensures FrameOk(s', None, g) {
      assert FrameOk(s, None, g);
    }
    forall q ensures PageOk(s', q) {
      assert PageOk(s, q);
    }
  }

  lemma Forgotten<Data>(s: State<Data>, s': State<Data>, p: PageId)
    requires Inv(s, None)
    requires if p in s.table then
        && s.table[p] < |s.frames| && s.frames[s.table[p]].pins == 0
        && var f := s.table[p];
           s' == s.(frames := s.frames[f := s.frames[f].(pageId := None, dirty := false, pins := 0)],
                    table := s.table - {p}, free := s.free + [f], store := s.store - {p},
                    evictable := s.evictable - {f}, tracked := s.tracked - {f})
      else s' == s.(store := s.store - {p})
    ensures Inv(s', None)
  {
    assert PageOk(s, p);
    if p in s.table {
      assert FrameOk(s, None, s.table[p]);
    }
    forall g ensures FrameOk(s', None, g) {
      assert FrameOk(s, None, g);
    }
    forall q ensures PageOk(s', q) {
      assert PageOk(s, q);
    }
  }
}
