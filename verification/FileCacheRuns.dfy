/** What a file cache holds after any run, told from the history of its operations alone. */
module FileCacheRuns {
  import opened FileCache

  function Run(max: nat, h: seq<Op>): Cache {
    if h == [] then Empty(max) else After(Run(max, h[..|h| - 1]), h[|h| - 1])
  }

  /** open() gave, each time, a descriptor that was not open. */
  predicate Possible(max: nat, h: seq<Op>) {
    h != [] ==> Possible(max, h[..|h| - 1]) && Fresh(Run(max, h[..|h| - 1]), h[|h| - 1])
  }

  lemma {:induction false} RunsKeep(max: nat, h: seq<Op>)
    requires max >= 1 && Possible(max, h)
    ensures Inv(Run(max, h))
  {
    if h != [] {
      RunsKeep(max, h[..|h| - 1]);
      StepKeeps(Run(max, h[..|h| - 1]), h[|h| - 1]);
    }
  }

  lemma {:induction false} RunsAgree(max: nat, h: seq<Op>)
    requires max >= 1
    ensures Agree(Run(max, h)) && Run(max, h).max == max
  {
    if h != [] {
      RunsAgree(max, h[..|h| - 1]);
      AgreementKept(Run(max, h[..|h| - 1]), h[|h| - 1]);
    }
  }

  // ---- Recency -----------------------------------------------------------------------

  predicate Uses(op: Op, x: Name) {
    op.Get? && op.level == LRU && op.name == x
  }

  /** When `x` was last used, or -1. */
  function LastUse(h: seq<Op>, x: Name): (t: int)
    ensures -1 <= t < |h|
    ensures t >= 0 ==> Uses(h[t], x)
    ensures forall k :: t < k < |h| ==> !Uses(h[k], x)
  {
    if h == [] then -1
    else if Uses(h[|h| - 1], x) then |h| - 1
    else LastUse(h[..|h| - 1], x)
  }

  /** `l` lists used files, the last used first. */
  predicate ByRecency(h: seq<Op>, l: seq<Name>) {
    && (forall i :: 0 <= i < |l| ==> LastUse(h, l[i]) >= 0)
    && (forall i, j :: 0 <= i < j < |l| ==> LastUse(h, l[i]) > LastUse(h, l[j]))
  }

  lemma RecentFirst(h: seq<Op>, l: seq<Name>, op: Op)
    requires ByRecency(h, l) && op.Get? && op.level == LRU
    ensures ByRecency(h + [op], [op.name] + Without(l, op.name))
  {
    var x := op.name;
    var h' := h + [op];
    assert h'[..|h|] == h;
    var w := Without(l, x);
    RecencyWithout(h, l, x);
    RecencyNoDuplicates(h, l);
    WithoutElements(l, x);
    assert x !in Elements(w);
    forall i | 0 <= i < |w| ensures LastUse(h', w[i]) == LastUse(h, w[i]) {
      assert w[i] in Elements(w);
    }
  }

  lemma RecencyWithout(h: seq<Op>, l: seq<Name>, x: Name)
    requires ByRecency(h, l)
    ensures ByRecency(h, Without(l, x))
  {
    if x in l {
      WithoutAt(l, x);
      var w := Without(l, x);
      forall i, j | 0 <= i < j < |w| ensures LastUse(h, w[i]) > LastUse(h, w[j]) {
        RecencyPair(h, l, if i < Position(l, x) then i else i + 1, if j < Position(l, x) then j else j + 1);
      }
    }
  }

  lemma RecencyPair(h: seq<Op>, l: seq<Name>, i: nat, j: nat)
    requires ByRecency(h, l) && i < j < |l|
    ensures LastUse(h, l[i]) > LastUse(h, l[j])
  {
  }

  lemma WithoutAt(l: seq<Name>, x: Name)
    requires x in l
    ensures |Without(l, x)| == |l| - 1
    ensures forall k :: 0 <= k < |l| - 1 ==> Without(l, x)[k] == l[if k < Position(l, x) then k else k + 1]
  {
  }

  lemma RecencyNoDuplicates(h: seq<Op>, l: seq<Name>)
    requires ByRecency(h, l)
    ensures NoDuplicates(l)
  {
  }

  lemma RecencyUnaffected(h: seq<Op>, l: seq<Name>, op: Op)
    requires ByRecency(h, l) && !(op.Get? && op.level == LRU)
    ensures ByRecency(h + [op], l)
  {
    var h' := h + [op];
    assert h'[..|h|] == h;
    forall i | 0 <= i < |l| ensures LastUse(h', l[i]) == LastUse(h, l[i]) {
    }
  }

  /** One operation on the list of a cache without a limit. */
  function NextRecent(l: seq<Name>, op: Op): seq<Name> {
    match op
    case Get(name, LRU, _) => ToFront(l, name)
    case Get(_, Keep, _) => l
    case Close(name) => Without(l, name)
    case CloseUnused(sentry) => UpTo(l, sentry)
  }

  /** The list of the unlimited cache: used and not closed since, the last used first. */
  function Recent(h: seq<Op>): seq<Name> {
    if h == [] then [] else NextRecent(Recent(h[..|h| - 1]), h[|h| - 1])
  }

  lemma {:induction false} RecentByRecency(h: seq<Op>)
    ensures ByRecency(h, Recent(h))
  {
    if h != [] {
      var init, op := h[..|h| - 1], h[|h| - 1];
      assert h == init + [op];
      RecentByRecency(init);
      var l := Recent(init);
      match op
      case Get(name, LRU, _) => RecentFirst(init, l, op);
      case Get(_, Keep, _) => RecencyUnaffected(init, l, op);
      case Close(name) =>
        RecencyWithout(init, l, name);
        RecencyUnaffected(init, Without(l, name), op);
      case CloseUnused(sentry) => RecencyUnaffected(init, UpTo(l, sentry), op);
    }
  }

  // ---- The cache is the front of the unlimited one ------------------------------------

  predicate Front(l: seq<Name>, m: seq<Name>) {
    |l| <= |m| && l == m[..|l|]
  }

  lemma {:induction false} PositionIs(l: seq<Name>, x: Name, i: nat)
    requires NoDuplicates(l) && i < |l| && l[i] == x
    ensures Position(l, x) == i
  {
  }

  lemma FrontWithout(l: seq<Name>, m: seq<Name>, x: Name)
    requires NoDuplicates(m) && Front(l, m)
    ensures Front(Without(l, x), Without(m, x))
  {
    if x in l {
      var i := Position(l, x);
      PositionIs(m, x, i);
      WithoutAt(l, x);
      WithoutAt(m, x);
    } else if x in m {
      var i := Position(m, x);
      assert i >= |l|;
      WithoutAt(m, x);
    }
  }

  lemma FrontUpTo(l: seq<Name>, m: seq<Name>, x: Name)
    requires NoDuplicates(m) && Front(l, m)
    ensures Front(UpTo(l, x), UpTo(m, x))
  {
    if x in l {
      PositionIs(m, x, Position(l, x));
    } else if x in m {
      var i := Position(m, x);
      assert i >= |l|;
    }
  }

  lemma GetCachedList(s: Cache, name: Name, fd: int)
    requires Agree(s)
    ensures var l := ToFront(s.list, name);
            GetCached(s, name, fd).list == if |l| <= s.max then l else l[..s.max]
  {
    if name in s.files {
      assert name in Elements(s.list);
      ToFrontElements(s.list, name);
    } else {
      MissList(s, name, fd);
    }
  }

  lemma MissList(s: Cache, name: Name, fd: int)
    requires Agree(s) && name !in s.files
    ensures var l := [name] + s.list;
            GetCached(s, name, fd).list == (if |l| <= s.max then l else l[..s.max]) && name !in s.list
  {
    assert name !in Elements(s.list);
    InsertKeeps(s, name, fd);
    var s' := Insert(s, name, fd);
    var last := s'.list[|s'.list| - 1];
    if |s'.files| > s.max {
      LastIsDropped(s'.list);
      assert last in Elements(s'.list);
      assert last in s'.files;
    }
  }

  lemma MembersAgree(s: Cache, x: Name)
    requires Agree(s)
    ensures x in s.files <==> x in s.list
  {
    assert x in Elements(s.list) <==> x in s.list;
  }

  /** Whatever the capacity, the list is the front of the list of the unlimited cache. */
  lemma {:induction false} CacheIsFront(max: nat, h: seq<Op>)
    requires max >= 1
    ensures Front(Run(max, h).list, Recent(h))
  {
    if h != [] {
      var init, op := h[..|h| - 1], h[|h| - 1];
      CacheIsFront(max, init);
      RunsAgree(max, init);
      RecentByRecency(init);
      RecencyNoDuplicates(init, Recent(init));
      StepKeepsFront(Run(max, init), Recent(init), op);
    }
  }

  lemma StepKeepsFront(s: Cache, m: seq<Name>, op: Op)
    requires Agree(s) && NoDuplicates(m) && Front(s.list, m)
    ensures Front(After(s, op).list, NextRecent(m, op))
  {
    match op
    case Get(name, LRU, fd) =>
      GetCachedList(s, name, fd);
      FrontWithout(s.list, m, name);
    case Get(_, Keep, _) =>
    case Close(name) =>
      MembersAgree(s, name);
      FrontWithout(s.list, m, name);
    case CloseUnused(sentry) =>
      MembersAgree(s, sentry);
      FrontUpTo(s.list, m, sentry);
  }

  /** The list is in the order of last use, last used first. */
  lemma CacheByRecency(max: nat, h: seq<Op>)
    requires max >= 1
    ensures ByRecency(h, Run(max, h).list)
  {
    CacheIsFront(max, h);
    RecentByRecency(h);
  }

  /** With nothing closed by its users, the cache holds the `max` files used last, and only them. */
  lemma {:induction false} HoldsLastUsed(max: nat, h: seq<Op>)
    requires max >= 1 && forall k :: 0 <= k < |h| ==> h[k].Get?
    ensures var m := Recent(h);
            Run(max, h).list == if |m| <= max then m else m[..max]
  {
    CacheIsFront(max, h);
    if h != [] {
      var init, op := h[..|h| - 1], h[|h| - 1];
      HoldsLastUsed(max, init);
      RunsAgree(max, init);
      if op.level == LRU {
        GetCachedList(Run(max, init), op.name, op.fd);
        RecentByRecency(init);
        RecencyNoDuplicates(init, Recent(init));
        WithoutSize(Recent(init), op.name);
        WithoutSize(Run(max, init).list, op.name);
      }
    }
  }

  lemma WithoutSize(l: seq<Name>, x: Name)
    ensures |Without(l, x)| == |l| - if x in l then 1 else 0
  {
  }

  // ---- Descriptors -------------------------------------------------------------------

  /** The use at `t` of file `x` finds it missing. */
  predicate Misses(max: nat, h: seq<Op>, x: Name, t: nat)
    requires t < |h|
  {
    Uses(h[t], x) && x !in Run(max, h[..t]).files
  }

  /** When `x` was last used and found missing, or -1. */
  function LastMiss(max: nat, h: seq<Op>, x: Name): (t: int)
    ensures -1 <= t < |h|
    ensures t >= 0 ==> Uses(h[t], x)
  {
    if h == [] then -1
    else if Misses(max, h, x, |h| - 1) then |h| - 1
    else LastMiss(max, h[..|h| - 1], x)
  }

  lemma {:induction false} LastMissIsLast(max: nat, h: seq<Op>, x: Name, k: nat)
    requires k < |h|
    ensures LastMiss(max, h, x) >= 0 ==> Misses(max, h, x, LastMiss(max, h, x))
    ensures LastMiss(max, h, x) < k ==> !Misses(max, h, x, k)
  {
    var init := h[..|h| - 1];
    if !Misses(max, h, x, |h| - 1) && |init| > 0 {
      LastMissIsLast(max, init, x, if k < |init| then k else 0);
      MissesEarlier(max, h, x, LastMiss(max, init, x));
      MissesEarlier(max, h, x, k);
    }
  }

  lemma MissesEarlier(max: nat, h: seq<Op>, x: Name, k: int)
    requires |h| > 0
    ensures 0 <= k < |h| - 1 ==> (Misses(max, h, x, k) <==> Misses(max, h[..|h| - 1], x, k))
  {
    if 0 <= k < |h| - 1 {
      assert h[..|h| - 1][..k] == h[..k];
    }
  }

  /** One step gives no file another descriptor than it has, or than open() gives it now. */
  lemma StepDescriptors(s: Cache, op: Op, x: Name)
    requires Agree(s) && x in After(s, op).files
    ensures if x in s.files then After(s, op).files[x] == s.files[x]
            else Uses(op, x) && After(s, op).files[x] == op.fd
  {
    match op
    case Get(name, LRU, fd) => GetDescriptor(s, name, fd);
    case Get(_, Keep, _) =>
    case Close(_) =>
    case CloseUnused(_) =>
  }

  /** The descriptor of a file is the one open() gave when it was last found missing. */
  lemma {:induction false} DescriptorIsOpened(max: nat, h: seq<Op>, x: Name)
    requires max >= 1 && x in Run(max, h).files
    ensures LastMiss(max, h, x) >= 0 && Run(max, h).files[x] == h[LastMiss(max, h, x)].fd
  {
    var init, op := h[..|h| - 1], h[|h| - 1];
    RunsAgree(max, init);
    StepDescriptors(Run(max, init), op, x);
    if x in Run(max, init).files {
      DescriptorIsOpened(max, init, x);
    }
  }

  predicate OpensKept(op: Op, x: Name) {
    op.Get? && op.level == Keep && op.name == x && op.fd >= 0
  }

  /** When a file to keep was first opened with success, or -1. */
  function FirstOpened(h: seq<Op>, x: Name): (t: int)
    ensures -1 <= t < |h|
    ensures t >= 0 ==> OpensKept(h[t], x)
    ensures forall k :: 0 <= k < (if t >= 0 then t else |h|) ==> !OpensKept(h[k], x)
  {
    if h == [] then -1
    else
      var t := FirstOpened(h[..|h| - 1], x);
      if t >= 0 then t else if OpensKept(h[|h| - 1], x) then |h| - 1 else -1
  }

  /** A kept file has the first descriptor with which it could be opened, for good. */
  lemma {:induction false} KeptKeepsFirst(max: nat, h: seq<Op>, x: Name)
    requires max >= 1 && Possible(max, h)
    ensures var s, t := Run(max, h), FirstOpened(h, x);
      if t >= 0 then x in s.keep && s.keep[x] == h[t].fd else x in s.keep ==> s.keep[x] == NONE
  {
    if h != [] {
      var init, op := h[..|h| - 1], h[|h| - 1];
      KeptKeepsFirst(max, init, x);
      StepKept(Run(max, init), op, x);
    }
  }

  lemma StepKept(s: Cache, op: Op, x: Name)
    requires Fresh(s, op)
    ensures var s' := After(s, op);
      if op.Get? && op.level == Keep && op.name == x && !(x in s.keep && s.keep[x] >= 0)
      then x in s'.keep && s'.keep[x] == op.fd
      else (x in s'.keep <==> x in s.keep) && (x in s.keep ==> s'.keep[x] == s.keep[x])
  {
  }

  // ---- Which files are not evicted ---------------------------------------------------

  /** The files used since the last use of `x`. */
  function UsedSince(h: seq<Op>, x: Name): set<Name> {
    set k | 0 <= k < |h| && k > LastUse(h, x) && h[k].Get? && h[k].level == LRU :: h[k].name
  }

  lemma UsedSinceGrows(h: seq<Op>, op: Op, x: Name)
    requires !Uses(op, x)
    ensures LastUse(h + [op], x) == LastUse(h, x)
    ensures UsedSince(h, x) <= UsedSince(h + [op], x)
  {
    var h' := h + [op];
    assert h'[..|h|] == h;
    forall y | y in UsedSince(h, x) ensures y in UsedSince(h', x) {
      var k :| 0 <= k < |h| && k > LastUse(h, x) && h[k].Get? && h[k].level == LRU && h[k].name == y;
      assert h'[k] == h[k];
    }
  }

  /** Everything before a file in a list by recency was used since. */
  lemma BeforeIsUsedSince(h: seq<Op>, l: seq<Name>, i: nat)
    requires ByRecency(h, l) && i < |l|
    ensures |UsedSince(h, l[i])| >= i
  {
    var b := l[..i];
    ElementsSize(b);
    forall y | y in Elements(b) ensures y in UsedSince(h, l[i]) {
      var k := LastUse(h, y);
      assert h[k].name == y;
    }
    SubsetSize(Elements(b), UsedSince(h, l[i]));
  }

  lemma {:induction false} SubsetSize<T>(a: set<T>, b: set<T>)
    requires a <= b
    ensures |a| <= |b|
  {
    assert b == a + (b - a);
    assert |b| == |a| + |b - a|;
  }

  /** An evicted file was last: `max` others were used since. */
  lemma EvictionMeansUsed(h: seq<Op>, l: seq<Name>, op: Op, x: Name, max: nat)
    requires ByRecency(h, l) && op.Get? && op.level == LRU && x in l && x != op.name
    requires max <= |ToFront(l, op.name)| && x !in ToFront(l, op.name)[..max]
    ensures |UsedSince(h + [op], x)| >= max
  {
    var front := ToFront(l, op.name);
    RecentFirst(h, l, op);
    StillIn(l, op.name, x);
    assert x in front;
    var i :| 0 <= i < |front| && front[i] == x;
    BeyondPrefix(front, max, i);
    BeforeIsUsedSince(h + [op], front, i);
  }

  lemma BeyondPrefix(l: seq<Name>, n: nat, i: nat)
    requires i < |l| && n <= |l| && l[i] !in l[..n]
    ensures i >= n
  {
    if i < n {
      InPrefix(l, n, i);
    }
  }

  lemma InPrefix(l: seq<Name>, n: nat, i: nat)
    requires i < n <= |l|
    ensures l[i] in l[..n]
  {
    assert l[..n][i] == l[i];
  }

  lemma StillIn(l: seq<Name>, y: Name, x: Name)
    requires x in l && x != y
    ensures x in Without(l, y)
  {
    if y in l {
      WithoutAt(l, y);
      var k :| 0 <= k < |l| && l[k] == x;
      assert Without(l, y)[if k < Position(l, y) then k else k - 1] == x;
    }
  }

  /** A file that the unlimited cache keeps open is given up only by eviction. */
  lemma GivenUpOnlyByEviction(s: Cache, m: seq<Name>, op: Op, x: Name)
    requires Agree(s) && NoDuplicates(m) && Front(s.list, m) && !(op.Get? && op.level == LRU)
    requires x in NextRecent(m, op) && x !in After(s, op).list
    ensures x in m && x !in s.list
  {
    match op
    case Get(_, Keep, _) =>
    case Close(name) =>
      MembersAgree(s, name);
      FrontWithout(s.list, m, name);
      if x in s.list && x != name {
        StillIn(s.list, name, x);
      }
      if name in m {
        WithoutElements(m, name);
        assert x in Elements(Without(m, name));
      }
    case CloseUnused(sentry) =>
      MembersAgree(s, sentry);
      if sentry in s.list {
        SameUpTo(s.list, m, sentry);
      }
  }

  lemma SameUpTo(l: seq<Name>, m: seq<Name>, x: Name)
    requires NoDuplicates(m) && Front(l, m) && x in l
    ensures UpTo(l, x) == UpTo(m, x)
  {
    PositionIs(m, x, Position(l, x));
  }

  /** A file not closed since its last use is missing only if `max` others were used since. */
  lemma {:induction false} MissingMeansUsed(max: nat, h: seq<Op>, x: Name)
    requires max >= 1 && x in Recent(h) && x !in Run(max, h).list
    ensures |UsedSince(h, x)| >= max
  {
    var init, op := h[..|h| - 1], h[|h| - 1];
    assert h == init + [op];
    var s, m := Run(max, init), Recent(init);
    RunsAgree(max, init);
    CacheIsFront(max, init);
    RecentByRecency(init);
    if op.Get? && op.level == LRU {
      UsedIsThere(s, op.name, op.fd);
      if x in s.list {
        CacheByRecency(max, init);
        GetCachedList(s, op.name, op.fd);
        StillIn(s.list, op.name, x);
        EvictionMeansUsed(init, s.list, op, x, max);
        return;
      }
    } else {
      GivenUpOnlyByEviction(s, m, op, x);
    }
    MissingMeansUsed(max, init, x);
    UsedSinceGrows(init, op, x);
    SubsetSize(UsedSince(init, x), UsedSince(h, x));
  }

  lemma UsedIsThere(s: Cache, name: Name, fd: int)
    requires Agree(s)
    ensures name in GetCached(s, name, fd).list
  {
    GetCachedList(s, name, fd);
    assert GetCached(s, name, fd).list[0] == name;
  }

  // ---- The sentry --------------------------------------------------------------------

  /**
   * While the sentry is there, what stays is exactly what was last used no earlier than it;
   * without it nothing is closed.
   */
  lemma SentryKeepsExactly(max: nat, h: seq<Op>, sentry: Name)
    requires max >= 1
    ensures var s, s' := Run(max, h), Run(max, h + [CloseUnused(sentry)]);
            if sentry in s.list
            then
              && Front(s'.list, s.list)
              && forall x :: x in s'.list <==> x in s.list && LastUse(h, x) >= LastUse(h, sentry)
            else s' == s
  {
    var s := Run(max, h);
    assert (h + [CloseUnused(sentry)])[..|h|] == h;
    RunsAgree(max, h);
    MembersAgree(s, sentry);
    CacheByRecency(max, h);
    if sentry in s.list {
      UpToByRecency(h, s.list, sentry);
    }
  }

  lemma UpToIsLater(h: seq<Op>, l: seq<Name>, y: Name, x: Name)
    requires ByRecency(h, l) && y in l && x in UpTo(l, y)
    ensures x in l && LastUse(h, x) >= LastUse(h, y)
  {
    var p := Position(l, y);
    var k :| 0 <= k < |UpTo(l, y)| && UpTo(l, y)[k] == x;
    NotBefore(h, l, k, p);
  }

  lemma NotBefore(h: seq<Op>, l: seq<Name>, i: nat, j: nat)
    requires ByRecency(h, l) && i <= j < |l|
    ensures LastUse(h, l[i]) >= LastUse(h, l[j])
  {
  }

  lemma NotBehind(h: seq<Op>, l: seq<Name>, i: nat, j: nat)
    requires ByRecency(h, l) && i < |l| && j < |l| && LastUse(h, l[i]) >= LastUse(h, l[j])
    ensures i <= j
  {
  }

  lemma UpToByRecency(h: seq<Op>, l: seq<Name>, y: Name)
    requires ByRecency(h, l) && y in l
    ensures forall x :: x in UpTo(l, y) <==> x in l && LastUse(h, x) >= LastUse(h, y)
  {
    var p := Position(l, y);
    forall x ensures x in UpTo(l, y) <==> x in l && LastUse(h, x) >= LastUse(h, y) {
      if x in UpTo(l, y) {
        UpToIsLater(h, l, y, x);
      }
      if x in l && LastUse(h, x) >= LastUse(h, y) {
        var k :| 0 <= k < |l| && l[k] == x;
        NotBehind(h, l, k, p);
        assert UpTo(l, y)[k] == x;
      }
    }
  }

  /** No use of `x` in `during`, and nothing there closes it. */
  predicate LeavesAlone(during: seq<Op>, x: Name) {
    forall op :: op in during ==> !Uses(op, x) && op != Close(x) && !op.CloseUnused?
  }

  lemma {:induction false} LastUseBefore(h: seq<Op>, during: seq<Op>, x: Name)
    ensures if exists k :: 0 <= k < |during| && Uses(during[k], x) then LastUse(h + during, x) >= |h|
            else LastUse(h + during, x) == LastUse(h, x)
  {
    if during == [] {
      assert h + during == h;
    } else {
      var init, op := during[..|during| - 1], during[|during| - 1];
      assert (h + during)[..|h + during| - 1] == h + init;
      LastUseBefore(h, init, x);
      if exists k :: 0 <= k < |during| && Uses(during[k], x) {
        var k :| 0 <= k < |during| && Uses(during[k], x);
        if k < |init| {
          assert Uses(init[k], x);
        }
      }
    }
  }

  lemma {:induction false} StaysRecent(h: seq<Op>, during: seq<Op>, x: Name)
    requires x in Recent(h) && LeavesAlone(during, x)
    ensures x in Recent(h + during)
  {
    if during == [] {
      assert h + during == h;
    } else {
      var init, op := during[..|during| - 1], during[|during| - 1];
      assert (h + during)[..|h + during| - 1] == h + init;
      assert op in during;
      assert LeavesAlone(init, x);
      StaysRecent(h, init, x);
      match op
      case Get(name, LRU, _) => StillIn(Recent(h + init), name, x);
      case Get(_, Keep, _) =>
      case Close(name) => StillIn(Recent(h + init), name, x);
    }
  }

  lemma FrontElements(l: seq<Name>, m: seq<Name>)
    requires Front(l, m)
    ensures forall x :: x in l ==> x in m
  {
  }

  lemma UsedSinceLess(h: seq<Op>, x: Name, y: Name)
    requires LastUse(h, y) <= LastUse(h, x)
    ensures UsedSince(h, x) <= UsedSince(h, y)
  {
    forall z | z in UsedSince(h, x) ensures z in UsedSince(h, y) {
      var k :| 0 <= k < |h| && k > LastUse(h, x) && h[k].Get? && h[k].level == LRU && h[k].name == z;
      assert k > LastUse(h, y);
    }
  }

  /**
   * A file used no earlier than one with fewer than `max` others used since: it is there
   * exactly when it has not been closed since.
   */
  lemma RecentIsThere(max: nat, h: seq<Op>, y: Name, x: Name)
    requires max >= 1 && |UsedSince(h, y)| < max && LastUse(h, y) <= LastUse(h, x)
    ensures x in Run(max, h).list <==> x in Recent(h)
  {
    CacheIsFront(max, h);
    FrontElements(Run(max, h).list, Recent(h));
    if x in Recent(h) && x !in Run(max, h).list {
      MissingMeansUsed(max, h, x);
      UsedSinceLess(h, x, y);
      SubsetSize(UsedSince(h, x), UsedSince(h, y));
    }
  }

  /**
   * One round of use: set the sentry, use files, close the unused. If fewer than `max` files
   * were used in between, what remains is exactly the sentry and the files used since that
   * were not closed after their last use.
   */
  lemma RoundClosesUnused(max: nat, before: seq<Op>, sentry: Name, fd: int, during: seq<Op>)
    requires max >= 1 && LeavesAlone(during, sentry)
    requires |UsedSince(before + [Get(sentry, LRU, fd)] + during, sentry)| < max
    ensures var h := before + [Get(sentry, LRU, fd)] + during;
            forall x :: x in Run(max, h + [CloseUnused(sentry)]).list <==>
              x == sentry || (x in Recent(h) && exists k :: 0 <= k < |during| && Uses(during[k], x))
  {
    var start := before + [Get(sentry, LRU, fd)];
    var h := start + during;
    assert start[..|before|] == before;
    assert Recent(start)[0] == sentry;
    StaysRecent(start, during, sentry);
    RecentIsThere(max, h, sentry, sentry);
    SentryKeepsExactly(max, h, sentry);
    LastUseBefore(start, during, sentry);
    assert LastUse(h, sentry) == |before|;
    forall x
      ensures x in Run(max, h + [CloseUnused(sentry)]).list <==>
        x == sentry || (x in Recent(h) && exists k :: 0 <= k < |during| && Uses(during[k], x))
    {
      LastUseBefore(start, during, x);
      if x != sentry && LastUse(h, x) >= LastUse(h, sentry) {
        RecentIsThere(max, h, sentry, x);
      }
    }
  }

  /** Using the sentry as a file moves it: files used before that, though since it was set, go too. */
  lemma SentryUsedAgain(max: nat, before: seq<Op>, sentry: Name, x: Name, fd: int)
    requires max >= 1 && x != sentry
    ensures var h := before + [Get(sentry, LRU, fd), Get(x, LRU, fd), Get(sentry, LRU, fd)];
            x !in Run(max, h + [CloseUnused(sentry)]).list
  {
    var u, v := Get(sentry, LRU, fd), Get(x, LRU, fd);
    var h := before + [u, v, u];
    var h' := h[..|h| - 1];
    RunsAgree(max, h');
    GetCachedList(Run(max, h'), sentry, fd);
    assert Run(max, h).list[0] == sentry;
    SentryKeepsExactly(max, h, sentry);
  }
}
