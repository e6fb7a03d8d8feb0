/** A cache of open files: some kept for good, the others closed least recently used first. */
module FileCache {

  type Name = string

  /** What open() gives for a file it cannot open. */
  const NONE := -1

  // ---- Lists without repetition ------------------------------------------------------

  predicate NoDuplicates(l: seq<Name>) {
    forall i, j :: 0 <= i < j < |l| ==> l[i] != l[j]
  }

  function Elements(l: seq<Name>): set<Name> {
    set x | x in l
  }

  function Position(l: seq<Name>, x: Name): (i: nat)
    requires x in l
    ensures i < |l| && l[i] == x
  {
    if l[0] == x then 0 else 1 + Position(l[1..], x)
  }

  function Without(l: seq<Name>, x: Name): seq<Name> {
    if x in l then var i := Position(l, x); l[..i] + l[i + 1..] else l
  }

  function ToFront(l: seq<Name>, x: Name): seq<Name> {
    [x] + Without(l, x)
  }

  /** The front of the list, up to `x`. */
  function UpTo(l: seq<Name>, x: Name): seq<Name> {
    if x in l then l[..Position(l, x) + 1] else l
  }

  lemma {:induction false} ElementsSize(l: seq<Name>)
    requires NoDuplicates(l)
    ensures |Elements(l)| == |l|
  {
    if l != [] {
      var init, x := l[..|l| - 1], l[|l| - 1];
      ElementsSize(init);
      assert Elements(l) == Elements(init) + {x};
    }
  }

  lemma WithoutElements(l: seq<Name>, x: Name)
    requires NoDuplicates(l)
    ensures NoDuplicates(Without(l, x)) && Elements(Without(l, x)) == Elements(l) - {x}
  {
    if x in l {
      var i := Position(l, x);
      var w := Without(l, x);
      forall y ensures y in w <==> y in l && y != x {
        if y in l && y != x {
          var k :| 0 <= k < |l| && l[k] == y;
          assert w[if k < i then k else k - 1] == y;
        }
      }
    }
  }

  lemma ToFrontElements(l: seq<Name>, x: Name)
    requires NoDuplicates(l) && x in l
    ensures NoDuplicates(ToFront(l, x)) && Elements(ToFront(l, x)) == Elements(l) && |ToFront(l, x)| == |l|
  {
    WithoutElements(l, x);
    assert x !in Elements(Without(l, x));
    assert Elements(ToFront(l, x)) == Elements(Without(l, x)) + {x};
  }

  // ---- The cache ---------------------------------------------------------------------

  datatype Level = LRU | Keep

  /**
   * `list` orders the names of `files`, last used first. `fds` are the descriptors opened
   * by the cache that nothing has closed.
   */
  datatype Cache = Cache(max: nat, keep: map<Name, int>, list: seq<Name>, files: map<Name, int>, fds: set<int>)

  /** Each operation; `fd` is what open() would give. */
  datatype Op = Get(name: Name, level: Level, fd: int) | Close(name: Name) | CloseUnused(sentry: Name)

  function Empty(max: nat): Cache {
    Cache(max, map[], [], map[], {})
  }

  function Descriptors(m: map<Name, int>): set<int> {
    set x | x in m && m[x] >= 0 :: m[x]
  }

  function Opened(fds: set<int>, fd: int): set<int> {
    if fd >= 0 then fds + {fd} else fds
  }

  function Restrict(m: map<Name, int>, names: seq<Name>): map<Name, int> {
    map x | x in m && x in names :: m[x]
  }

  function Closed(m: map<Name, int>, names: seq<Name>): map<Name, int> {
    map x | x in m && x !in names :: m[x]
  }

  function GetKept(s: Cache, name: Name, fd: int): Cache {
    if name in s.keep && s.keep[name] >= 0 then s
    else s.(keep := s.keep[name := fd], fds := Opened(s.fds, fd))
  }

  /** A new entry, before anything gives way to it. */
  function Insert(s: Cache, name: Name, fd: int): Cache {
    s.(list := [name] + s.list, files := s.files[name := fd], fds := Opened(s.fds, fd))
  }

  /** Closing drops the entry and its descriptor. */
  function Drop(s: Cache, name: Name): Cache {
    if name !in s.files then s
    else s.(list := Without(s.list, name), files := s.files - {name}, fds := s.fds - {s.files[name]})
  }

  function GetCached(s: Cache, name: Name, fd: int): Cache {
    if name in s.files then s.(list := ToFront(s.list, name))
    else
      var s' := Insert(s, name, fd);
      if |s'.files| > s.max then Drop(s', s'.list[|s'.list| - 1]) else s'
  }

  function DropUnused(s: Cache, sentry: Name): Cache {
    if sentry !in s.files then s
    else
      var list := UpTo(s.list, sentry);
      s.(list := list, files := Restrict(s.files, list),
         fds := s.fds - Descriptors(Closed(s.files, list)))
  }

  function After(s: Cache, op: Op): Cache {
    match op
    case Get(name, Keep, fd) => GetKept(s, name, fd)
    case Get(name, LRU, fd) => GetCached(s, name, fd)
    case Close(name) => Drop(s, name)
    case CloseUnused(sentry) => DropUnused(s, sentry)
  }

  // ---- What every operation keeps ----------------------------------------------------

  /** No two entries own the same descriptor. */
  predicate OwnedOnce(m: map<Name, int>) {
    forall x, y :: x in m && y in m && x != y && m[x] >= 0 ==> m[x] != m[y]
  }

  predicate Agree(s: Cache) {
    && s.max >= 1
    && NoDuplicates(s.list)
    && Elements(s.list) == s.files.Keys
    && |s.list| <= s.max
  }

  /** A descriptor is open exactly when one entry, and only one, owns it. */
  predicate Owned(s: Cache) {
    && OwnedOnce(s.keep)
    && OwnedOnce(s.files)
    && Descriptors(s.keep) !! Descriptors(s.files)
    && s.fds == Descriptors(s.keep) + Descriptors(s.files)
  }

  predicate Inv(s: Cache) {
    Agree(s) && Owned(s)
  }

  /** open() fails, or gives a descriptor that is not open. */
  predicate Fresh(s: Cache, op: Op) {
    op.Get? ==> op.fd == NONE || (op.fd >= 0 && op.fd !in s.fds)
  }

  lemma SizesAgree(s: Cache)
    requires NoDuplicates(s.list) && Elements(s.list) == s.files.Keys
    ensures |s.list| == |s.files|
  {
    ElementsSize(s.list);
    assert |s.files| == |s.files.Keys|;
  }

  lemma InsertKeeps(s: Cache, name: Name, fd: int)
    requires Agree(s) && name !in s.files
    ensures var s' := Insert(s, name, fd);
            NoDuplicates(s'.list) && Elements(s'.list) == s'.files.Keys && |s'.files| == |s.list| + 1
  {
    var s' := Insert(s, name, fd);
    assert name !in Elements(s.list);
    assert Elements(s'.list) == Elements(s.list) + {name};
    SizesAgree(s');
  }

  lemma LastIsDropped(l: seq<Name>)
    requires l != [] && NoDuplicates(l)
    ensures Without(l, l[|l| - 1]) == l[..|l| - 1]
  {
    assert Position(l, l[|l| - 1]) == |l| - 1;
  }

  lemma DropAgrees(s: Cache, name: Name)
    requires NoDuplicates(s.list) && Elements(s.list) == s.files.Keys
    ensures var s' := Drop(s, name);
            NoDuplicates(s'.list) && Elements(s'.list) == s'.files.Keys
            && |s'.list| == |s.list| - if name in s.files then 1 else 0
  {
    if name in s.files {
      assert name in Elements(s.list);
      WithoutElements(s.list, name);
    }
  }

  lemma GetCachedAgrees(s: Cache, name: Name, fd: int)
    requires Agree(s)
    ensures Agree(GetCached(s, name, fd)) && name in GetCached(s, name, fd).files
  {
    if name in s.files {
      assert name in Elements(s.list);
      ToFrontElements(s.list, name);
    } else {
      MissAgrees(s, name, fd);
    }
  }

  lemma MissAgrees(s: Cache, name: Name, fd: int)
    requires Agree(s) && name !in s.files
    ensures Agree(GetCached(s, name, fd)) && name in GetCached(s, name, fd).files
  {
    InsertKeeps(s, name, fd);
    InsertTrims(s, Insert(s, name, fd), name, fd);
  }

  lemma InsertTrims(s: Cache, s': Cache, name: Name, fd: int)
    requires s.max >= 1 && |s.list| <= s.max && name !in s.files && s' == Insert(s, name, fd)
    requires NoDuplicates(s'.list) && Elements(s'.list) == s'.files.Keys
    ensures Agree(GetCached(s, name, fd)) && name in GetCached(s, name, fd).files
  {
    assert |s'.list| == |s.list| + 1 && s'.list[0] == name && s'.max == s.max;
    TrimAgrees(s');
  }

  lemma TrimAgrees(s: Cache)
    requires NoDuplicates(s.list) && Elements(s.list) == s.files.Keys
    requires 1 <= s.max && 1 <= |s.list| <= s.max + 1
    ensures var s' := if |s.files| > s.max then Drop(s, s.list[|s.list| - 1]) else s;
      Agree(s') && s.list[0] in s'.files
  {
    SizesAgree(s);
    if |s.files| > s.max {
      LastAgrees(s);
    } else {
      assert s.list[0] in Elements(s.list);
    }
  }

  lemma LastAgrees(s: Cache)
    requires NoDuplicates(s.list) && Elements(s.list) == s.files.Keys && |s.list| >= 2
    ensures var s' := Drop(s, s.list[|s.list| - 1]);
      && NoDuplicates(s'.list) && Elements(s'.list) == s'.files.Keys && |s'.list| == |s.list| - 1
      && s.list[0] in s'.files
  {
    var last := s.list[|s.list| - 1];
    assert last in Elements(s.list) && s.list[0] in Elements(s.list);
    DropAgrees(s, last);
  }

  lemma DropUnusedAgrees(s: Cache, sentry: Name)
    requires Agree(s)
    ensures Agree(DropUnused(s, sentry))
  {
    if sentry in s.files {
      var l := UpTo(s.list, sentry);
      forall x ensures x in l ==> x in s.files {
        if x in l {
          assert x in Elements(s.list);
        }
      }
      assert Elements(l) == Restrict(s.files, l).Keys;
    }
  }

  lemma AgreementKept(s: Cache, op: Op)
    requires Agree(s)
    ensures Agree(After(s, op))
  {
    match op
    case Get(name, Keep, fd) =>
    case Get(name, LRU, fd) => GetCachedAgrees(s, name, fd);
    case Close(name) => DropAgrees(s, name);
    case CloseUnused(sentry) => DropUnusedAgrees(s, sentry);
  }

  lemma InsertOwned(m: map<Name, int>, name: Name, fd: int)
    requires OwnedOnce(m) && fd !in Descriptors(m) && (name in m ==> m[name] < 0)
    ensures OwnedOnce(m[name := fd]) && Descriptors(m[name := fd]) == Opened(Descriptors(m), fd)
  {
    var m' := m[name := fd];
    forall x | x in m && m[x] >= 0 ensures m[x] in Descriptors(m) && m[x] in Descriptors(m') {
      assert m'[x] == m[x];
    }
    assert fd >= 0 ==> fd in Descriptors(m') by {
      assert m'[name] == fd;
    }
  }

  lemma DropOwned(m: map<Name, int>, name: Name)
    requires OwnedOnce(m) && name in m
    ensures OwnedOnce(m - {name}) && Descriptors(m - {name}) == Descriptors(m) - {m[name]}
  {
    var m' := m - {name};
    forall x | x in m && x != name && m[x] >= 0 ensures m[x] in Descriptors(m') {
      assert m'[x] == m[x];
    }
  }

  lemma DropKeepsOwned(s: Cache, name: Name)
    requires Owned(s)
    ensures Owned(Drop(s, name))
  {
    if name in s.files {
      DropOwned(s.files, name);
    }
  }

  lemma InsertKeepsOwned(s: Cache, name: Name, fd: int)
    requires Owned(s) && name !in s.files && (fd == NONE || (fd >= 0 && fd !in s.fds))
    ensures Owned(Insert(s, name, fd))
  {
    InsertOwned(s.files, name, fd);
  }

  lemma OwnershipKept(s: Cache, op: Op)
    requires Owned(s) && Fresh(s, op)
    ensures Owned(After(s, op))
  {
    match op
    case Get(name, Keep, fd) =>
      if !(name in s.keep && s.keep[name] >= 0) {
        InsertOwned(s.keep, name, fd);
      }
    case Get(name, LRU, fd) =>
      if name !in s.files {
        InsertKeepsOwned(s, name, fd);
        var s' := Insert(s, name, fd);
        DropKeepsOwned(s', s'.list[|s'.list| - 1]);
      }
    case Close(name) => DropKeepsOwned(s, name);
    case CloseUnused(sentry) => RestrictOwned(s.files, UpTo(s.list, sentry));
  }

  lemma RestrictOwned(m: map<Name, int>, names: seq<Name>)
    requires OwnedOnce(m)
    ensures OwnedOnce(Restrict(m, names))
    ensures Descriptors(Restrict(m, names)) == Descriptors(m) - Descriptors(Closed(m, names))
  {
    var kept, closed := Restrict(m, names), Closed(m, names);
    forall d ensures d in Descriptors(kept) <==> d in Descriptors(m) && d !in Descriptors(closed) {
      if d in Descriptors(kept) {
        var x :| x in kept && kept[x] == d;
        assert x in m && m[x] == d;
      }
      if d in Descriptors(m) && d !in Descriptors(closed) {
        var x :| x in m && m[x] == d;
        if x !in names {
          ClosedHas(m, names, x);
        }
        assert x in kept;
      }
    }
  }

  lemma ClosedHas(m: map<Name, int>, names: seq<Name>, x: Name)
    requires x in m && x !in names && m[x] >= 0
    ensures m[x] in Descriptors(Closed(m, names))
  {
    assert Closed(m, names)[x] == m[x];
  }

  /** A file that is there keeps its descriptor; one that is not gets the one that open() gives. */
  lemma GetDescriptor(s: Cache, name: Name, fd: int)
    requires Agree(s)
    ensures var files := GetCached(s, name, fd).files;
      && name in files && files[name] == (if name in s.files then s.files[name] else fd)
      && forall x :: x in files && x != name ==> x in s.files && files[x] == s.files[x]
  {
    GetCachedAgrees(s, name, fd);
  }

  lemma CloseDrops(s: Cache, name: Name)
    requires Agree(s)
    ensures Drop(s, name).files == s.files - {name}
    ensures Drop(s, name).list == Without(s.list, name) && name !in Without(s.list, name)
  {
    WithoutElements(s.list, name);
    assert name in Elements(s.list) <==> name in s.files;
    assert name !in Elements(Without(s.list, name));
  }

  lemma StepKeeps(s: Cache, op: Op)
    requires Inv(s) && Fresh(s, op)
    ensures Inv(After(s, op))
  {
    AgreementKept(s, op);
    OwnershipKept(s, op);
  }

  // ---- The cache as an object --------------------------------------------------------

  class FileCache {
    var keep: map<Name, int>
    const max: nat
    var list: seq<Name>
    var files: map<Name, int>
    var fds: set<int>

    ghost function State(): Cache
      reads this
    {
      Cache(max, keep, list, files, fds)
    }

    constructor (max: nat)
      requires max >= 1
      ensures State() == Empty(max) && Inv(State())
    {
      this.max := max;
      keep, list, files, fds := map[], [], map[], {};
    }

    /** The descriptor of a file that goes is closed, if it has one: never one closed before. */
    method Destroy(fd: int)
      requires fd >= 0 ==> fd in fds
      modifies this`fds
      ensures fds == if fd >= 0 then old(fds) - {fd} else old(fds)
    {
      if fd >= 0 {
        fds := fds - {fd};
      }
    }

    method GetFile(name: Name, level: Level, fd: int) returns (r: int)
      requires Inv(State()) && Fresh(State(), Get(name, level, fd))
      modifies this
      ensures State() == After(old(State()), Get(name, level, fd)) && Inv(State())
      ensures match level
              case Keep => name in keep && r == keep[name]
              case LRU => name in files && r == files[name]
      ensures level == LRU ==> r == if name in old(files) then old(files)[name] else fd
      ensures level == Keep ==> r == if name in old(keep) && old(keep)[name] >= 0 then old(keep)[name] else fd
    {
      GetDescriptor(State(), name, fd);
      match level
      case Keep => r := GetKeep(name, fd);
      case LRU =>
        StepKeeps(State(), Get(name, LRU, fd));
        r := GetLRU(name, fd);
    }

    method GetKeep(name: Name, fd: int) returns (r: int)
      requires Inv(State()) && Fresh(State(), Get(name, Keep, fd))
      modifies this`keep, this`fds
      ensures State() == After(old(State()), Get(name, Keep, fd)) && Inv(State())
      ensures name in keep && r == keep[name]
    {
      StepKeeps(State(), Get(name, Keep, fd));
      if name !in keep || keep[name] < 0 {
        keep := keep[name := fd];
        fds := Opened(fds, fd);
      }
      r := keep[name];
    }

    method GetLRU(name: Name, fd: int) returns (r: int)
      requires Inv(State()) && Fresh(State(), Get(name, LRU, fd))
      modifies this`list, this`files, this`fds
      ensures State() == GetCached(old(State()), name, fd)
      ensures name in files && r == files[name]
    {
      SizesAgree(State());
      assert |list| == |files|;
      if name in files {
        list := ToFront(list, name);
        r := files[name];
      } else {
        r := AddLRU(name, fd);
      }
    }

    method AddLRU(name: Name, fd: int) returns (r: int)
      requires Inv(State()) && Fresh(State(), Get(name, LRU, fd)) && name !in files
      modifies this`list, this`files, this`fds
      ensures State() == GetCached(old(State()), name, fd)
      ensures name in files && r == files[name]
    {
      GetCachedAgrees(State(), name, fd);
      AddFirst(name, fd);
      assert |list| == |files|;
      if |files| > max {
        EvictLast();
      }
      r := files[name];
    }

    method AddFirst(name: Name, fd: int)
      requires Inv(State()) && Fresh(State(), Get(name, LRU, fd)) && name !in files
      modifies this`list, this`files, this`fds
      ensures State() == Insert(old(State()), name, fd) && Evictable(State())
      ensures |list| == |files|
    {
      InsertKeeps(State(), name, fd);
      InsertKeepsOwned(State(), name, fd);
      list := [name] + list;
      files := files[name := fd];
      fds := Opened(fds, fd);
    }

    method EvictLast()
      requires Evictable(State())
      modifies this`list, this`files, this`fds
      ensures State() == Drop(old(State()), old(list[|list| - 1]))
    {
      var last := list[|list| - 1];
      LastIsDropped(list);
      assert last in Elements(list);
      OwnedIsOpen(State(), last);
      Destroy(files[last]);
      files := files - {last};
      list := list[..|list| - 1];
    }

    method CloseFile(name: Name)
      requires Inv(State())
      modifies this
      ensures State() == After(old(State()), Close(name)) && Inv(State())
      ensures files == old(files) - {name} && list == Without(old(list), name) && name !in list
    {
      CloseDrops(State(), name);
      StepKeeps(State(), Close(name));
      if name in files {
        OwnedIsOpen(State(), name);
        Destroy(files[name]);
        list := Without(list, name);
        files := files - {name};
      }
    }

    method SetSentryFile(sentry: Name, fd: int)
      requires Inv(State()) && Fresh(State(), Get(sentry, LRU, fd))
      modifies this
      ensures State() == After(old(State()), Get(sentry, LRU, fd)) && Inv(State())
    {
      var _ := GetFile(sentry, LRU, fd);
    }

    method CloseUnusedFiles(sentry: Name)
      requires Inv(State())
      modifies this
      ensures State() == After(old(State()), CloseUnused(sentry)) && Inv(State())
    {
      StepKeeps(State(), CloseUnused(sentry));
      if sentry in files {
        CutBehind(sentry);
      }
    }

    method CutBehind(sentry: Name)
      requires Inv(State()) && sentry in files
      modifies this`list, this`files, this`fds
      ensures State() == DropUnused(old(State()), sentry)
    {
      ghost var s := State();
      CuttingStarts(s, sentry);
      while list != [] && list[|list| - 1] != sentry
        invariant Cutting(s, State(), sentry)
        decreases |list|
      {
        EvictBehind(s, sentry);
      }
      CuttingEnds(s, State(), sentry);
    }

    method EvictBehind(ghost start: Cache, sentry: Name)
      requires Inv(start) && Cutting(start, State(), sentry) && list[|list| - 1] != sentry
      modifies this`list, this`files, this`fds
      ensures Cutting(start, State(), sentry) && |list| == old(|list|) - 1
    {
      CuttingContinues(start, State(), sentry);
      EvictLast();
    }
  }

  /** The last entry of the list is there to be closed. */
  predicate Evictable(s: Cache) {
    s.list != [] && NoDuplicates(s.list) && Elements(s.list) == s.files.Keys && Owned(s)
  }

  /** `s` is `start` with some of the end of its list closed, and not yet `sentry`. */
  predicate Cutting(start: Cache, s: Cache, sentry: Name) {
    && Evictable(s)
    && s.max == start.max && s.keep == start.keep
    && |s.list| <= |start.list| && s.list == start.list[..|s.list|]
    && s.files == Restrict(start.files, s.list)
    && sentry in start.files && sentry in start.list && Position(start.list, sentry) < |s.list|
  }

  lemma CuttingStarts(s: Cache, sentry: Name)
    requires Inv(s) && sentry in s.files
    ensures Cutting(s, s, sentry)
  {
    assert sentry in Elements(s.list);
    RestrictAll(s);
  }

  lemma CuttingContinues(start: Cache, s: Cache, sentry: Name)
    requires Inv(start) && Cutting(start, s, sentry) && s.list[|s.list| - 1] != sentry
    ensures Cutting(start, Drop(s, s.list[|s.list| - 1]), sentry)
    ensures |Drop(s, s.list[|s.list| - 1]).list| == |s.list| - 1
  {
    var n := |s.list|;
    LastIsDropped(s.list);
    EvictionKeeps(s);
    RestrictLess(start, n);
    assert s.list[..n - 1] == start.list[..n - 1];
  }

  lemma EvictionKeeps(s: Cache)
    requires Evictable(s)
    ensures var s' := Drop(s, s.list[|s.list| - 1]);
            && NoDuplicates(s'.list) && Elements(s'.list) == s'.files.Keys && Owned(s')
            && s'.list == s.list[..|s.list| - 1] && s'.files == s.files - {s.list[|s.list| - 1]}
  {
    var last := s.list[|s.list| - 1];
    assert last in Elements(s.list);
    LastIsDropped(s.list);
    DropAgrees(s, last);
    DropKeepsOwned(s, last);
  }

  lemma CuttingEnds(start: Cache, s: Cache, sentry: Name)
    requires Inv(start) && Cutting(start, s, sentry) && s.list[|s.list| - 1] == sentry
    ensures s == DropUnused(start, sentry)
  {
    PrefixEndsAt(start.list, sentry, |s.list|);
    RestrictOwned(start.files, s.list);
    DisjointMinus(s.fds, Descriptors(s.keep), Descriptors(start.files), Descriptors(Closed(start.files, s.list)));
  }

  lemma OwnedIsOpen(s: Cache, name: Name)
    requires Owned(s) && name in s.files
    ensures s.files[name] >= 0 ==> s.files[name] in s.fds
    ensures s.files[name] < 0 ==> s.fds - {s.files[name]} == s.fds
  {
  }

  lemma DisjointMinus(rest: set<int>, a: set<int>, b: set<int>, c: set<int>)
    requires a !! b && c <= b && rest == a + (b - c)
    ensures rest == a + b - c
  {
  }

  lemma PrefixEndsAt(l: seq<Name>, x: Name, n: nat)
    requires NoDuplicates(l) && x in l && Position(l, x) < n <= |l| && l[n - 1] == x
    ensures l[..n] == UpTo(l, x)
  {
  }

  lemma RestrictAll(s: Cache)
    requires Elements(s.list) == s.files.Keys
    ensures Restrict(s.files, s.list) == s.files
  {
    forall x | x in s.files ensures x in s.list {
      assert x in Elements(s.list);
    }
  }

  lemma RestrictLess(s: Cache, n: nat)
    requires Agree(s) && 1 <= n <= |s.list|
    ensures Restrict(s.files, s.list[..n]) - {s.list[n - 1]} == Restrict(s.files, s.list[..n - 1])
  {
    assert s.list[..n] == s.list[..n - 1] + [s.list[n - 1]];
  }
}
