/** The on-disk tier (`ImageDiskCache`): images are written as files named by
    their cache key into one directory, whose total size is bounded by a byte
    quota. The directory may hold other files and subdirectories besides the
    cache's own images (by default it is the app's whole Caches directory);
    each is one entry here, sized by what the file system reports for that
    entry itself, and deleting it deletes whatever it contains. When a store
    pushes the directory over its quota, entries are deleted least recently
    accessed first until the total fits again. */
module DiskCache {
  import opened Wrappers
  import opened Platform

  /** `Date` is a `TimeInterval` (a `Double` of seconds) relative to
      Foundation's reference date, 2001-01-01 00:00:00 UTC. Every finite
      `Double` is an integer multiple of 2^-1074, so the date is modelled
      exactly as that integer multiple: no two distinct dates are merged and
      the order is the order of the `TimeInterval`s. */
  type Date = int

  /** Ticks of 2^-1074 seconds per second. */
  const TicksPerSecond: nat := Pow2(1074)

  function Pow2(n: nat): (r: nat)
    ensures r >= 1
  {
    if n == 0 then 1 else 2 * Pow2(n - 1)
  }

  /** `Date.distantPast` (0001-01-01 00:00:00 UTC, 63114076800 seconds before
      the reference date): the date assumed for a file whose access date
      cannot be read. */
  const DistantPast: Date := -63114076800 * TicksPerSecond

  /** One file of the cache directory: its bytes and the two resource values
      the eviction reads, each `None` when the file system cannot report it. */
  datatype Entry = Entry(data: Bytes, size: Option<nat>, accessDate: Option<Date>)

  /** The cache directory, keyed by file name. */
  type Directory = map<Key, Entry>

  /** A directory listing item: the file's name with the resource values
      prefetched when the directory was listed. */
  datatype File = File(name: Key, entry: Entry)

  /** Which file-system calls fail. A failing listing makes
      `contentsOfDirectory` throw; a failing write makes `Data.write` throw;
      an unreadable file makes `Data(contentsOf:)` fail; an undeletable file
      makes `removeItem` throw. */
  datatype FsFaults = FsFaults(listFails: bool, writeFails: bool, unreadable: set<Key>, undeletable: set<Key>)

  /** A file system on which every call succeeds. */
  const NoFaults: FsFaults := FsFaults(false, false, {}, {})

  /** What `store` and `enforceStorageLimit` can throw: the cache's own
      `CacheError.failedToEncodeImage`, or the file manager's errors. */
  datatype CacheError = FailedToEncodeImage | WriteFailed(key: Key) | ListingFailed | RemoveFailed(key: Key)

  /** The directory after an operation, and the error it threw, if any. A
      throw in the middle of eviction leaves the deletions already done. */
  datatype Outcome = Outcome(dir: Directory, error: Option<CacheError>)

  /** The size the eviction reads for a file; an unreadable size counts as 0. */
  function SizeOf(e: Entry): nat {
    e.size.GetOr(0)
  }

  /** The access date the eviction sorts by; an unreadable date is
      `DistantPast`, so such a file sorts as oldest. */
  function AccessDate(e: Entry): Date {
    e.accessDate.GetOr(DistantPast)
  }

  // ---------------------------------------------------------------------
  // Sizes
  // ---------------------------------------------------------------------

  /** Sum of the sizes of the files of a listing, as the `reduce` in
      `totalCacheSize` computes it. */
  function Sum(files: seq<File>): nat {
    if |files| == 0 then 0 else SizeOf(files[0].entry) + Sum(files[1..])
  }

  /** The total size of a directory, independent of any listing order. */
  ghost function MapTotal(dir: Directory): nat
    decreases |dir.Keys|
  {
    if dir.Keys == {} then 0
    else
      var k :| k in dir.Keys;
      SizeOf(dir[k]) + MapTotal(dir - {k})
  }

  /** Removing any one key takes exactly that entry's size off the total. */
  lemma {:induction false} MapTotalRemove(dir: Directory, k: Key)
    requires k in dir
    ensures MapTotal(dir) == SizeOf(dir[k]) + MapTotal(dir - {k})
    decreases |dir.Keys|
  {
    var k0 :| k0 in dir.Keys && MapTotal(dir) == SizeOf(dir[k0]) + MapTotal(dir - {k0});
    if k0 != k {
      MapTotalRemove(dir - {k0}, k);
      MapTotalRemove(dir - {k}, k0);
      assert dir - {k0} - {k} == dir - {k} - {k0};
    }
  }

  lemma {:induction false} SumAppend(a: seq<File>, b: seq<File>)
    ensures Sum(a + b) == Sum(a) + Sum(b)
    decreases |a|
  {
    if |a| == 0 {
      assert a + b == b;
    } else {
      assert (a + b)[0] == a[0];
      assert (a + b)[1..] == a[1..] + b;
      SumAppend(a[1..], b);
    }
  }

  /** Splitting a prefix sum after its first file. */
  lemma SumOfPrefixes(s: seq<File>)
    requires |s| > 0
    ensures forall j :: 1 <= j <= |s| ==> Sum(s[..j]) == SizeOf(s[0].entry) + Sum(s[1..][..j - 1])
  {
    forall j | 1 <= j <= |s|
      ensures Sum(s[..j]) == SizeOf(s[0].entry) + Sum(s[1..][..j - 1])
    {
      assert s[..j][1..] == s[1..][..j - 1];
    }
  }

  // ---------------------------------------------------------------------
  // Directory listings
  // ---------------------------------------------------------------------

  /** The set of file names in a listing. */
  function Names(files: seq<File>): set<Key> {
    set f | f in files :: f.name
  }

  /** `names` lists each key of `keys` exactly once. */
  ghost predicate Enumerates(keys: set<Key>, names: seq<Key>) {
    && (forall k :: k in names <==> k in keys)
    && (forall k :: multiset(names)[k] <= 1)
  }

  /** `files` lists every file of `dir` exactly once, with its current
      resource values. */
  ghost predicate IsListing(dir: Directory, files: seq<File>) {
    && (forall f :: f in files ==> f.name in dir && dir[f.name] == f.entry)
    && (forall k :: k in dir ==> exists f :: f in files && f.name == k)
    && (forall f :: multiset(files)[f] <= 1)
  }

  lemma CountAtLeastTwo<T>(s: seq<T>, i: int, j: int)
    requires 0 <= i < j < |s| && s[i] == s[j]
    ensures multiset(s)[s[i]] >= 2
  {
    assert s == s[..j] + s[j..];
    assert s[..j][i] == s[i];
    assert s[j..][0] == s[i];
    assert multiset(s)[s[i]] == multiset(s[..j])[s[i]] + multiset(s[j..])[s[i]];
  }

  lemma {:induction false} DistinctCounts<T>(s: seq<T>)
    requires forall i, j :: 0 <= i < j < |s| ==> s[i] != s[j]
    ensures forall x :: multiset(s)[x] <= 1
    decreases |s|
  {
    if |s| > 0 {
      assert s == [s[0]] + s[1..];
      DistinctCounts(s[1..]);
    }
  }

  /** Two positions of a listing never name the same file. */
  lemma ListingNamesDistinct(dir: Directory, files: seq<File>, i: int, j: int)
    requires IsListing(dir, files)
    requires 0 <= i < j < |files|
    ensures files[i].name != files[j].name
  {
    if files[i].name == files[j].name {
      assert files[i] in files && files[j] in files;
      CountAtLeastTwo(files, i, j);
    }
  }

  /** Reordering a listing gives a listing of the same directory. */
  lemma ListingPermutation(dir: Directory, a: seq<File>, b: seq<File>)
    requires IsListing(dir, a)
    requires multiset(a) == multiset(b)
    ensures IsListing(dir, b)
  {
    forall f | f in b
      ensures f in a
    {
      assert f in multiset(b);
    }
    forall k | k in dir
      ensures exists f :: f in b && f.name == k
    {
      var f :| f in a && f.name == k;
      assert f in multiset(a);
    }
  }

  /** A listing split at `b`: the tail lists what is left after deleting the
      head's files, and the head lists exactly the deleted files. */
  lemma ListingSplit(dir: Directory, files: seq<File>, b: int)
    requires IsListing(dir, files)
    requires 0 <= b <= |files|
    ensures IsListing(dir - Names(files[..b]), files[b..])
    ensures IsListing(dir - (dir - Names(files[..b])).Keys, files[..b])
  {
    ListingTail(dir, files, b);
    ListingHead(dir, files, b);
  }

  lemma ListingTail(dir: Directory, files: seq<File>, b: int)
    requires IsListing(dir, files)
    requires 0 <= b <= |files|
    ensures IsListing(dir - Names(files[..b]), files[b..])
  {
    var head, tail := files[..b], files[b..];
    var rest := dir - Names(head);
    forall f | f in tail
      ensures f.name in rest && rest[f.name] == f.entry
    {
      var j :| 0 <= j < |tail| && tail[j] == f;
      assert files[b + j] == f;
      ListedEntry(dir, files, b + j);
      if f.name in Names(head) {
        var i := PrefixIndex(dir, files, b, f.name);
        ListingNamesDistinct(dir, files, i, b + j);
      }
    }
    forall k | k in rest
      ensures exists f :: f in tail && f.name == k
    {
      var f :| f in files && f.name == k;
      var j :| 0 <= j < |files| && files[j] == f;
      if j < b {
        assert head[j] == f;
      } else {
        assert tail[j - b] == f;
      }
    }
    SplitCounts(files, b);
  }

  lemma ListingHead(dir: Directory, files: seq<File>, b: int)
    requires IsListing(dir, files)
    requires 0 <= b <= |files|
    ensures IsListing(dir - (dir - Names(files[..b])).Keys, files[..b])
  {
    var head := files[..b];
    var gone := dir - (dir - Names(head)).Keys;
    forall f | f in head
      ensures f.name in gone && gone[f.name] == f.entry
    {
      var i :| 0 <= i < b && head[i] == f;
      ListedEntry(dir, files, i);
    }
    forall k | k in gone
      ensures exists f :: f in head && f.name == k
    {
      assert k in Names(head);
    }
    SplitCounts(files, b);
  }

  lemma SplitCounts(files: seq<File>, b: int)
    requires 0 <= b <= |files|
    requires forall f :: multiset(files)[f] <= 1
    ensures forall f :: multiset(files[..b])[f] <= 1 && multiset(files[b..])[f] <= 1
  {
    assert files == files[..b] + files[b..];
    forall f
      ensures multiset(files[..b])[f] <= 1 && multiset(files[b..])[f] <= 1
    {
      assert multiset(files)[f] == multiset(files[..b])[f] + multiset(files[b..])[f];
    }
  }

  /** The sum over any listing is the directory's total. */
  lemma {:induction false} ListingTotal(dir: Directory, files: seq<File>)
    requires IsListing(dir, files)
    ensures Sum(files) == MapTotal(dir)
    decreases |files|
  {
    if |files| > 0 {
      ListingSplit(dir, files, 1);
      assert Names(files[..1]) == {files[0].name};
      ListingTotal(dir - {files[0].name}, files[1..]);
      MapTotalRemove(dir, files[0].name);
    }
  }

  /** The listing of `dir` the file system returns when it enumerates the
      names in the order `names`. */
  function ListDirectory(dir: Directory, names: seq<Key>): (files: seq<File>)
    requires Enumerates(dir.Keys, names)
    ensures IsListing(dir, files)
  {
    var files := seq(|names|, i requires 0 <= i < |names| => File(names[i], dir[names[i]]));
    assert forall i, j :: 0 <= i < j < |files| ==> files[i] != files[j] by {
      forall i, j | 0 <= i < j < |files|
        ensures files[i] != files[j]
      {
        if names[i] == names[j] {
          CountAtLeastTwo(names, i, j);
        }
      }
    }
    DistinctCounts(files);
    assert forall k :: k in dir ==> exists f :: f in files && f.name == k by {
      forall k | k in dir
        ensures exists f :: f in files && f.name == k
      {
        var i :| 0 <= i < |names| && names[i] == k;
        assert files[i] in files;
      }
    }
    files
  }

  /** `totalCacheSize`: the total size of the directory, whatever order the
      listing comes in; 0 when the directory cannot be listed. */
  function TotalCacheSize(dir: Directory, files: seq<File>, faults: FsFaults): (r: nat)
    requires IsListing(dir, files)
    ensures r == (if faults.listFails then 0 else MapTotal(dir))
  {
    if faults.listFails then 0
    else
      ListingTotal(dir, files);
      Sum(files)
  }

  // ---------------------------------------------------------------------
  // Ordering by access date
  // ---------------------------------------------------------------------

  /** Ascending access date: oldest first. */
  predicate SortedByAccess(s: seq<File>) {
    forall i, j :: 0 <= i < j < |s| ==> AccessDate(s[i].entry) <= AccessDate(s[j].entry)
  }

  /** The first file of a sorted listing is accessed no later than any. */
  lemma FirstIsOldest(s: seq<File>)
    requires SortedByAccess(s) && |s| > 0
    ensures forall g :: g in s ==> AccessDate(s[0].entry) <= AccessDate(g.entry)
  {
  }

  lemma ConsSorted(f: File, s: seq<File>)
    requires SortedByAccess(s)
    requires forall g :: g in s ==> AccessDate(f.entry) <= AccessDate(g.entry)
    ensures SortedByAccess([f] + s)
  {
    forall i, j | 0 <= i < j < |[f] + s|
      ensures AccessDate(([f] + s)[i].entry) <= AccessDate(([f] + s)[j].entry)
    {
      assert ([f] + s)[j] == s[j - 1];
      if i > 0 {
        assert ([f] + s)[i] == s[i - 1];
      } else {
        assert s[j - 1] in s;
      }
    }
  }

  lemma PrependOldest(f: File, s: seq<File>)
    requires SortedByAccess(s)
    requires |s| == 0 || AccessDate(f.entry) <= AccessDate(s[0].entry)
    ensures SortedByAccess([f] + s)
  {
    if |s| > 0 {
      FirstIsOldest(s);
    }
    ConsSorted(f, s);
  }

  function Insert(f: File, s: seq<File>): (r: seq<File>)
    requires SortedByAccess(s)
    ensures multiset(r) == multiset(s) + multiset{f}
    ensures SortedByAccess(r)
  {
    if |s| == 0 || AccessDate(f.entry) <= AccessDate(s[0].entry) then
      PrependOldest(f, s);
      [f] + s
    else
      var r' := Insert(f, s[1..]);
      assert s == [s[0]] + s[1..];
      FirstIsOldest(s);
      assert forall g :: g in r' ==> AccessDate(s[0].entry) <= AccessDate(g.entry) by {
        forall g | g in r'
          ensures AccessDate(s[0].entry) <= AccessDate(g.entry)
        {
          assert g in multiset(r');
        }
      }
      ConsSorted(s[0], r');
      [s[0]] + r'
  }

  /** The listing sorted oldest access first, as `contents.sort` leaves it.
      Like Swift's stable sort, this keeps listing order among equal dates;
      since `contentsOfDirectory` does not specify that order, every eviction
      property below is proved for any tie order. */
  function SortByAccess(files: seq<File>): (r: seq<File>)
    ensures multiset(r) == multiset(files)
    ensures SortedByAccess(r)
  {
    if |files| == 0 then []
    else
      assert files == [files[0]] + files[1..];
      Insert(files[0], SortByAccess(files[1..]))
  }

  // ---------------------------------------------------------------------
  // Eviction
  // ---------------------------------------------------------------------

  /** The `for file in contents` loop of `enforceStorageLimit`: while the
      running total exceeds the limit, delete the next file and subtract its
      size; a failing delete throws out of the loop. */
  function Evict(dir: Directory, order: seq<File>, total: int, limit: int, undeletable: set<Key>): (o: Outcome)
    ensures total <= limit ==> o == Outcome(dir, None)
    ensures SubDirectory(o.dir, dir)
    ensures o.error.Some? ==> o.error.value.RemoveFailed? && o.error.value.key in undeletable
    decreases |order|
  {
    if |order| == 0 || total <= limit then Outcome(dir, None)
    else if order[0].name in undeletable then Outcome(dir, Some(RemoveFailed(order[0].name)))
    else Evict(dir - {order[0].name}, order[1..], total - SizeOf(order[0].entry), limit, undeletable)
  }

  /** How many files the loop gets through before its guard fails: the first
      point at which the running total is within the limit, or the whole
      listing. */
  function StopIndex(order: seq<File>, total: int, limit: int): (n: nat)
    ensures n <= |order|
    ensures n == |order| || total - Sum(order[..n]) <= limit
    ensures forall j :: 0 <= j < n ==> total - Sum(order[..j]) > limit
    decreases |order|
  {
    if |order| == 0 || total <= limit then 0
    else
      SumOfPrefixes(order);
      assert order[..0] == [];
      1 + StopIndex(order[1..], total - SizeOf(order[0].entry), limit)
  }

  /** The position of the first undeletable file among the first `n`, or `n`. */
  function FirstBlocked(order: seq<File>, n: nat, undeletable: set<Key>): (b: nat)
    requires n <= |order|
    ensures b <= n
    ensures b < n ==> order[b].name in undeletable
    ensures forall j :: 0 <= j < b ==> order[j].name !in undeletable
    decreases n
  {
    if n == 0 || order[0].name in undeletable then 0
    else 1 + FirstBlocked(order[1..], n - 1, undeletable)
  }

  /** The loop deletes exactly a prefix of the order: up to the point where
      the total fits, or up to the first file it fails to delete. */
  lemma {:induction false} EvictDeletesPrefix(dir: Directory, order: seq<File>, total: int, limit: int, undeletable: set<Key>)
    ensures var n := StopIndex(order, total, limit);
            var b := FirstBlocked(order, n, undeletable);
            Evict(dir, order, total, limit, undeletable)
            == Outcome(dir - Names(order[..b]), if b < n then Some(RemoveFailed(order[b].name)) else None)
    decreases |order|
  {
    var n := StopIndex(order, total, limit);
    var b := FirstBlocked(order, n, undeletable);
    if |order| == 0 || total <= limit || order[0].name in undeletable {
      assert b == 0;
      NamesOfEmpty(dir, order);
    } else {
      var x := order[0].name;
      var total' := total - SizeOf(order[0].entry);
      var n' := StopIndex(order[1..], total', limit);
      assert n == 1 + n';
      var b' := FirstBlocked(order[1..], n', undeletable);
      assert b == 1 + b';
      EvictDeletesPrefix(dir - {x}, order[1..], total', limit, undeletable);
      NamesOfCons(dir, order, b);
    }
  }

  lemma NamesOfEmpty(dir: Directory, order: seq<File>)
    ensures dir - Names(order[..0]) == dir
  {
    assert Names(order[..0]) == {};
  }

  lemma NamesOfCons(dir: Directory, order: seq<File>, b: nat)
    requires 1 <= b <= |order|
    ensures dir - {order[0].name} - Names(order[1..][..b - 1]) == dir - Names(order[..b])
  {
    assert order[..b] == [order[0]] + order[1..][..b - 1];
    assert Names(order[..b]) == {order[0].name} + Names(order[1..][..b - 1]);
  }

  /** `after` keeps some of `before`'s entries, each unchanged. */
  ghost predicate SubDirectory(after: Directory, before: Directory) {
    forall k :: k in after ==> k in before && after[k] == before[k]
  }

  /** No deleted entry was accessed later than any surviving entry. */
  ghost predicate OldestFirst(before: Directory, after: Directory) {
    forall d, s :: d in before && d !in after && s in after && s in before ==> AccessDate(before[d]) <= AccessDate(before[s])
  }

  /** The total of the deleted entries is exactly what the total dropped by. */
  ghost predicate DeletionAccounted(before: Directory, after: Directory) {
    MapTotal(before) == MapTotal(after) + MapTotal(before - after.Keys)
  }

  /** The quota holds; only a negative limit, which no directory can meet,
      leaves it unmet, and then every entry was deleted trying to meet it. */
  ghost predicate WithinQuota(dir: Directory, limit: int) {
    MapTotal(dir) <= limit || (limit < 0 && dir == map[])
  }

  /** Deletion stopped at the first fit: before the most recently accessed
      deleted entry went, the total still exceeded the limit. */
  ghost predicate StopsAtFirstFit(before: Directory, after: Directory, limit: int) {
    after != before ==>
      exists d :: && d in before && d !in after
                  && (forall d' :: d' in before && d' !in after ==> AccessDate(before[d']) <= AccessDate(before[d]))
                  && MapTotal(after) + SizeOf(before[d]) > limit
  }

  /** A throw out of the loop names an undeletable file that is still there,
      at a point where the total still exceeded the limit. */
  ghost predicate FailedOnlyWhileOver(o: Outcome, limit: int, undeletable: set<Key>) {
    o.error.Some? ==>
      && o.error.value.RemoveFailed?
      && o.error.value.key in undeletable
      && o.error.value.key in o.dir
      && MapTotal(o.dir) > limit
  }

  /** Deleting the first `b` files of a listing takes exactly their sizes off
      the total. */
  lemma PrefixDeletionTotals(dir: Directory, order: seq<File>, b: nat)
    requires IsListing(dir, order)
    requires b <= |order|
    ensures MapTotal(dir - Names(order[..b])) == MapTotal(dir) - Sum(order[..b])
    ensures DeletionAccounted(dir, dir - Names(order[..b]))
  {
    var head, tail := order[..b], order[b..];
    var rest := dir - Names(head);
    ListingSplit(dir, order, b);
    ListingTotal(dir, order);
    ListingTotal(rest, tail);
    ListingTotal(dir - rest.Keys, head);
    assert order == head + tail;
    SumAppend(head, tail);
  }

  /** Deleting a prefix of a listing sorted oldest first deletes nothing
      accessed later than what it keeps. */
  lemma PrefixDeletionOldestFirst(dir: Directory, order: seq<File>, b: nat)
    requires IsListing(dir, order)
    requires SortedByAccess(order)
    requires b <= |order|
    ensures OldestFirst(dir, dir - Names(order[..b]))
  {
    var head := order[..b];
    var rest := dir - Names(head);
    forall d, s | d in dir && d !in rest && s in rest && s in dir
      ensures AccessDate(dir[d]) <= AccessDate(dir[s])
    {
      assert d in Names(head);
      var g :| g in head && g.name == d;
      var i :| 0 <= i < |head| && head[i] == g;
      assert order[i] == g;
      var h :| h in order && h.name == s;
      var j :| 0 <= j < |order| && order[j] == h;
    }
  }

  /** When the loop's last deletion was the `b`-th file, that file is a
      latest-accessed deleted one and the total still exceeded the limit just
      before it went. */
  lemma PrefixDeletionStopsAtFirstFit(dir: Directory, order: seq<File>, b: nat, limit: int)
    requires IsListing(dir, order)
    requires SortedByAccess(order)
    requires 1 <= b <= |order|
    requires MapTotal(dir) - Sum(order[..b - 1]) > limit
    ensures StopsAtFirstFit(dir, dir - Names(order[..b]), limit)
  {
    var head := order[..b];
    var rest := dir - Names(head);
    var last := order[b - 1];
    ListedEntry(dir, order, b - 1);
    assert head[b - 1] == last;
    assert last.name in Names(head);
    PrefixDeletionTotals(dir, order, b);
    LastPrefixSize(order, b);
    assert MapTotal(rest) + SizeOf(dir[last.name]) > limit;
    LastDeletedIsNewest(dir, order, b);
    assert last.name in dir && last.name !in rest;
  }

  /** Every file deleted with the first `b` files of an oldest-first listing
      was accessed no later than the `b`-th. */
  lemma LastDeletedIsNewest(dir: Directory, order: seq<File>, b: nat)
    requires IsListing(dir, order)
    requires SortedByAccess(order)
    requires 1 <= b <= |order|
    ensures order[b - 1].name in dir
    ensures forall d' :: d' in dir && d' !in dir - Names(order[..b]) ==>
              AccessDate(dir[d']) <= AccessDate(dir[order[b - 1].name])
  {
    ListedEntry(dir, order, b - 1);
    forall d' | d' in dir && d' !in dir - Names(order[..b])
      ensures AccessDate(dir[d']) <= AccessDate(dir[order[b - 1].name])
    {
      var i := PrefixIndex(dir, order, b, d');
    }
  }

  /** Each listed file carries the directory's entry for its name. */
  lemma ListedEntry(dir: Directory, order: seq<File>, i: nat)
    requires IsListing(dir, order)
    requires i < |order|
    ensures order[i].name in dir && dir[order[i].name] == order[i].entry
  {
    assert order[i] in order;
  }

  /** A name deleted with the first `b` files is the name of one of them. */
  lemma PrefixIndex(dir: Directory, order: seq<File>, b: nat, d: Key) returns (i: nat)
    requires IsListing(dir, order)
    requires b <= |order|
    requires d in dir && d !in dir - Names(order[..b])
    ensures i < b && order[i].name == d && dir[d] == order[i].entry
  {
    assert d in Names(order[..b]);
    var g :| g in order[..b] && g.name == d;
    i :| 0 <= i < b && order[..b][i] == g;
    ListedEntry(dir, order, i);
  }

  lemma LastPrefixSize(order: seq<File>, b: nat)
    requires 1 <= b <= |order|
    ensures Sum(order[..b]) == Sum(order[..b - 1]) + SizeOf(order[b - 1].entry)
  {
    assert order[..b] == order[..b - 1] + [order[b - 1]];
    SumAppend(order[..b - 1], [order[b - 1]]);
    assert Sum([order[b - 1]]) == SizeOf(order[b - 1].entry);
  }

  /** Deleting the whole listing empties the directory. */
  lemma WholeDeletionEmpties(dir: Directory, order: seq<File>)
    requires IsListing(dir, order)
    ensures dir - Names(order[..|order|]) == map[]
  {
    assert order[..|order|] == order;
    forall k | k in dir
      ensures k in Names(order)
    {
      var f :| f in order && f.name == k;
    }
    assert (dir - Names(order)).Keys == {};
  }

  /** The file after a deleted prefix is still in the directory. */
  lemma PrefixDeletionKeepsNext(dir: Directory, order: seq<File>, b: nat)
    requires IsListing(dir, order)
    requires b < |order|
    ensures order[b].name in dir - Names(order[..b])
  {
    assert order[b] in order;
    if order[b].name in Names(order[..b]) {
      var g :| g in order[..b] && g.name == order[b].name;
      var i :| 0 <= i < b && order[..b][i] == g;
      ListingNamesDistinct(dir, order, i, b);
    }
  }

  /** What the eviction loop guarantees when it walks a listing sorted oldest
      first, starting from the directory's true total. */
  lemma EvictionProperties(dir: Directory, order: seq<File>, limit: int, undeletable: set<Key>)
    requires IsListing(dir, order)
    requires SortedByAccess(order)
    ensures var o := Evict(dir, order, MapTotal(dir), limit, undeletable);
            && SubDirectory(o.dir, dir)
            && OldestFirst(dir, o.dir)
            && DeletionAccounted(dir, o.dir)
            && (o.error == None ==> WithinQuota(o.dir, limit))
            && StopsAtFirstFit(dir, o.dir, limit)
            && FailedOnlyWhileOver(o, limit, undeletable)
  {
    var total := MapTotal(dir);
    var n := StopIndex(order, total, limit);
    var b := FirstBlocked(order, n, undeletable);
    EvictDeletesPrefix(dir, order, total, limit, undeletable);
    var rest := dir - Names(order[..b]);
    var o := Evict(dir, order, total, limit, undeletable);
    assert o.dir == rest;
    PrefixDeletionTotals(dir, order, b);
    PrefixDeletionOldestFirst(dir, order, b);
    if b == 0 {
      NamesOfEmpty(dir, order);
    } else {
      assert total - Sum(order[..b - 1]) > limit;
      PrefixDeletionStopsAtFirstFit(dir, order, b, limit);
    }
    if b == n {
      assert o.error == None;
      if n == |order| {
        WholeDeletionEmpties(dir, order);
      } else {
        assert MapTotal(rest) <= limit;
      }
    } else {
      assert o.error == Some(RemoveFailed(order[b].name));
      PrefixDeletionKeepsNext(dir, order, b);
      assert MapTotal(rest) > limit;
    }
  }

  /** `enforceStorageLimit`: list the directory (throwing if it cannot), and
      if the total exceeds the limit, delete files oldest access first until
      it fits. */
  function EnforceStorageLimit(dir: Directory, files: seq<File>, limit: int, faults: FsFaults): (o: Outcome)
    requires IsListing(dir, files)
    ensures faults.listFails ==> o == Outcome(dir, Some(ListingFailed))
    ensures !faults.listFails && MapTotal(dir) <= limit ==> o == Outcome(dir, None)
    ensures SubDirectory(o.dir, dir)
    ensures OldestFirst(dir, o.dir)
    ensures DeletionAccounted(dir, o.dir)
    ensures o.error == None ==> WithinQuota(o.dir, limit)
    ensures StopsAtFirstFit(dir, o.dir, limit)
    ensures !faults.listFails ==> FailedOnlyWhileOver(o, limit, faults.undeletable)
  {
    assert dir - dir.Keys == map[];
    if faults.listFails then Outcome(dir, Some(ListingFailed))
    else
      var total := TotalCacheSize(dir, files, faults);
      if total <= limit then Outcome(dir, None)
      else
        var order := SortByAccess(files);
        ListingPermutation(dir, files, order);
        EvictionProperties(dir, order, limit, faults.undeletable);
        Evict(dir, order, total, limit, faults.undeletable)
  }

  // ---------------------------------------------------------------------
  // Store and retrieve
  // ---------------------------------------------------------------------

  /** The directory after `data.write(to:)` creates or replaces the file
      `key`. `stamp` is the access date the file system then reports for the
      file: the write time for a new file; for a file that already existed,
      a non-atomic write on a POSIX file system may leave its earlier access
      date in place, and `stamp` is that date. */
  function Written(dir: Directory, key: Key, data: Bytes, stamp: Date): (w: Directory)
    ensures w.Keys == dir.Keys + {key}
    ensures forall k :: k in dir && k != key ==> w[k] == dir[k]
    ensures w[key].data == data && SizeOf(w[key]) == |data| && AccessDate(w[key]) == stamp
  {
    dir[key := Entry(data, Some(|data|), Some(stamp))]
  }

  /** Writing a key that already exists replaces its file: the total counts
      the key once, with the new size. */
  lemma WriteCountsKeyOnce(dir: Directory, key: Key, data: Bytes, stamp: Date)
    ensures MapTotal(Written(dir, key, data, stamp)) == MapTotal(dir - {key}) + |data|
    ensures Written(dir, key, data, stamp).Keys == dir.Keys + {key}
  {
    var w := Written(dir, key, data, stamp);
    MapTotalRemove(w, key);
    assert w - {key} == dir - {key};
  }

  /** `store`: encode the image (throwing `failedToEncodeImage` and writing
      nothing when that fails), write it under `key`, then enforce the quota.
      `names` is the order in which the file system lists the directory after
      the write. */
  function Store(dir: Directory, key: Key, image: Image, encode: Image -> Option<Bytes>, stamp: Date,
                 names: seq<Key>, limit: int, faults: FsFaults): (o: Outcome)
    requires Enumerates(dir.Keys + {key}, names)
    ensures encode(image).None? ==> o == Outcome(dir, Some(FailedToEncodeImage))
    ensures encode(image).Some? && faults.writeFails ==> o == Outcome(dir, Some(WriteFailed(key)))
    ensures encode(image).Some? && !faults.writeFails ==>
              var w := Written(dir, key, encode(image).value, stamp);
              && (faults.listFails ==> o == Outcome(w, Some(ListingFailed)))
              && (!faults.listFails && MapTotal(w) <= limit ==> o == Outcome(w, None))
              && SubDirectory(o.dir, w)
              && OldestFirst(w, o.dir)
              && DeletionAccounted(w, o.dir)
              && StopsAtFirstFit(w, o.dir, limit)
              && (o.error == None ==> WithinQuota(o.dir, limit))
              && (!faults.listFails ==> FailedOnlyWhileOver(o, limit, faults.undeletable))
  {
    match encode(image)
    case None => Outcome(dir, Some(FailedToEncodeImage))
    case Some(data) =>
      if faults.writeFails then Outcome(dir, Some(WriteFailed(key)))
      else
        var w := Written(dir, key, data, stamp);
        EnforceStorageLimit(w, ListDirectory(w, names), limit, faults)
  }

  /** `retrieve`: the decoded image stored under `key`; `None`, never an
      error, when the file is missing, unreadable or does not decode. */
  function Retrieve(dir: Directory, key: Key, decode: Bytes -> Option<Image>, faults: FsFaults): (r: Option<Image>)
    ensures r.Some? ==> key in dir && key !in faults.unreadable && r == decode(dir[key].data)
    ensures key in dir && key !in faults.unreadable ==> r == decode(dir[key].data)
  {
    if key !in dir || key in faults.unreadable then None else decode(dir[key].data)
  }

  /** An entry accessed strictly later than every other one, and small
      enough to fit the quota on its own, survives the eviction. */
  lemma NewestEntrySurvives(w: Directory, files: seq<File>, limit: int, key: Key)
    requires IsListing(w, files)
    requires key in w && SizeOf(w[key]) <= limit
    requires forall k :: k in w && k != key ==> AccessDate(w[k]) < AccessDate(w[key])
    ensures var o := EnforceStorageLimit(w, files, limit, NoFaults);
            o.error == None && key in o.dir && o.dir[key] == w[key]
  {
    var o := EnforceStorageLimit(w, files, limit, NoFaults);
    assert FailedOnlyWhileOver(o, limit, {});
    assert o.error == None;
  }

  /** A store whose file fits the quota on its own, and whose recorded access
      date is later than every other file's, survives its own eviction, so
      retrieving it gives back the decoded stored bytes. */
  lemma NewestStoreSurvives(dir: Directory, key: Key, image: Image, encode: Image -> Option<Bytes>,
                            decode: Bytes -> Option<Image>, stamp: Date, names: seq<Key>, limit: int)
    requires Enumerates(dir.Keys + {key}, names)
    requires encode(image).Some? && |encode(image).value| <= limit
    requires forall k :: k in dir && k != key ==> AccessDate(dir[k]) < stamp
    ensures var o := Store(dir, key, image, encode, stamp, names, limit, NoFaults);
            && o.error == None
            && key in o.dir
            && Retrieve(o.dir, key, decode, NoFaults) == decode(encode(image).value)
  {
    var data := encode(image).value;
    var w := Written(dir, key, data, stamp);
    assert w.Keys == dir.Keys + {key};
    NewestEntrySurvives(w, ListDirectory(w, names), limit, key);
  }

  /** Quota 1024 bytes, an older 600-byte file A on disk, then a 600-byte
      image B stored: A is evicted and only B remains. */
  lemma TwoImagesOverQuota(keyA: Key, entryA: Entry, keyB: Key, image: Image, encode: Image -> Option<Bytes>,
                           stamp: Date, names: seq<Key>)
    requires keyA != keyB
    requires SizeOf(entryA) == 600 && AccessDate(entryA) < stamp
    requires encode(image).Some? && |encode(image).value| == 600
    requires Enumerates({keyA, keyB}, names)
    ensures var o := Store(map[keyA := entryA], keyB, image, encode, stamp, names, 1024, NoFaults);
            o.error == None && o.dir.Keys == {keyB}
  {
    var dir := map[keyA := entryA];
    var w := Written(dir, keyB, encode(image).value, stamp);
    var o := Store(dir, keyB, image, encode, stamp, names, 1024, NoFaults);
    assert dir.Keys + {keyB} == {keyA, keyB};
    NewestStoreSurvives(dir, keyB, image, encode, _ => None, stamp, names, 1024);
    assert SubDirectory(o.dir, w) && WithinQuota(o.dir, 1024);
    TwoEntryTotal(keyA, entryA, keyB, encode(image).value, stamp);
  }

  lemma TwoEntryTotal(keyA: Key, entryA: Entry, keyB: Key, data: Bytes, stamp: Date)
    requires keyA != keyB
    ensures MapTotal(Written(map[keyA := entryA], keyB, data, stamp)) == SizeOf(entryA) + |data|
  {
    var dir := map[keyA := entryA];
    WriteCountsKeyOnce(dir, keyB, data, stamp);
    assert dir - {keyB} == dir;
    MapTotalRemove(dir, keyA);
    assert (dir - {keyA}).Keys == {};
  }
}
