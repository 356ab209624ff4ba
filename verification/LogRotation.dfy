/** The rotating log writer: files prefix_1, prefix_2, ... in one directory, ordered by length and then
    by text, the oldest deleted when there are too many. */
module LogRotation {
  import opened Collections
  import opened TextOrder

  const DEFAULT_FILE_INDEX: nat := 1

  /** Name of the log file with an index; all paths share the directory in front of it. */
  function FileName(prefix: string, index: nat): string {
    prefix + "_" + ToDec(index)
  }

  predicate StartsWith(name: string, prefix: string) {
    |prefix| <= |name| && name[..|prefix|] == prefix
  }

  function FindLast(s: string, c: char): (r: int)
    ensures r == -1 <==> c !in s
    ensures r != -1 ==> 0 <= r < |s| && s[r] == c && c !in s[r + 1..]
  {
    if s == "" then -1
    else if s[|s| - 1] == c then |s| - 1
    else
      assert s == s[..|s| - 1] + [s[|s| - 1]];
      var r := FindLast(s[..|s| - 1], c);
      assert r != -1 ==> s[r + 1..] == s[..|s| - 1][r + 1..] + [s[|s| - 1]];
      r
  }

  function ParseIndex(path: string): nat {
    var underline := FindLast(path, '_');
    if path == "" || underline == -1 then DEFAULT_FILE_INDEX else ReadNumber(path[underline + 1..], DEFAULT_FILE_INDEX)
  }

  /** Parsing inverts building, whatever directory and prefix stand in front. */
  lemma ParseInvertsBuild(dir: string, prefix: string, index: nat)
    ensures ParseIndex(dir + FileName(prefix, index)) == index
  {
    var front, digits := dir + prefix, ToDec(index);
    var path := dir + FileName(prefix, index);
    assert path == front + "_" + digits;
    var r := FindLast(path, '_');
    assert path[|front|] == '_';
    assert path[|front| + 1..] == digits;
    assert forall i | |front| < i < |path| :: path[i] == digits[i - |front| - 1];
    assert '_' in path;
    assert r == |front|;
    LeadingDigitsAll(digits);
    FromToDec(index);
  }

  /** Order of paths is order of indices, and different indices have different paths. */
  lemma PathOrderIsIndexOrder(dir: string, prefix: string, m: nat, n: nat)
    ensures Shorter(dir + FileName(prefix, m), dir + FileName(prefix, n)) <==> m < n
    ensures FileName(prefix, m) == FileName(prefix, n) <==> m == n
  {
    var front := dir + (prefix + "_");
    assert dir + FileName(prefix, m) == front + ToDec(m) && dir + FileName(prefix, n) == front + ToDec(n);
    ShorterPrefix(front, ToDec(m), ToDec(n));
    ShorterIsSmaller(m, n);
    if FileName(prefix, m) == FileName(prefix, n) {
      assert FileName(prefix, m)[|prefix| + 1..] == ToDec(m) && FileName(prefix, n)[|prefix| + 1..] == ToDec(n);
    }
  }

  lemma NameOrder(prefix: string, m: nat, n: nat)
    ensures Shorter(FileName(prefix, m), FileName(prefix, n)) <==> m < n
    ensures FileName(prefix, m) == FileName(prefix, n) <==> m == n
    ensures StartsWith(FileName(prefix, m), prefix)
  {
    PathOrderIsIndexOrder("", prefix, m, n);
    assert "" + FileName(prefix, m) == FileName(prefix, m) && "" + FileName(prefix, n) == FileName(prefix, n);
  }

  /** A directory: the size of each file by name. */
  type Directory = map<string, nat>

  ghost predicate Indexed(name: string, prefix: string, indices: set<nat>) {
    exists i | i in indices :: name == FileName(prefix, i)
  }

  /** The files of a prefix are exactly those with an index in the set. */
  ghost predicate HoldsIndices(dir: Directory, prefix: string, indices: set<nat>) {
    forall name | StartsWith(name, prefix) :: name in dir <==> Indexed(name, prefix, indices)
  }

  lemma ShorterIsStrictTotal(s: set<string>)
    ensures StrictTotalOn(Shorter, s)
  {
    forall x, y ensures !Shorter(x, x) && (x != y ==> Shorter(x, y) || Shorter(y, x)) {
      ShorterTotal(x, y);
    }
    forall x, y, z | Shorter(x, y) && Shorter(y, z) ensures Shorter(x, z) {
      ShorterTransitive(x, y, z);
    }
  }

  function Own(dir: Directory, prefix: string): set<string> {
    set name | name in dir && StartsWith(name, prefix)
  }

  /** GetOrderedLogFileList. */
  method OrderedLogFiles(dir: Directory, prefix: string) returns (list: seq<string>)
    ensures IsSorting(list, Own(dir, prefix), Shorter)
  {
    var own := Own(dir, prefix);
    ShorterIsStrictTotal(own);
    list := Sort(own, Shorter);
  }

  // ---------- Sorted files and their indices ----------

  ghost predicate Ascending(order: seq<nat>) {
    forall i, j | 0 <= i < j < |order| :: order[i] < order[j]
  }

  ghost predicate NamesOf(list: seq<string>, prefix: string, order: seq<nat>) {
    |list| == |order| && forall j | 0 <= j < |order| :: list[j] == FileName(prefix, order[j])
  }

  lemma IndexListed(dir: Directory, prefix: string, indices: set<nat>, list: seq<string>, i: nat)
    requires HoldsIndices(dir, prefix, indices) && IsSorting(list, Own(dir, prefix), Shorter) && i in indices
    ensures FileName(prefix, i) in list
  {
    NameOrder(prefix, i, i);
    assert Indexed(FileName(prefix, i), prefix, indices);
    assert FileName(prefix, i) in Own(dir, prefix);
  }

  lemma ListedIndex(dir: Directory, prefix: string, indices: set<nat>, list: seq<string>, j: nat) returns (i: nat)
    requires HoldsIndices(dir, prefix, indices) && IsSorting(list, Own(dir, prefix), Shorter) && j < |list|
    ensures i in indices && list[j] == FileName(prefix, i)
  {
    assert list[j] in list && list[j] in Own(dir, prefix);
    i :| i in indices && list[j] == FileName(prefix, i);
  }

  lemma {:induction false} IndicesOf(dir: Directory, prefix: string, indices: set<nat>, list: seq<string>, n: nat)
    returns (order: seq<nat>)
    requires HoldsIndices(dir, prefix, indices) && IsSorting(list, Own(dir, prefix), Shorter) && n <= |list|
    ensures NamesOf(list[..n], prefix, order) && forall i | i in order :: i in indices
  {
    order := [];
    if n > 0 {
      var before := IndicesOf(dir, prefix, indices, list, n - 1);
      var i := ListedIndex(dir, prefix, indices, list, n - 1);
      order := before + [i];
      assert forall j | 0 <= j < n - 1 :: list[..n][j] == list[..n - 1][j];
    }
  }

  lemma NamesAscend(list: seq<string>, prefix: string, order: seq<nat>)
    requires SortedBy(list, Shorter) && NamesOf(list, prefix, order)
    ensures Ascending(order)
  {
    forall i, j | 0 <= i < j < |order| ensures order[i] < order[j] {
      assert Shorter(list[i], list[j]);
      NameOrder(prefix, order[i], order[j]);
    }
  }

  /** The sorted files are the files of the indices in ascending order. */
  lemma SortedIndices(dir: Directory, prefix: string, indices: set<nat>, list: seq<string>) returns (order: seq<nat>)
    requires HoldsIndices(dir, prefix, indices) && IsSorting(list, Own(dir, prefix), Shorter)
    ensures Ascending(order) && NamesOf(list, prefix, order) && forall i :: i in order <==> i in indices
  {
    order := IndicesOf(dir, prefix, indices, list, |list|);
    assert list[..|list|] == list;
    NamesAscend(list, prefix, order);
    forall i | i in indices ensures i in order {
      IndexListed(dir, prefix, indices, list, i);
      var j :| 0 <= j < |list| && list[j] == FileName(prefix, i);
      NameOrder(prefix, order[j], i);
    }
  }

  lemma ParseName(prefix: string, index: nat)
    ensures ParseIndex(FileName(prefix, index)) == index
  {
    ParseInvertsBuild("", prefix, index);
    assert "" + FileName(prefix, index) == FileName(prefix, index);
  }

  lemma LastOfAscending(order: seq<nat>, indices: set<nat>)
    requires Ascending(order) && forall i :: i in order <==> i in indices
    ensures order == [] <==> indices == {}
    ensures order != [] ==> order[|order| - 1] in indices && forall i | i in indices :: i <= order[|order| - 1]
  {
    if order == [] {
      assert forall i :: i !in indices;
    } else {
      assert order[|order| - 1] in order;
      forall i | i in indices ensures i <= order[|order| - 1] {
        assert i in order;
      }
    }
  }

  /** The last of the ordered files has the highest index, which parsing its name yields. */
  lemma LastIsHighest(dir: Directory, prefix: string, indices: set<nat>, list: seq<string>)
    requires HoldsIndices(dir, prefix, indices) && IsSorting(list, Own(dir, prefix), Shorter)
    ensures list == [] <==> indices == {}
    ensures list != [] ==>
              var top := ParseIndex(list[|list| - 1]);
              top in indices && FileName(prefix, top) in dir && forall i | i in indices :: i <= top
  {
    var order := SortedIndices(dir, prefix, indices, list);
    LastOfAscending(order, indices);
    if list != [] {
      ParseName(prefix, order[|order| - 1]);
      LastPresent(dir, prefix, list);
    }
  }

  lemma LastPresent(dir: Directory, prefix: string, list: seq<string>)
    requires IsSorting(list, Own(dir, prefix), Shorter) && list != []
    ensures list[|list| - 1] in dir
  {
    assert list[|list| - 1] in list;
    assert list[|list| - 1] in Own(dir, prefix);
  }

  // ---------- The newest indices ----------

  function Above(indices: set<nat>, i: nat): set<nat> {
    set j | j in indices && j > i
  }

  /** The `max` highest indices: those with fewer than `max` above them. */
  function Newest(indices: set<nat>, max: nat): set<nat> {
    set i | i in indices && |Above(indices, i)| < max
  }

  function Elements(order: seq<nat>): set<nat> {
    set i | i in order
  }

  lemma {:induction false} AscendingSize(order: seq<nat>)
    requires Ascending(order)
    ensures |Elements(order)| == |order|
  {
    if order != [] {
      var before, last := order[..|order| - 1], order[|order| - 1];
      AscendingSize(before);
      assert Elements(order) == Elements(before) + {last};
      assert last !in before;
    }
  }

  lemma AboveIsSuffix(order: seq<nat>, indices: set<nat>, j: nat)
    requires Ascending(order) && (forall i :: i in order <==> i in indices) && j < |order|
    ensures |Above(indices, order[j])| == |order| - j - 1
  {
    var suffix := order[j + 1..];
    forall i ensures i in suffix <==> i in Above(indices, order[j]) {
      if i in Above(indices, order[j]) {
        assert i in order;
        var p :| 0 <= p < |order| && order[p] == i;
        assert suffix[p - j - 1] == i;
      }
    }
    assert Elements(suffix) == Above(indices, order[j]);
    AscendingSize(suffix);
  }

  /** In ascending order, the newest are what is left after cutting off all but `max`. */
  lemma NewestIsSuffix(order: seq<nat>, indices: set<nat>, max: nat, cut: nat)
    requires Ascending(order) && (forall i :: i in order <==> i in indices)
    requires cut == if |order| > max then |order| - max else 0
    ensures forall i :: i in order[cut..] <==> i in Newest(indices, max)
  {
    forall i ensures i in order[cut..] <==> i in Newest(indices, max) {
      if i in indices {
        assert i in order;
        var j :| 0 <= j < |order| && order[j] == i;
        AboveIsSuffix(order, indices, j);
        assert j >= cut ==> order[cut..][j - cut] == i;
      }
    }
  }

  lemma NewestSplit(indices: set<nat>, max: nat, i: nat, j: nat)
    requires i in Newest(indices, max) && j in indices && j !in Newest(indices, max)
    ensures j < i
  {
    if j >= i {
      SubsetSize(Above(indices, j), Above(indices, i));
    }
  }

  /** Listing any set of numbers in ascending order. */
  lemma {:induction false} AscendingOrder(indices: set<nat>) returns (order: seq<nat>)
    ensures Ascending(order) && forall i :: i in order <==> i in indices
    decreases |indices|
  {
    order := [];
    if indices != {} {
      var top := Highest(indices);
      var before := AscendingOrder(indices - {top});
      order := before + [top];
      forall k | 0 <= k < |before| ensures before[k] < top {
        assert before[k] in before;
      }
    }
  }

  lemma {:induction false} Highest(indices: set<nat>) returns (top: nat)
    requires indices != {}
    ensures top in indices && forall i | i in indices :: i <= top
    decreases |indices|
  {
    var x :| x in indices;
    top := x;
    var rest := indices - {x};
    if rest != {} {
      var t := Highest(rest);
      top := if t > x then t else x;
    }
    forall i | i in indices ensures i <= top {
      assert i == x || i in rest;
    }
  }

  /** Exactly min(count, max) indices are kept, all of them higher than all that are not, and the current
      one, which is the highest, among them as long as any file may be kept at all. */
  lemma KeepsNewest(indices: set<nat>, max: nat)
    ensures |Newest(indices, max)| == if |indices| <= max then |indices| else max
    ensures forall i, j | i in Newest(indices, max) && j in indices && j !in Newest(indices, max) :: j < i
    ensures forall t | t in indices && (forall i | i in indices :: i <= t) :: t in Newest(indices, max) <==> max > 0
  {
    var order := AscendingOrder(indices);
    var cut := if |order| > max then |order| - max else 0;
    assert Elements(order) == indices;
    AscendingSize(order);
    NewestIsSuffix(order, indices, max, cut);
    assert Elements(order[cut..]) == Newest(indices, max);
    AscendingSize(order[cut..]);
    forall i, j | i in Newest(indices, max) && j in indices && j !in Newest(indices, max) ensures j < i {
      NewestSplit(indices, max, i, j);
    }
    forall t | t in indices && (forall i | i in indices :: i <= t) ensures t in Newest(indices, max) <==> max > 0 {
      assert Above(indices, t) == {};
    }
  }

  ghost predicate IsRange(indices: set<nat>, lo: nat, hi: nat) {
    forall i: nat :: i in indices <==> lo <= i <= hi
  }

  lemma {:induction false} RangeSize(indices: set<nat>, lo: nat, hi: nat)
    requires IsRange(indices, lo, hi) && lo <= hi + 1
    ensures |indices| == hi + 1 - lo
    decreases hi + 1 - lo
  {
    if lo <= hi {
      assert lo in indices;
      RangeSize(indices - {lo}, lo + 1, hi);
    } else {
      assert forall i :: i !in indices;
      assert indices == {};
    }
  }

  /** What is kept of a run of indices without gaps is again one, with the same end. */
  lemma RangeStaysRange(indices: set<nat>, lo: nat, hi: nat, max: nat)
    requires IsRange(indices, lo, hi) && lo <= hi
    ensures IsRange(Newest(indices, max), if hi + 1 - lo > max then hi + 1 - max else lo, hi)
  {
    forall i: nat | lo <= i <= hi ensures |Above(indices, i)| == hi - i {
      RangeSize(Above(indices, i), i + 1, hi);
    }
  }

  // ---------- Sequences of writes ----------

  lemma NewestKeepsTop(indices: set<nat>, top: nat, max: nat)
    requires forall i | i in indices :: i < top
    ensures top in Newest(indices + {top}, max) <==> max > 0
  {
    assert Above(indices + {top}, top) == {};
  }

  lemma AboveWithTop(indices: set<nat>, top: nat, i: nat)
    requires i < top && forall j | j in indices :: j < top
    ensures |Above(indices + {top}, i)| == |Above(indices, i)| + 1
  {
    assert Above(indices + {top}, i) == Above(indices, i) + {top};
  }

  /** Above an index that is kept, nothing was dropped. */
  lemma AboveKept(indices: set<nat>, max: nat, i: nat)
    requires i in Newest(indices, max)
    ensures Above(Newest(indices, max), i) == Above(indices, i)
  {
    forall j | j in Above(indices, i) ensures j in Newest(indices, max) {
      SubsetSize(Above(indices, j), Above(indices, i));
    }
  }

  /** Dropping early makes no difference: the newest after a further index are the newest of all. */
  lemma NewestOfNewest(indices: set<nat>, top: nat, max: nat)
    requires forall i | i in indices :: i < top
    ensures Newest(Newest(indices, max) + {top}, max) == Newest(indices + {top}, max)
  {
    var kept := Newest(indices, max);
    NewestKeepsTop(indices, top, max);
    NewestKeepsTop(kept, top, max);
    forall i | i in indices ensures i in Newest(kept + {top}, max) <==> i in Newest(indices + {top}, max) {
      AboveWithTop(indices, top, i);
      if i in kept {
        AboveWithTop(kept, top, i);
        AboveKept(indices, max, i);
      }
    }
  }

  /** The indices kept by one write, given whether it rotates to the next index. */
  function KeptBy(indices: set<nat>, rotates: bool, next: nat, max: nat): set<nat> {
    if rotates then Newest(indices + {next}, max) else indices
  }

  /** What `Write` promises about the files of a prefix, whatever their indices. */
  ghost predicate Wrote(prefix: string, max: nat, dir: Directory, cur: nat, dir': Directory, cur': nat) {
    && (cur' == cur || cur' == cur + 1)
    && forall indices: set<nat> | HoldsIndices(dir, prefix, indices) && (forall i | i in indices :: i <= cur) ::
         HoldsIndices(dir', prefix, KeptBy(indices, cur' == cur + 1, cur', max))
  }

  lemma SameIndices(dir: Directory, prefix: string, a: set<nat>, b: set<nat>)
    requires HoldsIndices(dir, prefix, a) && HoldsIndices(dir, prefix, b)
    ensures a <= b
  {
    forall i | i in a ensures i in b {
      var name := FileName(prefix, i);
      NameOrder(prefix, i, i);
      assert Indexed(name, prefix, a);
      var j :| j in b && name == FileName(prefix, j);
      NameOrder(prefix, i, j);
    }
  }

  lemma WroteFrom(prefix: string, max: nat, dir: Directory, cur: nat, indices: set<nat>, dir': Directory, cur': nat)
    requires HoldsIndices(dir, prefix, indices) && (cur' == cur || cur' == cur + 1)
    requires HoldsIndices(dir', prefix, KeptBy(indices, cur' == cur + 1, cur', max))
    ensures Wrote(prefix, max, dir, cur, dir', cur')
  {
    forall other: set<nat> | HoldsIndices(dir, prefix, other) ensures other == indices {
      SameIndices(dir, prefix, other, indices);
      SameIndices(dir, prefix, indices, other);
    }
  }

  /** Writes one after the other: the directory and the current index before each of them. */
  datatype Writes = Writes(dirs: seq<Directory>, curs: seq<nat>)

  ghost predicate WroteAt(w: Writes, prefix: string, max: nat, i: nat)
    requires |w.dirs| == |w.curs| && i + 1 < |w.dirs|
  {
    Wrote(prefix, max, w.dirs[i], w.curs[i], w.dirs[i + 1], w.curs[i + 1])
  }

  ghost predicate ValidWrites(w: Writes, prefix: string, max: nat) {
    && |w.dirs| == |w.curs| && w.dirs != []
    && forall i | 0 <= i < |w.dirs| - 1 :: WroteAt(w, prefix, max, i)
  }

  /** The indices used between two points: those opened by rotations. */
  function Opened(from: nat, to: nat): (r: set<nat>)
    ensures forall i :: i in r <==> from < i <= to
  {
    if to <= from then {} else Opened(from, to - 1) + {to}
  }

  /** All indices ever used, and those that are left of them. */
  ghost predicate LeftOf(w: Writes, prefix: string, max: nat, indices: set<nat>, k: nat)
    requires |w.dirs| == |w.curs| && k < |w.dirs| && w.dirs != []
  {
    var used := indices + Opened(w.curs[0], w.curs[k]);
    && w.curs[0] <= w.curs[k] && (forall i | i in used :: i <= w.curs[k])
    && HoldsIndices(w.dirs[k], prefix, if w.curs[k] == w.curs[0] then indices else Newest(used, max))
  }

  lemma RotationOpens(from: nat, to: nat)
    requires from <= to
    ensures Opened(from, to + 1) == Opened(from, to) + {to + 1}
  {
  }

  lemma LeftOfStep(w: Writes, prefix: string, max: nat, indices: set<nat>, k: nat)
    requires ValidWrites(w, prefix, max) && k + 1 < |w.dirs| && LeftOf(w, prefix, max, indices, k)
    ensures LeftOf(w, prefix, max, indices, k + 1)
  {
    var used := indices + Opened(w.curs[0], w.curs[k]);
    var kept := if w.curs[k] == w.curs[0] then indices else Newest(used, max);
    assert WroteAt(w, prefix, max, k);
    assert forall i | i in kept :: i in used;
    var next := w.curs[k + 1];
    if next == w.curs[k] + 1 {
      RotationOpens(w.curs[0], w.curs[k]);
      assert indices + Opened(w.curs[0], next) == used + {next};
      if w.curs[k] == w.curs[0] {
        assert used == indices;
      } else {
        NewestOfNewest(used, next, max);
      }
    }
  }

  /** After any sequence of writes with at least one rotation, the files kept are those of the highest
      fileMaxCnt of all indices ever used; without a rotation nothing is deleted. */
  lemma {:induction false} WritesKeepNewest(w: Writes, prefix: string, max: nat, indices: set<nat>, k: nat)
    requires ValidWrites(w, prefix, max) && k < |w.dirs|
    requires HoldsIndices(w.dirs[0], prefix, indices) && forall i | i in indices :: i <= w.curs[0]
    ensures LeftOf(w, prefix, max, indices, k)
  {
    if k > 0 {
      WritesKeepNewest(w, prefix, max, indices, k - 1);
      LeftOfStep(w, prefix, max, indices, k - 1);
    } else {
      assert indices + Opened(w.curs[0], w.curs[0]) == indices;
    }
  }

  // ---------- The writer ----------

  class LogFileWriter {
    const prefix: string
    const fileMaxCnt: nat
    const singleFileMaxSize: nat
    var dir: Directory
    var curFileIndex: nat
    var curFileSize: nat

    /** The files of this writer are those with the given indices, none beyond the current one. */
    ghost predicate Holds(indices: set<nat>)
      reads this
    {
      HoldsIndices(dir, prefix, indices) && forall i | i in indices :: i <= curFileIndex
    }

    /** A restart resumes at the highest index found, whatever gaps there are, or starts at the default
        index if there is none. */
    constructor (prefix: string, fileMaxCnt: nat, singleFileMaxSize: nat, dir: Directory, ghost indices: set<nat>)
      requires HoldsIndices(dir, prefix, indices)
      ensures this.prefix == prefix && this.fileMaxCnt == fileMaxCnt && this.singleFileMaxSize == singleFileMaxSize
      ensures indices != {} ==> curFileIndex in indices && Holds(indices) && this.dir == dir
      ensures indices == {} ==> curFileIndex == DEFAULT_FILE_INDEX && Holds({DEFAULT_FILE_INDEX})
      ensures FileName(prefix, curFileIndex) in this.dir && curFileSize == this.dir[FileName(prefix, curFileIndex)]
    {
      this.prefix, this.fileMaxCnt, this.singleFileMaxSize := prefix, fileMaxCnt, singleFileMaxSize;
      var list := OrderedLogFiles(dir, prefix);
      var index := DEFAULT_FILE_INDEX;
      if |list| > 0 {
        index := ParseIndex(list[|list| - 1]);
      }
      LastIsHighest(dir, prefix, indices, list);
      var name := FileName(prefix, index);
      this.dir := if name in dir then dir else dir[name := 0];
      curFileIndex := index;
      curFileSize := if name in dir then dir[name] else 0;
      new;
      if indices == {} {
        OpenAdds(dir, prefix, indices, DEFAULT_FILE_INDEX);
        assert indices + {DEFAULT_FILE_INDEX} == {DEFAULT_FILE_INDEX};
      }
    }

    method ResetLogFileStreamByFileIndex(index: nat)
      modifies this
      ensures curFileIndex == index
      ensures var name := FileName(prefix, index);
              && dir == (if name in old(dir) then old(dir) else old(dir)[name := 0])
              && curFileSize == dir[name]
    {
      curFileIndex := index;
      var name := FileName(prefix, index);
      if name !in dir {
        dir := dir[name := 0];
      }
      curFileSize := dir[name];
    }

    /** Deletes the oldest files until at most fileMaxCnt are left. */
    method DeleteOutNumberLogFiles(ghost indices: set<nat>)
      requires Holds(indices)
      modifies this`dir
      ensures Holds(Newest(indices, fileMaxCnt))
      ensures forall name | name in dir :: name in old(dir) && dir[name] == old(dir)[name]
      ensures forall name | name in old(dir) && !StartsWith(name, prefix) :: name in dir
    {
      var list := OrderedLogFiles(dir, prefix);
      ghost var order := SortedIndices(dir, prefix, indices, list);
      assert Elements(order[0..]) == indices;
      var k := 0;
      while |list| - k > fileMaxCnt
        invariant 0 <= k <= |list|
        invariant |list| - k >= fileMaxCnt || k == 0
        invariant HoldsIndices(dir, prefix, Elements(order[k..]))
        invariant forall name | name in dir :: name in old(dir) && dir[name] == old(dir)[name]
        invariant forall name | name in old(dir) && !StartsWith(name, prefix) :: name in dir
      {
        NameOrder(prefix, order[k], order[k]);
        RemoveFirst(dir, prefix, order, k);
        dir := dir - {list[k]};
        k := k + 1;
      }
      NewestIsSuffix(order, indices, fileMaxCnt, k);
      assert Elements(order[k..]) == Newest(indices, fileMaxCnt);
    }

    /** The files kept are those of the newest fileMaxCnt indices, or all if there are fewer; the current
        index moves on by one exactly when the text does not fit. The text goes to the current file,
        counted without its line end, and no other file changes. A current file that was deleted, which
        happens only if no file may be kept, takes the text with it. */
    method Write(size: nat, ghost indices: set<nat>)
      requires Holds(indices)
      modifies this
      ensures Wrote(prefix, fileMaxCnt, old(dir), old(curFileIndex), dir, curFileIndex)
      ensures var rotated := old(curFileSize) + size > singleFileMaxSize;
              var name := FileName(prefix, curFileIndex);
              && curFileIndex == old(curFileIndex) + (if rotated then 1 else 0)
              && Holds(KeptBy(indices, rotated, curFileIndex, fileMaxCnt))
              && curFileSize == size + (if rotated then 0 else old(curFileSize))
              && (name in dir && !rotated ==> name in old(dir) && dir[name] == old(dir)[name] + size + 1)
              && (name in dir && rotated ==> dir[name] == size + 1)
              && (forall n | n in dir && n != name :: n in old(dir) && dir[n] == old(dir)[n])
              && (forall n | n in old(dir) && !StartsWith(n, prefix) :: n in dir && n != name)
    {
      NameOrder(prefix, curFileIndex, curFileIndex);
      if curFileSize + size > singleFileMaxSize {
        NextIsNew(dir, prefix, indices, curFileIndex + 1);
        OpenAdds(dir, prefix, indices, curFileIndex + 1);
        ResetLogFileStreamByFileIndex(curFileIndex + 1);
        DeleteOutNumberLogFiles(indices + {curFileIndex});
      }
      var name := FileName(prefix, curFileIndex);
      if name in dir {
        // the text and a line end
        dir := dir[name := dir[name] + size + 1];
      }
      curFileSize := curFileSize + size;
      WroteFrom(prefix, fileMaxCnt, old(dir), old(curFileIndex), indices, dir, curFileIndex);
    }
  }

  lemma NextIsNew(dir: Directory, prefix: string, indices: set<nat>, next: nat)
    requires HoldsIndices(dir, prefix, indices) && forall i | i in indices :: i < next
    ensures FileName(prefix, next) !in dir && StartsWith(FileName(prefix, next), prefix)
  {
    var name := FileName(prefix, next);
    NameOrder(prefix, next, next);
    if Indexed(name, prefix, indices) {
      var i :| i in indices && name == FileName(prefix, i);
      NameOrder(prefix, i, next);
    }
  }

  lemma OpenAdds(dir: Directory, prefix: string, indices: set<nat>, index: nat)
    requires HoldsIndices(dir, prefix, indices)
    ensures var name := FileName(prefix, index);
            HoldsIndices(if name in dir then dir else dir[name := 0], prefix, indices + {index})
  {
    var name := FileName(prefix, index);
    NameOrder(prefix, index, index);
    forall n ensures Indexed(n, prefix, indices + {index}) <==> Indexed(n, prefix, indices) || n == name {
      assert index in indices + {index};
    }
  }

  lemma RemoveIndex(dir: Directory, prefix: string, indices: set<nat>, index: nat)
    requires HoldsIndices(dir, prefix, indices)
    ensures HoldsIndices(dir - {FileName(prefix, index)}, prefix, indices - {index})
  {
    var name := FileName(prefix, index);
    forall n ensures Indexed(n, prefix, indices - {index}) <==> Indexed(n, prefix, indices) && n != name {
      if Indexed(n, prefix, indices - {index}) {
        var i :| i in indices - {index} && n == FileName(prefix, i);
        NameOrder(prefix, i, index);
      }
    }
  }

  lemma RemoveFirst(dir: Directory, prefix: string, order: seq<nat>, k: nat)
    requires Ascending(order) && k < |order| && HoldsIndices(dir, prefix, Elements(order[k..]))
    ensures HoldsIndices(dir - {FileName(prefix, order[k])}, prefix, Elements(order[k + 1..]))
  {
    RemoveIndex(dir, prefix, Elements(order[k..]), order[k]);
    assert order[k..] == [order[k]] + order[k + 1..];
    assert Elements(order[k..]) - {order[k]} == Elements(order[k + 1..]);
  }
}
