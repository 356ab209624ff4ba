/** Export files: names made of a prefix, a 14-digit date, an optional running number and an extension;
    each new name sorts after all existing ones and the oldest files make room for it. */
module ExportFiles {
  import opened Collections
  import opened StringSearch
  import opened TextOrder

  const FORMAT_DATE_LEN: nat := 14
  const INT_RANGE: int := 0x1_0000_0000
  const INT_MAX: int := 0x7fff_ffff
  const LONG_MAX: int := 0x7fff_ffff_ffff_ffff

  function GetRightSubstr(input: string, split: string): string {
    var pos := Find(input, split);
    if pos == NPOS then "none" else input[pos + |split|..]
  }

  /** GetTimeFromFileName without a pid: what follows the first occurrence of the prefix in the path. */
  function TimeOf(path: string, prefix: string): string {
    GetRightSubstr(path, prefix)
  }

  predicate FileBefore(prefix: string, a: string, b: string) {
    DateOrder(TimeOf(a, prefix), TimeOf(b, prefix), FORMAT_DATE_LEN)
  }

  function Int32(v: int): int {
    var r := v % INT_RANGE;
    if r > INT_MAX then r - INT_RANGE else r
  }

  /** StrToInt: -1 unless the whole text is a number that fits in a long, which is then cut to an int. */
  function StrToInt(s: string): int {
    if s == "" then -1
    else
      var body := if s[0] == '-' then s[1..] else s;
      if body == "" || !AllDigits(body) then -1
      else
        var v: int := if s[0] == '-' then -(FromDec(body) as int) else FromDec(body);
        if -LONG_MAX - 1 <= v <= LONG_MAX then Int32(v) else -1
  }

  function GetFileNameNum(fileName: string, ext: string): int {
    var startPos := Find(fileName, "_");
    var endPos := Find(fileName, ext);
    if startPos == NPOS || endPos == NPOS || endPos <= startPos + 1 then 0
    else StrToInt(fileName[startPos + 1..endPos])
  }

  // ---------- Names ----------

  /** Fourteen digits in a row begin at q. */
  predicate DigitsAt(s: string, q: int) {
    0 <= q <= |s| - FORMAT_DATE_LEN && AllDigits(s[q..q + FORMAT_DATE_LEN])
  }

  /** Nothing in s could be read as a date. */
  ghost predicate Dateless(s: string) {
    forall q :: !DigitsAt(s, q)
  }

  ghost predicate BeforeDate(front: string) {
    Dateless(front) && (front == "" || !IsDigit(front[|front| - 1]))
  }

  ghost predicate AfterDate(ext: string) {
    Dateless(ext) && ext != "" && !IsDigit(ext[0]) && ext[0] != '_'
  }

  /** Directory (with its delimiter), prefix and extension of the exports. */
  datatype Place = Place(base: string, prefix: string, ext: string)
  {
    function Front(): string {
      base + prefix
    }

    /** The prefix does not occur earlier in the path. */
    ghost predicate Findable() {
      Find(base + prefix, prefix) == |base|
    }

    /** Also, nothing but the date can be read as a date, neither before nor after it, and the extension
        cannot be taken for a number. */
    ghost predicate Clean() {
      Findable() && BeforeDate(Front()) && AfterDate(ext)
    }

    function Path(date: string, k: nat): string {
      Front() + Key(date, k, ext)
    }
  }

  function Key(date: string, k: nat, ext: string): string {
    date + Number(k) + ext
  }

  function Number(k: nat): string {
    if k == 0 then "" else "_" + ToDec(k)
  }

  predicate IsDate(date: string) {
    |date| == FORMAT_DATE_LEN && AllDigits(date)
  }

  lemma TimeOfPath(place: Place, rest: string)
    requires place.Findable()
    ensures TimeOf(place.Front() + rest, place.prefix) == rest
  {
    var front, prefix := place.Front(), place.prefix;
    var path := front + rest;
    assert path[|place.base|..|front|] == prefix;
    forall k | 0 <= k < |place.base| ensures !OccursAt(path, prefix, k) {
      assert path[k..k + |prefix|] == front[k..k + |prefix|];
      assert !OccursAt(front, prefix, k);
    }
    FindIs(path, prefix, |place.base|);
    assert path[|front|..] == rest;
  }

  lemma OccursHead(s: string, pat: string)
    requires pat != ""
    ensures forall k | OccursAt(s, pat, k) :: s[k] == pat[0]
  {
    forall k | OccursAt(s, pat, k) ensures s[k] == pat[0] {
      assert s[k..k + |pat|][0] == s[k];
    }
  }

  /** The first occurrence of a text whose first character does not occur before it. */
  lemma FindAfter(body: string, pat: string, tail: string)
    requires pat != "" && pat[0] !in body
    ensures Find(body + pat + tail, pat) == |body|
  {
    var s := body + pat + tail;
    OccursHead(s, pat);
    assert s[|body|..|body| + |pat|] == pat;
    assert forall k | 0 <= k < |body| :: s[k] == body[k] && body[k] in body;
    FindIs(s, pat, |body|);
  }

  lemma UnnumberedReadBack(date: string, ext: string)
    requires IsDate(date) && ext != "" && !IsDigit(ext[0])
    ensures GetFileNameNum(date + ext, ext) == 0
  {
    var name := date + ext;
    FindAfter(date, ext, "");
    assert date + ext + "" == name;
    OccursHead(name, "_");
    assert forall i | 0 <= i < |date| :: name[i] == date[i];
  }

  lemma NumberedReadBack(date: string, digits: string, ext: string)
    requires IsDate(date) && digits != "" && AllDigits(digits) && ext != "" && !IsDigit(ext[0]) && ext[0] != '_'
    ensures GetFileNameNum(date + "_" + digits + ext, ext) == StrToInt(digits)
  {
    var name, body := date + "_" + digits + ext, date + "_" + digits;
    assert forall i | 0 <= i < |body| :: IsDigit(body[i]) || body[i] == '_';
    FindAfter(body, ext, "");
    assert body + ext + "" == name;
    FindAfter(date, "_", digits + ext);
    assert date + "_" + (digits + ext) == name;
    assert name[|date| + 1..|body|] == digits;
  }

  lemma KeyNumbered(date: string, k: nat, ext: string)
    requires k > 0
    ensures Key(date, k, ext) == date + "_" + ToDec(k) + ext
    ensures Key(date, k, ext) == date + "_" + (ToDec(k) + ext)
  {
    var d := ToDec(k);
    Assoc(date, "_", d);
    Assoc(date + "_", d, ext);
  }

  lemma StrToIntOfNumeral(k: nat)
    requires k <= INT_MAX
    ensures StrToInt(ToDec(k)) == k
  {
    FromToDec(k);
    assert ToDec(k)[0] != '-';
  }

  /** The running number is read back from a name. */
  lemma NumberReadBack(date: string, k: nat, ext: string)
    requires IsDate(date) && ext != "" && !IsDigit(ext[0]) && ext[0] != '_' && k <= INT_MAX
    ensures GetFileNameNum(Key(date, k, ext), ext) == k
  {
    if k == 0 {
      UnnumberedReadBack(date, ext);
      assert Key(date, k, ext) == date + ext;
    } else {
      KeyNumbered(date, k, ext);
      NumberedReadBack(date, ToDec(k), ext);
      StrToIntOfNumeral(k);
    }
  }

  function Pow10(d: nat): nat {
    if d == 0 then 1 else 10 * Pow10(d - 1)
  }

  lemma {:induction false} NumeralLength(n: nat, d: nat)
    requires d >= 1 && n < Pow10(d)
    ensures |ToDec(n)| <= d
  {
    if n >= 10 {
      assert d > 1;
      NumeralLength(n / 10, d - 1);
    }
  }

  lemma IntHasTenDigits(k: nat)
    requires k <= INT_MAX
    ensures |ToDec(k)| <= 10
  {
    assert Pow10(5) == 100_000;
    assert Pow10(10) == 10_000_000_000;
    NumeralLength(k, 10);
  }

  lemma DigitsInside(s: string, q: int, i: int)
    requires DigitsAt(s, q) && q <= i < q + FORMAT_DATE_LEN
    ensures IsDigit(s[i])
  {
    assert s[q..q + FORMAT_DATE_LEN][i - q] == s[i];
  }

  lemma DigitsInPart(a: string, s: string, c: string, q: int)
    ensures |a| <= q <= |a| + |s| - FORMAT_DATE_LEN ==> DigitsAt(a + s + c, q) == DigitsAt(s, q - |a|)
  {
    if |a| <= q <= |a| + |s| - FORMAT_DATE_LEN {
      assert (a + s + c)[q..q + FORMAT_DATE_LEN] == s[q - |a|..q - |a| + FORMAT_DATE_LEN];
    }
  }

  /** No date can be read that begins before the place of the date. */
  lemma NotBeforeDate(front: string, rest: string, q: int)
    requires BeforeDate(front) && q < |front|
    ensures !DigitsAt(front + rest, q)
  {
    DigitsInPart("", front, rest, q);
    assert "" + front + rest == front + rest;
    if DigitsAt(front + rest, q) && q + FORMAT_DATE_LEN > |front| {
      DigitsInside(front + rest, q, |front| - 1);
    }
  }

  /** None begins in the rest of the date or in what follows it. */
  lemma NotAfterDate(date: string, k: nat, ext: string, q: int)
    requires IsDate(date) && k <= INT_MAX && AfterDate(ext) && 0 < q
    ensures !DigitsAt(Key(date, k, ext), q)
  {
    var key, n := Key(date, k, ext), Number(k);
    var b := |date| + |n|;
    IntHasTenDigits(k);
    assert n != "" ==> key[|date|] == '_';
    assert key[b] == ext[0];
    DigitsInPart(date + n, ext, "", q);
    assert date + n + ext + "" == key;
    if DigitsAt(key, q) && q <= b {
      DigitsInside(key, q, if q <= |date| then |date| else b);
    }
  }

  lemma NotBehindDate(front: string, date: string, k: nat, ext: string, q: int)
    requires IsDate(date) && k <= INT_MAX && AfterDate(ext) && |front| < q
    ensures !DigitsAt(front + Key(date, k, ext), q)
  {
    var key := Key(date, k, ext);
    NotAfterDate(date, k, ext, q - |front|);
    DigitsInPart(front, key, "", q);
    assert front + key + "" == front + key;
  }

  /** The only run of fourteen digits in a path is its date. */
  lemma OnlyRunOfDigits(front: string, date: string, k: nat, ext: string, q: int)
    requires BeforeDate(front) && AfterDate(ext) && IsDate(date) && k <= INT_MAX
    requires DigitsAt(front + Key(date, k, ext), q)
    ensures q == |front|
  {
    if q < |front| {
      NotBeforeDate(front, Key(date, k, ext), q);
    } else if q > |front| {
      NotBehindDate(front, date, k, ext, q);
    }
  }

  lemma OccursAsDate(front: string, date: string, k: nat, ext: string, now: string, q: int)
    requires BeforeDate(front) && AfterDate(ext) && IsDate(date) && IsDate(now) && k <= INT_MAX
    requires OccursAt(front + Key(date, k, ext), now, q)
    ensures q == |front| && date == now
  {
    var path := front + Key(date, k, ext);
    assert path[q..q + FORMAT_DATE_LEN] == now;
    assert DigitsAt(path, q);
    OnlyRunOfDigits(front, date, k, ext, q);
    assert path[|front|..|front| + FORMAT_DATE_LEN] == date;
  }

  /** Searching a path for a date finds the path's own date or nothing. */
  lemma FindDate(place: Place, date: string, k: nat, now: string)
    requires place.Clean() && IsDate(date) && IsDate(now) && k <= INT_MAX
    ensures Find(place.Path(date, k), now) == if date == now then |place.Front()| else NPOS
  {
    var path, front := place.Path(date, k), place.Front();
    var q := Find(path, now);
    if q != NPOS {
      OccursAsDate(front, date, k, place.ext, now, q);
    }
    if date == now {
      assert path[|front|..|front| + FORMAT_DATE_LEN] == now;
      assert OccursAt(path, now, |front|);
    }
  }

  lemma ShorterInside(p: string, m: string, n: string, ext: string)
    requires Shorter(m, n)
    ensures Shorter(p + (m + ext), p + (n + ext))
  {
    if |m| == |n| {
      LessIrreflexive(m);
      LessSuffix(m, n, ext, ext);
      LessPrefix(p, m + ext, n + ext);
    }
  }

  lemma KeyTakesDate(date: string, k: nat, ext: string)
    requires IsDate(date)
    ensures Take(Key(date, k, ext), FORMAT_DATE_LEN) == date
  {
    assert date == (date + Number(k) + ext)[..|date|];
  }

  /** Counting up makes a later key under the same date. */
  lemma NextNumberIsLater(date: string, k: nat, ext: string)
    requires IsDate(date)
    ensures DateOrder(Key(date, k, ext), Key(date, k + 1, ext), FORMAT_DATE_LEN)
  {
    var a, b := Key(date, k, ext), Key(date, k + 1, ext);
    KeyNumbered(date, k + 1, ext);
    if k > 0 {
      KeyNumbered(date, k, ext);
      ShorterIsSmaller(k, k + 1);
      ShorterInside(date + "_", ToDec(k), ToDec(k + 1), ext);
    }
    KeyTakesDate(date, k, ext);
    KeyTakesDate(date, k + 1, ext);
    DateOrderIs(a, b, FORMAT_DATE_LEN);
  }

  lemma LaterDateIsLater(date: string, k: nat, now: string, j: nat, ext: string)
    requires IsDate(date) && IsDate(now) && Less(date, now)
    ensures DateOrder(Key(date, k, ext), Key(now, j, ext), FORMAT_DATE_LEN)
  {
    var a, b := Key(date, k, ext), Key(now, j, ext);
    KeyTakesDate(date, k, ext);
    KeyTakesDate(now, j, ext);
    DateOrderIs(a, b, FORMAT_DATE_LEN);
  }

  predicate NotLater(date: string, now: string) {
    date == now || Less(date, now)
  }

  /** An existing export, made no later than `now`, with a number of at most `max`. */
  ghost predicate IsExport(place: Place, path: string, now: string, max: int) {
    exists date, k: nat | IsDate(date) && k <= max && NotLater(date, now) :: path == place.Path(date, k)
  }

  // ---------- Creating a file ----------

  /** The name that follows the latest existing file. */
  function NewPath(place: Place, last: string, now: string): string {
    var startPos := Find(last, now);
    place.Front() + now
      + (if startPos == NPOS then "" else "_" + IntText(GetFileNameNum(last[startPos..], place.ext) + 1))
      + place.ext
  }

  lemma FrontAssoc(place: Place, now: string, j: nat)
    ensures place.Path(now, j) == place.Front() + now + Number(j) + place.ext
  {
    Assoc(place.Front(), now, Number(j));
    Assoc(place.Front(), now + Number(j), place.ext);
  }

  lemma NextPathSameDate(place: Place, k: nat, now: string)
    requires place.Clean() && IsDate(now) && k < INT_MAX
    ensures NewPath(place, place.Path(now, k), now) == place.Path(now, k + 1)
  {
    var last, front := place.Path(now, k), place.Front();
    FindDate(place, now, k, now);
    assert last[|front|..] == Key(now, k, place.ext);
    NumberReadBack(now, k, place.ext);
    FrontAssoc(place, now, k + 1);
  }

  lemma NextPathNewDate(place: Place, date: string, k: nat, now: string)
    requires place.Clean() && IsDate(date) && IsDate(now) && k < INT_MAX && date != now
    ensures NewPath(place, place.Path(date, k), now) == place.Path(now, 0)
  {
    FindDate(place, date, k, now);
    FrontAssoc(place, now, 0);
  }

  lemma PathOrder(place: Place, date: string, k: nat, now: string, j: nat)
    requires place.Findable() && DateOrder(Key(date, k, place.ext), Key(now, j, place.ext), FORMAT_DATE_LEN)
    ensures FileBefore(place.prefix, place.Path(date, k), place.Path(now, j))
  {
    TimeOfPath(place, Key(date, k, place.ext));
    TimeOfPath(place, Key(now, j, place.ext));
  }

  /** The new name carries the present date, with the next number if the latest one has that date too,
      and sorts after the latest one. */
  lemma NewPathIsLater(place: Place, last: string, now: string) returns (j: nat)
    requires place.Clean() && IsDate(now) && IsExport(place, last, now, INT_MAX - 1)
    ensures NewPath(place, last, now) == place.Path(now, j)
    ensures j > 0 ==> last == place.Path(now, j - 1)
    ensures FileBefore(place.prefix, last, place.Path(now, j))
  {
    var date, k: nat :| IsDate(date) && k < INT_MAX && NotLater(date, now) && last == place.Path(date, k);
    if date == now {
      j := k + 1;
      NextPathSameDate(place, k, now);
      NextNumberIsLater(date, k, place.ext);
    } else {
      j := 0;
      NextPathNewDate(place, date, k, now);
      LaterDateIsLater(date, k, now, 0, place.ext);
    }
    PathOrder(place, date, k, now, j);
  }

  /** The names the directory scan picks up. */
  predicate Listed(place: Place, path: string) {
    var front := place.Front();
    |front| < |path| && path[..|front|] == front && IsDigit(path[|front|])
  }

  /** The directory, the prefix, a digit and anything. */
  ghost predicate MatchesPattern(place: Place, path: string) {
    exists d: char, rest: string :: '0' <= d <= '9' && path == place.base + place.prefix + [d] + rest
  }

  lemma ListedIff(place: Place, path: string)
    ensures Listed(place, path) <==> MatchesPattern(place, path)
  {
    var n := |place.base + place.prefix|;
    if Listed(place, path) {
      assert path == place.base + place.prefix + [path[n]] + path[n + 1..];
    }
    if d: char, rest: string :| '0' <= d <= '9' && path == place.base + place.prefix + [d] + rest {
      assert path[..n] == place.base + place.prefix && path[n] == d;
    }
  }

  ghost predicate Follows(place: Place, path: string, others: set<string>) {
    forall f | f in others :: FileBefore(place.prefix, f, path)
  }

  /** Paths of listed files are told apart by their time part, so the comparator orders them totally. */
  lemma FilesTotallyOrdered(place: Place, files: set<string>)
    requires place.Findable() && forall f | f in files :: Listed(place, f)
    ensures StrictTotalOn((a, b) => FileBefore(place.prefix, a, b), files)
  {
    forall f | f in files ensures f == place.Front() + TimeOf(f, place.prefix) {
      var rest := f[|place.Front()|..];
      assert f == place.Front() + rest;
      TimeOfPath(place, rest);
    }
    forall a, b | a in files && b in files
      ensures !FileBefore(place.prefix, a, a)
      ensures a != b ==> FileBefore(place.prefix, a, b) || FileBefore(place.prefix, b, a)
    {
      DateOrderTotal(TimeOf(a, place.prefix), TimeOf(b, place.prefix), FORMAT_DATE_LEN);
    }
    forall a, b, c | FileBefore(place.prefix, a, b) && FileBefore(place.prefix, b, c)
      ensures FileBefore(place.prefix, a, c)
    {
      DateOrderTransitive(TimeOf(a, place.prefix), TimeOf(b, place.prefix), TimeOf(c, place.prefix), FORMAT_DATE_LEN);
    }
  }

  lemma PathListed(place: Place, now: string, k: nat)
    requires IsDate(now)
    ensures Listed(place, place.Path(now, k))
  {
    var path, front := place.Path(now, k), place.Front();
    assert path[..|front|] == front && path[|front|] == now[0];
  }

  ghost predicate SortedFiles(place: Place, list: seq<string>, listed: set<string>) {
    && (forall i, j | 0 <= i < j < |list| :: FileBefore(place.prefix, list[i], list[j]))
    && (forall f :: f in list <==> f in listed)
    && |list| == |listed|
  }

  /** GetDirRegexFiles, after the scan. */
  method SortFiles(place: Place, listed: set<string>) returns (list: seq<string>)
    requires place.Findable() && forall f | f in listed :: Listed(place, f)
    ensures SortedFiles(place, list, listed)
  {
    FilesTotallyOrdered(place, listed);
    list := Sort(listed, (a, b) => FileBefore(place.prefix, a, b));
  }

  /** The listed file that sorts after all others. */
  ghost predicate IsLatest(place: Place, f: string, listed: set<string>) {
    f in listed && forall g | g in listed :: g == f || FileBefore(place.prefix, g, f)
  }

  lemma LastIsLatest(place: Place, list: seq<string>, listed: set<string>)
    requires SortedFiles(place, list, listed) && list != []
    ensures IsLatest(place, list[|list| - 1], listed)
  {
    assert list[|list| - 1] in list;
    forall g | g in listed ensures g == list[|list| - 1] || FileBefore(place.prefix, g, list[|list| - 1]) {
      assert g in list;
    }
  }

  ghost predicate NameIs(place: Place, path: string, now: string, j: nat, listed: set<string>) {
    path == place.Path(now, j) && (j > 0 ==> IsLatest(place, place.Path(now, j - 1), listed))
  }

  /** The name has the present date, and a number only to follow the one before it. */
  ghost predicate IsNextName(place: Place, path: string, now: string, listed: set<string>) {
    exists j: nat :: NameIs(place, path, now, j, listed)
  }

  /** The name chosen for the sorted list of existing files sorts after all of them. */
  lemma NewPathFollowsAll(place: Place, list: seq<string>, listed: set<string>, now: string, path: string)
    requires place.Clean() && IsDate(now) && SortedFiles(place, list, listed)
    requires forall f | IsLatest(place, f, listed) :: IsExport(place, f, now, INT_MAX - 1)
    requires path == if list == [] then place.Path(now, 0) else NewPath(place, list[|list| - 1], now)
    ensures Follows(place, path, listed) && Listed(place, path) && IsNextName(place, path, now, listed)
  {
    if list == [] {
      assert NameIs(place, path, now, 0, listed);
      PathListed(place, now, 0);
      assert forall f | f in listed :: f in list;
    } else {
      var last := list[|list| - 1];
      LastIsLatest(place, list, listed);
      var k := NewPathIsLater(place, last, now);
      assert NameIs(place, path, now, k, listed);
      PathListed(place, now, k);
      FollowsLast(place, list, listed, path);
    }
  }

  /** What sorts after the last file sorts after all. */
  lemma FollowsLast(place: Place, list: seq<string>, listed: set<string>, path: string)
    requires SortedFiles(place, list, listed) && list != []
    requires FileBefore(place.prefix, list[|list| - 1], path)
    ensures Follows(place, path, listed)
  {
    var last := list[|list| - 1];
    forall f | f in listed ensures FileBefore(place.prefix, f, path) {
      assert f in list;
      var i :| 0 <= i < |list| && list[i] == f;
      if i < |list| - 1 {
        assert FileBefore(place.prefix, list[i], last);
        BeforeTransitive(place.prefix, f, last, path);
      }
    }
  }

  function Elements(list: seq<string>): set<string> {
    set f | f in list
  }

  lemma {:induction false} DistinctElements(list: seq<string>)
    requires forall i, j | 0 <= i < j < |list| :: list[i] != list[j]
    ensures |Elements(list)| == |list|
  {
    if list != [] {
      var before, last := list[..|list| - 1], list[|list| - 1];
      DistinctElements(before);
      assert Elements(list) == Elements(before) + {last};
      assert last !in before;
    }
  }

  lemma SortedDistinct(place: Place, list: seq<string>, s: set<string>)
    requires SortedFiles(place, list, s)
    ensures forall i, j | 0 <= i < j < |list| :: list[i] != list[j]
  {
    forall i, j | 0 <= i < j < |list| ensures list[i] != list[j] {
      assert FileBefore(place.prefix, list[i], list[j]);
      DateOrderTotal(TimeOf(list[i], place.prefix), TimeOf(list[i], place.prefix), FORMAT_DATE_LEN);
    }
  }

  lemma SplitElements(list: seq<string>, k: nat)
    requires k <= |list| && forall i, j | 0 <= i < j < |list| :: list[i] != list[j]
    ensures Elements(list) == Elements(list[..k]) + Elements(list[k..]) && Elements(list[..k]) !! Elements(list[k..])
  {
    assert list == list[..k] + list[k..];
  }

  /** Cutting the front off a sorted list leaves the later elements. */
  lemma KeepSuffix(place: Place, list: seq<string>, k: nat, s: set<string>)
    requires SortedFiles(place, list, s) && k <= |list|
    ensures Elements(list[..k]) <= s && Elements(list[k..]) == s - Elements(list[..k])
    ensures |Elements(list[k..])| == |list| - k
    ensures forall f, g | f in Elements(list[..k]) && g in Elements(list[k..]) :: FileBefore(place.prefix, f, g)
  {
    SortedDistinct(place, list, s);
    DistinctElements(list[k..]);
    SplitElements(list, k);
    assert Elements(list) == s;
  }

  function ListedIn(place: Place, files: set<string>): set<string> {
    set f | f in files && Listed(place, f)
  }

  /** What creating a file does to the directory: the new name carries the date and follows every listed
      one, at most maxFileNum listed files remain, the deleted ones are older than all that are kept, and
      nothing else is touched. */
  ghost predicate Created(place: Place, maxFileNum: nat, now: string, files: set<string>, files': set<string>,
                          path: string)
  {
    var listed, listed' := ListedIn(place, files), ListedIn(place, files');
    && IsNextName(place, path, now, listed) && Follows(place, path, listed)
    && path in listed' && path !in files
    && |listed'| == (if |listed| < maxFileNum then |listed| + 1 else maxFileNum)
    && files' <= files + {path}
    && (forall f | f in files && !Listed(place, f) :: f in files')
    && (forall f, g | f in listed && f !in files' && g in listed && g in files' :: FileBefore(place.prefix, f, g))
  }

  lemma KeptListed(place: Place, files: set<string>, old': set<string>, kept: set<string>, path: string)
    requires Listed(place, path) && path !in files
    requires old' <= ListedIn(place, files) && kept == ListedIn(place, files) - old'
    ensures ListedIn(place, files - old' + {path}) == kept + {path}
    ensures |ListedIn(place, files - old' + {path})| == |kept| + 1
  {
    assert ListedIn(place, files - old' + {path}) == kept + {path};
    assert path !in kept;
  }

  lemma DroppedAreOlder(place: Place, files: set<string>, old': set<string>, kept: set<string>, path: string)
    requires path !in files
    requires old' <= ListedIn(place, files) && kept == ListedIn(place, files) - old'
    requires forall f, g | f in old' && g in kept :: FileBefore(place.prefix, f, g)
    ensures var files', listed := files - old' + {path}, ListedIn(place, files);
            forall f, g | f in listed && f !in files' && g in listed && g in files' :: FileBefore(place.prefix, f, g)
  {
    var files', listed := files - old' + {path}, ListedIn(place, files);
    assert forall f | f in listed && f !in files' :: f in old';
    assert forall g | g in listed && g in files' :: g in kept;
  }

  lemma RemovedOldest(place: Place, maxFileNum: nat, now: string, files: set<string>, old': set<string>,
                      kept: set<string>, path: string)
    requires maxFileNum >= 1 && Listed(place, path) && IsNextName(place, path, now, ListedIn(place, files))
    requires Follows(place, path, ListedIn(place, files)) && path !in files
    requires old' <= ListedIn(place, files) && kept == ListedIn(place, files) - old'
    requires |kept| == if |ListedIn(place, files)| < maxFileNum then |ListedIn(place, files)| else maxFileNum - 1
    requires forall f, g | f in old' && g in kept :: FileBefore(place.prefix, f, g)
    ensures Created(place, maxFileNum, now, files, files - old' + {path}, path)
  {
    KeptListed(place, files, old', kept, path);
    DroppedAreOlder(place, files, old', kept, path);
  }

  /** The latest of the listed files is an export of this naming, not later than `now`, with a number of
      at most `max`. Other listed files may have any name. */
  ghost predicate LatestIsExport(place: Place, files: set<string>, now: string, max: int) {
    forall f | IsLatest(place, f, ListedIn(place, files)) :: IsExport(place, f, now, max)
  }

  /** A directory with its regular files, by path. */
  class ExportDirectory {
    var files: set<string>

    method RemoveFirst(list: seq<string>, count: nat)
      requires count <= |list|
      modifies this
      ensures files == old(files) - Elements(list[..count])
    {
      for index := 0 to count
        invariant files == old(files) - Elements(list[..index])
      {
        assert Elements(list[..index + 1]) == Elements(list[..index]) + {list[index]};
        files := files - {list[index]};
      }
    }

    /** Makes room by deleting the oldest exports and creates a file whose name sorts after every
        existing one. */
    method CreateExportFile(place: Place, maxFileNum: nat, now: string) returns (path: string)
      requires place.Clean() && IsDate(now) && maxFileNum >= 1
      requires LatestIsExport(place, files, now, INT_MAX - 1)
      modifies this
      ensures Created(place, maxFileNum, now, old(files), files, path)
    {
      var list := SortFiles(place, ListedIn(place, files));
      path := if |list| > 0 then NewPath(place, list[|list| - 1], now) else place.Path(now, 0);
      var removed := if |list| >= maxFileNum then |list| - maxFileNum + 1 else 0;
      CreateOutcome(place, maxFileNum, now, files, list, removed, path);
      RemoveFirst(list, removed);
      files := files + {path};
    }
  }

  lemma CreateOutcome(place: Place, maxFileNum: nat, now: string, files: set<string>, list: seq<string>, removed: nat,
                      path: string)
    requires place.Clean() && IsDate(now) && maxFileNum >= 1
    requires LatestIsExport(place, files, now, INT_MAX - 1)
    requires SortedFiles(place, list, ListedIn(place, files))
    requires path == if list == [] then place.Path(now, 0) else NewPath(place, list[|list| - 1], now)
    requires removed == if |list| >= maxFileNum then |list| - maxFileNum + 1 else 0
    ensures Created(place, maxFileNum, now, files, files - Elements(list[..removed]) + {path}, path)
  {
    var listed := ListedIn(place, files);
    NewPathFollowsAll(place, list, listed, now, path);
    NotAmongEarlier(place, path, listed);
    KeepSuffix(place, list, removed, listed);
    RemovedOldest(place, maxFileNum, now, files, Elements(list[..removed]), Elements(list[removed..]), path);
  }

  lemma NotAmongEarlier(place: Place, path: string, listed: set<string>)
    requires Follows(place, path, listed)
    ensures path !in listed
  {
    DateOrderTotal(TimeOf(path, place.prefix), TimeOf(path, place.prefix), FORMAT_DATE_LEN);
  }

  // ---------- Successive calls ----------

  /** An export stays one when the clock moves on and higher numbers are allowed. */
  lemma StaysExport(place: Place, path: string, now: string, max: int, later: string, more: int)
    requires NotLater(now, later) && max <= more && IsExport(place, path, now, max)
    ensures IsExport(place, path, later, more)
  {
    var date, k: nat :| IsDate(date) && k <= max && NotLater(date, now) && path == place.Path(date, k);
    if Less(date, now) && Less(now, later) {
      LessTransitive(date, now, later);
    }
  }

  /** A path says which date and number it has. */
  lemma PathTells(place: Place, date: string, k: nat, now: string, j: nat)
    requires IsDate(date) && IsDate(now) && place.Path(date, k) == place.Path(now, j)
    ensures date == now && k == j
  {
    var front, ext := place.Front(), place.ext;
    assert place.Path(date, k)[|front|..] == Key(date, k, ext);
    assert place.Path(now, j)[|front|..] == Key(now, j, ext);
    KeyTakesDate(date, k, ext);
    KeyTakesDate(now, j, ext);
    assert Key(date, k, ext)[|date|..|Key(date, k, ext)| - |ext|] == Number(k);
    assert Key(now, j, ext)[|now|..|Key(now, j, ext)| - |ext|] == Number(j);
    assert k > 0 && j > 0 ==> ToDec(k) == Number(k)[1..] == Number(j)[1..] == ToDec(j);
    ShorterIsSmaller(k, j);
  }

  /** Calls one after the other: `files[i]` is the directory before call i. */
  datatype Calls = Calls(dates: seq<string>, files: seq<set<string>>, paths: seq<string>)
  {
    ghost predicate WellFormed() {
      |paths| == |dates| && |files| == |dates| + 1
    }
  }

  /** What CreateExportFile promises about call i. */
  ghost predicate CallAt(place: Place, maxFileNum: nat, c: Calls, i: nat)
    requires c.WellFormed() && i < |c.dates|
  {
    LatestIsExport(place, c.files[i], c.dates[i], INT_MAX - 1) ==> CreatedAt(place, maxFileNum, c, i)
  }

  ghost predicate CreatedAt(place: Place, maxFileNum: nat, c: Calls, i: nat)
    requires c.WellFormed() && i < |c.dates|
  {
    Created(place, maxFileNum, c.dates[i], c.files[i], c.files[i + 1], c.paths[i])
  }

  /** Calls under a clock that does not go back, in a directory whose latest export has a number of at most
      `max`, and not more of them than the numbers last for. */
  ghost predicate ValidCalls(place: Place, maxFileNum: nat, c: Calls, max: nat) {
    && place.Clean() && maxFileNum >= 1 && c.WellFormed() && max + |c.dates| <= INT_MAX
    && (forall i | 0 <= i < |c.dates| :: IsDate(c.dates[i]))
    && (forall i, j | 0 <= i < j < |c.dates| :: NotLater(c.dates[i], c.dates[j]))
    && (c.dates != [] ==> LatestIsExport(place, c.files[0], c.dates[0], max))
    && (forall i | 0 <= i < |c.dates| :: CallAt(place, maxFileNum, c, i))
  }

  /** The new file is an export with a number at most one higher than those there were. */
  lemma CreatedExport(place: Place, now: string, listed: set<string>, path: string, max: nat)
    requires IsDate(now) && IsNextName(place, path, now, listed)
    requires forall f | IsLatest(place, f, listed) :: IsExport(place, f, now, max)
    ensures IsExport(place, path, now, max + 1)
  {
    var j: nat :| NameIs(place, path, now, j, listed);
    if j > 0 {
      var before := place.Path(now, j - 1);
      var date, k: nat :| IsDate(date) && k <= max && NotLater(date, now) && before == place.Path(date, k);
      PathTells(place, date, k, now, j - 1);
    }
  }

  lemma StaysFit(place: Place, maxFileNum: nat, now: string, files: set<string>, files': set<string>, path: string,
                 max: nat, later: string)
    requires IsDate(now) && NotLater(now, later) && LatestIsExport(place, files, now, max)
    requires Created(place, maxFileNum, now, files, files', path)
    ensures LatestIsExport(place, files', later, max + 1)
  {
    CreatedExport(place, now, ListedIn(place, files), path, max);
    forall f | IsLatest(place, f, ListedIn(place, files')) ensures IsExport(place, f, later, max + 1) {
      NewIsLatest(place, maxFileNum, now, files, files', path, f);
      StaysExport(place, f, now, max + 1, later, max + 1);
    }
  }

  lemma NewIsLatest(place: Place, maxFileNum: nat, now: string, files: set<string>, files': set<string>, path: string,
                    f: string)
    requires Created(place, maxFileNum, now, files, files', path) && IsLatest(place, f, ListedIn(place, files'))
    ensures f == path
  {
    if f != path {
      assert f in ListedIn(place, files);
      BeforeTransitive(place.prefix, f, path, f);
      DateOrderTotal(TimeOf(f, place.prefix), TimeOf(f, place.prefix), FORMAT_DATE_LEN);
    }
  }

  lemma MorePermitted(place: Place, files: set<string>, now: string, max: int, more: int)
    requires LatestIsExport(place, files, now, max) && max <= more
    ensures LatestIsExport(place, files, now, more)
  {
    forall f | IsLatest(place, f, ListedIn(place, files)) ensures IsExport(place, f, now, more) {
      StaysExport(place, f, now, max, now, more);
    }
  }

  /** Each call leaves the directory fit for the next one, so every call does what it promises. */
  lemma {:induction false} CallsStayFit(place: Place, maxFileNum: nat, c: Calls, max: nat, i: nat)
    requires ValidCalls(place, maxFileNum, c, max) && i < |c.dates|
    ensures LatestIsExport(place, c.files[i], c.dates[i], max + i)
    ensures LatestIsExport(place, c.files[i], c.dates[i], INT_MAX - 1)
    ensures CreatedAt(place, maxFileNum, c, i)
  {
    if i > 0 {
      CallsStayFit(place, maxFileNum, c, max, i - 1);
      NextStaysFit(place, maxFileNum, c, max, i - 1);
    }
    FitCallCreates(place, maxFileNum, c, max, i);
  }

  lemma NextStaysFit(place: Place, maxFileNum: nat, c: Calls, max: nat, i: nat)
    requires ValidCalls(place, maxFileNum, c, max) && i + 1 < |c.dates|
    requires LatestIsExport(place, c.files[i], c.dates[i], max + i) && CreatedAt(place, maxFileNum, c, i)
    ensures LatestIsExport(place, c.files[i + 1], c.dates[i + 1], max + i + 1)
  {
    StaysFit(place, maxFileNum, c.dates[i], c.files[i], c.files[i + 1], c.paths[i], max + i, c.dates[i + 1]);
  }

  lemma FitCallCreates(place: Place, maxFileNum: nat, c: Calls, max: nat, i: nat)
    requires ValidCalls(place, maxFileNum, c, max) && i < |c.dates|
    requires LatestIsExport(place, c.files[i], c.dates[i], max + i)
    ensures LatestIsExport(place, c.files[i], c.dates[i], INT_MAX - 1) && CreatedAt(place, maxFileNum, c, i)
  {
    MorePermitted(place, c.files[i], c.dates[i], max + i, INT_MAX - 1);
    assert CallAt(place, maxFileNum, c, i);
  }

  lemma BeforeTransitive(prefix: string, x: string, y: string, z: string)
    requires FileBefore(prefix, x, y) && FileBefore(prefix, y, z)
    ensures FileBefore(prefix, x, z)
  {
    DateOrderTransitive(TimeOf(x, prefix), TimeOf(y, prefix), TimeOf(z, prefix), FORMAT_DATE_LEN);
  }

  lemma PresentIsBefore(place: Place, maxFileNum: nat, c: Calls, max: nat, i: nat, f: string)
    requires ValidCalls(place, maxFileNum, c, max) && i < |c.dates| && f in ListedIn(place, c.files[i])
    ensures FileBefore(place.prefix, f, c.paths[i])
  {
    CallsStayFit(place, maxFileNum, c, max, i);
  }

  lemma NewIsPresent(place: Place, maxFileNum: nat, c: Calls, max: nat, i: nat)
    requires ValidCalls(place, maxFileNum, c, max) && i < |c.dates|
    ensures c.paths[i] in ListedIn(place, c.files[i + 1]) && |ListedIn(place, c.files[i + 1])| <= maxFileNum
  {
    CallsStayFit(place, maxFileNum, c, max, i);
  }

  /** Whatever is in the directory before call i sorts before all names created from then on. */
  lemma {:induction false} BeforeAllLater(place: Place, maxFileNum: nat, c: Calls, max: nat, i: nat, f: string, b: nat)
    requires ValidCalls(place, maxFileNum, c, max) && i <= b < |c.dates| && f in ListedIn(place, c.files[i])
    ensures FileBefore(place.prefix, f, c.paths[b])
    decreases b
  {
    if i == b {
      PresentIsBefore(place, maxFileNum, c, max, b, f);
    } else {
      BeforeAllLater(place, maxFileNum, c, max, i, f, b - 1);
      NewIsPresent(place, maxFileNum, c, max, b - 1);
      PresentIsBefore(place, maxFileNum, c, max, b, c.paths[b - 1]);
      BeforeTransitive(place.prefix, f, c.paths[b - 1], c.paths[b]);
    }
  }

  /** Successive calls under a clock that does not go back: every name sorts after the files that were in
      the directory at any time before, deleted or not, and after all names created before it, and at most
      maxFileNum files remain after each call. */
  lemma SuccessiveExports(place: Place, maxFileNum: nat, c: Calls, max: nat, a: nat, b: nat)
    requires ValidCalls(place, maxFileNum, c, max) && a <= b < |c.dates|
    ensures forall f | f in ListedIn(place, c.files[a]) :: FileBefore(place.prefix, f, c.paths[b])
    ensures a < b ==> FileBefore(place.prefix, c.paths[a], c.paths[b])
    ensures |ListedIn(place, c.files[b + 1])| <= maxFileNum
  {
    forall f | f in ListedIn(place, c.files[a]) ensures FileBefore(place.prefix, f, c.paths[b]) {
      BeforeAllLater(place, maxFileNum, c, max, a, f, b);
    }
    NewIsPresent(place, maxFileNum, c, max, b);
    if a < b {
      NewIsPresent(place, maxFileNum, c, max, a);
      BeforeAllLater(place, maxFileNum, c, max, a + 1, c.paths[a], b);
    }
  }
}
