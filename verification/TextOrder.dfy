/** Orders on strings, decimal numerals, and sorting by a strict total order. */
module TextOrder {

  // ---------- Lexicographic order ----------

  /** operator< of std::string. */
  predicate Less(a: string, b: string) {
    b != "" && (a == "" || a[0] < b[0] || (a[0] == b[0] && Less(a[1..], b[1..])))
  }

  lemma {:induction false} LessTransitive(a: string, b: string, c: string)
    requires Less(a, b) && Less(b, c)
    ensures Less(a, c)
  {
    if a != "" && a[0] == b[0] == c[0] {
      LessTransitive(a[1..], b[1..], c[1..]);
    }
  }

  lemma {:induction false} LessIrreflexive(a: string)
    ensures !Less(a, a)
  {
    if a != "" {
      LessIrreflexive(a[1..]);
    }
  }

  lemma {:induction false} LessTotal(a: string, b: string)
    requires a != b
    ensures Less(a, b) || Less(b, a)
  {
    if a != "" && b != "" && a[0] == b[0] {
      assert a == [a[0]] + a[1..] && b == [b[0]] + b[1..];
      LessTotal(a[1..], b[1..]);
    }
  }

  /** Of two strings exactly one is less, unless they are equal. */
  lemma LessOrNot(a: string, b: string)
    ensures Less(a, b) <==> a != b && !Less(b, a)
  {
    LessIrreflexive(a);
    if a != b {
      LessTotal(a, b);
      if Less(a, b) && Less(b, a) {
        LessTransitive(a, b, a);
      }
    }
  }

  /** A common prefix does not matter. */
  lemma {:induction false} LessPrefix(p: string, a: string, b: string)
    ensures Less(p + a, p + b) <==> Less(a, b)
  {
    if p == "" {
      assert p + a == a && p + b == b;
    } else {
      LessPrefix(p[1..], a, b);
      assert (p + a)[1..] == p[1..] + a && (p + b)[1..] == p[1..] + b;
    }
  }

  /** Strings of equal length that differ are decided before anything that follows them. */
  lemma {:induction false} LessSuffix(a: string, b: string, x: string, y: string)
    requires |a| == |b| && a != b
    ensures Less(a + x, b + y) <==> Less(a, b)
  {
    assert (a + x)[0] == a[0] && (b + y)[0] == b[0];
    if a[0] == b[0] {
      assert a == [a[0]] + a[1..] && b == [b[0]] + b[1..];
      LessSuffix(a[1..], b[1..], x, y);
      assert (a + x)[1..] == a[1..] + x && (b + y)[1..] == b[1..] + y;
    }
  }

  // ---------- Length first, then text ----------

  predicate Shorter(a: string, b: string) {
    |a| < |b| || (|a| == |b| && Less(a, b))
  }

  lemma ShorterTransitive(a: string, b: string, c: string)
    requires Shorter(a, b) && Shorter(b, c)
    ensures Shorter(a, c)
  {
    if |a| == |b| == |c| {
      LessTransitive(a, b, c);
    }
  }

  lemma ShorterTotal(a: string, b: string)
    ensures !Shorter(a, a)
    ensures a != b ==> Shorter(a, b) || Shorter(b, a)
  {
    LessIrreflexive(a);
    if a != b {
      LessTotal(a, b);
    }
  }

  lemma ShorterPrefix(p: string, a: string, b: string)
    ensures Shorter(p + a, p + b) <==> Shorter(a, b)
  {
    LessPrefix(p, a, b);
  }

  // ---------- The first n characters, then length, then text ----------

  function Take(a: string, n: nat): string {
    if |a| <= n then a else a[..n]
  }

  /** The comparator of the export files: equal first n characters and different lengths are decided by
      length, everything else by text. */
  predicate DateOrder(a: string, b: string, n: nat) {
    if Take(a, n) == Take(b, n) && |a| != |b| then |a| < |b| else Less(a, b)
  }

  lemma {:induction false} LessTake(a: string, b: string, n: nat)
    requires Take(a, n) != Take(b, n)
    ensures Less(a, b) <==> Less(Take(a, n), Take(b, n))
    decreases n
  {
    if a != "" && b != "" && a[0] == b[0] {
      assert n > 0;
      assert Take(a, n)[1..] == Take(a[1..], n - 1) && Take(b, n)[1..] == Take(b[1..], n - 1);
      assert Take(a, n) == [a[0]] + Take(a, n)[1..] && Take(b, n) == [b[0]] + Take(b, n)[1..];
      LessTake(a[1..], b[1..], n - 1);
    }
  }

  /** The comparator is the lexicographic combination of three keys. */
  lemma DateOrderIs(a: string, b: string, n: nat)
    ensures DateOrder(a, b, n) <==>
            Less(Take(a, n), Take(b, n)) || (Take(a, n) == Take(b, n) && Shorter(a, b))
  {
    if Take(a, n) == Take(b, n) {
      LessIrreflexive(Take(a, n));
    } else {
      LessTake(a, b, n);
    }
  }

  /** It is a strict total order on all strings. */
  lemma DateOrderTotal(a: string, b: string, n: nat)
    ensures !DateOrder(a, a, n)
    ensures a != b ==> DateOrder(a, b, n) || DateOrder(b, a, n)
  {
    ShorterTotal(a, b);
    DateOrderIs(a, a, n);
    DateOrderIs(a, b, n);
    DateOrderIs(b, a, n);
    LessIrreflexive(Take(a, n));
    if Take(a, n) != Take(b, n) {
      LessTotal(Take(a, n), Take(b, n));
    }
  }

  lemma DateOrderTransitive(a: string, b: string, c: string, n: nat)
    requires DateOrder(a, b, n) && DateOrder(b, c, n)
    ensures DateOrder(a, c, n)
  {
    DateOrderIs(a, b, n);
    DateOrderIs(b, c, n);
    DateOrderIs(a, c, n);
    if Less(Take(a, n), Take(b, n)) && Less(Take(b, n), Take(c, n)) {
      LessTransitive(Take(a, n), Take(b, n), Take(c, n));
    } else if Take(a, n) == Take(b, n) == Take(c, n) {
      ShorterTransitive(a, b, c);
    }
  }

  // ---------- Decimal numerals ----------

  predicate IsDigit(c: char) {
    '0' <= c <= '9'
  }

  function Digit(d: nat): char
    requires d < 10
  {
    '0' + d as char
  }

  function DigitValue(c: char): nat
    requires IsDigit(c)
  {
    (c - '0') as nat
  }

  predicate AllDigits(s: string) {
    forall i | 0 <= i < |s| :: IsDigit(s[i])
  }

  /** std::to_string of an unsigned number. */
  function ToDec(n: nat): (s: string)
    ensures s != "" && AllDigits(s)
  {
    if n < 10 then [Digit(n)] else ToDec(n / 10) + [Digit(n % 10)]
  }

  function FromDec(s: string): nat
    requires AllDigits(s)
  {
    if s == "" then 0 else 10 * FromDec(s[..|s| - 1]) + DigitValue(s[|s| - 1])
  }

  lemma {:induction false} FromToDec(n: nat)
    ensures FromDec(ToDec(n)) == n
  {
    var s := ToDec(n);
    if n >= 10 {
      FromToDec(n / 10);
      assert s[..|s| - 1] == ToDec(n / 10);
    } else {
      assert s[..0] == "";
    }
  }

  lemma {:induction false} LongerIsGreater(m: nat, n: nat)
    requires m <= n
    ensures |ToDec(m)| <= |ToDec(n)|
  {
    if n >= 10 && m >= 10 {
      LongerIsGreater(m / 10, n / 10);
    }
  }

  lemma LessSnoc(a: string, b: string, x: char, y: char)
    requires |a| == |b|
    ensures Less(a + [x], b + [y]) <==> Less(a, b) || (a == b && x < y)
  {
    if a == b {
      LessPrefix(a, [x], [y]);
      LessIrreflexive(a);
    } else {
      LessSuffix(a, b, [x], [y]);
    }
  }

  /** Numerals of equal length are ordered like their values. */
  lemma {:induction false} TextIsValue(a: string, b: string)
    requires AllDigits(a) && AllDigits(b) && |a| == |b|
    ensures Less(a, b) <==> FromDec(a) < FromDec(b)
    ensures a == b <==> FromDec(a) == FromDec(b)
  {
    if a != "" {
      var n := |a| - 1;
      TextIsValue(a[..n], b[..n]);
      assert a == a[..n] + [a[n]] && b == b[..n] + [b[n]];
      LessSnoc(a[..n], b[..n], a[n], b[n]);
    }
  }

  lemma ShorterOfSmaller(m: nat, n: nat)
    requires m < n
    ensures Shorter(ToDec(m), ToDec(n))
  {
    LongerIsGreater(m, n);
    FromToDec(m);
    FromToDec(n);
    if |ToDec(m)| == |ToDec(n)| {
      TextIsValue(ToDec(m), ToDec(n));
    }
  }

  /** Length-then-text order of numerals is numeric order. */
  lemma ShorterIsSmaller(m: nat, n: nat)
    ensures Shorter(ToDec(m), ToDec(n)) <==> m < n
    ensures ToDec(m) == ToDec(n) <==> m == n
  {
    FromToDec(m);
    FromToDec(n);
    ShorterTotal(ToDec(m), ToDec(n));
    if m < n {
      ShorterOfSmaller(m, n);
    } else if n < m {
      ShorterOfSmaller(n, m);
      if Shorter(ToDec(m), ToDec(n)) {
        ShorterTransitive(ToDec(n), ToDec(m), ToDec(n));
        ShorterTotal(ToDec(n), ToDec(n));
      }
    }
  }

  function IntText(v: int): string {
    if v < 0 then "-" + ToDec(-v) else ToDec(v)
  }

  function LeadingDigits(s: string): (d: string)
    ensures AllDigits(d)
  {
    if s == "" || !IsDigit(s[0]) then "" else [s[0]] + LeadingDigits(s[1..])
  }

  /** Reading a number from a stream into a variable: an empty text leaves the variable alone, a text
      without a leading digit sets it to zero. */
  function ReadNumber(s: string, variable: nat): nat {
    if s == "" then variable else FromDec(LeadingDigits(s))
  }

  lemma {:induction false} LeadingDigitsAll(s: string)
    requires AllDigits(s)
    ensures LeadingDigits(s) == s
  {
    if s != "" {
      LeadingDigitsAll(s[1..]);
    }
  }

  // ---------- Sorting ----------

  ghost predicate StrictTotalOn<T(!new)>(before: (T, T) -> bool, s: set<T>) {
    && (forall x | x in s :: !before(x, x))
    && (forall x, y | x in s && y in s && x != y :: before(x, y) || before(y, x))
    && (forall x, y, z | x in s && y in s && z in s && before(x, y) && before(y, z) :: before(x, z))
  }

  ghost predicate SortedBy<T>(list: seq<T>, before: (T, T) -> bool) {
    forall i, j | 0 <= i < j < |list| :: before(list[i], list[j])
  }

  /** `list` is s in ascending order. */
  ghost predicate IsSorting<T(!new)>(list: seq<T>, s: set<T>, before: (T, T) -> bool) {
    && SortedBy(list, before)
    && (forall x :: x in list <==> x in s)
    && |list| == |s|
  }

  lemma InsertMiddle<T(!new)>(list: seq<T>, k: nat, x: T, before: (T, T) -> bool)
    requires SortedBy(list, before) && k <= |list|
    requires forall i | 0 <= i < k :: before(list[i], x)
    requires forall i | k <= i < |list| :: before(x, list[i])
    ensures SortedBy(list[..k] + [x] + list[k..], before)
    ensures forall y :: y in list[..k] + [x] + list[k..] <==> y in list || y == x
  {
    assert list == list[..k] + list[k..];
  }

  method InsertSorted<T(==, !new)>(list: seq<T>, x: T, before: (T, T) -> bool, ghost s: set<T>) returns (res: seq<T>)
    requires IsSorting(list, s, before) && x !in s && StrictTotalOn(before, s + {x})
    ensures IsSorting(res, s + {x}, before)
  {
    var k := |list|;
    while k > 0 && before(x, list[k - 1])
      invariant 0 <= k <= |list|
      invariant forall i | k <= i < |list| :: before(x, list[i])
    {
      k := k - 1;
    }
    BeforeNew(list, k, x, before, s);
    InsertMiddle(list, k, x, before);
    res := list[..k] + [x] + list[k..];
  }

  /** If x does not go before the element at k - 1, it goes after all up to that one. */
  lemma BeforeNew<T(!new)>(list: seq<T>, k: nat, x: T, before: (T, T) -> bool, s: set<T>)
    requires IsSorting(list, s, before) && x !in s && StrictTotalOn(before, s + {x})
    requires k <= |list| && (k > 0 ==> !before(x, list[k - 1]))
    ensures forall i | 0 <= i < k :: before(list[i], x)
  {
    forall i | 0 <= i < k ensures before(list[i], x) {
      assert list[i] in s && list[k - 1] in s;
      assert list[k - 1] in s + {x} && before(list[k - 1], x);
    }
  }

  /** std::sort of distinct elements by a strict total order. */
  method Sort<T(==, !new)>(s: set<T>, before: (T, T) -> bool) returns (list: seq<T>)
    requires StrictTotalOn(before, s)
    ensures IsSorting(list, s, before)
  {
    list := [];
    var todo := s;
    while todo != {}
      invariant todo <= s
      invariant IsSorting(list, s - todo, before)
      decreases |todo|
    {
      var x :| x in todo;
      ghost var done := s - todo;
      list := InsertSorted(list, x, before, done);
      todo := todo - {x};
      assert s - todo == done + {x};
    }
    assert s - todo == s;
  }
}
