/** Searching, splitting, replacing and trimming. */
module StringSearch {
  import opened Collections

  predicate OccursAt(s: string, pat: string, k: int) {
    0 <= k && k + |pat| <= |s| && s[k..k + |pat|] == pat
  }

  const NPOS: int := -1

  /** std::string::find from a position: the first occurrence at or after it. */
  function FindFrom(s: string, pat: string, from: nat): (r: int)
    ensures r == NPOS || (from <= r && OccursAt(s, pat, r))
    ensures forall k | from <= k && (r == NPOS || k < r) :: !OccursAt(s, pat, k)
    decreases |s| - from
  {
    if from + |pat| > |s| then NPOS
    else if s[from..from + |pat|] == pat then from
    else FindFrom(s, pat, from + 1)
  }

  function Find(s: string, pat: string): (r: int)
    ensures r == NPOS || OccursAt(s, pat, r)
    ensures forall k | 0 <= k && (r == NPOS || k < r) :: !OccursAt(s, pat, k)
  {
    FindFrom(s, pat, 0)
  }

  /** The first occurrence is determined by its two properties. */
  lemma FindIs(s: string, pat: string, r: int)
    requires OccursAt(s, pat, r)
    requires forall k | 0 <= k < r :: !OccursAt(s, pat, k)
    ensures Find(s, pat) == r
  {
    var f := Find(s, pat);
    assert f != NPOS && f <= r;
  }

  lemma OccursInTail(s: string, pat: string, from: nat, k: int)
    requires from <= |s| && from <= k
    ensures OccursAt(s, pat, k) <==> OccursAt(s[from..], pat, k - from)
  {
    if k + |pat| <= |s| {
      assert s[k..k + |pat|] == s[from..][k - from..k - from + |pat|];
    }
  }

  /** Searching from a position is searching the tail. */
  lemma FindFromTail(s: string, pat: string, from: nat)
    requires from <= |s|
    ensures FindFrom(s, pat, from) == if Find(s[from..], pat) == NPOS then NPOS else from + Find(s[from..], pat)
  {
    var r, t := FindFrom(s, pat, from), Find(s[from..], pat);
    if r != NPOS {
      OccursInTail(s, pat, from, r);
    }
    if t != NPOS {
      OccursInTail(s, pat, from, from + t);
    }
    if r != NPOS && t != NPOS && r < from + t {
      OccursInTail(s, pat, from, r);
    }
  }

  // ---------- Splitting, joining, replacing ----------

  function Split(s: string, sep: string): (parts: seq<string>)
    ensures parts != []
    decreases |s|
  {
    var k := Find(s, sep);
    if sep == "" || k == NPOS then [s] else [s[..k]] + Split(s[k + |sep|..], sep)
  }

  function Join(parts: seq<string>, d: string): string
    requires parts != []
  {
    if |parts| == 1 then parts[0] else parts[0] + d + Join(parts[1..], d)
  }

  function Replace(s: string, src: string, dst: string): string
    decreases |s|
  {
    var k := Find(s, src);
    if src == "" || k == NPOS then s else s[..k] + dst + Replace(s[k + |src|..], src, dst)
  }

  lemma JoinCons(p: string, rest: seq<string>, d: string)
    requires rest != []
    ensures Join([p] + rest, d) == p + d + Join(rest, d)
  {
    assert ([p] + rest)[1..] == rest;
  }

  lemma SplitUnfold(s: string, sep: string)
    requires sep != "" && Find(s, sep) != NPOS
    ensures var k := Find(s, sep); Split(s, sep) == [s[..k]] + Split(s[k + |sep|..], sep)
  {
  }

  lemma ReplaceUnfold(s: string, sep: string, d: string)
    requires sep != "" && Find(s, sep) != NPOS
    ensures var k := Find(s, sep); Replace(s, sep, d) == s[..k] + d + Replace(s[k + |sep|..], sep, d)
  {
  }

  /** Splitting and joining again by any string is replacing, for every separator, the empty one
      included. */
  lemma {:induction false} JoinSplitIsReplace(s: string, sep: string, d: string)
    ensures Join(Split(s, sep), d) == Replace(s, sep, d)
    decreases |s|
  {
    var k := Find(s, sep);
    if sep != "" && k != NPOS {
      JoinSplitIsReplace(s[k + |sep|..], sep, d);
      SplitUnfold(s, sep);
      ReplaceUnfold(s, sep, d);
      JoinCons(s[..k], Split(s[k + |sep|..], sep), d);
    }
  }

  lemma {:induction false} ReplaceBySelf(s: string, sep: string)
    ensures Replace(s, sep, sep) == s
    decreases |s|
  {
    var k := Find(s, sep);
    if sep != "" && k != NPOS {
      ReplaceBySelf(s[k + |sep|..], sep);
      assert s == s[..k] + s[k..k + |sep|] + s[k + |sep|..];
    }
  }

  /** Joining the pieces by the separator gives the string back. */
  lemma JoinSplit(s: string, sep: string)
    ensures Join(Split(s, sep), sep) == s
  {
    JoinSplitIsReplace(s, sep, sep);
    ReplaceBySelf(s, sep);
  }

  lemma OccursInFront(s: string, k: nat, pat: string)
    requires k <= |s|
    ensures forall j | OccursAt(s[..k], pat, j) :: OccursAt(s, pat, j) && j + |pat| <= k
  {
    forall j | OccursAt(s[..k], pat, j) ensures OccursAt(s, pat, j) {
      assert s[j..j + |pat|] == s[..k][j..j + |pat|];
    }
  }

  lemma FirstPieceFree(s: string, sep: string)
    requires sep != "" && Find(s, sep) != NPOS
    ensures Find(s[..Find(s, sep)], sep) == NPOS
  {
    OccursInFront(s, Find(s, sep), sep);
  }

  lemma {:induction false} PiecesFreeOfSeparator(s: string, sep: string)
    requires sep != ""
    ensures forall p | p in Split(s, sep) :: Find(p, sep) == NPOS
    decreases |s|
  {
    var k := Find(s, sep);
    if k != NPOS {
      PiecesFreeOfSeparator(s[k + |sep|..], sep);
      FirstPieceFree(s, sep);
      var first, rest := s[..k], Split(s[k + |sep|..], sep);
      assert forall p | p in [first] + rest :: p == first || p in rest;
    }
  }

  /** A list of pieces survives joining and splitting by a one-character separator exactly when no
      piece contains it. */
  lemma {:induction false} SplitJoin(parts: seq<string>, c: char)
    requires parts != []
    ensures Split(Join(parts, [c]), [c]) == parts <==> forall p | p in parts :: c !in p
    decreases |parts|
  {
    var s := Join(parts, [c]);
    if forall p | p in parts :: c !in p {
      SplitCleanJoin(parts, c);
    } else if Split(s, [c]) == parts {
      PiecesFreeOfSeparator(s, [c]);
      forall p | p in parts ensures c !in p {
        if c in p {
          var i :| 0 <= i < |p| && p[i] == c;
          assert p[i..i + 1] == [c] && OccursAt(p, [c], i);
        }
      }
      assert false;
    }
  }

  lemma CharOccurs(s: string, c: char)
    ensures forall k | OccursAt(s, [c], k) :: s[k] == c
  {
    forall k | OccursAt(s, [c], k) ensures s[k] == c {
      assert s[k..k + 1][0] == s[k];
    }
  }

  lemma FindChar(p: string, c: char, rest: string)
    requires c !in p
    ensures Find(p, [c]) == NPOS && Find(p + [c] + rest, [c]) == |p|
  {
    var s := p + [c] + rest;
    CharOccurs(p, c);
    CharOccurs(s, c);
    assert forall k | 0 <= k < |p| :: s[k] == p[k] && p[k] in p;
    assert s[|p|..|p| + 1] == [c];
    FindIs(s, [c], |p|);
  }

  lemma {:induction false} SplitCleanJoin(parts: seq<string>, c: char)
    requires parts != [] && forall p | p in parts :: c !in p
    ensures Split(Join(parts, [c]), [c]) == parts
    decreases |parts|
  {
    var s, p := Join(parts, [c]), parts[0];
    assert p in parts;
    FindChar(p, c, "");
    if |parts| == 1 {
      assert parts == [p];
    } else {
      var rest := Join(parts[1..], [c]);
      FindChar(p, c, rest);
      assert s == p + [c] + rest;
      assert s[..|p|] == p && s[|p| + 1..] == rest;
      assert forall q | q in parts[1..] :: q in parts;
      SplitCleanJoin(parts[1..], c);
      assert parts == [p] + parts[1..];
    }
  }

  /** One turn of the replacement loop: `done` characters are final, the rest is still original. */
  lemma ReplaceTurn(res: string, done: nat, pos: int, src: string, dst: string)
    requires src != "" && done <= |res| && pos == FindFrom(res, src, done) != NPOS
    ensures pos + |src| <= |res|
    ensures var res' := res[..pos] + dst + res[pos + |src|..];
            && res'[pos + |dst|..] == res[pos + |src|..]
            && res'[..pos + |dst|] + Replace(res[pos + |src|..], src, dst) ==
               res[..done] + Replace(res[done..], src, dst)
  {
    FindFromTail(res, src, done);
    var left, k := res[done..], pos - done;
    var a, b, rest := res[..done], left[..k], Replace(left[k + |src|..], src, dst);
    assert left[k + |src|..] == res[pos + |src|..];
    assert Replace(left, src, dst) == (b + dst) + rest;
    assert res[..pos] == a + b;
    Assoc(a, b, dst);
    Assoc(a, b + dst, rest);
    CutAfter(res[..pos] + dst, res[pos + |src|..]);
  }

  lemma CutAfter(front: string, back: string)
    ensures (front + back)[..|front|] == front && (front + back)[|front|..] == back
  {
  }

  method ReplaceStr(str: string, src: string, dst: string) returns (res: string)
    ensures res == Replace(str, src, dst)
  {
    if src == "" {
      return str;
    }
    res := str;
    ghost var done: nat := 0;
    var pos := FindFrom(res, src, 0);
    assert str[0..] == str;
    while pos != NPOS
      invariant done <= |res|
      invariant pos == FindFrom(res, src, done)
      invariant res[..done] + Replace(res[done..], src, dst) == Replace(str, src, dst)
      decreases |res| - done
    {
      ReplaceTurn(res, done, pos, src, dst);
      res := res[..pos] + dst + res[pos + |src|..];
      done := pos + |dst|;
      pos := FindFrom(res, src, pos + |dst|);
    }
    FindFromTail(res, src, done);
    assert res == res[..done] + res[done..];
  }

  // ---------- Trimming, and splitting with options ----------

  function TrimFront(s: string, c: char): string {
    if s != "" && s[0] == c then TrimFront(s[1..], c) else s
  }

  function TrimBack(s: string, c: char): string {
    if s != "" && s[|s| - 1] == c then TrimBack(s[..|s| - 1], c) else s
  }

  function TrimStr(s: string, c: char): string {
    TrimBack(TrimFront(s, c), c)
  }

  ghost predicate AllAre(s: string, c: char) {
    forall i | 0 <= i < |s| :: s[i] == c
  }

  /** A string without its leading and trailing c: nothing but c goes, and none is left at either end. */
  ghost predicate IsTrimmed(s: string, c: char, t: string, k: nat) {
    && k + |t| <= |s| && t == s[k..k + |t|]
    && AllAre(s[..k], c) && AllAre(s[k + |t|..], c)
    && (t != "" ==> t[0] != c && t[|t| - 1] != c)
  }

  lemma {:induction false} TrimFrontIs(s: string, c: char) returns (k: nat)
    ensures k <= |s| && TrimFront(s, c) == s[k..] && AllAre(s[..k], c) && (k < |s| ==> s[k] != c)
    decreases |s|
  {
    k := 0;
    if s != "" && s[0] == c {
      var j := TrimFrontIs(s[1..], c);
      k := j + 1;
      assert s[k..] == s[1..][j..];
      forall i | 0 <= i < k ensures s[i] == c {
        assert i > 0 ==> s[i] == s[1..][..j][i - 1];
      }
    }
  }

  lemma {:induction false} TrimBackIs(s: string, c: char) returns (k: nat)
    ensures k <= |s| && TrimBack(s, c) == s[..k] && AllAre(s[k..], c) && (k > 0 ==> s[k - 1] != c)
    decreases |s|
  {
    k := |s|;
    if s != "" && s[|s| - 1] == c {
      var front := s[..|s| - 1];
      k := TrimBackIs(front, c);
      assert s[..k] == front[..k];
      forall i | k <= i < |s| ensures s[i] == c {
        assert i < |front| ==> s[i] == front[k..][i - k];
      }
    }
  }

  lemma TrimStrIs(s: string, c: char) returns (k: nat)
    ensures IsTrimmed(s, c, TrimStr(s, c), k)
  {
    k := TrimFrontIs(s, c);
    var front := s[k..];
    var n := TrimBackIs(front, c);
    assert front[..n] == s[k..k + n] && front[n..] == s[k + n..];
    assert n > 0 ==> s[k] == front[0];
  }

  lemma TrimNothing(s: string, c: char)
    requires s == "" || (s[0] != c && s[|s| - 1] != c)
    ensures TrimStr(s, c) == s
  {
  }

  function Treat(s: string, needTrim: bool): string {
    if needTrim then TrimStr(s, ' ') else s
  }

  /** The pieces as SplitStr reports them: trimmed if asked, empty ones dropped unless allowed. */
  function Reported(parts: seq<string>, canEmpty: bool, needTrim: bool): seq<string> {
    if parts == [] then []
    else
      var p := Treat(parts[0], needTrim);
      (if p != "" || canEmpty then [p] else []) + Reported(parts[1..], canEmpty, needTrim)
  }

  function SplitOptions(s: string, sep: string, canEmpty: bool, needTrim: bool): seq<string> {
    Reported(Split(Treat(s, needTrim), sep), canEmpty, needTrim)
  }

  /** Without trimming and with empty pieces kept, the options change nothing. */
  lemma {:induction false} ReportedAll(parts: seq<string>)
    ensures Reported(parts, true, false) == parts
  {
    if parts != [] {
      ReportedAll(parts[1..]);
    }
  }

  function ReportOne(p: string, canEmpty: bool, needTrim: bool): seq<string> {
    if Treat(p, needTrim) != "" || canEmpty then [Treat(p, needTrim)] else []
  }

  lemma ReportedCons(p: string, rest: seq<string>, canEmpty: bool, needTrim: bool)
    ensures Reported([p] + rest, canEmpty, needTrim) ==
            ReportOne(p, canEmpty, needTrim) + Reported(rest, canEmpty, needTrim)
  {
    assert ([p] + rest)[1..] == rest;
  }

  lemma ReportFirst(strs: seq<string>, p: string, rest: seq<string>, canEmpty: bool, needTrim: bool)
    ensures strs + Reported([p] + rest, canEmpty, needTrim) ==
            strs + ReportOne(p, canEmpty, needTrim) + Reported(rest, canEmpty, needTrim)
  {
    ReportedCons(p, rest, canEmpty, needTrim);
    Assoc(strs, ReportOne(p, canEmpty, needTrim), Reported(rest, canEmpty, needTrim));
  }

  /** What the loop still has to report for the text it has not split yet, after what it has reported. */
  ghost function Outlook(strs: seq<string>, s: string, sep: string, canEmpty: bool, needTrim: bool): seq<string> {
    strs + Reported(Split(s, sep), canEmpty, needTrim)
  }

  /** One turn of the splitting loop. */
  lemma OutlookTurn(strs: seq<string>, s: string, sep: string, canEmpty: bool, needTrim: bool)
    requires sep != "" && Find(s, sep) != NPOS
    ensures var k := Find(s, sep);
            Outlook(strs, s, sep, canEmpty, needTrim) ==
            Outlook(strs + ReportOne(s[..k], canEmpty, needTrim), s[k + |sep|..], sep, canEmpty, needTrim)
  {
    var k := Find(s, sep);
    SplitUnfold(s, sep);
    ReportFirst(strs, s[..k], Split(s[k + |sep|..], sep), canEmpty, needTrim);
  }

  lemma OutlookEnd(strs: seq<string>, s: string, sep: string, canEmpty: bool, needTrim: bool)
    requires sep == "" || Find(s, sep) == NPOS
    ensures Outlook(strs, s, sep, canEmpty, needTrim) == strs + ReportOne(s, canEmpty, needTrim)
  {
    assert [s] == [s] + [];
    ReportedCons(s, [], canEmpty, needTrim);
  }

  method SplitStr(str: string, sep: string, canEmpty: bool, needTrim: bool) returns (strs: seq<string>)
    ensures strs == SplitOptions(str, sep, canEmpty, needTrim)
  {
    strs := [];
    var strTmp := Treat(str, needTrim);
    ghost var goal := Outlook(strs, strTmp, sep, canEmpty, needTrim);
    assert goal == SplitOptions(str, sep, canEmpty, needTrim);
    var pos := Find(strTmp, sep);
    while pos != NPOS && sep != ""
      invariant pos == Find(strTmp, sep)
      invariant Outlook(strs, strTmp, sep, canEmpty, needTrim) == goal
      decreases |strTmp|
    {
      OutlookTurn(strs, strTmp, sep, canEmpty, needTrim);
      strs := strs + ReportOne(strTmp[..pos], canEmpty, needTrim);
      strTmp := strTmp[pos + |sep|..];
      pos := Find(strTmp, sep);
    }
    OutlookEnd(strs, strTmp, sep, canEmpty, needTrim);
    strs := strs + ReportOne(strTmp, canEmpty, needTrim);
  }

  // ---------- What the options do ----------

  /** `t` is what is reported of the text s: the text itself, or with trimming the text without its blanks at
      both ends. */
  ghost predicate IsTreated(s: string, needTrim: bool, t: string) {
    if needTrim then exists k: nat :: IsTrimmed(s, ' ', t, k) else t == s
  }

  lemma TreatIs(s: string, needTrim: bool)
    ensures IsTreated(s, needTrim, Treat(s, needTrim))
    ensures Treat(s, needTrim) == "" <==> s == "" || (needTrim && AllAre(s, ' '))
  {
    if needTrim {
      var k := TrimStrIs(s, ' ');
      var t := TrimStr(s, ' ');
      assert s == s[..k] + t + s[k + |t|..];
      if t != "" {
        assert s[k] == t[0];
      }
    }
  }

  /** The pieces reported are the treated pieces in order, without those that are empty or, with trimming,
      blank, unless empty ones are allowed; `at` says which piece each one is. */
  ghost predicate IsReport(parts: seq<string>, canEmpty: bool, needTrim: bool, strs: seq<string>, at: seq<nat>) {
    && |at| == |strs|
    && (forall i | 0 <= i < |at| :: at[i] < |parts| && IsTreated(parts[at[i]], needTrim, strs[i]))
    && (forall i, j | 0 <= i < j < |at| :: at[i] < at[j])
    && (forall k: nat | k < |parts| ::
          k in at <==> canEmpty || !(parts[k] == "" || (needTrim && AllAre(parts[k], ' '))))
  }

  lemma {:induction false} ReportedIs(parts: seq<string>, canEmpty: bool, needTrim: bool) returns (at: seq<nat>)
    ensures IsReport(parts, canEmpty, needTrim, Reported(parts, canEmpty, needTrim), at)
    decreases |parts|
  {
    at := [];
    if parts != [] {
      var before, last := parts[..|parts| - 1], parts[|parts| - 1];
      at := ReportedIs(before, canEmpty, needTrim);
      TreatIs(last, needTrim);
      ReportExtended(before, last, canEmpty, needTrim, Reported(before, canEmpty, needTrim), at);
      ReportedSnoc(before, last, canEmpty, needTrim);
      assert parts == before + [last];
      if Treat(last, needTrim) != "" || canEmpty {
        at := at + [|before|];
      }
    }
  }

  lemma {:induction false} ReportedSnoc(before: seq<string>, last: string, canEmpty: bool, needTrim: bool)
    ensures Reported(before + [last], canEmpty, needTrim) ==
            Reported(before, canEmpty, needTrim) + ReportOne(last, canEmpty, needTrim)
    decreases |before|
  {
    if before == [] {
      assert before + [last] == [last] && [last][1..] == [];
    } else {
      assert (before + [last])[1..] == before[1..] + [last];
      ReportedSnoc(before[1..], last, canEmpty, needTrim);
    }
  }

  lemma ReportExtended(before: seq<string>, last: string, canEmpty: bool, needTrim: bool, strs: seq<string>,
                       at: seq<nat>)
    requires IsReport(before, canEmpty, needTrim, strs, at)
    requires IsTreated(last, needTrim, Treat(last, needTrim))
    requires Treat(last, needTrim) == "" <==> last == "" || (needTrim && AllAre(last, ' '))
    ensures if Treat(last, needTrim) != "" || canEmpty
            then IsReport(before + [last], canEmpty, needTrim, strs + [Treat(last, needTrim)], at + [|before|])
            else IsReport(before + [last], canEmpty, needTrim, strs, at)
  {
    var parts := before + [last];
    assert forall k | 0 <= k < |before| :: parts[k] == before[k];
    assert forall k: nat :: k in at + [|before|] <==> k in at || k == |before|;
    assert |before| !in at;
  }

  /** What SplitStr reports, with any options: the treated pieces of the treated text. */
  lemma SplitOptionsAre(s: string, sep: string, canEmpty: bool, needTrim: bool) returns (text: string, at: seq<nat>)
    ensures IsTreated(s, needTrim, text)
    ensures IsReport(Split(text, sep), canEmpty, needTrim, SplitOptions(s, sep, canEmpty, needTrim), at)
  {
    text := Treat(s, needTrim);
    TreatIs(s, needTrim);
    at := ReportedIs(Split(text, sep), canEmpty, needTrim);
  }

  /** With empty pieces kept and no trimming, joining by the separator gives the string back and
      joining by any other string is ReplaceStr. */
  lemma SplitReplaceLaw(str: string, sep: string, d: string)
    ensures var strs := SplitOptions(str, sep, true, false);
            strs != [] && Join(strs, sep) == str && Join(strs, d) == Replace(str, sep, d)
  {
    ReportedAll(Split(str, sep));
    JoinSplit(str, sep);
    JoinSplitIsReplace(str, sep, d);
  }
}
