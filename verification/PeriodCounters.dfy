/** Hourly event counters on the validator and on the store side, and the stamp that carries the hour
    from one to the other. */
module PeriodStamps {
  import opened Collections
  import opened StringSearch
  import opened TextOrder

  const PERIOD_SEQ_INFO_ITEM_CNT: nat := 3

  datatype PeriodSeqInfo = PeriodSeqInfo(timeStamp: string, isNeedExport: bool, periodSeq: nat)

  const NoInfo: PeriodSeqInfo := PeriodSeqInfo("", false, 0)

  function Flag(b: bool): string {
    if b then "1" else "0"
  }

  /** SetEventPeriodSeqInfo: the text stored in the event. */
  function PrintInfo(info: PeriodSeqInfo): string {
    info.timeStamp + " " + Flag(info.isNeedExport) + " " + ToDec(info.periodSeq)
  }

  function InfoFrom(items: seq<string>): PeriodSeqInfo {
    if |items| != PERIOD_SEQ_INFO_ITEM_CNT then NoInfo
    else PeriodSeqInfo(items[0], ReadNumber(items[1], 0) != 0, ReadNumber(items[2], 0))
  }

  /** GetEventPeriodSeqInfo: split at blanks with trimming, empty items dropped. */
  function ParseInfo(text: string): PeriodSeqInfo {
    InfoFrom(SplitOptions(text, " ", false, true))
  }

  method SetAndGet(info: PeriodSeqInfo) returns (text: string, read: PeriodSeqInfo)
    ensures text == info.timeStamp + (if info.isNeedExport then " 1 " else " 0 ") + ToDec(info.periodSeq)
    ensures read == ParseInfo(PrintInfo(info))
    ensures info.timeStamp != "" && ' ' !in info.timeStamp ==> read == info
  {
    text := info.timeStamp;
    text := text + " " + Flag(info.isNeedExport);
    text := text + " " + ToDec(info.periodSeq);
    var allInfo := SplitStr(text, " ", false, true);
    read := InfoFrom(allInfo);
    StampRoundTripIff(info);
    assert " " + Flag(info.isNeedExport) + " " == if info.isNeedExport then " 1 " else " 0 ";
  }

  lemma NumeralRead(n: nat)
    ensures ReadNumber(ToDec(n), 0) == n
  {
    LeadingDigitsAll(ToDec(n));
    FromToDec(n);
  }

  lemma FlagRead(b: bool)
    ensures Flag(b) != "" && ' ' !in Flag(b) && (ReadNumber(Flag(b), 0) != 0 <==> b)
  {
    var d := if b then 1 else 0;
    assert ToDec(d) == Flag(b);
    NumeralRead(d);
  }

  lemma JoinTwo(a: string, b: string)
    ensures Join([a, b], " ") == a + " " + b
  {
    assert [a, b][1..] == [b];
  }

  lemma JoinThree(a: string, b: string, c: string)
    ensures Join([a, b, c], " ") == a + " " + b + " " + c
  {
    assert [a, b, c][1..] == [b, c];
    JoinTwo(b, c);
    Assoc(a + " ", b + " ", c);
    Assoc(a + " ", b, " ");
  }

  /** Items without blanks and not empty come back from the splitting untouched. */
  lemma {:induction false} ReportedClean(items: seq<string>)
    requires forall p | p in items :: p != "" && ' ' !in p
    ensures Reported(items, false, true) == items
  {
    if items != [] {
      assert items[0] in items;
      TrimNothing(items[0], ' ');
      assert forall p | p in items[1..] :: p in items;
      ReportedClean(items[1..]);
    }
  }

  lemma CleanItems(items: seq<string>, text: string)
    requires items != [] && text == Join(items, " ") && forall p | p in items :: p != "" && ' ' !in p
    requires text != "" && text[0] != ' ' && text[|text| - 1] != ' '
    ensures SplitOptions(text, " ", false, true) == items
  {
    TrimNothing(text, ' ');
    SplitCleanJoin(items, ' ');
    ReportedClean(items);
  }

  /** The stamp survives printing, splitting and parsing if its label is non-empty and has no blank. */
  lemma StampRoundTrip(info: PeriodSeqInfo)
    requires info.timeStamp != "" && ' ' !in info.timeStamp
    ensures ParseInfo(PrintInfo(info)) == info
  {
    var l, f, n := info.timeStamp, Flag(info.isNeedExport), ToDec(info.periodSeq);
    var text := PrintInfo(info);
    FlagRead(info.isNeedExport);
    NumeralRead(info.periodSeq);
    JoinThree(l, f, n);
    assert text[0] == l[0] && text[|text| - 1] == n[|n| - 1];
    assert IsDigit(n[|n| - 1]);
    CleanItems([l, f, n], text);
  }

  /** Without a label two items are left, and nothing is read. */
  lemma EmptyLabelLost(info: PeriodSeqInfo)
    requires info.timeStamp == ""
    ensures ParseInfo(PrintInfo(info)) == NoInfo
  {
    var f, n := Flag(info.isNeedExport), ToDec(info.periodSeq);
    var text, trimmed := PrintInfo(info), f + " " + n;
    FlagRead(info.isNeedExport);
    assert "" + " " == " ";
    Assoc(" ", f, " ");
    Assoc(" ", f + " ", n);
    assert text == " " + trimmed && text[1..] == trimmed;
    assert IsDigit(n[|n| - 1]) && trimmed[|trimmed| - 1] == n[|n| - 1] && trimmed[0] == f[0];
    TrimNothing(trimmed, ' ');
    assert TrimStr(text, ' ') == TrimStr(trimmed, ' ');
    JoinTwo(f, n);
    CleanItems([f, n], trimmed);
    assert SplitOptions(text, " ", false, true) == SplitOptions(trimmed, " ", false, true);
  }

  lemma {:induction false} TrimIsPart(s: string, c: char, d: char)
    ensures d !in s ==> d !in TrimFront(s, c) && d !in TrimBack(s, c)
    decreases |s|
  {
    if s != "" {
      TrimIsPart(s[1..], c, d);
      TrimIsPart(s[..|s| - 1], c, d);
    }
  }

  lemma {:induction false} ReportedBlankFree(parts: seq<string>)
    requires forall p | p in parts :: ' ' !in p
    ensures forall q | q in Reported(parts, false, true) :: ' ' !in q
  {
    if parts != [] {
      assert parts[0] in parts;
      TrimIsPart(parts[0], ' ', ' ');
      TrimIsPart(TrimFront(parts[0], ' '), ' ', ' ');
      ReportedBlankFree(parts[1..]);
    }
  }

  lemma BlankIsFound(p: string)
    ensures ' ' in p ==> Find(p, " ") != NPOS
  {
    if ' ' in p {
      var i :| 0 <= i < |p| && p[i] == ' ';
      assert p[i..i + 1] == " ";
      assert OccursAt(p, " ", i);
    }
  }

  /** Whatever is parsed, the label that comes out has no blank. */
  lemma ParsedLabelBlankFree(text: string)
    ensures ' ' !in ParseInfo(text).timeStamp
  {
    var parts := Split(TrimStr(text, ' '), " ");
    PiecesFreeOfSeparator(TrimStr(text, ' '), " ");
    forall p | p in parts ensures ' ' !in p {
      BlankIsFound(p);
    }
    ReportedBlankFree(parts);
  }

  /** Exactly the stamps with a non-empty label free of blanks survive, besides the empty stamp itself. */
  lemma StampRoundTripIff(info: PeriodSeqInfo)
    ensures ParseInfo(PrintInfo(info)) == info <==>
            (info.timeStamp != "" && ' ' !in info.timeStamp) || info == NoInfo
  {
    if info.timeStamp == "" {
      EmptyLabelLost(info);
    } else if ' ' !in info.timeStamp {
      StampRoundTrip(info);
    } else {
      ParsedLabelBlankFree(PrintInfo(info));
    }
  }
}

module PeriodCounters {
  import opened Collections
  import opened TextOrder
  import opened PeriodStamps

  const DEFAULT_PERIOD_SEQ: nat := 1

  /** Counts of one hour: events to be preserved and events to be exported. */
  datatype PeriodInfo = PeriodInfo(timeStamp: string, preserveCnt: nat, exportCnt: nat)

  function Preserved(list: seq<PeriodInfo>, hour: string): nat {
    if list == [] then 0
    else
      var last := list[|list| - 1];
      Preserved(list[..|list| - 1], hour) + (if last.timeStamp == hour then last.preserveCnt else 0)
  }

  function Exported(list: seq<PeriodInfo>, hour: string): nat {
    if list == [] then 0
    else
      var last := list[|list| - 1];
      Exported(list[..|list| - 1], hour) + (if last.timeStamp == hour then last.exportCnt else 0)
  }

  lemma {:induction false} SumsAppend(a: seq<PeriodInfo>, b: seq<PeriodInfo>, hour: string)
    ensures Preserved(a + b, hour) == Preserved(a, hour) + Preserved(b, hour)
    ensures Exported(a + b, hour) == Exported(a, hour) + Exported(b, hour)
    decreases |b|
  {
    if b == [] {
      assert a + b == a;
    } else {
      assert (a + b)[..|a + b| - 1] == a + b[..|b| - 1];
      SumsAppend(a, b[..|b| - 1], hour);
    }
  }

  lemma SumsLast(list: seq<PeriodInfo>, p: PeriodInfo, hour: string)
    ensures Preserved(list + [p], hour) == Preserved(list, hour) + (if p.timeStamp == hour then p.preserveCnt else 0)
    ensures Exported(list + [p], hour) == Exported(list, hour) + (if p.timeStamp == hour then p.exportCnt else 0)
  {
    assert (list + [p])[..|list|] == list;
  }

  lemma SumsOne(p: PeriodInfo, hour: string)
    ensures Preserved([p], hour) == if p.timeStamp == hour then p.preserveCnt else 0
    ensures Exported([p], hour) == if p.timeStamp == hour then p.exportCnt else 0
  {
    assert [p][..0] == [];
  }

  /** Live and logged counts of the validator side. */
  datatype Source = Source(live: seq<PeriodInfo>, logged: seq<PeriodInfo>, periodSeq: nat)
  {
    function TotalPreserved(hour: string): nat {
      Preserved(logged, hour) + Preserved(live, hour)
    }

    function TotalExported(hour: string): nat {
      Exported(logged, hour) + Exported(live, hour)
    }
  }

  /** What one event does, at the hour `now`. */
  function Counted(s: Source, now: string, preserve: bool, collect: bool): Source {
    var n := |s.live|;
    if n > 0 && s.live[n - 1].timeStamp == now then
      var p := s.live[n - 1];
      s.(periodSeq := s.periodSeq + 1,
         live := s.live[..n - 1] +
                   [p.(exportCnt := p.exportCnt + Unit(collect), preserveCnt := p.preserveCnt + Unit(preserve))])
    else
      Source([PeriodInfo(now, Unit(preserve), Unit(collect))], s.logged + s.live, DEFAULT_PERIOD_SEQ)
  }

  class EventPeriodInfoUtil {
    const isBeta: bool
    var periodSeq: nat
    var periodInfoList: seq<PeriodInfo>
    // the lines written to the statistic log
    var logged: seq<PeriodInfo>

    function View(): Source
      reads this
    {
      Source(periodInfoList, logged, periodSeq)
    }

    constructor (isBeta: bool, loaded: seq<PeriodInfo>)
      ensures this.isBeta == isBeta && View() == Source(if isBeta then loaded else [], [], DEFAULT_PERIOD_SEQ)
    {
      this.isBeta := isBeta;
      periodSeq, logged := DEFAULT_PERIOD_SEQ, [];
      periodInfoList := if isBeta then loaded else [];
    }

    method ClearPeriodInfoList()
      modifies this`periodInfoList, this`logged
      ensures periodInfoList == [] && logged == old(logged) + old(periodInfoList)
    {
      while periodInfoList != []
        invariant logged + periodInfoList == old(logged) + old(periodInfoList)
        decreases |periodInfoList|
      {
        assert periodInfoList == [periodInfoList[0]] + periodInfoList[1..];
        assert logged + periodInfoList == logged + [periodInfoList[0]] + periodInfoList[1..];
        logged := logged + [periodInfoList[0]];
        periodInfoList := periodInfoList[1..];
      }
    }

    /** Counts an event under the current hour and stamps it; nothing happens outside beta versions. */
    method UpdatePeriodInfo(now: string, preserve: bool, collect: bool) returns (stamp: PeriodSeqInfo)
      modifies this
      ensures !isBeta ==> View() == old(View()) && stamp == NoInfo
      ensures isBeta ==> View() == Counted(old(View()), now, preserve, collect)
      ensures isBeta ==> stamp == PeriodSeqInfo(now, collect, periodSeq)
    {
      if !isBeta {
        return NoInfo;
      }
      var n := |periodInfoList|;
      if n > 0 && periodInfoList[n - 1].timeStamp == now {
        periodSeq := periodSeq + 1;
        var recent := periodInfoList[n - 1];
        if collect {
          recent := recent.(exportCnt := recent.exportCnt + 1);
        }
        if preserve {
          recent := recent.(preserveCnt := recent.preserveCnt + 1);
        }
        periodInfoList := periodInfoList[..n - 1] + [recent];
        return PeriodSeqInfo(now, collect, periodSeq);
      }
      ClearPeriodInfoList();
      periodSeq := DEFAULT_PERIOD_SEQ;
      periodInfoList := [PeriodInfo(now, Unit(preserve), Unit(collect))];
      return PeriodSeqInfo(now, collect, periodSeq);
    }
  }

  lemma CountedConserves(s: Source, now: string, preserve: bool, collect: bool, hour: string)
    ensures var t := Counted(s, now, preserve, collect);
            && t.TotalPreserved(hour) == s.TotalPreserved(hour) + Unit(now == hour && preserve)
            && t.TotalExported(hour) == s.TotalExported(hour) + Unit(now == hour && collect)
  {
    var n := |s.live|;
    if n > 0 && s.live[n - 1].timeStamp == now {
      var before, p := s.live[..n - 1], s.live[n - 1];
      var q := p.(exportCnt := p.exportCnt + Unit(collect), preserveCnt := p.preserveCnt + Unit(preserve));
      assert s.live == before + [p];
      SumsLast(before, p, hour);
      SumsLast(before, q, hour);
    } else {
      SumsAppend(s.logged, s.live, hour);
      SumsOne(PeriodInfo(now, Unit(preserve), Unit(collect)), hour);
    }
  }

  datatype Arrival = Arrival(now: string, preserve: bool, collect: bool)

  function CountedAll(s: Source, arrivals: seq<Arrival>): Source {
    if arrivals == [] then s
    else
      var a := arrivals[|arrivals| - 1];
      Counted(CountedAll(s, arrivals[..|arrivals| - 1]), a.now, a.preserve, a.collect)
  }

  function Stamped(arrivals: seq<Arrival>, hour: string, exported: bool): nat {
    if arrivals == [] then 0
    else
      var a := arrivals[|arrivals| - 1];
      Stamped(arrivals[..|arrivals| - 1], hour, exported)
        + Unit(a.now == hour && (if exported then a.collect else a.preserve))
  }

  /** Conservation on the validator side: in every run and for every hour, what is logged plus what is
      live equals what was loaded plus the events stamped with that hour. */
  lemma {:induction false} SourceConserves(s: Source, arrivals: seq<Arrival>, hour: string)
    ensures var t := CountedAll(s, arrivals);
            && t.TotalPreserved(hour) == s.TotalPreserved(hour) + Stamped(arrivals, hour, false)
            && t.TotalExported(hour) == s.TotalExported(hour) + Stamped(arrivals, hour, true)
  {
    if arrivals != [] {
      var before, a := arrivals[..|arrivals| - 1], arrivals[|arrivals| - 1];
      SourceConserves(s, before, hour);
      CountedConserves(CountedAll(s, before), a.now, a.preserve, a.collect, hour);
    }
  }

  // ---------- Sequence numbers ----------

  /** Whether all of the last n arrivals fall into the hour of the last. */
  ghost predicate SameHour(arrivals: seq<Arrival>, n: nat)
    requires n <= |arrivals|
  {
    forall i | |arrivals| - n <= i < |arrivals| :: arrivals[i].now == arrivals[|arrivals| - 1].now
  }

  lemma CountedLast(s: Source, now: string, preserve: bool, collect: bool)
    ensures var t := Counted(s, now, preserve, collect);
            && t.live != [] && t.live[|t.live| - 1].timeStamp == now
            && t.periodSeq == if s.live != [] && s.live[|s.live| - 1].timeStamp == now then s.periodSeq + 1 else 1
  {
  }

  /** The events of an hour are numbered from one: the n-th in a row of the same hour, after one of another
      hour, has number n. */
  lemma {:induction false} NumberedFromOne(s: Source, arrivals: seq<Arrival>, n: nat)
    requires 0 < n < |arrivals| && SameHour(arrivals, n)
    requires arrivals[|arrivals| - n - 1].now != arrivals[|arrivals| - 1].now
    ensures CountedAll(s, arrivals).periodSeq == n
    decreases n
  {
    var before := arrivals[..|arrivals| - 1];
    NumberStep(s, arrivals);
    if n > 1 {
      assert arrivals[|arrivals| - 2].now == arrivals[|arrivals| - 1].now;
      NumberedFromOne(s, before, n - 1);
    }
  }

  lemma NumberStep(s: Source, arrivals: seq<Arrival>)
    requires |arrivals| > 1
    ensures var n := |arrivals|;
            CountedAll(s, arrivals).periodSeq ==
            if arrivals[n - 2].now == arrivals[n - 1].now then CountedAll(s, arrivals[..n - 1]).periodSeq + 1 else 1
  {
    var before, a := arrivals[..|arrivals| - 1], arrivals[|arrivals| - 1];
    var b := before[|before| - 1];
    CountedLast(CountedAll(s, before[..|before| - 1]), b.now, b.preserve, b.collect);
    CountedLast(CountedAll(s, before), a.now, a.preserve, a.collect);
  }

  // ---------- Store side ----------

  datatype StoreInfo = StoreInfo(timeStamp: string, storedCnt: nat)

  datatype Stored = Stored(live: seq<StoreInfo>, logged: seq<StoreInfo>)
  {
    function Total(hour: string): nat {
      Sum(logged, hour) + Sum(live, hour)
    }
  }

  function Sum(list: seq<StoreInfo>, hour: string): nat {
    if list == [] then 0 else (if list[0].timeStamp == hour then list[0].storedCnt else 0) + Sum(list[1..], hour)
  }

  lemma {:induction false} SumAppend(a: seq<StoreInfo>, b: seq<StoreInfo>, hour: string)
    ensures Sum(a + b, hour) == Sum(a, hour) + Sum(b, hour)
    decreases |a|
  {
    if a == [] {
      assert a + b == b;
    } else {
      assert (a + b)[1..] == a[1..] + b;
      SumAppend(a[1..], b, hour);
    }
  }

  /** The last position holding a label, or -1. */
  function FindLabel(list: seq<StoreInfo>, hour: string): (r: int)
    ensures -1 <= r < |list|
    ensures r >= 0 ==> list[r].timeStamp == hour
    ensures forall i | r < i < |list| :: list[i].timeStamp != hour
  {
    if list == [] then -1
    else if list[|list| - 1].timeStamp == hour then |list| - 1
    else FindLabel(list[..|list| - 1], hour)
  }

  predicate OutOfDate(p: StoreInfo, hour: string, twoHoursAgo: string) {
    p.timeStamp == twoHoursAgo || Less(p.timeStamp, twoHoursAgo) || Less(hour, p.timeStamp)
  }

  /** A label after the hour two hours ago and not after the present one. */
  ghost predicate Within(stamp: string, hour: string, twoHoursAgo: string) {
    Less(twoHoursAgo, stamp) && (stamp == hour || Less(stamp, hour))
  }

  lemma OutOfDateIff(p: StoreInfo, hour: string, twoHoursAgo: string)
    ensures OutOfDate(p, hour, twoHoursAgo) <==> !Within(p.timeStamp, hour, twoHoursAgo)
  {
    LessOrNot(twoHoursAgo, p.timeStamp);
    LessOrNot(hour, p.timeStamp);
  }

  /** How many entries at the front are out of date. */
  function Expired(list: seq<StoreInfo>, hour: string, twoHoursAgo: string): (k: nat)
    ensures k <= |list|
    ensures forall i | 0 <= i < k :: !Within(list[i].timeStamp, hour, twoHoursAgo)
    ensures k < |list| ==> Within(list[k].timeStamp, hour, twoHoursAgo)
  {
    if list == [] then 0
    else
      OutOfDateIff(list[0], hour, twoHoursAgo);
      if !OutOfDate(list[0], hour, twoHoursAgo) then 0 else 1 + Expired(list[1..], hour, twoHoursAgo)
  }

  function StoredNext(s: Stored, hour: string, twoHoursAgo: string): Stored {
    var r := FindLabel(s.live, hour);
    if hour == "" then s
    else if r >= 0 then s.(live := s.live[r := s.live[r].(storedCnt := s.live[r].storedCnt + 1)])
    else
      var k := Expired(s.live, hour, twoHoursAgo);
      Stored(s.live[k..] + [StoreInfo(hour, 1)], s.logged + s.live[..k])
  }

  class SysEventStore {
    const isBeta: bool
    var periodInfoList: seq<StoreInfo>
    var logged: seq<StoreInfo>

    function View(): Stored
      reads this
    {
      Stored(periodInfoList, logged)
    }

    constructor (isBeta: bool, loaded: seq<StoreInfo>)
      ensures this.isBeta == isBeta && View() == Stored(if isBeta then loaded else [], [])
    {
      this.isBeta := isBeta;
      logged := [];
      periodInfoList := if isBeta then loaded else [];
    }

    /** Counts a stored event under the hour of its stamp; `twoHoursAgo` is the label of the hour two
        hours before that one. */
    method StatisticStorePeriodInfo(hour: string, twoHoursAgo: string)
      modifies this
      ensures View() == if isBeta then StoredNext(old(View()), hour, twoHoursAgo) else old(View())
    {
      if !isBeta || hour == "" {
        return;
      }
      var i := |periodInfoList| - 1;
      while i >= 0 && periodInfoList[i].timeStamp != hour
        invariant -1 <= i < |periodInfoList|
        invariant forall j | i < j < |periodInfoList| :: periodInfoList[j].timeStamp != hour
      {
        i := i - 1;
      }
      FindLabelIs(periodInfoList, hour, i);
      if i >= 0 {
        periodInfoList := periodInfoList[i := periodInfoList[i].(storedCnt := periodInfoList[i].storedCnt + 1)];
        return;
      }
      LogExpired(hour, twoHoursAgo);
      periodInfoList := periodInfoList + [StoreInfo(hour, 1)];
    }

    /** Moves the out-of-date entries at the front to the log. */
    method LogExpired(hour: string, twoHoursAgo: string)
      modifies this
      ensures var k := Expired(old(periodInfoList), hour, twoHoursAgo);
              periodInfoList == old(periodInfoList)[k..] && logged == old(logged) + old(periodInfoList)[..k]
    {
      ghost var live, log := periodInfoList, logged;
      ghost var k := 0;
      while periodInfoList != [] && OutOfDate(periodInfoList[0], hour, twoHoursAgo)
        invariant k <= |live| && periodInfoList == live[k..] && logged == log + live[..k]
        invariant Expired(live, hour, twoHoursAgo) == k + Expired(live[k..], hour, twoHoursAgo)
        decreases |periodInfoList|
      {
        assert live[..k + 1] == live[..k] + [live[k]] && live[k..][1..] == live[k + 1..];
        assert log + live[..k] + [live[k]] == log + live[..k + 1];
        logged := logged + [periodInfoList[0]];
        periodInfoList := periodInfoList[1..];
        k := k + 1;
      }
    }
  }

  lemma FindLabelIs(list: seq<StoreInfo>, hour: string, r: int)
    requires -1 <= r < |list| && (r >= 0 ==> list[r].timeStamp == hour)
    requires forall i | r < i < |list| :: list[i].timeStamp != hour
    ensures FindLabel(list, hour) == r
  {
    var f := FindLabel(list, hour);
    assert f >= 0 ==> list[f].timeStamp == hour;
  }

  ghost predicate DistinctLabels(list: seq<StoreInfo>) {
    forall i, j | 0 <= i < j < |list| :: list[i].timeStamp != list[j].timeStamp
  }

  lemma SumReplace(list: seq<StoreInfo>, r: nat, q: StoreInfo, hour: string)
    requires r < |list| && q.timeStamp == list[r].timeStamp
    ensures Sum(list[r := q], hour) + (if q.timeStamp == hour then list[r].storedCnt else 0) ==
            Sum(list, hour) + (if q.timeStamp == hour then q.storedCnt else 0)
  {
    assert list == list[..r] + ([list[r]] + list[r + 1..]);
    assert list[r := q] == list[..r] + ([q] + list[r + 1..]);
    SumAppend(list[..r], [list[r]] + list[r + 1..], hour);
    SumAppend(list[..r], [q] + list[r + 1..], hour);
    assert ([list[r]] + list[r + 1..])[1..] == list[r + 1..] && ([q] + list[r + 1..])[1..] == list[r + 1..];
  }

  lemma StoredConserves(s: Stored, stamp: string, twoHoursAgo: string, hour: string)
    ensures var t := StoredNext(s, stamp, twoHoursAgo);
            && t.Total(hour) == s.Total(hour) + Unit(stamp == hour && stamp != "")
            && (DistinctLabels(s.live) ==> DistinctLabels(t.live))
  {
    var r := FindLabel(s.live, stamp);
    if stamp != "" {
      if r >= 0 {
        SumReplace(s.live, r, s.live[r].(storedCnt := s.live[r].storedCnt + 1), hour);
      } else {
        var k := Expired(s.live, stamp, twoHoursAgo);
        MoveConserves(s.live, s.logged, k, stamp, hour);
        MoveKeepsDistinct(s.live, k, stamp);
      }
    }
  }

  /** Logging the first k entries and opening a new one moves counts around and adds one. */
  lemma MoveConserves(live: seq<StoreInfo>, logged: seq<StoreInfo>, k: nat, stamp: string, hour: string)
    requires k <= |live|
    ensures Sum(logged + live[..k], hour) + Sum(live[k..] + [StoreInfo(stamp, 1)], hour) ==
            Sum(logged, hour) + Sum(live, hour) + Unit(stamp == hour)
  {
    SumAppend(logged, live[..k], hour);
    SumAppend(live[k..], [StoreInfo(stamp, 1)], hour);
    SumAppend(live[..k], live[k..], hour);
    assert live == live[..k] + live[k..];
    SumOne(StoreInfo(stamp, 1), hour);
  }

  lemma SumOne(p: StoreInfo, hour: string)
    ensures Sum([p], hour) == if p.timeStamp == hour then p.storedCnt else 0
  {
    assert [p][1..] == [];
  }

  lemma MoveKeepsDistinct(live: seq<StoreInfo>, k: nat, stamp: string)
    requires k <= |live| && forall i | 0 <= i < |live| :: live[i].timeStamp != stamp
    ensures DistinctLabels(live) ==> DistinctLabels(live[k..] + [StoreInfo(stamp, 1)])
  {
  }

  /** The hour of a stamp and the hour two hours before it. */
  datatype StoreArrival = StoreArrival(hour: string, twoHoursAgo: string)

  function StoredAll(s: Stored, arrivals: seq<StoreArrival>): Stored {
    if arrivals == [] then s
    else
      var last := arrivals[|arrivals| - 1];
      StoredNext(StoredAll(s, arrivals[..|arrivals| - 1]), last.hour, last.twoHoursAgo)
  }

  function StoreStamped(arrivals: seq<StoreArrival>, hour: string): nat {
    if arrivals == [] then 0
    else StoreStamped(arrivals[..|arrivals| - 1], hour) + Unit(arrivals[|arrivals| - 1].hour == hour && hour != "")
  }

  /** Conservation on the store side: in every run and for every hour, logged plus live counts equal the
      loaded ones plus the events stamped with it, and live labels stay distinct. */
  lemma {:induction false} StoreSideConserves(s: Stored, arrivals: seq<StoreArrival>, hour: string)
    ensures var t := StoredAll(s, arrivals);
            && t.Total(hour) == s.Total(hour) + StoreStamped(arrivals, hour)
            && (DistinctLabels(s.live) ==> DistinctLabels(t.live))
  {
    if arrivals != [] {
      var before, a := arrivals[..|arrivals| - 1], arrivals[|arrivals| - 1];
      StoreSideConserves(s, before, hour);
      StoredConserves(StoredAll(s, before), a.hour, a.twoHoursAgo, hour);
    }
  }
}
