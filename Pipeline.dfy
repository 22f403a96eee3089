/**
 * The two dashboard tabs: the date filter, the chain of filters each tab
 * applies to its table one after the other, and the counters shown above the
 * filtered table. What the user picks in the widgets is a plain input here.
 */
module Pipeline {
  import opened Wrappers
  import opened Seqs
  import opened Records

  // ---------------------------------------------------------------------------
  // Date filter
  // ---------------------------------------------------------------------------

  /** How a date range (start day, end day) tests a timestamp. */
  type RangeTest = (Timestamp, Day, Day) -> bool

  /** The whole calendar days from start to end, both included. */
  predicate WithinDays(t: Timestamp, start: Day, end: Day) {
    start <= DayOf(t) <= end
  }

  /**
   * between(Timestamp(start), Timestamp(end), inclusive="both") as written:
   * from the midnight that begins start up to the midnight that begins end.
   */
  predicate BetweenMidnights(t: Timestamp, start: Day, end: Day) {
    DayStart(start) <= t <= DayStart(end)
  }

  /**
   * Whether apply_date_filter keeps a record with date dt: an unset range
   * keeps every dated record, a set one the dated records it admits, and an
   * undated record is kept exactly when include_missing holds.
   */
  predicate DateAdmits(within: RangeTest, dt: Option<Timestamp>, start: Option<Day>, end: Option<Day>,
                       includeMissing: bool) {
    match dt
    case None => includeMissing
    case Some(t) => start.None? || end.None? || within(t, start.value, end.value)
  }

  /** apply_date_filter with a given range test. */
  function DateFilter<T(!new)>(within: RangeTest, rows: seq<T>, date: T -> Option<Timestamp>,
                               start: Option<Day>, end: Option<Day>, includeMissing: bool): (r: seq<T>)
    ensures r == Filter(rows, x => DateAdmits(within, date(x), start, end, includeMissing))
    ensures IsSubseq(r, rows)
  {
    var admits := x => DateAdmits(within, date(x), start, end, includeMissing);
    FilterIsSubseq(rows, admits);
    if start.None? || end.None? then
      if includeMissing then
        FilterAll(rows, admits);
        rows
      else
        FilterExt(rows, x => date(x).Some?, admits);
        Filter(rows, x => date(x).Some?)
    else
      var mask := x => (date(x).Some? && within(date(x).value, start.value, end.value)) ||
        (includeMissing && date(x).None?);
      FilterExt(rows, mask, admits);
      Filter(rows, mask)
  }

  /** apply_date_filter as the dashboard means it: whole days from start to end. */
  function ApplyDateFilter<T(!new)>(rows: seq<T>, date: T -> Option<Timestamp>,
                                    start: Option<Day>, end: Option<Day>, includeMissing: bool): seq<T> {
    DateFilter(WithinDays, rows, date, start, end, includeMissing)
  }

  /** apply_date_filter as written: the range ends at the midnight that begins the end day. */
  function ApplyDateFilterAsWritten<T(!new)>(rows: seq<T>, date: T -> Option<Timestamp>,
                                             start: Option<Day>, end: Option<Day>, includeMissing: bool): seq<T> {
    DateFilter(BetweenMidnights, rows, date, start, end, includeMissing)
  }

  /** With start or end unset, the filter only decides about undated records. */
  lemma DateFilterUnset<T(!new)>(within: RangeTest, rows: seq<T>, date: T -> Option<Timestamp>,
                                 start: Option<Day>, end: Option<Day>, includeMissing: bool)
    requires start.None? || end.None?
    ensures includeMissing ==> DateFilter(within, rows, date, start, end, includeMissing) == rows
    ensures !includeMissing ==>
      DateFilter(within, rows, date, start, end, includeMissing) == Filter(rows, x => date(x).Some?)
  {
    var admits := x => DateAdmits(within, date(x), start, end, includeMissing);
    if includeMissing {
      FilterAll(rows, admits);
    } else {
      FilterExt(rows, x => date(x).Some?, admits);
    }
  }

  /** A record is kept exactly when its date is admitted; kept records keep their order. */
  lemma DateFilterKeeps<T(!new)>(within: RangeTest, rows: seq<T>, date: T -> Option<Timestamp>,
                                 start: Option<Day>, end: Option<Day>, includeMissing: bool, x: T)
    ensures x in DateFilter(within, rows, date, start, end, includeMissing) <==>
      x in rows && DateAdmits(within, date(x), start, end, includeMissing)
  {
  }

  /** Later days start later, and only later days do. */
  lemma DayStartOrder(d: Day, e: Day)
    ensures d <= e <==> DayStart(d) <= DayStart(e)
  {
    DayStartMonotonic(d, e);
    DayStartMonotonic(e + 1, d);
    assert DayStart(e + 1) == DayStart(e) + NanosPerDay;
  }

  /** Everything the range test as written admits, the whole-day test admits too. */
  lemma BetweenMidnightsWithinDays(t: Timestamp, start: Day, end: Day)
    requires BetweenMidnights(t, start, end)
    ensures WithinDays(t, start, end)
  {
    DayStartOrder(start, DayOf(t));
    DayStartOrder(DayOf(t), end);
  }

  /** At midnight the two range tests agree. */
  lemma MidnightTestsAgree(t: Timestamp, start: Day, end: Day)
    requires t == DayStart(DayOf(t))
    ensures BetweenMidnights(t, start, end) <==> WithinDays(t, start, end)
  {
    DayStartOrder(start, DayOf(t));
    DayStartOrder(DayOf(t), end);
  }

  /** The filter as written keeps a subset of what the intended filter keeps. */
  lemma AsWrittenKeepsLess<T(!new)>(rows: seq<T>, date: T -> Option<Timestamp>,
                                    start: Option<Day>, end: Option<Day>, includeMissing: bool, x: T)
    requires x in ApplyDateFilterAsWritten(rows, date, start, end, includeMissing)
    ensures x in ApplyDateFilter(rows, date, start, end, includeMissing)
  {
    if date(x).Some? && start.Some? && end.Some? {
      BetweenMidnightsWithinDays(date(x).value, start.value, end.value);
    }
  }

  /** When every date is a midnight, the filter as written is the intended one. */
  lemma AsWrittenAtMidnights<T(!new)>(rows: seq<T>, date: T -> Option<Timestamp>,
                                      start: Option<Day>, end: Option<Day>, includeMissing: bool)
    requires forall x :: x in rows && date(x).Some? ==> date(x).value == DayStart(DayOf(date(x).value))
    ensures ApplyDateFilterAsWritten(rows, date, start, end, includeMissing) ==
      ApplyDateFilter(rows, date, start, end, includeMissing)
  {
    forall x | x in rows
      ensures DateAdmits(BetweenMidnights, date(x), start, end, includeMissing) ==
        DateAdmits(WithinDays, date(x), start, end, includeMissing)
    {
      if date(x).Some? && start.Some? && end.Some? {
        MidnightTestsAgree(date(x).value, start.value, end.value);
      }
    }
    FilterExt(rows, x => DateAdmits(BetweenMidnights, date(x), start, end, includeMissing),
      x => DateAdmits(WithinDays, date(x), start, end, includeMissing));
  }

  /** As written, a record dated after midnight on the end day is dropped. */
  lemma AsWrittenDropsEndDay<T(!new)>(rows: seq<T>, date: T -> Option<Timestamp>,
                                      start: Day, end: Day, includeMissing: bool, x: T)
    requires x in rows && date(x).Some? && start <= end
    requires DayOf(date(x).value) == end && date(x).value != DayStart(end)
    ensures x !in ApplyDateFilterAsWritten(rows, date, Some(start), Some(end), includeMissing)
    ensures x in ApplyDateFilter(rows, date, Some(start), Some(end), includeMissing)
  {
  }

  /** The smallest instance: one record at 00:00:00.000000001 on day 5, range day 5 to day 5. */
  lemma AsWrittenDropsEndDayExample()
    ensures ApplyDateFilterAsWritten([DayStart(5) + 1], (t: Timestamp) => Some(t), Some(5), Some(5), false) == []
    ensures ApplyDateFilter([DayStart(5) + 1], (t: Timestamp) => Some(t), Some(5), Some(5), false) == [DayStart(5) + 1]
  {
    var t := DayStart(5) + 1;
    var date := (u: Timestamp) => Some(u);
    DayOfIff(t, 5);
    AsWrittenDropsEndDay([t], date, 5, 5, false, t);
    var dropped := ApplyDateFilterAsWritten([t], date, Some(5), Some(5), false);
    assert forall y :: y in dropped ==> y == t;
    var kept := ApplyDateFilter([t], date, Some(5), Some(5), false);
    assert kept[0] == t;
  }

  // ---------------------------------------------------------------------------
  // Default date range
  // ---------------------------------------------------------------------------

  /** The earlier of two days. */
  function MinDay(a: Day, b: Day): Day {
    if a <= b then a else b
  }

  /** The later of two days. */
  function MaxDay(a: Day, b: Day): Day {
    if a <= b then b else a
  }

  /**
   * The default range of date_filter_ui: None when no date is present,
   * otherwise the first and the last day on which a present date falls.
   */
  function DayBounds(dts: seq<Option<Timestamp>>): (b: Option<(Day, Day)>)
    ensures b.None? <==> forall i :: 0 <= i < |dts| ==> dts[i].None?
    ensures b.Some? ==> forall i :: 0 <= i < |dts| && dts[i].Some? ==>
      b.value.0 <= DayOf(dts[i].value) <= b.value.1
    ensures b.Some? ==> exists i :: 0 <= i < |dts| && dts[i].Some? && DayOf(dts[i].value) == b.value.0
    ensures b.Some? ==> exists i :: 0 <= i < |dts| && dts[i].Some? && DayOf(dts[i].value) == b.value.1
  {
    if dts == [] then None
    else
      var rest := DayBounds(dts[1..]);
      assert forall i :: 1 <= i < |dts| ==> dts[i] == dts[1..][i - 1];
      match dts[0]
      case None => rest
      case Some(t) =>
        var d := DayOf(t);
        match rest
        case None => Some((d, d))
        case Some((lo, hi)) => Some((MinDay(d, lo), MaxDay(d, hi)))
  }

  /**
   * Under the default range the intended filter removes nothing but, when
   * include_missing is off, the undated records.
   */
  lemma DefaultRangeKeepsDated<T(!new)>(rows: seq<T>, date: T -> Option<Timestamp>, includeMissing: bool)
    ensures var b := DayBounds(Map(rows, date));
      var start := if b.Some? then Some(b.value.0) else None;
      var end := if b.Some? then Some(b.value.1) else None;
      ApplyDateFilter(rows, date, start, end, includeMissing) == Filter(rows, x => date(x).Some? || includeMissing)
  {
    var b := DayBounds(Map(rows, date));
    var start := if b.Some? then Some(b.value.0) else None;
    var end := if b.Some? then Some(b.value.1) else None;
    forall x | x in rows
      ensures DateAdmits(WithinDays, date(x), start, end, includeMissing) == (date(x).Some? || includeMissing)
    {
      var i :| 0 <= i < |rows| && rows[i] == x;
      assert Map(rows, date)[i] == date(x);
    }
    FilterExt(rows, x => DateAdmits(WithinDays, date(x), start, end, includeMissing),
      x => date(x).Some? || includeMissing);
  }

  /**
   * Under the default range the filter as written drops every record dated
   * after midnight on the last day, among them the latest record.
   */
  lemma DefaultRangeAsWrittenDropsLatest<T(!new)>(rows: seq<T>, date: T -> Option<Timestamp>,
                                                  includeMissing: bool, x: T)
    requires x in rows && date(x).Some?
    requires var b := DayBounds(Map(rows, date));
      b.Some? && DayOf(date(x).value) == b.value.1 && date(x).value != DayStart(b.value.1)
    ensures var b := DayBounds(Map(rows, date));
      x !in ApplyDateFilterAsWritten(rows, date, Some(b.value.0), Some(b.value.1), includeMissing)
  {
    var b := DayBounds(Map(rows, date));
    var i :| 0 <= i < |rows| && rows[i] == x;
    assert Map(rows, date)[i] == date(x);
    AsWrittenDropsEndDay(rows, date, b.value.0, b.value.1, includeMissing, x);
  }

  // ---------------------------------------------------------------------------
  // The filter chain of a tab
  // ---------------------------------------------------------------------------

  /** The "all" entry of the region and city selects. */
  const Todas: string := "(Todas)"

  /** The status select: "(Todas)", the sentinel itself, or everything but it. */
  datatype Status = AnyStatus | WithSentinel | WithoutSentinel

  /** What the user picked in a tab's widgets. */
  datatype Selection = Selection(
    start: Option<Day>,
    end: Option<Day>,
    includeMissing: bool,
    levels: seq<string>,
    region: string,
    city: string,
    status: Status)

  /** The columns a tab filters on, and the sentinel its status select tests. */
  datatype Columns<-T> = Columns(
    date: T -> Option<Timestamp>,
    level: T -> Cell,
    region: T -> Cell,
    city: T -> Cell,
    shown: T -> string,
    sentinel: string)

  /** isin(levels) behind "if levels": no selection keeps all, a null level is never in the list. */
  predicate LevelAdmits(levels: seq<string>, v: Cell) {
    levels == [] || (v.Some? && v.value in levels)
  }

  /** A select with "(Todas)": that entry keeps all, any other keeps the cells equal to it. */
  predicate ChoiceAdmits(choice: string, v: Cell) {
    choice == Todas || v == Some(choice)
  }

  /** The three-way status select on a sentinel text. */
  predicate StatusAdmits(status: Status, shown: string, sentinel: string) {
    match status
    case AnyStatus => true
    case WithSentinel => shown == sentinel
    case WithoutSentinel => shown != sentinel
  }

  /** The tests of the chain up to and including the date filter, with the given range test. */
  predicate UpToDate<T>(within: RangeTest, cs: Columns<T>, sel: Selection, x: T) {
    DateAdmits(within, cs.date(x), sel.start, sel.end, sel.includeMissing)
  }

  /** The tests of the chain up to and including the service levels. */
  predicate UpToLevel<T>(within: RangeTest, cs: Columns<T>, sel: Selection, x: T) {
    UpToDate(within, cs, sel, x) && LevelAdmits(sel.levels, cs.level(x))
  }

  /** The tests of the chain up to and including the region. */
  predicate UpToRegion<T>(within: RangeTest, cs: Columns<T>, sel: Selection, x: T) {
    UpToLevel(within, cs, sel, x) && ChoiceAdmits(sel.region, cs.region(x))
  }

  /** The tests of the chain up to and including the city. */
  predicate UpToCity<T>(within: RangeTest, cs: Columns<T>, sel: Selection, x: T) {
    UpToRegion(within, cs, sel, x) && ChoiceAdmits(sel.city, cs.city(x))
  }

  /** Whether a record survives all five steps of the chain. */
  predicate Admits<T>(within: RangeTest, cs: Columns<T>, sel: Selection, x: T) {
    UpToCity(within, cs, sel, x) && StatusAdmits(sel.status, cs.shown(x), cs.sentinel)
  }

  /** The records of a tab that the selection shows, in table order, for a given range test. */
  function Selected<T(!new)>(within: RangeTest, rows: seq<T>, cs: Columns<T>, sel: Selection): seq<T> {
    Filter(rows, x => Admits(within, cs, sel, x))
  }

  /**
   * One step of a chain: when the step is active, selecting by test what the
   * earlier steps left is selecting by the longer conjunction; when it is not,
   * the longer conjunction adds nothing.
   */
  lemma ChainStep<T(!new)>(rows: seq<T>, prev: T -> bool, next: T -> bool, test: T -> bool, active: bool)
    requires forall x :: next(x) == (prev(x) && (!active || test(x)))
    ensures active ==> Filter(Filter(rows, prev), test) == Filter(rows, next)
    ensures !active ==> Filter(rows, prev) == Filter(rows, next)
  {
    if active {
      FilterFilter(rows, prev, test);
      FilterExt(rows, x => prev(x) && test(x), next);
    } else {
      FilterExt(rows, prev, next);
    }
  }

  /** The service-level step narrows the date-filtered records to the level test. */
  lemma LevelStage<T(!new)>(within: RangeTest, rows: seq<T>, cs: Columns<T>, sel: Selection)
    ensures sel.levels != [] ==>
      Filter(Filter(rows, x => UpToDate(within, cs, sel, x)), x => cs.level(x).Some? && cs.level(x).value in sel.levels) ==
      Filter(rows, x => UpToLevel(within, cs, sel, x))
    ensures sel.levels == [] ==> Filter(rows, x => UpToDate(within, cs, sel, x)) == Filter(rows, x => UpToLevel(within, cs, sel, x))
  {
    ChainStep(rows, x => UpToDate(within, cs, sel, x), x => UpToLevel(within, cs, sel, x),
      x => cs.level(x).Some? && cs.level(x).value in sel.levels, sel.levels != []);
  }

  /** The region step. */
  lemma RegionStage<T(!new)>(within: RangeTest, rows: seq<T>, cs: Columns<T>, sel: Selection)
    ensures sel.region != Todas ==>
      Filter(Filter(rows, x => UpToLevel(within, cs, sel, x)), x => cs.region(x) == Some(sel.region)) ==
      Filter(rows, x => UpToRegion(within, cs, sel, x))
    ensures sel.region == Todas ==> Filter(rows, x => UpToLevel(within, cs, sel, x)) == Filter(rows, x => UpToRegion(within, cs, sel, x))
  {
    ChainStep(rows, x => UpToLevel(within, cs, sel, x), x => UpToRegion(within, cs, sel, x),
      x => cs.region(x) == Some(sel.region), sel.region != Todas);
  }

  /** The city step. */
  lemma CityStage<T(!new)>(within: RangeTest, rows: seq<T>, cs: Columns<T>, sel: Selection)
    ensures sel.city != Todas ==>
      Filter(Filter(rows, x => UpToRegion(within, cs, sel, x)), x => cs.city(x) == Some(sel.city)) ==
      Filter(rows, x => UpToCity(within, cs, sel, x))
    ensures sel.city == Todas ==> Filter(rows, x => UpToRegion(within, cs, sel, x)) == Filter(rows, x => UpToCity(within, cs, sel, x))
  {
    ChainStep(rows, x => UpToRegion(within, cs, sel, x), x => UpToCity(within, cs, sel, x),
      x => cs.city(x) == Some(sel.city), sel.city != Todas);
  }

  /** The status step, in its three cases. */
  lemma StatusStage<T(!new)>(within: RangeTest, rows: seq<T>, cs: Columns<T>, sel: Selection)
    ensures sel.status == WithSentinel ==>
      Filter(Filter(rows, x => UpToCity(within, cs, sel, x)), x => cs.shown(x) == cs.sentinel) == Selected(within, rows, cs, sel)
    ensures sel.status == WithoutSentinel ==>
      Filter(Filter(rows, x => UpToCity(within, cs, sel, x)), x => cs.shown(x) != cs.sentinel) == Selected(within, rows, cs, sel)
    ensures sel.status == AnyStatus ==> Filter(rows, x => UpToCity(within, cs, sel, x)) == Selected(within, rows, cs, sel)
  {
    match sel.status
    case WithSentinel =>
      ChainStep(rows, x => UpToCity(within, cs, sel, x), x => Admits(within, cs, sel, x), x => cs.shown(x) == cs.sentinel, true);
    case WithoutSentinel =>
      ChainStep(rows, x => UpToCity(within, cs, sel, x), x => Admits(within, cs, sel, x), x => cs.shown(x) != cs.sentinel, true);
    case AnyStatus =>
      ChainStep(rows, x => UpToCity(within, cs, sel, x), x => Admits(within, cs, sel, x), x => true, false);
  }

  /**
   * The chain of a tab: the date filter with the given range test, then the
   * service levels (only when some are selected), the region and the city
   * (only when not "(Todas)") and the status, each applied to what the
   * previous step left. The result is the records that pass all five tests,
   * in their original order.
   */
  method TabView<T(!new)>(within: RangeTest, rows: seq<T>, cs: Columns<T>, sel: Selection) returns (tmp: seq<T>)
    ensures tmp == Selected(within, rows, cs, sel)
    ensures IsSubseq(tmp, rows)
  {
    tmp := DateFilter(within, rows, cs.date, sel.start, sel.end, sel.includeMissing);
    FilterExt(rows, x => DateAdmits(within, cs.date(x), sel.start, sel.end, sel.includeMissing),
      x => UpToDate(within, cs, sel, x));

    LevelStage(within, rows, cs, sel);
    if sel.levels != [] {
      tmp := Filter(tmp, x => cs.level(x).Some? && cs.level(x).value in sel.levels);
    }
    RegionStage(within, rows, cs, sel);
    if sel.region != Todas {
      tmp := Filter(tmp, x => cs.region(x) == Some(sel.region));
    }
    CityStage(within, rows, cs, sel);
    if sel.city != Todas {
      tmp := Filter(tmp, x => cs.city(x) == Some(sel.city));
    }
    StatusStage(within, rows, cs, sel);
    if sel.status == WithSentinel {
      tmp := Filter(tmp, x => cs.shown(x) == cs.sentinel);
    } else if sel.status == WithoutSentinel {
      tmp := Filter(tmp, x => cs.shown(x) != cs.sentinel);
    }
    FilterIsSubseq(rows, x => Admits(within, cs, sel, x));
  }

  /** The columns the coletas tab filters on. */
  const ColetaColumns: Columns<Coleta> := Columns(
    (c: Coleta) => c.dataColetaDt,
    (c: Coleta) => c.nivelServico,
    (c: Coleta) => c.ufOrigem,
    (c: Coleta) => c.cidadeOrigem,
    (c: Coleta) => c.os,
    SemOs)

  /** The columns the entregas tab filters on. */
  const EntregaColumns: Columns<Entrega> := Columns(
    (e: Entrega) => e.prevEntregaDt,
    (e: Entrega) => e.nivelServico,
    (e: Entrega) => e.ufDestino,
    (e: Entrega) => e.cidadeDestino,
    (e: Entrega) => e.dataEntrega,
    NaoEntregue)

  /**
   * The coletas tab as written: pickup date (ending at the midnight that
   * begins the end day), service level, origin UF, origin city, OS status.
   */
  method ColetasView(coletas: seq<Coleta>, sel: Selection) returns (tmp: seq<Coleta>)
    ensures forall c :: c in tmp <==> (c in coletas &&
      DateAdmits(BetweenMidnights, c.dataColetaDt, sel.start, sel.end, sel.includeMissing) &&
      LevelAdmits(sel.levels, c.nivelServico) && ChoiceAdmits(sel.region, c.ufOrigem) &&
      ChoiceAdmits(sel.city, c.cidadeOrigem) && StatusAdmits(sel.status, c.os, SemOs))
    ensures tmp == Selected(BetweenMidnights, coletas, ColetaColumns, sel)
    ensures IsSubseq(tmp, coletas)
  {
    tmp := TabView(BetweenMidnights, coletas, ColetaColumns, sel);
  }

  /**
   * The entregas tab as written: expected delivery date (ending at the
   * midnight that begins the end day), service level, destination UF and
   * city, delivery status.
   */
  method EntregasView(entregas: seq<Entrega>, sel: Selection) returns (tmp: seq<Entrega>)
    ensures forall e :: e in tmp <==> (e in entregas &&
      DateAdmits(BetweenMidnights, e.prevEntregaDt, sel.start, sel.end, sel.includeMissing) &&
      LevelAdmits(sel.levels, e.nivelServico) && ChoiceAdmits(sel.region, e.ufDestino) &&
      ChoiceAdmits(sel.city, e.cidadeDestino) && StatusAdmits(sel.status, e.dataEntrega, NaoEntregue))
    ensures tmp == Selected(BetweenMidnights, entregas, EntregaColumns, sel)
    ensures IsSubseq(tmp, entregas)
  {
    tmp := TabView(BetweenMidnights, entregas, EntregaColumns, sel);
  }

  // ---------------------------------------------------------------------------
  // Properties of the chain
  // ---------------------------------------------------------------------------

  /** The selection with another status. */
  function WithStatus(sel: Selection, status: Status): Selection {
    sel.(status := status)
  }

  /** Restricting the "(Todas)" status view to a status gives that status's view. */
  lemma StatusRefines<T(!new)>(within: RangeTest, rows: seq<T>, cs: Columns<T>, sel: Selection, status: Status)
    ensures Selected(within, rows, cs, WithStatus(sel, status)) ==
      Filter(Selected(within, rows, cs, WithStatus(sel, AnyStatus)), x => StatusAdmits(status, cs.shown(x), cs.sentinel))
  {
    var all := x => Admits(within, cs, WithStatus(sel, AnyStatus), x);
    var st := x => StatusAdmits(status, cs.shown(x), cs.sentinel);
    FilterFilter(rows, all, st);
    FilterExt(rows, x => all(x) && st(x), x => Admits(within, cs, WithStatus(sel, status), x));
  }

  /**
   * The two status choices split the "(Todas)" view: the records shown with
   * the sentinel and those shown without it add up to all of them.
   */
  lemma StatusPartition<T(!new)>(within: RangeTest, rows: seq<T>, cs: Columns<T>, sel: Selection)
    ensures |Selected(within, rows, cs, WithStatus(sel, WithSentinel))| +
      |Selected(within, rows, cs, WithStatus(sel, WithoutSentinel))| ==
      |Selected(within, rows, cs, WithStatus(sel, AnyStatus))|
  {
    var all := Selected(within, rows, cs, WithStatus(sel, AnyStatus));
    StatusRefines(within, rows, cs, sel, WithSentinel);
    StatusRefines(within, rows, cs, sel, WithoutSentinel);
    var p := x => StatusAdmits(WithSentinel, cs.shown(x), cs.sentinel);
    FilterPartition(all, p);
    FilterExt(all, x => !p(x), x => StatusAdmits(WithoutSentinel, cs.shown(x), cs.sentinel));
  }

  /** The sentinel counter of the "(Todas)" view is the size of the sentinel view. */
  lemma SentinelCountIsView<T(!new)>(within: RangeTest, rows: seq<T>, cs: Columns<T>, sel: Selection)
    ensures Count(Selected(within, rows, cs, WithStatus(sel, AnyStatus)), x => cs.shown(x) == cs.sentinel) ==
      |Selected(within, rows, cs, WithStatus(sel, WithSentinel))|
  {
    var all := Selected(within, rows, cs, WithStatus(sel, AnyStatus));
    StatusRefines(within, rows, cs, sel, WithSentinel);
    CountIsFilterLength(all, x => cs.shown(x) == cs.sentinel);
    FilterExt(all, x => cs.shown(x) == cs.sentinel, x => StatusAdmits(WithSentinel, cs.shown(x), cs.sentinel));
  }

  /** No service level, "(Todas)" twice and status "(Todas)": only the date filter acts. */
  lemma NeutralSelection<T(!new)>(within: RangeTest, rows: seq<T>, cs: Columns<T>, sel: Selection)
    requires sel.levels == [] && sel.region == Todas && sel.city == Todas && sel.status == AnyStatus
    ensures Selected(within, rows, cs, sel) == DateFilter(within, rows, cs.date, sel.start, sel.end, sel.includeMissing)
  {
    FilterExt(rows, x => Admits(within, cs, sel, x),
      x => DateAdmits(within, cs.date(x), sel.start, sel.end, sel.includeMissing));
  }

  /** Every record the chain as written shows, the whole-day chain shows too. */
  lemma SelectedAsWrittenKeepsLess<T(!new)>(rows: seq<T>, cs: Columns<T>, sel: Selection, x: T)
    requires x in Selected(BetweenMidnights, rows, cs, sel)
    ensures x in Selected(WithinDays, rows, cs, sel)
  {
    var d := cs.date(x);
    if d.Some? && sel.start.Some? && sel.end.Some? {
      BetweenMidnightsWithinDays(d.value, sel.start.value, sel.end.value);
    }
  }

  /**
   * Of the records the whole-day chain shows, the chain as written drops
   * exactly those dated after the midnight that begins the end day.
   */
  lemma SelectedAsWrittenDrops<T(!new)>(rows: seq<T>, cs: Columns<T>, sel: Selection, x: T)
    requires x in Selected(WithinDays, rows, cs, sel)
    ensures x in Selected(BetweenMidnights, rows, cs, sel) <==>
      !(cs.date(x).Some? && sel.start.Some? && sel.end.Some? && cs.date(x).value > DayStart(sel.end.value))
  {
    var d := cs.date(x);
    if d.Some? && sel.start.Some? && sel.end.Some? {
      DayStartOrder(sel.start.value, DayOf(d.value));
    }
  }

  /** When every date is a midnight, the chain as written and the whole-day chain agree. */
  lemma SelectedAtMidnights<T(!new)>(rows: seq<T>, cs: Columns<T>, sel: Selection)
    requires forall x :: x in rows && cs.date(x).Some? ==> cs.date(x).value == DayStart(DayOf(cs.date(x).value))
    ensures Selected(BetweenMidnights, rows, cs, sel) == Selected(WithinDays, rows, cs, sel)
  {
    forall x | x in rows ensures Admits(BetweenMidnights, cs, sel, x) == Admits(WithinDays, cs, sel, x) {
      var d := cs.date(x);
      if d.Some? && sel.start.Some? && sel.end.Some? {
        MidnightTestsAgree(d.value, sel.start.value, sel.end.value);
      }
    }
    FilterExt(rows, x => Admits(BetweenMidnights, cs, sel, x), x => Admits(WithinDays, cs, sel, x));
  }

  /** Picking a value the select offers (a value present in the table so far) never empties it. */
  lemma OfferedChoiceKeepsRows<T(!new)>(tmp: seq<T>, field: T -> Cell, choice: string)
    requires choice in Distinct(Map(tmp, field))
    ensures Filter(tmp, x => ChoiceAdmits(choice, field(x))) != []
  {
    var i :| 0 <= i < |tmp| && Map(tmp, field)[i] == Some(choice);
    assert tmp[i] in tmp;
  }

  /**
   * The default service-level selection is every level the table so far
   * offers; it keeps exactly the records that have a level, unless no record
   * has one and the empty selection keeps all.
   */
  lemma DefaultLevelsKeepLevelled<T(!new)>(tmp: seq<T>, level: T -> Cell, levels: seq<string>)
    requires forall v :: v in levels <==> v in Distinct(Map(tmp, level))
    ensures levels != [] ==> Filter(tmp, x => LevelAdmits(levels, level(x))) == Filter(tmp, x => level(x).Some?)
    ensures levels == [] ==> Filter(tmp, x => LevelAdmits(levels, level(x))) == tmp
  {
    forall x | x in tmp ensures LevelAdmits(levels, level(x)) == (levels == [] || level(x).Some?) {
      var i :| 0 <= i < |tmp| && tmp[i] == x;
      assert Map(tmp, level)[i] == level(x);
    }
    FilterExt(tmp, x => LevelAdmits(levels, level(x)), x => levels == [] || level(x).Some?);
    if levels == [] {
      FilterAll(tmp, x => levels == [] || level(x).Some?);
    } else {
      FilterExt(tmp, x => levels == [] || level(x).Some?, x => level(x).Some?);
    }
  }

  // ---------------------------------------------------------------------------
  // Counters
  // ---------------------------------------------------------------------------

  /** The four counters of the coletas tab. */
  datatype ColetasKpis = ColetasKpis(registros: nat, dtms: nat, semOs: nat, naoColetado: nat)

  /** The four counters of the entregas tab. */
  datatype EntregasKpis = EntregasKpis(registros: nat, dtms: nat, naoEntregue: nat, niveis: nat)

  lemma CountAtMost<T(!new)>(s: seq<T>, p: T -> bool)
    ensures Count(s, p) <= |s|
  {
    CountIsFilterLength(s, p);
  }

  /**
   * Registros, distinct DTMs, records shown as "Sem número de OS" and records
   * shown as "Material não coletado". For normalised records the last one is
   * the number of records without a pickup date.
   */
  function ColetasCounters(tmp: seq<Coleta>): (k: ColetasKpis)
    ensures k.registros == |tmp|
    ensures k.dtms <= k.registros && k.semOs <= k.registros && k.naoColetado <= k.registros
    ensures k.dtms == |Distinct(Map(tmp, (c: Coleta) => c.dtm))|
    ensures forall d :: d in Distinct(Map(tmp, (c: Coleta) => c.dtm)) <==> exists c :: c in tmp && c.dtm == Some(d)
    ensures k.semOs == |Filter(tmp, (c: Coleta) => c.os == SemOs)|
    ensures k.naoColetado == |Filter(tmp, (c: Coleta) => c.dataColeta == NaoColetado)|
    ensures (forall i :: 0 <= i < |tmp| ==> ColetaDisplayed(tmp[i])) ==>
      k.naoColetado == |Filter(tmp, (c: Coleta) => c.dataColetaDt.None?)|
  {
    var dtms := Distinct(Map(tmp, (c: Coleta) => c.dtm));
    var semOs := Count(tmp, (c: Coleta) => c.os == SemOs);
    var naoColetado := Count(tmp, (c: Coleta) => c.dataColeta == NaoColetado);
    CountIsFilterLength(tmp, (c: Coleta) => c.os == SemOs);
    CountAtMost(tmp, (c: Coleta) => c.os == SemOs);
    CountAtMost(tmp, (c: Coleta) => c.dataColeta == NaoColetado);
    CountIsFilterLength(tmp, (c: Coleta) => c.dataColeta == NaoColetado);
    assert (forall i :: 0 <= i < |tmp| ==> ColetaDisplayed(tmp[i])) ==>
      naoColetado == |Filter(tmp, (c: Coleta) => c.dataColetaDt.None?)| by {
      if forall i :: 0 <= i < |tmp| ==> ColetaDisplayed(tmp[i]) {
        FilterExt(tmp, (c: Coleta) => c.dataColeta == NaoColetado, (c: Coleta) => c.dataColetaDt.None?);
      }
    }
    assert forall d :: d in dtms <==> exists c :: c in tmp && c.dtm == Some(d) by {
      forall d ensures d in dtms <==> exists c :: c in tmp && c.dtm == Some(d) {
        if d in dtms {
          var i :| 0 <= i < |tmp| && Map(tmp, (c: Coleta) => c.dtm)[i] == Some(d);
          assert tmp[i] in tmp;
        }
      }
    }
    ColetasKpis(|tmp|, |dtms|, semOs, naoColetado)
  }

  /**
   * Registros, distinct DTMs, records shown as "Não entregue" and distinct
   * service levels.
   */
  function EntregasCounters(tmp: seq<Entrega>): (k: EntregasKpis)
    ensures k.registros == |tmp|
    ensures k.dtms <= k.registros && k.naoEntregue <= k.registros && k.niveis <= k.registros
    ensures k.dtms == |Distinct(Map(tmp, (e: Entrega) => e.dtm))|
    ensures forall d :: d in Distinct(Map(tmp, (e: Entrega) => e.dtm)) <==> exists e :: e in tmp && e.dtm == Some(d)
    ensures k.naoEntregue == |Filter(tmp, (e: Entrega) => e.dataEntrega == NaoEntregue)|
    ensures k.niveis == |Distinct(Map(tmp, (e: Entrega) => e.nivelServico))|
    ensures forall v :: v in Distinct(Map(tmp, (e: Entrega) => e.nivelServico)) <==>
      exists e :: e in tmp && e.nivelServico == Some(v)
  {
    var dtms := Distinct(Map(tmp, (e: Entrega) => e.dtm));
    var niveis := Distinct(Map(tmp, (e: Entrega) => e.nivelServico));
    var naoEntregue := Count(tmp, (e: Entrega) => e.dataEntrega == NaoEntregue);
    CountIsFilterLength(tmp, (e: Entrega) => e.dataEntrega == NaoEntregue);
    CountAtMost(tmp, (e: Entrega) => e.dataEntrega == NaoEntregue);
    assert forall d :: d in dtms <==> exists e :: e in tmp && e.dtm == Some(d) by {
      forall d ensures d in dtms <==> exists e :: e in tmp && e.dtm == Some(d) {
        if d in dtms {
          var i :| 0 <= i < |tmp| && Map(tmp, (e: Entrega) => e.dtm)[i] == Some(d);
          assert tmp[i] in tmp;
        }
      }
    }
    assert forall v :: v in niveis <==> exists e :: e in tmp && e.nivelServico == Some(v) by {
      forall v ensures v in niveis <==> exists e :: e in tmp && e.nivelServico == Some(v) {
        if v in niveis {
          var i :| 0 <= i < |tmp| && Map(tmp, (e: Entrega) => e.nivelServico)[i] == Some(v);
          assert tmp[i] in tmp;
        }
      }
    }
    EntregasKpis(|tmp|, |dtms|, naoEntregue, |niveis|)
  }
}
