// The one-pass rollup of the whole log against the per-source analysis, and the country
// and operator rollups of its rows.
module Overview {
  import opened Analyze
  import opened Ints
  import opened Sorting

  datatype Location = Location(scope: string, country: string, asn: nat, org: string)

  // What the aggregation takes from elsewhere: how fields are read, the host part of
  // "ip:port", and where an address lies.
  datatype Portal = Portal(rules: Rules, hostOnly: string -> string, locate: string -> Location)

  function SrcOf(p: Portal, e: Entry): string {
    if e.srcIP != "" then e.srcIP else p.hostOnly(e.ip)
  }

  predicate Attributable(p: Portal, e: Entry) {
    !e.event.Nameless? && !e.event.System? && SrcOf(p, e) != ""
  }

  // ---- the history, source by source ----

  function Attributed(p: Portal, h: History, src: string): History {
    match h
    case Empty => Empty
    case Then(before, e) =>
      if Attributable(p, e) && SrcOf(p, e) == src then Then(Attributed(p, before, src), e)
      else Attributed(p, before, src)
  }

  // In the order of first appearance.
  function Sources(p: Portal, h: History): seq<string> {
    match h
    case Empty => []
    case Then(before, e) =>
      if Attributable(p, e) && SrcOf(p, e) !in Sources(p, before) then Sources(p, before) + [SrcOf(p, e)]
      else Sources(p, before)
  }

  function AttributableCount(p: Portal, h: History): nat {
    match h
    case Empty => 0
    case Then(before, e) => AttributableCount(p, before) + if Attributable(p, e) then 1 else 0
  }

  function SessionIds(h: History): set<string> {
    match h
    case Empty => {}
    case Then(before, e) => SessionIds(before) + if e.session != "" then {e.session} else {}
  }

  datatype Row = Row(
    ip: string,
    loc: Location,
    events: nat,
    sessions: nat,
    firstSeen: string,
    lastSeen: string,
    scanned: bool,
    kind: Kind,
    confidence: int,
    visits: nat,
    returning: bool)

  // What a source's own history says about it, analysed by itself.
  function RowOf(p: Portal, src: string, own: History): Row {
    var a := Assess(p.rules, own);
    Untagged(p, src, own).(
      kind := a.verdict.kind,
      confidence := a.verdict.confidence,
      visits := |a.visits|,
      returning := a.returning)
  }

  // The row before it is tagged with the analysis.
  function Untagged(p: Portal, src: string, own: History): Row {
    Row(src, p.locate(src), Length(own), |SessionIds(own)|, FirstTime(own), LastTime(own), Count(own, PortScan) > 0,
        Unknown, 0, 0, false)
  }

  function RowsOf(p: Portal, h: History, order: seq<string>): seq<Row> {
    if order == [] then []
    else
      var front, src := order[..|order| - 1], order[|order| - 1];
      RowsOf(p, h, front) + [RowOf(p, src, Attributed(p, h, src))]
  }

  lemma {:induction false} SourcesAreThose(p: Portal, h: History, src: string)
    ensures src in Sources(p, h) <==> Attributed(p, h, src) != Empty
  {
    if h.Then? {
      SourcesAreThose(p, h.before, src);
    }
  }

  predicate Distinct(s: seq<string>) {
    s == [] || (s[|s| - 1] !in s[..|s| - 1] && Distinct(s[..|s| - 1]))
  }

  lemma {:induction false} SourcesAreDistinct(p: Portal, h: History)
    ensures Distinct(Sources(p, h))
  {
    if h.Then? {
      SourcesAreDistinct(p, h.before);
      var s, src := Sources(p, h.before), SrcOf(p, h.last);
      assert (s + [src])[..|s|] == s;
    }
  }

  // ---- the pass ----

  // What the pass keeps of one source.
  datatype Ledger = Ledger(row: Row, sessions: set<string>, sig: Signals, visitLast: int, visitCount: nat)

  // The ledger that a source's own history amounts to.
  function LedgerOf(p: Portal, src: string, own: History): Ledger {
    Ledger(Untagged(p, src, own), SessionIds(own), SignalsOf(p.rules, own), LastMs(p.rules, own), |Segments(p.rules, own)|)
  }

  function NewLedger(p: Portal, src: string, time: string): Ledger {
    Ledger(Row(src, p.locate(src), 0, 0, time, "", false, Unknown, 0, 0, false), {}, NOTHING, 0, 1)
  }

  predicate NewSession(e: Entry, sessions: set<string>) {
    e.session != "" && e.session !in sessions
  }

  function Seen(row: Row, e: Entry, newSession: bool): Row {
    row.(
      events := row.events + 1,
      lastSeen := e.time,
      sessions := if newSession then row.sessions + 1 else row.sessions,
      scanned := row.scanned || e.event == PortScan)
  }

  function Entered(p: Portal, l: Ledger, e: Entry): Ledger {
    var ms, isNew := EntryMs(p.rules, e), NewSession(e, l.sessions);
    Ledger(
      Seen(l.row, e, isNew),
      if isNew then l.sessions + {e.session} else l.sessions,
      Observed(p.rules, l.sig, e),
      if ms != 0 then ms else l.visitLast,
      if IsGap(l.visitLast, ms) then l.visitCount + 1 else l.visitCount)
  }

  // One more entry of a source already seen.
  lemma EnteredNext(p: Portal, src: string, own: History, e: Entry)
    requires own != Empty
    ensures Entered(p, LedgerOf(p, src, own), e) == LedgerOf(p, src, Then(own, e))
  {
    SessionsGrow(SessionIds(own), e);
  }

  // The first entry of a source.
  lemma EnteredFirst(p: Portal, src: string, e: Entry)
    ensures Entered(p, NewLedger(p, src, e.time), e) == LedgerOf(p, src, Then(Empty, e))
  {
    SessionsGrow({}, e);
    assert SessionIds(Empty) == {} && Segments(p.rules, Empty) == [];
    assert SignalsOf(p.rules, Empty) == NOTHING;
    assert Count(Empty, PortScan) == 0 && Length(Empty) == 0 && LastMs(p.rules, Empty) == 0;
    assert FirstTime(Then(Empty, e)) == e.time;
  }

  lemma SessionsGrow(sessions: set<string>, e: Entry)
    ensures var grown := sessions + if e.session != "" then {e.session} else {};
            && grown == (if NewSession(e, sessions) then sessions + {e.session} else sessions)
            && |grown| == |sessions| + if NewSession(e, sessions) then 1 else 0
  {
    SetGrows(sessions, e.session);
    if !NewSession(e, sessions) {
      assert sessions + (if e.session != "" then {e.session} else {}) == sessions;
    }
  }

  // Every source's ledger is what its own history amounts to.
  ghost predicate Balanced(p: Portal, h: History, events: nat, order: seq<string>, books: map<string, Ledger>) {
    && events == AttributableCount(p, h)
    && order == Sources(p, h)
    && (forall src :: src in books <==> src in order)
    && (forall src :: src in books ==> books[src] == LedgerOf(p, src, Attributed(p, h, src)))
  }

  lemma Passed(p: Portal, h: History, e: Entry, events: nat, order: seq<string>,
      books: map<string, Ledger>)
    requires Balanced(p, h, events, order, books) && !Attributable(p, e)
    ensures Balanced(p, Then(h, e), events, order, books)
  {}

  lemma {:induction false} Posted(p: Portal, h: History, e: Entry, events: nat, order: seq<string>,
      books: map<string, Ledger>)
    requires Balanced(p, h, events, order, books) && Attributable(p, e) && SrcOf(p, e) in books
    ensures var src := SrcOf(p, e);
            Balanced(p, Then(h, e), events + 1, order, books[src := Entered(p, books[src], e)])
  {
    var src := SrcOf(p, e);
    SourcesAreThose(p, h, src);
    EnteredNext(p, src, Attributed(p, h, src), e);
  }

  lemma PostedFirst(p: Portal, h: History, e: Entry, events: nat, order: seq<string>,
      books: map<string, Ledger>)
    requires Balanced(p, h, events, order, books) && Attributable(p, e) && SrcOf(p, e) !in books
    ensures var src := SrcOf(p, e);
            Balanced(p, Then(h, e), events + 1, order + [src], books[src := Entered(p, NewLedger(p, src, e.time), e)])
  {
    var src := SrcOf(p, e);
    SourcesAreThose(p, h, src);
    EnteredFirst(p, src, e);
  }

  // The loop over the log: one ledger a source, whatever the interleaving.
  method OnePass(p: Portal, entries: seq<Entry>) returns (events: nat, order: seq<string>, books: map<string, Ledger>)
    ensures Balanced(p, HistoryOf(entries), events, order, books)
  {
    events, order, books := 0, [], map[];
    for i := 0 to |entries|
      invariant Balanced(p, HistoryOf(entries[..i]), events, order, books)
    {
      var e := entries[i];
      HistoryGrows(entries, i);
      events, order, books := Post(p, HistoryOf(entries[..i]), e, events, order, books);
    }
    assert entries[..|entries|] == entries;
  }

  // One turn of that loop.
  method Post(p: Portal, ghost h: History, e: Entry, events: nat, order: seq<string>, books: map<string, Ledger>)
    returns (events': nat, order': seq<string>, books': map<string, Ledger>)
    requires Balanced(p, h, events, order, books)
    ensures Balanced(p, Then(h, e), events', order', books')
  {
    events', order', books' := events, order, books;
    if e.event.Nameless? || e.event.System? {
      Passed(p, h, e, events, order, books);
      return;
    }
    var src := SrcOf(p, e);
    if src == "" {
      Passed(p, h, e, events, order, books);
      return;
    }
    events' := events' + 1;
    if src !in books' {
      PostedFirst(p, h, e, events, order, books);
      var l := Enter(p, NewLedger(p, src, e.time), e);
      order' := order' + [src];
      books' := books'[src := l];
    } else {
      Posted(p, h, e, events, order, books);
      var l := Enter(p, books'[src], e);
      books' := books'[src := l];
    }
  }

  method Enter(p: Portal, l: Ledger, e: Entry) returns (l': Ledger)
    ensures l' == Entered(p, l, e)
  {
    l' := l;
    var ms := EntryMs(p.rules, e);
    if ms != 0 {
      if l'.visitLast != 0 && ms - l'.visitLast > VISIT_GAP_MS {
        l' := l'.(visitCount := l'.visitCount + 1);
      }
      l' := l'.(visitLast := ms);
    }
    l' := l'.(sig := Observed(p.rules, l'.sig, e));
    var row := l'.row.(events := l'.row.events + 1, lastSeen := e.time);
    if e.session != "" && e.session !in l'.sessions {
      l' := l'.(sessions := l'.sessions + {e.session});
      row := row.(sessions := row.sessions + 1);
    }
    if e.event == PortScan {
      row := row.(scanned := true);
    }
    l' := l'.(row := row);
  }

  // The rows of the overview, in order of first appearance: for every log, each is what
  // the analysis of that source's own history says.
  method SourceRows(p: Portal, entries: seq<Entry>) returns (events: nat, rows: seq<Row>)
    ensures var h := HistoryOf(entries);
            events == AttributableCount(p, h) && rows == RowsOf(p, h, Sources(p, h))
  {
    var order, books;
    events, order, books := OnePass(p, entries);
    rows := TagAll(p, HistoryOf(entries), order, books);
  }

  // Every source has its ledger.
  ghost predicate Booked(p: Portal, h: History, order: seq<string>, books: map<string, Ledger>) {
    forall i :: 0 <= i < |order| ==> order[i] in books && books[order[i]] == LedgerOf(p, order[i], Attributed(p, h, order[i]))
  }

  method TagAll(p: Portal, ghost h: History, order: seq<string>, books: map<string, Ledger>) returns (rows: seq<Row>)
    requires Booked(p, h, order, books)
    ensures rows == RowsOf(p, h, order)
  {
    rows := [];
    for i := 0 to |order|
      invariant rows == RowsOf(p, h, order[..i])
    {
      RowsGrow(p, h, order, i);
      var row := TagOne(p, h, order, books, i);
      rows := rows + [row];
    }
    assert order[..|order|] == order;
  }

  method TagOne(p: Portal, ghost h: History, order: seq<string>, books: map<string, Ledger>, i: nat) returns (row: Row)
    requires Booked(p, h, order, books) && i < |order|
    ensures row == RowOf(p, order[i], Attributed(p, h, order[i]))
  {
    row := Tag(p, order[i], books[order[i]], Attributed(p, h, order[i]));
  }

  lemma RowsGrow(p: Portal, h: History, order: seq<string>, i: nat)
    requires i < |order|
    ensures RowsOf(p, h, order[..i + 1])
         == RowsOf(p, h, order[..i]) + [RowOf(p, order[i], Attributed(p, h, order[i]))]
  {
    assert order[..i + 1][..i] == order[..i];
  }

  method Tag(p: Portal, src: string, l: Ledger, ghost own: History) returns (row: Row)
    requires l == LedgerOf(p, src, own)
    ensures row == RowOf(p, src, own)
  {
    var v := Judge(l.sig);
    row := l.row.(visits := l.visitCount, kind := v.kind, confidence := v.confidence);
    ScannedMeans(p.rules, own);
    row := row.(returning := l.visitCount >= 2 || (row.scanned && (l.sig.counts.commands > 0 || l.sig.counts.sessions > 0)));
  }

  // ---- totals ----

  function TotalEvents(rows: seq<Row>): nat {
    if rows == [] then 0 else TotalEvents(rows[..|rows| - 1]) + rows[|rows| - 1].events
  }

  // Entries of these sources.
  function EventsOf(p: Portal, h: History, order: seq<string>): nat {
    if order == [] then 0 else EventsOf(p, h, order[..|order| - 1]) + Length(Attributed(p, h, order[|order| - 1]))
  }

  lemma {:induction false} RowsTotal(p: Portal, h: History, order: seq<string>)
    ensures TotalEvents(RowsOf(p, h, order)) == EventsOf(p, h, order)
    ensures |RowsOf(p, h, order)| == |order|
  {
    if order != [] {
      var front := order[..|order| - 1];
      RowsTotal(p, h, front);
      var rows := RowsOf(p, h, order);
      assert rows[..|rows| - 1] == RowsOf(p, h, front);
    }
  }

  // An entry adds one to the sum if its source is among those summed, which are distinct.
  lemma {:induction false} EventsStep(p: Portal, h: History, e: Entry, order: seq<string>)
    requires Distinct(order)
    ensures EventsOf(p, Then(h, e), order)
         == EventsOf(p, h, order) + if Attributable(p, e) && SrcOf(p, e) in order then 1 else 0
  {
    if order != [] {
      EventsStep(p, h, e, order[..|order| - 1]);
      assert order == order[..|order| - 1] + [order[|order| - 1]];
    }
  }

  lemma {:induction false} EventsAddUp(p: Portal, h: History)
    ensures EventsOf(p, h, Sources(p, h)) == AttributableCount(p, h)
  {
    if h.Then? {
      var before, e := h.before, h.last;
      EventsAddUp(p, before);
      SourcesAreDistinct(p, before);
      var s, src := Sources(p, before), SrcOf(p, e);
      EventsStep(p, before, e, s);
      if Attributable(p, e) && src !in s {
        assert (s + [src])[..|s|] == s;
        SourcesAreThose(p, before, src);
        assert Attributed(p, h, src) == Then(Empty, e);
        assert Length(Empty) == 0;
      }
    }
  }

  // ---- rollups ----

  datatype Stat = Stat(key: string, asn: nat, sources: nat, events: nat)

  function OrUnknown(key: string, scope: string): string {
    if key != "" then key else if scope != "" then scope else "unknown"
  }

  function CountryKey(row: Row): string {
    OrUnknown(row.loc.country, row.loc.scope)
  }

  function IspKey(row: Row): string {
    if row.loc.org == "" && row.loc.asn != 0 then "AS" + Itoa(row.loc.asn) else OrUnknown(row.loc.org, row.loc.scope)
  }

  // No source is lost under an empty key: its own country or operator comes first, then
  // the number of its system, then the scope of its address.
  lemma KeysAreNamed(row: Row)
    ensures CountryKey(row) != "" && (row.loc.country != "" ==> CountryKey(row) == row.loc.country)
    ensures row.loc.country == "" && row.loc.scope != "" ==> CountryKey(row) == row.loc.scope
    ensures IspKey(row) != "" && (row.loc.org != "" ==> IspKey(row) == row.loc.org)
    ensures row.loc.org == "" && row.loc.asn > 0 ==> IspKey(row) == "AS" + Itoa(row.loc.asn)
    ensures row.loc.org == "" && row.loc.asn == 0 && row.loc.scope != "" ==> IspKey(row) == row.loc.scope
  {
  }

  // The rows under one key, counted and summed, with the first row's system number.
  function StatOf(rows: seq<Row>, keyOf: Row -> string, key: string): Stat {
    if rows == [] then Stat(key, 0, 0, 0)
    else
      var front, row := StatOf(rows[..|rows| - 1], keyOf, key), rows[|rows| - 1];
      if keyOf(row) == key then Joined(front, row) else front
  }

  function Joined(s: Stat, row: Row): Stat {
    s.(asn := if s.sources == 0 then row.loc.asn else s.asn, sources := s.sources + 1, events := s.events + row.events)
  }

  function KeysOf(rows: seq<Row>, keyOf: Row -> string): seq<string> {
    if rows == [] then []
    else
      var front, key := KeysOf(rows[..|rows| - 1], keyOf), keyOf(rows[|rows| - 1]);
      if key in front then front else front + [key]
  }

  function StatsOf(rows: seq<Row>, keyOf: Row -> string, keys: seq<string>): seq<Stat> {
    if keys == [] then []
    else StatsOf(rows, keyOf, keys[..|keys| - 1]) + [StatOf(rows, keyOf, keys[|keys| - 1])]
  }

  // More sources first, then more events.
  predicate Busier(a: Stat, b: Stat) {
    if a.sources != b.sources then a.sources > b.sources else a.events > b.events
  }

  // `agg` holds the statistics of the rows read, by key.
  ghost predicate Rolled(rows: seq<Row>, keyOf: Row -> string, agg: map<string, Stat>, keys: seq<string>) {
    && keys == KeysOf(rows, keyOf)
    && (forall key :: key in agg <==> key in keys)
    && (forall key :: key in agg ==> agg[key] == StatOf(rows, keyOf, key))
  }

  lemma RolledNext(rows: seq<Row>, keyOf: Row -> string, row: Row, agg: map<string, Stat>,
      keys: seq<string>)
    requires Rolled(rows, keyOf, agg, keys)
    ensures var key := keyOf(row);
            var start := if key in agg then agg[key] else Stat(key, row.loc.asn, 0, 0);
            Rolled(rows + [row], keyOf, agg[key := Joined(start, row)], if key in agg then keys else keys + [key])
  {
    var all, key := rows + [row], keyOf(row);
    assert all[..|all| - 1] == rows;
    if key !in agg {
      AbsentKey(rows, keyOf, key);
    }
  }

  lemma {:induction false} AbsentKey(rows: seq<Row>, keyOf: Row -> string, key: string)
    requires key !in KeysOf(rows, keyOf)
    ensures StatOf(rows, keyOf, key) == Stat(key, 0, 0, 0)
  {
    if rows != [] {
      AbsentKey(rows[..|rows| - 1], keyOf, key);
    }
  }

  method RollUp(rows: seq<Row>, keyOf: Row -> string) returns (out: seq<Stat>)
    ensures out == Sort(StatsOf(rows, keyOf, KeysOf(rows, keyOf)), Busier)
  {
    var agg: map<string, Stat>, keys: seq<string> := map[], [];
    for i := 0 to |rows|
      invariant Rolled(rows[..i], keyOf, agg, keys)
    {
      var row := rows[i];
      assert rows[..i + 1] == rows[..i] + [row];
      RolledNext(rows[..i], keyOf, row, agg, keys);
      var key := keyOf(row);
      if key !in agg {
        agg := agg[key := Stat(key, row.loc.asn, 0, 0)];
        keys := keys + [key];
      }
      agg := agg[key := Joined(agg[key], row)];
    }
    assert rows[..|rows|] == rows;
    out := [];
    for i := 0 to |keys|
      invariant out == StatsOf(rows, keyOf, keys[..i])
    {
      assert keys[..i + 1][..i] == keys[..i];
      out := out + [agg[keys[i]]];
    }
    assert keys[..|keys|] == keys;
    out := Sort(out, Busier);
  }

  // Sources and events over all rows of a rollup.
  function Totals(stats: seq<Stat>): (nat, nat) {
    if stats == [] then (0, 0)
    else
      var front, s := Totals(stats[..|stats| - 1]), stats[|stats| - 1];
      (front.0 + s.sources, front.1 + s.events)
  }

  lemma TotalsOfConcat(stats: seq<Stat>, s: Stat)
    ensures Totals(stats + [s]) == (Totals(stats).0 + s.sources, Totals(stats).1 + s.events)
  {
    assert (stats + [s])[..|stats|] == stats;
  }

  lemma {:induction false} TotalsOfInsert(s: Stat, stats: seq<Stat>)
    ensures Totals(Insert(s, stats, Busier)) == (Totals(stats).0 + s.sources, Totals(stats).1 + s.events)
  {
    if stats == [] || !Busier(s, stats[|stats| - 1]) {
      TotalsOfConcat(stats, s);
      assert [] + [s] == [s];
    } else {
      var front, last := stats[..|stats| - 1], stats[|stats| - 1];
      TotalsOfInsert(s, front);
      TotalsOfConcat(Insert(s, front, Busier), last);
    }
  }

  lemma {:induction false} TotalsOfSort(stats: seq<Stat>)
    ensures Totals(Sort(stats, Busier)) == Totals(stats)
  {
    if stats != [] {
      var front, last := stats[..|stats| - 1], stats[|stats| - 1];
      TotalsOfSort(front);
      TotalsOfInsert(last, Sort(front, Busier));
      SortStep(stats);
      TotalsStep(stats);
    }
  }

  lemma SortStep(stats: seq<Stat>)
    requires stats != []
    ensures Sort(stats, Busier) == Insert(stats[|stats| - 1], Sort(stats[..|stats| - 1], Busier), Busier)
  {
  }

  lemma TotalsStep(stats: seq<Stat>)
    requires stats != []
    ensures var front, last := Totals(stats[..|stats| - 1]), stats[|stats| - 1];
            Totals(stats) == (front.0 + last.sources, front.1 + last.events)
  {
  }

  lemma StatGrows(rows: seq<Row>, row: Row, keyOf: Row -> string, key: string)
    ensures var s, s' := StatOf(rows, keyOf, key), StatOf(rows + [row], keyOf, key);
            && s'.sources == s.sources + (if keyOf(row) == key then 1 else 0)
            && s'.events == s.events + (if keyOf(row) == key then row.events else 0)
  {
    assert (rows + [row])[..|rows|] == rows;
  }

  lemma {:induction false} StatsSplit(rows: seq<Row>, keyOf: Row -> string, keys: seq<string>)
    requires keys != []
    ensures var t, s := Totals(StatsOf(rows, keyOf, keys[..|keys| - 1])), StatOf(rows, keyOf, keys[|keys| - 1]);
            Totals(StatsOf(rows, keyOf, keys)) == (t.0 + s.sources, t.1 + s.events)
  {
    TotalsOfConcat(StatsOf(rows, keyOf, keys[..|keys| - 1]), StatOf(rows, keyOf, keys[|keys| - 1]));
  }

  lemma MemberSplit(keys: seq<string>, key: string)
    requires keys != [] && Distinct(keys)
    ensures key in keys <==> key in keys[..|keys| - 1] || key == keys[|keys| - 1]
    ensures !(key in keys[..|keys| - 1] && key == keys[|keys| - 1])
  {
    assert keys == keys[..|keys| - 1] + [keys[|keys| - 1]];
  }

  // One more row shows up once among distinct keys.
  lemma {:induction false} StatsStep(rows: seq<Row>, row: Row, keyOf: Row -> string, keys: seq<string>)
    requires Distinct(keys)
    ensures var t, t' := Totals(StatsOf(rows, keyOf, keys)), Totals(StatsOf(rows + [row], keyOf, keys));
            && t'.0 == t.0 + (if keyOf(row) in keys then 1 else 0)
            && t'.1 == t.1 + (if keyOf(row) in keys then row.events else 0)
  {
    if keys != [] {
      StatsStep(rows, row, keyOf, keys[..|keys| - 1]);
      StatGrows(rows, row, keyOf, keys[|keys| - 1]);
      StatsSplit(rows, keyOf, keys);
      StatsSplit(rows + [row], keyOf, keys);
      MemberSplit(keys, keyOf(row));
    }
  }

  lemma {:induction false} StatsAddUp(rows: seq<Row>, keyOf: Row -> string)
    ensures Distinct(KeysOf(rows, keyOf))
    ensures Totals(StatsOf(rows, keyOf, KeysOf(rows, keyOf))) == (|rows|, TotalEvents(rows))
  {
    if rows != [] {
      var front, row := rows[..|rows| - 1], rows[|rows| - 1];
      var keys, key := KeysOf(front, keyOf), keyOf(row);
      assert rows == front + [row];
      StatsAddUp(front, keyOf);
      StatsStep(front, row, keyOf, keys);
      if key !in keys {
        NewKey(front, row, keyOf, keys);
      }
    }
  }

  lemma NewKey(rows: seq<Row>, row: Row, keyOf: Row -> string, keys: seq<string>)
    requires keys == KeysOf(rows, keyOf) && keyOf(row) !in keys && Distinct(keys)
    ensures Distinct(keys + [keyOf(row)])
    ensures var t, all := Totals(StatsOf(rows + [row], keyOf, keys)), rows + [row];
            Totals(StatsOf(all, keyOf, keys + [keyOf(row)])) == (t.0 + 1, t.1 + row.events)
  {
    var all, key := rows + [row], keyOf(row);
    assert (keys + [key])[..|keys|] == keys;
    assert all[..|all| - 1] == rows;
    AbsentKey(rows, keyOf, key);
    TotalsOfConcat(StatsOf(all, keyOf, keys), StatOf(all, keyOf, key));
  }

  lemma BusierIsWeakOrder()
    ensures WeakOrder(Busier)
  {}

  // A rollup loses no source and no event, whatever the key, and lists the busiest first.
  lemma RollupConserves(rows: seq<Row>, keyOf: Row -> string)
    ensures var out := Sort(StatsOf(rows, keyOf, KeysOf(rows, keyOf)), Busier);
            Totals(out) == (|rows|, TotalEvents(rows)) && Ascending(out, Busier)
  {
    var stats := StatsOf(rows, keyOf, KeysOf(rows, keyOf));
    StatsAddUp(rows, keyOf);
    TotalsOfSort(stats);
    BusierIsWeakOrder();
    SortAscends(stats, Busier);
  }

  // Most sources first, and among equals most events first.
  lemma RollupIsRanked(rows: seq<Row>, keyOf: Row -> string, i: nat, j: nat)
    requires i < j < |Sort(StatsOf(rows, keyOf, KeysOf(rows, keyOf)), Busier)|
    ensures var out := Sort(StatsOf(rows, keyOf, KeysOf(rows, keyOf)), Busier);
            && out[i].sources >= out[j].sources
            && (out[i].sources == out[j].sources ==> out[i].events >= out[j].events)
  {
    RollupConserves(rows, keyOf);
  }

  // A statistic counts the rows of its key.
  lemma {:induction false} StatCounts(rows: seq<Row>, keyOf: Row -> string, key: string)
    ensures StatOf(rows, keyOf, key).key == key
    ensures StatOf(rows, keyOf, key).sources == |RowsWith(rows, keyOf, key)|
  {
    if rows != [] {
      StatCounts(rows[..|rows| - 1], keyOf, key);
      RowsWithGrow(rows, keyOf, key);
    }
  }

  function RowsWith(rows: seq<Row>, keyOf: Row -> string, key: string): set<int> {
    set i | 0 <= i < |rows| && keyOf(rows[i]) == key
  }

  lemma RowsWithGrow(rows: seq<Row>, keyOf: Row -> string, key: string)
    requires rows != []
    ensures var n := |rows| - 1;
            |RowsWith(rows, keyOf, key)| == |RowsWith(rows[..n], keyOf, key)| + if keyOf(rows[n]) == key then 1 else 0
  {
    var n := |rows| - 1;
    var front := RowsWith(rows[..n], keyOf, key);
    assert RowsWith(rows, keyOf, key) == if keyOf(rows[n]) == key then front + {n} else front;
  }

  // For every log, the sources and events of the country rollup and of the operator
  // rollup both sum to the headline totals.
  lemma RollupsMatchTotals(p: Portal, h: History)
    ensures var rows := RowsOf(p, h, Sources(p, h));
            var headline := (|Sources(p, h)|, AttributableCount(p, h));
            && Totals(Sort(StatsOf(rows, CountryKey, KeysOf(rows, CountryKey)), Busier)) == headline
            && Totals(Sort(StatsOf(rows, IspKey, KeysOf(rows, IspKey)), Busier)) == headline
  {
    var rows := RowsOf(p, h, Sources(p, h));
    RowsTotal(p, h, Sources(p, h));
    EventsAddUp(p, h);
    RollupConserves(rows, CountryKey);
    RollupConserves(rows, IspKey);
  }

  // ---- the drawer of one address ----

  predicate InDrawer(p: Portal, e: Entry, ip: string) {
    SrcOf(p, e) == ip || e.ip == ip || e.srcIP == ip
  }

  function Drawer(p: Portal, h: History, ip: string): History {
    match h
    case Empty => Empty
    case Then(before, e) => if InDrawer(p, e, ip) then Then(Drawer(p, before, ip), e) else Drawer(p, before, ip)
  }

  // Every entry in the drawer is one the overview counts for that address; only then do
  // the two select the same entries.
  predicate DrawerIsOwn(p: Portal, h: History, ip: string) {
    h.Then? ==>
      && DrawerIsOwn(p, h.before, ip)
      && (InDrawer(p, h.last, ip) ==> Attributable(p, h.last) && SrcOf(p, h.last) == ip)
  }

  lemma {:induction false} OwnIsInDrawer(p: Portal, h: History, ip: string)
    ensures Length(Attributed(p, h, ip)) <= Length(Drawer(p, h, ip))
    ensures Length(Attributed(p, h, ip)) == Length(Drawer(p, h, ip)) <==> DrawerIsOwn(p, h, ip)
    ensures DrawerIsOwn(p, h, ip) ==> Drawer(p, h, ip) == Attributed(p, h, ip)
  {
    if h.Then? {
      OwnIsInDrawer(p, h.before, ip);
    }
  }

  // An entry as the program writes them: management notices name no address, and every
  // other event carries the host part of its remote address, which has no port of its own.
  predicate AsLogged(p: Portal, e: Entry) {
    if e.event.System? then e.ip == "" && e.srcIP == "" && p.hostOnly("") == ""
    else !e.event.Nameless? && e.srcIP == p.hostOnly(e.ip) && p.hostOnly(e.srcIP) == e.srcIP
  }

  predicate LogAsLogged(p: Portal, h: History) {
    h.Then? ==> LogAsLogged(p, h.before) && AsLogged(p, h.last)
  }

  lemma {:induction false} ListedIsBare(p: Portal, h: History, src: string)
    requires LogAsLogged(p, h) && src in Sources(p, h)
    ensures src != "" && p.hostOnly(src) == src
  {
    if src !in Sources(p, h.before) {
      assert src == SrcOf(p, h.last);
    } else {
      ListedIsBare(p, h.before, src);
    }
  }

  lemma {:induction false} LoggedIsOwn(p: Portal, h: History, ip: string)
    requires LogAsLogged(p, h) && ip != "" && p.hostOnly(ip) == ip
    ensures DrawerIsOwn(p, h, ip)
  {
    if h.Then? {
      LoggedIsOwn(p, h.before, ip);
    }
  }

  // List and drawer never disagree: for every log the program writes, and every source
  // listed, the drawer holds exactly the entries the row was made of, and its assessment
  // is the row's.
  lemma DrawerAgrees(p: Portal, h: History, src: string)
    requires LogAsLogged(p, h) && src in Sources(p, h)
    ensures Drawer(p, h, src) == Attributed(p, h, src)
    ensures var a, row := Assess(p.rules, Drawer(p, h, src)), RowOf(p, src, Attributed(p, h, src));
            && row.kind == a.verdict.kind && row.confidence == a.verdict.confidence
            && row.visits == |a.visits| && row.returning == a.returning
            && row.events == Length(Drawer(p, h, src))
  {
    ListedIsBare(p, h, src);
    LoggedIsOwn(p, h, src);
    OwnIsInDrawer(p, h, src);
  }

  // ... and so for the whole list: row by row, it is what opening each drawer would show.
  lemma {:induction false} ListShowsDrawers(p: Portal, h: History, order: seq<string>)
    requires LogAsLogged(p, h) && forall src :: src in order ==> src in Sources(p, h)
    ensures RowsOf(p, h, order) == DrawerRows(p, h, order)
  {
    if order != [] {
      var front, src := order[..|order| - 1], order[|order| - 1];
      ListShowsDrawers(p, h, front);
      DrawerAgrees(p, h, src);
    }
  }

  function DrawerRows(p: Portal, h: History, order: seq<string>): seq<Row> {
    if order == [] then []
    else
      var front, src := order[..|order| - 1], order[|order| - 1];
      DrawerRows(p, h, front) + [RowOf(p, src, Drawer(p, h, src))]
  }
}
