/**
 * Usage accounting: one record per user and service with 64-bit counters, updated by requests and
 * data, drained by exports. The main result is conservation over whole histories: what has been
 * exported plus what is still recorded is what was recorded, modulo 2^64, and exactly so when no
 * counter overflowed between two exports.
 */
module Usage {
  import opened Bytes
  import opened RequestId
  import opened Text

  type Key = bytes

  datatype Record = Record(userKey: bytes, serviceId: bytes, startTs: int, endTs: int,
                           access: nat, upload: nat, download: nat)

  /** Times are milliseconds; sizes are lengths of byte slices. */
  datatype Event =
    | InitHttp(requestId: bytes, bodySize: nat, now: int)
    | HttpData(requestId: bytes, dataSize: nat, fromClient: bool)
    | InitSocket(requestId: bytes, now: int)
    | Export(now: int)

  /** uint64 addition */
  function Add(a: nat, b: nat): nat {
    (a + b) % U64
  }

  function WithCounts(r: Record, count: nat, up: nat, down: nat): Record {
    r.(access := Add(r.access, count), upload := Add(r.upload, up), download := Add(r.download, down))
  }

  type Records = map<Key, Record>

  /** One request: the record is updated if there is one and created otherwise. None is a panic. */
  function Begin(records: Records, requestId: bytes, up: nat, now: int): Option<Records> {
    match Extract(requestId)
    case None => None
    case Some(i) =>
      var key := RecordKey(i.service, i.user);
      Some(records[key := if key in records then WithCounts(records[key], 1, up, 0)
                          else Record(i.user, i.service, now, 0, 1, up % U64, 0)])
  }

  /** Data of a request whose record must exist; its lock is nil otherwise. */
  function More(records: Records, requestId: bytes, size: nat, fromClient: bool): Option<Records> {
    match Extract(requestId)
    case None => None
    case Some(i) =>
      var key := RecordKey(i.service, i.user);
      if key !in records then None
      else Some(records[key := if fromClient then WithCounts(records[key], 0, size, 0)
                               else WithCounts(records[key], 0, 0, size)])
  }

  function Stamped(records: Records, now: int): Records {
    map k | k in records :: records[k].(endTs := now)
  }

  /** The records in the manager and the exported reports, each as the records of its keys. */
  datatype Ledger = Ledger(live: Records, reports: seq<Records>)

  function Apply(l: Ledger, e: Event): Option<Ledger> {
    match e
    case InitHttp(id, bodySize, now) =>
      (match Begin(l.live, id, bodySize, now) case None => None case Some(r) => Some(l.(live := r)))
    case HttpData(id, dataSize, fromClient) =>
      (match More(l.live, id, dataSize, fromClient) case None => None case Some(r) => Some(l.(live := r)))
    case InitSocket(id, now) =>
      (match Begin(l.live, id, 0, now) case None => None case Some(r) => Some(l.(live := r)))
    case Export(now) => Some(Ledger(map[], l.reports + [Stamped(l.live, now)]))
  }

  /** The ledger after a history; None when an event of it panics. */
  function Run(events: seq<Event>): Option<Ledger> {
    if events == [] then Some(Ledger(map[], []))
    else
      match Run(events[..|events| - 1])
      case None => None
      case Some(l) => Apply(l, events[|events| - 1])
  }

  // ---------------------------------------------------------------- what was recorded

  datatype Counter = Access | Upload | Download

  function Get(r: Record, c: Counter): nat {
    match c
    case Access => r.access
    case Upload => r.upload
    case Download => r.download
  }

  /** What one event adds to a counter of its own user and service. */
  function Weight(e: Event, c: Counter): nat {
    match e
    case InitHttp(_, bodySize, _) => if c.Access? then 1 else if c.Upload? then bodySize else 0
    case HttpData(_, dataSize, fromClient) => if c == (if fromClient then Upload else Download) then dataSize else 0
    case InitSocket(_, _) => if c.Access? then 1 else 0
    case Export(_) => 0
  }

  predicate Concerns(e: Event, who: Info) {
    !e.Export? && Extract(e.requestId) == Some(who)
  }

  /** The true amounts recorded for `who` before the first export, between exports, and since the last. */
  function Amounts(events: seq<Event>, who: Info, c: Counter): (r: seq<nat>)
    ensures |r| > 0
  {
    if events == [] then [0]
    else
      var before := Amounts(events[..|events| - 1], who, c);
      var last := events[|events| - 1];
      if last.Export? then before + [0]
      else if Concerns(last, who) then before[|before| - 1 := before[|before| - 1] + Weight(last, c)]
      else before
  }

  function Total(amounts: seq<nat>): nat {
    if amounts == [] then 0 else Total(amounts[..|amounts| - 1]) + amounts[|amounts| - 1]
  }

  /** All that a history recorded for `who`, exports aside. */
  function Recorded(events: seq<Event>, who: Info, c: Counter): nat {
    if events == [] then 0
    else
      var last := events[|events| - 1];
      Recorded(events[..|events| - 1], who, c) + if Concerns(last, who) then Weight(last, c) else 0
  }

  lemma {:induction false} RecordedIsTotal(events: seq<Event>, who: Info, c: Counter)
    ensures Total(Amounts(events, who, c)) == Recorded(events, who, c)
  {
    if events == [] {
      assert Total([0]) == 0;
    } else {
      RecordedIsTotal(events[..|events| - 1], who, c);
      hide Extract, Recorded;
      var a, b := Amounts(events[..|events| - 1], who, c), Amounts(events, who, c);
      assert events[|events| - 1].Export? ==> b[..|b| - 1] == a;
      assert |b| == |a| ==> b[..|b| - 1] == a[..|a| - 1];
      RecordedStep(events, who, c);
    }
  }

  lemma RecordedStep(events: seq<Event>, who: Info, c: Counter)
    requires events != []
    ensures var last := events[|events| - 1];
            Recorded(events, who, c)
            == Recorded(events[..|events| - 1], who, c) + if Concerns(last, who) then Weight(last, c) else 0
  {
  }

  // ---------------------------------------------------------------- what was reported

  /** A counter of `who` in a set of records, 0 when there is no record. */
  function Shown(records: Records, who: Info, c: Counter): nat {
    var key := RecordKey(who.service, who.user);
    if key in records then Get(records[key], c) else 0
  }

  /** The counter in each report and, last, in the live records. */
  function ShownAll(l: Ledger, who: Info, c: Counter): seq<nat> {
    seq(|l.reports|, i requires 0 <= i < |l.reports| => Shown(l.reports[i], who, c)) + [Shown(l.live, who, c)]
  }

  /** Records stand under their own key. */
  predicate WellKeyed(records: Records) {
    forall k | k in records :: k == RecordKey(records[k].serviceId, records[k].userKey)
  }

  predicate Reduced(shown: seq<nat>, amounts: seq<nat>) {
    && |shown| == |amounts|
    && forall i | 0 <= i < |amounts| :: shown[i] == amounts[i] % U64
  }

  predicate SmallRecords(records: Records) {
    forall k | k in records ::
      records[k].access < U64 && records[k].upload < U64 && records[k].download < U64
  }

  /** The key of a request id is the key of `who` exactly when its user and service are. */
  lemma KeyConcerns(requestId: bytes, who: Info)
    requires Extract(requestId).Some?
    ensures var i := Extract(requestId).value;
            RecordKey(i.service, i.user) == RecordKey(who.service, who.user) <==> i == who
  {
    ExtractMeaning(requestId);
    var i := Extract(requestId).value;
    SameKey(i.service, i.user, who.service, who.user);
  }

  /** One event adds its weight to the counters of its own user and service, and to no other. */
  lemma ShownAfter(l: Ledger, e: Event, who: Info, c: Counter)
    requires Apply(l, e).Some? && !e.Export? && SmallRecords(l.live)
    ensures var shown := Shown(l.live, who, c);
            Shown(Apply(l, e).value.live, who, c)
            == if Concerns(e, who) then Add(shown, Weight(e, c)) else shown
    ensures SmallRecords(Apply(l, e).value.live) && Apply(l, e).value.reports == l.reports
    ensures WellKeyed(l.live) ==> WellKeyed(Apply(l, e).value.live)
  {
    KeyConcerns(e.requestId, who);
    hide Extract, RecordKey;
  }

  lemma ShownAfterExport(l: Ledger, now: int, who: Info, c: Counter)
    ensures var l' := Apply(l, Export(now)).value;
            && l'.reports == l.reports + [Stamped(l.live, now)]
            && Shown(l'.reports[|l.reports|], who, c) == Shown(l.live, who, c)
            && Shown(l'.live, who, c) == 0
  {
    hide RecordKey;
  }

  predicate LedgerInv(l: Ledger) {
    SmallRecords(l.live) && WellKeyed(l.live) && forall i | 0 <= i < |l.reports| :: WellKeyed(l.reports[i])
  }

  lemma RunStep(events: seq<Event>)
    requires events != [] && Run(events).Some?
    ensures Run(events[..|events| - 1]).Some?
    ensures Apply(Run(events[..|events| - 1]).value, events[|events| - 1]) == Some(Run(events).value)
  {
  }

  lemma AmountsStep(events: seq<Event>, who: Info, c: Counter)
    requires events != []
    ensures var a, e := Amounts(events[..|events| - 1], who, c), events[|events| - 1];
            Amounts(events, who, c)
            == if e.Export? then a + [0]
               else if Concerns(e, who) then a[|a| - 1 := a[|a| - 1] + Weight(e, c)]
               else a
  {
    hide Concerns, Weight;
  }

  /** The counters of one user and service in a ledger are the given amounts modulo 2^64. */
  ghost predicate Counts(l: Ledger, a: seq<nat>, who: Info, c: Counter) {
    LedgerInv(l) && Reduced(ShownAll(l, who, c), a)
  }

  lemma CountsKept(l: Ledger, l': Ledger, e: Event, a: seq<nat>, a': seq<nat>, who: Info, c: Counter)
    requires Counts(l, a, who, c) && Apply(l, e) == Some(l') && |a| > 0
    requires a' == if e.Export? then a + [0]
                   else if Concerns(e, who) then a[|a| - 1 := a[|a| - 1] + Weight(e, c)]
                   else a
    ensures Counts(l', a', who, c)
  {
    hide Apply, Shown, ShownAll, Reduced, Concerns, Weight, SmallRecords, WellKeyed, Stamped, Add;
    if e.Export? {
      ShownAfterExport(l, e.now, who, c);
      ExportKeeps(l, e.now);
      assert l'.reports[..|l.reports|] == l.reports;
    } else {
      ShownAfter(l, e, who, c);
    }
    CountersStep(l, l', e, a, a', who, c);
  }

  /** In every reachable ledger each counter is the true amount of its period modulo 2^64. */
  lemma {:induction false} CountersAreAmounts(events: seq<Event>, who: Info, c: Counter)
    requires Run(events).Some?
    ensures Counts(Run(events).value, Amounts(events, who, c), who, c)
  {
    hide *;
    if events == [] {
      CountsAtStart(who, c);
    } else {
      RunStep(events);
      AmountsStep(events, who, c);
      CountersAreAmounts(events[..|events| - 1], who, c);
      CountsKept(Run(events[..|events| - 1]).value, Run(events).value, events[|events| - 1],
                 Amounts(events[..|events| - 1], who, c), Amounts(events, who, c), who, c);
    }
  }

  lemma CountsAtStart(who: Info, c: Counter)
    ensures Run([]) == Some(Ledger(map[], []))
    ensures Counts(Ledger(map[], []), Amounts([], who, c), who, c)
  {
  }

  lemma ExportKeeps(l: Ledger, now: int)
    requires LedgerInv(l)
    ensures LedgerInv(Apply(l, Export(now)).value)
  {
  }

  lemma CountersStep(l: Ledger, l': Ledger, e: Event, a: seq<nat>, a': seq<nat>, who: Info, c: Counter)
    requires Reduced(ShownAll(l, who, c), a)
    requires e.Export? ==>
               && |l'.reports| == |l.reports| + 1
               && l'.reports[..|l.reports|] == l.reports
               && Shown(l'.reports[|l.reports|], who, c) == Shown(l.live, who, c)
               && Shown(l'.live, who, c) == 0 && a' == a + [0]
    requires !e.Export? ==>
               && l'.reports == l.reports
               && Shown(l'.live, who, c)
                  == (if Concerns(e, who) then Add(Shown(l.live, who, c), Weight(e, c)) else Shown(l.live, who, c))
               && |a| > 0
               && a' == (if Concerns(e, who) then a[|a| - 1 := a[|a| - 1] + Weight(e, c)] else a)
    ensures Reduced(ShownAll(l', who, c), a')
  {
    hide Shown, Concerns, Weight;
    var s, s' := ShownAll(l, who, c), ShownAll(l', who, c);
    if e.Export? {
      forall i | 0 <= i < |l.reports| ensures s'[i] == s[i] {
        assert l'.reports[i] == l.reports[i];
      }
      assert s'[|l.reports|] == s[|l.reports|];
    } else {
      assert forall i | 0 <= i < |l.reports| :: s'[i] == s[i];
      AddModulo(s[|a| - 1], Weight(e, c), a[|a| - 1]);
    }
  }

  lemma AddModulo(a: nat, b: nat, x: nat)
    requires a == x % U64
    ensures Add(a, b) == (x + b) % U64
  {
    ModuloOfSum(x, b);
  }

  lemma ModuloOfSum(x: nat, b: nat)
    ensures (x % U64 + b) % U64 == (x + b) % U64
  {
    var q, r := x / U64, (x % U64 + b) / U64;
    assert x + b == (q + r) * U64 + (x % U64 + b) % U64;
  }

  // ---------------------------------------------------------------- conservation

  lemma {:induction false} ReducedTotals(shown: seq<nat>, amounts: seq<nat>)
    requires Reduced(shown, amounts)
    ensures Total(shown) % U64 == Total(amounts) % U64
    ensures Total(shown) <= Total(amounts)
    ensures Total(shown) == Total(amounts) <==> forall i | 0 <= i < |amounts| :: amounts[i] < U64
  {
    if amounts != [] {
      var n := |amounts| - 1;
      ReducedTotals(shown[..n], amounts[..n]);
      SumsModulo(Total(shown[..n]), Total(amounts[..n]), amounts[n]);
      assert amounts == amounts[..n] + [amounts[n]];
    }
  }

  lemma SumsModulo(s: nat, t: nat, x: nat)
    requires s % U64 == t % U64
    ensures (s + x % U64) % U64 == (t + x) % U64
    ensures x % U64 <= x && (x % U64 == x <==> x < U64)
  {
    ModuloOfSum(x, s);
    ModuloOfSum(s, x);
    ModuloOfSum(t, x);
  }

  /** Exports and live record of one user and service together. */
  function Accounted(l: Ledger, who: Info, c: Counter): nat {
    Total(ShownAll(l, who, c))
  }

  /**
   * Conservation: after any history that does not panic, for every user and service, the exported
   * counters and the live one add up to what was recorded, modulo 2^64; and exactly to it if and only
   * if what was recorded between any two exports stayed below 2^64.
   */
  lemma UsageConserved(events: seq<Event>, who: Info, c: Counter)
    requires Run(events).Some?
    ensures var l := Run(events).value;
            && Accounted(l, who, c) % U64 == Recorded(events, who, c) % U64
            && (Accounted(l, who, c) == Recorded(events, who, c)
                <==> forall i | 0 <= i < |Amounts(events, who, c)| :: Amounts(events, who, c)[i] < U64)
  {
    hide Run, ShownAll, Total, Recorded, LedgerInv;
    CountersAreAmounts(events, who, c);
    RecordedIsTotal(events, who, c);
    ReducedTotals(ShownAll(Run(events).value, who, c), Amounts(events, who, c));
  }

  /** Data is only recorded for a request whose record exists; nothing else in a history can panic but a bad id. */
  lemma PanicsIff(l: Ledger, e: Event)
    ensures Apply(l, e).None?
      <==> !e.Export?
           && (Extract(e.requestId).None?
               || (e.HttpData? && var i := Extract(e.requestId).value; RecordKey(i.service, i.user) !in l.live))
  {
    hide Extract, RecordKey;
  }

  // ---------------------------------------------------------------- whose record, and its times

  /** The first event of the current period, the one since the last export, that concerns `who`. */
  function FirstOfPeriod(events: seq<Event>, who: Info): Option<nat> {
    if events == [] then None
    else
      var n := |events| - 1;
      var before := FirstOfPeriod(events[..n], who);
      if events[n].Export? then None
      else if before.None? && Concerns(events[n], who) then Some(n)
      else before
  }

  ghost predicate ExportBetween(events: seq<Event>, from: int, to: int) {
    exists e | from < e < to && 0 <= e < |events| :: events[e].Export?
  }

  /** It is in the current period, concerns `who`, and no earlier event of the period does. */
  ghost predicate IsFirst(events: seq<Event>, who: Info, i: nat) {
    && i < |events| && Concerns(events[i], who) && !ExportBetween(events, i, |events|)
    && forall j | 0 <= j < i && Concerns(events[j], who) :: ExportBetween(events, j, i)
  }

  lemma ExportBetweenPrefix(events: seq<Event>, n: nat, from: int, to: int)
    requires n <= |events| && to <= n
    ensures ExportBetween(events[..n], from, to) <==> ExportBetween(events, from, to)
  {
    if ExportBetween(events, from, to) {
      var e :| from < e < to && 0 <= e < |events| && events[e].Export?;
      assert events[..n][e].Export?;
    }
    if ExportBetween(events[..n], from, to) {
      var e :| from < e < to && 0 <= e < n && events[..n][e].Export?;
      assert events[e].Export?;
    }
  }

  lemma ExportBetweenLast(events: seq<Event>, from: int)
    requires events != [] && from < |events|
    ensures ExportBetween(events, from, |events|)
       <==> ExportBetween(events, from, |events| - 1) || (from < |events| - 1 && events[|events| - 1].Export?)
  {
    var n := |events| - 1;
    if ExportBetween(events, from, |events|) {
      var e :| from < e < |events| && 0 <= e < |events| && events[e].Export?;
    }
    if ExportBetween(events, from, n) {
      var e :| from < e < n && 0 <= e < |events| && events[e].Export?;
    }
  }

  /** What the function finds is such an event; without one, every event of `who` is from before an export. */
  lemma {:induction false} FirstOfPeriodIs(events: seq<Event>, who: Info)
    ensures FirstOfPeriod(events, who).Some? ==> IsFirst(events, who, FirstOfPeriod(events, who).value)
    ensures FirstOfPeriod(events, who).None?
            ==> forall j | 0 <= j < |events| && Concerns(events[j], who) :: ExportBetween(events, j, |events|)
  {
    if events != [] {
      var n := |events| - 1;
      var before := events[..n];
      FirstOfPeriodIs(before, who);
      hide Concerns, ExportBetween;
      forall from: int, to: int | to <= n
        ensures ExportBetween(before, from, to) <==> ExportBetween(events, from, to)
      {
        ExportBetweenPrefix(events, n, from, to);
      }
      forall from: int | from < |events|
        ensures ExportBetween(events, from, |events|)
           <==> ExportBetween(events, from, n) || (from < n && events[n].Export?)
      {
        ExportBetweenLast(events, from);
      }
      NothingBetween(events, n);
      assert forall j | 0 <= j < n :: before[j] == events[j];
    }
  }

  lemma NothingBetween(events: seq<Event>, n: int)
    ensures !ExportBetween(events, n, n) && !ExportBetween(events, n, n + 1)
  {
  }

  /** Whose record it is and when it was begun. */
  predicate RecordOf(r: Record, who: Info, start: int) {
    r.userKey == who.user && r.serviceId == who.service && r.startTs == start
  }

  /** A record of `who` is live exactly when the period has an event of `who`, and begins with the first. */
  ghost predicate LiveAsOf(live: Records, events: seq<Event>, who: Info) {
    var key, first := RecordKey(who.service, who.user), FirstOfPeriod(events, who);
    && (key in live <==> first.Some?)
    && (first.Some? ==> first.value < |events| && !events[first.value].HttpData?
                        && RecordOf(live[key], who, events[first.value].now))
  }

  lemma LiveStep(l: Ledger, l': Ledger, events: seq<Event>, who: Info)
    requires events != [] && Apply(l, events[|events| - 1]) == Some(l')
    requires LiveAsOf(l.live, events[..|events| - 1], who)
    requires FirstOfPeriod(events[..|events| - 1], who).Some?
             ==> FirstOfPeriod(events[..|events| - 1], who).value < |events| - 1
    ensures LiveAsOf(l'.live, events, who)
  {
    var n := |events| - 1;
    var e := events[n];
    if !e.Export? {
      KeyConcerns(e.requestId, who);
    }
    hide Extract, RecordKey;
  }

  lemma {:induction false} RecordsOfPeriod(events: seq<Event>, who: Info)
    requires Run(events).Some?
    ensures LiveAsOf(Run(events).value.live, events, who)
  {
    if events != [] {
      RunStep(events);
      RecordsOfPeriod(events[..|events| - 1], who);
      FirstOfPeriodIs(events[..|events| - 1], who);
      hide Run, Apply, FirstOfPeriod, Concerns, RecordKey, RecordOf, LiveAsOf;
      FirstIsInside(events[..|events| - 1], who);
      LiveStep(Run(events[..|events| - 1]).value, Run(events).value, events, who);
    }
  }

  lemma FirstIsInside(events: seq<Event>, who: Info)
    ensures FirstOfPeriod(events, who).Some? ==> FirstOfPeriod(events, who).value < |events|
  {
    FirstOfPeriodIs(events, who);
    hide FirstOfPeriod, Concerns, ExportBetween;
  }

  /** How many exports there are among the first `n` events. */
  function Exports(events: seq<Event>, n: nat): nat
    requires n <= |events|
  {
    if n == 0 then 0 else Exports(events, n - 1) + if events[n - 1].Export? then 1 else 0
  }

  lemma {:induction false} ExportsPrefix(events: seq<Event>, m: nat, n: nat)
    requires n <= m <= |events|
    ensures Exports(events[..m], n) == Exports(events, n)
  {
    if n > 0 {
      ExportsPrefix(events, m, n - 1);
    }
  }

  /** The report of each export holds what was live before it, with the export's time as end time. */
  lemma {:induction false} ReportOf(events: seq<Event>, e: nat)
    requires Run(events).Some?
    ensures |Run(events).value.reports| == Exports(events, |events|)
    ensures e < |events| && events[e].Export? ==>
              && Run(events[..e]).Some? && Exports(events, e) < |Run(events).value.reports|
              && Run(events).value.reports[Exports(events, e)] == Stamped(Run(events[..e]).value.live, events[e].now)
  {
    if events != [] {
      var n := |events| - 1;
      RunStep(events);
      ReportOf(events[..n], e);
      ExportsPrefix(events, n, n);
      hide Run, Begin, More, Stamped;
      if e < n {
        ExportsPrefix(events, n, e);
        assert events[..n][..e] == events[..e];
      }
    }
  }

  /**
   * Times: in every reachable state a live record of `who` is there exactly when the period since the
   * last export has an event of `who`, names `who`, and began with the first of these events. The report
   * of each export has the records that were live before it, ended at the export's own time.
   */
  lemma RecordTimes(events: seq<Event>, who: Info, i: nat, e: nat)
    requires Run(events).Some?
    ensures var live, key := Run(events).value.live, RecordKey(who.service, who.user);
            && (key in live ==> exists k: nat :: IsFirst(events, who, k))
            && (IsFirst(events, who, i) ==>
                  key in live && !events[i].HttpData? && RecordOf(live[key], who, events[i].now))
    ensures e < |events| && events[e].Export? ==>
              var r, key := Exports(events, e), RecordKey(who.service, who.user);
              && r < |Run(events).value.reports|
              && var report := Run(events).value.reports[r];
              && (key in report ==> exists k: nat :: IsFirst(events[..e], who, k))
              && (IsFirst(events[..e], who, i) ==>
                    && key in report && !events[i].HttpData?
                    && RecordOf(report[key], who, events[i].now) && report[key].endTs == events[e].now)
  {
    hide Run, Extract, RecordKey, Concerns, ExportBetween, FirstOfPeriod, RecordOf, LiveAsOf, IsFirst;
    LiveTimes(events, who, i);
    if e < |events| && events[e].Export? {
      ReportOf(events, e);
      LiveTimes(events[..e], who, i);
      StampedTimes(Run(events[..e]).value.live, events[e].now, who, i, events);
      FirstInside(events[..e], who, i);
    }
  }

  lemma FirstInside(events: seq<Event>, who: Info, i: nat)
    ensures IsFirst(events, who, i) ==> i < |events|
  {
    hide Concerns, ExportBetween;
  }

  lemma StampedTimes(live: Records, now: int, who: Info, i: nat, events: seq<Event>)
    ensures var key := RecordKey(who.service, who.user);
            && (key in Stamped(live, now) <==> key in live)
            && (key in live ==>
                  && Stamped(live, now)[key].endTs == now
                  && forall start :: RecordOf(live[key], who, start) ==> RecordOf(Stamped(live, now)[key], who, start))
  {
    hide RecordKey;
  }

  lemma LiveTimes(events: seq<Event>, who: Info, i: nat)
    requires Run(events).Some?
    ensures var live, key := Run(events).value.live, RecordKey(who.service, who.user);
            && (key in live ==> exists k: nat :: IsFirst(events, who, k))
            && (IsFirst(events, who, i) ==>
                  key in live && !events[i].HttpData? && RecordOf(live[key], who, events[i].now))
  {
    hide Run, Extract, RecordKey, Concerns, ExportBetween, FirstOfPeriod, RecordOf, IsFirst;
    RecordsOfPeriod(events, who);
    FirstOfPeriodIs(events, who);
    if IsFirst(events, who, i) {
      OnlyFirst(events, who, i);
    }
  }

  lemma OnlyFirst(events: seq<Event>, who: Info, i: nat)
    requires IsFirst(events, who, i)
    ensures FirstOfPeriod(events, who) == Some(i)
  {
    FirstOfPeriodIs(events, who);
    hide FirstOfPeriod, Concerns, ExportBetween;
    var first := FirstOfPeriod(events, who);
    if first.Some? {
      NoEarlierFirst(events, who, first.value, i);
      NoEarlierFirst(events, who, i, first.value);
    }
  }

  lemma NoEarlierFirst(events: seq<Event>, who: Info, a: nat, b: nat)
    requires IsFirst(events, who, a) && IsFirst(events, who, b)
    ensures a >= b
  {
    hide Concerns, ExportBetween;
    ExportBetweenWider(events, a, b);
  }

  lemma ExportBetweenWider(events: seq<Event>, from: int, to: int)
    ensures ExportBetween(events, from, to) && to <= |events| ==> ExportBetween(events, from, |events|)
  {
    if ExportBetween(events, from, to) && to <= |events| {
      var e :| from < e < to && 0 <= e < |events| && events[e].Export?;
    }
  }

  /** A request, its data both ways and an export, in numbers: what is reported of them. */
  lemma OneReport(who: Info, uuid: bytes, body: nat, up: nat, down: nat, begun: int, ended: int)
    requires Free(who.user, 46) && Free(who.service, 46)
    ensures var id := who.user + [46] + who.service + [46] + uuid;
            var key := RecordKey(who.service, who.user);
            Run([InitHttp(id, body, begun), HttpData(id, up, true), HttpData(id, down, false), Export(ended)])
            == Some(Ledger(map[], [map[key := Record(who.user, who.service, begun, ended,
                                                     1, (body % U64 + up) % U64, down % U64)]]))
  {
    var id := who.user + [46] + who.service + [46] + uuid;
    var key := RecordKey(who.service, who.user);
    ExtractOfBuildIff(who.user, who.service, uuid);
    assert Build(who.user, who.service, uuid) == id;
    hide Extract, RecordKey, Run, Stamped;
    var a, b, c, d := InitHttp(id, body, begun), HttpData(id, up, true), HttpData(id, down, false), Export(ended);
    RunNothing();
    RunNext([], a);
    assert [] + [a] == [a] && [a] + [b] == [a, b] && [a, b] + [c] == [a, b, c] && [a, b, c] + [d] == [a, b, c, d];
    RunNext([a], b);
    RunNext([a, b], c);
    RunNext([a, b, c], d);
    var r1 := Record(who.user, who.service, begun, 0, 1, body % U64, 0);
    assert Run([a]).value.live == map[key := r1];
    var r2 := WithCounts(r1, 0, up, 0);
    assert Run([a, b]).value.live == map[key := r2];
    AddNothing(1);
    AddNothing(0);
    AddNothing((body % U64 + up) % U64);
    var r := Record(who.user, who.service, begun, 0, 1, (body % U64 + up) % U64, down % U64);
    assert Run([a, b, c]).value == Ledger(map[key := r], []);
    ExportOfOne(key, r, ended);
  }

  /** A socket counts as one access, without traffic. */
  lemma OneSocketReport(who: Info, uuid: bytes, begun: int, ended: int)
    requires Free(who.user, 46) && Free(who.service, 46)
    ensures var id := who.user + [46] + who.service + [46] + uuid;
            var key := RecordKey(who.service, who.user);
            Run([InitSocket(id, begun), Export(ended)])
            == Some(Ledger(map[], [map[key := Record(who.user, who.service, begun, ended, 1, 0, 0)]]))
  {
    var id := who.user + [46] + who.service + [46] + uuid;
    var key := RecordKey(who.service, who.user);
    ExtractOfBuildIff(who.user, who.service, uuid);
    assert Build(who.user, who.service, uuid) == id;
    hide Extract, RecordKey, Run, Stamped;
    var a, b := InitSocket(id, begun), Export(ended);
    RunNothing();
    RunNext([], a);
    assert [] + [a] == [a] && [a] + [b] == [a, b];
    RunNext([a], b);
    var r := Record(who.user, who.service, begun, 0, 1, 0, 0);
    assert Run([a]).value == Ledger(map[key := r], []);
    ExportOfOne(key, r, ended);
  }

  lemma ExportOfOne(key: Key, r: Record, now: int)
    ensures Apply(Ledger(map[key := r], []), Export(now))
         == Some(Ledger(map[], [map[key := r.(endTs := now)]]))
  {
    var none: seq<Records> := [];
    assert Stamped(map[key := r], now) == map[key := r.(endTs := now)];
    assert none + [Stamped(map[key := r], now)] == [map[key := r.(endTs := now)]];
  }

  lemma AddNothing(x: nat)
    requires x < U64
    ensures Add(x, 0) == x && Add(0, x) == x
  {
  }

  lemma RunNothing()
    ensures Run([]) == Some(Ledger(map[], []))
  {
  }

  lemma RunNext(events: seq<Event>, e: Event)
    requires Run(events).Some?
    ensures Run(events + [e]) == Apply(Run(events).value, e)
  {
    hide Apply;
    assert (events + [e])[..|events|] == events;
  }

  // ---------------------------------------------------------------- the manager

  /** The report holds the record of each key of `done`, once, and nothing else. */
  ghost predicate Reports(report: seq<Record>, keys: seq<Key>, records: Records, done: set<Key>) {
    && |report| == |keys|
    && (forall k :: k in keys <==> k in done)
    && (forall i, j | 0 <= i < j < |keys| :: keys[i] != keys[j])
    && forall i | 0 <= i < |keys| :: keys[i] in records && report[i] == records[keys[i]]
  }

  lemma NothingReported(records: Records)
    ensures Reports([], [], records, {})
  {
  }

  lemma ReportNext(report: seq<Record>, keys: seq<Key>, records: Records, done: set<Key>, k: Key)
    requires Reports(report, keys, records, done) && k in records && k !in done
    ensures Reports(report + [records[k]], keys + [k], records, done + {k})
  {
  }

  lemma StampedAt(records: Records, now: int, k: Key)
    requires k in records
    ensures k in Stamped(records, now) && Stamped(records, now)[k] == records[k].(endTs := now)
  {
  }

  lemma WithoutOneMore(records: Records, done: set<Key>, k: Key)
    requires k in records && k !in done
    ensures k in records - done && (records - done)[k] == records[k]
    ensures records - done - {k} == records - (done + {k})
    ensures records.Keys - done - {k} == records.Keys - (done + {k})
  {
  }

  lemma AllTaken(records: Records, done: set<Key>)
    requires records.Keys - done == {} && done <= records.Keys
    ensures done == records.Keys && records - done == map[]
  {
    assert records.Keys == done + (records.Keys - done);
  }

  class UsageRecord {
    const userKey: bytes
    const serviceId: bytes
    const startTs: int
    var access: nat
    var upload: nat
    var download: nat

    constructor (userKey: bytes, serviceId: bytes, startTs: int, access: nat, upload: nat, download: nat)
      ensures Value() == Record(userKey, serviceId, startTs, 0, access, upload, download)
    {
      this.userKey, this.serviceId, this.startTs := userKey, serviceId, startTs;
      this.access, this.upload, this.download := access, upload, download;
    }

    function Value(): Record
      reads this
    {
      Record(userKey, serviceId, startTs, 0, access, upload, download)
    }

    method DoRecord(count: nat, upSize: nat, dwSize: nat)
      modifies this
      ensures Value() == WithCounts(old(Value()), count, upSize, dwSize)
    {
      access := (access + count) % U64;
      upload := (upload + upSize) % U64;
      download := (download + dwSize) % U64;
    }
  }

  class UsageRecordManager {
    var records: map<Key, UsageRecord>
    var locks: set<Key>

    /** Every record has a lock, and no two keys share a record. */
    ghost predicate Valid()
      reads this
    {
      && locks == records.Keys
      && forall i, j | i in records && j in records :: records[i] == records[j] ==> i == j
    }

    ghost function Live(): Records
      reads this, records.Values
    {
      map k | k in records :: records[k].Value()
    }

    constructor ()
      ensures Valid() && Live() == map[]
    {
      records, locks := map[], {};
    }

    /** Adds to the record of a key. */
    method AddTo(recordKey: Key, count: nat, upSize: nat, dwSize: nat)
      requires Valid() && recordKey in records
      modifies records[recordKey]
      ensures Valid()
      ensures Live() == old(Live())[recordKey := WithCounts(old(Live())[recordKey], count, upSize, dwSize)]
    {
      hide WithCounts;
      assert forall k | k in records :: records[k] in records.Values;
      records[recordKey].DoRecord(count, upSize, dwSize);
    }

    method PutNew(recordKey: Key, userKey: bytes, serviceId: bytes, upSize: nat, now: int)
      requires Valid() && recordKey !in records
      modifies this
      ensures Valid() && fresh(records.Values - old(records.Values))
      ensures Live() == old(Live())[recordKey := Record(userKey, serviceId, now, 0, 1, upSize % U64, 0)]
    {
      assert forall k | k in records :: records[k] in records.Values;
      locks := locks + {recordKey};
      var rcd := new UsageRecord(userKey, serviceId, now, 1, upSize % U64, 0);
      records := records[recordKey := rcd];
    }

    /** The start of a request, shared by the HTTP and the socket entry point. */
    method BeginRecord(requestId: bytes, upSize: nat, now: int) returns (ok: bool)
      requires Valid()
      modifies this, records.Values
      ensures Valid() && fresh(records.Values - old(records.Values))
      ensures ok <==> Begin(old(Live()), requestId, upSize, now).Some?
      ensures Live() == if ok then Begin(old(Live()), requestId, upSize, now).value else old(Live())
    {
      hide Extract, RecordKey, WithCounts, Valid;
      var info := Extract(requestId);
      if info.None? {
        return false;
      }
      var recordKey := RecordKey(info.value.service, info.value.user);
      if recordKey in records {
        assert records[recordKey] in records.Values;
        AddTo(recordKey, 1, upSize, 0);
      } else {
        PutNew(recordKey, info.value.user, info.value.service, upSize, now);
      }
      return true;
    }

    method RecordUsageFromInitHttpProxyRequest(requestId: bytes, requestBody: bytes, now: int) returns (ok: bool)
      requires Valid()
      modifies this, records.Values
      ensures Valid() && fresh(records.Values - old(records.Values))
      ensures ok <==> Begin(old(Live()), requestId, |requestBody|, now).Some?
      ensures Live() == if ok then Begin(old(Live()), requestId, |requestBody|, now).value else old(Live())
    {
      ok := BeginRecord(requestId, |requestBody|, now);
    }

    method RecordUsageFromSocket(requestId: bytes, now: int) returns (ok: bool)
      requires Valid()
      modifies this, records.Values
      ensures Valid() && fresh(records.Values - old(records.Values))
      ensures ok <==> Begin(old(Live()), requestId, 0, now).Some?
      ensures Live() == if ok then Begin(old(Live()), requestId, 0, now).value else old(Live())
    {
      ok := BeginRecord(requestId, 0, now);
    }

    method RecordUsageHttpProxyData(requestId: bytes, rawData: bytes, isClientToService: bool) returns (ok: bool)
      requires Valid()
      modifies records.Values
      ensures Valid()
      ensures ok <==> More(old(Live()), requestId, |rawData|, isClientToService).Some?
      ensures Live() == if ok then More(old(Live()), requestId, |rawData|, isClientToService).value
                        else old(Live())
    {
      hide Extract, RecordKey;
      var info := Extract(requestId);
      if info.None? {
        return false;
      }
      var recordKey := RecordKey(info.value.service, info.value.user);
      if recordKey !in locks {
        return false;
      }
      assert records[recordKey] in records.Values;
      if isClientToService {
        AddTo(recordKey, 0, |rawData|, 0);
      } else {
        AddTo(recordKey, 0, 0, |rawData|);
      }
      return true;
    }

    /** The record of one key leaves the manager, with its end time set. */
    method ExportOne(recordKey: Key, now: int) returns (tmpRecord: Record)
      requires Valid() && recordKey in Live()
      modifies this
      ensures Valid() && Live() == old(Live()) - {recordKey}
      ensures tmpRecord == old(Live())[recordKey].(endTs := now)
    {
      tmpRecord := records[recordKey].Value().(endTs := now);
      records := records - {recordKey};
      locks := locks - {recordKey};
    }

    /** Drains the manager; `keys` names the record at each place of the report. */
    method ExportAllUsage(now: int) returns (report: seq<Record>, ghost keys: seq<Key>)
      requires Valid()
      modifies this
      ensures Valid() && Live() == map[]
      ensures Reports(report, keys, Stamped(old(Live()), now), old(Live()).Keys)
    {
      report, keys := [], [];
      var todo := locks;
      ghost var before, done := Live(), {};
      assert todo == before.Keys && before - done == before;
      hide Reports, Valid, Live, Stamped;
      ghost var stamped := Stamped(before, now);
      NothingReported(stamped);
      while todo != {}
        invariant Valid() && Live() == before - done
        invariant todo == before.Keys - done && done <= before.Keys
        invariant Reports(report, keys, stamped, done)
        decreases todo
      {
        var recordKey :| recordKey in todo;
        StampedAt(before, now, recordKey);
        WithoutOneMore(before, done, recordKey);
        ReportNext(report, keys, stamped, done, recordKey);
        var tmpRecord := ExportOne(recordKey, now);
        report, keys := report + [tmpRecord], keys + [recordKey];
        done, todo := done + {recordKey}, todo - {recordKey};
      }
      AllTaken(before, done);
    }
  }
}
