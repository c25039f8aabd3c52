/**
 The layers together: batches of the scheduler become reports of the reporter, and what a query is answered
 with goes back to the bytes that a meter sent.
 */
module Gateway {
  import opened Bytes
  import opened DataItem
  import opened MqttPayload
  import opened MqttReporter
  import opened ReporterGuarantees
  import Address
  import BcdCodec
  import FrameCodec
  import FrameTransceiver
  import JsonRoundTrip
  import MeterReader
  import Scheduler
  import Topics

  /** How a reading's value is printed. */
  type Printer = real -> NumberText

  /** A configured scheduler, what its reads yield and how values are printed. */
  datatype Setup = Setup(cfg: Scheduler.Config, readings: Scheduler.Readings, show: Printer)

  function ToItemResult(show: Printer, b: Scheduler.BatchItem): ItemResult {
    ItemResult(b.item, b.di, b.reading.code,
      if b.reading.result.Some?
      then Some(Printed(show(b.reading.result.value.value), b.reading.result.value.unit)) else None)
  }

  // ----- runs that the scheduler feeds -----

  /** The event that a batch callback causes, whatever the moments at which it and its items are stamped. */
  predicate CausedBy(show: Printer, call: Scheduler.Action, e: Event) {
    call.BatchCall? && e.BatchReport? && e.meter == call.meter && e.address == call.address &&
    |e.items| == |call.items| &&
    forall k :: 0 <= k < |e.items| ==> e.items[k].item == ToItemResult(show, call.items[k])
  }

  /** The batches of a trace, in order. */
  function Batches(calls: seq<Scheduler.Action>): seq<Scheduler.Action> {
    if calls == [] then [] else (if calls[0].BatchCall? then [calls[0]] else []) + Batches(calls[1..])
  }

  /** All reports of a run are caused by these batches, one after the other; anything may happen in between. */
  predicate FedBy(show: Printer, batches: seq<Scheduler.Action>, events: seq<Event>)
    decreases |events|
  {
    if events == [] then true
    else if events[0].CacheReport? then false
    else if !events[0].BatchReport? then FedBy(show, batches, events[1..])
    else batches != [] && CausedBy(show, batches[0], events[0]) && FedBy(show, batches[1..], events[1..])
  }

  /** The run is fed by a scheduler's trace, as `Scheduler.Run` leaves it wherever it was stopped. */
  predicate FedRun(s: Setup, polls: nat, last: seq<Scheduler.Action>, events: seq<Event>) {
    last <= Scheduler.PollCalls(s.cfg, s.readings, polls) &&
    FedBy(s.show, Batches(Scheduler.PollsCalls(s.cfg, s.readings, polls) + last), events)
  }

  // ----- reports are reads -----

  /** The read of item `j` of meter `i` in a poll. */
  datatype ReadId = ReadId(poll: nat, i: nat, j: nat)

  predicate Known(cfg: Scheduler.Config, id: ReadId) {
    id.i < |cfg.meters| && id.j < |cfg.items|
  }

  predicate AllKnown(cfg: Scheduler.Config, ids: seq<ReadId>) {
    forall k :: 0 <= k < |ids| ==> Known(cfg, ids[k])
  }

  /** The reads of the enabled ones among the first `n` items of a meter. */
  function ItemIds(cfg: Scheduler.Config, poll: nat, i: nat, n: nat): (ids: seq<ReadId>)
    requires i < |cfg.meters| && n <= |cfg.items|
    ensures AllKnown(cfg, ids)
  {
    if n == 0 then []
    else ItemIds(cfg, poll, i, n - 1) + (if cfg.items[n - 1].enabled then [ReadId(poll, i, n - 1)] else [])
  }

  function MeterIds(cfg: Scheduler.Config, poll: nat, i: nat): (ids: seq<ReadId>)
    requires i < |cfg.meters|
    ensures AllKnown(cfg, ids)
  {
    if cfg.batchCallback && Scheduler.Served(cfg, i) then ItemIds(cfg, poll, i, |cfg.items|) else []
  }

  /** The reads that a poll hands over for its first `n` meters. */
  function PollIds(cfg: Scheduler.Config, poll: nat, n: nat): (ids: seq<ReadId>)
    requires n <= |cfg.meters|
    ensures AllKnown(cfg, ids)
  {
    if n == 0 then [] else PollIds(cfg, poll, n - 1) + MeterIds(cfg, poll, n - 1)
  }

  /** The reads that the first `n` polls hand over, in order. */
  function RunIds(cfg: Scheduler.Config, n: nat): (ids: seq<ReadId>)
    ensures AllKnown(cfg, ids)
  {
    if n == 0 then [] else RunIds(cfg, n - 1) + PollIds(cfg, n - 1, |cfg.meters|)
  }

  /** The order in which reads are made. */
  predicate Before(a: ReadId, b: ReadId) {
    a.poll < b.poll || (a.poll == b.poll && (a.i < b.i || (a.i == b.i && a.j < b.j)))
  }

  predicate Ordered(ids: seq<ReadId>) {
    forall x, y :: 0 <= x < y < |ids| ==> Before(ids[x], ids[y])
  }

  lemma OrderedTogether(a: seq<ReadId>, b: seq<ReadId>)
    requires Ordered(a) && Ordered(b) && forall x, y :: x in a && y in b ==> Before(x, y)
    ensures Ordered(a + b)
  {
    hide Before;
  }

  lemma {:induction false} ItemIdsExactly(cfg: Scheduler.Config, poll: nat, i: nat, n: nat)
    requires i < |cfg.meters| && n <= |cfg.items|
    ensures forall id :: id in ItemIds(cfg, poll, i, n) <==>
              id.poll == poll && id.i == i && id.j < n && cfg.items[id.j].enabled
    ensures Ordered(ItemIds(cfg, poll, i, n))
  {
    if n > 0 {
      var front, last := ItemIds(cfg, poll, i, n - 1), ReadId(poll, i, n - 1);
      ItemIdsExactly(cfg, poll, i, n - 1);
      OrderedTogether(front, if cfg.items[n - 1].enabled then [last] else []);
    }
  }

  lemma {:induction false} PollIdsExactly(cfg: Scheduler.Config, poll: nat, n: nat)
    requires n <= |cfg.meters|
    ensures forall id :: id in PollIds(cfg, poll, n) <==>
              id.poll == poll && cfg.batchCallback && id.i < n && cfg.meters[id.i].enabled &&
              id.i < |cfg.readers| && cfg.readers[id.i] && id.j < |cfg.items| && cfg.items[id.j].enabled
    ensures Ordered(PollIds(cfg, poll, n))
  {
    hide Ordered, ItemIds;
    if n > 0 {
      PollIdsExactly(cfg, poll, n - 1);
      ItemIdsExactly(cfg, poll, n - 1, |cfg.items|);
      NothingOrdered();
      OrderedTogether(PollIds(cfg, poll, n - 1), MeterIds(cfg, poll, n - 1));
    } else {
      NothingOrdered();
    }
  }

  lemma NothingOrdered()
    ensures Ordered([])
  {
  }

  /**
   The reads handed over in `n` polls are those of the enabled items of the enabled meters with a reader, each
   once, poll by poll, meter by meter and item by item.
   */
  lemma {:induction false} RunIdsExactly(cfg: Scheduler.Config, n: nat)
    ensures forall id :: id in RunIds(cfg, n) <==>
              id.poll < n && cfg.batchCallback && id.i < |cfg.meters| && cfg.meters[id.i].enabled &&
              id.i < |cfg.readers| && cfg.readers[id.i] && id.j < |cfg.items| && cfg.items[id.j].enabled
    ensures Ordered(RunIds(cfg, n))
  {
    hide Ordered, PollIds;
    if n > 0 {
      RunIdsExactly(cfg, n - 1);
      PollIdsExactly(cfg, n - 1, |cfg.meters|);
      OrderedTogether(RunIds(cfg, n - 1), PollIds(cfg, n - 1, |cfg.meters|));
    } else {
      NothingOrdered();
    }
  }

  /** What a report says, whenever it was cached. */
  datatype Entry = Entry(meter: string, address: string, item: ItemResult)

  function Entries(reports: seq<Report>): (es: seq<Entry>)
    ensures |es| == |reports|
  {
    seq(|reports|, i requires 0 <= i < |reports| => Entry(reports[i].meter, reports[i].address, reports[i].item))
  }

  function BatchEntries(show: Printer, call: Scheduler.Action): (es: seq<Entry>)
    requires call.BatchCall?
    ensures |es| == |call.items|
  {
    seq(|call.items|, k requires 0 <= k < |call.items| =>
      Entry(call.meter, call.address, ToItemResult(show, call.items[k])))
  }

  /** What the batches of a trace say, item by item. */
  function Readout(show: Printer, calls: seq<Scheduler.Action>): seq<Entry> {
    if calls == [] then []
    else (if calls[0].BatchCall? then BatchEntries(show, calls[0]) else []) + Readout(show, calls[1..])
  }

  /** What is reported for one read: names, address text, identifier text, code, printed value and unit. */
  function Shown(s: Setup, id: ReadId): Entry
    requires Known(s.cfg, id)
  {
    var meter := s.cfg.meters[id.i];
    Entry(meter.name, Address.Text(meter.address),
          ToItemResult(s.show, Scheduler.ItemAt(s.cfg, s.readings, id.poll, id.i, id.j)))
  }

  function ShownAll(s: Setup, ids: seq<ReadId>): (es: seq<Entry>)
    requires AllKnown(s.cfg, ids)
    ensures |es| == |ids|
  {
    seq(|ids|, k requires 0 <= k < |ids| => Shown(s, ids[k]))
  }

  lemma ShownConcat(s: Setup, a: seq<ReadId>, b: seq<ReadId>)
    requires AllKnown(s.cfg, a) && AllKnown(s.cfg, b)
    ensures AllKnown(s.cfg, a + b) && ShownAll(s, a + b) == ShownAll(s, a) + ShownAll(s, b)
  {
    hide Shown;
  }

  lemma {:induction false} ReadoutConcat(show: Printer, a: seq<Scheduler.Action>, b: seq<Scheduler.Action>)
    ensures Readout(show, a + b) == Readout(show, a) + Readout(show, b)
  {
    hide BatchEntries;
    if a == [] {
      assert a + b == b;
    } else {
      assert (a + b)[1..] == a[1..] + b;
      ReadoutConcat(show, a[1..], b);
      Assoc(if a[0].BatchCall? then BatchEntries(show, a[0]) else [], Readout(show, a[1..]), Readout(show, b));
    }
  }

  lemma {:induction false} ReadoutOfBatches(show: Printer, calls: seq<Scheduler.Action>)
    ensures Readout(show, Batches(calls)) == Readout(show, calls)
  {
    hide BatchEntries;
    if calls != [] {
      ReadoutOfBatches(show, calls[1..]);
      if calls[0].BatchCall? {
        assert Batches(calls)[1..] == Batches(calls[1..]);
      } else {
        assert [] + Batches(calls[1..]) == Batches(calls[1..]);
      }
    }
  }

  lemma {:induction false} ItemCallsSaySilent(show: Printer, calls: seq<Scheduler.Action>)
    requires forall k :: 0 <= k < |calls| ==> calls[k].ItemCall?
    ensures Readout(show, calls) == []
  {
    if calls != [] {
      ItemCallsSaySilent(show, calls[1..]);
    }
  }

  lemma {:induction false} ResultsAreItems(s: Setup, poll: nat, i: nat, n: nat)
    requires i < |s.cfg.meters| && n <= |s.cfg.items|
    ensures var rs := Scheduler.Results(s.cfg, s.readings, poll, i, n); var ids := ItemIds(s.cfg, poll, i, n);
            |rs| == |ids| &&
            forall k :: 0 <= k < |ids| ==>
              ids[k].poll == poll && ids[k].i == i &&
              rs[k] == Scheduler.ItemAt(s.cfg, s.readings, poll, i, ids[k].j)
  {
    hide Scheduler.ItemAt;
    if n > 0 {
      ResultsAreItems(s, poll, i, n - 1);
    }
  }

  lemma BatchShows(s: Setup, poll: nat, i: nat)
    requires i < |s.cfg.meters|
    ensures var meter := s.cfg.meters[i];
            var items := Scheduler.Results(s.cfg, s.readings, poll, i, |s.cfg.items|);
            BatchEntries(s.show, Scheduler.BatchCall(meter.name, Address.Text(meter.address), items))
            == ShownAll(s, ItemIds(s.cfg, poll, i, |s.cfg.items|))
  {
    hide Scheduler.Results, ItemIds, Scheduler.ItemAt, ToItemResult;
    ResultsAreItems(s, poll, i, |s.cfg.items|);
  }

  lemma MeterReadout(s: Setup, poll: nat, i: nat)
    requires i < |s.cfg.meters|
    ensures Readout(s.show, Scheduler.MeterCalls(s.cfg, s.readings, poll, i)) == ShownAll(s, MeterIds(s.cfg, poll, i))
  {
    hide Scheduler.Results, ItemIds, BatchEntries, Shown, Scheduler.ItemAt;
    if Scheduler.Served(s.cfg, i) {
      var meter := s.cfg.meters[i];
      var items := Scheduler.Results(s.cfg, s.readings, poll, i, |s.cfg.items|);
      var single := Scheduler.ItemCalls(s.cfg, meter, items);
      var batch := Scheduler.BatchCalls(s.cfg, meter, items);
      ItemCallsSaySilent(s.show, single);
      ReadoutConcat(s.show, single, batch);
      BatchShows(s, poll, i);
      ResultsAreItems(s, poll, i, |s.cfg.items|);
      if batch != [] {
        assert batch[1..] == [];
        assert Readout(s.show, batch) == BatchEntries(s.show, batch[0]);
      }
    }
  }

  lemma NothingShown(s: Setup)
    ensures Readout(s.show, []) == [] == ShownAll(s, [])
  {
  }

  lemma {:induction false} PollReadout(s: Setup, poll: nat, n: nat)
    requires n <= |s.cfg.meters|
    ensures Readout(s.show, Scheduler.MetersCalls(s.cfg, s.readings, poll, n)) == ShownAll(s, PollIds(s.cfg, poll, n))
  {
    hide Scheduler.MeterCalls, MeterIds, Readout, ShownAll;
    if n == 0 {
      NothingShown(s);
    } else {
      PollReadout(s, poll, n - 1);
      MeterReadout(s, poll, n - 1);
      ReadoutConcat(s.show, Scheduler.MetersCalls(s.cfg, s.readings, poll, n - 1),
                    Scheduler.MeterCalls(s.cfg, s.readings, poll, n - 1));
      ShownConcat(s, PollIds(s.cfg, poll, n - 1), MeterIds(s.cfg, poll, n - 1));
    }
  }

  lemma {:induction false} RunReadout(s: Setup, n: nat)
    ensures Readout(s.show, Scheduler.PollsCalls(s.cfg, s.readings, n)) == ShownAll(s, RunIds(s.cfg, n))
  {
    hide Scheduler.MetersCalls, PollIds, Readout, ShownAll;
    if n == 0 {
      NothingShown(s);
    } else {
      RunReadout(s, n - 1);
      PollReadout(s, n - 1, |s.cfg.meters|);
      ReadoutConcat(s.show, Scheduler.PollsCalls(s.cfg, s.readings, n - 1),
                    Scheduler.PollCalls(s.cfg, s.readings, n - 1));
      ShownConcat(s, RunIds(s.cfg, n - 1), PollIds(s.cfg, n - 1, |s.cfg.meters|));
    }
  }

  lemma EntriesConcat(a: seq<Report>, b: seq<Report>)
    ensures Entries(a + b) == Entries(a) + Entries(b)
  {
  }

  lemma CausedEntries(show: Printer, call: Scheduler.Action, e: Event)
    requires CausedBy(show, call, e)
    ensures Entries(ReportsOf(e)) == BatchEntries(show, call)
  {
    hide ToItemResult;
  }

  lemma {:induction false} FedReadout(show: Printer, batches: seq<Scheduler.Action>, events: seq<Event>)
    requires FedBy(show, batches, events)
    ensures Entries(Reports(events)) <= Readout(show, batches)
    decreases |events|
  {
    hide CausedBy, ReportsOf, BatchEntries, Entries;
    if events == [] {
      NoEntries();
    } else if events[0].BatchReport? {
      CausedIsBatch(show, batches[0], events[0]);
      CausedEntries(show, batches[0], events[0]);
      FedReadout(show, batches[1..], events[1..]);
      EntriesConcat(ReportsOf(events[0]), Reports(events[1..]));
      Scheduler.PrefixOfSum(
        BatchEntries(show, batches[0]), Entries(Reports(events[1..])), Readout(show, batches[1..]));
    } else {
      NoReports(events[0]);
      FedReadout(show, batches, events[1..]);
      assert [] + Reports(events[1..]) == Reports(events[1..]);
    }
  }

  lemma CausedIsBatch(show: Printer, call: Scheduler.Action, e: Event)
    requires CausedBy(show, call, e)
    ensures call.BatchCall?
  {
  }

  lemma NoReports(e: Event)
    requires !e.CacheReport? && !e.BatchReport?
    ensures ReportsOf(e) == []
  {
  }

  lemma NoEntries()
    ensures Entries([]) == []
  {
  }

  /** The reads that have been reported in a run, in order. */
  function Reported(cfg: Scheduler.Config, polls: nat, events: seq<Event>): (ids: seq<ReadId>)
    ensures AllKnown(cfg, ids)
  {
    var all := RunIds(cfg, polls + 1);
    if |Reports(events)| <= |all| then all[..|Reports(events)|] else all
  }

  /** The reports of a fed run are, one by one and in order, those of the first reads of the scheduler. */
  lemma ReportsAreReads(s: Setup, polls: nat, last: seq<Scheduler.Action>, events: seq<Event>)
    requires FedRun(s, polls, last, events)
    ensures Entries(Reports(events)) == ShownAll(s, Reported(s.cfg, polls, events))
  {
    hide RunIds, Scheduler.PollCalls, Readout, Reports, FedBy, Shown;
    var calls := Scheduler.PollsCalls(s.cfg, s.readings, polls) + last;
    var whole := Scheduler.PollsCalls(s.cfg, s.readings, polls + 1);
    FedReadout(s.show, Batches(calls), events);
    ReadoutOfBatches(s.show, calls);
    Scheduler.PrefixOfSum(Scheduler.PollsCalls(s.cfg, s.readings, polls), last,
                          Scheduler.PollCalls(s.cfg, s.readings, polls));
    assert calls <= whole && whole == calls + whole[|calls|..];
    ReadoutConcat(s.show, calls, whole[|calls|..]);
    RunReadout(s, polls + 1);
    assert Entries(Reports(events)) <= ShownAll(s, RunIds(s.cfg, polls + 1));
  }

  // ----- identifiers in fed runs -----

  /** The text of some 32-bit identifier. */
  ghost predicate IsIdentifier(s: string) {
    exists di: uint32 :: s == Scheduler.DiHex(di)
  }

  lemma IdentifierPipeFree(s: string)
    requires IsIdentifier(s)
    ensures PipeFree(s)
  {
    var di: uint32 :| s == Scheduler.DiHex(di);
    Scheduler.DiHexFaithful(di);
  }

  ghost predicate IdentifierReports(reports: seq<Report>) {
    forall k :: 0 <= k < |reports| ==> IsIdentifier(reports[k].item.di)
  }

  /** In every run that the scheduler feeds all reports use the eight-digit form of an identifier. */
  lemma FedReportsUseIdentifiers(s: Setup, polls: nat, last: seq<Scheduler.Action>, events: seq<Event>)
    requires FedRun(s, polls, last, events)
    ensures IdentifierReports(Reports(events))
  {
    hide Scheduler.DiHex, FedRun, Reports, Reported;
    ReportsAreReads(s, polls, last, events);
    var reports, ids := Reports(events), Reported(s.cfg, polls, events);
    forall k | 0 <= k < |reports| ensures IsIdentifier(reports[k].item.di) {
      assert Entries(reports)[k] == Shown(s, ids[k]);
      assert reports[k].item.di == Scheduler.DiHex(s.cfg.items[ids[k].j].di);
    }
  }

  // ----- exactly which queries agree with the history -----

  /** What stands behind the last '|' is the text of an identifier. */
  ghost predicate Confusable(di: string) {
    '|' in di && IsIdentifier(di[LastPipe(di) + 1..])
  }

  lemma KeyLastPipe(meter: string, di: string)
    requires '|' in di
    ensures var key := CacheKey(meter, di);
            LastPipe(key) == |meter| + 1 + LastPipe(di) && key[LastPipe(key) + 1..] == di[LastPipe(di) + 1..]
  {
    var key, n := CacheKey(meter, di), LastPipe(di);
    assert key[|meter| + 1..] == di;
    assert key[|meter| + 1 + n + 1..] == di[n + 1..];
    LastPipeUnique(key, |meter| + 1 + n);
  }

  lemma IdentifierKey(meter: string, di: string)
    requires PipeFree(di)
    ensures var key := CacheKey(meter, di); LastPipe(key) == |meter| && key[LastPipe(key) + 1..] == di
  {
    var key := CacheKey(meter, di);
    assert key[|meter| + 1..] == di;
    LastPipeUnique(key, |meter|);
  }

  lemma OthersOwnNoKey(reports: seq<Report>, meter: string, di: string)
    requires IdentifierReports(reports) && !Confusable(di)
    ensures OwnsKey(reports, meter, di)
  {
    hide IsIdentifier, LastPipe;
    forall i | 0 <= i < |reports| && ReportKey(reports[i]) == CacheKey(meter, di)
      ensures reports[i].meter == meter && reports[i].item.di == di
    {
      var r := reports[i];
      IdentifierPipeFree(r.item.di);
      if PipeFree(di) {
        KeyInjective(meter, di, r.meter, r.item.di);
      } else {
        KeyLastPipe(meter, di);
        IdentifierKey(r.meter, r.item.di);
        assert IsIdentifier(di[LastPipe(di) + 1..]);
        assert false;
      }
    }
  }

  lemma UnconfusedAgree(
      cfg: Config, s: Setup, polls: nat, last: seq<Scheduler.Action>, events: seq<Event>,
      meter: string, di: string, stamp: Stamp)
    requires Possible(cfg, Init(cfg), events) && FedRun(s, polls, last, events) && !Confusable(di)
    ensures Response(cfg, Execute(cfg, Init(cfg), events).cache, meter, di, stamp)
         == Expected(cfg, Reports(events), meter, di, stamp)
  {
    hide Response, Expected, Execute, FedRun, Confusable, OwnsKey;
    FedReportsUseIdentifiers(s, polls, last, events);
    OthersOwnNoKey(Reports(events), meter, di);
    OwnedKeyAgrees(cfg, events, meter, di, stamp);
  }

  /** In every run fed by a scheduler the answer to this query is the one that the history calls for. */
  ghost predicate AlwaysAgrees(cfg: Config, meter: string, di: string, stamp: Stamp) {
    forall s: Setup, polls: nat, last: seq<Scheduler.Action>, events: seq<Event> ::
      FedRun(s, polls, last, events) && Possible(cfg, Init(cfg), events) ==>
        Agrees(cfg, events, meter, di, stamp)
  }

  predicate Agrees(cfg: Config, events: seq<Event>, meter: string, di: string, stamp: Stamp)
    requires Possible(cfg, Init(cfg), events)
  {
    Response(cfg, Execute(cfg, Init(cfg), events).cache, meter, di, stamp)
    == Expected(cfg, Reports(events), meter, di, stamp)
  }

  /** A scheduler with one meter of the given name and one item, none of whose reads is answered. */
  function OneMeter(name: string, di: uint32): Setup {
    Setup(
      Scheduler.Config(
        [Scheduler.Meter(name, [0, 0, 0, 0, 0, 0], true)], [DataItem(di, "", 0, 0, "", true)], 0,
        [true], false, true),
      (_, _, _) => MeterReader.Reading(MeterReader.Timeout, None), _ => "0")
  }

  function OneResult(name: string, di: uint32): ItemResult {
    var s := OneMeter(name, di);
    ToItemResult(s.show, Scheduler.ItemAt(s.cfg, s.readings, 0, 0, 0))
  }

  function OneReport(name: string, address: string, item: ItemResult, stamp: Stamp): Event {
    BatchReport(name, address, [Stamped(item, stamp)], stamp)
  }

  lemma OneMeterFeeds(name: string, di: uint32, stamp: Stamp)
    ensures var s := OneMeter(name, di); var address := Address.Text([0, 0, 0, 0, 0, 0]);
            FedRun(s, 0, Scheduler.PollCalls(s.cfg, s.readings, 0),
                   [OneReport(name, address, OneResult(name, di), stamp)])
  {
    hide Address.Text, Scheduler.DiHex, ToItemResult;
    var s, address := OneMeter(name, di), Address.Text([0, 0, 0, 0, 0, 0]);
    var item := Scheduler.ItemAt(s.cfg, s.readings, 0, 0, 0);
    assert Scheduler.Results(s.cfg, s.readings, 0, 0, 1) == [] + [item] == [item] by {
      assert Scheduler.Results(s.cfg, s.readings, 0, 0, 0) == [];
    }
    var call := Scheduler.BatchCall(name, address, [item]);
    assert Scheduler.MeterCalls(s.cfg, s.readings, 0, 0) == [call];
    assert Scheduler.MetersCalls(s.cfg, s.readings, 0, 0) == [];
    assert Scheduler.PollCalls(s.cfg, s.readings, 0) == [] + [call] == [call];
    assert Scheduler.PollsCalls(s.cfg, s.readings, 0) + [call] == [call];
    assert Batches([call]) == [call] + Batches([call][1..]) == [call];
    var e := OneReport(name, address, OneResult(name, di), stamp);
    assert CausedBy(s.show, call, e);
    assert FedBy(s.show, [call][1..], [e][1..]);
  }

  lemma OneReportRun(cfg: Config, name: string, address: string, item: ItemResult, stamp: Stamp)
    requires cfg.enabled
    ensures var events := [OneReport(name, address, item, stamp)]; var r := Report(name, address, item, stamp);
            Possible(cfg, Init(cfg), events) && Reports(events) == [r] &&
            Execute(cfg, Init(cfg), events).cache == map[ReportKey(r) := ReportPayload(cfg, r)]
  {
    hide ReportPayload, ReportKey, BatchMessage;
    var e, r := OneReport(name, address, item, stamp), Report(name, address, item, stamp);
    assert BatchReports(name, address, [Stamped(item, stamp)]) == [r];
    OneStep(cfg, Init(cfg), e);
    assert [e][1..] == [];
    assert Reports([e]) == [r] + Reports([]) == [r];
    assert CacheAll(cfg, map[], [r]) == CacheOne(cfg, CacheAll(cfg, map[], [r][..0]), r);
    assert [r][..0] == [];
  }

  lemma ConfusedDisagrees(cfg: Config, meter: string, di: string, name: string, id: uint32, stamp: Stamp)
    requires cfg.enabled && '|' in di && CacheKey(name, Scheduler.DiHex(id)) == CacheKey(meter, di)
    ensures !AlwaysAgrees(cfg, meter, di, stamp)
  {
    hide ReportPayload, NoCache, Scheduler.DiHex, FedRun, Topics.ItemTopic, Topics.ResponseTopic, Possible, Execute,
         Reports, CacheKey;
    var s, address, item := OneMeter(name, id), Address.Text([0, 0, 0, 0, 0, 0]), OneResult(name, id);
    var last := Scheduler.PollCalls(s.cfg, s.readings, 0);
    var events := [OneReport(name, address, item, stamp)];
    OneMeterFeeds(name, id, stamp);
    OneReportRun(cfg, name, address, item, stamp);
    Scheduler.DiHexFaithful(id);
    var r := Report(name, address, item, stamp);
    assert item.di == Scheduler.DiHex(id) != di;
    AnswersDiffer(cfg, r, meter, di, stamp);
    assert !Agrees(cfg, events, meter, di, stamp);
  }

  lemma AnswersDiffer(cfg: Config, r: Report, meter: string, di: string, stamp: Stamp)
    requires ReportKey(r) == CacheKey(meter, di) && r.item.di != di
    ensures Response(cfg, map[ReportKey(r) := ReportPayload(cfg, r)], meter, di, stamp)
         != Expected(cfg, [r], meter, di, stamp)
  {
    hide ReportPayload, CacheKey, Topics.ItemTopic, Topics.ResponseTopic;
    Topics.TopicsAreSeparate(cfg.prefix, cfg.gateway, meter, di, cfg.prefix, cfg.gateway, "");
    assert Latest([r], meter, di) == Latest([r][..0], meter, di) == None;
    assert Response(cfg, map[ReportKey(r) := ReportPayload(cfg, r)], meter, di, stamp).topic
        == Topics.ItemTopic(cfg.prefix, cfg.gateway, meter, di);
  }

  lemma ConfusableFails(cfg: Config, meter: string, di: string, stamp: Stamp)
    requires cfg.enabled && Confusable(di)
    ensures !AlwaysAgrees(cfg, meter, di, stamp)
  {
    hide AlwaysAgrees, CacheKey, LastPipe;
    var key := CacheKey(meter, di);
    KeyLastPipe(meter, di);
    var n := LastPipe(key);
    var id: uint32 :| key[n + 1..] == Scheduler.DiHex(id);
    CutAt(key, n);
    ConfusedDisagrees(cfg, meter, di, key[..n], id, stamp);
  }

  lemma UnconfusedAlwaysAgrees(cfg: Config, meter: string, di: string, stamp: Stamp)
    requires !Confusable(di)
    ensures AlwaysAgrees(cfg, meter, di, stamp)
  {
    hide FedRun, Confusable, Possible, Response, Expected, Execute;
    forall s: Setup, polls: nat, last: seq<Scheduler.Action>, events: seq<Event>
      | FedRun(s, polls, last, events) && Possible(cfg, Init(cfg), events)
      ensures Agrees(cfg, events, meter, di, stamp)
    {
      UnconfusedAgree(cfg, s, polls, last, events, meter, di, stamp);
    }
  }

  /**
   For an enabled reporter: a query is answered as the history calls for in every run fed by a scheduler, if and
   only if its identifier has no '|' or what stands behind the last one is not the text of an identifier.
   */
  lemma AlwaysAgreesIff(cfg: Config, meter: string, di: string, stamp: Stamp)
    requires cfg.enabled
    ensures AlwaysAgrees(cfg, meter, di, stamp) <==> !Confusable(di)
  {
    hide AlwaysAgrees, Confusable;
    if Confusable(di) {
      ConfusableFails(cfg, meter, di, stamp);
    } else {
      UnconfusedAlwaysAgrees(cfg, meter, di, stamp);
    }
  }

  /** In particular queries for identifiers, whatever the name of the meter. */
  lemma QueryForIdentifier(
      cfg: Config, s: Setup, polls: nat, last: seq<Scheduler.Action>, events: seq<Event>,
      meter: string, di: uint32, stamp: Stamp)
    requires Possible(cfg, Init(cfg), events) && FedRun(s, polls, last, events)
    ensures Response(cfg, Execute(cfg, Init(cfg), events).cache, meter, Scheduler.DiHex(di), stamp)
         == Expected(cfg, Reports(events), meter, Scheduler.DiHex(di), stamp)
  {
    hide Scheduler.DiHex, Response, Expected, FedRun;
    Scheduler.DiHexFaithful(di);
    UnconfusedAgree(cfg, s, polls, last, events, meter, Scheduler.DiHex(di), stamp);
  }

  // ----- from the bytes of a meter to the answer of a query -----

  /** The last read in a list that is for an item with this identifier and a meter of this name. */
  function LatestRead(cfg: Scheduler.Config, ids: seq<ReadId>, meter: string, di: uint32): (id: Option<ReadId>)
    requires AllKnown(cfg, ids)
    ensures id.Some? ==> Known(cfg, id.value)
  {
    if ids == [] then None
    else
      var last := ids[|ids| - 1];
      if cfg.meters[last.i].name == meter && cfg.items[last.j].di == di then Some(last)
      else LatestRead(cfg, ids[..|ids| - 1], meter, di)
  }

  predicate SaysOfLatest(s: Setup, reports: seq<Report>, ids: seq<ReadId>, meter: string, di: uint32)
    requires AllKnown(s.cfg, ids)
  {
    match LatestRead(s.cfg, ids, meter, di)
    case None => Latest(reports, meter, Scheduler.DiHex(di)).None?
    case Some(id) =>
      Latest(reports, meter, Scheduler.DiHex(di)).Some? &&
      var r := Latest(reports, meter, Scheduler.DiHex(di)).value;
      Entry(r.meter, r.address, r.item) == Shown(s, id)
  }

  lemma DiHexInjective(a: uint32, b: uint32)
    requires Scheduler.DiHex(a) == Scheduler.DiHex(b)
    ensures a == b
  {
    Scheduler.DiHexFaithful(a);
    Scheduler.DiHexFaithful(b);
  }

  lemma {:induction false} LatestIsRead(s: Setup, reports: seq<Report>, ids: seq<ReadId>, meter: string, di: uint32)
    requires AllKnown(s.cfg, ids) && Entries(reports) == ShownAll(s, ids)
    ensures SaysOfLatest(s, reports, ids, meter, di)
  {
    hide Scheduler.DiHex;
    assert |reports| == |ids|;
    if ids != [] {
      var n := |ids| - 1;
      assert Entries(reports)[n] == Shown(s, ids[n]);
      assert Entries(reports[..n]) == Entries(reports)[..n] == ShownAll(s, ids)[..n] == ShownAll(s, ids[..n]);
      LatestIsRead(s, reports[..n], ids[..n], meter, di);
      if reports[n].item.di == Scheduler.DiHex(di) {
        DiHexInjective(s.cfg.items[ids[n].j].di, di);
      }
    }
  }

  /** The report of one read, cached at some moment. */
  function ReadReport(s: Setup, id: ReadId, at: Stamp): Report
    requires Known(s.cfg, id)
  {
    var e := Shown(s, id);
    Report(e.meter, e.address, e.item, at)
  }

  /**
   In every state that a run fed by a scheduler reaches, a query for any meter name and any identifier is
   answered with the payload of the latest reported read for them, or with no_cache if none has been reported.
   */
  lemma QueryAnswersRead(
      cfg: Config, s: Setup, polls: nat, last: seq<Scheduler.Action>, events: seq<Event>,
      meter: string, di: uint32, stamp: Stamp) returns (at: Stamp)
    requires Possible(cfg, Init(cfg), events) && FedRun(s, polls, last, events)
    ensures var answer := Response(cfg, Execute(cfg, Init(cfg), events).cache, meter, Scheduler.DiHex(di), stamp);
            match LatestRead(s.cfg, Reported(s.cfg, polls, events), meter, di)
            case None => answer == NoCache(cfg, meter, Scheduler.DiHex(di), stamp)
            case Some(id) => answer == ReportMessage(cfg, ReadReport(s, id, at))
  {
    hide Scheduler.DiHex, Response, FedRun, ReportMessage, NoCache, Reports, Reported, Shown;
    QueryForIdentifier(cfg, s, polls, last, events, meter, di, stamp);
    ReportsAreReads(s, polls, last, events);
    var reports := Reports(events);
    LatestIsRead(s, reports, Reported(s.cfg, polls, events), meter, di);
    var latest := Latest(reports, meter, Scheduler.DiHex(di));
    at := if latest.Some? then latest.value.stamp else stamp;
  }

  /** What happens on the serial line during one read. */
  datatype Exchange = Exchange(sendOk: bool, isOpen: bool, chunks: seq<seq<byte>>)

  /** The exchange of every read: poll, meter and item. */
  type Wire = (nat, nat, nat) -> Exchange

  function ReadOver(s: Setup, wire: Wire, id: ReadId): MeterReader.Reading
    requires Known(s.cfg, id)
  {
    var x := wire(id.poll, id.i, id.j);
    MeterReader.Read(s.cfg.meters[id.i].address, s.cfg.items[id.j], x.sendOk, x.isOpen, x.chunks)
  }

  /** Every reading of the scheduler is what the reader makes of its exchange. */
  ghost predicate ReadsFrom(s: Setup, wire: Wire) {
    forall id: ReadId :: Known(s.cfg, id) ==> s.readings(id.poll, id.i, id.j) == ReadOver(s, wire, id)
  }

  /** The meter of a read answers with `value`, behind any FE bytes, in any pieces, with anything after it. */
  ghost predicate MeterSends(s: Setup, x: Exchange, id: ReadId, value: nat)
    requires Known(s.cfg, id)
  {
    x.sendOk && x.isOpen &&
    exists k: nat, tail: seq<byte> ::
      Flatten(x.chunks) == Repeat(FrameCodec.PREAMBLE, k) + SentFor(s, id, value) + tail
  }

  function SentFor(s: Setup, id: ReadId, value: nat): seq<byte>
    requires Known(s.cfg, id)
  {
    FrameCodec.Core(MeterReader.Reply(s.cfg.meters[id.i].address, s.cfg.items[id.j], value))
  }

  lemma SentIsRead(s: Setup, wire: Wire, id: ReadId, value: BcdCodec.uint64)
    requires ReadsFrom(s, wire) && Known(s.cfg, id) && MeterSends(s, wire(id.poll, id.i, id.j), id, value)
    requires s.cfg.items[id.j].dataLength <= 251 && value < BcdCodec.Pow100(s.cfg.items[id.j].dataLength)
    ensures var item := s.cfg.items[id.j]; var number := value as real / BcdCodec.Pow10(item.decimalDigits);
            s.readings(id.poll, id.i, id.j) ==
              MeterReader.Reading(MeterReader.Success, Some(MeterReader.ReadResult(number, item.unit))) &&
            BcdCodec.PointMoved(number, value, item.decimalDigits)
  {
    hide MeterReader.Read, FrameCodec.Core, BcdCodec.Pow10, BcdCodec.Pow100, MeterReader.Reply, BcdCodec.PointMoved;
    var x, address, item := wire(id.poll, id.i, id.j), s.cfg.meters[id.i].address, s.cfg.items[id.j];
    var k: nat, tail: seq<byte> :|
      Flatten(x.chunks) == Repeat(FrameCodec.PREAMBLE, k) + SentFor(s, id, value) + tail;
    MeterReader.ReadEndToEnd(address, item, value, x.chunks, k, tail);
    assert s.readings(id.poll, id.i, id.j) == ReadOver(s, wire, id);
  }

  lemma {:induction false} LatestReadMatches(cfg: Scheduler.Config, ids: seq<ReadId>, meter: string, di: uint32)
    requires AllKnown(cfg, ids) && LatestRead(cfg, ids, meter, di).Some?
    ensures var id := LatestRead(cfg, ids, meter, di).value;
            cfg.meters[id.i].name == meter && cfg.items[id.j].di == di
  {
    if ids != [] {
      var last := ids[|ids| - 1];
      if !(cfg.meters[last.i].name == meter && cfg.items[last.j].di == di) {
        LatestReadMatches(cfg, ids[..|ids| - 1], meter, di);
      }
    }
  }

  /** The fields of an answer for one read: a success carries the printed value, a failure its number and name. */
  function ReadTexts(s: Setup, id: ReadId): seq<string>
    requires Known(s.cfg, id)
  {
    var item, reading := s.cfg.items[id.j], s.readings(id.poll, id.i, id.j);
    [StringField("item", item.name), StringField("di", Scheduler.DiHex(item.di))] +
    if reading.code == MeterReader.Success && reading.result.Some? then
      [BareField("success", "true"), BareField("value", s.show(reading.result.value.value)),
       StringField("unit", reading.result.value.unit)]
    else
      [BareField("success", "false"), BareField("error_code", IntText(ErrorNumber(reading.code))),
       StringField("error_name", ErrorName(reading.code))]
  }

  lemma ShownTexts(s: Setup, id: ReadId)
    requires Known(s.cfg, id)
    ensures ItemTexts(Shown(s, id).item) == ReadTexts(s, id)
  {
    hide StringField, BareField, IntText, ErrorName, Scheduler.DiHex;
  }

  /** The fields of a command's JSON text, laid out in any way, ask for this pair. */
  predicate AsksFor(fs: seq<JsonRoundTrip.Field>, w: string, tail: string, meter: string, di: string) {
    fs != [] && JsonRoundTrip.AllValidFields(fs) && JsonRoundTrip.Spaces(w) && JsonRoundTrip.Spaces(tail) &&
    JsonRoundTrip.FirstHeard(fs, "meter", None) == Some(meter) && JsonRoundTrip.FirstHeard(fs, "di", None) == Some(di)
  }

  /**
   What a command is answered with once its pair has been reported: on the item's topic, field by field, the names,
   the meter's address and the outcome of the latest reported read for the pair.
   */
  lemma AnswerSaysRead(
      cfg: Config, s: Setup, polls: nat, last: seq<Scheduler.Action>, events: seq<Event>,
      fs: seq<JsonRoundTrip.Field>, w: string, tail: string, meter: string, di: uint32, stamp: Stamp, id: ReadId)
    returns (answer: Message, at: Stamp)
    requires Possible(cfg, Init(cfg), events) && FedRun(s, polls, last, events)
    requires AsksFor(fs, w, tail, meter, Scheduler.DiHex(di))
    requires LatestRead(s.cfg, Reported(s.cfg, polls, events), meter, di) == Some(id)
    ensures var cache := Execute(cfg, Init(cfg), events).cache;
            CommandResponse(cfg, cache, JsonRoundTrip.SpacedObject(w, fs, tail), stamp) == Some(answer) &&
            answer == Response(cfg, cache, meter, Scheduler.DiHex(di), stamp)
    ensures Topics.Levels(answer.topic) ==
            [Topics.Segment(cfg.prefix), Topics.Segment(cfg.gateway), "meter", Topics.Segment(meter), "item",
             Topics.Segment(Scheduler.DiHex(di))]
    ensures answer.payload ==
            "{" + CommaJoined(HeadTexts(cfg.gateway, meter, Address.Text(s.cfg.meters[id.i].address)) +
                              ReadTexts(s, id) + StampTexts(at)) + "}"
    ensures ReadsAs(answer.payload, "meter", meter) && ReadsAs(answer.payload, "di", Scheduler.DiHex(di))
    ensures var reading := s.readings(id.poll, id.i, id.j);
            reading.code == MeterReader.Success && reading.result.Some? ==>
              ReadsAs(answer.payload, "unit", reading.result.value.unit)
  {
    hide ReadsAs, Absent, Response, CommandResponse, FedRun, Reported, Payload, Scheduler.DiHex, Execute, Possible;
    hide Topics.ItemTopic;
    hide Topics.Levels, ItemTexts, ReadTexts, HeadTexts, StampTexts, CommaJoined, JsonRoundTrip.SpacedObject;
    hide JsonRoundTrip.FirstHeard, JsonRoundTrip.AllValidFields;
    at := QueryAnswersRead(cfg, s, polls, last, events, meter, di, stamp);
    LatestReadMatches(s.cfg, Reported(s.cfg, polls, events), meter, di);
    CommandIsQuery(cfg, Execute(cfg, Init(cfg), events).cache, w, fs, tail, stamp);
    var r := ReadReport(s, id, at);
    answer := ReportMessage(cfg, r);
    ShownTexts(s, id);
    PayloadText(cfg.gateway, r.meter, r.address, r.item, r.stamp);
    PayloadRoundTrip(cfg.gateway, r.meter, r.address, r.item, r.stamp);
    Topics.ItemTopicShape(cfg.prefix, cfg.gateway, meter, Scheduler.DiHex(di));
  }

  /**
   From byte to answer: if during the latest reported read for a meter name and an identifier the meter sent
   `value`, then a later command for that pair, laid out in any way, is answered on the item's topic with a payload
   that names the meter, its address, the item and the identifier, reports success and carries exactly the printed
   value with its point moved by the item's decimal digits, and its unit.
   */
  lemma AnswerCarriesValue(
      cfg: Config, s: Setup, wire: Wire, polls: nat, last: seq<Scheduler.Action>, events: seq<Event>,
      fs: seq<JsonRoundTrip.Field>, w: string, tail: string, meter: string, di: uint32, stamp: Stamp,
      id: ReadId, value: BcdCodec.uint64)
    returns (answer: Message, at: Stamp, number: real)
    requires Possible(cfg, Init(cfg), events) && FedRun(s, polls, last, events) && ReadsFrom(s, wire)
    requires AsksFor(fs, w, tail, meter, Scheduler.DiHex(di))
    requires LatestRead(s.cfg, Reported(s.cfg, polls, events), meter, di) == Some(id)
    requires MeterSends(s, wire(id.poll, id.i, id.j), id, value)
    requires s.cfg.items[id.j].dataLength <= 251 && value < BcdCodec.Pow100(s.cfg.items[id.j].dataLength)
    ensures var cache := Execute(cfg, Init(cfg), events).cache;
            CommandResponse(cfg, cache, JsonRoundTrip.SpacedObject(w, fs, tail), stamp) == Some(answer) &&
            answer == Response(cfg, cache, meter, Scheduler.DiHex(di), stamp)
    ensures Topics.Levels(answer.topic) ==
            [Topics.Segment(cfg.prefix), Topics.Segment(cfg.gateway), "meter", Topics.Segment(meter), "item",
             Topics.Segment(Scheduler.DiHex(di))]
    ensures var item := s.cfg.items[id.j];
            BcdCodec.PointMoved(number, value, item.decimalDigits) &&
            answer.payload ==
              "{" + CommaJoined(
                HeadTexts(cfg.gateway, meter, Address.Text(s.cfg.meters[id.i].address)) +
                ([StringField("item", item.name), StringField("di", Scheduler.DiHex(di))] +
                 [BareField("success", "true"), BareField("value", s.show(number)), StringField("unit", item.unit)]) +
                StampTexts(at)) + "}"
    ensures ReadsAs(answer.payload, "meter", meter) && ReadsAs(answer.payload, "di", Scheduler.DiHex(di)) &&
            ReadsAs(answer.payload, "unit", s.cfg.items[id.j].unit)
  {
    hide ReadsAs, Response, CommandResponse, FedRun, Reported, Scheduler.DiHex, Execute, Possible, Topics.Levels;
    hide HeadTexts, StampTexts, CommaJoined, StringField, BareField, IntText, ErrorName, JsonRoundTrip.SpacedObject;
    hide BcdCodec.Pow10, BcdCodec.Pow100, BcdCodec.PointMoved, ReadsFrom, MeterSends, AsksFor;
    LatestReadMatches(s.cfg, Reported(s.cfg, polls, events), meter, di);
    answer, at := AnswerSaysRead(cfg, s, polls, last, events, fs, w, tail, meter, di, stamp, id);
    SentIsRead(s, wire, id, value);
    number := value as real / BcdCodec.Pow10(s.cfg.items[id.j].decimalDigits);
  }

  /**
   From answer to byte: if the answer to a query has a unit, which payloads have exactly when they report a value,
   then the bytes that the latest reported read received contain a valid reply of this meter for this identifier.
   */
  lemma AnswerIsJustified(
      cfg: Config, s: Setup, wire: Wire, polls: nat, last: seq<Scheduler.Action>, events: seq<Event>,
      meter: string, di: uint32, stamp: Stamp, id: ReadId)
    requires Possible(cfg, Init(cfg), events) && FedRun(s, polls, last, events) && ReadsFrom(s, wire)
    requires LatestRead(s.cfg, Reported(s.cfg, polls, events), meter, di) == Some(id)
    requires var answer := Response(cfg, Execute(cfg, Init(cfg), events).cache, meter, Scheduler.DiHex(di), stamp);
             !Absent(answer.payload, "unit")
    ensures var x := wire(id.poll, id.i, id.j);
            MeterReader.Justified(
              Flatten(x.chunks[..FrameTransceiver.Receive([], x.chunks).used]),
              s.cfg.meters[id.i].address, s.cfg.items[id.j], s.readings(id.poll, id.i, id.j))
  {
    hide Response, FedRun, ReadsAs, Absent, Reported, Payload, Scheduler.DiHex, Execute, Possible,
         MeterReader.Read, MeterReader.Justified, Topics.ItemTopic;
    var at := QueryAnswersRead(cfg, s, polls, last, events, meter, di, stamp);
    var r := ReadReport(s, id, at);
    PayloadRoundTrip(cfg.gateway, r.meter, r.address, r.item, r.stamp);
    assert s.readings(id.poll, id.i, id.j) == ReadOver(s, wire, id);
    var x := wire(id.poll, id.i, id.j);
    MeterReader.ReadIsSound(s.cfg.meters[id.i].address, s.cfg.items[id.j], x.sendOk, x.isOpen, x.chunks);
  }

  // ----- what the published batches say -----

  lemma {:induction false} FedEventIsCall(
      show: Printer, batches: seq<Scheduler.Action>, events: seq<Event>, k: nat) returns (call: Scheduler.Action)
    requires FedBy(show, batches, events) && k < |events| && (events[k].CacheReport? || events[k].BatchReport?)
    ensures call in batches && CausedBy(show, call, events[k])
    decreases |events|
  {
    hide CausedBy;
    if k == 0 {
      call := batches[0];
    } else if events[0].BatchReport? {
      call := FedEventIsCall(show, batches[1..], events[1..], k - 1);
    } else {
      call := FedEventIsCall(show, batches, events[1..], k - 1);
    }
  }

  lemma {:induction false} BatchesAreCalls(calls: seq<Scheduler.Action>)
    ensures forall c :: c in Batches(calls) ==> c in calls && c.BatchCall?
  {
    if calls != [] {
      BatchesAreCalls(calls[1..]);
    }
  }

  /** The call is the batch of meter `i` in a poll: all its results, in order. */
  predicate MeterBatch(s: Setup, poll: nat, i: nat, call: Scheduler.Action) {
    i < |s.cfg.meters| && s.cfg.meters[i].enabled && i < |s.cfg.readers| && s.cfg.readers[i] &&
    var items := Scheduler.Results(s.cfg, s.readings, poll, i, |s.cfg.items|);
    items != [] && call == Scheduler.BatchCall(s.cfg.meters[i].name, Address.Text(s.cfg.meters[i].address), items)
  }

  lemma {:induction false} BatchOfPoll(s: Setup, poll: nat, n: nat, call: Scheduler.Action) returns (i: nat)
    requires n <= |s.cfg.meters| && call.BatchCall? && call in Scheduler.MetersCalls(s.cfg, s.readings, poll, n)
    ensures MeterBatch(s, poll, i, call)
  {
    if call in Scheduler.MetersCalls(s.cfg, s.readings, poll, n - 1) {
      i := BatchOfPoll(s, poll, n - 1, call);
    } else {
      i := n - 1;
      assert call in Scheduler.MeterCalls(s.cfg, s.readings, poll, i);
    }
  }

  lemma {:induction false} BatchOfRun(s: Setup, n: nat, call: Scheduler.Action) returns (poll: nat, i: nat)
    requires call.BatchCall? && call in Scheduler.PollsCalls(s.cfg, s.readings, n)
    ensures poll < n && MeterBatch(s, poll, i, call)
  {
    hide Scheduler.MetersCalls, MeterBatch;
    if call in Scheduler.PollsCalls(s.cfg, s.readings, n - 1) {
      poll, i := BatchOfRun(s, n - 1, call);
    } else {
      poll := n - 1;
      i := BatchOfPoll(s, poll, |s.cfg.meters|, call);
    }
  }

  lemma BatchOfTrace(s: Setup, polls: nat, last: seq<Scheduler.Action>, call: Scheduler.Action)
    returns (poll: nat, i: nat)
    requires last <= Scheduler.PollCalls(s.cfg, s.readings, polls)
    requires call in Batches(Scheduler.PollsCalls(s.cfg, s.readings, polls) + last)
    ensures poll <= polls && MeterBatch(s, poll, i, call)
  {
    hide Scheduler.PollCalls, MeterBatch, Batches;
    var calls := Scheduler.PollsCalls(s.cfg, s.readings, polls) + last;
    BatchesAreCalls(calls);
    Scheduler.PrefixOfSum(Scheduler.PollsCalls(s.cfg, s.readings, polls), last,
                          Scheduler.PollCalls(s.cfg, s.readings, polls));
    assert call in Scheduler.PollsCalls(s.cfg, s.readings, polls + 1);
    poll, i := BatchOfRun(s, polls + 1, call);
  }

  /** One object for each read, in order. */
  function ReadObjects(s: Setup, ids: seq<ReadId>): (parts: seq<string>)
    requires AllKnown(s.cfg, ids)
    ensures |parts| == |ids|
  {
    seq(|ids|, k requires 0 <= k < |ids| => "{" + CommaJoined(ReadTexts(s, ids[k])) + "}")
  }

  lemma CausedObjects(s: Setup, poll: nat, i: nat, call: Scheduler.Action, e: Event)
    requires MeterBatch(s, poll, i, call) && CausedBy(s.show, call, e)
    ensures StampedTexts(e.items) == ReadObjects(s, ItemIds(s.cfg, poll, i, |s.cfg.items|))
  {
    hide CommaJoined, ItemTexts, ReadTexts, ToItemResult, Scheduler.Results, ItemIds, Scheduler.ItemAt;
    var ids := ItemIds(s.cfg, poll, i, |s.cfg.items|);
    ResultsAreItems(s, poll, i, |s.cfg.items|);
    forall k | 0 <= k < |ids| ensures StampedTexts(e.items)[k] == ReadObjects(s, ids)[k] {
      ShownTexts(s, ids[k]);
      assert e.items[k].item == Shown(s, ids[k]).item;
    }
  }

  /**
   Every message that a run fed by a scheduler queues, drops, publishes or loses is the batch of one meter in one
   poll: on that meter's topic, its head and then one object for each of its enabled items, in order, each with the
   outcome of exactly that read.
   */
  lemma BatchesCarryReads(
      cfg: Config, s: Setup, polls: nat, last: seq<Scheduler.Action>, events: seq<Event>, m: Message)
    returns (poll: nat, i: nat, stamp: Stamp)
    requires Possible(cfg, Init(cfg), events) && FedRun(s, polls, last, events)
    requires var t := Execute(cfg, Init(cfg), events); m in t.accepted + t.dropped + t.published + t.lost
    ensures poll <= polls && i < |s.cfg.meters| && s.cfg.meters[i].enabled && i < |s.cfg.readers| && s.cfg.readers[i]
    ensures var meter := s.cfg.meters[i]; var ids := ItemIds(s.cfg, poll, i, |s.cfg.items|);
            ids != [] &&
            Topics.Levels(m.topic) ==
              [Topics.Segment(cfg.prefix), Topics.Segment(cfg.gateway), "meter", Topics.Segment(meter.name),
               "readings"] &&
            m.payload ==
              "{" + CommaJoined(HeadTexts(cfg.gateway, meter.name, Address.Text(meter.address)) + StampTexts(stamp)) +
              ",\"items\":[" + CommaJoined(ReadObjects(s, ids)) + "]}"
  {
    hide Execute, Possible, FedBy, Batches, Scheduler.PollsCalls, Scheduler.PollCalls, Topics.Levels, CommaJoined;
    hide HeadTexts, StampTexts, ItemIds, ReadObjects, StampedTexts, Scheduler.Results, SaysItem;
    var k := MessagesSayReports(cfg, events, m);
    var e := events[k];
    var call := FedEventIsCall(s.show, Batches(Scheduler.PollsCalls(s.cfg, s.readings, polls) + last), events, k);
    poll, i := BatchOfTrace(s, polls, last, call);
    CausedObjects(s, poll, i, call, e);
    ResultsAreItems(s, poll, i, |s.cfg.items|);
    stamp := e.stamp;
  }
}
