/**
 The reporter's shared state as a state machine. Each critical section is one atomic step; producers,
 the worker thread and the destructor interleave freely, and connecting and publishing may fail.
 */
module MqttReporter {
  import opened Bytes
  import opened MqttPayload
  import JsonText
  import JsonRoundTrip
  import Topics

  datatype Config = Config(enabled: bool, gateway: string, prefix: string, maxQueue: nat)

  datatype Message = Message(topic: string, payload: string)

  /** One reported reading and the moment it was reported. */
  datatype Report = Report(meter: string, address: string, item: ItemResult, stamp: Stamp)

  /** One item of a batch with the moment at which its cached payload was built. */
  datatype Stamped = Stamped(item: ItemResult, stamp: Stamp)

  datatype Fate = Published | Lost

  /** Where the worker is in its loop, with the job it holds and the commands it has received since. */
  datatype Worker = Idle | Holding(job: Option<Message>) | Connected(job: Option<Message>, received: nat) | Exited

  datatype State = State(
    running: bool,
    cache: map<string, string>,
    queue: seq<Message>,
    offered: seq<Message>,  // built by `report`, cached already, not yet offered to the queue
    worker: Worker,
    // history
    reports: seq<Report>, accepted: seq<Message>, dropped: seq<Message>, late: seq<Message>,
    dequeued: seq<Message>, fates: seq<Fate>, published: seq<Message>, lost: seq<Message>,
    answers: seq<Message>)

  // ----- keys, payloads and answers -----

  function CacheKey(meter: string, di: string): string {
    meter + "|" + di
  }

  function ReportKey(r: Report): string {
    CacheKey(r.meter, r.item.di)
  }

  function ReportPayload(cfg: Config, r: Report): (s: string)
    ensures s != ""
  {
    Payload(cfg.gateway, r.meter, r.address, r.item, r.stamp)
  }

  function ReportMessage(cfg: Config, r: Report): Message {
    Message(Topics.ItemTopic(cfg.prefix, cfg.gateway, r.meter, r.item.di), ReportPayload(cfg, r))
  }

  function BatchReports(meter: string, address: string, items: seq<Stamped>): (rs: seq<Report>)
    ensures |rs| == |items|
  {
    seq(|items|, i requires 0 <= i < |items| => Report(meter, address, items[i].item, items[i].stamp))
  }

  function ItemResults(items: seq<Stamped>): (rs: seq<ItemResult>)
    ensures |rs| == |items|
  {
    seq(|items|, i requires 0 <= i < |items| => items[i].item)
  }

  function BatchMessage(cfg: Config, meter: string, address: string, items: seq<Stamped>, stamp: Stamp): Message {
    Message(Topics.BatchTopic(cfg.prefix, cfg.gateway, meter),
            BatchPayload(cfg.gateway, meter, address, ItemResults(items), stamp))
  }

  function NoCacheMembers(cfg: Config, meter: string, di: string, stamp: Stamp): (ms: seq<JsonRoundTrip.Member>)
    ensures |ms| == 8
  {
    [Number("schema_version", "1"), JsonRoundTrip.Text("gateway_id", cfg.gateway), Truth("success", false),
     JsonRoundTrip.Text("message", "no_cache"), JsonRoundTrip.Text("meter", meter), JsonRoundTrip.Text("di", di)]
    + StampMembers(stamp)
  }

  function NoCache(cfg: Config, meter: string, di: string, stamp: Stamp): Message {
    Message(Topics.ResponseTopic(cfg.prefix, cfg.gateway), JsonRoundTrip.Object(NoCacheMembers(cfg, meter, di, stamp)))
  }

  /** The message that answers a query; an empty cached text counts as a miss. */
  function Response(cfg: Config, cache: map<string, string>, meter: string, di: string, stamp: Stamp): Message {
    var key := CacheKey(meter, di);
    var cached := if key in cache then cache[key] else "";
    if cached == "" then NoCache(cfg, meter, di, stamp)
    else Message(Topics.ItemTopic(cfg.prefix, cfg.gateway, meter, di), cached)
  }

  /** What a command is answered with, if it names a meter and an identifier. */
  function CommandResponse(cfg: Config, cache: map<string, string>, command: string, stamp: Stamp): Option<Message> {
    var meter := JsonText.Lookup(command, JsonText.Quoted("meter"));
    var di := JsonText.Lookup(command, JsonText.Quoted("di"));
    if meter.None? || di.None? then None else Some(Response(cfg, cache, meter.value, di.value, stamp))
  }

  // ----- steps -----

  function Offer(cfg: Config, s: State, m: Message): State {
    if |s.queue| >= cfg.maxQueue then s.(dropped := s.dropped + [m])
    else s.(queue := s.queue + [m], accepted := s.accepted + [m],
            late := if s.running then s.late else s.late + [m])
  }

  function CacheOne(cfg: Config, cache: map<string, string>, r: Report): map<string, string> {
    cache[ReportKey(r) := ReportPayload(cfg, r)]
  }

  /** The cache after reports in turn, each overwriting what its key held. */
  function CacheAll(cfg: Config, cache: map<string, string>, rs: seq<Report>): map<string, string> {
    if rs == [] then cache else CacheOne(cfg, CacheAll(cfg, cache, rs[..|rs| - 1]), rs[|rs| - 1])
  }

  function Cache(cfg: Config, s: State, rs: seq<Report>): State {
    s.(cache := CacheAll(cfg, s.cache, rs), reports := s.reports + rs)
  }

  function Settle(s: State, job: Option<Message>, ok: bool): State {
    match job
    case None => s.(worker := Idle)
    case Some(m) =>
      if ok then s.(worker := Idle, fates := s.fates + [Published], published := s.published + [m])
      else s.(worker := Idle, fates := s.fates + [Lost], lost := s.lost + [m])
  }

  /** The critical section at the top of the worker loop. */
  function TakeJob(s: State): State {
    if !s.running && s.queue == [] then s.(worker := Exited)
    else if s.queue != [] then
      s.(worker := Holding(Some(s.queue[0])), queue := s.queue[1..], dequeued := s.dequeued + [s.queue[0]])
    else s.(worker := Holding(None))
  }

  datatype Event =
    | CacheReport(r: Report)                                  // first critical section of a report
    | OfferReport(i: nat)                                     // second one, for any report under way
    | BatchReport(meter: string, address: string, items: seq<Stamped>, stamp: Stamp)  // one critical section
    | Take                                                    // the worker wakes up
    | Connect(ok: bool)
    | Command(command: string, at: Stamp, sent: bool)         // reads the cache and answers, if that can be sent
    | Finish(ok: bool)                                        // publishes the job it holds, if any
    | Shutdown

  predicate Enabled(cfg: Config, s: State, e: Event) {
    match e
    case CacheReport(_) => cfg.enabled
    case OfferReport(i) => i < |s.offered|
    case BatchReport(_, _, items, _) => cfg.enabled && items != []
    case Take => s.worker.Idle?
    case Connect(_) => s.worker.Holding?
    case Command(_, _, _) => s.worker.Connected? && s.worker.received < (if s.worker.job.Some? then 1 else 2)
    case Finish(_) => s.worker.Connected?
    case Shutdown => cfg.enabled
  }

  function Apply(cfg: Config, s: State, e: Event): State
    requires Enabled(cfg, s, e)
  {
    match e
    case CacheReport(r) =>
      s.(cache := CacheOne(cfg, s.cache, r), reports := s.reports + [r], offered := s.offered + [ReportMessage(cfg, r)])
    case OfferReport(i) => Offer(cfg, s, s.offered[i]).(offered := s.offered[..i] + s.offered[i + 1..])
    case BatchReport(meter, address, items, stamp) =>
      Offer(cfg, Cache(cfg, s, BatchReports(meter, address, items)), BatchMessage(cfg, meter, address, items, stamp))
    case Take => TakeJob(s)
    case Connect(ok) => if ok then s.(worker := Connected(s.worker.job, 0)) else Settle(s, s.worker.job, false)
    case Command(command, at, sent) =>
      var answer := CommandResponse(cfg, s.cache, command, at);
      s.(worker := s.worker.(received := s.worker.received + 1),
         answers := if answer.Some? && sent then s.answers + [answer.value] else s.answers)
    case Finish(ok) => Settle(s, s.worker.job, ok)
    case Shutdown => s.(running := false)
  }

  /** The reports that an event makes, and the jobs that it builds. */
  function ReportsOf(e: Event): seq<Report> {
    match e
    case CacheReport(r) => [r]
    case BatchReport(meter, address, items, _) => BatchReports(meter, address, items)
    case _ => []
  }

  function JobsOf(cfg: Config, e: Event): seq<Message> {
    match e
    case CacheReport(r) => [ReportMessage(cfg, r)]
    case BatchReport(meter, address, items, stamp) => [BatchMessage(cfg, meter, address, items, stamp)]
    case _ => []
  }

  function Reports(events: seq<Event>): seq<Report> {
    if events == [] then [] else ReportsOf(events[0]) + Reports(events[1..])
  }

  function Jobs(cfg: Config, events: seq<Event>): seq<Message> {
    if events == [] then [] else JobsOf(cfg, events[0]) + Jobs(cfg, events[1..])
  }

  function Init(cfg: Config): State {
    State(cfg.enabled, map[], [], [], if cfg.enabled then Idle else Exited, [], [], [], [], [], [], [], [], [])
  }

  /** Every event of the run is possible when its turn comes. */
  predicate Possible(cfg: Config, s: State, events: seq<Event>)
    decreases |events|
  {
    events == [] || (Enabled(cfg, s, events[0]) && Possible(cfg, Apply(cfg, s, events[0]), events[1..]))
  }

  function Execute(cfg: Config, s: State, events: seq<Event>): State
    requires Possible(cfg, s, events)
    decreases |events|
  {
    if events == [] then s else Execute(cfg, Apply(cfg, s, events[0]), events[1..])
  }

  // ----- what every step keeps -----

  function InFlight(worker: Worker): seq<Message> {
    if (worker.Holding? || worker.Connected?) && worker.job.Some? then [worker.job.value] else []
  }

  /** The jobs with a given fate, in the order in which they were taken. */
  function Select(jobs: seq<Message>, fates: seq<Fate>, fate: Fate): seq<Message>
    requires |jobs| == |fates|
  {
    if jobs == [] then []
    else
      var n := |jobs| - 1;
      Select(jobs[..n], fates[..n], fate) + (if fates[n] == fate then [jobs[n]] else [])
  }

  /** The jobs taken so far are, in order, those with a fate and then the one in flight. */
  predicate FatesAccounted(
      dequeued: seq<Message>, fates: seq<Fate>, flight: seq<Message>, published: seq<Message>, lost: seq<Message>)
  {
    |fates| <= |dequeued| && dequeued[|fates|..] == flight &&
    published == Select(dequeued[..|fates|], fates, Published) &&
    lost == Select(dequeued[..|fates|], fates, Lost)
  }

  /** Once the worker is gone, only jobs accepted after the shutdown can be left in the queue. */
  predicate ExitClean(running: bool, worker: Worker, queue: seq<Message>, late: seq<Message>) {
    worker.Exited? ==> !running && |queue| <= |late| && queue == late[|late| - |queue|..]
  }

  predicate Inv(cfg: Config, s: State) {
    |s.queue| <= cfg.maxQueue &&
    s.accepted == s.dequeued + s.queue &&
    FatesAccounted(s.dequeued, s.fates, InFlight(s.worker), s.published, s.lost) &&
    ExitClean(s.running, s.worker, s.queue, s.late) &&
    s.cache == CacheAll(cfg, map[], s.reports)
  }

  lemma {:induction false} CacheAllConcat(cfg: Config, cache: map<string, string>, rs: seq<Report>, more: seq<Report>)
    ensures CacheAll(cfg, cache, rs + more) == CacheAll(cfg, CacheAll(cfg, cache, rs), more)
  {
    hide ReportPayload, ReportKey;
    if more == [] {
      assert rs + more == rs;
    } else {
      var n := |more| - 1;
      CacheAllConcat(cfg, cache, rs, more[..n]);
      assert (rs + more)[..|rs| + n] == rs + more[..n];
    }
  }

  lemma OfferKeeps(cfg: Config, s: State, m: Message)
    requires Inv(cfg, s)
    ensures Inv(cfg, Offer(cfg, s, m))
  {
    hide CacheAll, FatesAccounted;
    Assoc(s.dequeued, s.queue, [m]);
    AppendedSuffix(s.late, s.queue, m);
  }

  lemma AppendedSuffix(late: seq<Message>, queue: seq<Message>, m: Message)
    ensures |queue| <= |late| && queue == late[|late| - |queue|..] ==>
              queue + [m] == (late + [m])[|late| - |queue|..]
  {
  }

  lemma SelectSnoc(jobs: seq<Message>, fates: seq<Fate>, m: Message, f: Fate, fate: Fate)
    requires |jobs| == |fates|
    ensures Select(jobs + [m], fates + [f], fate) == Select(jobs, fates, fate) + (if f == fate then [m] else [])
  {
    assert (jobs + [m])[..|jobs|] == jobs && (fates + [f])[..|fates|] == fates;
  }

  lemma FateSettled(
      dequeued: seq<Message>, fates: seq<Fate>, m: Message, published: seq<Message>, lost: seq<Message>)
    requires FatesAccounted(dequeued, fates, [m], published, lost)
    ensures FatesAccounted(dequeued, fates + [Published], [], published + [m], lost)
    ensures FatesAccounted(dequeued, fates + [Lost], [], published, lost + [m])
  {
    var done := dequeued[..|fates|];
    assert dequeued == done + [m] == dequeued[..|fates| + 1];
    SelectSnoc(done, fates, m, Published, Published);
    SelectSnoc(done, fates, m, Published, Lost);
    SelectSnoc(done, fates, m, Lost, Published);
    SelectSnoc(done, fates, m, Lost, Lost);
  }

  lemma SettleKeeps(cfg: Config, s: State, ok: bool)
    requires Inv(cfg, s) && (s.worker.Holding? || s.worker.Connected?)
    ensures Inv(cfg, Settle(s, s.worker.job, ok))
  {
    hide Select, CacheAll;
    if s.worker.job.Some? {
      var t := Settle(s, s.worker.job, ok);
      FateSettled(s.dequeued, s.fates, s.worker.job.value, s.published, s.lost);
      assert FatesAccounted(t.dequeued, t.fates, InFlight(t.worker), t.published, t.lost);
    }
  }

  lemma FateOpened(
      dequeued: seq<Message>, fates: seq<Fate>, m: Message, published: seq<Message>, lost: seq<Message>)
    requires FatesAccounted(dequeued, fates, [], published, lost)
    ensures FatesAccounted(dequeued + [m], fates, [m], published, lost)
  {
    assert |dequeued| == |fates|;
    assert (dequeued + [m])[..|fates|] == dequeued[..|fates|];
  }

  lemma TakeKeeps(cfg: Config, s: State)
    requires Inv(cfg, s) && s.worker.Idle?
    ensures Inv(cfg, TakeJob(s))
  {
    hide CacheAll, Select;
    if s.queue != [] {
      var m := s.queue[0];
      assert s.queue == [m] + s.queue[1..];
      Assoc(s.dequeued, [m], s.queue[1..]);
      FateOpened(s.dequeued, s.fates, m, s.published, s.lost);
    } else if !s.running {
      assert s.queue == s.late[|s.late|..];
    }
  }

  lemma StepKeepsInv(cfg: Config, s: State, e: Event)
    requires Inv(cfg, s) && Enabled(cfg, s, e)
    ensures Inv(cfg, Apply(cfg, s, e))
  {
    hide ReportMessage, BatchMessage, BatchReports, CommandResponse;
    match e
    case CacheReport(r) => CacheAllConcat(cfg, map[], s.reports, [r]);
    case OfferReport(i) => OfferKeeps(cfg, s, s.offered[i]);
    case BatchReport(meter, address, items, stamp) =>
      var rs := BatchReports(meter, address, items);
      CacheAllConcat(cfg, map[], s.reports, rs);
      OfferKeeps(cfg, Cache(cfg, s, rs), BatchMessage(cfg, meter, address, items, stamp));
    case Take => TakeKeeps(cfg, s);
    case Connect(ok) => if !ok { SettleKeeps(cfg, s, false); }
    case Command(_, _, _) =>
    case Finish(ok) => SettleKeeps(cfg, s, ok);
    case Shutdown =>
  }

  lemma {:induction false} RunKeepsInv(cfg: Config, s: State, events: seq<Event>)
    requires Inv(cfg, s) && Possible(cfg, s, events)
    ensures Inv(cfg, Execute(cfg, s, events))
    decreases |events|
  {
    if events != [] {
      StepKeepsInv(cfg, s, events[0]);
      RunKeepsInv(cfg, Apply(cfg, s, events[0]), events[1..]);
    }
  }
}
