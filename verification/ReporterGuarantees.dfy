/** What holds in every run of the reporter, for every interleaving and every network failure. */
module ReporterGuarantees {
  import opened Bytes
  import opened MqttPayload
  import opened MqttReporter
  import JsonText
  import JsonRoundTrip
  import Topics

  // ----- the queue -----

  /** `part` can be obtained from `whole` by leaving messages out. */
  predicate Subsequence(part: seq<Message>, whole: seq<Message>) {
    part == [] ||
    (whole != [] &&
     (Subsequence(part, whole[..|whole| - 1]) ||
      (part[|part| - 1] == whole[|whole| - 1] && Subsequence(part[..|part| - 1], whole[..|whole| - 1]))))
  }

  lemma {:induction false} SubsequenceMore(part: seq<Message>, whole: seq<Message>, more: seq<Message>)
    requires Subsequence(part, whole)
    ensures Subsequence(part, whole + more)
  {
    if more == [] {
      assert whole + more == whole;
    } else {
      var n := |more| - 1;
      SubsequenceMore(part, whole, more[..n]);
      assert (whole + more)[..|whole| + n] == whole + more[..n];
    }
  }

  lemma {:induction false} SelectIsSubsequence(jobs: seq<Message>, fates: seq<Fate>, fate: Fate)
    requires |jobs| == |fates|
    ensures Subsequence(Select(jobs, fates, fate), jobs)
  {
    if jobs != [] {
      var n := |jobs| - 1;
      SelectIsSubsequence(jobs[..n], fates[..n], fate);
      var part := Select(jobs[..n], fates[..n], fate);
      if fates[n] == fate {
        assert (part + [jobs[n]])[..|part|] == part;
      } else {
        assert part + [] == part;
      }
    }
  }

  lemma MultisetSnoc(s: seq<Message>, m: Message)
    ensures multiset(s + [m]) == multiset(s) + multiset{m}
  {
  }

  /** Published and lost jobs together are all jobs, each once. */
  predicate Partitioned(jobs: seq<Message>, fates: seq<Fate>)
    requires |jobs| == |fates|
  {
    multiset(jobs) == multiset(Select(jobs, fates, Published)) + multiset(Select(jobs, fates, Lost))
  }

  lemma {:induction false} FatesPartition(jobs: seq<Message>, fates: seq<Fate>)
    requires |jobs| == |fates|
    ensures Partitioned(jobs, fates)
  {
    hide Partitioned;
    if jobs == [] {
      NothingPartitioned();
      assert jobs == [] && fates == [];
    } else {
      var n := |jobs| - 1;
      FatesPartition(jobs[..n], fates[..n]);
      PartitionSnoc(jobs[..n], fates[..n], jobs[n], fates[n]);
      assert jobs == jobs[..n] + [jobs[n]] && fates == fates[..n] + [fates[n]];
    }
  }

  lemma NothingPartitioned()
    ensures Partitioned([], [])
  {
    assert Select([], [], Published) == Select([], [], Lost) == [];
  }

  lemma PartitionSnoc(jobs: seq<Message>, fates: seq<Fate>, m: Message, f: Fate)
    requires |jobs| == |fates| && Partitioned(jobs, fates)
    ensures Partitioned(jobs + [m], fates + [f])
  {
    hide Select;
    var p, l := Select(jobs, fates, Published), Select(jobs, fates, Lost);
    SelectSnoc(jobs, fates, m, f, Published);
    SelectSnoc(jobs, fates, m, f, Lost);
    MultisetSnoc(jobs, m);
    if f == Published {
      MultisetSnoc(p, m);
      assert l + [] == l;
    } else {
      MultisetSnoc(l, m);
      assert p + [] == p;
    }
  }

  lemma InitInv(cfg: Config)
    ensures Inv(cfg, Init(cfg))
  {
  }

  /**
   In every reachable state the queue is bounded, jobs leave it in the order in which they were
   accepted, and each job taken was published, was lost or is the one in flight.
   */
  lemma QueueSafety(cfg: Config, events: seq<Event>)
    requires Possible(cfg, Init(cfg), events)
    ensures var s := Execute(cfg, Init(cfg), events);
            |s.queue| <= cfg.maxQueue &&
            s.accepted == s.dequeued + s.queue &&
            multiset(s.dequeued) == multiset(s.published) + multiset(s.lost) + multiset(InFlight(s.worker)) &&
            Subsequence(s.published, s.accepted)
  {
    hide CacheAll;
    InitInv(cfg);
    RunKeepsInv(cfg, Init(cfg), events);
    AccountingMeans(Execute(cfg, Init(cfg), events));
  }

  lemma AccountingMeans(s: State)
    requires s.accepted == s.dequeued + s.queue
    requires FatesAccounted(s.dequeued, s.fates, InFlight(s.worker), s.published, s.lost)
    ensures multiset(s.dequeued) == multiset(s.published) + multiset(s.lost) + multiset(InFlight(s.worker))
    ensures Subsequence(s.published, s.accepted)
  {
    var done := s.dequeued[..|s.fates|];
    assert s.dequeued == done + InFlight(s.worker);
    FatesPartition(done, s.fates);
    SelectIsSubsequence(done, s.fates, Published);
    SubsequenceMore(s.published, done, InFlight(s.worker));
    SubsequenceMore(s.published, s.dequeued, s.queue);
  }

  // ----- no job disappears on the way to the queue -----

  /** Every job built so far: not yet offered, accepted or dropped. */
  function Built(s: State): multiset<Message> {
    multiset(s.offered) + multiset(s.accepted) + multiset(s.dropped)
  }

  lemma RemoveAt(s: seq<Message>, i: nat)
    requires i < |s|
    ensures multiset(s[..i] + s[i + 1..]) + multiset{s[i]} == multiset(s)
  {
    assert s == s[..i] + [s[i]] + s[i + 1..];
  }

  lemma OfferBuilds(cfg: Config, s: State, m: Message)
    ensures Built(Offer(cfg, s, m)) == Built(s) + multiset{m}
  {
    MultisetSnoc(s.accepted, m);
    MultisetSnoc(s.dropped, m);
  }

  lemma StepBuilds(cfg: Config, s: State, e: Event)
    requires Enabled(cfg, s, e)
    ensures Built(Apply(cfg, s, e)) == Built(s) + multiset(JobsOf(cfg, e))
  {
    hide ReportMessage, BatchMessage, CacheAll, CacheOne, BatchReports, CommandResponse;
    match e
    case CacheReport(r) =>
      OneJob(ReportMessage(cfg, r));
      MultisetSnoc(s.offered, ReportMessage(cfg, r));
    case OfferReport(i) => OfferedOnce(cfg, s, i);
    case BatchReport(meter, address, items, stamp) =>
      OneJob(BatchMessage(cfg, meter, address, items, stamp));
      OfferBuilds(cfg, Cache(cfg, s, BatchReports(meter, address, items)),
                  BatchMessage(cfg, meter, address, items, stamp));
    case _ =>
  }

  lemma OneJob(m: Message)
    ensures multiset([m]) == multiset{m}
  {
  }

  lemma OfferedOnce(cfg: Config, s: State, i: nat)
    requires i < |s.offered|
    ensures Built(Apply(cfg, s, OfferReport(i))) == Built(s)
  {
    var t := Offer(cfg, s, s.offered[i]);
    RemoveAt(s.offered, i);
    OfferBuilds(cfg, s, s.offered[i]);
    assert t.offered == s.offered;
  }

  lemma {:induction false} RunBuilds(cfg: Config, s: State, events: seq<Event>)
    requires Possible(cfg, s, events)
    ensures Built(Execute(cfg, s, events)) == Built(s) + multiset(Jobs(cfg, events))
    decreases |events|
  {
    hide Built, Apply, JobsOf;
    if events != [] {
      StepBuilds(cfg, s, events[0]);
      RunBuilds(cfg, Apply(cfg, s, events[0]), events[1..]);
    }
  }

  /** In every run the jobs that the reports built are exactly those accepted, dropped or not yet offered. */
  lemma JobsConserved(cfg: Config, events: seq<Event>)
    requires Possible(cfg, Init(cfg), events)
    ensures var s := Execute(cfg, Init(cfg), events);
            multiset(Jobs(cfg, events)) == multiset(s.offered) + multiset(s.accepted) + multiset(s.dropped)
  {
    RunBuilds(cfg, Init(cfg), events);
  }

  /** A job is dropped only by a full queue, which stays as it is. */
  lemma DropsOnlyWhenFull(cfg: Config, s: State, e: Event)
    requires Inv(cfg, s) && Enabled(cfg, s, e)
    ensures Apply(cfg, s, e).dropped != s.dropped ==> |s.queue| == cfg.maxQueue && Apply(cfg, s, e).queue == s.queue
  {
    hide ReportMessage, BatchMessage, CacheAll, CacheOne, BatchReports, CommandResponse, FatesAccounted, ExitClean;
  }

  /** If nothing was accepted after the shutdown, a worker that is gone has taken every accepted job once. */
  lemma ExitMeansDrained(cfg: Config, events: seq<Event>)
    requires Possible(cfg, Init(cfg), events)
    ensures var s := Execute(cfg, Init(cfg), events);
            s.worker.Exited? && s.late == [] ==> s.queue == [] && s.dequeued == s.accepted
  {
    InitInv(cfg);
    RunKeepsInv(cfg, Init(cfg), events);
  }

  // ----- the shutdown -----

  predicate WorkerStep(e: Event) {
    e.Take? || e.Connect? || e.Command? || e.Finish?
  }

  function WorkerSteps(events: seq<Event>): nat {
    if events == [] then 0 else (if WorkerStep(events[0]) then 1 else 0) + WorkerSteps(events[1..])
  }

  /** Steps that the worker can still take in its current turn. */
  function TurnLeft(worker: Worker): int {
    match worker
    case Idle => 0
    case Exited => 0
    case Holding(_) => 4
    case Connected(job, received) => (if job.Some? then 1 else 2) - received + 1
  }

  /** Steps that the worker can still take after the shutdown if nothing more is accepted. */
  function StepsLeft(s: State): int {
    if s.worker.Exited? then 0 else TurnLeft(s.worker) + 5 * |s.queue| + 1
  }

  predicate WithinTurn(worker: Worker) {
    TurnLeft(worker) >= 0 && (worker.Connected? ==> TurnLeft(worker) >= 1)
  }

  /** What one event of any thread does to the worker's remaining steps once the shutdown has come. */
  lemma StepTowardsExit(cfg: Config, s: State, e: Event)
    requires !s.running && WithinTurn(s.worker) && Enabled(cfg, s, e)
    ensures var t := Apply(cfg, s, e); var more := |t.accepted| - |s.accepted|;
            !t.running && WithinTurn(t.worker) && s.accepted <= t.accepted &&
            StepsLeft(t) + (if WorkerStep(e) then 1 else 0) <= StepsLeft(s) + 5 * more &&
            (t.worker.Exited? ==> |t.queue| <= (if s.worker.Exited? then |s.queue| else 0) + more)
  {
    hide ReportMessage, BatchMessage, CacheAll, CacheOne, BatchReports, CommandResponse;
  }

  lemma {:induction false} RunTowardsExit(cfg: Config, s: State, events: seq<Event>)
    requires !s.running && WithinTurn(s.worker) && Possible(cfg, s, events)
    ensures var t := Execute(cfg, s, events); var more := |t.accepted| - |s.accepted|;
            WithinTurn(t.worker) && s.accepted <= t.accepted &&
            StepsLeft(t) + WorkerSteps(events) <= StepsLeft(s) + 5 * more &&
            (t.worker.Exited? ==> |t.queue| <= (if s.worker.Exited? then |s.queue| else 0) + more)
    decreases |events|
  {
    hide Apply, Enabled, StepsLeft, WithinTurn, WorkerStep;
    if events != [] {
      StepTowardsExit(cfg, s, events[0]);
      RunTowardsExit(cfg, Apply(cfg, s, events[0]), events[1..]);
    }
  }

  lemma {:induction false} RunWithinTurn(cfg: Config, s: State, events: seq<Event>)
    requires WithinTurn(s.worker) && Possible(cfg, s, events)
    ensures WithinTurn(Execute(cfg, s, events).worker)
    decreases |events|
  {
    hide WithinTurn, Apply, Enabled;
    if events != [] {
      StepWithinTurn(cfg, s, events[0]);
      RunWithinTurn(cfg, Apply(cfg, s, events[0]), events[1..]);
    }
  }

  lemma StepWithinTurn(cfg: Config, s: State, e: Event)
    requires WithinTurn(s.worker) && Enabled(cfg, s, e)
    ensures WithinTurn(Apply(cfg, s, e).worker)
  {
    hide ReportMessage, BatchMessage, CacheAll, CacheOne, BatchReports, CommandResponse;
  }

  /**
   From any moment after the shutdown on, whatever the other threads do in between and whatever fails: the
   worker takes at most five steps for each job queued or still to be accepted and five more, can always go on
   until it leaves, has left after that many, and has then taken every job that was accepted by that moment.
   */
  lemma ShutdownDrains(cfg: Config, past: seq<Event>, events: seq<Event>)
    requires Possible(cfg, Init(cfg), past) && !Execute(cfg, Init(cfg), past).running
    requires Possible(cfg, Execute(cfg, Init(cfg), past), events)
    ensures var s := Execute(cfg, Init(cfg), past); var t := Execute(cfg, s, events);
            var more := |t.accepted| - |s.accepted|;
            more >= 0 && WorkerSteps(events) <= 5 * (|s.queue| + more) + 5 &&
            (t.worker.Exited? || CanGoOn(cfg, t)) &&
            (WorkerSteps(events) == 5 * (|s.queue| + more) + 5 ==> t.worker.Exited?) &&
            (t.worker.Exited? && !s.worker.Exited? ==>
              s.accepted <= t.dequeued && |t.queue| <= more && (more == 0 ==> t.dequeued == t.accepted))
  {
    hide Apply, Enabled, CacheAll, FatesAccounted, ExitClean, WorkerSteps;
    var s := Execute(cfg, Init(cfg), past);
    var t := Execute(cfg, s, events);
    InitInv(cfg);
    RunKeepsInv(cfg, Init(cfg), past);
    RunKeepsInv(cfg, s, events);
    RunWithinTurn(cfg, Init(cfg), past);
    RunTowardsExit(cfg, s, events);
    WorkerNeverStuck(cfg, t);
  }

  /** Some step of the worker is possible. */
  ghost predicate CanGoOn(cfg: Config, s: State) {
    exists e :: WorkerStep(e) && Enabled(cfg, s, e)
  }

  lemma WorkerNeverStuck(cfg: Config, s: State)
    ensures s.worker.Exited? || CanGoOn(cfg, s)
  {
    var e := if s.worker.Idle? then Take else if s.worker.Holding? then Connect(true) else Finish(true);
    assert WorkerStep(e);
    assert s.worker.Exited? || Enabled(cfg, s, e);
  }

  // ----- one turn of the worker loop -----

  /** A message from the broker: its topic, its text when it can be resolved, and whether an answer gets out. */
  datatype Incoming = Incoming(topic: string, text: Option<string>, at: Stamp, sent: bool)

  /** Only resolved text on the command topic is looked at. */
  function CommandEvents(cfg: Config, incoming: Option<Incoming>): (events: seq<Event>)
    ensures |events| <= 1
  {
    if incoming.None? || incoming.value.topic != Topics.CommandTopic(cfg.prefix, cfg.gateway) then []
    else if incoming.value.text.None? then []
    else [Command(incoming.value.text.value, incoming.value.at, incoming.value.sent)]
  }

  /**
   The answer to a message: to text on the topic with the levels cmd and query under this gateway, what the cache
   holds for the pair that it names, if it names one and the answer gets out; to everything else nothing.
   */
  function Answered(cfg: Config, cache: map<string, string>, incoming: Option<Incoming>): seq<Message> {
    if incoming.None? then []
    else
      var m := incoming.value;
      if Topics.Levels(m.topic) == [Topics.Segment(cfg.prefix), Topics.Segment(cfg.gateway), "cmd", "query"] &&
         m.text.Some? && m.sent && CommandResponse(cfg, cache, m.text.value, m.at).Some?
      then [CommandResponse(cfg, cache, m.text.value, m.at).value] else []
  }

  /** Commands are looked for once before a job is published, and a second time when there is none. */
  function ServeEvents(
      cfg: Config, hasJob: bool, publishes: bool, first: Option<Incoming>, second: Option<Incoming>): seq<Event>
  {
    CommandEvents(cfg, first) + (if hasJob then [] else CommandEvents(cfg, second)) + [Finish(publishes)]
  }

  function TurnEvents(
      cfg: Config, s: State, connects: bool, publishes: bool, first: Option<Incoming>, second: Option<Incoming>)
    : seq<Event>
  {
    if TakeJob(s).worker.Exited? then [Take]
    else if !connects then [Take] + [Connect(false)]
    else [Take] + [Connect(true)] + ServeEvents(cfg, s.queue != [], publishes, first, second)
  }

  lemma {:induction false} RunInTurn(cfg: Config, s: State, a: seq<Event>, b: seq<Event>)
    requires Possible(cfg, s, a) && Possible(cfg, Execute(cfg, s, a), b)
    ensures Possible(cfg, s, a + b) && Execute(cfg, s, a + b) == Execute(cfg, Execute(cfg, s, a), b)
    decreases |a|
  {
    hide Apply, Enabled;
    if a == [] {
      assert a + b == b;
    } else {
      assert (a + b)[1..] == a[1..] + b;
      RunInTurn(cfg, Apply(cfg, s, a[0]), a[1..], b);
    }
  }

  lemma OneStep(cfg: Config, s: State, e: Event)
    requires Enabled(cfg, s, e)
    ensures Possible(cfg, s, [e]) && Execute(cfg, s, [e]) == Apply(cfg, s, e)
  {
    hide Apply, Enabled;
    assert [e][1..] == [];
    assert Possible(cfg, Apply(cfg, s, e), []);
  }

  /** A connected worker may receive once more; all that changes is its count and the answers. */
  lemma CommandsRun(cfg: Config, s: State, incoming: Option<Incoming>)
    requires s.worker.Connected? && s.worker.received < (if s.worker.job.Some? then 1 else 2)
    ensures var events := CommandEvents(cfg, incoming);
            Possible(cfg, s, events) &&
            Execute(cfg, s, events) == s.(worker := Connected(s.worker.job, s.worker.received + |events|),
                                          answers := s.answers + Answered(cfg, s.cache, incoming))
  {
    hide CommandResponse, Topics.CommandTopic, Topics.Levels;
    var events := CommandEvents(cfg, incoming);
    assert s.answers + [] == s.answers;
    if incoming.Some? {
      Topics.CommandTopicShapes(cfg.prefix, cfg.gateway);
      Topics.SameLevels(incoming.value.topic, Topics.CommandTopic(cfg.prefix, cfg.gateway));
    }
    if events != [] {
      OneStep(cfg, s, events[0]);
    }
  }

  /** With a connection the job in hand, if any, is published or lost; commands change nothing but the answers. */
  lemma ServeRun(cfg: Config, s: State, publishes: bool, first: Option<Incoming>, second: Option<Incoming>)
    requires s.worker.Connected? && s.worker.received == 0
    ensures var events := ServeEvents(cfg, s.worker.job.Some?, publishes, first, second);
            Possible(cfg, s, events) &&
            Execute(cfg, s, events) == Settle(s, s.worker.job, publishes).(
              answers := s.answers + Answered(cfg, s.cache, first) +
                         (if s.worker.job.Some? then [] else Answered(cfg, s.cache, second)))
  {
    hide Possible, Execute, CommandEvents, Answered;
    var heard := CommandEvents(cfg, first);
    CommandsRun(cfg, s, first);
    if s.worker.job.None? {
      CommandsRun(cfg, Execute(cfg, s, heard), second);
      RunInTurn(cfg, s, heard, CommandEvents(cfg, second));
      heard := heard + CommandEvents(cfg, second);
    } else {
      assert heard + [] == heard;
      assert Execute(cfg, s, heard).answers + [] == Execute(cfg, s, heard).answers;
    }
    OneStep(cfg, Execute(cfg, s, heard), Finish(publishes));
    RunInTurn(cfg, s, heard, [Finish(publishes)]);
  }

  /**
   One turn takes the oldest job and publishes or loses it, or ends the worker. With a connection the first message
   is answered, and without a job the second one as well; commands change nothing but the answers.
   */
  lemma TurnIsRun(
      cfg: Config, s: State, connects: bool, publishes: bool, first: Option<Incoming>, second: Option<Incoming>)
    requires s.worker.Idle?
    ensures var events := TurnEvents(cfg, s, connects, publishes, first, second);
            Possible(cfg, s, events) &&
            var t := Execute(cfg, s, events);
            var taken := if s.queue == [] then [] else [s.queue[0]]; var sent := connects && publishes;
            t.worker == (if s.running || s.queue != [] then Idle else Exited) &&
            t.dequeued == s.dequeued + taken && taken + t.queue == s.queue &&
            t.published == s.published + (if sent then taken else []) &&
            t.lost == s.lost + (if sent then [] else taken) && t.cache == s.cache && t.accepted == s.accepted &&
            t.answers == s.answers + TurnAnswers(cfg, s, connects, first, second)
  {
    hide ServeEvents, Possible, Execute, CacheAll, Offer, Answered;
    OneStep(cfg, s, Take);
    var taken := TakeJob(s);
    assert s.answers + [] == s.answers;
    if !taken.worker.Exited? {
      OneStep(cfg, taken, Connect(connects));
      RunInTurn(cfg, s, [Take], [Connect(connects)]);
      if connects {
        var up := Apply(cfg, taken, Connect(true));
        ServeRun(cfg, up, publishes, first, second);
        RunInTurn(cfg, s, [Take] + [Connect(true)], ServeEvents(cfg, s.queue != [], publishes, first, second));
        Assoc(s.answers, Answered(cfg, s.cache, first), if s.queue != [] then [] else Answered(cfg, s.cache, second));
      }
    }
  }

  function TurnAnswers(
      cfg: Config, s: State, connects: bool, first: Option<Incoming>, second: Option<Incoming>): seq<Message>
  {
    if !connects || (!s.running && s.queue == []) then []
    else Answered(cfg, s.cache, first) + (if s.queue != [] then [] else Answered(cfg, s.cache, second))
  }

  // ----- the running flag -----

  lemma {:induction false} RunningUntilShutdown(cfg: Config, s: State, events: seq<Event>)
    requires Possible(cfg, s, events)
    ensures Execute(cfg, s, events).running <==> s.running && Shutdown !in events
    decreases |events|
  {
    hide CacheAll, ReportMessage, BatchMessage, CommandResponse;
    if events != [] {
      RunningUntilShutdown(cfg, Apply(cfg, s, events[0]), events[1..]);
      assert Shutdown in events <==> events[0] == Shutdown || Shutdown in events[1..];
    }
  }

  /** An enabled reporter runs exactly until the shutdown, and its worker never leaves before. */
  lemma WorkerStaysUntilShutdown(cfg: Config, events: seq<Event>)
    requires Possible(cfg, Init(cfg), events)
    ensures var s := Execute(cfg, Init(cfg), events);
            (s.running <==> cfg.enabled && Shutdown !in events) && (s.running ==> !s.worker.Exited?)
  {
    hide CacheAll, FatesAccounted;
    RunningUntilShutdown(cfg, Init(cfg), events);
    InitInv(cfg);
    RunKeepsInv(cfg, Init(cfg), events);
  }

  // ----- what the messages say -----

  function ItemLevels(cfg: Config, meter: string, di: string): seq<string> {
    [Topics.Segment(cfg.prefix), Topics.Segment(cfg.gateway), "meter", Topics.Segment(meter), "item",
     Topics.Segment(di)]
  }

  function BatchLevels(cfg: Config, meter: string): seq<string> {
    [Topics.Segment(cfg.prefix), Topics.Segment(cfg.gateway), "meter", Topics.Segment(meter), "readings"]
  }

  function StampedTexts(items: seq<Stamped>): (parts: seq<string>)
    ensures |parts| == |items|
  {
    seq(|items|, k requires 0 <= k < |items| => "{" + CommaJoined(ItemTexts(items[k].item)) + "}")
  }

  /** A message for one result, field by field. */
  predicate SaysItem(cfg: Config, r: Report, m: Message) {
    Topics.Levels(m.topic) == ItemLevels(cfg, r.meter, r.item.di) &&
    m.payload ==
      "{" + CommaJoined(HeadTexts(cfg.gateway, r.meter, r.address) + ItemTexts(r.item) + StampTexts(r.stamp)) + "}"
  }

  /** A message for one batch: head, time and then one object for each item, in order. */
  predicate SaysBatch(cfg: Config, meter: string, address: string, items: seq<Stamped>, stamp: Stamp, m: Message) {
    Topics.Levels(m.topic) == BatchLevels(cfg, meter) &&
    m.payload ==
      "{" + CommaJoined(HeadTexts(cfg.gateway, meter, address) + StampTexts(stamp)) + ",\"items\":[" +
      CommaJoined(StampedTexts(items)) + "]}"
  }

  predicate SaysEvent(cfg: Config, e: Event, m: Message) {
    match e
    case CacheReport(r) => SaysItem(cfg, r, m)
    case BatchReport(meter, address, items, stamp) => SaysBatch(cfg, meter, address, items, stamp, m)
    case _ => false
  }

  lemma ReportSays(cfg: Config, r: Report)
    ensures SaysItem(cfg, r, ReportMessage(cfg, r))
  {
    hide Payload, CommaJoined, HeadTexts, ItemTexts, StampTexts, Topics.Levels, Topics.ItemTopic;
    Topics.ItemTopicShape(cfg.prefix, cfg.gateway, r.meter, r.item.di);
    PayloadText(cfg.gateway, r.meter, r.address, r.item, r.stamp);
  }

  lemma BatchSays(cfg: Config, meter: string, address: string, items: seq<Stamped>, stamp: Stamp)
    ensures SaysBatch(cfg, meter, address, items, stamp, BatchMessage(cfg, meter, address, items, stamp))
  {
    hide BatchPayload, CommaJoined, HeadTexts, ItemTexts, StampTexts, Topics.Levels, Topics.BatchTopic;
    Topics.BatchTopicShape(cfg.prefix, cfg.gateway, meter);
    BatchText(cfg.gateway, meter, address, ItemResults(items), stamp);
    assert ItemObjectTexts(ItemResults(items)) == StampedTexts(items);
  }

  lemma {:induction false} JobsSay(cfg: Config, events: seq<Event>, m: Message) returns (k: nat)
    requires m in Jobs(cfg, events)
    ensures k < |events| && SaysEvent(cfg, events[k], m)
  {
    hide SaysItem, SaysBatch, ReportMessage, BatchMessage;
    if m in JobsOf(cfg, events[0]) {
      k := 0;
      match events[0]
      case CacheReport(r) => ReportSays(cfg, r);
      case BatchReport(meter, address, items, stamp) => BatchSays(cfg, meter, address, items, stamp);
      case _ =>
    } else {
      k := JobsSay(cfg, events[1..], m);
      k := k + 1;
    }
  }

  lemma InMultiset(s: seq<Message>, m: Message)
    ensures m in multiset(s) <==> m in s
  {
  }

  /** Every message accepted, dropped, published or lost in a run says exactly what one of its reports reported. */
  lemma MessagesSayReports(cfg: Config, events: seq<Event>, m: Message) returns (k: nat)
    requires Possible(cfg, Init(cfg), events)
    requires var s := Execute(cfg, Init(cfg), events); m in s.accepted + s.dropped + s.published + s.lost
    ensures k < |events| && SaysEvent(cfg, events[k], m)
  {
    hide Execute, Possible, Jobs, SaysEvent, Subsequence;
    var s := Execute(cfg, Init(cfg), events);
    JobsConserved(cfg, events);
    QueueSafety(cfg, events);
    InMultiset(Jobs(cfg, events), m);
    InMultiset(s.accepted, m);
    InMultiset(s.dropped, m);
    InMultiset(s.published, m);
    InMultiset(s.lost, m);
    InMultiset(s.dequeued, m);
    k := JobsSay(cfg, events, m);
  }

  /** The answer to a miss, field by field. */
  lemma NoCacheText(cfg: Config, meter: string, di: string, stamp: Stamp)
    ensures var m := NoCache(cfg, meter, di, stamp);
            Topics.Levels(m.topic) ==
              [Topics.Segment(cfg.prefix), Topics.Segment(cfg.gateway), "cmd", "query", "resp"] &&
            m.payload ==
              "{" + CommaJoined([BareField("schema_version", "1"), StringField("gateway_id", cfg.gateway),
                                 BareField("success", "false"), StringField("message", "no_cache"),
                                 StringField("meter", meter), StringField("di", di)] + StampTexts(stamp)) + "}"
  {
    hide JsonRoundTrip.Object, JsonRoundTrip.Rendered, CommaJoined, StringField, BareField, StampTexts, StampMembers;
    hide Topics.Levels, Topics.ResponseTopic;
    Topics.CommandTopicShapes(cfg.prefix, cfg.gateway);
    var ms := NoCacheMembers(cfg, meter, di, stamp);
    ObjectIsJoined(ms);
    RenderedConcat(ms[..6], StampMembers(stamp));
    assert ms == ms[..6] + StampMembers(stamp);
    StampRendered(stamp);
    RenderedField(ms[0]);
    RenderedField(ms[1]);
    RenderedField(ms[2]);
    RenderedField(ms[3]);
    RenderedField(ms[4]);
    RenderedField(ms[5]);
    assert RenderedAll(ms[..6]) ==
      [BareField("schema_version", "1"), StringField("gateway_id", cfg.gateway), BareField("success", "false"),
       StringField("message", "no_cache"), StringField("meter", meter), StringField("di", di)];
  }

  // ----- cache keys -----

  predicate PipeFree(s: string) {
    '|' !in s
  }

  /** The position of the last '|' of a key. */
  function LastPipe(key: string): (n: nat)
    requires '|' in key
    ensures n < |key| && key[n] == '|' && PipeFree(key[n + 1..])
  {
    var n := |key| - 1;
    if key[n] == '|' then n
    else
      assert key == key[..n] + [key[n]];
      var k := LastPipe(key[..n]);
      assert key[k + 1..] == key[..n][k + 1..] + [key[n]];
      k
  }

  lemma LastPipeUnique(key: string, n: nat)
    requires n < |key| && key[n] == '|' && PipeFree(key[n + 1..])
    ensures LastPipe(key) == n
  {
    var k := LastPipe(key);
    assert forall i :: n < i < |key| ==> key[i] == key[n + 1..][i - n - 1];
    assert forall i :: k < i < |key| ==> key[i] == key[k + 1..][i - k - 1];
  }

  /** Two pairs with pipe-free identifiers share a key only if they are the same pair. */
  lemma KeyInjective(meter: string, di: string, meter': string, di': string)
    requires PipeFree(di) && PipeFree(di') && CacheKey(meter, di) == CacheKey(meter', di')
    ensures meter == meter' && di == di'
  {
    var key := CacheKey(meter, di);
    assert key[|meter| + 1..] == di && key[|meter'| + 1..] == di';
    LastPipeUnique(key, |meter|);
    LastPipeUnique(key, |meter'|);
    assert meter == key[..|meter|] == meter';
  }

  // ----- the cache agrees with the history -----

  /** The last report for a meter and an identifier. */
  function Latest(reports: seq<Report>, meter: string, di: string): Option<Report> {
    if reports == [] then None
    else
      var n := |reports| - 1;
      if reports[n].meter == meter && reports[n].item.di == di then Some(reports[n])
      else Latest(reports[..n], meter, di)
  }

  predicate PipeFreeReports(reports: seq<Report>) {
    forall i :: 0 <= i < |reports| ==> PipeFree(reports[i].item.di)
  }

  /** Only reports for exactly this pair were cached under its key. */
  predicate OwnsKey(reports: seq<Report>, meter: string, di: string) {
    forall i :: 0 <= i < |reports| && ReportKey(reports[i]) == CacheKey(meter, di) ==>
      reports[i].meter == meter && reports[i].item.di == di
  }

  lemma PipeFreeOwnsKey(reports: seq<Report>, meter: string, di: string)
    requires PipeFreeReports(reports) && PipeFree(di)
    ensures OwnsKey(reports, meter, di)
  {
    forall i | 0 <= i < |reports| && ReportKey(reports[i]) == CacheKey(meter, di)
      ensures reports[i].meter == meter && reports[i].item.di == di
    {
      KeyInjective(meter, di, reports[i].meter, reports[i].item.di);
    }
  }

  lemma {:induction false} CacheIsLatest(cfg: Config, reports: seq<Report>, meter: string, di: string)
    requires OwnsKey(reports, meter, di)
    ensures var cache := CacheAll(cfg, map[], reports); var key := CacheKey(meter, di);
            match Latest(reports, meter, di)
            case None => key !in cache
            case Some(r) => key in cache && cache[key] == ReportPayload(cfg, r) && r in reports
  {
    hide ReportPayload;
    if reports != [] {
      var n := |reports| - 1;
      var r := reports[n];
      CacheIsLatest(cfg, reports[..n], meter, di);
      assert CacheKey(meter, di) == ReportKey(r) <==> r.meter == meter && r.item.di == di;
    }
  }

  /** The answer that the history calls for. */
  function Expected(cfg: Config, reports: seq<Report>, meter: string, di: string, stamp: Stamp): Message {
    match Latest(reports, meter, di)
    case None => NoCache(cfg, meter, di, stamp)
    case Some(r) => ReportMessage(cfg, r)
  }

  lemma LatestMatches(reports: seq<Report>, meter: string, di: string)
    requires Latest(reports, meter, di).Some?
    ensures var r := Latest(reports, meter, di).value; r.meter == meter && r.item.di == di
  {
  }

  lemma AnswerIsExpected(cfg: Config, reports: seq<Report>, meter: string, di: string, stamp: Stamp)
    requires OwnsKey(reports, meter, di)
    ensures Response(cfg, CacheAll(cfg, map[], reports), meter, di, stamp) == Expected(cfg, reports, meter, di, stamp)
  {
    hide ReportPayload, NoCache;
    CacheIsLatest(cfg, reports, meter, di);
    if Latest(reports, meter, di).Some? {
      LatestMatches(reports, meter, di);
    }
  }

  lemma {:induction false} RunReports(cfg: Config, s: State, events: seq<Event>)
    requires Possible(cfg, s, events)
    ensures Execute(cfg, s, events).reports == s.reports + Reports(events)
    decreases |events|
  {
    if events == [] {
      assert s.reports + [] == s.reports;
    } else {
      StepReports(cfg, s, events[0]);
      RunReports(cfg, Apply(cfg, s, events[0]), events[1..]);
      Assoc(s.reports, ReportsOf(events[0]), Reports(events[1..]));
    }
  }

  lemma StepReports(cfg: Config, s: State, e: Event)
    requires Enabled(cfg, s, e)
    ensures Apply(cfg, s, e).reports == s.reports + ReportsOf(e)
  {
    hide ReportMessage, BatchMessage, CacheAll, CacheOne, BatchReports, CommandResponse;
    assert s.reports + [] == s.reports;
  }

  /**
   In every reachable state a query is answered with the payload of the latest report for exactly that
   meter and identifier, dropped from the queue or not, and with no_cache when there was none.
   */
  lemma QueryAgreesWithHistory(cfg: Config, events: seq<Event>, meter: string, di: string, stamp: Stamp)
    requires Possible(cfg, Init(cfg), events)
    requires PipeFreeReports(Reports(events)) && PipeFree(di)
    ensures Response(cfg, Execute(cfg, Init(cfg), events).cache, meter, di, stamp)
         == Expected(cfg, Reports(events), meter, di, stamp)
  {
    hide Response, Expected;
    PipeFreeOwnsKey(Reports(events), meter, di);
    OwnedKeyAgrees(cfg, events, meter, di, stamp);
  }

  lemma OwnedKeyAgrees(cfg: Config, events: seq<Event>, meter: string, di: string, stamp: Stamp)
    requires Possible(cfg, Init(cfg), events) && OwnsKey(Reports(events), meter, di)
    ensures Response(cfg, Execute(cfg, Init(cfg), events).cache, meter, di, stamp)
         == Expected(cfg, Reports(events), meter, di, stamp)
  {
    hide Response, Expected, OwnsKey;
    InitInv(cfg);
    RunKeepsInv(cfg, Init(cfg), events);
    RunReports(cfg, Init(cfg), events);
    assert [] + Reports(events) == Reports(events);
    AnswerIsExpected(cfg, Reports(events), meter, di, stamp);
  }

  // ----- all answers of a run -----

  /** The answer that the reports so far call for, if a command names a meter and an identifier. */
  function ExpectedResponse(cfg: Config, reports: seq<Report>, command: string, at: Stamp): Option<Message> {
    var meter := JsonText.Lookup(command, JsonText.Quoted("meter"));
    var di := JsonText.Lookup(command, JsonText.Quoted("di"));
    if meter.None? || di.None? then None else Some(Expected(cfg, reports, meter.value, di.value, at))
  }

  function AnswersOf(cfg: Config, reports: seq<Report>, e: Event): seq<Message> {
    if !e.Command? || !e.sent then []
    else
      var answer := ExpectedResponse(cfg, reports, e.command, e.at);
      if answer.None? then [] else [answer.value]
  }

  /** The answers that a run calls for, command by command, from the reports made before each of them. */
  function ExpectedAnswers(cfg: Config, past: seq<Report>, events: seq<Event>): seq<Message>
    decreases |events|
  {
    if events == [] then []
    else AnswersOf(cfg, past, events[0]) + ExpectedAnswers(cfg, past + ReportsOf(events[0]), events[1..])
  }

  predicate PipeFreeCommand(e: Event) {
    e.Command? ==>
      var di := JsonText.Lookup(e.command, JsonText.Quoted("di"));
      di.Some? ==> PipeFree(di.value)
  }

  predicate PipeFreeCommands(events: seq<Event>) {
    forall k :: 0 <= k < |events| ==> PipeFreeCommand(events[k])
  }

  lemma StepAnswers(cfg: Config, s: State, e: Event)
    requires Enabled(cfg, s, e) && s.cache == CacheAll(cfg, map[], s.reports)
    requires PipeFreeReports(s.reports) && PipeFreeCommand(e)
    ensures Apply(cfg, s, e).answers == s.answers + AnswersOf(cfg, s.reports, e)
  {
    hide ReportMessage, BatchMessage, CacheAll, BatchReports, Response, Expected, JsonText.Lookup;
    assert s.answers + [] == s.answers;
    if e.Command? {
      var meter := JsonText.Lookup(e.command, JsonText.Quoted("meter"));
      var di := JsonText.Lookup(e.command, JsonText.Quoted("di"));
      if meter.Some? && di.Some? {
        PipeFreeOwnsKey(s.reports, meter.value, di.value);
        AnswerIsExpected(cfg, s.reports, meter.value, di.value, e.at);
      }
    }
  }

  lemma PipeFreeSplit(a: seq<Report>, b: seq<Report>)
    ensures PipeFreeReports(a + b) <==> PipeFreeReports(a) && PipeFreeReports(b)
  {
    assert forall i :: 0 <= i < |a| ==> (a + b)[i] == a[i];
    assert forall i :: 0 <= i < |b| ==> (a + b)[|a| + i] == b[i];
  }

  lemma {:induction false} RunAnswers(cfg: Config, s: State, events: seq<Event>)
    requires Inv(cfg, s) && Possible(cfg, s, events)
    requires PipeFreeReports(s.reports) && PipeFreeReports(Reports(events)) && PipeFreeCommands(events)
    ensures Execute(cfg, s, events).answers == s.answers + ExpectedAnswers(cfg, s.reports, events)
    decreases |events|
  {
    hide Apply, AnswersOf, ReportsOf, PipeFreeReports, PipeFreeCommand, CacheAll, FatesAccounted, ExitClean;
    if events == [] {
      assert s.answers + [] == s.answers;
    } else {
      var e, rest := events[0], events[1..];
      var next := Apply(cfg, s, e);
      StepKeepsInv(cfg, s, e);
      StepReports(cfg, s, e);
      StepAnswers(cfg, s, e);
      PipeFreeSplit(ReportsOf(e), Reports(rest));
      PipeFreeSplit(s.reports, ReportsOf(e));
      RunAnswers(cfg, next, rest);
      Assoc(s.answers, AnswersOf(cfg, s.reports, e), ExpectedAnswers(cfg, next.reports, rest));
    }
  }

  /** In every run the answers sent are, in order, those that the reports made before each command call for. */
  lemma AnswersAgreeWithHistory(cfg: Config, events: seq<Event>)
    requires Possible(cfg, Init(cfg), events)
    requires PipeFreeReports(Reports(events)) && PipeFreeCommands(events)
    ensures Execute(cfg, Init(cfg), events).answers == ExpectedAnswers(cfg, [], events)
  {
    InitInv(cfg);
    RunAnswers(cfg, Init(cfg), events);
    assert [] + ExpectedAnswers(cfg, [], events) == ExpectedAnswers(cfg, [], events);
  }

  predicate PipeFreeMessage(incoming: Option<Incoming>) {
    incoming.Some? && incoming.value.text.Some? ==>
      var di := JsonText.Lookup(incoming.value.text.value, JsonText.Quoted("di"));
      di.Some? ==> PipeFree(di.value)
  }

  lemma AnsweredIsExpected(cfg: Config, reports: seq<Report>, incoming: Option<Incoming>)
    requires PipeFreeReports(reports) && PipeFreeMessage(incoming)
    ensures Answered(cfg, CacheAll(cfg, map[], reports), incoming) ==
            if incoming.Some? && incoming.value.sent && incoming.value.text.Some? &&
               Topics.Levels(incoming.value.topic) ==
                 [Topics.Segment(cfg.prefix), Topics.Segment(cfg.gateway), "cmd", "query"] &&
               ExpectedResponse(cfg, reports, incoming.value.text.value, incoming.value.at).Some?
            then [ExpectedResponse(cfg, reports, incoming.value.text.value, incoming.value.at).value] else []
  {
    hide CacheAll, Response, Expected, JsonText.Lookup, Topics.Levels, PipeFreeReports;
    if incoming.Some? && incoming.value.text.Some? {
      var text, at := incoming.value.text.value, incoming.value.at;
      var meter := JsonText.Lookup(text, JsonText.Quoted("meter"));
      var di := JsonText.Lookup(text, JsonText.Quoted("di"));
      if meter.Some? && di.Some? {
        PipeFreeOwnsKey(reports, meter.value, di.value);
        AnswerIsExpected(cfg, reports, meter.value, di.value, at);
      }
    }
  }

  /**
   A turn with a connection, in any reachable state: the first message is answered exactly when it is text on the
   command topic that names a pair, with the answer that the history calls for; without a job so is the second one.
   */
  lemma TurnAgreesWithHistory(
      cfg: Config, past: seq<Event>, publishes: bool, first: Option<Incoming>, second: Option<Incoming>)
    returns (a: seq<Message>, b: seq<Message>)
    requires Possible(cfg, Init(cfg), past) && PipeFreeReports(Reports(past))
    requires PipeFreeMessage(first) && PipeFreeMessage(second)
    requires var s := Execute(cfg, Init(cfg), past); s.worker.Idle? && (s.running || s.queue != [])
    ensures var s := Execute(cfg, Init(cfg), past);
            var events := TurnEvents(cfg, s, true, publishes, first, second);
            Possible(cfg, s, events) && Execute(cfg, s, events).answers == s.answers + (a + b) &&
            (s.queue != [] ==> b == [])
    ensures var topic := [Topics.Segment(cfg.prefix), Topics.Segment(cfg.gateway), "cmd", "query"];
            a == if first.Some? && first.value.sent && first.value.text.Some? &&
                    Topics.Levels(first.value.topic) == topic &&
                    ExpectedResponse(cfg, Reports(past), first.value.text.value, first.value.at).Some?
                 then [ExpectedResponse(cfg, Reports(past), first.value.text.value, first.value.at).value] else []
    ensures var topic := [Topics.Segment(cfg.prefix), Topics.Segment(cfg.gateway), "cmd", "query"];
            Execute(cfg, Init(cfg), past).queue == [] ==>
            b == if second.Some? && second.value.sent && second.value.text.Some? &&
                    Topics.Levels(second.value.topic) == topic &&
                    ExpectedResponse(cfg, Reports(past), second.value.text.value, second.value.at).Some?
                 then [ExpectedResponse(cfg, Reports(past), second.value.text.value, second.value.at).value] else []
  {
    hide Execute, Possible, TurnEvents, Answered, ExpectedResponse, CacheAll, Reports, PipeFreeReports, FatesAccounted;
    hide PipeFreeMessage, Topics.Levels;
    var s := Execute(cfg, Init(cfg), past);
    TurnIsRun(cfg, s, true, publishes, first, second);
    InitInv(cfg);
    RunKeepsInv(cfg, Init(cfg), past);
    RunReports(cfg, Init(cfg), past);
    assert [] + Reports(past) == Reports(past);
    AnsweredIsExpected(cfg, Reports(past), first);
    AnsweredIsExpected(cfg, Reports(past), second);
    a := Answered(cfg, s.cache, first);
    b := if s.queue != [] then [] else Answered(cfg, s.cache, second);
  }

  /** An identifier with a '|' can be answered with the reading of another meter: one report is enough. */
  lemma PipeInQueryCollides(cfg: Config, meter: string, di: string, r: Report, stamp: Stamp)
    requires cfg.enabled && !PipeFree(di)
    requires var key := CacheKey(meter, di); var n := LastPipe(key); r.meter == key[..n] && r.item.di == key[n + 1..]
    ensures PipeFree(r.item.di) && r.item.di != di
    ensures Possible(cfg, Init(cfg), [CacheReport(r)])
    ensures var s := Execute(cfg, Init(cfg), [CacheReport(r)]);
            Latest(Reports([CacheReport(r)]), meter, di) == None &&
            Response(cfg, s.cache, meter, di, stamp).payload == ReportPayload(cfg, r)
  {
    hide ReportPayload, ReportMessage, NoCache, LastPipe;
    var key := CacheKey(meter, di);
    var n := LastPipe(key);
    CutAt(key, n);
    var s := Apply(cfg, Init(cfg), CacheReport(r));
    assert Execute(cfg, Init(cfg), [CacheReport(r)]) == s;
    assert Reports([CacheReport(r)]) == [r] + Reports([]) == [r] && [r][..0] == [];
    assert s.cache == map[key := ReportPayload(cfg, r)];
  }

  lemma CutAt(key: string, n: nat)
    requires n < |key| && key[n] == '|'
    ensures CacheKey(key[..n], key[n + 1..]) == key
  {
  }

  // ----- topics in every run -----

  predicate NoneTo(topic: string, messages: seq<Message>) {
    forall i :: 0 <= i < |messages| ==> messages[i].topic != topic
  }

  lemma StepAvoidsCommandTopic(cfg: Config, s: State, e: Event)
    requires Enabled(cfg, s, e)
    requires var t := Topics.CommandTopic(cfg.prefix, cfg.gateway); NoneTo(t, s.offered) && NoneTo(t, s.accepted)
    ensures var t := Topics.CommandTopic(cfg.prefix, cfg.gateway); var s' := Apply(cfg, s, e);
            NoneTo(t, s'.offered) && NoneTo(t, s'.accepted)
  {
    hide ReportPayload, BatchPayload, CacheAll, CommandResponse;
    hide Topics.CommandTopic, Topics.ItemTopic, Topics.BatchTopic;
    var p, g := cfg.prefix, cfg.gateway;
    match e
    case CacheReport(r) => Topics.TopicsAreSeparate(p, g, r.meter, r.item.di, p, g, "");
    case BatchReport(meter, _, _, _) => Topics.TopicsAreSeparate(p, g, meter, "", p, g, "");
    case _ =>
  }

  lemma {:induction false} RunAvoidsCommandTopic(cfg: Config, s: State, events: seq<Event>)
    requires Possible(cfg, s, events)
    requires var t := Topics.CommandTopic(cfg.prefix, cfg.gateway); NoneTo(t, s.offered) && NoneTo(t, s.accepted)
    ensures NoneTo(Topics.CommandTopic(cfg.prefix, cfg.gateway), Execute(cfg, s, events).accepted)
    decreases |events|
  {
    hide Topics.CommandTopic;
    if events != [] {
      StepAvoidsCommandTopic(cfg, s, events[0]);
      RunAvoidsCommandTopic(cfg, Apply(cfg, s, events[0]), events[1..]);
    }
  }

  /** In no run is a message queued for, or a query answered on, the topic on which the gateway listens. */
  lemma NoSelfCommands(cfg: Config, events: seq<Event>, meter: string, di: string, stamp: Stamp)
    requires Possible(cfg, Init(cfg), events)
    ensures var s := Execute(cfg, Init(cfg), events); var t := Topics.CommandTopic(cfg.prefix, cfg.gateway);
            NoneTo(t, s.accepted) && Response(cfg, s.cache, meter, di, stamp).topic != t
  {
    RunAvoidsCommandTopic(cfg, Init(cfg), events);
    Topics.TopicsAreSeparate(cfg.prefix, cfg.gateway, meter, di, cfg.prefix, cfg.gateway, "");
  }

  // ----- commands end to end -----

  lemma NamesPlain()
    ensures JsonRoundTrip.PlainKey("meter") && JsonRoundTrip.PlainKey("di")
  {
  }

  /** A JSON object, laid out in any way, is a query for the first meter and the first di in it, if it has both. */
  lemma CommandIsQuery(
      cfg: Config, cache: map<string, string>, w: string, fs: seq<JsonRoundTrip.Field>, tail: string, stamp: Stamp)
    requires fs != [] && JsonRoundTrip.AllValidFields(fs) && JsonRoundTrip.Spaces(w) && JsonRoundTrip.Spaces(tail)
    ensures var meter := JsonRoundTrip.FirstHeard(fs, "meter", None);
            var di := JsonRoundTrip.FirstHeard(fs, "di", None);
            CommandResponse(cfg, cache, JsonRoundTrip.SpacedObject(w, fs, tail), stamp) ==
            if meter.None? || di.None? then None else Some(Response(cfg, cache, meter.value, di.value, stamp))
  {
    hide Response, JsonRoundTrip.SpacedObject, JsonRoundTrip.FirstHeard, JsonRoundTrip.AllValidFields;
    hide JsonText.Lookup, JsonText.Quoted;
    NamesPlain();
    JsonRoundTrip.LookupInSpacedObject(w, fs, tail, "meter");
    JsonRoundTrip.LookupInSpacedObject(w, fs, tail, "di");
  }

  lemma NoCacheReadBack(cfg: Config, meter: string, di: string, stamp: Stamp)
    ensures var p := NoCache(cfg, meter, di, stamp).payload;
            ReadsAs(p, "meter", meter) && ReadsAs(p, "di", di) && ReadsAs(p, "message", "no_cache")
  {
    hide ReadsAs, JsonRoundTrip.Object, IntText;
    var members := NoCacheMembers(cfg, meter, di, stamp);
    HeadKeysPlain();
    ResultKeysPlain();
    FieldReadsAs(members, 3);
    FieldReadsAs(members, 4);
    FieldReadsAs(members, 5);
  }

  /**
   A query command for readable names, laid out in any way, in any reachable state: the gateway recovers the names,
   answers as the history calls for, and the answer read back names the same meter and identifier again.
   */
  lemma CommandEndToEnd(
      cfg: Config, events: seq<Event>, w: string, fs: seq<JsonRoundTrip.Field>, tail: string,
      meter: string, di: string, stamp: Stamp)
    requires Possible(cfg, Init(cfg), events)
    requires PipeFreeReports(Reports(events)) && PipeFree(di)
    requires fs != [] && JsonRoundTrip.AllValidFields(fs) && JsonRoundTrip.Spaces(w) && JsonRoundTrip.Spaces(tail)
    requires JsonRoundTrip.FirstHeard(fs, "meter", None) == Some(meter)
    requires JsonRoundTrip.FirstHeard(fs, "di", None) == Some(di)
    requires JsonRoundTrip.Readable(meter) && JsonRoundTrip.Readable(di)
    ensures var s := Execute(cfg, Init(cfg), events);
            var answer := Expected(cfg, Reports(events), meter, di, stamp);
            CommandResponse(cfg, s.cache, JsonRoundTrip.SpacedObject(w, fs, tail), stamp) == Some(answer) &&
            JsonText.Lookup(answer.payload, JsonText.Quoted("meter")) == Some(meter) &&
            JsonText.Lookup(answer.payload, JsonText.Quoted("di")) == Some(di)
  {
    hide CommandResponse, Response, NoCache, Payload, Inv, CacheAll, Expected, Execute, Possible, PipeFreeReports;
    hide JsonRoundTrip.SpacedObject, JsonRoundTrip.FirstHeard, JsonRoundTrip.AllValidFields, JsonText.Lookup;
    QueryAgreesWithHistory(cfg, events, meter, di, stamp);
    CommandIsQuery(cfg, Execute(cfg, Init(cfg), events).cache, w, fs, tail, stamp);
    JsonRoundTrip.VisibleIffReadable(meter);
    JsonRoundTrip.VisibleIffReadable(di);
    ExpectedReadBack(cfg, Reports(events), meter, di, stamp);
  }

  lemma ExpectedReadBack(cfg: Config, reports: seq<Report>, meter: string, di: string, stamp: Stamp)
    ensures var p := Expected(cfg, reports, meter, di, stamp).payload;
            ReadsAs(p, "meter", meter) && ReadsAs(p, "di", di)
  {
    hide Payload, NoCache;
    match Latest(reports, meter, di)
    case None => NoCacheReadBack(cfg, meter, di, stamp);
    case Some(r) =>
      LatestMatches(reports, meter, di);
      PayloadRoundTrip(cfg.gateway, r.meter, r.address, r.item, r.stamp);
  }
}
