/** The reporter object itself, proved to move exactly as the state machine of its critical sections. */
module Reporter {
  import opened Bytes
  import opened MqttPayload
  import opened MqttReporter
  import opened ReporterGuarantees
  import JsonText
  import JsonRoundTrip
  import Topics

  class Reporter {
    const cfg: Config
    var running: bool
    var queue: seq<Message>
    var cache: map<string, string>

    ghost var state: State

    ghost predicate Valid()
      reads this
    {
      Inv(cfg, state) && running == state.running && queue == state.queue && cache == state.cache
    }

    constructor (cfg: Config)
      ensures Valid() && this.cfg == cfg && state == Init(cfg)
    {
      this.cfg, running, queue, cache := cfg, cfg.enabled, [], map[];
      state := Init(cfg);
    }

    /** The second critical section: a full queue drops the job. */
    method Push(job: Message)
      modifies this`queue
      ensures queue == if |old(queue)| >= cfg.maxQueue then old(queue) else old(queue) + [job]
    {
      if |queue| >= cfg.maxQueue {
        return;
      }
      queue := queue + [job];
    }

    /** The first critical section of a report: the payload is cached, the job is still to be offered. */
    method CacheJob(r: Report) returns (job: Message)
      requires Valid() && cfg.enabled
      modifies this
      ensures Valid() && state == Apply(cfg, old(state), CacheReport(r))
      ensures job == ReportMessage(cfg, r)
    {
      hide Inv, ReportPayload, ReportMessage;
      job := BuildJob(cfg, r);
      StepKeepsInv(cfg, state, CacheReport(r));
      state := Apply(cfg, state, CacheReport(r));
      cache := cache[CacheKey(r.meter, r.item.di) := job.payload];
    }

    /** The second one, for the report whose job is the `i`th still to be offered. */
    method OfferJob(ghost i: nat, job: Message)
      requires Valid() && i < |state.offered| && state.offered[i] == job
      modifies this
      ensures Valid() && state == Apply(cfg, old(state), OfferReport(i))
    {
      hide Inv;
      StepKeepsInv(cfg, state, OfferReport(i));
      state := Apply(cfg, state, OfferReport(i));
      Push(job);
    }

    /** A report during which no other thread comes in. */
    method Report(r: Report)
      requires Valid()
      modifies this
      ensures Valid()
      ensures state == if cfg.enabled
                       then Apply(cfg, Apply(cfg, old(state), CacheReport(r)), OfferReport(|old(state).offered|))
                       else old(state)
    {
      hide Inv, ReportMessage;
      if !cfg.enabled {
        return;
      }
      ghost var i := |state.offered|;
      var job := CacheJob(r);
      OfferJob(i, job);
    }

    /** Refreshes the cache for every item of a batch. */
    method CacheItems(meter: string, address: string, items: seq<Stamped>)
      modifies this`cache
      ensures cache == CacheAll(cfg, old(cache), BatchReports(meter, address, items))
    {
      hide Payload;
      ghost var rs := BatchReports(meter, address, items);
      for i := 0 to |items|
        invariant cache == CacheAll(cfg, old(cache), rs[..i])
      {
        assert rs[..i + 1][..i] == rs[..i];
        var text := BuildPayload(cfg.gateway, meter, address, items[i].item, items[i].stamp);
        cache := cache[CacheKey(meter, items[i].item.di) := text];
      }
      assert rs[..|items|] == rs;
    }

    method ReportBatch(meter: string, address: string, items: seq<Stamped>, stamp: Stamp)
      requires Valid()
      modifies this
      ensures Valid()
      ensures state == if cfg.enabled && items != []
                       then Apply(cfg, old(state), BatchReport(meter, address, items, stamp)) else old(state)
    {
      hide Inv, Apply, BatchMessage, BatchReports, CacheAll;
      if !cfg.enabled {
        return;
      }
      if items == [] {
        return;
      }
      var job := BuildBatchJob(cfg, meter, address, items, stamp);
      BatchMoves(cfg, state, meter, address, items, stamp);
      state := Apply(cfg, state, BatchReport(meter, address, items, stamp));
      CacheItems(meter, address, items);
      Push(job);
    }

    /** The critical section at the top of the worker loop. */
    method TakeOne() returns (exit: bool, job: Option<Message>)
      requires Valid() && state.worker.Idle?
      modifies this
      ensures Valid() && state == Apply(cfg, old(state), Take)
      ensures exit == state.worker.Exited? && (!exit ==> state.worker == Holding(job))
    {
      hide Inv;
      StepKeepsInv(cfg, state, Take);
      state := Apply(cfg, state, Take);
      if !running && queue == [] {
        return true, None;
      }
      exit, job := false, None;
      if queue != [] {
        job := Some(queue[0]);
        queue := queue[1..];
      }
    }

    /** The answer to a command whose JSON text has been resolved. */
    method HandleQuery(command: string, stamp: Stamp) returns (answer: Option<Message>)
      requires Valid()
      ensures answer == CommandResponse(cfg, state.cache, command, stamp)
    {
      var meter := JsonText.GetString(command, "meter");
      var di := JsonText.GetString(command, "di");
      if meter.None? || di.None? {
        return None;
      }
      var cached := "";
      var key := CacheKey(meter.value, di.value);
      if key in cache {
        cached := cache[key];
      }
      if cached == "" {
        var miss := BuildNoCache(cfg, meter.value, di.value, stamp);
        return Some(miss);
      }
      var topic := BuildTopic(cfg, meter.value, di.value);
      return Some(Message(topic, cached));
    }

    /** The outcome of connecting; a job in hand is lost when it fails. */
    method TryConnect(ok: bool)
      requires Valid() && state.worker.Holding?
      modifies this`state
      ensures Valid() && state == Apply(cfg, old(state), Connect(ok))
    {
      hide Inv;
      StepKeepsInv(cfg, state, Connect(ok));
      state := Apply(cfg, state, Connect(ok));
    }

    /** Looks for one message from the broker and answers it if it is a query; `answers` is what was sent. */
    method HandleIncoming(incoming: Option<Incoming>) returns (answers: seq<Message>)
      requires Valid() && state.worker.Connected?
      requires state.worker.received < (if state.worker.job.Some? then 1 else 2)
      modifies this`state
      ensures Valid()
      ensures var events := CommandEvents(cfg, incoming);
              Possible(cfg, old(state), events) && state == Execute(cfg, old(state), events)
      ensures state.answers == old(state).answers + answers
      ensures answers == if incoming.Some? && incoming.value.text.Some? && incoming.value.sent &&
                            Topics.Levels(incoming.value.topic) ==
                              [Topics.Segment(cfg.prefix), Topics.Segment(cfg.gateway), "cmd", "query"] &&
                            CommandResponse(cfg, old(state).cache, incoming.value.text.value, incoming.value.at).Some?
                         then [CommandResponse(cfg, old(state).cache, incoming.value.text.value,
                                               incoming.value.at).value]
                         else []
    {
      hide Inv, Topics.CommandTopic, CommandResponse, Topics.Segment, Topics.Levels;
      CommandsRun(cfg, state, incoming);
      Topics.CommandTopicShapes(cfg.prefix, cfg.gateway);
      if incoming.Some? {
        Topics.SameLevels(incoming.value.topic, Topics.CommandTopic(cfg.prefix, cfg.gateway));
      }
      answers := [];
      assert state.answers + [] == state.answers;
      if incoming.None? {
        return;
      }
      var p := Topics.TopicSegment(cfg.prefix);
      var g := Topics.TopicSegment(cfg.gateway);
      var commandTopic := p + "/" + g + "/cmd/query";
      CommandTopicIs(cfg, commandTopic);
      if incoming.value.topic != commandTopic || incoming.value.text.None? {
        return;
      }
      var e := Command(incoming.value.text.value, incoming.value.at, incoming.value.sent);
      var answer := HandleQuery(incoming.value.text.value, incoming.value.at);
      OneStep(cfg, state, e);
      StepKeepsInv(cfg, state, e);
      state := Apply(cfg, state, e);
      if answer.Some? && incoming.value.sent {
        answers := [answer.value];
      }
    }

    /** Publishes the job in hand, if any; `sent` is what reached the broker. */
    method PublishJob(job: Option<Message>, ok: bool) returns (sent: Option<Message>)
      requires Valid() && state.worker.Connected? && state.worker.job == job
      modifies this`state
      ensures Valid() && state == Apply(cfg, old(state), Finish(ok))
      ensures state.published == old(state).published + (if sent.Some? then [sent.value] else [])
    {
      hide Inv;
      StepKeepsInv(cfg, state, Finish(ok));
      state := Apply(cfg, state, Finish(ok));
      sent := if ok then job else None;
    }

    /** What the worker does once it is connected, with the messages that the broker has for it. */
    method Serve(job: Option<Message>, publishes: bool, first: Option<Incoming>, second: Option<Incoming>)
      returns (sent: Option<Message>, answers: seq<Message>)
      requires Valid() && state.worker == Connected(job, 0)
      modifies this`state
      ensures Valid()
      ensures var events := ServeEvents(cfg, job.Some?, publishes, first, second);
              Possible(cfg, old(state), events) && state == Execute(cfg, old(state), events)
      ensures state.published == old(state).published + (if sent.Some? then [sent.value] else [])
      ensures state.answers == old(state).answers + answers
      ensures answers == Answered(cfg, old(state).cache, first) +
                         (if job.Some? then [] else Answered(cfg, old(state).cache, second))
    {
      hide Inv, CommandEvents, CommandResponse, Possible, Execute, Topics.Levels;
      ghost var start, heard := state, CommandEvents(cfg, first);
      CommandsRun(cfg, start, first);
      answers := HandleIncoming(first);
      if job.None? {
        CommandsRun(cfg, state, second);
        var more := HandleIncoming(second);
        RunInTurn(cfg, start, heard, CommandEvents(cfg, second));
        heard := heard + CommandEvents(cfg, second);
        Assoc(start.answers, answers, more);
        answers := answers + more;
      } else {
        assert heard + [] == heard;
      }
      OneStep(cfg, state, Finish(publishes));
      sent := PublishJob(job, publishes);
      RunInTurn(cfg, start, heard, [Finish(publishes)]);
    }

    /** One turn of the worker loop. */
    method WorkerTurn(connects: bool, publishes: bool, first: Option<Incoming>, second: Option<Incoming>)
      returns (exit: bool, sent: Option<Message>, answers: seq<Message>)
      requires Valid() && state.worker.Idle?
      modifies this
      ensures Valid() && exit == state.worker.Exited?
      ensures var events := TurnEvents(cfg, old(state), connects, publishes, first, second);
              Possible(cfg, old(state), events) && state == Execute(cfg, old(state), events)
      ensures state.published == old(state).published + (if sent.Some? then [sent.value] else [])
      ensures state.answers == old(state).answers + answers
      ensures answers == TurnAnswers(cfg, old(state), connects, first, second)
    {
      hide Inv, ServeEvents, Possible, Execute, Answered;
      ghost var start := state;
      sent, answers := None, [];
      TurnIsRun(cfg, start, connects, publishes, first, second);
      OneStep(cfg, start, Take);
      var job;
      exit, job := TakeOne();
      if exit {
        return;
      }
      OneStep(cfg, state, Connect(connects));
      TryConnect(connects);
      RunInTurn(cfg, start, [Take], [Connect(connects)]);
      if !connects {
        return;
      }
      sent, answers := Serve(job, publishes, first, second);
      RunInTurn(cfg, start, [Take] + [Connect(true)], ServeEvents(cfg, job.Some?, publishes, first, second));
    }

    method Stop()
      requires Valid() && cfg.enabled
      modifies this
      ensures Valid() && state == Apply(cfg, old(state), Shutdown)
    {
      hide Inv;
      StepKeepsInv(cfg, state, Shutdown);
      state := Apply(cfg, state, Shutdown);
      running := false;
    }
  }

  lemma CommandTopicIs(cfg: Config, topic: string)
    requires topic == Topics.Segment(cfg.prefix) + "/" + Topics.Segment(cfg.gateway) + "/cmd/query"
    ensures topic == Topics.CommandTopic(cfg.prefix, cfg.gateway)
  {
  }

  lemma BatchMoves(cfg: Config, s: State, meter: string, address: string, items: seq<Stamped>, stamp: Stamp)
    requires Inv(cfg, s) && cfg.enabled && items != []
    ensures var t := Apply(cfg, s, BatchReport(meter, address, items, stamp));
            Inv(cfg, t) && t.running == s.running &&
            t.cache == CacheAll(cfg, s.cache, BatchReports(meter, address, items)) &&
            t.queue == if |s.queue| >= cfg.maxQueue then s.queue
                       else s.queue + [BatchMessage(cfg, meter, address, items, stamp)]
  {
    hide Inv, BatchMessage, BatchReports, CacheAll;
    StepKeepsInv(cfg, s, BatchReport(meter, address, items, stamp));
  }

  method BuildJob(cfg: Config, r: Report) returns (job: Message)
    ensures job == ReportMessage(cfg, r) && job.payload == ReportPayload(cfg, r)
  {
    hide Payload, Topics.ItemTopic;
    var topic := BuildTopic(cfg, r.meter, r.item.di);
    var payload := BuildPayload(cfg.gateway, r.meter, r.address, r.item, r.stamp);
    job := Message(topic, payload);
  }

  method BuildBatchJob(cfg: Config, meter: string, address: string, items: seq<Stamped>, stamp: Stamp)
    returns (job: Message)
    ensures job == BatchMessage(cfg, meter, address, items, stamp)
  {
    hide BatchPayload, Topics.BatchTopic;
    var topic := BuildBatchTopic(cfg, meter);
    var payload := BuildBatchPayload(cfg.gateway, meter, address, ItemResults(items), stamp);
    job := Message(topic, payload);
  }

  method BuildTopic(cfg: Config, meter: string, di: string) returns (topic: string)
    ensures topic == Topics.ItemTopic(cfg.prefix, cfg.gateway, meter, di)
  {
    var p := Topics.TopicSegment(cfg.prefix);
    var g := Topics.TopicSegment(cfg.gateway);
    var m := Topics.TopicSegment(meter);
    var d := Topics.TopicSegment(di);
    topic := p + "/" + g + "/meter/" + m + "/item/" + d;
  }

  method BuildBatchTopic(cfg: Config, meter: string) returns (topic: string)
    ensures topic == Topics.BatchTopic(cfg.prefix, cfg.gateway, meter)
  {
    var p := Topics.TopicSegment(cfg.prefix);
    var g := Topics.TopicSegment(cfg.gateway);
    var m := Topics.TopicSegment(meter);
    topic := p + "/" + g + "/meter/" + m + "/readings";
  }

  method BuildNoCache(cfg: Config, meter: string, di: string, stamp: Stamp) returns (answer: Message)
    ensures answer == NoCache(cfg, meter, di, stamp)
  {
    hide JsonRoundTrip.Object;
    var p := Topics.TopicSegment(cfg.prefix);
    var g := Topics.TopicSegment(cfg.gateway);
    var text := BuildNoCachePayload(cfg, meter, di, stamp);
    answer := Message(p + "/" + g + "/cmd/query/resp", text);
  }

  method BuildNoCachePayload(cfg: Config, meter: string, di: string, stamp: Stamp) returns (out: string)
    ensures out == JsonRoundTrip.Object(NoCacheMembers(cfg, meter, di, stamp))
  {
    hide JsonRoundTrip.Object, JsonRoundTrip.Rendered, IntText;
    ghost var all: seq<JsonRoundTrip.Member> := [];
    out := "{";
    assert out == "{" + JsonRoundTrip.Fields(all);
    out, all := AppendField(out, all, Number("schema_version", "1"));
    out, all := AppendField(out, all, JsonRoundTrip.Text("gateway_id", cfg.gateway));
    out, all := AppendField(out, all, Truth("success", false));
    out, all := AppendField(out, all, JsonRoundTrip.Text("message", "no_cache"));
    out, all := AppendField(out, all, JsonRoundTrip.Text("meter", meter));
    out, all := AppendField(out, all, JsonRoundTrip.Text("di", di));
    out, all := AppendField(out, all, Number("ts_ms", IntText(stamp.ms)));
    var last := JsonRoundTrip.Text("timestamp", stamp.iso);
    assert all + [last] == NoCacheMembers(cfg, meter, di, stamp);
    out := CloseObject(out, all, last);
  }
}
