/**
 The polling loop under a stop that may come at any moment. Everything the loop does is appended to a
 log, so a position in the log is a moment in time; the stop comes just before position `stopAt`.
 */
module Scheduler {
  import opened Bytes
  import opened DataItem
  import Address
  import MeterReader

  datatype Meter = Meter(name: string, address: Address.Address, enabled: bool)

  /** `readers[i]` tells whether meter `i` has a reader; the flags tell which callbacks are set. */
  datatype Config = Config(
    meters: seq<Meter>, items: seq<DataItem>, pollInterval: int,
    readers: seq<bool>, itemCallback: bool, batchCallback: bool)

  datatype BatchItem = BatchItem(item: string, di: string, reading: MeterReader.Reading)

  datatype Action =
    | Check(live: bool)                    // a look at the running flag
    | Read(i: nat, j: nat)                 // a completed read of item j of meter i
    | ItemCall(meter: string, address: string, item: BatchItem)
    | BatchCall(meter: string, address: string, items: seq<BatchItem>)

  /** The result of reading item `j` of meter `i` in a given poll. */
  type Readings = (nat, nat, nat) -> MeterReader.Reading

  // ----- identifiers as text -----

  function HexText(v: nat, n: nat): (s: string)
    ensures |s| == n
  {
    if n == 0 then "" else HexText(v / 16, n - 1) + [Address.HexChar(v % 16)]
  }

  /** Eight upper-case hexadecimal digits. */
  function DiHex(di: uint32): string {
    HexText(di, 8)
  }

  function HexNumber(s: string): int {
    if s == "" then 0 else HexNumber(s[..|s| - 1]) * 16 + Address.HexValue(s[|s| - 1])
  }

  function Pow16(n: nat): nat {
    if n == 0 then 1 else 16 * Pow16(n - 1)
  }

  lemma {:induction false} HexTextReadsBack(v: nat, n: nat)
    requires v < Pow16(n)
    ensures HexNumber(HexText(v, n)) == v
    ensures Address.AllHex(HexText(v, n))
    ensures forall k :: 0 <= k < n ==> HexText(v, n)[k] in "0123456789ABCDEF"
  {
    if n > 0 {
      var front := HexText(v / 16, n - 1);
      HexTextReadsBack(v / 16, n - 1);
      assert HexText(v, n)[..n - 1] == front;
      Address.HexCharValue(v % 16);
      Address.HexCharIs(v % 16);
    }
  }

  /** Different identifiers have different texts, and no text contains the cache key separator. */
  lemma DiHexFaithful(di: uint32)
    ensures |DiHex(di)| == 8 && HexNumber(DiHex(di)) == di && '|' !in DiHex(di) && Address.AllHex(DiHex(di))
    ensures forall k :: 0 <= k < 8 ==> DiHex(di)[k] in "0123456789ABCDEF"
  {
    assert Pow16(4) == 0x1_0000;
    assert Pow16(6) == 0x100_0000;
    assert Pow16(8) == 0x1_0000_0000;
    HexTextReadsBack(di, 8);
  }

  // ----- what an undisturbed poll reports -----

  function ItemAt(cfg: Config, readings: Readings, poll: nat, i: nat, j: nat): BatchItem
    requires j < |cfg.items|
  {
    BatchItem(cfg.items[j].name, DiHex(cfg.items[j].di), readings(poll, i, j))
  }

  /** The results of the enabled ones among the first `n` items, in order. */
  function Results(cfg: Config, readings: Readings, poll: nat, i: nat, n: nat): seq<BatchItem>
    requires n <= |cfg.items|
  {
    if n == 0 then []
    else Results(cfg, readings, poll, i, n - 1) +
         (if cfg.items[n - 1].enabled then [ItemAt(cfg, readings, poll, i, n - 1)] else [])
  }

  function ItemCalls(cfg: Config, meter: Meter, items: seq<BatchItem>): (r: seq<Action>)
    ensures |r| == if cfg.itemCallback then |items| else 0
  {
    if !cfg.itemCallback then []
    else seq(|items|, k requires 0 <= k < |items| => ItemCall(meter.name, Address.Text(meter.address), items[k]))
  }

  function BatchCalls(cfg: Config, meter: Meter, items: seq<BatchItem>): seq<Action> {
    if !cfg.batchCallback || items == [] then []
    else [BatchCall(meter.name, Address.Text(meter.address), items)]
  }

  predicate Served(cfg: Config, i: nat)
    requires i < |cfg.meters|
  {
    cfg.meters[i].enabled && i < |cfg.readers| && cfg.readers[i]
  }

  /** One call for each result of a served meter, then one batch with exactly these results. */
  function MeterCalls(cfg: Config, readings: Readings, poll: nat, i: nat): seq<Action>
    requires i < |cfg.meters|
  {
    if !Served(cfg, i) then []
    else
      var items := Results(cfg, readings, poll, i, |cfg.items|);
      ItemCalls(cfg, cfg.meters[i], items) + BatchCalls(cfg, cfg.meters[i], items)
  }

  function MetersCalls(cfg: Config, readings: Readings, poll: nat, n: nat): seq<Action>
    requires n <= |cfg.meters|
  {
    if n == 0 then [] else MetersCalls(cfg, readings, poll, n - 1) + MeterCalls(cfg, readings, poll, n - 1)
  }

  lemma UnservedIsSilent(cfg: Config, readings: Readings, poll: nat, i: nat)
    requires i < |cfg.meters|
    ensures !Served(cfg, i) ==> MetersCalls(cfg, readings, poll, i + 1) == MetersCalls(cfg, readings, poll, i)
  {
  }

  function PollCalls(cfg: Config, readings: Readings, poll: nat): seq<Action> {
    MetersCalls(cfg, readings, poll, |cfg.meters|)
  }

  function PollsCalls(cfg: Config, readings: Readings, n: nat): seq<Action> {
    if n == 0 then [] else PollsCalls(cfg, readings, n - 1) + PollCalls(cfg, readings, n - 1)
  }

  // ----- logs -----

  /** The callbacks of a log, in order. */
  function Calls(log: seq<Action>): seq<Action> {
    if log == [] then []
    else
      var n := |log| - 1;
      Calls(log[..n]) + (if log[n].ItemCall? || log[n].BatchCall? then [log[n]] else [])
  }

  lemma CallsSnoc(log: seq<Action>, a: Action)
    ensures Calls(log + [a]) == Calls(log) + (if a.ItemCall? || a.BatchCall? then [a] else [])
  {
    assert (log + [a])[..|log|] == log;
  }

  /** A look at the flag sees the stop exactly from `stopAt` on, and a read only follows a successful look. */
  predicate TimedAt(log: seq<Action>, p: nat, stopAt: nat)
    requires p < |log|
  {
    (log[p].Check? ==> log[p].live == (p < stopAt)) &&
    (log[p].Read? ==> p > 0 && log[p - 1] == Check(true))
  }

  predicate WellTimed(log: seq<Action>, stopAt: nat) {
    forall p: nat :: p < |log| ==> TimedAt(log, p, stopAt)
  }

  lemma WellTimedSnoc(log: seq<Action>, a: Action, stopAt: nat)
    requires WellTimed(log, stopAt)
    requires a.Check? ==> a.live == (|log| < stopAt)
    requires a.Read? ==> log != [] && log[|log| - 1] == Check(true)
    ensures WellTimed(log + [a], stopAt)
  {
    forall p: nat | p < |log + [a]| ensures TimedAt(log + [a], p, stopAt) {
      if p < |log| {
        assert TimedAt(log, p, stopAt);
      }
    }
  }

  lemma EmptyLog(stopAt: nat)
    ensures WellTimed([], stopAt) && Calls([]) == []
  {
  }

  function Later(a: nat, b: nat): nat {
    if a < b then b else a
  }

  function ReadCount(log: seq<Action>): nat {
    if log == [] then 0 else ReadCount(log[..|log| - 1]) + (if log[|log| - 1].Read? then 1 else 0)
  }

  /** However the stop falls, at most one read completes after it. */
  lemma AtMostOneReadAfterStop(log: seq<Action>, stopAt: nat)
    requires WellTimed(log, stopAt) && stopAt <= |log|
    ensures ReadCount(log[stopAt..]) <= 1
  {
    var after := log[stopAt..];
    OnlyFirstIsRead(after, log, stopAt);
  }

  lemma NoReadAt(log: seq<Action>, stopAt: nat, p: nat)
    requires WellTimed(log, stopAt) && stopAt < p < |log|
    ensures !log[p].Read?
  {
    assert TimedAt(log, p, stopAt) && TimedAt(log, p - 1, stopAt);
  }

  lemma {:induction false} OnlyFirstIsRead(after: seq<Action>, log: seq<Action>, stopAt: nat)
    requires WellTimed(log, stopAt) && stopAt + |after| <= |log| && after == log[stopAt..stopAt + |after|]
    ensures ReadCount(after) <= if after != [] && after[0].Read? then 1 else 0
  {
    if after != [] {
      var n := |after| - 1;
      OnlyFirstIsRead(after[..n], log, stopAt);
      assert after[n] == log[stopAt + n];
      if n > 0 {
        NoReadAt(log, stopAt, stopAt + n);
      }
    }
  }

  // ----- prefixes of the undisturbed poll -----

  lemma {:induction false} ResultsGrow(cfg: Config, readings: Readings, poll: nat, i: nat, j: nat, n: nat)
    requires j <= n <= |cfg.items|
    ensures Results(cfg, readings, poll, i, j) <= Results(cfg, readings, poll, i, n)
  {
    if j < n {
      ResultsGrow(cfg, readings, poll, i, j, n - 1);
    }
  }

  lemma {:induction false} MetersGrow(cfg: Config, readings: Readings, poll: nat, i: nat, n: nat)
    requires i <= n <= |cfg.meters|
    ensures MetersCalls(cfg, readings, poll, i) <= MetersCalls(cfg, readings, poll, n)
  {
    hide MeterCalls;
    if i < n {
      MetersGrow(cfg, readings, poll, i, n - 1);
    }
  }

  /** The calls for the results of some first items of a meter. */
  ghost predicate PartOfMeter(cfg: Config, readings: Readings, poll: nat, i: nat, part: seq<Action>)
    requires i < |cfg.meters|
  {
    exists j: nat :: j <= |cfg.items| && part == ItemCalls(cfg, cfg.meters[i], Results(cfg, readings, poll, i, j))
  }

  lemma PartOfMeterIsPrefix(cfg: Config, readings: Readings, poll: nat, i: nat, part: seq<Action>)
    requires i < |cfg.meters| && Served(cfg, i) && PartOfMeter(cfg, readings, poll, i, part)
    ensures part <= MeterCalls(cfg, readings, poll, i)
  {
    var j: nat :| j <= |cfg.items| && part == ItemCalls(cfg, cfg.meters[i], Results(cfg, readings, poll, i, j));
    ResultsGrow(cfg, readings, poll, i, j, |cfg.items|);
  }

  /** What has been reported when a poll stops inside a meter is a prefix of what the whole poll reports. */
  lemma PartIsPrefix(cfg: Config, readings: Readings, poll: nat, i: nat, part: seq<Action>)
    requires i < |cfg.meters| && Served(cfg, i) && PartOfMeter(cfg, readings, poll, i, part)
    ensures MetersCalls(cfg, readings, poll, i) + part <= PollCalls(cfg, readings, poll)
  {
    PartOfMeterIsPrefix(cfg, readings, poll, i, part);
    hide MeterCalls;
    PrefixOfSum(MetersCalls(cfg, readings, poll, i), part, MeterCalls(cfg, readings, poll, i));
    MetersGrow(cfg, readings, poll, i + 1, |cfg.meters|);
    PrefixTrans(MetersCalls(cfg, readings, poll, i) + part, MetersCalls(cfg, readings, poll, i + 1),
                PollCalls(cfg, readings, poll));
  }

  lemma PrefixOfSum<T>(a: seq<T>, b: seq<T>, c: seq<T>)
    requires b <= c
    ensures a + b <= a + c
  {
  }

  lemma PrefixTrans<T>(a: seq<T>, b: seq<T>, c: seq<T>)
    requires a <= b && b <= c
    ensures a <= c
  {
  }

  // ----- batches repeat what was reported item by item -----

  /** The batch at `n` follows the item calls of exactly its items, and the calls of the batch before end there. */
  predicate RepeatsItems(calls: seq<Action>, n: nat)
    requires n < |calls| && calls[n].BatchCall?
  {
    var b := calls[n];
    var first := n - |b.items|;
    0 <= first < n && (first > 0 ==> calls[first - 1].BatchCall?) &&
    forall k :: 0 <= k < |b.items| ==> calls[first + k] == ItemCall(b.meter, b.address, b.items[k])
  }

  predicate BatchesRepeat(calls: seq<Action>) {
    forall n: nat :: n < |calls| && calls[n].BatchCall? ==> RepeatsItems(calls, n)
  }

  predicate Grouped(calls: seq<Action>) {
    BatchesRepeat(calls) && (calls != [] ==> calls[|calls| - 1].BatchCall?)
  }

  lemma GroupedTogether(a: seq<Action>, b: seq<Action>)
    requires Grouped(a) && Grouped(b)
    ensures Grouped(a + b)
  {
    forall n: nat | n < |a + b| && (a + b)[n].BatchCall? ensures RepeatsItems(a + b, n) {
      if n < |a| {
        assert RepeatsItems(a, n);
      } else {
        assert RepeatsItems(b, n - |a|);
      }
    }
  }

  lemma MeterGrouped(cfg: Config, readings: Readings, poll: nat, i: nat)
    requires i < |cfg.meters| && cfg.itemCallback && cfg.batchCallback
    ensures Grouped(MeterCalls(cfg, readings, poll, i))
  {
    hide Results;
    var calls := MeterCalls(cfg, readings, poll, i);
    forall n: nat | n < |calls| && calls[n].BatchCall? ensures RepeatsItems(calls, n) {
    }
  }

  lemma {:induction false} MetersGrouped(cfg: Config, readings: Readings, poll: nat, n: nat)
    requires n <= |cfg.meters| && cfg.itemCallback && cfg.batchCallback
    ensures Grouped(MetersCalls(cfg, readings, poll, n))
  {
    hide Grouped, MeterCalls;
    if n == 0 {
      NothingGrouped();
    } else {
      MetersGrouped(cfg, readings, poll, n - 1);
      MeterGrouped(cfg, readings, poll, n - 1);
      GroupedTogether(MetersCalls(cfg, readings, poll, n - 1), MeterCalls(cfg, readings, poll, n - 1));
    }
  }

  lemma NothingGrouped()
    ensures Grouped([])
  {
  }

  lemma {:induction false} PollsGrouped(cfg: Config, readings: Readings, n: nat)
    requires cfg.itemCallback && cfg.batchCallback
    ensures Grouped(PollsCalls(cfg, readings, n))
  {
    hide Grouped, MetersCalls;
    if n == 0 {
      NothingGrouped();
    } else {
      PollsGrouped(cfg, readings, n - 1);
      MetersGrouped(cfg, readings, n - 1, |cfg.meters|);
      GroupedTogether(PollsCalls(cfg, readings, n - 1), PollCalls(cfg, readings, n - 1));
    }
  }

  lemma PrefixBatchesRepeat(part: seq<Action>, calls: seq<Action>)
    requires part <= calls && BatchesRepeat(calls)
    ensures BatchesRepeat(part)
  {
    forall n: nat | n < |part| && part[n].BatchCall? ensures RepeatsItems(part, n) {
      assert RepeatsItems(calls, n);
    }
  }

  /**
   In every trace of the scheduler, wherever the stop cut it, each batch comes right behind the item calls of
   exactly its items, with the same meter and address, and nothing but whole batches comes before these.
   */
  lemma BatchRepeatsItems(cfg: Config, readings: Readings, polls: nat, last: seq<Action>)
    requires cfg.itemCallback && cfg.batchCallback
    requires last <= PollCalls(cfg, readings, polls)
    ensures BatchesRepeat(PollsCalls(cfg, readings, polls) + last)
  {
    hide PollCalls, BatchesRepeat;
    PollsGrouped(cfg, readings, polls + 1);
    assert BatchesRepeat(PollsCalls(cfg, readings, polls + 1));
    PrefixOfSum(PollsCalls(cfg, readings, polls), last, PollCalls(cfg, readings, polls));
    PrefixBatchesRepeat(PollsCalls(cfg, readings, polls) + last, PollsCalls(cfg, readings, polls + 1));
  }

  lemma OneMore(n: nat, m: nat)
    ensures (n + 1) * m == n * m + m
  {
  }

  lemma Grows(k: nat, n: nat, m: nat)
    requires k <= n
    ensures k * m <= n * m
  {
  }

  // ----- the scheduler -----

  class Scheduler {
    const cfg: Config
    const readings: Readings
    const stopAt: nat
    var running: bool
    var log: seq<Action>

    // The flag is set until the stop; a scheduler that was never started is one with `stopAt` 0.
    ghost predicate Valid()
      reads this
    {
      (running || |log| >= stopAt) && WellTimed(log, stopAt)
    }

    constructor (cfg: Config, readings: Readings, stopAt: nat)
      ensures log == [] && !running
      ensures this.cfg == cfg && this.readings == readings && this.stopAt == stopAt
    {
      this.cfg, this.readings, this.stopAt, running, log := cfg, readings, stopAt, false, [];
    }

    method Stop()
      modifies this`running
      ensures !running
    {
      running := false;
    }

    /** One look at the flag; a stop that is due arrives just before it. */
    method Look() returns (live: bool)
      requires Valid()
      modifies this
      ensures Valid() && running == live == (old(|log|) < stopAt) && log == old(log) + [Check(live)]
      ensures Calls(log) == Calls(old(log))
    {
      if |log| >= stopAt {
        Stop();
      }
      live := running;
      CallsSnoc(log, Check(live));
      WellTimedSnoc(log, Check(live), stopAt);
      log := log + [Check(live)];
    }

    method Report(a: Action)
      requires Valid() && (a.ItemCall? || a.BatchCall?)
      modifies this`log
      ensures Valid() && log == old(log) + [a] && Calls(log) == Calls(old(log)) + [a]
    {
      CallsSnoc(log, a);
      WellTimedSnoc(log, a, stopAt);
      log := log + [a];
    }

    /** Reads item `j` of meter `i` and reports the result. */
    method ReadItem(poll: nat, i: nat, j: nat) returns (item: BatchItem)
      requires Valid() && i < |cfg.meters| && j < |cfg.items|
      requires log != [] && log[|log| - 1] == Check(true)
      modifies this`log
      ensures Valid() && item == ItemAt(cfg, readings, poll, i, j)
      ensures old(|log|) <= |log| <= old(|log|) + 2
      ensures Calls(log) == Calls(old(log)) + ItemCalls(cfg, cfg.meters[i], [item])
    {
      var meter := cfg.meters[i];
      item := BatchItem(cfg.items[j].name, DiHex(cfg.items[j].di), readings(poll, i, j));
      CallsSnoc(log, Read(i, j));
      WellTimedSnoc(log, Read(i, j), stopAt);
      log := log + [Read(i, j)];
      if cfg.itemCallback {
        var address := Address.ToString(meter.address);
        Report(ItemCall(meter.name, address, item));
      }
    }

    /** All items of one meter; false when the stop was seen. */
    method PollMeter(poll: nat, i: nat) returns (complete: bool, ghost done: seq<Action>)
      requires Valid() && i < |cfg.meters| && Served(cfg, i) && |log| <= stopAt
      modifies this
      ensures Valid() && Calls(log) == Calls(old(log)) + done
      ensures old(|log|) <= |log| <= old(|log|) + 3 * |cfg.items| + 1
      ensures complete ==> done == MeterCalls(cfg, readings, poll, i) && |log| <= stopAt + 3
      ensures !complete ==> PartOfMeter(cfg, readings, poll, i, done) && stopAt <= |log| <= stopAt + 3
    {
      hide WellTimed, Calls;
      var meter := cfg.meters[i];
      var batch := [];
      done := [];
      for j := 0 to |cfg.items|
        invariant Valid() && old(|log|) <= |log| <= stopAt + 2 && |log| <= old(|log|) + 3 * j
        invariant batch == Results(cfg, readings, poll, i, j) && done == ItemCalls(cfg, meter, batch)
        invariant Calls(log) == Calls(old(log)) + done
      {
        var live := Look();
        if !live {
          return false, done;
        }
        if cfg.items[j].enabled {
          var item := ReadItem(poll, i, j);
          Assoc(Calls(old(log)), done, ItemCalls(cfg, meter, [item]));
          batch := batch + [item];
          done := done + ItemCalls(cfg, meter, [item]);
        }
      }
      if cfg.batchCallback && batch != [] {
        var address := Address.ToString(meter.address);
        var call := BatchCall(meter.name, address, batch);
        Report(call);
        Assoc(Calls(old(log)), done, [call]);
        done := done + [call];
      }
      return true, done;
    }

    /** One round over all meters; false when the stop was seen, and then only a prefix was reported. */
    method PollOnce(poll: nat) returns (complete: bool, ghost done: seq<Action>)
      requires Valid()
      modifies this
      ensures Valid() && Calls(log) == Calls(old(log)) + done && done <= PollCalls(cfg, readings, poll)
      ensures complete ==> done == PollCalls(cfg, readings, poll)
      ensures !complete ==> |log| >= stopAt
      ensures old(|log|) <= |log| <= Later(old(|log|) + 1, stopAt + 4)
      ensures |log| <= old(|log|) + |cfg.meters| * (3 * |cfg.items| + 2)
    {
      hide WellTimed, Calls, MeterCalls;
      done := [];
      ghost var most := 3 * |cfg.items| + 2;
      for i := 0 to |cfg.meters|
        invariant Valid() && old(|log|) <= |log| && (|log| == old(|log|) || |log| <= stopAt + 3)
        invariant done == MetersCalls(cfg, readings, poll, i)
        invariant |log| <= old(|log|) + i * most
        invariant Calls(log) == Calls(old(log)) + done
      {
        MetersGrow(cfg, readings, poll, i, |cfg.meters|);
        UnservedIsSilent(cfg, readings, poll, i);
        OneMore(i, most);
        Grows(i + 1, |cfg.meters|, most);
        var live := Look();
        if !live {
          return false, done;
        }
        if cfg.meters[i].enabled && i < |cfg.readers| && cfg.readers[i] {
          var whole;
          ghost var part;
          whole, part := PollMeter(poll, i);
          Assoc(Calls(old(log)), done, part);
          done := done + part;
          if !whole {
            PartIsPrefix(cfg, readings, poll, i, part);
            return false, done;
          }
        }
      }
      return true, done;
    }

    /** Waits for the next round: one second behind each look at the flag, and no more once the stop is seen. */
    method Wait()
      requires Valid()
      modifies this
      ensures Valid() && Calls(log) == Calls(old(log)) && old(log) <= log
      ensures forall p :: old(|log|) <= p < |log| ==> log[p].Check?
      ensures |log| == if cfg.pollInterval <= 0 then old(|log|)
                       else if old(|log|) + cfg.pollInterval <= stopAt then old(|log|) + cfg.pollInterval
                       else Later(old(|log|), stopAt) + 1
    {
      hide WellTimed, Calls;
      var i := 0;
      while i < cfg.pollInterval
        invariant Valid() && Calls(log) == Calls(old(log)) && old(log) <= log
        invariant forall p :: old(|log|) <= p < |log| ==> log[p].Check?
        invariant |log| == old(|log|) + i && 0 <= i && (i > 0 ==> i <= cfg.pollInterval && |log| <= stopAt)
      {
        var live := Look();
        if !live {
          return;
        }
        i := i + 1;
      }
    }

    /**
     The whole run: complete rounds, then a prefix of the next one, and the loop ends within six actions of the
     stop, whenever it comes. Until then rounds follow each other: each has a bounded number of actions, and a
     pause of the configured length after it.
     */
    method Run() returns (ghost polls: nat, ghost last: seq<Action>)
      requires log == []
      modifies this
      ensures Valid() && !running && stopAt <= |log| <= stopAt + 6
      ensures Calls(log) == PollsCalls(cfg, readings, polls) + last && last <= PollCalls(cfg, readings, polls)
      ensures var pause := if cfg.pollInterval > 0 then cfg.pollInterval else 0;
              |log| <= 1 + (polls + 1) * (|cfg.meters| * (3 * |cfg.items| + 2) + pause + 1) &&
              (polls > 0 ==> (polls - 1) * (pause + 1) < |log|)
    {
      hide PollCalls, WellTimed, Calls;
      running := true;
      polls, last := 0, [];
      EmptyLog(stopAt);
      var round := 0;
      ghost var pause := if cfg.pollInterval > 0 then cfg.pollInterval else 0;
      ghost var most := |cfg.meters| * (3 * |cfg.items| + 2) + pause + 1;
      var live := Look();
      while live
        invariant Valid() && round == polls && running == live
        invariant stopAt + 6 - |log| >= 0 && (live ==> |log| <= stopAt && last == [])
        invariant Calls(log) == PollsCalls(cfg, readings, polls) + last && last <= PollCalls(cfg, readings, polls)
        invariant |log| <= 1 + (if live then polls * most else (polls + 1) * most)
        invariant live ==> polls * (pause + 1) < |log|
        invariant polls > 0 ==> (polls - 1) * (pause + 1) < |log|
        decreases stopAt + 6 - |log|
      {
        OneMore(polls, most);
        OneMore(polls + 1, most);
        OneMore(polls, pause + 1);
        var complete;
        complete, last := PollOnce(round);
        assert PollsCalls(cfg, readings, polls) + [] == PollsCalls(cfg, readings, polls);
        if complete {
          polls, last := polls + 1, [];
          round := round + 1;
        }
        Wait();
        live := Look();
      }
    }
  }
}
