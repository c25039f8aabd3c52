/** MQTT topic names (section 4.7 of MQTT 3.1.1): levels separated by '/', wildcards '+' and '#'. */
module Topics {
  import opened Bytes

  predicate SafeChar(c: char) {
    'a' <= c <= 'z' || 'A' <= c <= 'Z' || '0' <= c <= '9' || c == '_' || c == '-' || c == '.'
  }

  /** A topic level that is neither empty nor contains a separator, a wildcard or a control character. */
  predicate SafeLevel(s: string) {
    s != "" && forall i :: 0 <= i < |s| ==> SafeChar(s[i])
  }

  function Substitute(s: string): (r: string)
    ensures |r| == |s|
  {
    seq(|s|, i requires 0 <= i < |s| => if SafeChar(s[i]) then s[i] else '_')
  }

  function Segment(s: string): string {
    if s == "" then "x" else Substitute(s)
  }

  method TopicSegment(s: string) returns (o: string)
    ensures o == Segment(s)
    ensures s == "" ==> o == "x"
    ensures s != "" ==> |o| == |s| && forall i :: 0 <= i < |s| ==>
              var c := s[i];
              o[i] == if 'a' <= c <= 'z' || 'A' <= c <= 'Z' || '0' <= c <= '9' || c in "_-." then c else '_'
  {
    o := "";
    for i := 0 to |s|
      invariant o == Substitute(s)[..i]
    {
      if SafeChar(s[i]) {
        o := o + [s[i]];
      } else {
        o := o + ['_'];
      }
    }
    if o == "" {
      return "x";
    }
  }

  /** Every segment is a safe level, and safe levels are exactly the names that stay as they are. */
  lemma SegmentIsSafe(s: string)
    ensures SafeLevel(Segment(s))
    ensures Segment(s) == s <==> SafeLevel(s)
    ensures Segment(Segment(s)) == Segment(s)
  {
    if SafeLevel(s) {
      assert Segment(s) == s;
    }
    assert Segment(Segment(s)) == Segment(s);
  }

  function Root(prefix: string, gateway: string): string {
    Segment(prefix) + "/" + Segment(gateway)
  }

  function ItemTopic(prefix: string, gateway: string, meter: string, di: string): string {
    Root(prefix, gateway) + "/meter/" + Segment(meter) + "/item/" + Segment(di)
  }

  function BatchTopic(prefix: string, gateway: string, meter: string): string {
    Root(prefix, gateway) + "/meter/" + Segment(meter) + "/readings"
  }

  function CommandTopic(prefix: string, gateway: string): string {
    Root(prefix, gateway) + "/cmd/query"
  }

  function ResponseTopic(prefix: string, gateway: string): string {
    Root(prefix, gateway) + "/cmd/query/resp"
  }

  // ----- levels -----

  /** The levels of a topic as a broker sees them. */
  function Levels(topic: string): (r: seq<string>)
    ensures r != []
  {
    if topic == "" then [""]
    else
      var rest := Levels(topic[1..]);
      if topic[0] == '/' then [""] + rest else [[topic[0]] + rest[0]] + rest[1..]
  }

  lemma {:induction false} FirstLevel(level: string, rest: string)
    requires SafeLevel(level) || level == ""
    ensures Levels(level + ("/" + rest)) == [level] + Levels(rest)
  {
    if level == "" {
      assert level + ("/" + rest) == "/" + rest;
      assert ("/" + rest)[1..] == rest;
    } else {
      assert (level + ("/" + rest))[1..] == level[1..] + ("/" + rest);
      FirstLevel(level[1..], rest);
      assert [level[0]] + level[1..] == level;
    }
  }

  lemma {:induction false} OnlyLevel(level: string)
    requires SafeLevel(level) || level == ""
    ensures Levels(level) == [level]
  {
    if level != "" {
      OnlyLevel(level[1..]);
      assert [level[0]] + level[1..] == level;
    }
  }

  /** Levels joined by separators. */
  function Joined(levels: seq<string>): string
    requires levels != []
  {
    if |levels| == 1 then levels[0] else levels[0] + ("/" + Joined(levels[1..]))
  }

  predicate AllSafe(levels: seq<string>) {
    forall i :: 0 <= i < |levels| ==> SafeLevel(levels[i])
  }

  lemma {:induction false} LevelsOfJoined(levels: seq<string>)
    requires levels != [] && AllSafe(levels)
    ensures Levels(Joined(levels)) == levels
  {
    if |levels| == 1 {
      OnlyLevel(levels[0]);
    } else {
      LevelsOfJoined(levels[1..]);
      FirstLevel(levels[0], Joined(levels[1..]));
    }
  }

  lemma JoinedTwo(a: string, b: string)
    ensures Joined([a, b]) == a + "/" + b
  {
    assert [a, b][1..] == [b];
    Assoc(a, "/", b);
  }

  lemma JoinedMore(a: string, rest: seq<string>)
    requires rest != []
    ensures Joined([a] + rest) == a + "/" + Joined(rest)
  {
    assert ([a] + rest)[1..] == rest;
    Assoc(a, "/", Joined(rest));
  }

  lemma {:induction false} JoinedLevels(topic: string)
    ensures Joined(Levels(topic)) == topic
  {
    if topic != "" {
      var rest := Levels(topic[1..]);
      JoinedLevels(topic[1..]);
      assert topic == [topic[0]] + topic[1..];
      if topic[0] == '/' {
        assert ([""] + rest)[1..] == rest;
      } else {
        assert ([[topic[0]] + rest[0]] + rest[1..])[1..] == rest[1..];
      }
    }
  }

  /** The levels of a topic determine it. */
  lemma SameLevels(a: string, b: string)
    ensures Levels(a) == Levels(b) <==> a == b
  {
    JoinedLevels(a);
    JoinedLevels(b);
  }

  lemma WordsSafe()
    ensures SafeLevel("meter") && SafeLevel("item") && SafeLevel("readings")
    ensures SafeLevel("cmd") && SafeLevel("query") && SafeLevel("resp")
  {
  }

  lemma UnderRoot(prefix: string, gateway: string, tail: string, rest: seq<string>)
    requires rest != [] && AllSafe(rest) && tail == "/" + Joined(rest)
    ensures var levels := [Segment(prefix), Segment(gateway)] + rest;
            AllSafe(levels) && Levels(Root(prefix, gateway) + tail) == levels
  {
    var p, g := Segment(prefix), Segment(gateway);
    SegmentIsSafe(prefix);
    SegmentIsSafe(gateway);
    assert [p, g] + rest == [p] + ([g] + rest);
    JoinedMore(g, rest);
    JoinedMore(p, [g] + rest);
    assert Root(prefix, gateway) + tail == p + "/" + (g + "/" + Joined(rest));
    LevelsOfJoined([p, g] + rest);
  }

  /** An item topic has exactly six levels, all of them non-empty and free of wildcards, for all names. */
  lemma ItemTopicShape(prefix: string, gateway: string, meter: string, di: string)
    ensures Levels(ItemTopic(prefix, gateway, meter, di)) ==
            [Segment(prefix), Segment(gateway), "meter", Segment(meter), "item", Segment(di)]
    ensures AllSafe(Levels(ItemTopic(prefix, gateway, meter, di)))
  {
    var m, d := Segment(meter), Segment(di);
    WordsSafe();
    SegmentIsSafe(meter);
    SegmentIsSafe(di);
    ItemTail(m, d);
    UnderRoot(prefix, gateway, "/meter/" + m + "/item/" + d, ["meter", m, "item", d]);
    FourParts(Root(prefix, gateway), m, d);
  }

  lemma FourParts(root: string, m: string, d: string)
    ensures root + "/meter/" + m + "/item/" + d == root + ("/meter/" + m + "/item/" + d)
  {
  }

  lemma ItemTail(m: string, d: string)
    ensures "/meter/" + m + "/item/" + d == "/" + Joined(["meter", m, "item", d])
  {
    JoinedTwo("item", d);
    JoinedMore(m, ["item", d]);
    JoinedMore("meter", [m, "item", d]);
    assert [m] + ["item", d] == [m, "item", d] && ["meter"] + [m, "item", d] == ["meter", m, "item", d];
    assert "/" + ("meter" + "/" + (m + "/" + ("item" + "/" + d))) == "/meter/" + m + "/item/" + d;
  }

  lemma BatchTopicShape(prefix: string, gateway: string, meter: string)
    ensures Levels(BatchTopic(prefix, gateway, meter)) ==
            [Segment(prefix), Segment(gateway), "meter", Segment(meter), "readings"]
    ensures AllSafe(Levels(BatchTopic(prefix, gateway, meter)))
  {
    var m := Segment(meter);
    var rest := ["meter", m, "readings"];
    WordsSafe();
    SegmentIsSafe(meter);
    JoinedTwo(m, "readings");
    JoinedMore("meter", [m, "readings"]);
    assert ["meter"] + [m, "readings"] == rest;
    assert "/meter/" + m + "/readings" == "/" + Joined(rest);
    UnderRoot(prefix, gateway, "/meter/" + m + "/readings", rest);
    assert BatchTopic(prefix, gateway, meter) == Root(prefix, gateway) + ("/meter/" + m + "/readings");
  }

  lemma CommandTopicShapes(prefix: string, gateway: string)
    ensures Levels(CommandTopic(prefix, gateway)) == [Segment(prefix), Segment(gateway), "cmd", "query"]
    ensures Levels(ResponseTopic(prefix, gateway)) == [Segment(prefix), Segment(gateway), "cmd", "query", "resp"]
    ensures AllSafe(Levels(CommandTopic(prefix, gateway))) && AllSafe(Levels(ResponseTopic(prefix, gateway)))
  {
    WordsSafe();
    JoinedTwo("cmd", "query");
    JoinedTwo("query", "resp");
    JoinedMore("cmd", ["query", "resp"]);
    assert ["cmd"] + ["query", "resp"] == ["cmd", "query", "resp"];
    assert "/cmd/query" == "/" + Joined(["cmd", "query"]);
    assert "/cmd/query/resp" == "/" + Joined(["cmd", "query", "resp"]);
    UnderRoot(prefix, gateway, "/cmd/query", ["cmd", "query"]);
    UnderRoot(prefix, gateway, "/cmd/query/resp", ["cmd", "query", "resp"]);
  }

  /**
   Whatever the names, of this gateway or another, nothing that is published ever goes to a command
   topic, and item, batch and response topics never coincide.
   */
  lemma TopicsAreSeparate(p: string, g: string, meter: string, di: string, p': string, g': string, meter': string)
    ensures ItemTopic(p, g, meter, di) != CommandTopic(p', g')
    ensures BatchTopic(p, g, meter) != CommandTopic(p', g')
    ensures ResponseTopic(p, g) != CommandTopic(p', g')
    ensures ItemTopic(p, g, meter, di) != BatchTopic(p', g', meter')
    ensures ItemTopic(p, g, meter, di) != ResponseTopic(p', g')
    ensures BatchTopic(p, g, meter) != ResponseTopic(p', g')
  {
    ItemTopicShape(p, g, meter, di);
    BatchTopicShape(p, g, meter);
    BatchTopicShape(p', g', meter');
    CommandTopicShapes(p, g);
    CommandTopicShapes(p', g');
    assert Levels(BatchTopic(p, g, meter))[2] == "meter" != "cmd" == Levels(ResponseTopic(p', g'))[2];
  }
}
