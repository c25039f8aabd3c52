/** The JSON texts that the reporter publishes, and what a reader gets back from them. */
module MqttPayload {
  import opened Bytes
  import opened JsonText
  import opened JsonRoundTrip
  import opened MeterReader

  /** The printed form of a measured value or of an integer. */
  predicate IsNumberText(s: string) {
    s != "" && forall i :: 0 <= i < |s| ==> '0' <= s[i] <= '9' || s[i] == '.' || s[i] == '-'
  }

  type NumberText = s: string | IsNumberText(s) witness "0"

  datatype Printed = Printed(value: NumberText, unit: string)

  datatype ItemResult = ItemResult(item: string, di: string, code: ErrorCode, result: Option<Printed>)

  /** Milliseconds since the epoch and the same moment as ISO 8601 text. */
  datatype Stamp = Stamp(ms: int, iso: string)

  function NatText(n: nat): (s: string)
    ensures IsNumberText(s)
  {
    var digit := ['0' + (n % 10) as char];
    if n < 10 then digit else NatText(n / 10) + digit
  }

  function IntText(n: int): (s: string)
    ensures IsNumberText(s)
  {
    if n < 0 then "-" + NatText(-n) else NatText(n)
  }

  function ErrorNumber(code: ErrorCode): nat {
    match code
    case Success => 0
    case SendFailed => 1
    case Timeout => 2
    case AddressMismatch => 3
    case ErrorResponse => 4
    case DataMismatch => 5
    case DecodeFailed => 6
  }

  /** The names that the source writes in UTF-8; bytes of 0x80 and above and these characters are treated alike. */
  function ErrorName(code: ErrorCode): string {
    match code
    case Success => "成功"
    case SendFailed => "发送失败"
    case Timeout => "接收超时"
    case AddressMismatch => "地址不匹配"
    case ErrorResponse => "电表异常应答"
    case DataMismatch => "数据标识不匹配"
    case DecodeFailed => "数据解码失败"
  }

  // ----- numbers read back -----

  /** The number that decimal digits stand for. */
  function Decimal(s: string): int {
    if s == "" then 0 else Decimal(s[..|s| - 1]) * 10 + (s[|s| - 1] as int - '0' as int)
  }

  lemma DecimalSnoc(front: string, d: char)
    ensures Decimal(front + [d]) == Decimal(front) * 10 + (d as int - '0' as int)
  {
    assert (front + [d])[..|front|] == front;
  }

  lemma DigitIs(n: nat)
    ensures var d := '0' + (n % 10) as char; '0' <= d <= '9' && d as int - '0' as int == n % 10
  {
  }

  lemma {:induction false} NatTextReadsBack(n: nat)
    ensures var s := NatText(n);
            s != "" && (forall i :: 0 <= i < |s| ==> '0' <= s[i] <= '9') && Decimal(s) == n && (s[0] == '0' ==> n == 0)
  {
    hide Decimal;
    var d := '0' + (n % 10) as char;
    DigitIs(n);
    var front := if n < 10 then "" else NatText(n / 10);
    DecimalSnoc(front, d);
    assert NatText(n) == front + [d];
    if n >= 10 {
      NatTextReadsBack(n / 10);
    } else {
      NoDigits();
    }
  }

  lemma NoDigits()
    ensures Decimal("") == 0
  {
  }

  /** An integer is printed in decimal digits without leading zeros, behind a minus sign when it is negative. */
  lemma IntTextReadsBack(n: int)
    ensures n >= 0 ==> Decimal(IntText(n)) == n && (IntText(n)[0] == '0' ==> n == 0)
    ensures n < 0 ==> IntText(n)[0] == '-' && Decimal(IntText(n)[1..]) == -n && IntText(n)[1] != '0'
    ensures forall i :: (if n < 0 then 1 else 0) <= i < |IntText(n)| ==> '0' <= IntText(n)[i] <= '9'
  {
    NatTextReadsBack(if n < 0 then -n else n);
    if n < 0 {
      assert IntText(n)[1..] == NatText(-n);
    }
  }

  /** The number and the name that a payload gives for each failure. */
  lemma ErrorTexts()
    ensures IntText(ErrorNumber(SendFailed)) == "1" && ErrorName(SendFailed) == "发送失败"
    ensures IntText(ErrorNumber(Timeout)) == "2" && ErrorName(Timeout) == "接收超时"
    ensures IntText(ErrorNumber(AddressMismatch)) == "3" && ErrorName(AddressMismatch) == "地址不匹配"
    ensures IntText(ErrorNumber(ErrorResponse)) == "4" && ErrorName(ErrorResponse) == "电表异常应答"
    ensures IntText(ErrorNumber(DataMismatch)) == "5" && ErrorName(DataMismatch) == "数据标识不匹配"
    ensures IntText(ErrorNumber(DecodeFailed)) == "6" && ErrorName(DecodeFailed) == "数据解码失败"
    ensures IntText(ErrorNumber(Success)) == "0" && ErrorName(Success) == "成功"
  {
  }

  lemma HeadKeysPlain()
    ensures PlainKey("schema_version") && PlainKey("gateway_id") && PlainKey("meter") && PlainKey("meter_address")
    ensures PlainKey("item") && PlainKey("di") && PlainKey("ts_ms") && PlainKey("timestamp")
  {
  }

  lemma ResultKeysPlain()
    ensures PlainKey("success") && PlainKey("value") && PlainKey("unit")
    ensures PlainKey("error_code") && PlainKey("error_name") && PlainKey("message")
  {
  }

  /** A field whose value is a number. */
  function Number(key: string, text: NumberText): (m: Member)
    ensures m.key == key && (PlainKey(key) ==> ValidMember(m))
  {
    Raw(key, text)
  }

  function Truth(key: string, b: bool): (m: Member)
    ensures m.key == key && (PlainKey(key) ==> ValidMember(m))
  {
    Raw(key, if b then "true" else "false")
  }

  // ----- one item -----

  predicate Delivered(r: ItemResult) {
    r.code == Success && r.result.Some?
  }

  function HeadMembers(gateway: string, meter: string, address: string): (ms: seq<Member>)
    ensures |ms| == 4 && AllValid(ms)
  {
    HeadKeysPlain();
    [Number("schema_version", "1"), Text("gateway_id", gateway), Text("meter", meter), Text("meter_address", address)]
  }

  function ResultMembers(r: ItemResult): (ms: seq<Member>)
    ensures |ms| == 3 && AllValid(ms)
  {
    ResultKeysPlain();
    if Delivered(r) then
      [Truth("success", true), Number("value", r.result.value.value), Text("unit", r.result.value.unit)]
    else
      [Truth("success", false), Number("error_code", IntText(ErrorNumber(r.code))),
       Text("error_name", ErrorName(r.code))]
  }

  function ItemMembers(r: ItemResult): (ms: seq<Member>)
    ensures AllValid(ms)
  {
    HeadKeysPlain();
    [Text("item", r.item), Text("di", r.di)] + ResultMembers(r)
  }

  function StampMembers(stamp: Stamp): (ms: seq<Member>)
    ensures |ms| == 2 && AllValid(ms)
  {
    HeadKeysPlain();
    [Number("ts_ms", IntText(stamp.ms)), Text("timestamp", stamp.iso)]
  }

  function PayloadMembers(gateway: string, meter: string, address: string, r: ItemResult, stamp: Stamp)
    : (ms: seq<Member>)
    ensures |ms| == 11 && AllValid(ms)
  {
    HeadMembers(gateway, meter, address) + ItemMembers(r) + StampMembers(stamp)
  }

  function Payload(gateway: string, meter: string, address: string, r: ItemResult, stamp: Stamp): (s: string)
    ensures s != ""
  {
    Object(PayloadMembers(gateway, meter, address, r, stamp))
  }

  // ----- the text, appended piece by piece -----

  lemma {:induction false} FieldsSnoc(members: seq<Member>, m: Member)
    ensures Fields(members + [m]) == Fields(members) + (Rendered(m) + ",")
  {
    if members == [] {
      assert members + [m] == [m];
      assert Fields([m]) == Rendered(m) + "," + Fields([]);
    } else {
      assert (members + [m])[1..] == members[1..] + [m];
      FieldsSnoc(members[1..], m);
      Assoc(Rendered(members[0]) + ",", Fields(members[1..]), Rendered(m) + ",");
    }
  }

  /** Appends one field and the comma behind it. */
  method AppendField(out: string, ghost members: seq<Member>, m: Member) returns (r: string, ghost all: seq<Member>)
    requires out == "{" + Fields(members)
    ensures all == members + [m] && r == "{" + Fields(all)
  {
    all := members + [m];
    FieldsSnoc(members, m);
    Assoc("{", Fields(members), Rendered(m) + ",");
    if m.Text? {
      var escaped := EscapeString(m.value);
      r := out + (Quoted(m.key) + ":" + Quoted(escaped) + ",");
    } else {
      r := out + (Quoted(m.key) + ":" + m.text + ",");
    }
  }

  method AppendHead(gateway: string, meter: string, address: string) returns (out: string)
    ensures out == "{" + Fields(HeadMembers(gateway, meter, address))
  {
    ghost var all: seq<Member> := [];
    out := "{";
    assert out == "{" + Fields(all);
    out, all := AppendField(out, all, Number("schema_version", "1"));
    out, all := AppendField(out, all, Text("gateway_id", gateway));
    out, all := AppendField(out, all, Text("meter", meter));
    out, all := AppendField(out, all, Text("meter_address", address));
    assert all == HeadMembers(gateway, meter, address);
  }

  lemma ThreeMore<T>(s: seq<T>, a: T, b: T, c: T)
    ensures s + [a] + [b] + [c] == s + [a, b, c]
  {
  }

  /** The fields of one item, all but the last of which are appended; the last one is handed back. */
  method AppendItem(out: string, ghost members: seq<Member>, r: ItemResult)
    returns (text: string, ghost all: seq<Member>, last: Member)
    requires out == "{" + Fields(members)
    ensures text == "{" + Fields(all) && last.Text? && all + [last] == members + ItemMembers(r)
  {
    text, all := AppendField(out, members, Text("item", r.item));
    text, all := AppendField(text, all, Text("di", r.di));
    text, all, last := AppendResult(text, all, r);
    Assoc(members, [Text("item", r.item), Text("di", r.di)], ResultMembers(r));
    assert members + [Text("item", r.item)] + [Text("di", r.di)] == members + [Text("item", r.item), Text("di", r.di)];
  }

  method AppendResult(out: string, ghost members: seq<Member>, r: ItemResult)
    returns (text: string, ghost all: seq<Member>, last: Member)
    requires out == "{" + Fields(members)
    ensures text == "{" + Fields(all) && last.Text? && all + [last] == members + ResultMembers(r)
  {
    if r.code == Success && r.result.Some? {
      text, all := AppendField(out, members, Truth("success", true));
      text, all := AppendField(text, all, Number("value", r.result.value.value));
      last := Text("unit", r.result.value.unit);
    } else {
      text, all := AppendField(out, members, Truth("success", false));
      text, all := AppendField(text, all, Number("error_code", IntText(ErrorNumber(r.code))));
      last := Text("error_name", ErrorName(r.code));
    }
    ThreeMore(members, ResultMembers(r)[0], ResultMembers(r)[1], ResultMembers(r)[2]);
    assert ResultMembers(r) == [ResultMembers(r)[0], ResultMembers(r)[1], ResultMembers(r)[2]];
  }

  /** Closes an object with its last field, which has no comma behind it. */
  method CloseObject(out: string, ghost members: seq<Member>, last: Member) returns (text: string)
    requires out == "{" + Fields(members) && last.Text?
    ensures text == Object(members + [last])
  {
    var escaped := EscapeString(last.value);
    text := out + (Quoted(last.key) + ":" + Quoted(escaped)) + "}";
    assert (members + [last])[..|members|] == members;
  }

  method BuildPayload(gateway: string, meter: string, address: string, r: ItemResult, stamp: Stamp)
    returns (out: string)
    ensures out == Payload(gateway, meter, address, r, stamp)
  {
    ghost var all: seq<Member>;
    var last: Member;
    out := AppendHead(gateway, meter, address);
    out, all, last := AppendItem(out, HeadMembers(gateway, meter, address), r);
    out, all := AppendField(out, all, last);
    out, all := AppendField(out, all, Number("ts_ms", IntText(stamp.ms)));
    out := CloseObject(out, all, Text("timestamp", stamp.iso));
    assert PayloadMembers(gateway, meter, address, r, stamp) == all + [Text("timestamp", stamp.iso)];
  }

  // ----- the text as a whole -----

  function CommaJoined(parts: seq<string>): string {
    if parts == [] then "" else if |parts| == 1 then parts[0] else parts[0] + ("," + CommaJoined(parts[1..]))
  }

  function StringField(key: string, value: string): string {
    "\"" + key + "\":\"" + Escape(value) + "\""
  }

  function BareField(key: string, text: string): string {
    "\"" + key + "\":" + text
  }

  function RenderedAll(members: seq<Member>): (parts: seq<string>)
    ensures |parts| == |members|
  {
    seq(|members|, i requires 0 <= i < |members| => Rendered(members[i]))
  }

  lemma {:induction false} FieldsAreJoined(members: seq<Member>, last: Member)
    ensures Fields(members) + Rendered(last) == CommaJoined(RenderedAll(members) + [Rendered(last)])
  {
    hide Rendered;
    var parts := RenderedAll(members) + [Rendered(last)];
    if members == [] {
      assert parts == [Rendered(last)];
      assert Fields(members) + Rendered(last) == Rendered(last);
    } else {
      FieldsAreJoined(members[1..], last);
      assert parts[1..] == RenderedAll(members[1..]) + [Rendered(last)];
      Assoc(Rendered(members[0]) + ",", Fields(members[1..]), Rendered(last));
      Assoc(Rendered(members[0]), ",", Fields(members[1..]) + Rendered(last));
    }
  }

  lemma ObjectIsJoined(members: seq<Member>)
    requires members != []
    ensures Object(members) == "{" + CommaJoined(RenderedAll(members)) + "}"
  {
    hide Rendered, Fields, CommaJoined;
    var n := |members| - 1;
    FieldsAreJoined(members[..n], members[n]);
    assert RenderedAll(members) == RenderedAll(members[..n]) + [Rendered(members[n])];
    Assoc("{", Fields(members[..n]), Rendered(members[n]));
  }

  lemma RenderedField(m: Member)
    ensures Rendered(m) == if m.Text? then StringField(m.key, m.value) else BareField(m.key, m.text)
  {
    hide Escape;
    if m.Text? {
      var v := "\"" + Escape(m.value) + "\"";
      assert "\"" + m.key + "\":\"" == "\"" + m.key + "\"" + ":" + "\"";
      assert Rendered(m) == "\"" + m.key + "\"" + ":" + v;
    }
  }

  /** The fields of one result: a success has a value and a unit, a failure a number and a name. */
  function OutcomeTexts(r: ItemResult): seq<string> {
    if r.code == Success && r.result.Some? then
      [BareField("success", "true"), BareField("value", r.result.value.value), StringField("unit", r.result.value.unit)]
    else
      [BareField("success", "false"), BareField("error_code", IntText(ErrorNumber(r.code))),
       StringField("error_name", ErrorName(r.code))]
  }

  function HeadTexts(gateway: string, meter: string, address: string): seq<string> {
    [BareField("schema_version", "1"), StringField("gateway_id", gateway), StringField("meter", meter),
     StringField("meter_address", address)]
  }

  function ItemTexts(r: ItemResult): seq<string> {
    [StringField("item", r.item), StringField("di", r.di)] + OutcomeTexts(r)
  }

  function StampTexts(stamp: Stamp): seq<string> {
    [BareField("ts_ms", IntText(stamp.ms)), StringField("timestamp", stamp.iso)]
  }

  lemma RenderedConcat(a: seq<Member>, b: seq<Member>)
    ensures RenderedAll(a + b) == RenderedAll(a) + RenderedAll(b)
  {
    hide Rendered;
  }

  lemma HeadRendered(gateway: string, meter: string, address: string)
    ensures RenderedAll(HeadMembers(gateway, meter, address)) == HeadTexts(gateway, meter, address)
  {
    hide Rendered, StringField, BareField;
    var ms := HeadMembers(gateway, meter, address);
    RenderedField(ms[0]);
    RenderedField(ms[1]);
    RenderedField(ms[2]);
    RenderedField(ms[3]);
  }

  lemma ItemRendered(r: ItemResult)
    ensures RenderedAll(ItemMembers(r)) == ItemTexts(r)
  {
    hide Rendered, StringField, BareField, IntText, ErrorName;
    var ms := ItemMembers(r);
    RenderedField(ms[0]);
    RenderedField(ms[1]);
    RenderedField(ms[2]);
    RenderedField(ms[3]);
    RenderedField(ms[4]);
  }

  lemma StampRendered(stamp: Stamp)
    ensures RenderedAll(StampMembers(stamp)) == StampTexts(stamp)
  {
    hide Rendered, StringField, BareField, IntText;
    var ms := StampMembers(stamp);
    RenderedField(ms[0]);
    RenderedField(ms[1]);
  }

  /** The whole text of an item payload, field by field. */
  lemma PayloadText(gateway: string, meter: string, address: string, r: ItemResult, stamp: Stamp)
    ensures Payload(gateway, meter, address, r, stamp) ==
            "{" + CommaJoined(HeadTexts(gateway, meter, address) + ItemTexts(r) + StampTexts(stamp)) + "}"
  {
    hide Object, CommaJoined, RenderedAll, HeadMembers, ItemMembers, StampMembers, HeadTexts, ItemTexts, StampTexts;
    var head, item, at := HeadMembers(gateway, meter, address), ItemMembers(r), StampMembers(stamp);
    ObjectIsJoined(head + item + at);
    RenderedConcat(head + item, at);
    RenderedConcat(head, item);
    HeadRendered(gateway, meter, address);
    ItemRendered(r);
    StampRendered(stamp);
  }

  // ----- the payload read back -----

  /** What a lookup of `key` in `text` yields for a field written as `value`. */
  predicate ReadsAs(text: string, key: string, value: string) {
    Lookup(text, Quoted(key)) == Some(Visible(value))
  }

  predicate Absent(text: string, key: string) {
    Lookup(text, Quoted(key)) == None
  }

  lemma {:induction false} FirstAnswerAt(members: seq<Member>, key: string, otherwise: Option<string>, i: nat)
    requires i < |members| && members[i].key == key
    requires forall j :: 0 <= j < i ==> members[j].key != key
    ensures FirstAnswer(members, key, otherwise) == Answer(members[i])
  {
    if i > 0 {
      FirstAnswerAt(members[1..], key, otherwise, i - 1);
    }
  }

  lemma {:induction false} NoAnswer(members: seq<Member>, key: string, otherwise: Option<string>)
    requires forall j :: 0 <= j < |members| ==> members[j].key != key
    ensures FirstAnswer(members, key, otherwise) == otherwise
  {
    if members != [] {
      NoAnswer(members[1..], key, otherwise);
    }
  }

  lemma FieldReadsAs(members: seq<Member>, i: nat)
    requires AllValid(members) && i < |members| && members[i].Text?
    requires forall j :: 0 <= j < i ==> members[j].key != members[i].key
    ensures ReadsAs(Object(members), members[i].key, members[i].value)
  {
    LookupInObject(members, members[i].key);
    FirstAnswerAt(members, members[i].key, None, i);
  }

  lemma KeyAbsent(members: seq<Member>, key: string)
    requires members != [] && AllValid(members) && PlainKey(key)
    requires forall j :: 0 <= j < |members| ==> members[j].key != key
    ensures Absent(Object(members), key)
  {
    LookupInObject(members, key);
    NoAnswer(members, key, None);
  }

  /**
   Every text field of a payload is read back from it, whatever the fields contain, up to control
   characters without a short escape; the unit is there exactly in success payloads.
   */
  lemma PayloadRoundTrip(gateway: string, meter: string, address: string, r: ItemResult, stamp: Stamp)
    ensures var p := Payload(gateway, meter, address, r, stamp);
            ReadsAs(p, "gateway_id", gateway) && ReadsAs(p, "meter", meter) && ReadsAs(p, "meter_address", address) &&
            ReadsAs(p, "item", r.item) && ReadsAs(p, "di", r.di) && ReadsAs(p, "timestamp", stamp.iso) &&
            (if Delivered(r) then ReadsAs(p, "unit", r.result.value.unit) && Absent(p, "error_name")
             else ReadsAs(p, "error_name", ErrorName(r.code)) && Absent(p, "unit"))
  {
    HeadReadBack(gateway, meter, address, r, stamp);
    AddressReadBack(gateway, meter, address, r, stamp);
    ItemReadBack(gateway, meter, address, r, stamp);
    IdentifierReadBack(gateway, meter, address, r, stamp);
    ResultReadBack(gateway, meter, address, r, stamp);
    StampReadBack(gateway, meter, address, r, stamp);
    OtherResultAbsent(gateway, meter, address, r, stamp);
  }

  lemma HeadReadBack(gateway: string, meter: string, address: string, r: ItemResult, stamp: Stamp)
    ensures var p := Payload(gateway, meter, address, r, stamp);
            ReadsAs(p, "gateway_id", gateway) && ReadsAs(p, "meter", meter)
  {
    hide Object, ReadsAs, IntText, ErrorName;
    var members := PayloadMembers(gateway, meter, address, r, stamp);
    FieldReadsAs(members, 1);
    FieldReadsAs(members, 2);
  }

  lemma AddressReadBack(gateway: string, meter: string, address: string, r: ItemResult, stamp: Stamp)
    ensures ReadsAs(Payload(gateway, meter, address, r, stamp), "meter_address", address)
  {
    hide Object, ReadsAs, IntText, ErrorName;
    FieldReadsAs(PayloadMembers(gateway, meter, address, r, stamp), 3);
  }

  lemma ItemReadBack(gateway: string, meter: string, address: string, r: ItemResult, stamp: Stamp)
    ensures ReadsAs(Payload(gateway, meter, address, r, stamp), "item", r.item)
  {
    hide Object, ReadsAs, IntText, ErrorName;
    FieldReadsAs(PayloadMembers(gateway, meter, address, r, stamp), 4);
  }

  lemma IdentifierReadBack(gateway: string, meter: string, address: string, r: ItemResult, stamp: Stamp)
    ensures ReadsAs(Payload(gateway, meter, address, r, stamp), "di", r.di)
  {
    hide Object, ReadsAs, IntText, ErrorName;
    FieldReadsAs(PayloadMembers(gateway, meter, address, r, stamp), 5);
  }

  lemma StampReadBack(gateway: string, meter: string, address: string, r: ItemResult, stamp: Stamp)
    ensures ReadsAs(Payload(gateway, meter, address, r, stamp), "timestamp", stamp.iso)
  {
    hide Object, ReadsAs, IntText, ErrorName;
    var members := PayloadMembers(gateway, meter, address, r, stamp);
    assert forall j :: 0 <= j < 10 ==> |members[j].key| != 9;
    assert members[10].key == "timestamp" && |members[10].key| == 9;
    FieldReadsAs(members, 10);
  }

  lemma ResultReadBack(gateway: string, meter: string, address: string, r: ItemResult, stamp: Stamp)
    ensures var p := Payload(gateway, meter, address, r, stamp);
            if Delivered(r) then ReadsAs(p, "unit", r.result.value.unit)
            else ReadsAs(p, "error_name", ErrorName(r.code))
  {
    hide Object, ReadsAs, IntText, ErrorName;
    FieldReadsAs(PayloadMembers(gateway, meter, address, r, stamp), 8);
  }

  lemma OtherResultAbsent(gateway: string, meter: string, address: string, r: ItemResult, stamp: Stamp)
    ensures Absent(Payload(gateway, meter, address, r, stamp), if Delivered(r) then "error_name" else "unit")
  {
    hide Object, Absent, PlainKey;
    ResultKeysPlain();
    var key := if Delivered(r) then "error_name" else "unit";
    NotInHead(gateway, meter, address, r, key);
    NotInRest(r, stamp, key);
    var head := HeadMembers(gateway, meter, address) + [Text("item", r.item), Text("di", r.di)];
    assert PayloadMembers(gateway, meter, address, r, stamp) == head + (ResultMembers(r) + StampMembers(stamp));
    KeyAbsent(head + (ResultMembers(r) + StampMembers(stamp)), key);
  }

  predicate Lacks(members: seq<Member>, key: string) {
    forall j :: 0 <= j < |members| ==> members[j].key != key
  }

  lemma NotInHead(gateway: string, meter: string, address: string, r: ItemResult, key: string)
    requires key in ["error_name", "unit"]
    ensures Lacks(HeadMembers(gateway, meter, address) + [Text("item", r.item), Text("di", r.di)], key)
  {
    assert "gateway_id"[0] != "error_name"[0] && "item"[0] != "unit"[0];
  }

  lemma NotInRest(r: ItemResult, stamp: Stamp, key: string)
    requires key == if Delivered(r) then "error_name" else "unit"
    ensures Lacks(ResultMembers(r) + StampMembers(stamp), key)
  {
    hide IntText, ErrorName;
    assert "error_code"[6] != "error_name"[6];
  }

  /** A field comes back unchanged exactly when its only control characters are \b \f \n \r \t. */
  lemma UnchangedIffReadable(text: string, key: string, value: string)
    requires ReadsAs(text, key, value)
    ensures Lookup(text, Quoted(key)) == Some(value) <==> Readable(value)
  {
    VisibleIffReadable(value);
  }

  lemma {:induction false} FieldsConcat(a: seq<Member>, b: seq<Member>)
    ensures Fields(a + b) == Fields(a) + Fields(b)
  {
    if a == [] {
      assert a + b == b;
    } else {
      assert (a + b)[1..] == a[1..] + b;
      FieldsConcat(a[1..], b);
      Assoc(Rendered(a[0]) + ",", Fields(a[1..]), Fields(b));
    }
  }

  lemma ObjectBegins(a: seq<Member>, b: seq<Member>)
    requires b != []
    ensures "{" + Fields(a) <= Object(a + b)
  {
    hide Rendered, Fields;
    var n := |b| - 1;
    assert (a + b)[..|a + b| - 1] == a + b[..n];
    FieldsConcat(a, b[..n]);
    var tail := Rendered((a + b)[|a + b| - 1]);
    assert Object(a + b) == "{" + (Fields(a) + Fields(b[..n])) + tail + "}";
    assert Object(a + b) == ("{" + Fields(a)) + (Fields(b[..n]) + tail + "}");
  }

  /** The fields whose values are no strings, which the reader passes over: they are written as given. */
  function OutcomeMembers(r: ItemResult): seq<Member> {
    if Delivered(r) then [Raw("success", "true"), Raw("value", r.result.value.value)]
    else [Raw("success", "false"), Raw("error_code", IntText(ErrorNumber(r.code)))]
  }

  /** A payload begins with its head, the item, its identifier, and then the outcome and the printed value. */
  lemma PayloadBegins(gateway: string, meter: string, address: string, r: ItemResult, stamp: Stamp)
    ensures "{" + Fields(HeadMembers(gateway, meter, address) +
                         [Text("item", r.item), Text("di", r.di)] + OutcomeMembers(r))
         <= Payload(gateway, meter, address, r, stamp)
  {
    hide Object, Fields, IntText, ErrorName;
    var front := HeadMembers(gateway, meter, address) + [Text("item", r.item), Text("di", r.di)] + OutcomeMembers(r);
    var members := PayloadMembers(gateway, meter, address, r, stamp);
    assert members == front + members[8..];
    ObjectBegins(front, members[8..]);
  }

  // ----- batch payloads -----

  function ItemObjects(items: seq<ItemResult>): string {
    if items == [] then ""
    else
      var n := |items| - 1;
      (if n == 0 then "" else ItemObjects(items[..n]) + ",") + Object(ItemMembers(items[n]))
  }

  function BatchHead(gateway: string, meter: string, address: string, stamp: Stamp): (ms: seq<Member>)
    ensures AllValid(ms)
  {
    HeadMembers(gateway, meter, address) + StampMembers(stamp)
  }

  function BatchPayload(gateway: string, meter: string, address: string, items: seq<ItemResult>, stamp: Stamp): string {
    "{" + Fields(BatchHead(gateway, meter, address, stamp)) + ("\"items\":[" + ItemObjects(items) + "]}")
  }

  function ItemObjectTexts(items: seq<ItemResult>): (parts: seq<string>)
    ensures |parts| == |items|
  {
    seq(|items|, k requires 0 <= k < |items| => "{" + CommaJoined(ItemTexts(items[k])) + "}")
  }

  lemma {:induction false} JoinedSnoc(parts: seq<string>, last: string)
    requires parts != []
    ensures CommaJoined(parts + [last]) == CommaJoined(parts) + "," + last
  {
    if |parts| == 1 {
      assert (parts + [last])[1..] == [last];
      assert CommaJoined([last]) == last;
      assert parts[0] + ("," + last) == parts[0] + "," + last;
    } else {
      JoinedSnoc(parts[1..], last);
      assert (parts + [last])[1..] == parts[1..] + [last];
      var rest := CommaJoined(parts[1..]);
      assert parts[0] + ("," + (rest + "," + last)) == parts[0] + ("," + rest) + "," + last;
    }
  }

  lemma {:induction false} ItemObjectsAreJoined(items: seq<ItemResult>)
    ensures ItemObjects(items) == CommaJoined(ItemObjectTexts(items))
  {
    hide Object, ItemMembers, ItemTexts;
    if items != [] {
      var n := |items| - 1;
      var parts := ItemObjectTexts(items[..n]);
      ItemObjectsAreJoined(items[..n]);
      ItemObjectText(items[n]);
      assert ItemObjectTexts(items) == parts + ["{" + CommaJoined(ItemTexts(items[n])) + "}"];
      if n > 0 {
        JoinedSnoc(parts, "{" + CommaJoined(ItemTexts(items[n])) + "}");
      }
    }
  }

  lemma ItemObjectText(r: ItemResult)
    ensures Object(ItemMembers(r)) == "{" + CommaJoined(ItemTexts(r)) + "}"
  {
    hide Object, CommaJoined, RenderedAll, ItemTexts;
    ObjectIsJoined(ItemMembers(r));
    ItemRendered(r);
  }

  /** The whole text of a batch: its head, and as many objects as items, the kth with the fields of the kth item. */
  lemma BatchText(gateway: string, meter: string, address: string, items: seq<ItemResult>, stamp: Stamp)
    ensures BatchPayload(gateway, meter, address, items, stamp) ==
            "{" + CommaJoined(HeadTexts(gateway, meter, address) + StampTexts(stamp)) + ",\"items\":[" +
            CommaJoined(ItemObjectTexts(items)) + "]}"
  {
    hide CommaJoined, RenderedAll, HeadMembers, StampMembers, HeadTexts, StampTexts, ItemObjects, ItemObjectTexts;
    hide Fields, Rendered;
    var head, at := HeadMembers(gateway, meter, address), StampMembers(stamp);
    var all := head + at;
    ItemObjectsAreJoined(items);
    RenderedConcat(head, at);
    HeadRendered(gateway, meter, address);
    StampRendered(stamp);
    FieldsBeforeComma(all);
    var joined, objects := CommaJoined(RenderedAll(all)), ItemObjects(items);
    assert "{" + (joined + ",") + ("\"items\":[" + objects + "]}") == "{" + joined + ",\"items\":[" + objects + "]}";
  }

  lemma FieldsBeforeComma(members: seq<Member>)
    requires members != []
    ensures Fields(members) == CommaJoined(RenderedAll(members)) + ","
  {
    hide Rendered, CommaJoined;
    var n := |members| - 1;
    FieldsSnoc(members[..n], members[n]);
    FieldsAreJoined(members[..n], members[n]);
    assert members == members[..n] + [members[n]];
    assert RenderedAll(members) == RenderedAll(members[..n]) + [Rendered(members[n])];
    Assoc(Fields(members[..n]), Rendered(members[n]), ",");
  }

  method BuildBatchPayload(gateway: string, meter: string, address: string, items: seq<ItemResult>, stamp: Stamp)
    returns (out: string)
    ensures out == BatchPayload(gateway, meter, address, items, stamp)
  {
    ghost var all := HeadMembers(gateway, meter, address);
    out := AppendHead(gateway, meter, address);
    out, all := AppendField(out, all, Number("ts_ms", IntText(stamp.ms)));
    out, all := AppendField(out, all, Text("timestamp", stamp.iso));
    assert all == BatchHead(gateway, meter, address, stamp);
    ghost var head := out;
    out := out + "\"items\":[";
    ghost var open := out;
    for i := 0 to |items|
      invariant out == open + ItemObjects(items[..i])
    {
      ItemObjectsSnoc(items, i);
      ghost var before := ItemObjects(items[..i]);
      if i > 0 {
        out := out + ",";
        Assoc(open, before, ",");
      }
      var item := BuildItemObject(items[i]);
      Assoc(open, if i > 0 then before + "," else before, item);
      out := out + item;
    }
    assert items[..|items|] == items;
    out := out + "]}";
    Assoc(head, "\"items\":[", ItemObjects(items));
    Assoc(head, "\"items\":[" + ItemObjects(items), "]}");
  }

  lemma ItemObjectsSnoc(items: seq<ItemResult>, i: nat)
    requires i < |items|
    ensures ItemObjects(items[..i + 1]) ==
            (if i > 0 then ItemObjects(items[..i]) + "," else ItemObjects(items[..i])) + Object(ItemMembers(items[i]))
  {
    assert items[..i + 1][..i] == items[..i];
  }

  method BuildItemObject(r: ItemResult) returns (text: string)
    ensures text == Object(ItemMembers(r))
  {
    text := "{";
    assert text == "{" + Fields([]);
    ghost var members;
    var last;
    text, members, last := AppendItem(text, [], r);
    text := CloseObject(text, members, last);
    assert [] + ItemMembers(r) == ItemMembers(r);
  }

  /** In a batch payload too the gateway, the meter and its address are read back, whatever the items contain. */
  lemma BatchHeadRoundTrip(gateway: string, meter: string, address: string, items: seq<ItemResult>, stamp: Stamp)
    ensures var p := BatchPayload(gateway, meter, address, items, stamp);
            ReadsAs(p, "gateway_id", gateway) && ReadsAs(p, "meter", meter) &&
            ReadsAs(p, "meter_address", address) && ReadsAs(p, "timestamp", stamp.iso)
  {
    hide Fields, ReadsAs, IntText, ItemObjects;
    var head := BatchHead(gateway, meter, address, stamp);
    var rest := "\"items\":[" + ItemObjects(items) + "]}";
    HeadReadsAs(head, rest, 1);
    HeadReadsAs(head, rest, 2);
    HeadReadsAs(head, rest, 3);
    HeadReadsAs(head, rest, 5);
  }

  lemma HeadReadsAs(members: seq<Member>, rest: string, i: nat)
    requires AllValid(members) && i < |members| && members[i].Text?
    requires forall j :: 0 <= j < i ==> members[j].key != members[i].key
    ensures ReadsAs("{" + Fields(members) + rest, members[i].key, members[i].value)
  {
    LookupInOpenObject(members, rest, members[i].key);
    FirstAnswerAt(members, members[i].key, Lookup(rest, Quoted(members[i].key)), i);
  }
}
