/**
 Writing JSON strings (section 7 of RFC 8259) and reading one string field back out of JSON text.
 The reader is a substring search for the quoted key followed by an unescaping loop.
 */
module JsonText {
  import opened Bytes

  const BACKSPACE: char := 8 as char
  const TAB: char := 9 as char
  const LINE_FEED: char := 10 as char
  const FORM_FEED: char := 12 as char
  const RETURN: char := 13 as char

  predicate IsSpace(c: char) {
    c == ' ' || 9 <= c as int <= 13
  }

  // ----- escaping -----

  function HexDigit(n: nat): char
    requires n < 16
  {
    if n < 10 then '0' + n as char else 'a' + (n - 10) as char
  }

  function EscapeChar(c: char): string {
    if c == '"' then "\\\""
    else if c == '\\' then "\\\\"
    else if c == BACKSPACE then "\\b"
    else if c == FORM_FEED then "\\f"
    else if c == LINE_FEED then "\\n"
    else if c == RETURN then "\\r"
    else if c == TAB then "\\t"
    else if c as int < 0x20 then "\\u00" + [HexDigit(c as int / 16), HexDigit(c as int % 16)]
    else [c]
  }

  function Escape(s: string): string {
    if s == "" then "" else EscapeChar(s[0]) + Escape(s[1..])
  }

  method EscapeString(s: string) returns (o: string)
    ensures o == Escape(s)
  {
    o := "";
    for i := 0 to |s|
      invariant o + Escape(s[i..]) == Escape(s)
    {
      assert s[i..][1..] == s[i + 1..];
      Assoc(o, EscapeChar(s[i]), Escape(s[i + 1..]));
      o := o + EscapeChar(s[i]);
    }
  }

  // ----- unescaping -----

  function Prepend(c: char, rest: Option<string>): Option<string> {
    if rest.None? then None else Some([c] + rest.value)
  }

  /** The character that an escape letter other than `u` stands for; unknown letters stand for themselves. */
  function EscapeMeaning(e: char): char {
    if e == 'b' then BACKSPACE
    else if e == 'f' then FORM_FEED
    else if e == 'n' then LINE_FEED
    else if e == 'r' then RETURN
    else if e == 't' then TAB
    else e
  }

  /** The string that ends at the first unescaped quote; `\u` and up to four characters are dropped. */
  function Unescape(s: string): Option<string>
    decreases |s|
  {
    if s == "" then None
    else if s[0] == '"' then Some("")
    else if s[0] == '\\' && |s| >= 2 then
      if s[1] == 'u' then Unescape(s[if |s| < 6 then |s| else 6..])
      else Prepend(EscapeMeaning(s[1]), Unescape(s[2..]))
    else Prepend(s[0], Unescape(s[1..]))
  }

  // ----- looking a key up -----

  function SkipSpace(s: string): string
    decreases |s|
  {
    if s != "" && IsSpace(s[0]) then SkipSpace(s[1..]) else s
  }

  function Quoted(key: string): (q: string)
    ensures q != ""
  {
    "\"" + key + "\""
  }

  /** The string that follows a colon; None when something else does. */
  function FieldValue(s: string): Option<string> {
    var value := SkipSpace(s);
    if value == "" || value[0] != '"' then None else Unescape(value[1..])
  }

  /** The value behind the first quoted key that a colon follows; None also when that value is not a string. */
  function Lookup(s: string, quoted: string): Option<string>
    requires quoted != ""
    decreases |s|
  {
    if s == "" then None
    else if quoted <= s then
      var rest := SkipSpace(s[|quoted|..]);
      if rest == "" || rest[0] != ':' then Lookup(s[|quoted|..], quoted) else FieldValue(rest[1..])
    else Lookup(s[1..], quoted)
  }

  /** The first position at `pos` or later where `pattern` occurs. */
  method Find(s: string, pattern: string, pos: nat) returns (r: Option<nat>)
    requires pos <= |s| && pattern != ""
    ensures r.Some? ==> pos <= r.value < |s| && pattern <= s[r.value..] &&
                        Lookup(s[pos..], pattern) == Lookup(s[r.value..], pattern)
    ensures r.None? ==> Lookup(s[pos..], pattern) == None
  {
    var i := pos;
    while i < |s|
      invariant pos <= i <= |s|
      invariant Lookup(s[pos..], pattern) == Lookup(s[i..], pattern)
    {
      if pattern <= s[i..] {
        return Some(i);
      }
      assert s[i..][1..] == s[i + 1..];
      i := i + 1;
    }
    return None;
  }

  method SkipSpaceFrom(s: string, i: nat) returns (j: nat)
    requires i <= |s|
    ensures i <= j <= |s| && SkipSpace(s[i..]) == s[j..]
  {
    j := i;
    while j < |s| && IsSpace(s[j])
      invariant i <= j <= |s|
      invariant SkipSpace(s[i..]) == SkipSpace(s[j..])
    {
      assert s[j..][1..] == s[j + 1..];
      j := j + 1;
    }
  }

  method GetString(json: string, key: string) returns (r: Option<string>)
    ensures r == Lookup(json, Quoted(key))
  {
    hide Lookup, Unescape;
    var quoted := Quoted(key);
    var pos := 0;
    LookupEmpty(quoted);
    assert json[0..] == json;
    while pos < |json|
      invariant 0 <= pos <= |json|
      invariant Lookup(json, quoted) == Lookup(json[pos..], quoted)
    {
      var found := Find(json, quoted, pos);
      if found.None? {
        return None;
      }
      pos := found.value;
      LookupAt(json, quoted, pos);
      pos := pos + |quoted|;
      var i := SkipSpaceFrom(json, pos);
      if i < |json| && json[i] == ':' {
        ghost var rest := json[i..];
        assert rest[0] == ':' && rest[1..] == json[i + 1..];
        r := ReadField(json, i + 1);
        assert r == FieldValue(rest[1..]) == Lookup(json, quoted);
        return;
      }
    }
    assert json[pos..] == "";
    return None;
  }

  lemma LookupEmpty(quoted: string)
    requires quoted != ""
    ensures Lookup("", quoted) == None
  {
  }

  lemma LookupAt(json: string, quoted: string, pos: nat)
    requires quoted != "" && pos <= |json| && quoted <= json[pos..]
    ensures var rest := SkipSpace(json[pos + |quoted|..]);
            Lookup(json[pos..], quoted) ==
            if rest == "" || rest[0] != ':' then Lookup(json[pos + |quoted|..], quoted) else FieldValue(rest[1..])
  {
    assert json[pos..][|quoted|..] == json[pos + |quoted|..];
  }

  method ReadField(json: string, start: nat) returns (r: Option<string>)
    requires start <= |json|
    ensures r == FieldValue(json[start..])
  {
    var i := SkipSpaceFrom(json, start);
    if i >= |json| || json[i] != '"' {
      return None;
    }
    assert json[i..][1..] == json[i + 1..];
    r := ReadString(json, i + 1);
  }

  /** The unescaping loop, from just behind the opening quote. */
  method ReadString(json: string, start: nat) returns (r: Option<string>)
    requires start <= |json|
    ensures r == Unescape(json[start..])
  {
    var out := "";
    var i := start;
    JoinedNothing(Unescape(json[start..]));
    while i < |json|
      invariant start <= i <= |json|
      invariant Unescape(json[start..]) == Joined(out, Unescape(json[i..]))
    {
      var c := json[i];
      ghost var s := json[i..];
      i := i + 1;
      assert s[1..] == json[i..];
      if c == '"' {
        assert out + "" == out;
        return Some(out);
      }
      if c == '\\' && i < |json| {
        var e := json[i];
        i := i + 1;
        assert s[2..] == json[i..];
        if e == 'u' {
          var k := 0;
          ghost var from := i;
          while k < 4 && i < |json|
            invariant 0 <= k <= 4 && i == from + k <= |json|
          {
            i := i + 1;
            k := k + 1;
          }
          assert s[if |s| < 6 then |s| else 6..] == json[i..];
        } else {
          JoinedPrepend(out, EscapeMeaning(e), Unescape(json[i..]));
          out := out + [EscapeMeaning(e)];
        }
      } else {
        JoinedPrepend(out, c, Unescape(json[i..]));
        out := out + [c];
      }
    }
    return None;
  }

  function Joined(out: string, rest: Option<string>): Option<string> {
    if rest.None? then None else Some(out + rest.value)
  }

  lemma JoinedNothing(r: Option<string>)
    ensures Joined("", r) == r
  {
    if r.Some? {
      assert "" + r.value == r.value;
    }
  }

  lemma JoinedPrepend(out: string, c: char, r: Option<string>)
    ensures Joined(out, Prepend(c, r)) == Joined(out + [c], r)
  {
    if r.Some? {
      Assoc(out, [c], r.value);
    }
  }
}
