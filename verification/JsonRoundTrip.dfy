/** Why the substring search always finds the right field in the objects that the gateway writes. */
module JsonRoundTrip {
  import opened Bytes
  import opened JsonText

  // ----- strings survive escaping and unescaping -----

  /** The control characters that have a two-character escape. */
  predicate HasShortEscape(c: char) {
    c == BACKSPACE || c == FORM_FEED || c == LINE_FEED || c == RETURN || c == TAB
  }

  /** All control characters are among \b \f \n \r \t. */
  predicate Readable(s: string) {
    forall i :: 0 <= i < |s| ==> s[i] as int >= 0x20 || HasShortEscape(s[i])
  }

  /** What the reader sees of a string: the other control characters vanish. */
  function Visible(s: string): string {
    if s == "" then ""
    else if s[0] as int < 0x20 && !HasShortEscape(s[0]) then Visible(s[1..])
    else [s[0]] + Visible(s[1..])
  }

  lemma {:induction false} VisibleIffReadable(s: string)
    ensures |Visible(s)| <= |s|
    ensures Visible(s) == s <==> Readable(s)
  {
    if s != "" {
      VisibleIffReadable(s[1..]);
      assert s == [s[0]] + s[1..];
      if s[0] as int < 0x20 && !HasShortEscape(s[0]) {
        assert |Visible(s)| < |s|;
      } else {
        assert Visible(s)[1..] == Visible(s[1..]);
        assert Readable(s[1..]) ==> Readable(s) by {
          assert forall i :: 1 <= i < |s| ==> s[i] == s[1..][i - 1];
        }
      }
    }
  }

  lemma {:induction false} UnescapeEscape(s: string, rest: string)
    ensures Unescape(Escape(s) + ("\"" + rest)) == Some(Visible(s))
  {
    var tail := "\"" + rest;
    if s == "" {
      assert Escape(s) + tail == tail;
    } else {
      UnescapeEscape(s[1..], rest);
      Assoc(EscapeChar(s[0]), Escape(s[1..]), tail);
      UnescapeOne(s[0], Escape(s[1..]) + tail);
    }
  }

  lemma UnescapeOne(c: char, rest: string)
    requires rest != ""
    ensures Unescape(EscapeChar(c) + rest) ==
            if c as int < 0x20 && !HasShortEscape(c) then Unescape(rest) else Prepend(c, Unescape(rest))
  {
    var e := EscapeChar(c);
    var s := e + rest;
    assert s[|e|..] == rest;
    assert forall i :: 0 <= i < |e| ==> s[i] == e[i];
  }

  // ----- strings as RFC 8259 has them -----

  /** The parts of a JSON string: a character as it is, a two-character escape, or \u and four digits. */
  datatype Piece = Plain(c: char) | Short(letter: char) | Unicode(digits: string)

  /** The character that an escape letter of section 7 of RFC 8259 stands for; -1 for other letters. */
  function ShortMeant(letter: char): int {
    if letter == '"' || letter == '\\' || letter == '/' then letter as int
    else if letter == 'b' then 0x08
    else if letter == 'f' then 0x0C
    else if letter == 'n' then 0x0A
    else if letter == 'r' then 0x0D
    else if letter == 't' then 0x09
    else -1
  }

  predicate HexDigits(digits: string) {
    |digits| == 4 && forall i :: 0 <= i < 4 ==> digits[i] in "0123456789abcdefABCDEF"
  }

  predicate InJson(p: Piece) {
    match p
    case Plain(c) => c as int >= 0x20 && c != '"' && c != '\\'
    case Short(letter) => ShortMeant(letter) >= 0
    case Unicode(digits) => HexDigits(digits)
  }

  predicate IsJson(ps: seq<Piece>) {
    forall i :: 0 <= i < |ps| ==> InJson(ps[i])
  }

  function Spelled(p: Piece): string {
    match p
    case Plain(c) => [c]
    case Short(letter) => ['\\', letter]
    case Unicode(digits) => ['\\', 'u'] + digits
  }

  function Spelling(ps: seq<Piece>): string {
    if ps == [] then "" else Spelled(ps[0]) + Spelling(ps[1..])
  }

  function HexIs(d: char): int {
    if '0' <= d <= '9' then d as int - '0' as int
    else if 'a' <= d <= 'f' then d as int - 'a' as int + 10
    else d as int - 'A' as int + 10
  }

  /** The code unit that a piece stands for. */
  function Meant(p: Piece): int
    requires InJson(p)
  {
    match p
    case Plain(c) => c as int
    case Short(letter) => ShortMeant(letter)
    case Unicode(d) => HexIs(d[0]) * 0x1000 + HexIs(d[1]) * 0x100 + HexIs(d[2]) * 0x10 + HexIs(d[3])
  }

  /** How one character can be written. */
  function Written(c: char): Piece {
    var n := c as int;
    if n == 0x22 || n == 0x5C then Short(c)
    else if n == 0x08 then Short('b')
    else if n == 0x09 then Short('t')
    else if n == 0x0A then Short('n')
    else if n == 0x0C then Short('f')
    else if n == 0x0D then Short('r')
    else if n < 0x20 then Unicode(['0', '0', HexDigit(n / 16), HexDigit(n % 16)])
    else Plain(c)
  }

  lemma HexDigitIs(n: nat)
    requires n < 16
    ensures HexIs(HexDigit(n)) == n && HexDigit(n) in "0123456789abcdefABCDEF"
  {
    assert HexDigit(n) == "0123456789abcdefABCDEF"[n];
  }

  lemma ControlMeans(n: nat)
    requires n < 0x20
    ensures var p := Unicode(['0', '0', HexDigit(n / 16), HexDigit(n % 16)]); InJson(p) && Meant(p) == n
  {
    hide HexDigit, HexIs;
    HexDigitIs(n / 16);
    HexDigitIs(n % 16);
    HexDigitIs(0);
    ZeroDigit();
  }

  lemma WrittenMeans(c: char)
    ensures InJson(Written(c)) && Meant(Written(c)) == c as int && Spelled(Written(c)) == EscapeChar(c)
  {
    hide HexDigit, HexIs, HexDigits;
    if c as int < 0x20 {
      ControlMeans(c as int);
    }
  }

  lemma ZeroDigit()
    ensures HexDigit(0) == '0'
  {
  }

  /** Every escaped string is a JSON string, and it means exactly the string given, character by character. */
  lemma {:induction false} WritesJson(s: string) returns (ps: seq<Piece>)
    ensures Escape(s) == Spelling(ps) && IsJson(ps)
    ensures |ps| == |s| && forall i :: 0 <= i < |s| ==> Meant(ps[i]) == s[i] as int
  {
    hide InJson, Meant, Spelled, EscapeChar, Written;
    if s == "" {
      ps := [];
    } else {
      var rest := WritesJson(s[1..]);
      WrittenMeans(s[0]);
      ps := [Written(s[0])] + rest;
      assert ps[1..] == rest;
    }
  }

  /** What the reader makes of a piece: \u escapes vanish. */
  function Heard(ps: seq<Piece>): string
    requires IsJson(ps)
  {
    if ps == [] then ""
    else (if ps[0].Unicode? then "" else [Meant(ps[0]) as char]) + Heard(ps[1..])
  }

  lemma HearsOne(p: Piece, rest: string)
    requires InJson(p)
    ensures Unescape(Spelled(p) + rest) ==
            if p.Unicode? then Unescape(rest) else Prepend(Meant(p) as char, Unescape(rest))
  {
    var e := Spelled(p);
    var s := e + rest;
    assert s[|e|..] == rest;
    assert forall i :: 0 <= i < |e| ==> s[i] == e[i];
  }

  /** Every JSON string is read as what it means, up to \u escapes, and nothing is read without its closing quote. */
  lemma {:induction false} ReadsJson(ps: seq<Piece>, rest: string)
    requires IsJson(ps)
    ensures Unescape(Spelling(ps) + ("\"" + rest)) == Some(Heard(ps))
    ensures Unescape(Spelling(ps)) == None
  {
    hide InJson, Meant, Spelled;
    var tail := "\"" + rest;
    if ps == [] {
      assert Spelling(ps) + tail == tail;
    } else {
      ReadsJson(ps[1..], rest);
      Assoc(Spelled(ps[0]), Spelling(ps[1..]), tail);
      assert "" + Heard(ps[1..]) == Heard(ps[1..]);
      HearsOne(ps[0], Spelling(ps[1..]) + tail);
      HearsOne(ps[0], Spelling(ps[1..]));
    }
  }

  /** Outside of JSON: other escape letters stand for themselves, and without a quote there is no string. */
  lemma {:induction false} ReadsOtherText(letter: char, rest: string)
    ensures letter != 'u' && ShortMeant(letter) < 0 ==>
              Unescape("\\" + [letter] + rest) == Prepend(letter, Unescape(rest))
    ensures '"' !in rest ==> Unescape(rest) == None
    decreases |rest|
  {
    assert ("\\" + [letter] + rest)[2..] == rest;
    if rest != "" {
      ReadsOtherText(letter, rest[1..]);
      if |rest| >= 2 {
        ReadsOtherText(letter, rest[2..]);
        ReadsOtherText(letter, rest[if |rest| < 6 then |rest| else 6..]);
      }
    }
  }

  // ----- no quote in an escaped string is bare -----

  predicate QuotesEscaped(e: string) {
    forall j :: 0 <= j < |e| && e[j] == '"' ==> j > 0 && e[j - 1] == '\\'
  }

  lemma OneHidesQuotes(p: Piece)
    requires InJson(p)
    ensures QuotesEscaped(Spelled(p))
  {
  }

  lemma QuotesEscapedTogether(e: string, rest: string)
    requires QuotesEscaped(e) && QuotesEscaped(rest)
    ensures QuotesEscaped(e + rest)
  {
    forall j | 0 <= j < |e + rest| && (e + rest)[j] == '"' ensures j > 0 && (e + rest)[j - 1] == '\\' {
      if j < |e| {
        assert e[j] == '"';
      } else {
        assert rest[j - |e|] == '"';
      }
    }
  }

  lemma {:induction false} SpellingHidesQuotes(ps: seq<Piece>)
    requires IsJson(ps)
    ensures QuotesEscaped(Spelling(ps))
  {
    hide InJson, Spelled;
    if ps != [] {
      SpellingHidesQuotes(ps[1..]);
      OneHidesQuotes(ps[0]);
      QuotesEscapedTogether(Spelled(ps[0]), Spelling(ps[1..]));
    }
  }

  lemma EscapeHidesQuotes(s: string)
    ensures QuotesEscaped(Escape(s))
  {
    var ps := WritesJson(s);
    SpellingHidesQuotes(ps);
  }

  // ----- the search passes over everything but the key -----

  /** Keys and delimiters: a key contains no quote, backslash, colon, comma or closing brace. */
  predicate PlainKey(key: string) {
    key != "" && forall i :: 0 <= i < |key| ==> key[i] !in {'"', '\\', ':', ',', '}'}
  }

  predicate NoQuotes(s: string) {
    forall i :: 0 <= i < |s| ==> s[i] != '"'
  }

  lemma {:induction false} SkipPlain(r: string, z: string, key: string)
    requires NoQuotes(r)
    ensures Lookup(r + z, Quoted(key)) == Lookup(z, Quoted(key))
  {
    if r == "" {
      assert r + z == z;
    } else {
      assert (r + z)[1..] == r[1..] + z;
      assert (r + z)[0] != Quoted(key)[0];
      SkipPlain(r[1..], z, key);
    }
  }

  lemma SameQuoted(key: string, other: string, z: string)
    requires PlainKey(key) && PlainKey(other) && Quoted(key) <= Quoted(other) + z
    ensures key == other
  {
    var s := Quoted(other) + z;
    assert forall i :: 1 <= i <= |key| ==> s[i] == Quoted(key)[i] == key[i - 1];
    assert s[|key| + 1] == Quoted(key)[|key| + 1] == '"';
    assert forall i :: 1 <= i <= |other| ==> s[i] == other[i - 1];
    FirstQuoteUnique(s, |key| + 1, |other| + 1);
    assert key == s[1..|key| + 1] == other;
  }

  lemma FirstQuoteUnique(s: string, a: nat, b: nat)
    requires 1 <= a < |s| && 1 <= b < |s| && s[a] == s[b] == '"'
    requires forall i :: 1 <= i < a ==> s[i] != '"'
    requires forall i :: 1 <= i < b ==> s[i] != '"'
    ensures a == b
  {
  }

  /** A delimiter comes in `z` before any further quote. */
  ghost predicate DelimiterFirst(z: string) {
    exists p: nat :: DelimitedAt(z, p)
  }

  predicate DelimitedAt(z: string, p: nat) {
    p < |z| && z[p] in {':', ',', '}'} && NoQuotes(z[..p])
  }

  lemma SkipKey(other: string, z: string, key: string)
    requires PlainKey(key) && PlainKey(other) && key != other && DelimiterFirst(z)
    ensures Lookup(Quoted(other) + z, Quoted(key)) == Lookup(z, Quoted(key))
  {
    hide DelimiterFirst;
    var s := Quoted(other) + z;
    if Quoted(key) <= s {
      SameQuoted(key, other, z);
    }
    assert s[1..] == other + ("\"" + z);
    SkipPlain(other, "\"" + z, key);
    SkipLoneQuote(z, key);
  }

  lemma SkipLoneQuote(z: string, key: string)
    requires PlainKey(key) && DelimiterFirst(z)
    ensures Lookup("\"" + z, Quoted(key)) == Lookup(z, Quoted(key))
  {
    var s, q := "\"" + z, Quoted(key);
    var p: nat :| DelimitedAt(z, p);
    assert forall i :: 0 <= i < p ==> z[i] == z[..p][i] != '"';
    assert q[|key| + 1] == '"' && (p < |key| ==> q[p + 1] == key[p]);
    assert s[p + 1] == z[p] && (|key| < p ==> s[|key| + 1] == z[|key|]);
    assert s[1..] == z;
  }

  /** Blanks, tabs, line feeds, vertical tabs, form feeds and carriage returns. */
  predicate Spaces(w: string) {
    forall i :: 0 <= i < |w| ==> w[i] as int in {0x20, 0x09, 0x0A, 0x0B, 0x0C, 0x0D}
  }

  lemma SpacesHaveNoQuotes(w: string)
    requires Spaces(w)
    ensures NoQuotes(w)
  {
  }

  lemma {:induction false} SkipSpaces(w: string, rest: string)
    requires Spaces(w) && rest != "" && rest[0] as int !in {0x20, 0x09, 0x0A, 0x0B, 0x0C, 0x0D}
    ensures SkipSpace(w + rest) == rest
  {
    if w == "" {
      assert w + rest == rest;
    } else {
      assert (w + rest)[1..] == w[1..] + rest;
      SkipSpaces(w[1..], rest);
    }
  }

  lemma DelimiterBehindSpaces(w: string, d: char, rest: string)
    requires Spaces(w) && d in {':', ',', '}'}
    ensures DelimiterFirst(w + ([d] + rest))
  {
    var z := w + ([d] + rest);
    assert z[..|w|] == w;
    assert DelimitedAt(z, |w|);
  }

  /** A match inside `"e"` can only end at the closing quote. */
  lemma MatchEndsAtQuote(e: string, z: string, key: string, i: nat)
    requires PlainKey(key) && QuotesEscaped(e) && i <= |e|
    requires Quoted(key) <= ("\"" + e + "\"" + z)[i..]
    ensures i + |Quoted(key)| == |e| + 2
  {
    var s, q := "\"" + e + "\"" + z, Quoted(key);
    var last := i + |key| + 1;
    assert s[i..][..|q|] == q;
    assert forall y :: i < y < last ==> s[y] == q[y - i] == key[y - i - 1];
    assert s[last] == q[last - i] == '"';
    assert s[last - 1] == key[|key| - 1] != '\\';
    assert forall y :: 1 <= y <= |e| ==> s[y] == e[y - 1];
    assert s[|e| + 1] == '"';
  }

  lemma {:induction false} SkipStringFrom(e: string, w: string, d: char, rest: string, key: string, i: nat)
    requires PlainKey(key) && QuotesEscaped(e) && i <= |e| + 1
    requires Spaces(w) && d in {',', '}'}
    ensures Lookup(("\"" + e + "\"" + (w + ([d] + rest)))[i..], Quoted(key)) == Lookup(w + ([d] + rest), Quoted(key))
    decreases |e| + 1 - i
  {
    hide Spaces, PlainKey, QuotesEscaped;
    var z := w + ([d] + rest);
    var s, q := "\"" + e + "\"" + z, Quoted(key);
    assert s[|e| + 2..] == z;
    if i == |e| + 1 {
      assert s[i..] == "\"" + z;
      DelimiterBehindSpaces(w, d, rest);
      SkipLoneQuote(z, key);
    } else if q <= s[i..] {
      MatchEndsAtQuote(e, z, key, i);
      LookupAt(s, q, i);
      SkipSpaces(w, [d] + rest);
    } else {
      assert s[i..][1..] == s[i + 1..];
      SkipStringFrom(e, w, d, rest, key, i + 1);
    }
  }

  /** Whatever a field contains, even the quoted key itself, the search goes on behind it. */
  lemma SkipString(ps: seq<Piece>, w: string, d: char, rest: string, key: string)
    requires PlainKey(key) && IsJson(ps) && Spaces(w) && d in {',', '}'}
    ensures Lookup(Quoted(Spelling(ps)) + (w + ([d] + rest)), Quoted(key)) == Lookup(w + ([d] + rest), Quoted(key))
  {
    hide Lookup, Spaces, PlainKey, IsJson;
    var e, z := Spelling(ps), w + ([d] + rest);
    SpellingHidesQuotes(ps);
    SkipStringFrom(e, w, d, rest, key, 0);
    assert ("\"" + e + "\"" + z)[0..] == Quoted(e) + z;
  }

  // ----- flat objects with white space -----

  /** The value of a field: a JSON string, or a number or truth value given by its text. */
  datatype Value = Str(ps: seq<Piece>) | Bare(text: string)

  /** A field with white space before its key, around its colon and behind its value. */
  datatype Field = Field(w0: string, key: string, w1: string, w2: string, value: Value, w3: string)

  predicate ValidValue(v: Value) {
    match v
    case Str(ps) => IsJson(ps)
    case Bare(text) => text != "" && NoQuotes(text) && text[0] as int !in {0x20, 0x09, 0x0A, 0x0B, 0x0C, 0x0D}
  }

  predicate ValidField(f: Field) {
    PlainKey(f.key) && ValidValue(f.value) && Spaces(f.w0) && Spaces(f.w1) && Spaces(f.w2) && Spaces(f.w3)
  }

  predicate AllValidFields(fs: seq<Field>) {
    forall i :: 0 <= i < |fs| ==> ValidField(fs[i])
  }

  function ValueWritten(v: Value): string {
    match v
    case Str(ps) => Quoted(Spelling(ps))
    case Bare(text) => text
  }

  function FieldWritten(f: Field): string {
    f.w0 + Quoted(f.key) + f.w1 + ":" + f.w2 + ValueWritten(f.value) + f.w3
  }

  /** What a lookup that stops at this value yields. */
  function ValueHeard(v: Value): Option<string>
    requires ValidValue(v)
  {
    if v.Str? then Some(Heard(v.ps)) else None
  }

  lemma StringBehind(w: string, v: string)
    requires Spaces(w) && v != "" && v[0] as int !in {0x20, 0x09, 0x0A, 0x0B, 0x0C, 0x0D}
    ensures FieldValue(w + v) == if v[0] == '"' then Unescape(v[1..]) else None
  {
    hide SkipSpace, Unescape, Spaces;
    SkipSpaces(w, v);
  }

  lemma ValueRead(w: string, v: Value, z: string)
    requires Spaces(w) && ValidValue(v)
    ensures FieldValue(w + (ValueWritten(v) + z)) == ValueHeard(v)
  {
    hide FieldValue, Unescape, IsJson, Heard, Spelling, Spaces;
    StringBehind(w, ValueWritten(v) + z);
    if v.Str? {
      var e := Spelling(v.ps);
      assert (Quoted(e) + z)[1..] == e + ("\"" + z);
      ReadsJson(v.ps, z);
    } else {
      assert (v.text + z)[0] == v.text[0] != '"';
    }
  }

  lemma LookupColon(quoted: string, w: string, v: string)
    requires quoted != "" && Spaces(w)
    ensures Lookup(quoted + (w + (":" + v)), quoted) == FieldValue(v)
  {
    hide FieldValue;
    var s := quoted + (w + (":" + v));
    assert s[|quoted|..] == w + (":" + v);
    SkipSpaces(w, ":" + v);
    assert (":" + v)[1..] == v;
  }

  lemma Regrouped(f: Field, z: string)
    ensures FieldWritten(f) + z ==
            f.w0 + (Quoted(f.key) + (f.w1 + (":" + (f.w2 + (ValueWritten(f.value) + (f.w3 + z))))))
  {
    hide Quoted, ValueWritten;
  }

  lemma FieldHit(f: Field, z: string)
    requires ValidField(f)
    ensures Lookup(FieldWritten(f) + z, Quoted(f.key)) == ValueHeard(f.value)
  {
    hide Lookup, FieldValue, ValueWritten, FieldWritten, ValidValue, Quoted;
    Regrouped(f, z);
    var v := f.w2 + (ValueWritten(f.value) + (f.w3 + z));
    SpacesHaveNoQuotes(f.w0);
    SkipPlain(f.w0, Quoted(f.key) + (f.w1 + (":" + v)), f.key);
    LookupColon(Quoted(f.key), f.w1, v);
    ValueRead(f.w2, f.value, f.w3 + z);
  }

  lemma FieldMiss(f: Field, d: char, rest: string, key: string)
    requires ValidField(f) && PlainKey(key) && key != f.key && d in {',', '}'}
    ensures Lookup(FieldWritten(f) + ([d] + rest), Quoted(key)) == Lookup([d] + rest, Quoted(key))
  {
    hide Lookup, FieldWritten, Quoted, Spelling, IsJson, DelimiterFirst;
    var z := [d] + rest;
    Regrouped(f, z);
    var v := ValueWritten(f.value) + (f.w3 + z);
    SpacesHaveNoQuotes(f.w0);
    SpacesHaveNoQuotes(f.w1);
    SpacesHaveNoQuotes(f.w2);
    SpacesHaveNoQuotes(f.w3);
    SkipPlain(f.w0, Quoted(f.key) + (f.w1 + (":" + (f.w2 + v))), key);
    DelimiterBehindSpaces(f.w1, ':', f.w2 + v);
    SkipKey(f.key, f.w1 + (":" + (f.w2 + v)), key);
    SkipPlain(f.w1, ":" + (f.w2 + v), key);
    SkipPlain(":", f.w2 + v, key);
    SkipPlain(f.w2, v, key);
    if f.value.Str? {
      SkipString(f.value.ps, f.w3, d, rest, key);
    } else {
      SkipPlain(f.value.text, f.w3 + z, key);
    }
    SkipPlain(f.w3, z, key);
  }

  /** Fields each followed by a comma. */
  function FieldTexts(fs: seq<Field>): string {
    if fs == [] then "" else FieldWritten(fs[0]) + "," + FieldTexts(fs[1..])
  }

  /** The first field with this key decides; without one the lookup yields `otherwise`. */
  function FirstHeard(fs: seq<Field>, key: string, otherwise: Option<string>): Option<string>
    requires AllValidFields(fs)
  {
    if fs == [] then otherwise
    else if fs[0].key == key then ValueHeard(fs[0].value)
    else FirstHeard(fs[1..], key, otherwise)
  }

  lemma {:induction false} LookupInFieldTexts(fs: seq<Field>, rest: string, key: string)
    requires AllValidFields(fs) && PlainKey(key)
    ensures Lookup(FieldTexts(fs) + rest, Quoted(key)) == FirstHeard(fs, key, Lookup(rest, Quoted(key)))
  {
    hide Lookup, FieldWritten, ValidField, ValueHeard;
    if fs == [] {
      assert FieldTexts(fs) + rest == rest;
    } else {
      var f, z := fs[0], FieldTexts(fs[1..]) + rest;
      assert FieldTexts(fs) + rest == FieldWritten(f) + ("," + z);
      if f.key == key {
        FieldHit(f, "," + z);
      } else {
        assert ValidField(f);
        FieldMiss(f, ',', z, key);
        assert [','] + z == "," + z;
        SkipPlain(",", z, key);
        LookupInFieldTexts(fs[1..], rest, key);
      }
    }
  }

  /** A flat object with any white space. */
  function SpacedObject(w: string, fs: seq<Field>, tail: string): string
    requires fs != []
  {
    w + ("{" + (FieldTexts(fs[..|fs| - 1]) + (FieldWritten(fs[|fs| - 1]) + ("}" + tail))))
  }

  /**
   The reader against every flat JSON object, whatever white space it is laid out with: the substring search
   answers exactly with the first field of that key, and with nothing when there is none.
   */
  lemma LookupInSpacedObject(w: string, fs: seq<Field>, tail: string, key: string)
    requires fs != [] && AllValidFields(fs) && PlainKey(key) && Spaces(w) && Spaces(tail)
    ensures Lookup(SpacedObject(w, fs, tail), Quoted(key)) == FirstHeard(fs, key, None)
  {
    hide Lookup, FieldWritten, ValidField, PlainKey;
    var n := |fs| - 1;
    var last := FieldWritten(fs[n]) + ("}" + tail);
    SpacesHaveNoQuotes(w);
    SkipPlain(w, "{" + (FieldTexts(fs[..n]) + last), key);
    SkipPlain("{", FieldTexts(fs[..n]) + last, key);
    LookupInFieldTexts(fs[..n], last, key);
    assert ValidField(fs[n]);
    LookupInLastField(fs[n], tail, key);
    FirstHeardSnoc(fs[..n], fs[n], key);
    assert fs == fs[..n] + [fs[n]];
  }

  lemma LookupInLastField(f: Field, tail: string, key: string)
    requires ValidField(f) && PlainKey(key) && Spaces(tail)
    ensures Lookup(FieldWritten(f) + ("}" + tail), Quoted(key)) ==
            if f.key == key then ValueHeard(f.value) else None
  {
    hide FieldWritten, ValidField, PlainKey;
    if f.key == key {
      FieldHit(f, "}" + tail);
    } else {
      FieldMiss(f, '}', tail, key);
      assert ['}'] + tail == "}" + tail == ("}" + tail) + "";
      SpacesHaveNoQuotes(tail);
      SkipPlain("}" + tail, "", key);
    }
  }

  lemma {:induction false} FirstHeardSnoc(fs: seq<Field>, f: Field, key: string)
    requires AllValidFields(fs) && ValidField(f)
    ensures AllValidFields(fs + [f])
    ensures FirstHeard(fs + [f], key, None) ==
            FirstHeard(fs, key, if f.key == key then ValueHeard(f.value) else None)
  {
    hide ValidField, ValueHeard;
    if fs == [] {
      assert fs + [f] == [f] && [f][1..] == [];
    } else {
      assert (fs + [f])[1..] == fs[1..] + [f];
      FirstHeardSnoc(fs[1..], f, key);
    }
  }

  /** One field with white space around its colon, whatever follows. */
  lemma SpacedField(w0: string, key: string, w1: string, w2: string, value: string, z: string)
    requires PlainKey(key) && Spaces(w0) && Spaces(w1) && Spaces(w2)
    ensures Lookup(w0 + Quoted(key) + w1 + ":" + w2 + Quoted(Escape(value)) + z, Quoted(key)) == Some(Visible(value))
  {
    hide Lookup, PlainKey, Quoted, Spaces;
    var ps := WritesJson(value);
    UnescapeEscape(value, "");
    ReadsJson(ps, "");
    var f := Field(w0, key, w1, w2, Str(ps), "");
    assert Spaces("") by { NoSpaces(); }
    FieldHit(f, z);
    assert w0 + Quoted(key) + w1 + ":" + w2 + Quoted(Escape(value)) == FieldWritten(f);
  }

  lemma NoSpaces()
    ensures Spaces("")
  {
  }

  // ----- flat objects -----

  /** A field of an object: a string, or a number or truth value given by its text. */
  datatype Member = Text(key: string, value: string) | Raw(key: string, text: string)

  predicate ValidMember(m: Member) {
    PlainKey(m.key) && (m.Raw? ==> m.text != "" && NoQuotes(m.text) && !IsSpace(m.text[0]))
  }

  function ValueText(m: Member): string {
    if m.Text? then Quoted(Escape(m.value)) else m.text
  }

  function Rendered(m: Member): string {
    Quoted(m.key) + ":" + ValueText(m)
  }

  /** What a lookup that stops at this member yields. */
  function Answer(m: Member): Option<string> {
    if m.Text? then Some(Visible(m.value)) else None
  }

  /** The member as a field without white space. */
  lemma MemberAsField(m: Member) returns (f: Field)
    requires ValidMember(m)
    ensures ValidField(f) && f.key == m.key && FieldWritten(f) == Rendered(m) && ValueHeard(f.value) == Answer(m)
  {
    hide PlainKey;
    if m.Text? {
      var ps := WritesJson(m.value);
      UnescapeEscape(m.value, "");
      ReadsJson(ps, "");
      f := Field("", m.key, "", "", Str(ps), "");
    } else {
      f := Field("", m.key, "", "", Bare(m.text), "");
    }
    assert FieldWritten(f) == Rendered(m);
  }

  /** Members each followed by a comma. */
  function Fields(members: seq<Member>): string {
    if members == [] then "" else Rendered(members[0]) + "," + Fields(members[1..])
  }

  predicate AllValid(members: seq<Member>) {
    forall i :: 0 <= i < |members| ==> ValidMember(members[i])
  }

  /** The first member with this key decides; without one the lookup yields `otherwise`. */
  function FirstAnswer(members: seq<Member>, key: string, otherwise: Option<string>): Option<string> {
    if members == [] then otherwise
    else if members[0].key == key then Answer(members[0])
    else FirstAnswer(members[1..], key, otherwise)
  }

  lemma {:induction false} LookupInFields(members: seq<Member>, rest: string, key: string)
    requires AllValid(members) && PlainKey(key)
    ensures Lookup(Fields(members) + rest, Quoted(key)) == FirstAnswer(members, key, Lookup(rest, Quoted(key)))
  {
    if members == [] {
      assert Fields(members) + rest == rest;
    } else {
      var m, z := members[0], Fields(members[1..]) + rest;
      assert Fields(members) + rest == Rendered(m) + ("," + z);
      var f := MemberAsField(m);
      if m.key == key {
        FieldHit(f, "," + z);
      } else {
        FieldMiss(f, ',', z, key);
        assert [','] + z == "," + z;
        SkipPlain(",", z, key);
        LookupInFields(members[1..], rest, key);
      }
    }
  }

  /** A flat object as the gateway writes it. */
  function Object(members: seq<Member>): string
    requires members != []
  {
    "{" + Fields(members[..|members| - 1]) + Rendered(members[|members| - 1]) + "}"
  }

  lemma LookupInOpenObject(members: seq<Member>, rest: string, key: string)
    requires AllValid(members) && PlainKey(key)
    ensures Lookup("{" + Fields(members) + rest, Quoted(key)) ==
            FirstAnswer(members, key, Lookup(rest, Quoted(key)))
  {
    Assoc("{", Fields(members), rest);
    SkipPlain("{", Fields(members) + rest, key);
    LookupInFields(members, rest, key);
  }

  /**
   The reader against the writer, for every flat object and every plain key: the substring search
   answers exactly with the first member of that key, and with nothing when there is none.
   */
  lemma LookupInObject(members: seq<Member>, key: string)
    requires members != [] && AllValid(members) && PlainKey(key)
    ensures Lookup(Object(members), Quoted(key)) == FirstAnswer(members, key, None)
  {
    hide Lookup, FirstAnswer, Answer, Fields, Rendered, ValidMember, PlainKey;
    var n := |members| - 1;
    var m := members[n];
    Assoc("{" + Fields(members[..n]), Rendered(m), "}");
    LookupInOpenObject(members[..n], Rendered(m) + "}", key);
    LookupInLast(m, key);
    FirstAnswerSnoc(members[..n], m, key);
    assert members == members[..n] + [m];
  }

  lemma LookupInLast(m: Member, key: string)
    requires ValidMember(m) && PlainKey(key)
    ensures Lookup(Rendered(m) + "}", Quoted(key)) == if m.key == key then Answer(m) else None
  {
    hide Lookup, PlainKey, ValidMember, Rendered;
    var f := MemberAsField(m);
    NoSpaces();
    LookupInLastField(f, "", key);
    assert "}" + "" == "}";
  }

  lemma {:induction false} FirstAnswerSnoc(members: seq<Member>, m: Member, key: string)
    ensures FirstAnswer(members + [m], key, None) ==
            FirstAnswer(members, key, if m.key == key then Answer(m) else None)
  {
    if members == [] {
      assert members + [m] == [m];
    } else {
      assert (members + [m])[1..] == members[1..] + [m];
      FirstAnswerSnoc(members[1..], m, key);
    }
  }
}
