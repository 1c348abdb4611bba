/** The TCS message format: printing a message and parsing it back. */
module TcsMessage {
  import opened Wrappers

  const INT_MAX := 0x7FFF_FFFF
  const INT_MIN := -0x8000_0000

  /** A message; the characters of its strings are bytes. */
  datatype Msg = Nul | Str(value: string) | Arr(items: seq<Msg>) | Obj(len: int, key: string, val: Msg)

  // ---------------------------------------------------------------- characters and numbers

  predicate IsSpace(c: char) {
    c == ' ' || '\t' <= c <= '\r'
  }

  predicate IsDigit(c: char) {
    '0' <= c <= '9'
  }

  predicate IsWord(c: char) {
    IsDigit(c) || 'a' <= c <= 'z' || 'A' <= c <= 'Z' || c == '_'
  }

  function DigitChar(d: nat): char
    requires d < 10
  {
    '0' + d as char
  }

  /** `std::to_string`. */
  function Decimal(n: int): (r: string)
    ensures |r| > 0
    ensures n >= 0 ==> forall c :: c in r ==> IsDigit(c)
    decreases n < 0, if n < 0 then -n else n
  {
    if n < 0 then "-" + Decimal(-n)
    else if n < 10 then [DigitChar(n)]
    else Decimal(n / 10) + [DigitChar(n % 10)]
  }

  function DigitsValue(ds: string): nat
    requires forall c :: c in ds ==> IsDigit(c)
  {
    if ds == [] then 0
    else
      var c := ds[|ds| - 1];
      assert c in ds;
      assert IsDigit(c);
      DigitsValue(ds[..|ds| - 1]) * 10 + (c - '0') as nat
  }

  lemma {:induction false} DecimalValue(n: nat)
    ensures DigitsValue(Decimal(n)) == n
  {
    if n >= 10 {
      var ds := Decimal(n);
      assert ds[..|ds| - 1] == Decimal(n / 10);
      DecimalValue(n / 10);
    } else {
      assert Decimal(n)[..0] == "";
    }
  }

  /** The longest run of digits at the front. */
  function LeadingDigits(t: string): (r: string)
    ensures forall c :: c in r ==> IsDigit(c)
    ensures |r| <= |t|
  {
    if t == [] || !IsDigit(t[0]) then [] else [t[0]] + LeadingDigits(t[1..])
  }

  function TrimSpace(t: string): (r: string)
    ensures |r| <= |t|
  {
    if t != [] && IsSpace(t[0]) then TrimSpace(t[1..]) else t
  }

  /** `stringToInt`: stream extraction of an int, which skips space, takes a sign, and clamps. */
  function StringToInt(t: string): (r: int)
    ensures INT_MIN <= r <= INT_MAX
  {
    var u := TrimSpace(t);
    if u != [] && u[0] == '-' then
      var v: int := DigitsValue(LeadingDigits(u[1..]));
      if -v < INT_MIN then INT_MIN else -v
    else
      var v := DigitsValue(LeadingDigits(if u != [] && u[0] == '+' then u[1..] else u));
      if v > INT_MAX then INT_MAX else v
  }

  lemma {:induction false} LeadingDigitsOf(ds: string, rest: string)
    requires forall c :: c in ds ==> IsDigit(c)
    requires rest == [] || !IsDigit(rest[0])
    ensures LeadingDigits(ds + rest) == ds
  {
    if ds == [] {
      assert ds + rest == rest;
    } else {
      assert ds[0] in ds;
      assert (ds + rest)[1..] == ds[1..] + rest;
      LeadingDigitsOf(ds[1..], rest);
    }
  }

  lemma StringToIntOfDecimal(n: nat, rest: string)
    requires n <= INT_MAX && (rest == [] || !IsDigit(rest[0]))
    ensures StringToInt(Decimal(n) + rest) == n
  {
    hide Decimal;
    var ds := Decimal(n);
    assert ds[0] in ds && (ds + rest)[0] == ds[0];
    LeadingDigitsOf(ds, rest);
    DecimalValue(n);
  }

  lemma {:induction false} DecimalOf(n: int)
    ensures Decimal(n) == if n < 0 then "-" + Decimal(-n) else Decimal(n)
  {}

  /** Numbers beyond the range of an int are read as its ends. */
  lemma NumbersClamp(n: int, rest: string)
    requires rest == [] || !IsDigit(rest[0])
    ensures StringToInt(Decimal(n) + rest) ==
            if n > 0x7FFF_FFFF then 0x7FFF_FFFF else if n < -0x8000_0000 then -0x8000_0000 else n
  {
    hide Decimal;
    var ds := Decimal(if n < 0 then -n else n);
    DecimalOf(n);
    assert ds[0] in ds && (ds + rest)[0] == ds[0];
    LeadingDigitsOf(ds, rest);
    DecimalValue(if n < 0 then -n else n);
    if n < 0 {
      assert Decimal(n) + rest == "-" + (ds + rest);
    }
  }

  // ---------------------------------------------------------------- printing

  predicate IsLineSeparator(s: string) {
    |s| >= 3 && s[0] == '\U{e2}' && s[1] == '\U{80}' && (s[2] == '\U{a8}' || s[2] == '\U{a9}')
  }

  function HexDigit(d: nat): char
    requires d < 16
  {
    if d < 10 then '0' + d as char else 'a' + (d - 10) as char
  }

  /** How one character is printed when it is not the start of a line separator. */
  function EscapeChar(c: char): (r: string)
    ensures |r| >= 1
    ensures c != '\'' ==> '\'' !in r
  {
    if c == '\\' then "\\\\"
    else if c == '\"' then "\\\""
    else if c == '\U{8}' then "\\b"
    else if c == '\U{c}' then "\\f"
    else if c == '\n' then "\\n"
    else if c == '\r' then "\\r"
    else if c == '\t' then "\\t"
    else if c <= '\U{1f}' then "\\u00" + [HexDigit(c as nat / 16), HexDigit(c as nat % 16)]
    else [c]
  }

  function Escape(s: string): string {
    if s == [] then []
    else if IsLineSeparator(s) then (if s[2] == '\U{a8}' then "\\u2028" else "\\u2029") + Escape(s[3..])
    else EscapeChar(s[0]) + Escape(s[1..])
  }

  function Dump(m: Msg): string {
    match m
    case Nul => "\""
    case Str(value) => "'" + Escape(value) + "'"
    case Arr(items) => "L[" + Decimal(|items|) + "]" + DumpAll(items)
    case Obj(len, key, val) => "<A[" + Decimal(len) + "] " + key + " ID=" + Dump(val) + ">"
  }

  function DumpAll(items: seq<Msg>): string {
    if items == [] then [] else Dump(items[0]) + DumpAll(items[1..])
  }

  /** Which control characters are printed as what, in front of any text. */
  lemma EscapedControls(code: nat, rest: string)
    requires code < 32
    ensures var e := Escape([code as char] + rest);
      && (code == 8 ==> e == "\\b" + Escape(rest))
      && (code == 9 ==> e == "\\t" + Escape(rest))
      && (code == 10 ==> e == "\\n" + Escape(rest))
      && (code == 12 ==> e == "\\f" + Escape(rest))
      && (code == 13 ==> e == "\\r" + Escape(rest))
      && (code !in {8, 9, 10, 12, 13} ==>
           e == "\\u00" + [if code < 16 then '0' else '1', "0123456789abcdef"[code % 16]] + Escape(rest))
  {
    var s := [code as char] + rest;
    assert s[1..] == rest && !IsLineSeparator(s);
    LowDigits(code);
    hide Escape, HexDigit, IsLineSeparator;
    EscapeStep(s);
  }

  /** Quote, backslash and the two line separators, which are three bytes, are escaped, and nothing else. */
  lemma EscapedOthers(code: nat, rest: string)
    requires 32 <= code < 256
    ensures var e := Escape([code as char] + rest);
      if code == 34 then e == "\\\"" + Escape(rest)
      else if code == 92 then e == "\\\\" + Escape(rest)
      else if code == 0xe2 && ['\U{80}', '\U{a8}'] <= rest then e == "\\u2028" + Escape(rest[2..])
      else if code == 0xe2 && ['\U{80}', '\U{a9}'] <= rest then e == "\\u2029" + Escape(rest[2..])
      else e == [code as char] + Escape(rest)
  {
    var s := [code as char] + rest;
    assert s[1..] == rest;
    assert IsLineSeparator(s) ==> s[3..] == rest[2..];
    hide Escape, HexDigit;
    EscapeStep(s);
  }

  lemma EscapeStep(s: string)
    requires s != []
    ensures Escape(s) ==
            if IsLineSeparator(s) then (if s[2] == '\U{a8}' then "\\u2028" else "\\u2029") + Escape(s[3..])
            else EscapeChar(s[0]) + Escape(s[1..])
  {
    hide EscapeChar;
  }

  lemma LowDigits(code: nat)
    requires code < 32
    ensures HexDigit(code / 16) == if code < 16 then '0' else '1'
    ensures HexDigit(code % 16) == "0123456789abcdef"[code % 16]
  {}

  lemma PrintedString()
    ensures Dump(Str("a\n")) == "'a\\n'"
  {
    assert "a\n"[1..] == "\n" && "\n"[1..] == "";
    assert Escape("\n") == "\\n" + "" && Escape("a\n") == "a" + "\\n";
  }

  lemma PrintedItems()
    ensures DumpAll([Str("a\n"), Nul]) == "'a\\n'\""
  {
    PrintedString();
    hide Escape;
    var items := [Str("a\n"), Nul];
    assert items[1..] == [Nul] && [Nul][1..] == [];
    assert Dump(Nul) == "\"" && DumpAll([Nul]) == "\"" + "";
    assert DumpAll(items) == "'a\\n'" + "\"";
  }

  lemma PrintedArray()
    ensures Dump(Arr([Str("a\n"), Nul])) == "L[2]'a\\n'\""
  {
    PrintedItems();
    assert Decimal(2) == "2";
    hide DumpAll, Escape, Decimal;
    assert Dump(Arr([Str("a\n"), Nul])) == "L[" + "2" + "]" + "'a\\n'\"";
  }

  /** One message of every kind, as it is printed. */
  lemma PrintedExample()
    ensures Dump(Obj(1, "LOC", Arr([Str("a\n"), Nul]))) == "<A[1] LOC ID=" + "L[2]'a\\n'\"" + ">"
  {
    PrintedArray();
    assert Decimal(1) == "1";
    hide DumpAll, Escape, Decimal;
    var inner := Dump(Arr([Str("a\n"), Nul]));
    assert Dump(Obj(1, "LOC", Arr([Str("a\n"), Nul]))) == "<A[" + "1" + "] " + "LOC" + " ID=" + inner + ">";
    assert "<A[" + "1" + "] " + "LOC" + " ID=" == "<A[1] LOC ID=";
  }

  // ---------------------------------------------------------------- parsing, as a function

  /** The parser's position, and the message of the first failure. */
  datatype P = P(i: nat, err: Option<string>) {
    predicate Failed() {
      err.Some?
    }

    function Fail(msg: string): P {
      if Failed() then this else this.(err := Some(msg))
    }
  }

  /** Reading at or behind the end gives the terminator. */
  function CharAt(s: string, i: nat): char {
    if i < |s| then s[i] else '\0'
  }

  function Left(s: string, i: nat): nat {
    if i < |s| then |s| - i else 0
  }

  function SkipSpace(s: string, i: nat): (j: nat)
    ensures j >= i && !IsSpace(CharAt(s, j))
    ensures i <= |s| ==> j <= |s|
    decreases Left(s, i)
  {
    if IsSpace(CharAt(s, i)) then SkipSpace(s, i + 1) else i
  }

  function SkipDigits(s: string, i: nat): (j: nat)
    ensures j >= i && !IsDigit(CharAt(s, j))
    ensures i <= |s| ==> j <= |s|
    ensures forall k :: i <= k < j ==> IsDigit(CharAt(s, k))
    decreases Left(s, i)
  {
    if IsDigit(CharAt(s, i)) then SkipDigits(s, i + 1) else i
  }

  /** The loop over the characters of a key: stops one past the first other character. */
  function SkipWord(s: string, i: nat): (j: nat)
    ensures j > i && !IsWord(CharAt(s, j - 1))
    ensures forall k :: i <= k < j - 1 ==> IsWord(CharAt(s, k))
    decreases Left(s, i)
  {
    if IsWord(CharAt(s, i)) then SkipWord(s, i + 1) else i + 1
  }

  /** The next quote, or the end. */
  function FindQuote(s: string, i: nat): (j: nat)
    ensures j >= i && (i <= |s| ==> j <= |s|)
    ensures j < |s| ==> s[j] == '\''
    ensures forall k :: i <= k < j && k < |s| ==> s[k] != '\''
    decreases Left(s, i)
  {
    if i < |s| && s[i] != '\'' then FindQuote(s, i + 1) else i
  }

  function Drop(s: string, i: nat): string {
    if i <= |s| then s[i..] else []
  }

  function Token(s: string, p: P): char {
    var j := SkipSpace(s, p.i);
    if j == |s| then '\0' else CharAt(s, j)
  }

  function AfterToken(s: string, p: P): (q: P)
    ensures q.i >= p.i
    ensures Token(s, p) != '\0' ==> q.i > p.i && p.i < |s|
  {
    var j := SkipSpace(s, p.i);
    if j == |s| then p.(i := j).Fail("unexpected end of input") else p.(i := j + 1)
  }

  /** `[digits]`; value 0 when it is not there. */
  function IntValue(s: string, p: P): int {
    var p1 := AfterToken(s, p);
    if Token(s, p) == '[' && Token(s, p1.(i := SkipDigits(s, p1.i))) == ']' then StringToInt(Drop(s, p1.i)) else 0
  }

  function IntEnd(s: string, p: P): (q: P)
    ensures q.i >= p.i
  {
    var p1 := AfterToken(s, p);
    if Token(s, p) != '[' then p1.Fail("expected L[n]")
    else
      var p2 := p1.(i := SkipDigits(s, p1.i));
      var p3 := AfterToken(s, p2);
      if Token(s, p2) != ']' then p3.Fail("expected L[n]") else p3
  }

  predicate Expects(s: string, i: nat, expected: string) {
    i >= 1 && i - 1 + |expected| <= |s| && s[i - 1..i - 1 + |expected|] == expected
  }

  function ParseMsg(s: string, p: P): (r: (Msg, P))
    ensures r.1.i >= p.i
    decreases Left(s, p.i), 0, 0
  {
    var ch, p1 := Token(s, p), AfterToken(s, p);
    if p1.Failed() then (Nul, p1)
    else if ch == '"' then (Nul, p1)
    else if ch == '\'' then
      var j := FindQuote(s, p1.i);
      if j >= |s| then (Nul, p1.(i := j).Fail("expected '<str>'"))
      else (Str(s[p1.i..j]), p1.(i := j + 1))
    else if ch == '<' then ParseObject(s, p1)
    else if ch == 'L' then
      var n, p2 := IntValue(s, p1), IntEnd(s, p1);
      var r := ParseItems(s, p2, if n < 0 then 0 else n);
      (if r.1.Failed() && n > 0 then Nul else Arr(r.0), r.1)
    else (Nul, p1)
  }

  function ParseItems(s: string, p: P, count: nat): (r: (seq<Msg>, P))
    ensures r.1.i >= p.i
    decreases Left(s, p.i), 1, count
  {
    if count == 0 then ([], p)
    else
      var (m, p1) := ParseMsg(s, p);
      if p1.Failed() then ([], p1)
      else
        var (ms, p2) := ParseItems(s, p1, count - 1);
        ([m] + ms, p2)
  }

  function ParseObject(s: string, p: P): (r: (Msg, P))
    ensures r.1.i >= p.i
    decreases Left(s, p.i), 2, 0
  {
    var p1 := AfterToken(s, p);
    if Token(s, p) != 'A' then (Nul, p1.Fail("expected <A[n]"))
    else
      var n, p2 := IntValue(s, p1), IntEnd(s, p1);
      if p2.Failed() then (Nul, p2)
      else
        var first, p3 := Token(s, p2), AfterToken(s, p2);
        var stop := if IsWord(first) then SkipWord(s, p3.i) else p3.i;
        var last := if IsWord(first) then CharAt(s, stop - 1) else first;
        var p4 := p3.(i := stop);
        if !IsSpace(last) then (Nul, p4.Fail("expected space or object key with error"))
        else ParseObjectRest(s, p4, n, s[p3.i - 1..stop - 1])
  }

  function ParseObjectRest(s: string, p: P, n: int, key: string): (r: (Msg, P))
    ensures r.1.i >= p.i
    decreases Left(s, p.i), 1, 0
  {
    var p1 := AfterToken(s, p);
    if !Expects(s, p1.i, "ID") then (Nul, p1.Fail("expected ID"))
    else
      var p2 := AfterToken(s, p1.(i := p1.i + 1));
      if !Expects(s, p2.i, "=") then (Nul, p2.Fail("expected ="))
      else
        var (m, p3) := ParseMsg(s, p2);
        var p4 := AfterToken(s, p3);
        if Token(s, p3) != '>' then (Nul, p4.Fail("expected >")) else (Obj(n, key, m), p4)
  }

  /** `Msg::parse`: the message, and the error text when there is one. */
  function Parse(s: string): (Msg, Option<string>) {
    var (m, p) := ParseMsg(s, P(0, None));
    var i := SkipSpace(s, p.i);
    if i != |s| then (Nul, p.Fail("unexpected trailing").err) else (m, p.err)
  }

  /** Space in front of a message is skipped: blanks and the codes 9 to 13. */
  lemma {:induction false} SpaceInFront(s: string, i: nat, j: nat)
    requires i <= j <= |s| && forall k :: i <= k < j ==> s[k] as int == 32 || 9 <= s[k] as int <= 13
    ensures SkipSpace(s, i) == SkipSpace(s, j) && ParseMsg(s, P(i, None)) == ParseMsg(s, P(j, None))
    decreases j - i
  {
    hide ParseMsg;
    if i < j {
      assert IsSpace(s[i]);
      SpaceInFront(s, i + 1, j);
      SameToken(s, P(i, None), P(i + 1, None));
    }
  }

  lemma SameToken(s: string, p: P, q: P)
    requires SkipSpace(s, p.i) == SkipSpace(s, q.i) && p.err == q.err
    ensures ParseMsg(s, p) == ParseMsg(s, q)
  {
    hide SkipSpace, ParseObject, ParseItems, FindQuote, IntValue, IntEnd;
    assert Token(s, p) == Token(s, q) && AfterToken(s, p) == AfterToken(s, q);
  }

  // ---------------------------------------------------------------- which messages survive

  /** What a parser can return: strings without quotes, word keys, sizes that fit an int. */
  predicate Shape(m: Msg) {
    match m
    case Nul => true
    case Str(value) => '\'' !in value
    case Arr(items) => |items| <= INT_MAX && forall k :: 0 <= k < |items| ==> Shape(items[k])
    case Obj(len, key, val) => 0 <= len <= INT_MAX && key != [] && (forall c :: c in key ==> IsWord(c)) && Shape(val)
  }

  /** No character that is escaped when printed, and no line separator. */
  predicate Plain(v: string) {
    forall k :: 0 <= k < |v| ==> EscapeChar(v[k]) == [v[k]] && !IsLineSeparator(v[k..])
  }

  /** A message the printer and the parser agree on. */
  predicate Clean(m: Msg) {
    match m
    case Nul => true
    case Str(value) => '\'' !in value && Plain(value)
    case Arr(items) => |items| <= INT_MAX && forall k :: 0 <= k < |items| ==> Clean(items[k])
    case Obj(len, key, val) => 0 <= len <= INT_MAX && key != [] && (forall c :: c in key ==> IsWord(c)) && Clean(val)
  }

  /** The message with every string as it is printed. */
  function Escaped(m: Msg): Msg {
    match m
    case Nul => Nul
    case Str(value) => Str(Escape(value))
    case Arr(items) => Arr(EscapedAll(items))
    case Obj(len, key, val) => Obj(len, key, Escaped(val))
  }

  function EscapedAll(items: seq<Msg>): (r: seq<Msg>)
    ensures |r| == |items|
  {
    if items == [] then [] else [Escaped(items[0])] + EscapedAll(items[1..])
  }

  lemma {:induction false} EscapeGrows(v: string)
    ensures |Escape(v)| >= |v|
    ensures Escape(v) == v <==> Plain(v)
    ensures !Plain(v) ==> |Escape(v)| > |v|
    decreases |v|
  {
    hide EscapeChar, IsLineSeparator, Plain;
    if v == [] {
      assert Plain(v) by { PlainStep(v); }
    } else if IsLineSeparator(v) {
      SeparatorLength(v);
      EscapeGrows(v[3..]);
      PlainStep(v);
    } else {
      EscapeGrows(v[1..]);
      EscapeCharGrows(v[0]);
      PlainStep(v);
      assert v == [v[0]] + v[1..];
    }
  }

  lemma SeparatorLength(v: string)
    requires IsLineSeparator(v)
    ensures |v| >= 3
  {}

  lemma PlainStep(v: string)
    ensures Plain(v) <==> v == [] || (EscapeChar(v[0]) == [v[0]] && !IsLineSeparator(v) && Plain(v[1..]))
  {
    hide EscapeChar, IsLineSeparator;
    if v != [] {
      var rest := v[1..];
      assert v[0..] == v;
      forall k | 0 <= k < |rest| ensures rest[k..] == v[k + 1..] && rest[k] == v[k + 1] {}
      if EscapeChar(v[0]) == [v[0]] && !IsLineSeparator(v) && Plain(rest) {
        forall k | 0 <= k < |v| ensures EscapeChar(v[k]) == [v[k]] && !IsLineSeparator(v[k..]) {
          assert k > 0 ==> v[k] == rest[k - 1] && v[k..] == rest[k - 1..];
        }
      }
    }
  }

  lemma EscapeCharGrows(c: char)
    ensures |EscapeChar(c)| >= 1
    ensures EscapeChar(c) != [c] ==> |EscapeChar(c)| > 1
  {}

  lemma {:induction false} EscapeKeepsQuotes(v: string)
    requires '\'' !in v
    ensures '\'' !in Escape(v)
    decreases |v|
  {
    if v != [] {
      assert v[0] in v;
      EscapeKeepsQuotes(if IsLineSeparator(v) then v[3..] else v[1..]);
    }
  }

  // ---------------------------------------------------------------- reading a printed text

  /** The text stands in `s` at position `i`. */
  predicate Lit(s: string, i: nat, d: string) {
    i + |d| <= |s| && s[i..i + |d|] == d
  }

  lemma LitParts(s: string, i: nat, a: string, b: string)
    requires Lit(s, i, a + b)
    ensures Lit(s, i, a) && Lit(s, i + |a|, b)
  {
    assert s[i..i + |a + b|][..|a|] == a;
    assert s[i..i + |a + b|][|a|..] == b;
  }

  /** A character that is neither space nor the terminator is read as a token. */
  lemma TokenAt(s: string, i: nat, c: char)
    requires i < |s| && s[i] == c && !IsSpace(c) && c != '\0'
    ensures Token(s, P(i, None)) == c && AfterToken(s, P(i, None)) == P(i + 1, None)
  {}

  lemma {:induction false} FindQuoteAt(s: string, i: nat, e: string)
    requires Lit(s, i, e + "'") && '\'' !in e
    ensures FindQuote(s, i) == i + |e|
    decreases |e|
  {
    LitParts(s, i, e, "'");
    if e != [] {
      assert e[0] in e && s[i..i + |e|][0] == s[i];
      assert e == [e[0]] + e[1..];
      assert [e[0]] + e[1..] + "'" == [e[0]] + (e[1..] + "'");
      LitParts(s, i, [e[0]], e[1..] + "'");
      FindQuoteAt(s, i + 1, e[1..]);
    }
  }

  lemma {:induction false} SkipDigitsAt(s: string, i: nat, ds: string)
    requires Lit(s, i, ds) && (forall c :: c in ds ==> IsDigit(c)) && !IsDigit(CharAt(s, i + |ds|))
    ensures SkipDigits(s, i) == i + |ds|
    decreases |ds|
  {
    if ds != [] {
      assert ds[0] in ds && s[i..i + |ds|][0] == s[i];
      assert ds == [ds[0]] + ds[1..];
      LitParts(s, i, [ds[0]], ds[1..]);
      SkipDigitsAt(s, i + 1, ds[1..]);
    }
  }

  lemma {:induction false} SkipWordAt(s: string, i: nat, w: string)
    requires Lit(s, i, w + " ") && forall c :: c in w ==> IsWord(c)
    ensures SkipWord(s, i) == i + |w| + 1 && s[i + |w|] == ' '
    decreases |w|
  {
    LitParts(s, i, w, " ");
    if w != [] {
      assert w[0] in w && s[i..i + |w|][0] == s[i];
      assert w == [w[0]] + w[1..];
      assert [w[0]] + w[1..] + " " == [w[0]] + (w[1..] + " ");
      LitParts(s, i, [w[0]], w[1..] + " ");
      SkipWordAt(s, i + 1, w[1..]);
    }
  }

  /** A bracketed number is read back. */
  lemma NumberAt(s: string, i: nat, n: nat)
    requires n <= INT_MAX && Lit(s, i, "[" + Decimal(n) + "]")
    ensures IntValue(s, P(i, None)) == n
    ensures IntEnd(s, P(i, None)) == P(i + |Decimal(n)| + 2, None)
  {
    hide Lit, Decimal, IsDigit, StringToInt;
    var ds := Decimal(n);
    assert "[" + ds + "]" == "[" + (ds + "]");
    LitHead(s, i, '[', ds + "]");
    LitParts(s, i + 1, ds, "]");
    var k := i + 1 + |ds|;
    LitHead(s, k, ']', "");
    TokenAt(s, i, '[');
    NoDigits();
    SkipDigitsAt(s, i + 1, ds);
    TokenAt(s, k, ']');
    LitDrop(s, i + 1, ds);
    StringToIntOfDecimal(n, s[k..]);
    NumberIs(s, i, k);
  }

  lemma NoDigits()
    ensures !IsDigit(']')
  {}

  lemma LitDrop(s: string, i: nat, d: string)
    requires Lit(s, i, d)
    ensures s[i..] == d + s[i + |d|..]
  {
    assert s[i..] == s[i..i + |d|] + s[i + |d|..];
  }

  lemma NumberIs(s: string, i: nat, k: nat)
    requires i < k <= |s|
    requires Token(s, P(i, None)) == '[' && AfterToken(s, P(i, None)) == P(i + 1, None)
    requires SkipDigits(s, i + 1) == k
    requires Token(s, P(k, None)) == ']' && AfterToken(s, P(k, None)) == P(k + 1, None)
    ensures IntEnd(s, P(i, None)) == P(k + 1, None)
    ensures IntValue(s, P(i, None)) == StringToInt(s[i + 1..])
  {
    hide Token, AfterToken, SkipDigits, StringToInt;
  }

  /** Parsing a printed message in front of any tail gives the message with its strings as printed,
      without a failure, and stops at the tail. */
  lemma {:induction false} ParsePrinted(m: Msg, s: string, i: nat)
    requires Shape(m) && Lit(s, i, Dump(m))
    ensures ParseMsg(s, P(i, None)) == (Escaped(m), P(i + |Dump(m)|, None))
    decreases m, 2
  {
    hide ParseMsg, ParseItems, Lit, Escape, Decimal;
    match m
    case Nul => NulAt(s, i);
    case Str(value) => StringAt(s, i, value);
    case Arr(items) =>
      ArrayHeadAt(s, i, items);
      ParsePrintedAll(items, s, i + |"L[" + Decimal(|items|) + "]"|);
    case Obj(len, key, val) => ObjectAt(m, s, i);
  }

  lemma NulAt(s: string, i: nat)
    requires Lit(s, i, "\"")
    ensures ParseMsg(s, P(i, None)) == (Nul, P(i + 1, None))
  {
    assert s[i..i + 1][0] == s[i];
    TokenAt(s, i, '\"');
  }

  lemma ArrayText(n: string, rest: string)
    ensures "L[" + n + "]" + rest == "L" + (("[" + n + "]") + rest)
  {}

  /** One character at the front of a text. */
  lemma LitHead(s: string, i: nat, c: char, rest: string)
    requires Lit(s, i, [c] + rest)
    ensures Lit(s, i + 1, rest) && i < |s| && s[i] == c
  {
    LitParts(s, i, [c], rest);
    assert s[i..i + 1][0] == s[i];
  }

  /** The head of an array, up to its first item. */
  lemma ArrayHeadAt(s: string, i: nat, items: seq<Msg>)
    requires |items| <= INT_MAX && Lit(s, i, "L[" + Decimal(|items|) + "]" + DumpAll(items))
    ensures var after := i + |"L[" + Decimal(|items|) + "]"|;
      && Lit(s, after, DumpAll(items))
      && var r := ParseItems(s, P(after, None), |items|);
         ParseMsg(s, P(i, None)) == (if r.1.Failed() && |items| > 0 then Nul else Arr(r.0), r.1)
  {
    hide Token, AfterToken, IntValue, IntEnd, ParseItems, DumpAll, Decimal, Lit, ParseMsg;
    var n, rest := Decimal(|items|), DumpAll(items);
    ArrayText(n, rest);
    LitHead(s, i, 'L', ("[" + n + "]") + rest);
    LitParts(s, i + 1, "[" + n + "]", rest);
    TokenAt(s, i, 'L');
    NumberAt(s, i + 1, |items|);
    ArrayIsParsed(s, P(i, None));
  }

  lemma ArrayIsParsed(s: string, p: P)
    requires Token(s, p) == 'L' && !AfterToken(s, p).Failed()
    ensures var n, p2 := IntValue(s, AfterToken(s, p)), IntEnd(s, AfterToken(s, p));
      var r := ParseItems(s, p2, if n < 0 then 0 else n);
      ParseMsg(s, p) == (if r.1.Failed() && n > 0 then Nul else Arr(r.0), r.1)
  {
    hide Token, AfterToken, IntValue, IntEnd, ParseItems;
  }

  lemma StringAt(s: string, i: nat, value: string)
    requires '\'' !in value && Lit(s, i, Dump(Str(value)))
    ensures ParseMsg(s, P(i, None)) == (Str(Escape(value)), P(i + |Dump(Str(value))|, None))
  {
    hide Escape, Token, AfterToken, FindQuote, ParseMsg, Lit;
    var e := Escape(value);
    EscapeKeepsQuotes(value);
    assert Dump(Str(value)) == "'" + (e + "'");
    LitHead(s, i, '\'', e + "'");
    LitParts(s, i + 1, e, "'");
    LitHead(s, i + 1 + |e|, '\'', "");
    TokenAt(s, i, '\'');
    FindQuoteAt(s, i + 1, e);
    StringIsParsed(s, P(i, None), e);
  }

  lemma StringIsParsed(s: string, p: P, e: string)
    requires Token(s, p) == '\'' && !AfterToken(s, p).Failed()
    requires Lit(s, AfterToken(s, p).i, e) && AfterToken(s, p).i + |e| < |s|
    requires FindQuote(s, AfterToken(s, p).i) == AfterToken(s, p).i + |e|
    ensures ParseMsg(s, p) == (Str(e), AfterToken(s, p).(i := AfterToken(s, p).i + |e| + 1))
  {
    hide Token, AfterToken, FindQuote;
  }

  lemma {:induction false} ParsePrintedAll(items: seq<Msg>, s: string, i: nat)
    requires (forall k :: 0 <= k < |items| ==> Shape(items[k])) && Lit(s, i, DumpAll(items))
    ensures ParseItems(s, P(i, None), |items|) == (EscapedAll(items), P(i + |DumpAll(items)|, None))
    decreases items, 0
  {
    hide ParseMsg, Shape, Lit, Dump, Escaped;
    if items != [] {
      LitParts(s, i, Dump(items[0]), DumpAll(items[1..]));
      ParsePrinted(items[0], s, i);
      ParsePrintedAll(items[1..], s, i + |Dump(items[0])|);
    }
  }

  /** The head of an object up to its key. */
  lemma ObjectNumberAt(s: string, i: nat, len: nat, tail: string)
    requires len <= INT_MAX && Lit(s, i, "<A[" + Decimal(len) + "]" + tail)
    ensures var after := i + |"<A[" + Decimal(len) + "]"|;
      && Lit(s, after, tail)
      && Token(s, P(i, None)) == '<' && AfterToken(s, P(i, None)) == P(i + 1, None)
      && Token(s, P(i + 1, None)) == 'A' && AfterToken(s, P(i + 1, None)) == P(i + 2, None)
      && IntValue(s, P(i + 2, None)) == len && IntEnd(s, P(i + 2, None)) == P(after, None)
  {
    hide Lit, Decimal, Token, AfterToken, IntValue, IntEnd;
    var number := "[" + Decimal(len) + "]";
    ObjectText(Decimal(len), tail);
    LitHead(s, i, '<', "A" + (number + tail));
    LitHead(s, i + 1, 'A', number + tail);
    LitParts(s, i + 2, number, tail);
    TokenAt(s, i, '<');
    TokenAt(s, i + 1, 'A');
    NumberAt(s, i + 2, len);
  }

  lemma ObjectText(n: string, tail: string)
    ensures "<A[" + n + "]" + tail == "<" + ("A" + (("[" + n + "]") + tail))
  {}

  /** The head of an object up to its name. */
  lemma ObjectHeadAt(s: string, i: nat, len: nat, key: string, tail: string)
    requires len <= INT_MAX && key != [] && forall c :: c in key ==> IsWord(c)
    requires Lit(s, i, "<A[" + Decimal(len) + "]" + (" " + (key + " " + tail)))
    ensures var after := i + |"<A[" + Decimal(len) + "]"| + |key| + 2;
      && Lit(s, after, tail)
      && ParseMsg(s, P(i, None)) == ParseObjectRest(s, P(after, None), len, key)
  {
    var rest, k := " " + (key + " " + tail), i + |"<A[" + Decimal(len) + "]"|;
    hide Decimal, Token, AfterToken, IntValue, IntEnd, SkipWord, ParseObject, ParseObjectRest, IsWord, Lit, ParseMsg;
    ObjectNumberAt(s, i, len, rest);
    SpaceKeySpace(s, k, key, tail, rest);
    KeyAt(s, k, key);
    ObjectIsParsed(s, P(i, None));
    KeyIsParsed(s, P(i + 1, None), k, len, key);
  }

  lemma SpaceKeySpace(s: string, k: nat, key: string, tail: string, rest: string)
    requires rest == " " + (key + " " + tail) && Lit(s, k, rest)
    ensures k < |s| && s[k] == ' ' && Lit(s, k + 1, key + " ") && Lit(s, k + |key| + 2, tail)
  {
    hide Lit;
    LitHead(s, k, ' ', key + " " + tail);
    LitParts(s, k + 1, key + " ", tail);
  }

  lemma KeyIsParsed(s: string, p: P, k: nat, len: nat, key: string)
    requires key != []
    requires Token(s, p) == 'A' && IntValue(s, AfterToken(s, p)) == len && IntEnd(s, AfterToken(s, p)) == P(k, None)
    requires Token(s, P(k, None)) == key[0] && AfterToken(s, P(k, None)) == P(k + 2, None)
    requires IsWord(key[0]) && SkipWord(s, k + 2) == k + 2 + |key|
    requires CharAt(s, k + 1 + |key|) == ' ' && k + 1 + |key| < |s| && s[k + 1..k + 1 + |key|] == key
    ensures ParseObject(s, p) == ParseObjectRest(s, P(k + 2 + |key|, None), len, key)
  {
    hide Token, AfterToken, IntValue, IntEnd, SkipWord, ParseObjectRest, IsWord, CharAt;
  }

  lemma ObjectIsParsed(s: string, p: P)
    requires Token(s, p) == '<' && !AfterToken(s, p).Failed()
    ensures ParseMsg(s, p) == ParseObject(s, AfterToken(s, p))
  {
    hide Token, AfterToken, ParseObject;
  }

  /** One space, then a key and one more space: the key is read and the second space consumed. */
  lemma KeyAt(s: string, k: nat, key: string)
    requires key != [] && forall c :: c in key ==> IsWord(c)
    requires k < |s| && s[k] == ' ' && Lit(s, k + 1, key + " ")
    ensures Token(s, P(k, None)) == key[0] && AfterToken(s, P(k, None)) == P(k + 2, None)
    ensures IsWord(key[0]) && SkipWord(s, k + 2) == k + 2 + |key|
    ensures CharAt(s, k + 1 + |key|) == ' ' && k + 1 + |key| < |s| && s[k + 1..k + 1 + |key|] == key
  {
    assert key[0] in key;
    LitParts(s, k + 1, key, " ");
    assert s[k + 1..k + 1 + |key|][0] == s[k + 1];
    assert SkipSpace(s, k + 1) == k + 1;
    assert SkipSpace(s, k) == k + 1;
    hide SkipSpace, IsSpace;
    assert key + " " == [key[0]] + (key[1..] + " ");
    LitParts(s, k + 1, [key[0]], key[1..] + " ");
    SkipWordAt(s, k + 2, key[1..]);
  }

  lemma {:induction false} ObjectAt(m: Msg, s: string, i: nat)
    requires m.Obj? && Shape(m) && Lit(s, i, Dump(m))
    ensures ParseMsg(s, P(i, None)) == (Escaped(m), P(i + |Dump(m)|, None))
    decreases m, 1
  {
    hide Lit, ParseMsg, ParseObjectRest, Token, AfterToken, Expects, Decimal;
    var n, d := Decimal(m.len), Dump(m.val);
    var tail := "ID=" + (d + ">");
    ObjectTail(n, m.key, d);
    ObjectHeadAt(s, i, m.len, m.key, tail);
    var k := i + |"<A[" + n + "]"| + |m.key| + 2;
    ObjectNameAt(s, k, d);
    assert |Dump(m)| == k + 3 + |d| + 1 - i;
    ParsePrinted(m.val, s, k + 3);
    ObjectRestIs(s, k, |d|, m.len, m.key, Escaped(m.val));
  }

  lemma ObjectTail(n: string, key: string, d: string)
    ensures "<A[" + n + "] " + key + " ID=" + d + ">" == "<A[" + n + "]" + (" " + (key + " " + ("ID=" + (d + ">"))))
  {
    var a, b := "<A[" + n + "] " + key + " ID=" + d + ">", "<A[" + n + "]" + (" " + (key + " " + ("ID=" + (d + ">"))));
    assert a == "<A[" + n + "] " + (key + " ID=" + d + ">");
    assert key + " ID=" + d + ">" == key + " " + ("ID=" + (d + ">"));
    assert "<A[" + n + "] " == "<A[" + n + "]" + " ";
    assert b == "<A[" + n + "]" + " " + (key + " " + ("ID=" + (d + ">")));
  }

  /** `ID=`, a printed value and the closing bracket. */
  lemma ObjectNameAt(s: string, k: nat, d: string)
    requires Lit(s, k, "ID=" + (d + ">"))
    ensures Lit(s, k + 3, d) && k + 3 + |d| < |s|
    ensures AfterToken(s, P(k, None)) == P(k + 1, None) && Expects(s, k + 1, "ID")
    ensures AfterToken(s, P(k + 2, None)) == P(k + 3, None) && Expects(s, k + 3, "=")
    ensures Token(s, P(k + 3 + |d|, None)) == '>' && AfterToken(s, P(k + 3 + |d|, None)) == P(k + 4 + |d|, None)
  {
    LitParts(s, k, "ID=", d + ">");
    LitParts(s, k + 3, d, ">");
    var e := k + 3 + |d|;
    assert s[k..k + 3] == "ID=";
    assert s[k..k + 3][0] == s[k] && s[k..k + 3][2] == s[k + 2] && s[e..e + 1][0] == s[e];
    assert s[k..k + 2] == s[k..k + 3][..2] && s[k + 2..k + 3] == s[k..k + 3][2..];
    TokenAt(s, k, 'I');
    TokenAt(s, k + 2, '=');
    TokenAt(s, e, '>');
  }

  lemma ObjectRestIs(s: string, k: nat, d: nat, len: int, key: string, val: Msg)
    requires AfterToken(s, P(k, None)) == P(k + 1, None) && Expects(s, k + 1, "ID")
    requires AfterToken(s, P(k + 2, None)) == P(k + 3, None) && Expects(s, k + 3, "=")
    requires ParseMsg(s, P(k + 3, None)) == (val, P(k + 3 + d, None))
    requires Token(s, P(k + 3 + d, None)) == '>' && AfterToken(s, P(k + 3 + d, None)) == P(k + 4 + d, None)
    ensures ParseObjectRest(s, P(k, None), len, key) == (Obj(len, key, val), P(k + 4 + d, None))
  {
    hide ParseMsg, Token, AfterToken, Expects;
  }

  // ---------------------------------------------------------------- what a parser can return

  lemma {:induction false} TrimIsSkip(s: string, i: nat)
    requires i <= |s|
    ensures TrimSpace(s[i..]) == s[SkipSpace(s, i)..]
    decreases Left(s, i)
  {
    if IsSpace(CharAt(s, i)) {
      TrimIsSkip(s, i + 1);
      assert s[i..][1..] == s[i + 1..];
    }
  }

  lemma MinusIsNoNumber(s: string, p: P)
    requires AfterToken(s, p).i <= |s| && CharAt(s, SkipSpace(s, AfterToken(s, p).i)) == '-'
    ensures IntEnd(s, p).Failed()
  {}

  /** A bracketed number that was accepted is not negative. */
  lemma AcceptedNumbers(s: string, p: P)
    requires !IntEnd(s, p).Failed()
    ensures 0 <= IntValue(s, p) <= INT_MAX
  {
    var a := AfterToken(s, p).i;
    if a <= |s| {
      TrimIsSkip(s, a);
      var j := SkipSpace(s, a);
      if CharAt(s, j) == '-' {
        MinusIsNoNumber(s, p);
      }
    }
  }

  /** Whatever is parsed without a failure has strings without quotes, word keys and int sizes. */
  lemma {:induction false} ParsedShape(s: string, p: P)
    requires !ParseMsg(s, p).1.Failed()
    ensures Shape(ParseMsg(s, p).0)
    decreases Left(s, p.i), 0, 0
  {
    hide IntValue, IntEnd, Token, ParseObject, ParseItems;
    var ch, p1 := Token(s, p), AfterToken(s, p);
    if ch == '<' {
      ParsedObject(s, p1);
    } else if ch == 'L' {
      if IntEnd(s, p1).Failed() {
        FailedNumber(s, p1);
      } else {
        AcceptedNumbers(s, p1);
        ParsedItems(s, IntEnd(s, p1), IntValue(s, p1));
      }
    } else if ch == '\'' {
      QuoteFree(s, p1.i);
    }
  }

  lemma QuoteFree(s: string, i: nat)
    requires i <= FindQuote(s, i) < |s|
    ensures '\'' !in s[i..FindQuote(s, i)]
  {
    var j := FindQuote(s, i);
    assert forall k :: 0 <= k < j - i ==> s[i..j][k] == s[i + k];
  }

  /** A failure in the number is still a failure after the items. */
  lemma FailedNumber(s: string, p1: P)
    requires IntEnd(s, p1).Failed() && !p1.Failed()
    ensures IntValue(s, p1) == 0 && ParseItems(s, IntEnd(s, p1), 0) == ([], IntEnd(s, p1))
  {
    hide StringToInt, SkipDigits;
  }

  lemma {:induction false} ParsedItems(s: string, p: P, count: nat)
    requires !ParseItems(s, p, count).1.Failed()
    ensures |ParseItems(s, p, count).0| == count
    ensures forall k :: 0 <= k < count ==> Shape(ParseItems(s, p, count).0[k])
    decreases Left(s, p.i), 1, count
  {
    if count > 0 {
      ParsedShape(s, p);
      ParsedItems(s, ParseMsg(s, p).1, count - 1);
    }
  }

  lemma {:induction false} ParsedObject(s: string, p: P)
    requires !ParseObject(s, p).1.Failed()
    ensures Shape(ParseObject(s, p).0)
    decreases Left(s, p.i), 2, 0
  {
    hide IntValue, IntEnd, Token, SkipWord, ParseObjectRest, Shape;
    var p1 := AfterToken(s, p);
    AcceptedNumbers(s, p1);
    var n, p2 := IntValue(s, p1), IntEnd(s, p1);
    var first, p3 := Token(s, p2), AfterToken(s, p2);
    TokenIsNoSpace(s, p2);
    var stop := SkipWord(s, p3.i);
    KeyIsWord(s, p2);
    ParsedObjectRest(s, p3.(i := stop), n, s[p3.i - 1..stop - 1]);
  }

  lemma TokenIsNoSpace(s: string, p: P)
    ensures !IsSpace(Token(s, p))
  {}

  lemma KeyIsWord(s: string, p: P)
    requires IsWord(Token(s, p)) && IsSpace(CharAt(s, SkipWord(s, AfterToken(s, p).i) - 1))
    ensures var i, stop := AfterToken(s, p).i, SkipWord(s, AfterToken(s, p).i);
      && 0 < i < stop <= |s|
      && forall c :: c in s[i - 1..stop - 1] ==> IsWord(c)
  {
    hide SkipWord, IsWord, Token, AfterToken;
    var i, stop := AfterToken(s, p).i, SkipWord(s, AfterToken(s, p).i);
    WordChars();
    TokenIsChar(s, p);
    assert stop <= |s|;
    WordsIn(s, i, stop);
  }

  lemma WordChars()
    ensures !IsWord('\0')
  {}

  lemma TokenIsChar(s: string, p: P)
    requires Token(s, p) != '\0'
    ensures AfterToken(s, p).i > 0 && CharAt(s, AfterToken(s, p).i - 1) == Token(s, p)
  {}

  lemma WordsIn(s: string, i: nat, stop: nat)
    requires 0 < i < stop <= |s| && IsWord(CharAt(s, i - 1))
    requires forall k :: i <= k < stop - 1 ==> IsWord(CharAt(s, k))
    ensures forall c :: c in s[i - 1..stop - 1] ==> IsWord(c)
  {
    hide IsWord;
    forall c | c in s[i - 1..stop - 1] ensures IsWord(c) {
      var k :| 0 <= k < |s[i - 1..stop - 1]| && s[i - 1..stop - 1][k] == c;
      assert c == CharAt(s, i - 1 + k);
    }
  }

  lemma {:induction false} ParsedObjectRest(s: string, p: P, n: nat, key: string)
    requires n <= INT_MAX && key != [] && forall c :: c in key ==> IsWord(c)
    requires !ParseObjectRest(s, p, n, key).1.Failed()
    ensures Shape(ParseObjectRest(s, p, n, key).0)
    decreases Left(s, p.i), 1, 0
  {
    hide ParseMsg, Token, Expects;
    var p1 := AfterToken(s, p);
    var p2 := AfterToken(s, p1.(i := p1.i + 1));
    FailureStays(s, ParseMsg(s, p2).1);
    ParsedShape(s, p2);
  }

  lemma FailureStays(s: string, p: P)
    ensures p.Failed() ==> AfterToken(s, p).Failed()
  {}

  // ---------------------------------------------------------------- the round trip

  /** A clean message is one the parser can return and the printer leaves alone. */
  lemma {:induction false} CleanIff(m: Msg)
    ensures Clean(m) <==> Shape(m) && Escaped(m) == m
  {
    match m
    case Nul =>
    case Str(value) => EscapeGrows(value);
    case Arr(items) => CleanAllIff(items);
    case Obj(len, key, val) => CleanIff(val);
  }

  lemma {:induction false} CleanAllIff(items: seq<Msg>)
    ensures (forall k :: 0 <= k < |items| ==> Clean(items[k])) <==>
            (forall k :: 0 <= k < |items| ==> Shape(items[k])) && EscapedAll(items) == items
  {
    if items != [] {
      CleanIff(items[0]);
      CleanAllIff(items[1..]);
      var rest := items[1..];
      assert items == [items[0]] + rest;
      assert forall k :: 0 < k < |items| ==> items[k] == rest[k - 1];
      assert EscapedAll(items)[0] == Escaped(items[0]) && EscapedAll(items)[1..] == EscapedAll(rest);
    }
  }

  /** The strong form: a clean message in front of any tail is read back whole and the parser stops
      at the tail. */
  lemma CleanThenTail(m: Msg, before: string, tail: string)
    requires Clean(m)
    ensures ParseMsg(before + Dump(m) + tail, P(|before|, None)) == (m, P(|before + Dump(m)|, None))
  {
    hide Dump, ParseMsg, Clean, Shape, Escaped;
    var s := before + Dump(m) + tail;
    assert s[|before|..|before| + |Dump(m)|] == Dump(m);
    assert Lit(s, |before|, Dump(m));
    CleanIff(m);
    ParsePrinted(m, s, |before|);
  }

  /** Printing and parsing gives a message back exactly when it is clean. */
  lemma RoundTripIff(m: Msg)
    ensures Parse(Dump(m)) == (m, None) <==> Clean(m)
  {
    hide Dump, ParseMsg, Clean, Shape, Escaped;
    var s := Dump(m);
    CleanIff(m);
    assert s[0..0 + |s|] == s;
    assert Lit(s, 0, s);
    if Shape(m) {
      ParsePrinted(m, s, 0);
      assert SkipSpace(s, |s|) == |s|;
    } else if Parse(s) == (m, None) {
      ParsedShape(s, P(0, None));
    }
  }

  // ---------------------------------------------------------------- the S and F numbers in front

  /** The printed form of a request. */
  function Serialize(s: int, f: int, m: Msg): string {
    "S" + Decimal(s) + "F" + Decimal(f) + Dump(m)
  }

  lemma PrintedRequest(m: Msg)
    ensures Serialize(1, 3, m) == "S1F3" + Dump(m)
  {
    hide Dump;
    assert Decimal(1) == "1" && Decimal(3) == "3";
  }

  datatype SF = SF(pos: Option<nat>, S: int, F: int)

  /** A bounded scan over digits. */
  function PassDigits(t: string, i: nat): (j: nat)
    ensures j >= i
    decreases Left(t, i)
  {
    if i < |t| && IsDigit(t[i]) then PassDigits(t, i + 1) else i
  }

  function PassSpace(t: string, i: nat): (j: nat)
    ensures j >= i
    decreases Left(t, i)
  {
    if i < |t| && IsSpace(t[i]) then PassSpace(t, i + 1) else i
  }

  /** `parseSF`: the place behind the numbers, none when they are malformed. */
  function ParseSF(t: string): SF {
    var i := PassSpace(t, 0);
    if i >= |t| || t[i] != 'S' then SF(None, 0, 0)
    else
      var S := StringToInt(Drop(t, i + 1));
      var j := PassDigits(t, i + 1);
      if j >= |t| || t[j] != 'F' then SF(None, S, 0)
      else SF(Some(PassDigits(t, j + 1)), S, StringToInt(Drop(t, j + 1)))
  }

  /** The C string: everything before the first zero byte. */
  function CStr(t: string): (r: string)
    ensures |r| <= |t| && r == t[..|r|]
    ensures '\0' !in t ==> r == t
    ensures t != [] && t[0] != '\0' ==> r != []
  {
    if t == [] || t[0] == '\0' then [] else [t[0]] + CStr(t[1..])
  }

  /** `parseMsg`; the message is left open when the numbers are malformed. */
  datatype Telegram = Telegram(S: int, F: int, body: Option<(Msg, Option<string>)>)

  function ParseTelegram(t: string): Telegram {
    var sf := ParseSF(t);
    Telegram(sf.S, sf.F, if sf.pos.None? then None else Some(Parse(CStr(Drop(t, sf.pos.value)))))
  }

  /** A number in front of something that is no digit. */
  lemma NumberInFront(a: string, n: nat, rest: string)
    requires n <= INT_MAX && rest != [] && !IsDigit(rest[0])
    ensures StringToInt(Drop(a + Decimal(n) + rest, |a|)) == n
    ensures PassDigits(a + Decimal(n) + rest, |a|) == |a| + |Decimal(n)|
  {
    hide StringToInt, Decimal, IsDigit, PassDigits, Drop;
    var ds := Decimal(n);
    StringToIntOfDecimal(n, rest);
    Middle(a, ds, rest);
    PassDigitsAt(a + ds + rest, |a|, |ds|);
  }

  lemma Middle(a: string, b: string, c: string)
    ensures Drop(a + b + c, |a|) == b + c && Drop(a + b + c, |a + b|) == c
    ensures forall k :: |a| <= k < |a| + |b| ==> (a + b + c)[k] in b
    ensures c != [] ==> (a + b + c)[|a| + |b|] == c[0]
  {
    var t := a + b + c;
    assert t[|a + b|..] == c;
    assert t[|a|..] == b + c;
    forall k | |a| <= k < |a| + |b| ensures t[k] in b {
      assert t[k] == b[k - |a|];
    }
  }

  lemma {:induction false} PassDigitsAt(t: string, i: nat, n: nat)
    requires i + n < |t| && !IsDigit(t[i + n])
    requires forall k :: i <= k < i + n ==> IsDigit(t[k])
    ensures PassDigits(t, i) == i + n
    decreases n
  {
    hide IsDigit;
    if n > 0 {
      PassDigitsAt(t, i + 1, n - 1);
    }
  }

  /** A negative number starts with a sign, followed by a digit. */
  lemma NegativeDecimal(n: int)
    requires n < 0
    ensures |Decimal(n)| >= 2 && Decimal(n)[0] == '-' && IsDigit(Decimal(n)[1])
  {
    assert Decimal(n) == "-" + Decimal(-n);
    assert Decimal(n)[1] == Decimal(-n)[0];
    assert Decimal(-n)[0] in Decimal(-n);
  }

  /** A printed message starts with one of four characters. */
  lemma DumpStarts(m: Msg)
    ensures Dump(m) != [] && !IsDigit(Dump(m)[0])
  {
    hide Decimal, Escape, DumpAll;
  }

  /** A number and its letter, printed and scanned. */
  lemma SerializedNumbers(s: int, f: int, m: Msg)
    requires 0 <= s <= INT_MAX && 0 <= f <= INT_MAX
    ensures var sf := ParseSF(Serialize(s, f, m));
      && sf.S == s && sf.F == f && sf.pos.Some?
      && Drop(Serialize(s, f, m), sf.pos.value) == Dump(m)
  {
    hide Decimal, Dump, StringToInt, IsDigit, PassDigits, Drop;
    var d, n := Dump(m), Decimal(s);
    var rest := "F" + (Decimal(f) + d);
    var a := "S" + n + "F";
    var t := a + Decimal(f) + d;
    assert Serialize(s, f, m) == t;
    Regroup(n, Decimal(f), d);
    LetterF();
    NumberInFront("S", s, rest);
    DumpStarts(m);
    NumberInFront(a, f, d);
    Middle(a, Decimal(f), d);
    StartsWithS(t);
    assert t[|a| - 1] == 'F';
  }

  lemma Regroup(n: string, f: string, d: string)
    ensures "S" + n + "F" + f + d == "S" + n + ("F" + (f + d))
  {
    var x := "S" + n;
    assert x + "F" + f + d == x + ("F" + (f + d));
  }

  lemma StartsWithS(t: string)
    requires t != [] && t[0] == 'S'
    ensures PassSpace(t, 0) == 0
  {}

  lemma LetterF()
    ensures !IsDigit('F')
  {}

  /** A negative first number is refused. */
  lemma NegativeS(s: int, f: int, m: Msg)
    requires s < 0
    ensures ParseTelegram(Serialize(s, f, m)).body == None
  {
    SerializedStarts(s, f, m);
    NegativeDecimal(s);
    hide Decimal, Dump, StringToInt, Parse, PassSpace, PassDigits, Serialize;
    var t := Serialize(s, f, m);
    StartsWithS(t);
    SignStops(t, 1);
  }

  lemma SerializedStarts(s: int, f: int, m: Msg)
    ensures var t := Serialize(s, f, m); |t| > 1 && t[0] == 'S' && t[1] == Decimal(s)[0]
  {
    hide Decimal, Dump;
  }

  /** A negative second number is left for the message parser, which complains about what follows. */
  lemma NegativeF(s: int, f: int, m: Msg)
    requires 0 <= s <= INT_MAX && f < 0
    ensures ParseTelegram(Serialize(s, f, m)).body.Some?
    ensures ParseTelegram(Serialize(s, f, m)).body.value.1.Some?
  {
    hide Decimal, Dump, StringToInt, IsDigit, PassDigits, Parse, CStr, Drop;
    var n, g, d := Decimal(s), Decimal(f), Dump(m);
    var t := Serialize(s, f, m);
    Regroup(n, g, d);
    LetterF();
    NumberInFront("S", s, "F" + (g + d));
    NegativeDecimal(f);
    StartsWithS(t);
    var k := 1 + |n| + 1;
    assert t == ("S" + n + "F") + g + d;
    assert t[k - 1] == 'F' && t[k] == '-' && t[k + 1] == g[1];
    SignStops(t, k);
    DropStarts(t, k);
    SignIsTrailing(Drop(t, k));
  }

  lemma DropStarts(t: string, k: nat)
    requires k + 1 < |t|
    ensures |Drop(t, k)| >= 2 && Drop(t, k)[0] == t[k] && Drop(t, k)[1] == t[k + 1]
  {}

  lemma SignStops(t: string, k: nat)
    requires k < |t| && t[k] == '-'
    ensures PassDigits(t, k) == k
  {}

  lemma SignIsTrailing(t: string)
    requires |t| >= 2 && t[0] == '-' && IsDigit(t[1])
    ensures Parse(CStr(t)).1.Some?
  {
    hide ParseMsg, Token, AfterToken;
    var c := CStr(t);
    assert c == [t[0]] + CStr(t[1..]);
    assert t[1..][0] == t[1];
    assert c[0] == '-' && |c| >= 2 && c[1] == t[1];
    TokenAt(c, 0, '-');
    StrangeIsNul(c, P(0, None));
  }

  /** Any other character is taken for an empty message. */
  lemma StrangeIsNul(s: string, p: P)
    requires Token(s, p) == '-' && !AfterToken(s, p).Failed()
    ensures ParseMsg(s, p) == (Nul, AfterToken(s, p))
  {
    hide Token, AfterToken;
  }

  // ---------------------------------------------------------------- no zero byte in print

  lemma {:induction false} EscapeNoZero(v: string)
    ensures '\0' !in Escape(v)
    decreases |v|
  {
    if v != [] {
      EscapeNoZero(if IsLineSeparator(v) then v[3..] else v[1..]);
      EscapeCharNoZero(v[0]);
    }
  }

  lemma EscapeCharNoZero(c: char)
    ensures '\0' !in EscapeChar(c)
  {
    if c <= '\U{1f}' {
      HexNoZero(c as nat / 16);
      HexNoZero(c as nat % 16);
    }
  }

  lemma HexNoZero(d: nat)
    requires d < 16
    ensures HexDigit(d) != '\0'
  {}

  lemma DecimalNoZero(n: nat)
    ensures '\0' !in Decimal(n)
  {
    assert !IsDigit('\0');
  }

  lemma {:induction false} DumpNoZero(m: Msg)
    requires Shape(m)
    ensures '\0' !in Dump(m)
  {
    hide Escape, Decimal, IsWord;
    match m
    case Nul =>
    case Str(value) => EscapeNoZero(value);
    case Arr(items) =>
      DecimalNoZero(|items|);
      DumpAllNoZero(items);
    case Obj(len, key, val) =>
      DecimalNoZero(len);
      DumpNoZero(val);
      WordChars();
  }

  lemma {:induction false} DumpAllNoZero(items: seq<Msg>)
    requires forall k :: 0 <= k < |items| ==> Shape(items[k])
    ensures '\0' !in DumpAll(items)
  {
    hide Shape, Dump;
    if items != [] {
      DumpNoZero(items[0]);
      DumpAllNoZero(items[1..]);
    }
  }

  /** A printed request is read back exactly when its numbers are not negative and its message is
      clean. */
  lemma TelegramRoundTripIff(s: int, f: int, m: Msg)
    requires INT_MIN <= s <= INT_MAX && INT_MIN <= f <= INT_MAX
    ensures ParseTelegram(Serialize(s, f, m)) == Telegram(s, f, Some((m, None))) <==> s >= 0 && f >= 0 && Clean(m)
  {
    hide Serialize, ParseSF, Parse, Dump, Clean, Shape;
    if s < 0 {
      NegativeS(s, f, m);
    } else if f < 0 {
      NegativeF(s, f, m);
    } else {
      SerializedNumbers(s, f, m);
      RoundTripIff(m);
      if Shape(m) {
        DumpNoZero(m);
      } else {
        CleanIff(m);
        OnlyShapes(CStr(Dump(m)), m);
      }
    }
  }

  /** Whatever text is parsed, a message the parser cannot return does not come back. */
  lemma OnlyShapes(t: string, m: Msg)
    requires !Shape(m)
    ensures Parse(t) != (m, None)
  {
    hide ParseMsg, Shape;
    if Parse(t) == (m, None) {
      ParsedShape(t, P(0, None));
    }
  }

  // ---------------------------------------------------------------- the parser object

  class MsgParser {
    const str: string
    var i: nat
    var err: string
    var failed: bool

    ghost function View(): P
      reads this
    {
      P(i, if failed then Some(err) else None)
    }

    constructor (s: string)
      ensures str == s && View() == P(0, None)
    {
      str, i, err, failed := s, 0, "", false;
    }

    method Fail(msg: string)
      modifies `err, `failed
      ensures View() == old(View()).Fail(msg)
    {
      if !failed {
        err := msg;
      }
      failed := true;
    }

    method ConsumeWhitespace()
      modifies `i
      ensures i == SkipSpace(str, old(i))
    {
      while IsSpace(CharAt(str, i))
        invariant SkipSpace(str, i) == SkipSpace(str, old(i))
        decreases Left(str, i)
      {
        i := i + 1;
      }
    }

    method GetNextToken() returns (c: char)
      modifies this
      ensures c == Token(str, old(View())) && View() == AfterToken(str, old(View()))
    {
      ConsumeWhitespace();
      assert View() == old(View()).(i := i);
      if i == |str| {
        Fail("unexpected end of input");
        assert View() == AfterToken(str, old(View()));
        return '\0';
      }
      c := CharAt(str, i);
      i := i + 1;
    }

    method ParseInt() returns (n: int)
      modifies this
      ensures n == IntValue(str, old(View())) && View() == IntEnd(str, old(View()))
    {
      hide Token, AfterToken, StringToInt;
      var c := GetNextToken();
      if c != '[' {
        Fail("expected L[n]");
        return 0;
      }
      ghost var p1 := View();
      var start := i;
      while IsDigit(CharAt(str, i))
        invariant SkipDigits(str, i) == SkipDigits(str, start)
        invariant View() == p1.(i := i)
        decreases Left(str, i)
      {
        i := i + 1;
      }
      n := StringToInt(Drop(str, start));
      c := GetNextToken();
      if c != ']' {
        Fail("expected L[n]");
        return 0;
      }
    }

    method Expect(expected: string) returns (ok: bool)
      requires i != 0 && expected != []
      modifies `i
      ensures ok == Expects(str, old(i), expected)
      ensures i == if ok then old(i) + |expected| - 1 else old(i)
    {
      ok := Expects(str, i, expected);
      if ok {
        i := i + |expected| - 1;
      }
    }

    /** The loop over the characters of a key: the last character read is returned. */
    method SkipKey(first: char) returns (ch: char)
      modifies `i
      ensures i == if IsWord(first) then SkipWord(str, old(i)) else old(i)
      ensures ch == if IsWord(first) then CharAt(str, i - 1) else first
    {
      hide IsWord;
      ch := first;
      while IsWord(ch)
        invariant i >= old(i) && ch == if i == old(i) then first else CharAt(str, i - 1)
        invariant (if IsWord(ch) then SkipWord(str, i) else i) ==
                  if IsWord(first) then SkipWord(str, old(i)) else old(i)
        decreases IsWord(ch), Left(str, i), i == old(i)
      {
        assert i >= |str| ==> CharAt(str, i) == '\0' && !IsWord('\0') by { WordChars(); }
        ch := CharAt(str, i);
        i := i + 1;
      }
    }

    method ReadMsg() returns (m: Msg)
      modifies this
      ensures (m, View()) == ParseMsg(str, old(View()))
      decreases Left(str, i), 0
    {
      hide Token, AfterToken, ParseObject, ParseItems, IntValue, IntEnd;
      var ch := GetNextToken();
      if failed || ch == '"' {
        return Nul;
      }
      ghost var p1 := View();
      if ch == '\'' {
        var start := i;
        while i < |str| && str[i] != '\''
          invariant i >= start && FindQuote(str, i) == FindQuote(str, start)
          invariant View() == p1.(i := i)
        {
          i := i + 1;
        }
        if i >= |str| {
          Fail("expected '<str>'");
          return Nul;
        }
        i := i + 1;
        return Str(str[start..i - 1]);
      }
      if ch == '<' {
        m := ReadObject();
        return;
      }
      if ch == 'L' {
        m := ReadArray();
        return;
      }
      return Nul;
    }

    method ReadArray() returns (m: Msg)
      modifies this
      ensures var n, p := IntValue(str, old(View())), IntEnd(str, old(View()));
        var r := ParseItems(str, p, if n < 0 then 0 else n);
        (m, View()) == (if r.1.Failed() && n > 0 then Nul else Arr(r.0), r.1)
      decreases Left(str, i), 1
    {
      hide IntValue, IntEnd, ParseMsg;
      var n := ParseInt();
      ghost var p := View();
      ghost var count: nat := if n < 0 then 0 else n;
      ghost var all := ParseItems(str, p, count);
      var items := [];
      var j := 0;
      while j < n
        invariant 0 <= j <= count
        invariant p.i <= i && old(i) <= i && (j > 0 ==> !failed)
        invariant all.0 == items + ParseItems(str, View(), count - j).0
        invariant all.1 == ParseItems(str, View(), count - j).1
      {
        ghost var before := View();
        var item := ReadMsg();
        if failed {
          return Nul;
        }
        assert items + ParseItems(str, before, count - j).0 == items + [item] + ParseItems(str, View(), count - j - 1).0;
        items := items + [item];
        j := j + 1;
      }
      assert items + [] == items;
      return Arr(items);
    }

    method ReadObject() returns (m: Msg)
      modifies this
      ensures (m, View()) == ParseObject(str, old(View()))
      decreases Left(str, i), 1
    {
      hide Token, AfterToken, IntValue, IntEnd, IsWord, SkipWord, ParseObjectRest;
      var ch := GetNextToken();
      if ch != 'A' {
        Fail("expected <A[n]");
        return Nul;
      }
      var n := ParseInt();
      if failed {
        return Nul;
      }
      TokenIsNoSpace(str, View());
      ch := GetNextToken();
      WordChars();
      var start := i - 1;
      ch := SkipKey(ch);
      if !IsSpace(ch) {
        Fail("expected space or object key with error");
        return Nul;
      }
      var key := str[start..i - 1];
      m := ReadObjectRest(n, key);
    }

    /** The rest of an object, behind its key. */
    method ReadObjectRest(n: int, key: string) returns (m: Msg)
      modifies this
      ensures (m, View()) == ParseObjectRest(str, old(View()), n, key)
      decreases Left(str, i), 1
    {
      hide Token, AfterToken, ParseMsg;
      var ch := GetNextToken();
      if i == 0 || !Expects(str, i, "ID") {
        Fail("expected ID");
        return Nul;
      }
      var ok := Expect("ID");
      ch := GetNextToken();
      ok := Expect("=");
      if !ok {
        Fail("expected =");
        return Nul;
      }
      m := ReadMsg();
      ch := GetNextToken();
      if ch != '>' {
        Fail("expected >");
        return Nul;
      }
      return Obj(n, key, m);
    }
  }

  /** `Msg::parse` with the parser object. */
  method ParseText(s: string) returns (m: Msg, err: Option<string>)
    ensures (m, err) == Parse(s)
  {
    hide ParseMsg;
    var parser := new MsgParser(s);
    m := parser.ReadMsg();
    parser.ConsumeWhitespace();
    if parser.i != |s| {
      parser.Fail("unexpected trailing");
      m := Nul;
    }
    err := if parser.failed then Some(parser.err) else None;
  }

  method ScanSpace(t: string) returns (i: nat)
    ensures i == PassSpace(t, 0)
  {
    hide IsSpace;
    i := 0;
    while i < |t| && IsSpace(t[i])
      invariant PassSpace(t, i) == PassSpace(t, 0)
    {
      i := i + 1;
    }
  }

  method ScanDigits(t: string, start: nat) returns (i: nat)
    ensures i == PassDigits(t, start)
  {
    hide IsDigit;
    i := start;
    while i < |t| && IsDigit(t[i])
      invariant PassDigits(t, i) == PassDigits(t, start)
    {
      i := i + 1;
    }
  }

  /** `parseSF` with its scans. */
  method ReadSF(t: string) returns (sf: SF)
    ensures sf == ParseSF(t)
  {
    hide StringToInt, PassSpace, PassDigits;
    var i := ScanSpace(t);
    if i >= |t| || t[i] != 'S' {
      return SF(None, 0, 0);
    }
    var S := StringToInt(Drop(t, i + 1));
    i := ScanDigits(t, i + 1);
    if i >= |t| || t[i] != 'F' {
      return SF(None, S, 0);
    }
    var start := i + 1;
    i := ScanDigits(t, start);
    return SF(Some(i), S, StringToInt(Drop(t, start)));
  }

  /** `parseMsg`. */
  method ReadTelegram(t: string) returns (r: Telegram)
    ensures r == ParseTelegram(t)
  {
    hide ParseSF, Parse, CStr;
    var sf := ReadSF(t);
    if sf.pos.None? {
      return Telegram(sf.S, sf.F, None);
    }
    var m, err := ParseText(CStr(Drop(t, sf.pos.value)));
    r := Telegram(sf.S, sf.F, Some((m, err)));
  }
}
