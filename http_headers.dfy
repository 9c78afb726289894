/** The header block of an HTTP/1.1 response as `HttpResponse`
    (lib/Rest/HttpResponse.cpp) reads and writes it: the Status-Line of
    section 6.1 of RFC 2616, `key: value` message headers (section 4.2) and
    the Content-Length / Transfer-Encoding choice of section 4.4. Everything
    here works on values; the response class is proved against it. */
module HttpHeaders {
  import opened Chars
  import opened HttpCodes

  /** The `_headers` dictionary: lower-case key to value. */
  type Headers = map<string, string>

  const ContentLengthKey: string := "content-length"
  const TransferEncodingKey: string := "transfer-encoding"

  // ---------------------------------------------------------------------
  // Reading (setHeaders)
  // ---------------------------------------------------------------------

  /** Offset of the first newline of `s`, or `|s|` when there is none. */
  function LineEnd(s: string): (e: nat)
    ensures e <= |s| && '\n' !in s[..e]
    ensures e == |s| || s[e] == '\n'
  {
    if s == [] || s[0] == '\n' then 0
    else
      assert s[..1 + LineEnd(s[1..])] == [s[0]] + s[1..][..LineEnd(s[1..])];
      1 + LineEnd(s[1..])
  }

  /** A line followed by a newline ends at that newline. */
  lemma LineEndAfter(a: string, rest: string)
    requires '\n' !in a
    ensures LineEnd(a + "\n" + rest) == |a|
  {
    var s := a + "\n" + rest;
    assert s[|a|] == '\n';
    assert forall i :: 0 <= i < |a| ==> s[i] == a[i];
    assert s[..|a| + 1] == s[..|a|] + ['\n'];
  }

  /** The newline search stops at the first newline: any offset with no
      newline before it and a newline (or the end) at it is `LineEnd`. */
  lemma {:induction false} LineEndAt(s: string, e: nat)
    requires e <= |s| && (forall k :: 0 <= k < e ==> s[k] != '\n')
    requires e == |s| || s[e] == '\n'
    ensures LineEnd(s) == e
    decreases e
  {
    if e > 0 {
      assert s[0] != '\n';
      var t := s[1..];
      forall k | 0 <= k < e - 1 ensures t[k] != '\n' {
        assert t[k] == s[k + 1];
      }
      assert e - 1 < |t| ==> t[e - 1] == s[e];
      LineEndAt(t, e - 1);
    }
  }

  /** One trailing carriage return is dropped from a line. */
  function DropCR(line: string): (r: string)
    ensures line == r || line == r + "\r"
  {
    if line != [] && line[|line| - 1] == '\r' then line[..|line| - 1] else line
  }

  /** Offset of the first `:` of `s`, or `|s|`. */
  function ColonAt(s: string): (i: nat)
    ensures i <= |s| && ':' !in s[..i]
    ensures i == |s| || s[i] == ':'
  {
    if s == [] || s[0] == ':' then 0
    else
      assert s[..1 + ColonAt(s[1..])] == [s[0]] + s[1..][..ColonAt(s[1..])];
      1 + ColonAt(s[1..])
  }

  /** Offset of the first blank or `:` of `s`, or `|s|`: the end of the
      first token of a line. */
  function TokenEnd(s: string): (i: nat)
    ensures i <= |s|
    ensures i == |s| || s[i] == ' ' || s[i] == ':'
    ensures forall j :: 0 <= j < i ==> s[j] != ' ' && s[j] != ':'
  {
    if s == [] || s[0] == ' ' || s[0] == ':' then 0 else 1 + TokenEnd(s[1..])
  }

  /** `s` without its leading blanks. */
  function SkipBlanks(s: string): (r: string)
    ensures |r| <= |s| && r == s[|s| - |r|..]
    ensures r == [] || r[0] != ' '
  {
    if s != [] && s[0] == ' ' then SkipBlanks(s[1..]) else s
  }

  /** `s` without its leading blanks and colons. */
  function SkipBlanksAndColons(s: string): (r: string)
    ensures |r| <= |s| && r == s[|s| - |r|..]
    ensures r == [] || (r[0] != ' ' && r[0] != ':')
  {
    if s != [] && (s[0] == ' ' || s[0] == ':') then SkipBlanksAndColons(s[1..]) else s
  }

  /** `s` without its trailing blanks. */
  function DropTrailingBlanks(s: string): (r: string)
    ensures r <= s
    ensures r == [] || r[|r| - 1] != ' '
  {
    if s != [] && s[|s| - 1] == ' ' then DropTrailingBlanks(s[..|s| - 1]) else s
  }

  /** The code a non-empty first line sets: its first token, lower-cased,
      must start with `http/1.1`; the rest of the line after blanks and
      colons is read with `atoi`. Anything else is `NOT_IMPLEMENTED`. */
  function StatusLineCode(line: string): (code: int)
    ensures TokenEnd(line) < 8 || Lower(line[..8]) != "http/1.1" ==> code == NotImplemented
  {
    var t := TokenEnd(line);
    if t >= 8 && Lower(line[..8]) == "http/1.1" then
      var rest := SkipBlanksAndColons(line[t..]);
      if rest != [] then Atoi(rest) else NotImplemented
    else NotImplemented
  }

  /** The key of a header line: everything before the first `:`, lower-cased
      and not trimmed. */
  function HeaderKey(line: string): (k: string)
    ensures IsLowerCase(k) && |k| <= |line|
  {
    Lower(line[..ColonAt(line)])
  }

  /** The value of a header line: everything after the first `:` without
      leading and trailing blanks; a line without `:` has an empty value. */
  function HeaderValue(line: string): (v: string)
    ensures v == [] || (v[0] != ' ' && v[|v| - 1] != ' ')
  {
    var c := ColonAt(line);
    if c < |line| then DropTrailingBlanks(SkipBlanks(line[c + 1..])) else ""
  }

  /** What has been read so far: the response code and the headers. */
  datatype Parsed = Parsed(code: int, headers: Headers)

  /** The effect of one line (carriage return already dropped): an empty
      line changes nothing, the first line sets the code, any other line
      stores a header. */
  function LineEffect(p: Parsed, line: string, first: bool): (q: Parsed)
    ensures !first ==> q.code == p.code
    ensures first ==> q.headers == p.headers
  {
    if line == [] then p
    else if first then p.(code := StatusLineCode(line))
    else p.(headers := p.headers[HeaderKey(line) := HeaderValue(line)])
  }

  /** `setHeaders`: the text is cut at each newline and every line applied in
      turn; `first` says whether the next line is line 0. A final piece
      without a newline is a line too, an empty one is not. */
  function ApplyText(p: Parsed, text: string, first: bool): (r: Parsed)
    ensures forall k :: k in p.headers ==> k in r.headers
    decreases |text|
  {
    if text == [] then p
    else
      var e := LineEnd(text);
      var q := LineEffect(p, DropCR(text[..e]), first);
      if e == |text| then q else ApplyText(q, text[e + 1..], false)
  }

  /** Header lines never change the code: only line 0 does, and only when
      `includeLine0` lets it be line 0. */
  lemma {:induction false} HeaderLinesKeepCode(p: Parsed, text: string)
    ensures ApplyText(p, text, false).code == p.code
    decreases |text|
  {
    if text != [] {
      var e := LineEnd(text);
      if e < |text| {
        HeaderLinesKeepCode(LineEffect(p, DropCR(text[..e]), false), text[e + 1..]);
      }
    }
  }

  /** The code after reading a header text is decided by its first line
      alone: an empty first line (after its carriage return) leaves the code
      as it was, a non-empty one sets it from the Status-Line. */
  lemma FirstLineSetsCode(p: Parsed, text: string)
    ensures var line := DropCR(text[..LineEnd(text)]);
            ApplyText(p, text, true).code == if line == [] then p.code else StatusLineCode(line)
  {
    if text != [] {
      var e := LineEnd(text);
      var q := LineEffect(p, DropCR(text[..e]), true);
      if e < |text| {
        HeaderLinesKeepCode(q, text[e + 1..]);
      }
    }
  }

  /** A header map `writeHeader` can write so that it reads back: lower-case
      keys without `:` or newline, values without newline and without
      leading or trailing blanks. */
  predicate WellFormedKey(k: string) { IsLowerCase(k) && ':' !in k && '\n' !in k }

  predicate WellFormedValue(v: string) { '\n' !in v && (v == [] || (v[0] != ' ' && v[|v| - 1] != ' ')) }

  predicate WellFormed(h: Headers) {
    forall k :: k in h ==> WellFormedKey(k) && WellFormedValue(h[k])
  }

  lemma LowerKeepsAbsent(s: string, c: char)
    requires c !in s && !IsUpper(c) && !('a' <= c <= 'z')
    ensures c !in Lower(s)
  {
  }

  /** A character absent from a string is absent from every slice of it. */
  lemma NotInSlice(s: string, c: char, i: nat, j: nat)
    requires i <= j <= |s| && c !in s
    ensures c !in s[i..j]
  {
    forall k | 0 <= k < j - i ensures s[i..j][k] != c {
      assert s[i..j][k] == s[i + k];
    }
  }

  /** The key and value read from a line without newline are well formed. */
  lemma ReadFieldWellFormed(line: string)
    requires '\n' !in line
    ensures WellFormedKey(HeaderKey(line)) && WellFormedValue(HeaderValue(line))
  {
    HeaderKeyWellFormed(line);
    HeaderValueWellFormed(line);
  }

  lemma HeaderKeyWellFormed(line: string)
    requires '\n' !in line
    ensures WellFormedKey(HeaderKey(line))
  {
    var c := ColonAt(line);
    NotInSlice(line, '\n', 0, c);
    assert line[..c] == line[0..c];
    LowerKeepsAbsent(line[..c], ':');
    LowerKeepsAbsent(line[..c], '\n');
  }

  lemma HeaderValueWellFormed(line: string)
    requires '\n' !in line
    ensures WellFormedValue(HeaderValue(line))
  {
    var c := ColonAt(line);
    var v := HeaderValue(line);
    if c < |line| {
      var u := line[c + 1..];
      NotInSlice(line, '\n', c + 1, |line|);
      assert u == line[c + 1..|line|];
      BlanksDroppedKeepAbsent(u, '\n');
      assert v == DropTrailingBlanks(SkipBlanks(u));
    } else {
      assert v == [];
    }
  }

  /** Dropping blanks at both ends keeps a character out. */
  lemma BlanksDroppedKeepAbsent(u: string, ch: char)
    requires ch !in u
    ensures ch !in DropTrailingBlanks(SkipBlanks(u))
  {
    var w := SkipBlanks(u);
    forall k | 0 <= k < |w| ensures w[k] != ch {
      assert w[k] == u[|u| - |w| + k];
    }
    var v := DropTrailingBlanks(w);
    forall k | 0 <= k < |v| ensures v[k] != ch {
      assert v[k] == w[k];
    }
  }

  lemma LineEffectWellFormed(p: Parsed, line: string, first: bool)
    requires WellFormed(p.headers) && '\n' !in line
    ensures WellFormed(LineEffect(p, line, first).headers)
  {
    if line != [] && !first {
      ReadFieldWellFormed(line);
    }
  }

  /** Every header `setHeaders` stores is well formed. */
  lemma {:induction false} ReadHeadersWellFormed(p: Parsed, text: string, first: bool)
    requires WellFormed(p.headers)
    ensures WellFormed(ApplyText(p, text, first).headers)
    decreases |text|
  {
    if text != [] {
      var e := LineEnd(text);
      var line := DropCR(text[..e]);
      NotInSlice(text[..e], '\n', 0, |line|);
      assert line == text[..e][0..|line|];
      var q := LineEffect(p, line, first);
      LineEffectWellFormed(p, line, first);
      if e < |text| {
        ReadHeadersWellFormed(q, text[e + 1..], false);
        assert ApplyText(p, text, first) == ApplyText(q, text[e + 1..], false);
      } else {
        assert ApplyText(p, text, first) == q;
      }
    }
  }

  // ---------------------------------------------------------------------
  // Writing (writeHeader)
  // ---------------------------------------------------------------------

  /** Lines each followed by `\r\n`. */
  function Crlf(lines: seq<string>): (s: string)
    ensures |s| >= 2 * |lines|
    decreases |lines|
  {
    if lines == [] then [] else Crlf(lines[..|lines| - 1]) + lines[|lines| - 1] + "\r\n"
  }

  lemma {:induction false} CrlfAppend(a: seq<string>, b: seq<string>)
    ensures Crlf(a + b) == Crlf(a) + Crlf(b)
    decreases |b|
  {
    if b != [] {
      var b' := b[..|b| - 1];
      assert (a + b)[..|a + b| - 1] == a + b';
      CrlfAppend(a, b');
    } else {
      assert a + b == a;
    }
  }

  function HeaderLine(key: string, value: string): string { key + ": " + value }

  /** The protocol version every response is written with. */
  const HttpVersion := "HTTP/1.1"

  /** The Status-Line. */
  function StatusLine(code: int): string { HttpVersion + " " + ResponseString(code) }

  /** The lines written for the stored headers, in the dictionary's order,
      leaving out content-length and transfer-encoding. */
  function FieldLines(h: Headers, order: seq<string>): (lines: seq<string>)
    requires forall i :: 0 <= i < |order| ==> order[i] in h
    ensures |lines| <= |order|
    decreases |order|
  {
    if order == [] then []
    else
      var k := order[|order| - 1];
      FieldLines(h, order[..|order| - 1])
      + (if k == ContentLengthKey || k == TransferEncodingKey then [] else [HeaderLine(k, h[k])])
  }

  /** Section 4.4 of RFC 2616: a chunked transfer encoding and no length, or
      the stored transfer encoding (if any) and exactly one content-length. */
  function LengthLines(h: Headers, length: nat): (lines: seq<string>)
    ensures |lines| >= 1
  {
    if TransferEncodingKey in h && h[TransferEncodingKey] == "chunked" then
      [HeaderLine(TransferEncodingKey, "chunked")]
    else
      (if TransferEncodingKey in h then [HeaderLine(TransferEncodingKey, h[TransferEncodingKey])] else [])
      + [HeaderLine(ContentLengthKey, NatToString(length))]
  }

  /** The dictionary order: every stored key exactly once. */
  predicate IsOrderOf(order: seq<string>, h: Headers) {
    && (forall i :: 0 <= i < |order| ==> order[i] in h)
    && (forall k :: k in h ==> k in order)
    && (forall i, j :: 0 <= i < j < |order| ==> order[i] != order[j])
  }

  /** The lines of the header block: the Status-Line, the stored headers,
      the length headers and a blank line. */
  function BlockLines(code: int, h: Headers, order: seq<string>, length: nat): seq<string>
    requires IsOrderOf(order, h)
  {
    [StatusLine(code)] + FieldLines(h, order) + LengthLines(h, length) + [""]
  }

  /** The whole header block `writeHeader` appends. */
  function HeaderBlock(code: int, h: Headers, order: seq<string>, length: nat): (block: string)
    requires IsOrderOf(order, h)
    ensures Crlf([StatusLine(code)]) <= block
    ensures |block| >= 4 && block[|block| - 4..] == "\r\n\r\n"
  {
    BlockFrame(BlockLines(code, h, order, length), StatusLine(code), FieldLines(h, order), LengthLines(h, length));
    Crlf(BlockLines(code, h, order, length))
  }

  /** The lines of a header block are framed by their first line and the
      blank line. */
  lemma BlockFrame(lines: seq<string>, first: string, fields: seq<string>, lengths: seq<string>)
    requires lengths != [] && lines == [first] + fields + lengths + [""]
    ensures var s := Crlf(lines);
            Crlf([first]) <= s && |s| >= 4 && s[|s| - 4..] == "\r\n\r\n"
  {
    assert lines == [first] + (fields + lengths) + [""];
    CrlfFrame(first, fields + lengths);
  }

  /** Lines that start with `first` and end with a blank line, as written,
      begin with `first` and its line end and finish with two line ends. */
  lemma CrlfFrame(first: string, fields: seq<string>)
    requires fields != []
    ensures var s := Crlf([first] + fields + [""]);
            Crlf([first]) <= s && |s| >= 4 && s[|s| - 4..] == "\r\n\r\n"
  {
    var lines := [first] + fields + [""];
    var init := [first] + fields;
    assert lines[..|lines| - 1] == init;
    var s0 := Crlf(init);
    assert Crlf(lines) == s0 + "\r\n";
    assert init[..|init| - 1] == [first] + fields[..|fields| - 1];
    CrlfAppend([first], fields[..|fields| - 1]);
    var head := Crlf([first] + fields[..|fields| - 1]);
    assert s0 == head + fields[|fields| - 1] + "\r\n";
    assert Crlf([first]) <= head;
  }

  /** No line holds a newline. */
  predicate OneLineEach(lines: seq<string>) {
    forall i :: 0 <= i < |lines| ==> '\n' !in lines[i]
  }

  /** The headers a reader of the block receives: content-length is replaced
      by the real length unless the body is chunked, in which case it is
      dropped. */
  function Transmitted(h: Headers, length: nat): (r: Headers)
    ensures TransferEncodingKey in h ==> TransferEncodingKey in r && r[TransferEncodingKey] == h[TransferEncodingKey]
    ensures ContentLengthKey in r <==> !(TransferEncodingKey in h && h[TransferEncodingKey] == "chunked")
    ensures forall k :: k != ContentLengthKey ==> (k in r <==> k in h)
  {
    if TransferEncodingKey in h && h[TransferEncodingKey] == "chunked" then h - {ContentLengthKey}
    else h[ContentLengthKey := NatToString(length)]
  }

  // ---------------------------------------------------------------------
  // The round trip
  // ---------------------------------------------------------------------

  /** Lines applied one after the other, as `ApplyText` does once the text is
      cut. */
  function ApplyLines(p: Parsed, lines: seq<string>, first: bool): Parsed
    decreases |lines|
  {
    if lines == [] then p else ApplyLines(LineEffect(p, lines[0], first), lines[1..], false)
  }

  lemma {:induction false} ApplyLinesAppend(p: Parsed, a: seq<string>, b: seq<string>, first: bool)
    ensures ApplyLines(p, a + b, first) == ApplyLines(ApplyLines(p, a, first), b, first && a == [])
    decreases |a|
  {
    if a != [] {
      assert (a + b)[1..] == a[1..] + b;
      ApplyLinesAppend(LineEffect(p, a[0], first), a[1..], b, false);
    } else {
      assert a + b == b;
    }
  }

  /** Reading text written line by line with `\r\n` applies those lines. */
  lemma {:induction false} ApplyCrlf(p: Parsed, lines: seq<string>, first: bool)
    requires OneLineEach(lines)
    ensures ApplyText(p, Crlf(lines), first) == ApplyLines(p, lines, first)
    decreases |lines|
  {
    if lines != [] {
      var l := lines[0];
      var rest := lines[1..];
      assert lines == [l] + rest;
      CrlfAppend([l], rest);
      assert Crlf([l]) == l + "\r\n" by {
        assert [l][..0] == [];
      }
      assert '\n' !in l;
      ApplyTextLine(p, l, Crlf(rest), first);
      assert OneLineEach(rest) by {
        forall i | 0 <= i < |rest| ensures '\n' !in rest[i] {
          assert rest[i] == lines[i + 1];
        }
      }
      ApplyCrlf(LineEffect(p, l, first), rest, false);
    }
  }

  /** Reading a line ended by `\r\n` applies that line and moves on. */
  lemma ApplyTextLine(p: Parsed, l: string, rest: string, first: bool)
    requires '\n' !in l
    ensures ApplyText(p, l + "\r\n" + rest, first) == ApplyText(LineEffect(p, l, first), rest, false)
  {
    var text := l + "\r\n" + rest;
    assert text == (l + "\r") + "\n" + rest;
    LineEndAfter(l + "\r", rest);
    assert text[..|l| + 1] == l + "\r";
    assert DropCR(l + "\r") == l;
    assert text[|l| + 2..] == rest;
  }

  /** The Status-Line reads back as the code it was written for. */
  lemma StatusLineReadsBack(code: int)
    ensures StatusLineCode(StatusLine(code)) == code
  {
    var rs := ResponseString(code);
    AtoiOfResponseString(code);
    assert rs[0] == IntToString(code)[0];
    VersionIsLowerHttp();
    StatusLineOf(HttpVersion, " ", rs);
  }

  lemma VersionIsLowerHttp()
    ensures Lower(HttpVersion) == "http/1.1"
  {
    var v := HttpVersion;
    assert LowerChar(v[0]) == 'h' && LowerChar(v[1]) == 't' && LowerChar(v[2]) == 't' && LowerChar(v[3]) == 'p';
  }

  /** A first line made of `HTTP/1.1` in any letter case, then blanks and
      colons, then text starting with neither sets the code to `atoi` of
      that text, or to `NOT_IMPLEMENTED` when there is no such text. */
  lemma StatusLineOf(version: string, separators: string, rs: string)
    requires |version| == 8 && Lower(version) == "http/1.1"
    requires separators != [] && forall i :: 0 <= i < |separators| ==> separators[i] == ' ' || separators[i] == ':'
    requires rs == [] || (rs[0] != ' ' && rs[0] != ':')
    ensures StatusLineCode(version + separators + rs) == if rs == [] then NotImplemented else Atoi(rs)
  {
    var line := version + separators + rs;
    assert line == version + (separators + rs);
    assert line[..8] == version;
    forall j | 0 <= j < 8
      ensures line[j] != ' ' && line[j] != ':'
    {
      assert LowerChar(version[j]) == "http/1.1"[j];
    }
    TokenEndAt(line, 8);
    assert line[8..] == separators + rs;
    SkipSeparators(separators, rs);
  }

  /** The status code is read back from a first line in any letter case:
      `HTTP/1.1`, blanks or colons, the decimal code and anything that does
      not continue the number. */
  lemma StatusLineCodeOfNumber(version: string, separators: string, code: int, rest: string)
    requires |version| == 8 && Lower(version) == "http/1.1"
    requires separators != [] && forall i :: 0 <= i < |separators| ==> separators[i] == ' ' || separators[i] == ':'
    requires rest == [] || !IsDigit(rest[0])
    ensures StatusLineCode(version + separators + IntToString(code) + rest) == code
  {
    var digits := IntToString(code);
    var rs := digits + rest;
    assert rs[0] == digits[0];
    StatusLineOf(version, separators, rs);
    AppendAssoc3(version + separators, digits, rest);
    AtoiOfIntToString(code, rest);
  }

  lemma {:induction false} SkipSeparators(separators: string, rs: string)
    requires forall i :: 0 <= i < |separators| ==> separators[i] == ' ' || separators[i] == ':'
    requires rs == [] || (rs[0] != ' ' && rs[0] != ':')
    ensures SkipBlanksAndColons(separators + rs) == rs
  {
    if separators != [] {
      assert (separators + rs)[1..] == separators[1..] + rs;
      SkipSeparators(separators[1..], rs);
    }
  }

  lemma {:induction false} TokenEndAt(s: string, i: nat)
    requires i < |s| && (s[i] == ' ' || s[i] == ':')
    requires forall j :: 0 <= j < i ==> s[j] != ' ' && s[j] != ':'
    ensures TokenEnd(s) == i
    decreases i
  {
    if i > 0 {
      TokenEndAt(s[1..], i - 1);
    }
  }

  lemma ColonAtAfter(a: string, rest: string)
    requires ':' !in a
    ensures ColonAt(a + ":" + rest) == |a|
  {
    var s := a + ":" + rest;
    assert s[|a|] == ':';
    assert forall i :: 0 <= i < |a| ==> s[i] == a[i];
    assert s[..|a| + 1] == s[..|a|] + [':'];
  }

  /** A written `key: value` line reads back as that header. */
  lemma FieldLineReadsBack(p: Parsed, key: string, value: string)
    requires WellFormedKey(key) && WellFormedValue(value)
    ensures LineEffect(p, HeaderLine(key, value), false) == p.(headers := p.headers[key := value])
  {
    var line := HeaderLine(key, value);
    assert line == key + ":" + (" " + value);
    ColonAtAfter(key, " " + value);
    assert line[..|key|] == key;
    LowerIdempotent(key);
    assert HeaderKey(line) == key;
    assert line[|key| + 1..] == " " + value;
    assert SkipBlanks(" " + value) == value by {
      assert (" " + value)[1..] == value;
    }
    assert HeaderValue(line) == value;
  }

  lemma DigitsWellFormed(n: nat)
    ensures WellFormedValue(NatToString(n))
  {
    var s := NatToString(n);
    assert IsDigit(s[0]) && IsDigit(s[|s| - 1]);
  }

  /** The headers carried by the field lines of `order`. */
  function Fields(h: Headers, order: seq<string>): (m: Headers)
    ensures forall k :: k in m <==> k in h && k in order && k != ContentLengthKey && k != TransferEncodingKey
  {
    map k | k in h && k in order && k != ContentLengthKey && k != TransferEncodingKey :: h[k]
  }

  lemma {:induction false} FieldLinesOneLine(h: Headers, order: seq<string>)
    requires WellFormed(h)
    requires forall i :: 0 <= i < |order| ==> order[i] in h
    ensures OneLineEach(FieldLines(h, order))
    decreases |order|
  {
    if order != [] {
      var init := order[..|order| - 1];
      var k := order[|order| - 1];
      FieldLinesOneLine(h, init);
      assert WellFormedKey(k) && WellFormedValue(h[k]);
      NoNewlineInLine(k, h[k]);
    }
  }

  lemma {:induction false} FieldLinesReadBack(p: Parsed, h: Headers, order: seq<string>)
    requires WellFormed(h)
    requires forall i :: 0 <= i < |order| ==> order[i] in h
    ensures ApplyLines(p, FieldLines(h, order), false) == p.(headers := p.headers + Fields(h, order))
    decreases |order|
  {
    if order == [] {
      assert Fields(h, order) == map[];
      assert p.headers + map[] == p.headers;
    } else {
      var init := order[..|order| - 1];
      var k := order[|order| - 1];
      FieldLinesReadBack(p, h, init);
      var a := FieldLines(h, init);
      var q := ApplyLines(p, a, false);
      var tail := if k == ContentLengthKey || k == TransferEncodingKey then [] else [HeaderLine(k, h[k])];
      assert FieldLines(h, order) == a + tail;
      ApplyLinesAppend(p, a, tail, false);
      FieldsSnoc(h, order);
      if tail != [] {
        assert WellFormedKey(k) && WellFormedValue(h[k]);
        FieldLineReadsBack(q, k, h[k]);
        assert ApplyLines(q, tail, false) == LineEffect(q, tail[0], false);
        UnionUpdate(p.headers, Fields(h, init), k, h[k]);
      }
    }
  }

  lemma FieldsSnoc(h: Headers, order: seq<string>)
    requires order != [] && order[|order| - 1] in h
    ensures var k := order[|order| - 1];
            var init := order[..|order| - 1];
            Fields(h, order) == if k == ContentLengthKey || k == TransferEncodingKey then Fields(h, init) else Fields(h, init)[k := h[k]]
  {
    var k := order[|order| - 1];
    var init := order[..|order| - 1];
    assert order == init + [k];
    assert forall x :: x in order <==> x in init || x == k;
  }

  lemma UnionUpdate(a: Headers, b: Headers, k: string, v: string)
    ensures a + b[k := v] == (a + b)[k := v]
  {
  }

  lemma NoNewlineInLine(key: string, value: string)
    requires '\n' !in key && '\n' !in value
    ensures '\n' !in HeaderLine(key, value)
  {
  }

  lemma LengthLinesOneLine(h: Headers, length: nat)
    requires WellFormed(h)
    ensures OneLineEach(LengthLines(h, length))
  {
    DigitsWellFormed(length);
    NoNewlineInLine(ContentLengthKey, NatToString(length));
    NoNewlineInLine(TransferEncodingKey, "chunked");
    if TransferEncodingKey in h {
      assert WellFormedValue(h[TransferEncodingKey]);
      NoNewlineInLine(TransferEncodingKey, h[TransferEncodingKey]);
    }
  }

  lemma LengthLinesReadBack(p: Parsed, h: Headers, length: nat)
    requires WellFormed(h)
    ensures ApplyLines(p, LengthLines(h, length), false) == p.(headers := AfterLengthLines(p.headers, h, length))
  {
    WellFormedLiteralKeys();
    DigitsWellFormed(length);
    var n := NatToString(length);
    var cl := HeaderLine(ContentLengthKey, n);
    if TransferEncodingKey in h && h[TransferEncodingKey] == "chunked" {
      FieldLineReadsBack(p, TransferEncodingKey, "chunked");
    } else if TransferEncodingKey in h {
      var te := HeaderLine(TransferEncodingKey, h[TransferEncodingKey]);
      FieldLineReadsBack(p, TransferEncodingKey, h[TransferEncodingKey]);
      var q := LineEffect(p, te, false);
      FieldLineReadsBack(q, ContentLengthKey, n);
      assert LengthLines(h, length) == [te, cl];
      assert [te, cl][1..] == [cl];
      assert ApplyLines(p, [te, cl], false) == ApplyLines(q, [cl], false);
      assert ApplyLines(q, [cl], false) == LineEffect(q, cl, false);
    } else {
      FieldLineReadsBack(p, ContentLengthKey, n);
    }
  }

  /** What the length lines add to headers `m` already read. */
  function AfterLengthLines(m: Headers, h: Headers, length: nat): Headers {
    if TransferEncodingKey in h && h[TransferEncodingKey] == "chunked" then m[TransferEncodingKey := "chunked"]
    else if TransferEncodingKey in h then m[TransferEncodingKey := h[TransferEncodingKey]][ContentLengthKey := NatToString(length)]
    else m[ContentLengthKey := NatToString(length)]
  }

  lemma AfterLengthLinesTransmitted(a: Headers, h: Headers, length: nat)
    ensures AfterLengthLines(a + (h - {ContentLengthKey, TransferEncodingKey}), h, length) == a + Transmitted(h, length)
  {
    var lhs := AfterLengthLines(a + (h - {ContentLengthKey, TransferEncodingKey}), h, length);
    var rhs := a + Transmitted(h, length);
    assert lhs.Keys == rhs.Keys;
  }

  /** Every line of the block is free of newlines. */
  lemma OneLineEachAppend(a: seq<string>, b: seq<string>)
    requires OneLineEach(a) && OneLineEach(b)
    ensures OneLineEach(a + b)
  {
    forall i | 0 <= i < |a + b| ensures '\n' !in (a + b)[i] {
      if i < |a| {
        assert (a + b)[i] == a[i];
      } else {
        assert (a + b)[i] == b[i - |a|];
      }
    }
  }

  lemma BlockLinesOneLine(code: int, h: Headers, order: seq<string>, length: nat)
    requires WellFormed(h) && IsOrderOf(order, h)
    ensures OneLineEach(BlockLines(code, h, order, length))
  {
    var status := [StatusLine(code)];
    var fields := FieldLines(h, order);
    var lengths := LengthLines(h, length);
    NoNewlineInStatusLine(code);
    assert OneLineEach(status);
    FieldLinesOneLine(h, order);
    LengthLinesOneLine(h, length);
    OneLineEachAppend(status, fields);
    OneLineEachAppend(status + fields, lengths);
    assert OneLineEach([""]);
    OneLineEachAppend(status + fields + lengths, [""]);
  }

  /** Reading back what `writeHeader` wrote gives the code it was written for
      and the stored headers, with content-length replaced by the real length
      (or dropped for a chunked body), added to whatever the reader already
      held. */
  lemma HeaderBlockRoundTrip(p: Parsed, code: int, h: Headers, order: seq<string>, length: nat)
    requires WellFormed(h) && IsOrderOf(order, h)
    ensures ApplyText(p, HeaderBlock(code, h, order, length), true) == Parsed(code, p.headers + Transmitted(h, length))
  {
    var status := [StatusLine(code)];
    var fields := FieldLines(h, order);
    var lengths := LengthLines(h, length);
    var lines := status + fields + lengths + [""];
    assert lines == BlockLines(code, h, order, length);
    BlockLinesOneLine(code, h, order, length);
    ApplyCrlf(p, lines, true);
    ApplyLinesAppend(p, status + fields + lengths, [""], true);
    ApplyLinesAppend(p, status + fields, lengths, true);
    ApplyLinesAppend(p, status, fields, true);
    StatusLineReadsBack(code);
    var p1 := p.(code := code);
    assert ApplyLines(p, status, true) == p1;
    FieldLinesReadBack(p1, h, order);
    FieldsCoverAll(h, order);
    var p2 := p1.(headers := p.headers + (h - {ContentLengthKey, TransferEncodingKey}));
    LengthLinesReadBack(p2, h, length);
    var p3 := p2.(headers := AfterLengthLines(p2.headers, h, length));
    assert ApplyLines(p3, [""], false) == p3;
    AfterLengthLinesTransmitted(p.headers, h, length);
  }

  lemma NoNewlineInStatusLine(code: int)
    ensures '\n' !in StatusLine(code)
  {
  }

  lemma FieldsCoverAll(h: Headers, order: seq<string>)
    requires IsOrderOf(order, h)
    ensures Fields(h, order) == h - {ContentLengthKey, TransferEncodingKey}
  {
  }

  // ---------------------------------------------------------------------
  // Single headers (setHeader, header) and the default headers
  // ---------------------------------------------------------------------

  /** The characters `StringUtils::trimInPlace` strips by default. */
  predicate IsTrimBlank(c: char) { c == ' ' || c == '\t' || c == '\n' || c == '\r' }

  function TrimLeft(s: string): (r: string)
    ensures |r| <= |s| && r == s[|s| - |r|..]
    ensures r == [] || !IsTrimBlank(r[0])
  {
    if s != [] && IsTrimBlank(s[0]) then TrimLeft(s[1..]) else s
  }

  function TrimRight(s: string): (r: string)
    ensures r <= s
    ensures r == [] || !IsTrimBlank(r[|r| - 1])
  {
    if s != [] && IsTrimBlank(s[|s| - 1]) then TrimRight(s[..|s| - 1]) else s
  }

  /** `StringUtils::trimInPlace`: blanks stripped at both ends. */
  function Trim(s: string): (r: string)
    ensures r == [] || (!IsTrimBlank(r[0]) && !IsTrimBlank(r[|r| - 1]))
  {
    TrimRight(TrimLeft(s))
  }

  /** Trimming keeps a middle part of the string ... */
  lemma TrimIsSlice(s: string) returns (i: nat)
    ensures i + |Trim(s)| <= |s| && Trim(s) == s[i..i + |Trim(s)|]
  {
    var l := TrimLeft(s);
    var r := TrimRight(l);
    i := |s| - |l|;
    assert r == l[..|r|];
    assert r == s[i..i + |r|];
  }

  /** ... and leaves a string without blanks at its ends as it is. */
  lemma TrimOfTrimmed(s: string)
    requires s == [] || (!IsTrimBlank(s[0]) && !IsTrimBlank(s[|s| - 1]))
    ensures Trim(s) == s
  {
  }

  /** `header(key, found)`: the key is lower-cased for the lookup; an absent
      key gives the empty string and `found == false`. */
  function Lookup(h: Headers, key: string): (r: (string, bool))
    ensures r.1 <==> Lower(key) in h
    ensures r.1 ==> r.0 == h[Lower(key)]
    ensures !r.1 ==> r.0 == ""
  {
    var k := Lower(key);
    if k in h then (h[k], true) else ("", false)
  }

  /** `setHeader`: an empty value erases the lower-cased key as given; any
      other value is stored under the lower-cased key with blanks trimmed. */
  function Assign(h: Headers, key: string, value: string): (r: Headers)
    ensures value == [] ==> Lower(key) !in r && r.Keys <= h.Keys
    ensures value != [] ==> Trim(Lower(key)) in r && r[Trim(Lower(key))] == value && h.Keys <= r.Keys
  {
    var lk := Lower(key);
    if value == [] then h - {lk} else h[Trim(lk) := value]
  }

  /** For a key without surrounding blanks, `header` returns what `setHeader`
      stored, and nothing after `setHeader` with an empty value. */
  lemma AssignThenLookup(h: Headers, key: string, value: string)
    requires Trim(Lower(key)) == Lower(key)
    ensures Lookup(Assign(h, key, value), key) == if value == [] then ("", false) else (value, true)
  {
  }

  /** `setHeader` leaves every other key alone. */
  lemma AssignLeavesOthers(h: Headers, key: string, value: string, other: string)
    requires Lower(other) != Lower(key) && Lower(other) != Trim(Lower(key))
    ensures Lookup(Assign(h, key, value), other) == Lookup(h, other)
  {
  }

  /** The erase path uses the untrimmed key: once a value is stored under a
      key whose lower-cased form has surrounding blanks, `setHeader` with that
      same key and an empty value leaves the headers unchanged exactly when
      the untrimmed key was not already present. */
  lemma EraseUsesUntrimmedKey(h: Headers, key: string, value: string)
    requires value != [] && Trim(Lower(key)) != Lower(key)
    ensures var stored := Assign(h, key, value);
            Assign(stored, key, "") == stored <==> Lower(key) !in h
  {
    var lk := Lower(key);
    var stored := h[Trim(lk) := value];
    assert lk in stored <==> lk in h;
    if lk !in h {
      assert stored - {lk} == stored;
    } else {
      assert lk !in stored - {lk};
    }
  }

  /** `setHeader` keeps the headers well formed when given a key without `:`
      or newline and a well-formed (or empty) value. */
  lemma AssignKeepsWellFormed(h: Headers, key: string, value: string)
    requires WellFormed(h)
    requires ':' !in key && '\n' !in key && WellFormedValue(value)
    ensures WellFormed(Assign(h, key, value))
  {
    var lk := Lower(key);
    if value != [] {
      var t := Trim(lk);
      TrimmedKeyWellFormed(key);
      var h' := h[t := value];
      forall k | k in h' ensures WellFormedKey(k) && WellFormedValue(h'[k]) {
        if k != t {
          assert k in h && h'[k] == h[k];
        }
      }
    }
  }

  /** The key `setHeader` stores is lower case and keeps a key free of `:`
      and newline free of them. */
  lemma TrimmedKeyWellFormed(key: string)
    requires ':' !in key && '\n' !in key
    ensures WellFormedKey(Trim(Lower(key)))
  {
    var lk := Lower(key);
    LowerKeepsAbsent(key, ':');
    LowerKeepsAbsent(key, '\n');
    var t := Trim(lk);
    var j := TrimIsSlice(lk);
    NotInSlice(lk, ':', j, j + |t|);
    NotInSlice(lk, '\n', j, j + |t|);
    forall i | 0 <= i < |t| ensures !IsUpper(t[i]) {
      assert t[i] == lk[j + i];
    }
  }

  /** The pieces of the text the `HttpResponse(code)` constructor splits:
      alternately a key and its value. */
  const DefaultHeaderPieces: seq<string> :=
    ["server", "triagens GmbH High-Performance HTTP Server",
     "connection", "Keep-Alive",
     "content-type", "text/plain;charset=utf-8"]

  /** Pieces each followed by a newline. */
  function Terminated(pieces: seq<string>): string
    decreases |pieces|
  {
    if pieces == [] then [] else pieces[0] + "\n" + Terminated(pieces[1..])
  }

  /** The constructor's text. */
  const DefaultHeaderText: string := Terminated(DefaultHeaderPieces)

  const DefaultHeaders: Headers :=
    map["server" := "triagens GmbH High-Performance HTTP Server",
        "connection" := "Keep-Alive",
        "content-type" := "text/plain;charset=utf-8"]

  /** Newline-terminated pieces of `text` taken alternately as key and value,
      each pair stored once its value is complete; `key` is the key waiting
      for its value. A last piece without newline is dropped. */
  function PairedLines(m: Headers, text: string, key: Option<string>): Headers
    decreases |text|
  {
    var e := LineEnd(text);
    if e == |text| then m
    else
      match key
      case None => PairedLines(m, text[e + 1..], Some(text[..e]))
      case Some(k) => PairedLines(m[k := text[..e]], text[e + 1..], None)
  }

  /** The same pairing on the pieces themselves. */
  function PairPieces(m: Headers, pieces: seq<string>, key: Option<string>): Headers
    decreases |pieces|
  {
    if pieces == [] then m
    else
      match key
      case None => PairPieces(m, pieces[1..], Some(pieces[0]))
      case Some(k) => PairPieces(m[k := pieces[0]], pieces[1..], None)
  }

  lemma {:induction false} PairedLinesOfTerminated(m: Headers, pieces: seq<string>, key: Option<string>)
    requires OneLineEach(pieces)
    ensures PairedLines(m, Terminated(pieces), key) == PairPieces(m, pieces, key)
    decreases |pieces|
  {
    if pieces == [] {
      assert LineEnd([]) == 0;
    } else {
      var a := pieces[0];
      var rest := Terminated(pieces[1..]);
      assert '\n' !in a;
      var text := a + "\n" + rest;
      LineEndAfter(a, rest);
      assert text[..|a|] == a;
      assert text[|a| + 1..] == rest;
      assert OneLineEach(pieces[1..]) by {
        forall i | 0 <= i < |pieces[1..]| ensures '\n' !in pieces[1..][i] {
          assert pieces[1..][i] == pieces[i + 1];
        }
      }
      match key
      case None => PairedLinesOfTerminated(m, pieces[1..], Some(a));
      case Some(k) => PairedLinesOfTerminated(m[k := a], pieces[1..], None);
    }
  }

  lemma DefaultPiecesOneLine()
    ensures OneLineEach(DefaultHeaderPieces)
  {
    var ps := DefaultHeaderPieces;
    assert '\n' !in "server" && '\n' !in "connection" && '\n' !in "content-type";
    assert '\n' !in "Keep-Alive" && '\n' !in "text/plain;charset=utf-8";
    ServerNameOneLine();
    assert ps == ["server", "triagens GmbH High-Performance HTTP Server", "connection", "Keep-Alive",
                  "content-type", "text/plain;charset=utf-8"];
  }

  /** The constructor's text yields exactly the three default headers. */
  lemma DefaultHeaderPairs()
    ensures PairedLines(map[], DefaultHeaderText, None) == DefaultHeaders
  {
    DefaultPiecesOneLine();
    PairedLinesOfTerminated(map[], DefaultHeaderPieces, None);
    var ps := DefaultHeaderPieces;
    assert ps[1..][1..][1..][1..][1..][1..] == [];
  }

  // ---------------------------------------------------------------------
  // Steps of the loops of `HttpResponse`
  // ---------------------------------------------------------------------

  /** The text still to be read once reading has reached `start`. */
  function Remaining(text: string, start: nat): (r: string)
    ensures start < |text| ==> r == text[start..]
    ensures start >= |text| ==> r == []
  {
    if start < |text| then text[start..] else []
  }

  /** Where the `setHeaders` loop stands: `end1` is the end of the line
      starting at `start`, and reading the rest of the text from `p` gives
      `target`. */
  ghost predicate ReadingAt(p: Parsed, text: string, start: nat, end1: nat, first: bool, target: Parsed) {
    && start <= |text| + 1
    && (start <= |text| ==> IsLineEnd(text, start, end1))
    && ApplyText(p, Remaining(text, start), first) == target
  }

  /** `end1` is the first newline at or after `start`, or the end of the
      text. */
  predicate IsLineEnd(text: string, start: nat, end1: nat) {
    && start <= end1 <= |text|
    && (forall k :: start <= k < end1 ==> text[k] != '\n')
    && (end1 == |text| || text[end1] == '\n')
  }

  /** One pass of the `setHeaders` loop: the line from `start` to `end1` is
      applied and reading goes on after its newline. */
  lemma ReadingStep(p: Parsed, q: Parsed, text: string, start: nat, end1: nat, next: nat, first: bool, target: Parsed)
    requires ReadingAt(p, text, start, end1, first, target) && start < |text|
    requires q == LineEffect(p, DropCR(text[start..end1]), first)
    requires end1 + 1 <= |text| ==> IsLineEnd(text, end1 + 1, next)
    ensures ReadingAt(q, text, end1 + 1, next, false, target)
  {
    var rest := text[start..];
    var e := end1 - start;
    LineEndOf(text, start, end1);
    SlicesOfSuffix(text, start, end1);
    if end1 < |text| {
      assert ApplyText(p, rest, first) == ApplyText(q, rest[e + 1..], false);
    } else {
      assert ApplyText(p, rest, first) == q;
    }
  }

  /** The line `setHeaders` reads: up to the newline, without a carriage
      return just before it. */
  lemma LineWithoutCR(text: string, start: nat, end1: nat, end2: nat)
    requires start <= end1 <= |text|
    requires end2 == if start < end1 && text[end1 - 1] == '\r' then end1 - 1 else end1
    ensures text[start..end2] == DropCR(text[start..end1])
  {
    var line := text[start..end1];
    if start < end1 {
      assert line[|line| - 1] == text[end1 - 1];
      if text[end1 - 1] == '\r' {
        assert line[..|line| - 1] == text[start..end2];
      }
    }
  }

  /** The line and what follows it, cut from the suffix or from the text. */
  lemma SlicesOfSuffix(text: string, start: nat, end1: nat)
    requires start <= end1 <= |text|
    ensures text[start..][..end1 - start] == text[start..end1]
    ensures end1 < |text| ==> text[start..][end1 - start + 1..] == text[end1 + 1..]
  {
  }

  lemma LineEndOf(text: string, start: nat, end1: nat)
    requires IsLineEnd(text, start, end1)
    ensures LineEnd(text[start..]) == end1 - start
  {
    var rest := text[start..];
    forall k | 0 <= k < end1 - start ensures rest[k] != '\n' {
      assert rest[k] == text[start + k];
    }
    LineEndAt(rest, end1 - start);
  }

  /** Reading is done once `start` is past the text. */
  lemma ReadingDone(p: Parsed, text: string, start: nat, end1: nat, first: bool, target: Parsed)
    requires ReadingAt(p, text, start, end1, first, target) && start >= |text|
    ensures p == target
  {
  }

  /** A newline at `i` ends the piece starting at `cur`. */
  lemma PieceAt(text: string, cur: nat, i: nat)
    requires cur <= i < |text| && text[i] == '\n'
    requires forall k :: cur <= k < i ==> text[k] != '\n'
    ensures var rest := text[cur..];
            LineEnd(rest) == i - cur && rest[..i - cur] == text[cur..i] && rest[i - cur + 1..] == text[i + 1..]
  {
    var rest := text[cur..];
    forall k | 0 <= k < i - cur ensures rest[k] != '\n' {
      assert rest[k] == text[cur + k];
    }
    LineEndAt(rest, i - cur);
  }

  /** Where the loop of `HttpResponse(code)` stands at offset `i`: a key
      starts at `startKey`; once its newline is passed (`!key`) the value
      starts at `startValue`; and pairing the rest of the text from `m`
      gives `target`. */
  ghost predicate PairingAt(m: Headers, text: string, i: nat, key: bool, startKey: nat, startValue: nat, target: Headers) {
    if key then PieceOpen(m, text, i, startKey, None, target)
    else startKey < startValue <= |text| && PieceOpen(m, text, i, startValue, Some(text[startKey..startValue - 1]), target)
  }

  /** The piece from `cur` to `i` has no newline yet, and pairing the text
      from `cur` with `waiting` set aside gives `target`. */
  ghost predicate PieceOpen(m: Headers, text: string, i: nat, cur: nat, waiting: Option<string>, target: Headers) {
    && cur <= i <= |text|
    && (forall k :: cur <= k < i ==> text[k] != '\n')
    && PairedLines(m, text[cur..], waiting) == target
  }

  /** A key ended by a newline is set aside until its value is complete. */
  lemma KeyAtNewline(m: Headers, text: string, i: nat, startKey: nat, startValue: nat, target: Headers)
    requires PairingAt(m, text, i, true, startKey, startValue, target) && i < |text| && text[i] == '\n'
    ensures PairingAt(m, text, i + 1, false, startKey, i + 1, target)
  {
    PieceAt(text, startKey, i);
  }

  /** A value ended by a newline is stored under the key set aside. */
  lemma ValueAtNewline(m: Headers, m': Headers, text: string, i: nat, startKey: nat, startValue: nat, target: Headers)
    requires PairingAt(m, text, i, false, startKey, startValue, target) && i < |text| && text[i] == '\n'
    requires m' == m[text[startKey..startValue - 1] := text[startValue..i]]
    ensures PairingAt(m', text, i + 1, true, i + 1, 0, target)
  {
    PieceAt(text, startValue, i);
  }

  /** Any other character extends the current piece. */
  lemma OtherChar(m: Headers, text: string, i: nat, key: bool, startKey: nat, startValue: nat, target: Headers)
    requires PairingAt(m, text, i, key, startKey, startValue, target) && i < |text| && text[i] != '\n'
    ensures PairingAt(m, text, i + 1, key, startKey, startValue, target)
  {
  }

  /** At the end of the text the pairing is complete. */
  lemma PairingDone(m: Headers, text: string, key: bool, startKey: nat, startValue: nat, target: Headers)
    requires PairingAt(m, text, |text|, key, startKey, startValue, target)
    ensures m == target
  {
    if key {
      PairedLinesAtEnd(m, text, startKey, None);
    } else {
      PairedLinesAtEnd(m, text, startValue, Some(text[startKey..startValue - 1]));
    }
  }

  /** A last piece without newline changes nothing. */
  lemma PairedLinesAtEnd(m: Headers, text: string, cur: nat, waiting: Option<string>)
    requires cur <= |text|
    requires forall k :: cur <= k < |text| ==> text[k] != '\n'
    ensures PairedLines(m, text[cur..], waiting) == m
  {
    LineEndAt(text[cur..], |text| - cur);
  }

  /** One pass of the `writeHeader` loop over the dictionary. */
  lemma FieldLinesStep(h: Headers, order: seq<string>, i: nat)
    requires i < |order| && forall j :: 0 <= j < |order| ==> order[j] in h
    ensures order[i] == ContentLengthKey || order[i] == TransferEncodingKey ==>
              Crlf(FieldLines(h, order[..i + 1])) == Crlf(FieldLines(h, order[..i]))
    ensures order[i] != ContentLengthKey && order[i] != TransferEncodingKey ==>
              Crlf(FieldLines(h, order[..i + 1])) == Crlf(FieldLines(h, order[..i])) + order[i] + ": " + h[order[i]] + "\r\n"
  {
    assert order[..i + 1][..i] == order[..i];
    var k := order[i];
    if k == ContentLengthKey || k == TransferEncodingKey {
      assert FieldLines(h, order[..i + 1]) == FieldLines(h, order[..i]);
    } else {
      var before := Crlf(FieldLines(h, order[..i]));
      CrlfAppend(FieldLines(h, order[..i]), [HeaderLine(k, h[k])]);
      CrlfOne(HeaderLine(k, h[k]));
      AppendAssoc4(before, k, ": ", h[k], "\r\n");
    }
  }

  /** The text of the length headers, from the transfer encoding (if one is
      stored) and the body length. */
  function LengthText(seenTransferEncoding: bool, transferEncoding: string, length: nat): string {
    if seenTransferEncoding && transferEncoding == "chunked" then
      HeaderLine(TransferEncodingKey, "chunked") + "\r\n"
    else
      (if seenTransferEncoding then HeaderLine(TransferEncodingKey, transferEncoding) + "\r\n" else "")
      + HeaderLine(ContentLengthKey, NatToString(length)) + "\r\n"
  }

  /** The length lines are written as `LengthText` of the stored transfer
      encoding. */
  lemma LengthLinesText(h: Headers, length: nat)
    ensures Crlf(LengthLines(h, length))
            == LengthText(TransferEncodingKey in h,
                          if TransferEncodingKey in h then h[TransferEncodingKey] else "", length)
  {
    var cl := HeaderLine(ContentLengthKey, NatToString(length));
    CrlfOne(cl);
    if TransferEncodingKey in h && h[TransferEncodingKey] == "chunked" {
      assert LengthLines(h, length) == [HeaderLine(TransferEncodingKey, "chunked")];
      CrlfOne(HeaderLine(TransferEncodingKey, "chunked"));
    } else if TransferEncodingKey in h {
      var te := HeaderLine(TransferEncodingKey, h[TransferEncodingKey]);
      assert LengthLines(h, length) == [te] + [cl];
      CrlfOne(te);
      CrlfAppend([te], [cl]);
    } else {
      assert LengthLines(h, length) == [cl];
      assert "" + cl + "\r\n" == cl + "\r\n";
    }
  }

  /** The pieces `writeHeader` appends make up the header block. */
  lemma WrittenBlock(code: int, h: Headers, order: seq<string>, length: nat, fields: string, lengths: string)
    requires IsOrderOf(order, h)
    requires fields == Crlf(FieldLines(h, order))
    requires lengths == LengthText(TransferEncodingKey in h,
                                   if TransferEncodingKey in h then h[TransferEncodingKey] else "", length)
    ensures HeaderBlock(code, h, order, length) == HttpVersion + " " + ResponseString(code) + "\r\n" + fields + lengths + "\r\n"
  {
    var status := StatusLine(code);
    CrlfOne(status);
    CrlfAppend([status], FieldLines(h, order));
    LengthLinesText(h, length);
    HeaderBlockParts(code, h, order, length);
  }

  lemma CrlfOne(line: string)
    ensures Crlf([line]) == line + "\r\n"
  {
    assert [line][..0] == [];
  }

  /** The header block is the Status-Line and stored headers, the length
      headers and the blank line, in this order. */
  lemma HeaderBlockParts(code: int, h: Headers, order: seq<string>, length: nat)
    requires IsOrderOf(order, h)
    ensures HeaderBlock(code, h, order, length)
            == Crlf([StatusLine(code)] + FieldLines(h, order)) + Crlf(LengthLines(h, length)) + "\r\n"
  {
    var a := [StatusLine(code)] + FieldLines(h, order);
    var b := LengthLines(h, length);
    assert BlockLines(code, h, order, length) == (a + b) + [""];
    CrlfAppend(a + b, [""]);
    CrlfAppend(a, b);
    CrlfBlank();
  }

  // ---------------------------------------------------------------------
  // Proof helpers: facts about literals and concatenation
  // ---------------------------------------------------------------------

  /** The literal keys and the value `chunked` are well formed. */
  lemma WellFormedLiteralKeys()
    ensures WellFormedKey(ContentLengthKey) && WellFormedKey(TransferEncodingKey)
    ensures WellFormedValue("chunked")
  {
  }

  /** Appending pieces one at a time or as one string is the same. */
  lemma AppendAssoc3(a: string, b: string, c: string)
    ensures a + b + c == a + (b + c)
  {
  }

  lemma AppendAssoc4(a: string, b: string, c: string, d: string, e: string)
    ensures a + (b + c + d + e) == a + b + c + d + e
  {
  }

  lemma CrlfBlank()
    ensures Crlf([""]) == "\r\n"
  {
    CrlfOne("");
    assert "" + "\r\n" == "\r\n";
  }
}
