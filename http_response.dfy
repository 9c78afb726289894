/** The `HttpResponse` class (lib/Rest/HttpResponse.cpp): a response code, a
    header dictionary and a body, filled from a header text or by single
    assignments, and written out as an HTTP/1.1 header block. Each method is
    proved against the value functions of `HttpHeaders`. */
module HttpResponses {
  import opened Chars
  import opened HttpCodes
  import opened HttpHeaders

  /** `end1` of `setHeaders`: the first newline at or after `start`, or the
      end of the text. */
  method FindLineEnd(text: string, start: nat) returns (end1: nat)
    requires start <= |text|
    ensures IsLineEnd(text, start, end1)
  {
    end1 := start;
    while end1 < |text| && text[end1] != '\n'
      invariant start <= end1 <= |text|
      invariant forall k :: start <= k < end1 ==> text[k] != '\n'
    {
      end1 := end1 + 1;
    }
  }

  class HttpResponse {
    /** `_code` */
    var code: int
    /** `_headers`: the `Dictionary<char const*>` as a map. */
    var headers: Headers
    /** `_body` */
    var body: string
    /** `_isHeadResponse` */
    var isHeadResponse: bool
    /** `_bodySize`: the announced body size of a head response. */
    var bodySize: nat

    /** `HttpResponse()`: `NOT_IMPLEMENTED`, no headers, empty body. */
    constructor ()
      ensures code == NotImplemented && headers == map[]
      ensures body == [] && !isHeadResponse && bodySize == 0
    {
      code := NotImplemented;
      headers := map[];
      body := [];
      isHeadResponse := false;
      bodySize := 0;
    }

    /** `HttpResponse(header)`: a response read from a header text, line 0
        included. */
    constructor FromHeader(header: string)
      ensures Parsed(code, headers) == ApplyText(Parsed(NotImplemented, map[]), header, true)
      ensures body == [] && !isHeadResponse && bodySize == 0
    {
      code := NotImplemented;
      headers := map[];
      body := [];
      isHeadResponse := false;
      bodySize := 0;
      new;
      SetHeaders(header, true);
    }

    /** `HttpResponse(code)`: the given code and the three default headers,
        taken from a newline-separated text of alternating keys and
        values. */
    constructor WithCode(c: int)
      ensures code == c && headers == DefaultHeaders
      ensures body == [] && !isHeadResponse && bodySize == 0
    {
      code := c;
      headers := map[];
      body := [];
      isHeadResponse := false;
      bodySize := 0;
      new;
      headers := InsertPairs(headers, DefaultHeaderText);
      DefaultHeaderPairs();
    }

    /** `header(key, found)` (and `header(key)`, its first half). */
    function Header(key: string): (r: (string, bool))
      reads this
      ensures r.1 <==> Lower(key) in headers
      ensures r.1 ==> r.0 == headers[Lower(key)]
      ensures !r.1 ==> r.0 == ""
    {
      Lookup(headers, key)
    }

    /** `setHeader`. */
    method SetHeader(key: string, value: string)
      modifies this
      ensures headers == Assign(old(headers), key, value)
      ensures code == old(code) && body == old(body)
      ensures isHeadResponse == old(isHeadResponse) && bodySize == old(bodySize)
    {
      var lk := Lower(key);
      if value == [] {
        headers := headers - {lk};
      } else {
        lk := Trim(lk);
        headers := headers[lk := value];
      }
    }

    /** `setContentType`: `setHeader` on `content-type`. */
    method SetContentType(contentType: string)
      modifies this
      ensures headers == Assign(old(headers), "content-type", contentType)
      ensures code == old(code) && body == old(body)
      ensures isHeadResponse == old(isHeadResponse) && bodySize == old(bodySize)
    {
      SetHeader("content-type", contentType);
    }

    /** `setHeaders`: the text is read line by line; line 0 (when
        `includeLine0`) sets the code, every other non-empty line stores a
        header. */
    method SetHeaders(text: string, includeLine0: bool)
      modifies this
      ensures Parsed(code, headers) == ApplyText(old(Parsed(code, headers)), text, includeLine0)
      ensures body == old(body) && isHeadResponse == old(isHeadResponse) && bodySize == old(bodySize)
    {
      var p := Parsed(code, headers);
      ghost var target := ApplyText(p, text, includeLine0);
      var lineNum: nat := if includeLine0 then 0 else 1;
      var start := 0;
      var end1 := FindLineEnd(text, start);
      while start < |text|
        invariant ReadingAt(p, text, start, end1, lineNum == 0, target)
        modifies {}
        decreases |text| - start
      {
        ghost var before := p;
        // the line is [start, end2): the carriage return before the newline is dropped
        var end2 := end1;
        if start < end2 && text[end2 - 1] == '\r' {
          end2 := end2 - 1;
        }
        var line := text[start..end2];
        LineWithoutCR(text, start, end1, end2);
        if line != [] {
          if lineNum == 0 {
            p := p.(code := StatusLineCode(line));
          } else {
            p := p.(headers := p.headers[HeaderKey(line) := HeaderValue(line)]);
          }
        }
        var next := end1 + 1;
        if next <= |text| {
          next := FindLineEnd(text, next);
        }
        ReadingStep(before, p, text, start, end1, next, lineNum == 0, target);
        start, end1 := end1 + 1, next;
        lineNum := lineNum + 1;
      }
      ReadingDone(p, text, start, end1, lineNum == 0, target);
      code, headers := p.code, p.headers;
    }

    /** `bodySize`: the announced size of a head response, the body length
        otherwise. */
    function BodySize(): (n: nat)
      reads this
      ensures isHeadResponse ==> n == bodySize
      ensures !isHeadResponse ==> n == |body|
    {
      if isHeadResponse then bodySize else |body|
    }

    /** `contentLength`: the announced size of a head response; otherwise the
        stored content-length header read with `toNumber`
        (`StringUtils::uint32`), or 0 when there is none. */
    function ContentLength(toNumber: string -> nat): (n: nat)
      reads this
      ensures isHeadResponse ==> n == bodySize
      ensures !isHeadResponse && ContentLengthKey !in headers ==> n == 0
      ensures !isHeadResponse && ContentLengthKey in headers ==> n == toNumber(headers[ContentLengthKey])
    {
      if isHeadResponse then bodySize
      else if ContentLengthKey !in headers then 0
      else toNumber(headers[ContentLengthKey])
    }

    /** `headResponse`: the body is emptied and `size` announced instead;
        `bodySize` and `contentLength` both report it from now on. */
    method HeadResponse(size: nat)
      modifies this
      ensures body == [] && isHeadResponse && bodySize == size
      ensures code == old(code) && headers == old(headers)
      ensures BodySize() == size
      ensures forall toNumber: string -> nat :: ContentLength(toNumber) == size
    {
      body := [];
      isHeadResponse := true;
      bodySize := size;
    }

    /** `swap`: a new response with this one's code takes over the headers,
        body and head-response state; this one is left with the defaults of
        `HttpResponse(code)`. */
    method Swap() returns (response: HttpResponse)
      modifies this
      ensures fresh(response)
      ensures response.code == old(code) && response.headers == old(headers) && response.body == old(body)
      ensures response.isHeadResponse == old(isHeadResponse) && response.bodySize == old(bodySize)
      ensures code == old(code) && headers == DefaultHeaders && body == []
      ensures !isHeadResponse && bodySize == 0
    {
      response := new HttpResponse.WithCode(code);
      var h := response.headers;
      response.headers := headers;
      headers := h;
      var b := response.body;
      response.body := body;
      body := b;
      var isHead := response.isHeadResponse;
      response.isHeadResponse := isHeadResponse;
      isHeadResponse := isHead;
      var size := response.bodySize;
      response.bodySize := bodySize;
      bodySize := size;
    }

    /** `writeHeader`: the header block is appended to `output`, the stored
        headers in the dictionary's order `order`. */
    method WriteHeader(output: string, order: seq<string>) returns (result: string)
      requires IsOrderOf(order, headers)
      ensures result == output + HeaderBlock(code, headers, order, BodySize())
    {
      var h := headers;
      var length := BodySize();
      var status := output + (HttpVersion + " ") + ResponseString(code) + "\r\n";
      var fields, seenTransferEncoding, transferEncoding := WriteFields(h, order);
      result := status + fields;
      var lengths := WriteLengths(seenTransferEncoding, transferEncoding, length);
      result := result + lengths;
      result := result + "\r\n";
      WrittenBlock(code, h, order, length, fields, lengths);
      AppendAssoc6(output, HttpVersion + " ", ResponseString(code), "\r\n", fields, lengths, "\r\n");
    }
  }

  /** The loop of `HttpResponse(code)`: the text is cut at each newline,
      the pieces taken alternately as key and value, and each completed pair
      inserted into the headers `h`. */
  method InsertPairs(h: Headers, text: string) returns (m: Headers)
    ensures m == PairedLines(h, text, None)
  {
    m := h;
    ghost var target := PairedLines(h, text, None);
    var key := true;
    var startKey := 0;
    var startValue := 0;
    var i := 0;
    while i < |text|
      invariant PairingAt(m, text, i, key, startKey, startValue, target)
      decreases |text| - i
    {
      m, key, startKey, startValue := PairChar(m, text, i, key, startKey, startValue, target);
      i := i + 1;
    }
    PairingDone(m, text, key, startKey, startValue, target);
  }

  /** The body of that loop for the character at `i`: a newline ends the
      current piece; any other character extends it. */
  method PairChar(m: Headers, text: string, i: nat, key: bool, startKey: nat, startValue: nat, ghost target: Headers)
    returns (m': Headers, key': bool, startKey': nat, startValue': nat)
    requires PairingAt(m, text, i, key, startKey, startValue, target) && i < |text|
    ensures PairingAt(m', text, i + 1, key', startKey', startValue', target)
  {
    if text[i] == '\n' {
      m', key', startKey', startValue' := EndPiece(m, text, i, key, startKey, startValue, target);
    } else {
      OtherChar(m, text, i, key, startKey, startValue, target);
      m', key', startKey', startValue' := m, key, startKey, startValue;
    }
  }

  /** A newline at `i` ends the current piece: a key is set aside, a value
      is stored under the key set aside. */
  method EndPiece(m: Headers, text: string, i: nat, key: bool, startKey: nat, startValue: nat, ghost target: Headers)
    returns (m': Headers, key': bool, startKey': nat, startValue': nat)
    requires PairingAt(m, text, i, key, startKey, startValue, target) && i < |text| && text[i] == '\n'
    ensures PairingAt(m', text, i + 1, key', startKey', startValue', target)
  {
    if key {
      KeyAtNewline(m, text, i, startKey, startValue, target);
      m', key', startKey', startValue' := m, false, startKey, i + 1;
    } else {
      m' := m[text[startKey..startValue - 1] := text[startValue..i]];
      ValueAtNewline(m, m', text, i, startKey, startValue, target);
      key', startKey', startValue' := true, i + 1, 0;
    }
  }

  /** The loop of `writeHeader` over the dictionary: every stored header but
      content-length and transfer-encoding is written as a line, and the
      transfer encoding, if stored, is set aside. */
  method WriteFields(h: Headers, order: seq<string>) returns (fields: string, seenTransferEncoding: bool, transferEncoding: string)
    requires IsOrderOf(order, h)
    ensures fields == Crlf(FieldLines(h, order))
    ensures seenTransferEncoding <==> TransferEncodingKey in h
    ensures seenTransferEncoding ==> transferEncoding == h[TransferEncodingKey]
  {
    fields := "";
    seenTransferEncoding := false;
    transferEncoding := "";
    var i := 0;
    while i < |order|
      invariant FieldsAt(h, order, i, fields, seenTransferEncoding, transferEncoding)
      decreases |order| - i
    {
      var key := order[i];
      FieldsStep(h, order, i, fields, seenTransferEncoding, transferEncoding);
      if key == ContentLengthKey {
      } else if key == TransferEncodingKey {
        seenTransferEncoding := true;
        transferEncoding := h[key];
      } else {
        fields := fields + key + ": " + h[key] + "\r\n";
      }
      i := i + 1;
    }
    FieldsDone(h, order, fields, seenTransferEncoding, transferEncoding);
  }

  /** What the loop of `writeHeader` has produced after the first `i` keys
      of `order`. */
  ghost predicate FieldsAt(h: Headers, order: seq<string>, i: nat, fields: string, seen: bool, transferEncoding: string) {
    && i <= |order| && (forall j :: 0 <= j < |order| ==> order[j] in h)
    && fields == Crlf(FieldLines(h, order[..i]))
    && (seen <==> TransferEncodingKey in order[..i])
    && (seen ==> transferEncoding == h[TransferEncodingKey])
  }

  /** One more key: a length header is skipped, the transfer encoding set
      aside, any other header written as a line. */
  lemma FieldsStep(h: Headers, order: seq<string>, i: nat, fields: string, seen: bool, transferEncoding: string)
    requires FieldsAt(h, order, i, fields, seen, transferEncoding) && i < |order|
    ensures var k := order[i];
            && (k == ContentLengthKey ==> FieldsAt(h, order, i + 1, fields, seen, transferEncoding))
            && (k == TransferEncodingKey ==> FieldsAt(h, order, i + 1, fields, true, h[k]))
            && (k != ContentLengthKey && k != TransferEncodingKey ==>
                  FieldsAt(h, order, i + 1, fields + k + ": " + h[k] + "\r\n", seen, transferEncoding))
  {
    FieldLinesStep(h, order, i);
    assert order[..i + 1] == order[..i] + [order[i]];
  }

  lemma FieldsDone(h: Headers, order: seq<string>, fields: string, seen: bool, transferEncoding: string)
    requires IsOrderOf(order, h) && FieldsAt(h, order, |order|, fields, seen, transferEncoding)
    ensures fields == Crlf(FieldLines(h, order))
    ensures seen <==> TransferEncodingKey in h
    ensures seen ==> transferEncoding == h[TransferEncodingKey]
  {
    assert order[..|order|] == order;
  }

  /** The end of `writeHeader`: the length headers of section 4.4 of RFC 2616
      for the transfer encoding set aside and the body size. */
  method WriteLengths(seenTransferEncoding: bool, transferEncoding: string, length: nat) returns (lengths: string)
    ensures lengths == LengthText(seenTransferEncoding, transferEncoding, length)
  {
    if seenTransferEncoding && transferEncoding == "chunked" {
      lengths := HeaderLine(TransferEncodingKey, "chunked") + "\r\n";
    } else {
      lengths := "";
      if seenTransferEncoding {
        lengths := lengths + HeaderLine(TransferEncodingKey, transferEncoding) + "\r\n";
      }
      lengths := lengths + HeaderLine(ContentLengthKey, NatToString(length)) + "\r\n";
    }
  }

  // ---------------------------------------------------------------------
  // Proof helpers
  // ---------------------------------------------------------------------

  /** Appending pieces one at a time or as one string is the same. */
  lemma AppendAssoc6(o: string, a: string, b: string, c: string, d: string, e: string, f: string)
    ensures o + (a + b + c + d + e + f) == o + a + b + c + d + e + f
  {
  }
}
