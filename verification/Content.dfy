/** File contents read as text: the byte range of every line, and the text the lines decode to. */
module Content {
  import opened Texts

  newtype byte = x: int | 0 <= x < 256

  type Bytes = seq<byte>

  const LF: byte := 10
  const CR: byte := 13

  datatype Range = Range(start: nat, end: nat)

  function Flat(lines: seq<Bytes>): Bytes {
    if lines == [] then [] else lines[0] + Flat(lines[1..])
  }

  lemma {:induction false} FlatAppend(a: seq<Bytes>, b: seq<Bytes>)
    ensures Flat(a + b) == Flat(a) + Flat(b)
  {
    if a == [] {
      assert a + b == b;
    } else {
      FlatAppend(a[1..], b);
      assert (a + b)[0] == a[0] && (a + b)[1..] == a[1..] + b;
      Regroup(a[0], Flat(a[1..]), Flat(b));
    }
  }

  lemma Regroup(a: Bytes, b: Bytes, c: Bytes)
    ensures a + (b + c) == a + b + c
  {
  }

  // ----- Lines -----

  /** LF, CR LF and a CR alone end a line. */
  predicate EndsLine(bytes: Bytes, i: nat)
    requires i < |bytes|
  {
    bytes[i] == LF || (bytes[i] == CR && !(i + 1 < |bytes| && bytes[i + 1] == LF))
  }

  /** The length of the first line, its end included. */
  function FirstLine(bytes: Bytes): (n: nat)
    requires bytes != []
    ensures 1 <= n <= |bytes|
    ensures forall i: nat | i + 1 < n :: !EndsLine(bytes, i)
    ensures n == |bytes| || EndsLine(bytes, n - 1)
  {
    if EndsLine(bytes, 0) || |bytes| == 1 then 1
    else
      assert forall i: nat | 1 <= i < |bytes| :: EndsLine(bytes, i) == EndsLine(bytes[1..], i - 1);
      1 + FirstLine(bytes[1..])
  }

  function LinesOf(bytes: Bytes): (lines: seq<Bytes>) {
    if bytes == [] then []
    else
      var n := FirstLine(bytes);
      [bytes[..n]] + LinesOf(bytes[n..])
  }

  lemma {:induction false} LinesAreTheBytes(bytes: Bytes)
    ensures Flat(LinesOf(bytes)) == bytes
  {
    if bytes != [] {
      var n := FirstLine(bytes);
      LinesAreTheBytes(bytes[n..]);
      assert bytes == bytes[..n] + bytes[n..];
    }
  }

  /** One line: a line end is its last byte, or the CR of a CR LF before its last byte, and nowhere else. */
  ghost predicate OneLine(line: Bytes) {
    && line != []
    && (forall i :: 0 <= i < |line| - 1 ==> line[i] != LF)
    && (forall i :: 0 <= i < |line| - 1 && line[i] == CR ==> i == |line| - 2 && line[i + 1] == LF)
  }

  /** A line that is ended by its last byte; a CR there does not have the LF of the next line behind it. */
  ghost predicate EndsBefore(line: Bytes, next: Bytes) {
    && line != [] && next != []
    && (line[|line| - 1] == LF || (line[|line| - 1] == CR && next[0] != LF))
  }

  /** No line holds a line end before its last byte, every line but the last ends, and no CR LF is taken
      apart. */
  lemma {:induction false} LinesEndOnce(bytes: Bytes)
    ensures forall k :: 0 <= k < |LinesOf(bytes)| ==> OneLine(LinesOf(bytes)[k])
    ensures forall k :: 0 <= k < |LinesOf(bytes)| - 1 ==> EndsBefore(LinesOf(bytes)[k], LinesOf(bytes)[k + 1])
  {
    if bytes != [] {
      var n := FirstLine(bytes);
      LinesEndOnce(bytes[n..]);
      FirstIsOneLine(bytes);
      if n < |bytes| {
        assert EndsLine(bytes, n - 1);
        FirstByte(bytes[n..]);
        assert EndsBefore(bytes[..n], LinesOf(bytes[n..])[0]);
      }
      hide OneLine, EndsBefore, EndsLine;
    }
  }

  lemma FirstIsOneLine(bytes: Bytes)
    requires bytes != []
    ensures OneLine(bytes[..FirstLine(bytes)])
  {
    var n := FirstLine(bytes);
    forall i: nat | i < n - 1 ensures !EndsLine(bytes, i) && bytes[..n][i] == bytes[i] {
      assert i + 1 < n;
    }
    forall i: nat | i < n - 1 && bytes[i] == CR ensures i == n - 2 && bytes[..n][i + 1] == LF {
      assert !EndsLine(bytes, i);
      assert EndsLine(bytes, i + 1);
    }
  }

  lemma FirstByte(bytes: Bytes)
    requires bytes != []
    ensures LinesOf(bytes) != [] && LinesOf(bytes)[0] != [] && LinesOf(bytes)[0][0] == bytes[0]
  {
  }

  /** The ranges the lines take when the first begins at `offset`. */
  function RangesOf(lines: seq<Bytes>, offset: nat): (ranges: seq<Range>)
    ensures |ranges| == |lines|
  {
    if lines == [] then []
    else [Range(offset, offset + |lines[0]|)] + RangesOf(lines[1..], offset + |lines[0]|)
  }

  lemma {:induction false} RangesCutTheLines(before: Bytes, lines: seq<Bytes>, i: nat)
    requires i < |lines|
    ensures var ranges, whole := RangesOf(lines, |before|), before + Flat(lines);
            |before| <= ranges[i].start <= ranges[i].end <= |whole| && whole[ranges[i].start..ranges[i].end] == lines[i]
    decreases lines
  {
    var longer := before + lines[0];
    assert before + Flat(lines) == longer + Flat(lines[1..]);
    if i > 0 {
      RangesCutTheLines(longer, lines[1..], i - 1);
    }
  }

  /** The byte ranges of the lines from `offset` on. */
  method LineRanges(bytes: Bytes, offset: nat) returns (ranges: seq<Range>)
    requires offset <= |bytes|
    ensures ranges == RangesOf(LinesOf(bytes[offset..]), offset)
  {
    hide LinesOf, RangesOf;
    var start := offset;
    ranges := [];
    ghost var whole := RangesOf(LinesOf(bytes[offset..]), offset);
    for index := offset to |bytes|
      invariant offset <= start <= index
      invariant forall k :: start <= k < index ==> !EndsLine(bytes, k)
      invariant whole == ranges + RangesOf(LinesOf(bytes[start..]), start)
    {
      if bytes[index] == LF || (bytes[index] == CR && !(index + 1 < |bytes| && bytes[index + 1] == LF)) {
        NextRange(bytes, start, index + 1);
        ranges := ranges + [Range(start, index + 1)];
        start := index + 1;
      }
    }
    if start < |bytes| {
      NextRange(bytes, start, |bytes|);
      ranges := ranges + [Range(start, |bytes|)];
    }
    NoMoreLines(bytes);
  }

  lemma NoMoreLines(bytes: Bytes)
    ensures RangesOf(LinesOf(bytes[|bytes|..]), |bytes|) == []
  {
  }

  lemma LineEndsAlike(bytes: Bytes, start: nat, k: nat)
    requires start + k < |bytes|
    ensures EndsLine(bytes[start..], k) == EndsLine(bytes, start + k)
  {
  }

  lemma FirstLineFrom(bytes: Bytes, start: nat, end: nat)
    requires start < end <= |bytes|
    requires forall k :: start <= k < end - 1 ==> !EndsLine(bytes, k)
    requires end == |bytes| || EndsLine(bytes, end - 1)
    ensures FirstLine(bytes[start..]) == end - start
  {
    hide EndsLine, FirstLine;
    var n := FirstLine(bytes[start..]);
    if n < end - start {
      LineEndsAlike(bytes, start, n - 1);
      assert false;
    }
    if n > end - start {
      LineEndsAlike(bytes, start, end - start - 1);
      assert false;
    }
  }

  lemma NextRange(bytes: Bytes, start: nat, end: nat)
    requires start < end <= |bytes|
    requires forall k :: start <= k < end - 1 ==> !EndsLine(bytes, k)
    requires end == |bytes| || EndsLine(bytes, end - 1)
    ensures RangesOf(LinesOf(bytes[start..]), start) == [Range(start, end)] + RangesOf(LinesOf(bytes[end..]), end)
  {
    FirstLineFrom(bytes, start, end);
    hide FirstLine, EndsLine;
    var rest := bytes[start..];
    assert rest[end - start..] == bytes[end..];
    assert LinesOf(rest) == [rest[..end - start]] + LinesOf(bytes[end..]);
  }

  // ----- Text -----

  datatype Encoding = Utf8 | EucJp | ShiftJis

  datatype Interpretation = Unspecified | AsBinary | AsText(encoding: Encoding)

  /** The decoders, which refuse bytes they cannot read. UTF-8 decodes to the same bytes. */
  datatype Decoders = Decoders(isUtf8: Bytes -> bool, decode: (Encoding, Bytes) -> Option<Bytes>)

  datatype Text = Text(raw: Bytes, decoded: Bytes, encoding: Encoding, bomLen: nat, rawLines: seq<Range>)

  datatype Content = Binary | TextContent(text: Text) | DecodeError(encoding: Encoding)

  const BOM: Bytes := [0xef, 0xbb, 0xbf]

  function Bom(t: Text): Bytes
    requires t.bomLen <= |t.raw|
  {
    t.raw[..t.bomLen]
  }

  function Body(t: Text): Bytes
    requires t.bomLen <= |t.raw|
  {
    t.raw[t.bomLen..]
  }

  /** The ranges are those of the lines of the bytes behind the BOM. */
  predicate Formed(t: Text) {
    && t.bomLen <= |t.raw|
    && t.rawLines == RangesOf(LinesOf(Body(t)), t.bomLen)
    && (t.encoding == Utf8 ==> t.decoded == Body(t))
  }

  /** As many lines in the decoded text as in the bytes: no decoder makes or loses a line end. */
  predicate Aligned(t: Text) {
    |LinesOf(t.decoded)| == |t.rawLines|
  }

  lemma RawLineIsLine(t: Text, index: nat)
    requires Formed(t) && index < |t.rawLines|
    ensures var range := t.rawLines[index];
            range.start <= range.end <= |t.raw| && t.raw[range.start..range.end] == LinesOf(Body(t))[index]
  {
    hide LinesOf, RangesOf;
    RangesCutTheLines(Bom(t), LinesOf(Body(t)), index);
    LinesAreTheBytes(Body(t));
    assert Bom(t) + Body(t) == t.raw;
  }

  function RawLine(t: Text, index: nat): (line: Bytes)
    requires Formed(t) && index < |t.rawLines|
    ensures line == LinesOf(Body(t))[index]
  {
    RawLineIsLine(t, index);
    t.raw[t.rawLines[index].start..t.rawLines[index].end]
  }

  /** A NUL among the first 8192 bytes. */
  predicate LooksBinary(raw: Bytes) {
    exists i :: 0 <= i < |raw| && i < 8192 && raw[i] == 0
  }

  /** The bytes, for UTF-8 those behind the BOM, are not in the encoding. */
  predicate Refused(decoders: Decoders, encoding: Encoding, raw: Bytes) {
    if encoding == Utf8 then !decoders.isUtf8(if BOM <= raw then raw[3..] else raw)
    else decoders.decode(encoding, raw).None?
  }

  /** What looks binary is binary however it is to be read. Without an interpretation, what is not UTF-8
      is binary too; asking for an encoding the bytes are not in is an error. */
  method Interpret(raw: Bytes, interpretation: Interpretation, decoders: Decoders) returns (content: Content)
    ensures content.TextContent? ==>
              var t := content.text;
              && t.raw == raw && Formed(t)
              && (t.encoding == Utf8 ==> Aligned(t) && (t.bomLen == 3 <==> BOM <= raw))
              && (t.encoding != Utf8 ==> t.bomLen == 0 && decoders.decode(t.encoding, raw) == Some(t.decoded))
              && t.encoding == (if interpretation.AsText? then interpretation.encoding else Utf8)
    ensures content.Binary? <==>
              interpretation == AsBinary || LooksBinary(raw)
                || (interpretation == Unspecified && Refused(decoders, Utf8, raw))
    ensures content.DecodeError? <==>
              interpretation.AsText? && !LooksBinary(raw) && Refused(decoders, interpretation.encoding, raw)
    ensures content.DecodeError? ==> content.encoding == interpretation.encoding
  {
    var front := raw[..if |raw| < 8192 then |raw| else 8192];
    assert LooksBinary(raw) <==> 0 in front by {
      if LooksBinary(raw) {
        var i :| 0 <= i < |raw| && i < 8192 && raw[i] == 0;
        assert front[i] == 0;
      }
    }
    if interpretation == AsBinary || 0 in front {
      return Binary;
    }
    var encoding := if interpretation == Unspecified then Utf8 else interpretation.encoding;
    var bomLen := if encoding == Utf8 && BOM <= raw then 3 else 0;
    var body := raw[bomLen..];
    assert raw[0..] == raw;
    var decoded := if encoding == Utf8 then (if decoders.isUtf8(body) then Some(body) else None)
                   else decoders.decode(encoding, body);
    if decoded.None? {
      return if interpretation == Unspecified then Binary else DecodeError(encoding);
    }
    var rawLines := LineRanges(raw, bomLen);
    return TextContent(Text(raw, decoded.value, encoding, bomLen, rawLines));
  }
}
