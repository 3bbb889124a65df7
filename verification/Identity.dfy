/** The reversible encoding of expanded composition ids: percent-encoded segments joined by "::". */
module Identity {
  import opened Wrappers

  datatype Segment = Node(value: string) | Slot(value: string)

  // ---------------------------------------------------------------------------------------------
  // encodeURIComponent and decodeURIComponent.

  /** Characters that are never escaped. */
  predicate Unreserved(c: char) {
    'A' <= c <= 'Z' || 'a' <= c <= 'z' || '0' <= c <= '9' || c in "-_.!~*'()"
  }

  type byte = b: int | 0 <= b < 256

  /** The UTF-8 encoding of one character. */
  function Utf8(c: char): seq<byte> {
    var n := c as int;
    if n < 0x80 then [n]
    else if n < 0x800 then [0xC0 + n / 64, 0x80 + n % 64]
    else if n < 0x10000 then [0xE0 + n / 4096, 0x80 + n / 64 % 64, 0x80 + n % 64]
    else [0xF0 + n / 262144, 0x80 + n / 4096 % 64, 0x80 + n / 64 % 64, 0x80 + n % 64]
  }

  function HexDigit(n: int): char
    requires 0 <= n < 16
  {
    if n < 10 then '0' + n as char else 'A' + (n - 10) as char
  }

  function HexValue(c: char): Option<int> {
    if '0' <= c <= '9' then Some((c - '0') as int)
    else if 'A' <= c <= 'F' then Some((c - 'A') as int + 10)
    else if 'a' <= c <= 'f' then Some((c - 'a') as int + 10)
    else None
  }

  function Escape(b: byte): string {
    ['%', HexDigit(b / 16), HexDigit(b % 16)]
  }

  function EscapeAll(bytes: seq<byte>): string {
    if bytes == [] then "" else Escape(bytes[0]) + EscapeAll(bytes[1..])
  }

  function EncodeChar(c: char): string {
    if Unreserved(c) then [c] else EscapeAll(Utf8(c))
  }

  function EncodeSegment(value: string): string {
    if value == "" then "" else EncodeChar(value[0]) + EncodeSegment(value[1..])
  }

  /** One escaped byte at the front of the text. */
  function ReadByte(text: string): Option<byte> {
    if |text| < 3 || text[0] != '%' then None
    else
      var high :- HexValue(text[1]);
      var low :- HexValue(text[2]);
      Some(high * 16 + low)
  }

  function ReadContinuation(text: string): Option<int> {
    var b :- ReadByte(text);
    if 0x80 <= b < 0xC0 then Some(b - 0x80) else None
  }

  /** A code point that UTF-8 may carry in `length` bytes. */
  function ToChar(n: int, least: nat): Option<char> {
    if n >= least && (n < 0xD800 || 0xE000 <= n < 0x11_0000) then Some(n as char) else None
  }

  datatype Read = Read(c: char, length: nat)

  /** Decodes the escape sequence at the front of the text. */
  function ReadEscape(text: string): Option<Read> {
    var b :- ReadByte(text);
    if b < 0x80 then Some(Read(b as char, 3))
    else if b < 0xC0 then None
    else
      var first :- ReadContinuation(text[3..]);
      if b < 0xE0 then
        var c :- ToChar((b - 0xC0) * 64 + first, 0x80);
        Some(Read(c, 6))
      else
        var second :- ReadContinuation(text[6..]);
        if b < 0xF0 then
          var c :- ToChar((b - 0xE0) * 4096 + first * 64 + second, 0x800);
          Some(Read(c, 9))
        else if b < 0xF8 then
          var third :- ReadContinuation(text[9..]);
          var c :- ToChar((b - 0xF0) * 262144 + first * 4096 + second * 64 + third, 0x10000);
          Some(Read(c, 12))
        else None
  }

  lemma ReadEscapeLength(text: string)
    requires ReadEscape(text).Some?
    ensures 0 < ReadEscape(text).value.length <= |text|
  {
  }

  function DecodeUri(text: string): Option<string>
    decreases |text|
  {
    if text == "" then Some("")
    else if text[0] != '%' then
      var rest :- DecodeUri(text[1..]);
      Some([text[0]] + rest)
    else
      var read :- ReadEscape(text);
      ReadEscapeLength(text);
      var rest :- DecodeUri(text[read.length..]);
      Some([read.c] + rest)
  }

  /** Only non-empty canonical text decodes. */
  function DecodeSegment(text: string): Option<string> {
    if text == "" then None
    else
      var decoded :- DecodeUri(text);
      if EncodeSegment(decoded) == text then Some(decoded) else None
  }

  // ---------------------------------------------------------------------------------------------
  // Expanded ids.

  const SEPARATOR := "::"
  const SLOT_MARKER := "slot:"

  function NamespacedId(prefix: Option<string>, value: string): string {
    if prefix.None? then EncodeSegment(value) else prefix.value + SEPARATOR + EncodeSegment(value)
  }

  function SlotNamespace(prefix: string, slot: string): string {
    prefix + SEPARATOR + SLOT_MARKER + EncodeSegment(slot)
  }

  /** `split("::")`. */
  function SplitParts(text: string): (parts: seq<string>)
    ensures parts != []
  {
    if text == "" then [""]
    else if SEPARATOR <= text then [""] + SplitParts(text[2..])
    else
      var rest := SplitParts(text[1..]);
      [[text[0]] + rest[0]] + rest[1..]
  }

  function DecodePart(part: string): Option<Segment> {
    if SLOT_MARKER <= part then
      var value :- DecodeSegment(part[|SLOT_MARKER|..]);
      Some(Slot(value))
    else
      var value :- DecodeSegment(part);
      Some(Node(value))
  }

  function DecodeParts(parts: seq<string>): Option<seq<Segment>> {
    if parts == [] then Some([])
    else
      var first :- DecodePart(parts[0]);
      var rest :- DecodeParts(parts[1..]);
      Some([first] + rest)
  }

  function DecodeId(text: string): Option<seq<Segment>> {
    if text == "" then None else DecodeParts(SplitParts(text))
  }

  /** The text the expander builds for a segment path. */
  function PartOf(segment: Segment): string {
    match segment
    case Node(value) => EncodeSegment(value)
    case Slot(value) => SLOT_MARKER + EncodeSegment(value)
  }

  function Render(path: seq<Segment>): string {
    if path == [] then ""
    else if |path| == 1 then PartOf(path[0])
    else PartOf(path[0]) + SEPARATOR + Render(path[1..])
  }

  predicate ValidPath(path: seq<Segment>) {
    path != [] && forall k :: 0 <= k < |path| ==> path[k].value != ""
  }

  // ---------------------------------------------------------------------------------------------
  // The segment codec.

  lemma HexRoundTrip(n: int)
    requires 0 <= n < 16
    ensures HexValue(HexDigit(n)) == Some(n) && HexDigit(n) != ':' && HexDigit(n) != '%'
  {
  }

  lemma ReadEscaped(b: byte, rest: string)
    ensures ReadByte(Escape(b) + rest) == Some(b)
    ensures (Escape(b) + rest)[3..] == rest
  {
    HexRoundTrip(b / 16);
    HexRoundTrip(b % 16);
    var text := Escape(b) + rest;
    assert text[0] == '%' && text[1] == HexDigit(b / 16) && text[2] == HexDigit(b % 16);
  }

  lemma ReadEncoded(c: char, rest: string)
    requires !Unreserved(c)
    ensures ReadEscape(EncodeChar(c) + rest) == Some(Read(c, |EncodeChar(c)|))
    ensures EncodeChar(c) != "" && EncodeChar(c)[0] == '%'
  {
    if c as int < 0x80 {
      EscapeOne(c as int);
      ReadEscaped(c as int, rest);
    } else if c as int < 0x800 {
      ReadTwo(c, rest);
    } else if c as int < 0x10000 {
      ReadThree(c, rest);
    } else {
      ReadFour(c, rest);
    }
  }

  lemma ReadTwo(c: char, rest: string)
    requires 0x80 <= c as int < 0x800
    ensures |EncodeChar(c)| == 6 && EncodeChar(c)[0] == '%' && ReadEscape(EncodeChar(c) + rest) == Some(Read(c, 6))
  {
    var bytes := Utf8(c);
    EscapeTwo(bytes[0], bytes[1], rest);
    assert bytes == [bytes[0], bytes[1]];
  }

  lemma Sextets(n: nat)
    requires n < 0x11_0000
    ensures n == n / 64 * 64 + n % 64 && n / 64 == n / 4096 * 64 + n / 64 % 64
    ensures n / 4096 == n / 262144 * 64 + n / 4096 % 64
    ensures n < 0x10000 ==> n / 4096 < 16
    ensures n / 262144 < 5
  {
  }

  lemma ThreeBytes(text: string, n: nat)
    requires 0x800 <= n < 0x10000 && (n < 0xD800 || 0xE000 <= n)
    requires ReadByte(text) == Some(0xE0 + n / 4096)
    requires ReadByte(text[3..]) == Some(0x80 + n / 64 % 64) && ReadByte(text[6..]) == Some(0x80 + n % 64)
    ensures ReadEscape(text) == Some(Read(n as char, 9))
  {
    Sextets(n);
  }

  lemma FourBytes(text: string, n: nat)
    requires 0x10000 <= n < 0x11_0000
    requires ReadByte(text) == Some(0xF0 + n / 262144) && ReadByte(text[3..]) == Some(0x80 + n / 4096 % 64)
    requires ReadByte(text[6..]) == Some(0x80 + n / 64 % 64) && ReadByte(text[9..]) == Some(0x80 + n % 64)
    ensures ReadEscape(text) == Some(Read(n as char, 12))
  {
    Sextets(n);
  }

  lemma ReadThree(c: char, rest: string)
    requires 0x800 <= c as int < 0x10000
    ensures |EncodeChar(c)| == 9 && EncodeChar(c)[0] == '%' && ReadEscape(EncodeChar(c) + rest) == Some(Read(c, 9))
  {
    var n := c as int;
    Sextets(n);
    var x: byte, y: byte, z: byte := 0xE0 + n / 4096, 0x80 + n / 64 % 64, 0x80 + n % 64;
    assert Utf8(c) == [x, y, z];
    EscapeThree(x, y, z, rest);
    ThreeBytes(EscapeAll([x, y, z]) + rest, n);
  }

  lemma ReadFour(c: char, rest: string)
    requires 0x10000 <= c as int
    ensures |EncodeChar(c)| == 12 && EncodeChar(c)[0] == '%' && ReadEscape(EncodeChar(c) + rest) == Some(Read(c, 12))
  {
    var n := c as int;
    Sextets(n);
    var w: byte, x: byte, y: byte, z: byte := 0xF0 + n / 262144, 0x80 + n / 4096 % 64, 0x80 + n / 64 % 64, 0x80 + n % 64;
    assert Utf8(c) == [w, x, y, z];
    EscapeFour(w, x, y, z, rest);
    FourBytes(EscapeAll([w, x, y, z]) + rest, n);
  }

  lemma EscapeOne(a: byte)
    ensures EscapeAll([a]) == Escape(a)
  {
    assert [a][1..] == [];
  }

  lemma EscapeTwo(a: byte, b: byte, rest: string)
    ensures |EscapeAll([a, b])| == 6 && EscapeAll([a, b])[0] == '%'
    ensures var text := EscapeAll([a, b]) + rest;
            ReadByte(text) == Some(a) && ReadByte(text[3..]) == Some(b)
  {
    EscapeOne(b);
    assert [a, b][1..] == [b];
    assert EscapeAll([a, b]) + rest == Escape(a) + (Escape(b) + rest);
    ReadEscaped(a, Escape(b) + rest);
    ReadEscaped(b, rest);
  }

  lemma EscapeThree(a: byte, b: byte, c: byte, rest: string)
    ensures |EscapeAll([a, b, c])| == 9 && EscapeAll([a, b, c])[0] == '%'
    ensures var text := EscapeAll([a, b, c]) + rest;
            ReadByte(text) == Some(a) && ReadByte(text[3..]) == Some(b) && ReadByte(text[6..]) == Some(c)
  {
    EscapeTwo(b, c, rest);
    assert [a, b, c][1..] == [b, c];
    var tail := EscapeAll([b, c]) + rest;
    assert EscapeAll([a, b, c]) + rest == Escape(a) + tail;
    ReadEscaped(a, tail);
    assert (Escape(a) + tail)[6..] == tail[3..];
  }

  lemma EscapeFour(a: byte, b: byte, c: byte, d: byte, rest: string)
    ensures |EscapeAll([a, b, c, d])| == 12 && EscapeAll([a, b, c, d])[0] == '%'
    ensures var text := EscapeAll([a, b, c, d]) + rest;
            && ReadByte(text) == Some(a) && ReadByte(text[3..]) == Some(b) && ReadByte(text[6..]) == Some(c)
            && ReadByte(text[9..]) == Some(d)
  {
    EscapeThree(b, c, d, rest);
    assert [a, b, c, d][1..] == [b, c, d];
    var tail := EscapeAll([b, c, d]) + rest;
    assert EscapeAll([a, b, c, d]) + rest == Escape(a) + tail;
    ReadEscaped(a, tail);
    assert (Escape(a) + tail)[6..] == tail[3..] && (Escape(a) + tail)[9..] == tail[6..];
  }

  /** Percent-decoding undoes percent-encoding on every text. */
  lemma {:induction false} DecodeEncodedUri(value: string)
    ensures DecodeUri(EncodeSegment(value)) == Some(value)
  {
    if value != "" {
      DecodeEncodedUri(value[1..]);
      var head, rest := EncodeChar(value[0]), EncodeSegment(value[1..]);
      assert value == [value[0]] + value[1..];
      if Unreserved(value[0]) {
        assert (head + rest)[1..] == rest;
      } else {
        ReadEncoded(value[0], rest);
        assert (head + rest)[|head|..] == rest;
      }
    }
  }

  /** A non-empty value survives encoding and decoding. */
  lemma SegmentRoundTrip(value: string)
    requires value != ""
    ensures DecodeSegment(EncodeSegment(value)) == Some(value)
  {
    DecodeEncodedUri(value);
    EncodedIsNotEmpty(value);
  }

  lemma EncodedIsNotEmpty(value: string)
    requires value != ""
    ensures EncodeSegment(value) != ""
  {
    if !Unreserved(value[0]) {
      ReadEncoded(value[0], "");
    }
  }

  lemma {:induction false} EscapesHaveNoColon(bytes: seq<byte>)
    ensures ':' !in EscapeAll(bytes)
  {
    if bytes != [] {
      HexRoundTrip(bytes[0] / 16);
      HexRoundTrip(bytes[0] % 16);
      EscapesHaveNoColon(bytes[1..]);
    }
  }

  /** The separator character never occurs inside an encoded segment. */
  lemma {:induction false} EncodedHasNoColon(value: string)
    ensures ':' !in EncodeSegment(value)
  {
    if value != "" {
      EncodedHasNoColon(value[1..]);
      EscapesHaveNoColon(Utf8(value[0]));
    }
  }

  // ---------------------------------------------------------------------------------------------
  // Parts.

  /** Text in which a following separator is found at its end and not before. */
  predicate Solid(part: string) {
    && (forall i :: 0 <= i < |part| - 1 ==> !(part[i] == ':' && part[i + 1] == ':'))
    && (part != "" ==> part[|part| - 1] != ':')
  }

  lemma {:induction false} SplitAtSeparator(part: string, rest: string)
    requires Solid(part)
    ensures SplitParts(part + SEPARATOR + rest) == [part] + SplitParts(rest)
  {
    var text := part + SEPARATOR + rest;
    if part == "" {
      assert text[2..] == rest;
    } else {
      assert Solid(part[1..]);
      SplitAtSeparator(part[1..], rest);
      assert text[1..] == part[1..] + SEPARATOR + rest;
      assert part == [part[0]] + part[1..];
      assert !(SEPARATOR <= text) by {
        assert text[0] == part[0];
        assert |part| > 1 ==> text[1] == part[1];
      }
    }
  }

  lemma {:induction false} SplitSolid(part: string)
    requires Solid(part)
    ensures SplitParts(part) == [part]
  {
    if part != "" {
      assert Solid(part[1..]);
      SplitSolid(part[1..]);
      assert part == [part[0]] + part[1..];
      assert !(SEPARATOR <= part);
    }
  }

  lemma PartIsSolid(segment: Segment)
    requires segment.value != ""
    ensures Solid(PartOf(segment)) && PartOf(segment) != ""
    ensures DecodePart(PartOf(segment)) == Some(segment)
  {
    var encoded := EncodeSegment(segment.value);
    EncodedHasNoColon(segment.value);
    EncodedIsNotEmpty(segment.value);
    SegmentRoundTrip(segment.value);
    if segment.Slot? {
      var part := SLOT_MARKER + encoded;
      assert part[5..] == encoded;
      assert forall i :: 5 <= i < |part| ==> part[i] != ':';
      assert part[3] == 't';
    } else {
      assert !(SLOT_MARKER <= encoded) by {
        assert SLOT_MARKER[4] == ':';
      }
    }
  }

  function PartsOf(path: seq<Segment>): seq<string> {
    seq(|path|, k requires 0 <= k < |path| => PartOf(path[k]))
  }

  lemma FirstPart(path: seq<Segment>)
    requires path != []
    ensures PartsOf(path) == [PartOf(path[0])] + PartsOf(path[1..]) && PartsOf(path)[1..] == PartsOf(path[1..])
  {
  }

  lemma {:induction false} SplitRendered(path: seq<Segment>)
    requires ValidPath(path)
    ensures SplitParts(Render(path)) == PartsOf(path)
    ensures Render(path) != ""
  {
    PartIsSolid(path[0]);
    FirstPart(path);
    if |path| == 1 {
      SplitSolid(PartOf(path[0]));
    } else {
      SplitRendered(path[1..]);
      SplitAtSeparator(PartOf(path[0]), Render(path[1..]));
    }
  }

  lemma {:induction false} DecodeRenderedParts(path: seq<Segment>)
    requires forall k :: 0 <= k < |path| ==> path[k].value != ""
    ensures DecodeParts(PartsOf(path)) == Some(path)
  {
    if path != [] {
      PartIsSolid(path[0]);
      DecodeRenderedParts(path[1..]);
      FirstPart(path);
      assert path == [path[0]] + path[1..];
    }
  }

  /** Decoding an expanded id returns the node and slot segments it was built from. */
  lemma IdRoundTrip(path: seq<Segment>)
    requires ValidPath(path)
    ensures DecodeId(Render(path)) == Some(path)
  {
    SplitRendered(path);
    DecodeRenderedParts(path);
  }

  /** Different segment paths never share an id. */
  lemma RenderIsInjective(a: seq<Segment>, b: seq<Segment>)
    requires ValidPath(a) && ValidPath(b) && Render(a) == Render(b)
    ensures a == b
  {
    IdRoundTrip(a);
    IdRoundTrip(b);
  }

  // ---------------------------------------------------------------------------------------------
  // Only canonical ids decode.

  function JoinParts(parts: seq<string>): string {
    if parts == [] then "" else if |parts| == 1 then parts[0] else parts[0] + SEPARATOR + JoinParts(parts[1..])
  }

  lemma JoinLonger(c: char, parts: seq<string>)
    requires parts != []
    ensures JoinParts([[c] + parts[0]] + parts[1..]) == [c] + JoinParts(parts)
  {
    var longer := [[c] + parts[0]] + parts[1..];
    assert longer[1..] == parts[1..] && longer[0] == [c] + parts[0];
    if |parts| > 1 {
      Regroup([c], parts[0], SEPARATOR, JoinParts(parts[1..]));
    }
  }

  lemma Regroup(a: string, b: string, c: string, d: string)
    ensures a + b + c + d == a + (b + c + d)
  {
  }

  lemma {:induction false} JoinSplit(text: string)
    ensures JoinParts(SplitParts(text)) == text
  {
    if text != "" {
      if SEPARATOR <= text {
        JoinSplit(text[2..]);
        assert ([""] + SplitParts(text[2..]))[1..] == SplitParts(text[2..]);
        assert text == SEPARATOR + text[2..];
      } else {
        JoinSplit(text[1..]);
        JoinLonger(text[0], SplitParts(text[1..]));
        assert text == [text[0]] + text[1..];
      }
    }
  }

  lemma DecodedPart(part: string)
    requires DecodePart(part).Some?
    ensures PartOf(DecodePart(part).value) == part && DecodePart(part).value.value != ""
  {
    if SLOT_MARKER <= part {
      assert part == SLOT_MARKER + part[|SLOT_MARKER|..];
    }
  }

  lemma {:induction false} DecodedParts(parts: seq<string>)
    requires DecodeParts(parts).Some?
    ensures var path := DecodeParts(parts).value;
            && |path| == |parts| && Render(path) == JoinParts(parts)
            && forall k :: 0 <= k < |path| ==> path[k].value != ""
  {
    if parts != [] {
      DecodedPart(parts[0]);
      DecodedParts(parts[1..]);
      var rest := DecodeParts(parts[1..]).value;
      assert ([DecodePart(parts[0]).value] + rest)[1..] == rest;
    }
  }

  /** Whatever decodes is the one canonical text of its segments. */
  lemma DecodedIdIsCanonical(text: string)
    requires DecodeId(text).Some?
    ensures ValidPath(DecodeId(text).value) && Render(DecodeId(text).value) == text
  {
    JoinSplit(text);
    DecodedParts(SplitParts(text));
  }

  // ---------------------------------------------------------------------------------------------
  // The expander's two ways to extend an id.

  lemma {:induction false} RenderExtended(path: seq<Segment>, last: Segment)
    requires path != []
    ensures Render(path + [last]) == Render(path) + SEPARATOR + PartOf(last)
  {
    assert (path + [last])[1..] == path[1..] + [last] && (path + [last])[0] == path[0];
    if |path| > 1 {
      RenderExtended(path[1..], last);
      Regroup(PartOf(path[0]) + SEPARATOR, Render(path[1..]), SEPARATOR, PartOf(last));
    } else {
      assert path[1..] + [last] == [last];
    }
  }

  /** Namespacing an id or a slot appends one segment to its path. */
  lemma NamespacingAppends(path: seq<Segment>, value: string)
    ensures path == [] ==> NamespacedId(None, value) == Render([Node(value)])
    ensures path != [] ==> NamespacedId(Some(Render(path)), value) == Render(path + [Node(value)])
    ensures path != [] ==> SlotNamespace(Render(path), value) == Render(path + [Slot(value)])
  {
    if path != [] {
      RenderExtended(path, Node(value));
      RenderExtended(path, Slot(value));
      assert Render(path) + SEPARATOR + (SLOT_MARKER + EncodeSegment(value))
          == Render(path) + SEPARATOR + SLOT_MARKER + EncodeSegment(value);
    }
  }
}
