/**
 * Form bodies: rows to application/x-www-form-urlencoded bytes and back. Components are percent-encoded
 * (section 2.1 of RFC 3986), with '+' for a space.
 */
module FormCodec {
  import opened Common

  datatype Row = Row(key: Bytes, value: Bytes, enabled: bool)

  const AMP: Byte := 38
  const EQUALS: Byte := 61
  const PLUS: Byte := 43
  const PERCENT: Byte := 37
  const SPACE: Byte := 32

  // ---------------------------------------------------------------- one component

  /** Letters, digits and "-_.~". */
  predicate Unreserved(b: Byte) {
    48 <= b <= 57 || 65 <= b <= 90 || 97 <= b <= 122 || b == 45 || b == 95 || b == 46 || b == 126
  }

  function UpperHex(n: nat): Byte
    requires n < 16
  {
    if n < 10 then 48 + n else 55 + n
  }

  /** Both cases are read. */
  function HexValue(b: Byte): (r: Option<nat>)
    ensures r.Some? ==> r.value < 16
  {
    if 48 <= b <= 57 then Some(b - 48)
    else if 97 <= b <= 102 then Some(b - 87)
    else if 65 <= b <= 70 then Some(b - 55)
    else None
  }

  function EscapeByte(b: Byte): Bytes {
    if Unreserved(b) then [b] else if b == SPACE then [PLUS] else [PERCENT, UpperHex(b / 16), UpperHex(b % 16)]
  }

  function Escape(s: Bytes): Bytes {
    if s == [] then [] else EscapeByte(s[0]) + Escape(s[1..])
  }

  /** None for a '%' without two hexadecimal digits. */
  function Unescape(s: Bytes): Option<Bytes> {
    if s == [] then Some([])
    else if s[0] == PERCENT then
      if |s| < 3 || HexValue(s[1]).None? || HexValue(s[2]).None? then None
      else
        var rest := Unescape(s[3..]);
        if rest.None? then None else Some([HexValue(s[1]).value * 16 + HexValue(s[2]).value] + rest.value)
    else
      var rest := Unescape(s[1..]);
      if rest.None? then None else Some([if s[0] == PLUS then SPACE else s[0]] + rest.value)
  }

  /** Escaping one byte and reading it back, in front of anything. */
  lemma UnescapeByte(b: Byte, rest: Bytes)
    requires Unescape(rest).Some?
    ensures Unescape(EscapeByte(b) + rest) == Some([b] + Unescape(rest).value)
  {
    var s := EscapeByte(b) + rest;
    if Unreserved(b) || b == SPACE {
      assert s[1..] == rest;
    } else {
      assert s[3..] == rest && HexValue(UpperHex(b / 16)) == Some(b / 16) && HexValue(UpperHex(b % 16)) == Some(b % 16);
    }
  }

  lemma {:induction false} UnescapeEscape(s: Bytes)
    ensures Unescape(Escape(s)) == Some(s)
  {
    if s != [] {
      UnescapeEscape(s[1..]);
      UnescapeByte(s[0], Escape(s[1..]));
      assert s == [s[0]] + s[1..];
    }
  }

  /** Escaped components contain no separators. */
  lemma {:induction false} EscapeClean(s: Bytes)
    ensures AMP !in Escape(s) && EQUALS !in Escape(s)
    ensures s != [] ==> Escape(s) != []
  {
    if s != [] {
      EscapeClean(s[1..]);
      assert AMP !in EscapeByte(s[0]) && EQUALS !in EscapeByte(s[0]);
    }
  }

  /** A malformed component is taken as it is. */
  function Component(s: Bytes): Bytes {
    Unescape(s).Or(s)
  }

  // ---------------------------------------------------------------- rows

  predicate Sent(row: Row) {
    row.enabled && row.key != []
  }

  function Pair(row: Row): Bytes {
    Escape(row.key) + [EQUALS] + Escape(row.value)
  }

  function Encoded(rows: seq<Row>): Bytes {
    if rows == [] then []
    else
      var before, row := Encoded(rows[..|rows| - 1]), rows[|rows| - 1];
      if !Sent(row) then before else before + (if before != [] then [AMP] else []) + Pair(row)
  }

  /** Where `b` first occurs at or after `from`. */
  function Find(s: Bytes, b: Byte, from: nat): (r: Option<nat>)
    requires from <= |s|
    ensures r.Some? ==> from <= r.value < |s| && s[r.value] == b
    ensures forall k :: from <= k < (if r.Some? then r.value else |s|) ==> s[k] != b
    decreases |s| - from
  {
    if from == |s| then None else if s[from] == b then Some(from) else Find(s, b, from + 1)
  }

  function SplitAmp(s: Bytes): (segments: seq<Bytes>)
    ensures segments != []
    decreases |s|
  {
    var i := Find(s, AMP, 0);
    if i.None? then [s] else [s[..i.value]] + SplitAmp(s[i.value + 1..])
  }

  /** strings.Cut at the first '='. */
  function Cut(s: Bytes): (Bytes, Bytes) {
    var i := Find(s, EQUALS, 0);
    if i.None? then (s, []) else (s[..i.value], s[i.value + 1..])
  }

  function ParsedRow(segment: Bytes): Row {
    Row(Component(Cut(segment).0), Component(Cut(segment).1), true)
  }

  function ParsedSegments(segments: seq<Bytes>): seq<Row> {
    if segments == [] then []
    else
      var last := segments[|segments| - 1];
      ParsedSegments(segments[..|segments| - 1]) + if last == [] then [] else [ParsedRow(last)]
  }

  function Parsed(content: Bytes): seq<Row> {
    if content == [] then [] else ParsedSegments(SplitAmp(content))
  }

  method EncodeFormPairs(rows: seq<Row>) returns (content: Bytes)
    ensures content == Encoded(rows)
  {
    content := [];
    for i := 0 to |rows|
      invariant content == Encoded(rows[..i])
    {
      assert rows[..i + 1][..i] == rows[..i];
      if !rows[i].enabled || rows[i].key == [] { continue; }
      if |content| > 0 { content := content + [AMP]; }
      content := content + Escape(rows[i].key);
      content := content + [EQUALS];
      content := content + Escape(rows[i].value);
      assert content == Encoded(rows[..i]) + (if Encoded(rows[..i]) != [] then [AMP] else []) + Pair(rows[i]);
    }
    assert rows[..|rows|] == rows;
  }

  method ParseFormPairs(content: Bytes) returns (rows: seq<Row>)
    ensures rows == Parsed(content)
  {
    if content == [] { return []; }
    var segments := SplitAmp(content);
    rows := [];
    for i := 0 to |segments|
      invariant rows == ParsedSegments(segments[..i])
    {
      assert segments[..i + 1][..i] == segments[..i];
      if segments[i] == [] { continue; }
      var (key, value) := Cut(segments[i]);
      rows := rows + [Row(Component(key), Component(value), true)];
    }
    assert segments[..|segments|] == segments;
  }

  // ---------------------------------------------------------------- the round trip

  /** The rows that are sent, as they can be read back. */
  function Wanted(rows: seq<Row>): seq<Row> {
    if rows == [] then []
    else
      var row := rows[|rows| - 1];
      Wanted(rows[..|rows| - 1]) + if Sent(row) then [Row(row.key, row.value, true)] else []
  }

  lemma {:induction false} FindIs(s: Bytes, b: Byte, from: nat, i: nat)
    requires from <= i < |s| && s[i] == b && b !in s[from..i]
    ensures Find(s, b, from) == Some(i)
    decreases i - from
  {
    if from < i {
      assert s[from..i][0] == s[from] && s[from..i][1..] == s[from + 1..i];
      FindIs(s, b, from + 1, i);
    }
  }

  lemma SplitAt(s: Bytes, n: nat)
    requires n < |s| && s[n] == AMP && AMP !in s[..n]
    ensures SplitAmp(s) == [s[..n]] + SplitAmp(s[n + 1..])
  {
    assert s[0..n] == s[..n];
    FindIs(s, AMP, 0, n);
  }

  /** Splitting at the first separator, when something follows what comes after it. */
  lemma SplitAtMore(s: Bytes, more: Bytes, n: nat)
    requires n < |s| && s[n] == AMP && AMP !in s[..n]
    ensures SplitAmp(s + more) == [s[..n]] + SplitAmp(s[n + 1..] + more)
    ensures SplitAmp(s) == [s[..n]] + SplitAmp(s[n + 1..])
  {
    assert (s + more)[..n] == s[..n] && (s + more)[n + 1..] == s[n + 1..] + more;
    SplitAt(s + more, n);
    SplitAt(s, n);
  }

  lemma SplitAmpTwo(s: Bytes, segment: Bytes)
    requires AMP !in s && AMP !in segment
    ensures SplitAmp(s + ([AMP] + segment)) == [s, segment] && SplitAmp(s) == [s]
  {
    var all := s + ([AMP] + segment);
    assert all[..|s|] == s && all[|s| + 1..] == segment;
    SplitAt(all, |s|);
    SplitAmpPlain(segment);
    SplitAmpPlain(s);
  }

  lemma {:induction false} FirstAmp(s: Bytes) returns (n: nat)
    requires AMP in s
    ensures n < |s| && s[n] == AMP && AMP !in s[..n]
  {
    if s[0] == AMP {
      n := 0;
    } else {
      assert s == [s[0]] + s[1..];
      var m := FirstAmp(s[1..]);
      n := m + 1;
      assert s[..n] == [s[0]] + s[1..][..m];
    }
  }

  lemma {:induction false} SplitAmpSnoc(s: Bytes, segment: Bytes)
    requires AMP !in segment
    ensures SplitAmp(s + ([AMP] + segment)) == SplitAmp(s) + [segment]
    decreases |s|
  {
    if AMP in s {
      var n := FirstAmp(s);
      SplitAtMore(s, [AMP] + segment, n);
      SplitAmpSnoc(s[n + 1..], segment);
      Regroup(s[..n], SplitAmp(s[n + 1..]), segment);
    } else {
      SplitAmpTwo(s, segment);
    }
  }

  lemma Regroup(first: Bytes, middle: seq<Bytes>, last: Bytes)
    ensures [first] + (middle + [last]) == ([first] + middle) + [last]
  {
  }

  lemma SplitAmpPlain(segment: Bytes)
    requires AMP !in segment
    ensures SplitAmp(segment) == [segment]
  {
  }

  lemma PairParses(row: Row)
    requires Sent(row)
    ensures AMP !in Pair(row) && Pair(row) != [] && ParsedRow(Pair(row)) == Row(row.key, row.value, true)
  {
    EscapeClean(row.key);
    EscapeClean(row.value);
    var key := Escape(row.key);
    assert Pair(row)[0..|key|] == key && Pair(row)[..|key|] == key && Pair(row)[|key| + 1..] == Escape(row.value);
    FindIs(Pair(row), EQUALS, 0, |key|);
    UnescapeEscape(row.key);
    UnescapeEscape(row.value);
  }

  /** One more pair is parsed as one more row. */
  lemma ParsedSnoc(before: Bytes, pair: Bytes)
    requires AMP !in pair && pair != []
    ensures Parsed(pair) == [ParsedRow(pair)]
    ensures before != [] ==> Parsed(before + ([AMP] + pair)) == Parsed(before) + [ParsedRow(pair)]
  {
    SplitAmpPlain(pair);
    SegmentsSnoc([], pair);
    assert [] + [pair] == [pair];
    if before != [] {
      SplitAmpSnoc(before, pair);
      SegmentsSnoc(SplitAmp(before), pair);
    }
  }

  lemma SegmentsSnoc(segments: seq<Bytes>, last: Bytes)
    requires last != []
    ensures ParsedSegments(segments + [last]) == ParsedSegments(segments) + [ParsedRow(last)]
  {
    assert (segments + [last])[..|segments|] == segments;
  }

  /** Encoding and parsing gives the enabled rows with a key, in order, duplicates included, for any bytes. */
  lemma {:induction false} RoundTrip(rows: seq<Row>)
    ensures Parsed(Encoded(rows)) == Wanted(rows)
  {
    if rows != [] {
      var init, row := rows[..|rows| - 1], rows[|rows| - 1];
      RoundTrip(init);
      if Sent(row) {
        var before := Encoded(init);
        PairParses(row);
        ParsedSnoc(before, Pair(row));
        assert Encoded(rows) == if before != [] then before + ([AMP] + Pair(row)) else Pair(row);
      }
    }
  }

  /** So different rows are never sent as the same bytes, as far as they are sent at all. */
  lemma EncodedInjective(a: seq<Row>, b: seq<Row>)
    requires Encoded(a) == Encoded(b)
    ensures Wanted(a) == Wanted(b)
  {
    RoundTrip(a);
    RoundTrip(b);
  }
}
