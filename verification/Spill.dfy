/**
 * Reading a response: the part to display in memory, everything else through a temporary file with an
 * absolute limit. Reads, writes and truncation may fail at any point.
 */
module Spill {
  import opened Common

  const MIB := 1024 * 1024
  const DEFAULT_MAX_RESPONSE_MB := 10
  const DEFAULT_MAX_TEMP := 1024 * MIB

  function Min(a: int, b: int): int {
    if a < b then a else b
  }

  function Prefix(s: Bytes, n: int): Bytes {
    if n <= 0 then [] else if n < |s| then s[..n] else s
  }

  // ---------------------------------------------------------------- the limits

  /** 64-bit wrap-around of a product. */
  function Wrap64(x: int): int {
    (x + 0x8000_0000_0000_0000) % 0x1_0000_0000_0000_0000 - 0x8000_0000_0000_0000
  }

  function TempLimit(maxTempBytes: int): int {
    if maxTempBytes > 0 then maxTempBytes else DEFAULT_MAX_TEMP
  }

  function ResolveMaxResponseBody(settingMB: int, maxTempBytes: int): int {
    Min(if settingMB > 0 then Wrap64(settingMB * MIB) else DEFAULT_MAX_RESPONSE_MB * MIB, TempLimit(maxTempBytes))
  }

  lemma WrapMiB(mb: int)
    requires mb > 0
    ensures Wrap64(mb * MIB) == (if mb % 0x1000_0000_0000 < 0x800_0000_0000 then mb % 0x1000_0000_0000
                                 else mb % 0x1000_0000_0000 - 0x1000_0000_0000) * MIB
  {
    var q, r := mb / 0x1000_0000_0000, mb % 0x1000_0000_0000;
    assert mb * MIB == q * 0x1_0000_0000_0000_0000 + r * MIB;
  }

  /** The setting in mebibytes does not overflow 64 bits into a negative number of bytes. */
  predicate NotNegative(settingMB: int) {
    settingMB <= 0 || settingMB % 0x1000_0000_0000 < 0x800_0000_0000
  }

  /** The limit for display never exceeds the limit for the file. It is negative, zero or positive by the
      setting alone, and the setting itself if that does not overflow. */
  lemma DisplayLimit(settingMB: int, maxTempBytes: int)
    ensures ResolveMaxResponseBody(settingMB, maxTempBytes) <= TempLimit(maxTempBytes)
    ensures ResolveMaxResponseBody(settingMB, maxTempBytes) >= 0 <==> NotNegative(settingMB)
    ensures ResolveMaxResponseBody(settingMB, maxTempBytes) >= 1
       <==> settingMB <= 0 || 0 < settingMB % 0x1000_0000_0000 < 0x800_0000_0000
    ensures 0 < settingMB < 0x800_0000_0000 ==>
      ResolveMaxResponseBody(settingMB, maxTempBytes) == Min(settingMB * MIB, TempLimit(maxTempBytes))
  {
    if settingMB > 0 { WrapMiB(settingMB); }
  }

  // ---------------------------------------------------------------- streams and files

  class Stream {
    const data: Bytes
    var pos: nat
    ghost var faults: nat

    ghost predicate Valid()
      reads this
    {
      pos <= |data|
    }

    ghost function Rest(): Bytes
      requires Valid()
      reads this
    {
      data[pos..]
    }

    /** At most `n` bytes and fewer only at the end, unless reading fails. */
    method Read(n: int) returns (bytes: Bytes, ok: bool)
      requires Valid()
      modifies this`pos, this`faults
      ensures Valid() && faults == old(faults) + if ok then 0 else 1
      ensures ok ==> bytes == Prefix(old(Rest()), n) && old(Rest()) == bytes + Rest()
    {
      ok := *;
      bytes := Prefix(data[pos..], n);
      pos := pos + |bytes|;
      if !ok { faults := faults + 1; }
    }
  }

  class TempFile {
    var bytes: Bytes
    ghost var faults: nat

    /** Makes the file, which is empty then. */
    method Create() returns (ok: bool)
      modifies this
      ensures ok ==> bytes == []
      ensures faults == old(faults) + if ok then 0 else 1
    {
      ok := *;
      if ok { bytes := []; } else { faults := faults + 1; }
    }

    method Close() returns (ok: bool)
      modifies this`faults
      ensures faults == old(faults) + if ok then 0 else 1
    {
      ok := *;
      if !ok { faults := faults + 1; }
    }

    /** A failed write may have written a part. */
    method Write(p: Bytes) returns (ok: bool)
      modifies this
      ensures ok ==> bytes == old(bytes) + p
      ensures faults == old(faults) + if ok then 0 else 1
    {
      ok := *;
      if !ok { faults := faults + 1; }
      var n: int := *;
      bytes := bytes + if ok then p else Prefix(p, n);
    }

    method Truncate(n: nat) returns (ok: bool)
      modifies this
      ensures ok && n <= |old(bytes)| ==> bytes == old(bytes)[..n]
      ensures faults == old(faults) + if ok then 0 else 1
    {
      ok := *;
      if !ok { faults := faults + 1; }
      if ok && n <= |bytes| { bytes := bytes[..n]; }
    }
  }

  lemma Regroup(a: Bytes, b: Bytes, c: Bytes)
    ensures a + (b + c) == a + b + c
  {
  }

  /** What was taken is the start, as far as it goes. */
  lemma Taken(all: Bytes, done: Bytes, left: Bytes, limit: nat)
    requires all == done + left && |done| <= limit && (|done| == limit || left == [])
    ensures |done| == Min(limit, |all|) && done == Prefix(all, limit) && left == all[|done|..]
  {
  }

  /** io.Copy with a limit, chunk by chunk; `written` counts what reached the file. */
  method CopyUpTo(f: TempFile, rest: Stream, limit: nat) returns (written: nat, readOk: bool, writeOk: bool)
    requires rest.Valid()
    modifies f, rest`pos, rest`faults
    ensures rest.Valid()
    ensures readOk && writeOk ==> written == Min(limit, |old(rest.Rest())|)
    ensures readOk && writeOk ==> f.bytes == old(f.bytes) + Prefix(old(rest.Rest()), limit)
    ensures readOk && writeOk ==> rest.Rest() == old(rest.Rest())[written..]
    ensures rest.faults == old(rest.faults) + (if readOk then 0 else 1)
      && f.faults == old(f.faults) + if writeOk then 0 else 1
  {
    written, readOk, writeOk := 0, true, true;
    ghost var all, done := rest.Rest(), [];
    while written < limit
      invariant rest.Valid() && written == |done| <= limit
      invariant rest.faults == old(rest.faults) && f.faults == old(f.faults)
      invariant f.bytes == old(f.bytes) + done && all == done + rest.Rest()
      decreases limit - written
    {
      var size: int := *;
      if size < 1 || size > limit - written { size := limit - written; }
      var chunk, ok := rest.Read(size);
      if !ok { return written, false, true; }
      if chunk == [] { break; }
      var put := f.Write(chunk);
      if !put { return written, true, false; }
      Regroup(done, chunk, rest.Rest());
      Regroup(old(f.bytes), done, chunk);
      written, done := written + |chunk|, done + chunk;
    }
    Taken(all, done, rest.Rest(), limit);
  }

  datatype Error = SpillWrite | ReadFailed

  datatype Spilled = Written(written: nat, capped: bool) | SpillFailed(e: Error) | Declined

  lemma PrefixOfAll(head: Bytes, peek: Bytes, rest: Bytes, limit: nat)
    requires |head| <= limit && |peek| == 1 && limit >= 1
    ensures Prefix(head + peek + rest, limit) ==
      if |head| == limit then head else head + peek + Prefix(rest, limit - |head| - 1)
  {
    if |head| < limit < |head + peek + rest| {
      assert (head + peek + rest)[..limit] == head + peek + rest[..limit - |head| - 1];
    }
  }

  /** The whole of `head + peek + rest` up to the limit. `probed` is whether the look beyond the limit, whose
      failure is ignored, worked. */
  method WriteSpill(f: TempFile, limit: nat, head: Bytes, peek: Bytes, rest: Stream)
    returns (r: Spilled, ghost probed: bool)
    requires rest.Valid() && f.bytes == [] && |head| <= limit && |peek| == 1 && limit >= 1
    modifies f, rest`pos, rest`faults
    ensures var all := head + peek + old(rest.Rest());
      r.Written? ==>
        && r.written == Min(|all|, limit) && f.bytes == Prefix(all, limit)
        && (r.capped ==> |all| > limit)
        && (probed ==> (r.capped <==> |all| > limit))
    ensures !r.Declined? && old(f.faults) <= f.faults
    ensures r.SpillFailed? ==> r.e == if f.faults == old(f.faults) then ReadFailed else SpillWrite
    ensures r.SpillFailed? ==> f.faults > old(f.faults) || rest.faults > old(rest.faults)
    ensures old(rest.faults) <= rest.faults && (rest.faults == old(rest.faults) ==> probed)
  {
    probed := true;
    PrefixOfAll(head, peek, rest.Rest(), limit);
    var ok := f.Write(head);
    if !ok { return SpillFailed(SpillWrite), probed; }
    ok := f.Write(peek);
    if !ok { return SpillFailed(SpillWrite), probed; }
    var written := |head| + |peek|;
    var capped := false;
    if limit - written > 0 {
      var n, readOk, writeOk := CopyUpTo(f, rest, limit - written);
      if !writeOk { return SpillFailed(SpillWrite), probed; }
      if !readOk { return SpillFailed(ReadFailed), probed; }
      written := written + n;
    }
    if written >= limit {
      var probe, looked := rest.Read(1);
      probed := looked;
      if looked && |probe| > 0 { capped := true; }
      if written > limit {
        ok := f.Truncate(limit);
        if !ok { return SpillFailed(SpillWrite), probed; }
        written, capped := limit, true;
      }
    }
    r := Written(written, capped);
  }

  /** Spill of the response store: `admitted` is its answer before anything is written, `kept` its answer to
      the written file, which is no when a cleanup came in between. */
  method SpillBody(f: TempFile, limit: nat, head: Bytes, peek: Bytes, rest: Stream, admitted: bool, kept: bool)
    returns (r: Spilled, ghost probed: bool)
    requires rest.Valid() && |head| <= limit && |peek| == 1 && limit >= 1
    modifies f, rest`pos, rest`faults
    ensures var all := head + peek + old(rest.Rest());
      r.Written? ==>
        && admitted && kept
        && r.written == Min(|all|, limit) && f.bytes == Prefix(all, limit)
        && (r.capped ==> |all| > limit)
        && (probed ==> (r.capped <==> |all| > limit))
    ensures r.Declined? ==> !admitted || !kept
    ensures !admitted ==> r.Declined? && f.bytes == old(f.bytes) && rest.pos == old(rest.pos)
    ensures r.SpillFailed? ==> f.faults > old(f.faults) || rest.faults > old(rest.faults)
    ensures old(rest.faults) <= rest.faults && (rest.faults == old(rest.faults) ==> probed)
  {
    probed := true;
    if !admitted { return Declined, probed; }
    var ok := f.Create();
    if !ok { return SpillFailed(SpillWrite), probed; }
    r, probed := WriteSpill(f, limit, head, peek, rest);
    ok := f.Close();
    if r.Written? && !ok { return SpillFailed(SpillWrite), probed; }
    if r.Written? && !kept { return Declined, probed; }
  }

  datatype Received =
    | Response(body: Bytes, size: nat, truncated: bool, capped: bool)
    | Failed(e: Error)
    | Refused

  lemma MoreThanHead(b: Bytes, body: Bytes, peek: Bytes, left: Bytes)
    requires b == body + (peek + left) && |peek| == 1
    ensures b == body + peek + left && |b| > |body| && body == Prefix(b, |body|)
  {
  }

  /** The end of a transport call, for any display limit that does not exceed the file limit. `probed` is
      whether the look beyond the file limit worked, if there was one; `admitted` and `kept` are the answers of
      the response store before and after the spill. */
  method ReceiveBody(stream: Stream, maxBody: int, limit: nat, f: TempFile, admitted: bool, kept: bool)
    returns (r: Received, ghost probed: bool)
    requires stream.Valid() && 1 <= limit && maxBody <= limit && f.bytes == []
    modifies stream`pos, stream`faults, f
    ensures r.Response? ==>
      var b := old(stream.Rest());
      && r.body == Prefix(b, maxBody)
      && (r.truncated <==> 0 <= maxBody < |b|)
      && (r.truncated ==> admitted && kept && f.bytes == Prefix(b, limit) && r.size == Min(|b|, limit))
      && (!r.truncated ==> f.bytes == [] && r.size == |r.body|)
      && (r.capped ==> |b| > limit)
      && (probed && maxBody >= 0 ==> (r.capped <==> |b| > limit))
    ensures r.Refused? ==> (!admitted || !kept) && 0 <= maxBody < |old(stream.Rest())|
    ensures r.Failed? ==> stream.faults > old(stream.faults) || f.faults > old(f.faults)
    ensures stream.faults == old(stream.faults) ==> probed
  {
    probed := true;
    ghost var b := stream.Rest();
    var body, ok := stream.Read(maxBody);
    if !ok { return Failed(ReadFailed), probed; }
    var size, truncated, capped := |body|, false, false;
    if size == maxBody {
      var peek;
      peek, ok := stream.Read(1);
      if !ok { return Failed(ReadFailed), probed; }
      if |peek| > 0 {
        truncated := true;
        MoreThanHead(b, body, peek, stream.Rest());
        var spilled;
        spilled, probed := SpillBody(f, limit, body, peek, stream, admitted, kept);
        if spilled.Declined? { return Refused, probed; }
        if spilled.SpillFailed? { return Failed(spilled.e), probed; }
        size, capped := spilled.written, spilled.capped;
      }
    }
    r := Response(body, size, truncated, capped);
  }

  /** With the limits the client uses: everything is received, the display shows the start and the file holds
      the rest. The display says whether it is truncated, except exactly when the limit is negative and
      something arrived: then it shows nothing and says nothing. */
  method Receive(stream: Stream, settingMB: int, maxTempBytes: int, f: TempFile, admitted: bool, kept: bool)
    returns (r: Received, ghost probed: bool)
    requires stream.Valid() && f.bytes == []
    modifies stream`pos, stream`faults, f
    ensures r.Response? ==>
      var b := old(stream.Rest());
      ((r.truncated <==> r.body != b) <==> NotNegative(settingMB) || b == [])
    ensures r.Response? && NotNegative(settingMB) ==>
      var b := old(stream.Rest());
      && r.body == Prefix(b, ResolveMaxResponseBody(settingMB, maxTempBytes))
      && r.size == Min(|b|, TempLimit(maxTempBytes))
      && (r.truncated ==> admitted && kept && f.bytes == Prefix(b, TempLimit(maxTempBytes)) && |f.bytes| == r.size)
      && (probed ==> (r.capped <==> |b| > TempLimit(maxTempBytes)))
    ensures r.Response? && !NotNegative(settingMB) ==> r.body == [] && r.size == 0 && !r.truncated && f.bytes == []
    ensures stream.faults == old(stream.faults) && f.faults == old(f.faults) ==>
      probed && (r.Response? || (r.Refused? && (!admitted || !kept)))
  {
    DisplayLimit(settingMB, maxTempBytes);
    var maxBody := ResolveMaxResponseBody(settingMB, maxTempBytes);
    r, probed := ReceiveBody(stream, maxBody, TempLimit(maxTempBytes), f, admitted, kept);
  }

  /** A setting of 2^43 overflows: whatever arrives, the limit for display is negative. */
  lemma SettingOverflows(maxTempBytes: int)
    ensures ResolveMaxResponseBody(0x800_0000_0000, maxTempBytes) < 0
    ensures forall b :: Prefix(b, ResolveMaxResponseBody(0x800_0000_0000, maxTempBytes)) == []
  {
    WrapMiB(0x800_0000_0000);
  }
}
