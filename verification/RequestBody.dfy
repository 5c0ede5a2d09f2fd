/**
 * The streaming request body: memory and file segments read in order, while the files may change at any
 * moment and their handles are shared by the body and all its readers.
 */
module RequestBody {
  import opened Common

  datatype FileError = Changed | Unavailable | Eof

  /** Every change of a file raises its version, which its size and modification time stand for. `faults`
      counts the operations that failed for reasons other than a change. */
  class Disk {
    var version: map<nat, nat>
    var content: map<nat, Bytes>
    ghost var faults: nat

    /** The file still is what it was when `h` was opened, or shows that it is not. */
    ghost predicate Holds(h: Handle)
      reads this
    {
      && h.id in version && h.id in content
      && (version[h.id] == 0 ==> content[h.id] == h.baseline)
    }

    /** Another program changes files. */
    method Interfere()
      modifies this`version, this`content
      ensures version.Keys == old(version).Keys && content.Keys == old(content).Keys
      ensures forall id :: id in version ==> old(version)[id] <= version[id]
      ensures forall id :: id in content && id in version && version[id] == old(version)[id] ==>
        content[id] == old(content)[id]
    {
      var changes: int := *;
      var i := 0;
      while i < changes
        invariant version.Keys == old(version).Keys && content.Keys == old(content).Keys
        invariant forall id :: id in version ==> old(version)[id] <= version[id]
        invariant forall id :: id in content && id in version && version[id] == old(version)[id] ==>
          content[id] == old(content)[id]
      {
        var id, c: Bytes := *, *;
        if id in version && id in content {
          version := version[id := version[id] + 1];
          content := content[id := c];
        }
        i := i + 1;
      }
    }
  }

  class Handle {
    const disk: Disk
    const id: nat
    /** The contents when the file was opened. */
    const baseline: Bytes
    var closes: nat

    constructor (disk: Disk, id: nat, baseline: Bytes)
      ensures this.disk == disk && this.id == id && this.baseline == baseline && closes == 0
    {
      this.disk, this.id, this.baseline, closes := disk, id, baseline, 0;
    }

    /** Never called on a closed handle. A short read may come with any error, or with none. */
    method ReadAt(len: nat, off: nat) returns (bytes: Bytes, err: Option<FileError>)
      requires closes == 0 && disk.Holds(this)
      modifies disk`faults
      ensures |bytes| <= len && old(disk.faults) <= disk.faults
      ensures |bytes| < len && off + len <= |disk.content[id]| ==> disk.faults > old(disk.faults)
      ensures bytes != [] ==> off + |bytes| <= |disk.content[id]| && bytes == disk.content[id][off..off + |bytes|]
      ensures bytes != [] && disk.version[id] == 0 ==>
        off + |bytes| <= |baseline| && bytes == baseline[off..off + |bytes|]
    {
      var n: int := *;
      err := *;
      bytes := if 0 <= n <= len && off + n <= |disk.content[id]| then disk.content[id][off..off + n] else [];
      if |bytes| < len && off + len <= |disk.content[id]| { disk.faults := disk.faults + 1; }
    }

    /** May fail for other reasons, but succeeds only for an unchanged file. */
    method CheckUnchanged() returns (err: Option<FileError>)
      requires disk.Holds(this)
      modifies disk`faults
      ensures err.None? ==> disk.version[id] == 0
      ensures old(disk.faults) <= disk.faults
      ensures err.Some? && disk.version[id] == 0 ==> disk.faults > old(disk.faults)
    {
      err := *;
      if disk.version[id] != 0 {
        if err.None? { err := Some(Changed); }
      } else if err.Some? {
        disk.faults := disk.faults + 1;
      }
    }

    method Close()
      modifies this
      ensures closes == old(closes) + 1
    {
      closes := closes + 1;
    }
  }

  /** `holders` are the body and the readers that have not let go yet. */
  class SharedFile {
    const h: Handle
    var refs: nat
    ghost var holders: set<object>

    ghost predicate Valid()
      reads this, h
    {
      refs == |holders| && h.closes == if holders == {} then 1 else 0
    }

    constructor (h: Handle, ghost holder: object)
      requires h.closes == 0
      ensures this.h == h && holders == {holder} && Valid()
    {
      this.h, refs, holders := h, 1, {holder};
    }

    method Acquire(ghost holder: object) returns (ok: bool)
      requires Valid() && holder !in holders
      modifies this
      ensures Valid() && ok == (old(holders) != {})
      ensures holders == if ok then old(holders) + {holder} else {}
    {
      if refs == 0 { return false; }
      refs := refs + 1;
      holders := holders + {holder};
      ok := true;
    }

    /** The last holder to let go closes the handle. */
    method Release(ghost holder: object)
      requires Valid() && holder in holders
      modifies this, h
      ensures Valid() && holders == old(holders) - {holder}
    {
      if refs == 0 { return; }
      refs := refs - 1;
      holders := holders - {holder};
      if refs == 0 { h.Close(); }
    }
  }

  datatype Segment = Data(data: Bytes) | File(file: SharedFile, size: nat) {
    function Len(): nat {
      if Data? then |data| else size
    }

    /** What the segment should send: for a file, its contents when it was opened. */
    function Meant(): Bytes {
      if Data? then data else file.h.baseline
    }

    predicate Sized() {
      File? ==> size == |file.h.baseline|
    }
  }

  function Length(segs: seq<Segment>): nat {
    if segs == [] then 0 else Length(segs[..|segs| - 1]) + segs[|segs| - 1].Len()
  }

  function Concat(segs: seq<Segment>): Bytes {
    if segs == [] then [] else Concat(segs[..|segs| - 1]) + segs[|segs| - 1].Meant()
  }

  predicate AllSized(segs: seq<Segment>) {
    forall i :: 0 <= i < |segs| ==> segs[i].Sized()
  }

  lemma {:induction false} ConcatLength(segs: seq<Segment>)
    requires AllSized(segs)
    ensures |Concat(segs)| == Length(segs)
  {
    if segs != [] { ConcatLength(segs[..|segs| - 1]); }
  }

  /** What is left after a prefix is never negative, and nothing left means nothing to send. */
  lemma {:induction false} PrefixLength(segs: seq<Segment>, i: nat)
    requires i <= |segs|
    ensures Length(segs[..i]) <= Length(segs)
    ensures i < |segs| ==> Length(segs[..i]) + segs[i].Len() <= Length(segs)
    ensures AllSized(segs) && Length(segs[..i]) == Length(segs) ==> Concat(segs[..i]) == Concat(segs)
    decreases |segs|
  {
    if i == |segs| {
      assert segs[..i] == segs;
    } else {
      var init := segs[..|segs| - 1];
      assert init[..i] == segs[..i];
      PrefixLength(init, i);
    }
  }

  lemma SlicesMeet(s: Bytes, i: nat, j: nat, a: Bytes, b: Bytes)
    requires i <= j <= |s|
    ensures a == s[..i] && b == s[i..j] ==> a + b == s[..j]
  {
  }

  datatype ReadResult = Ok | EndOfFile | Failed(e: FileError)

  /** classifyFileError. */
  function Classify(e: FileError): FileError {
    if e.Changed? then Changed else Unavailable
  }

  /** The first error of a request. */
  class BodyError {
    var err: Option<FileError>

    constructor ()
      ensures err == None
    {
      err := None;
    }

    method Record(e: FileError)
      modifies this
      ensures err == if old(err).None? then Some(e) else old(err)
    {
      if err.None? { err := Some(e); }
    }
  }

  /** The files of a body, in order. */
  function FilesOf(segs: seq<Segment>): seq<SharedFile> {
    if segs == [] then []
    else FilesOf(segs[..|segs| - 1]) + if segs[|segs| - 1].File? then [segs[|segs| - 1].file] else []
  }

  function Handles(files: seq<SharedFile>): seq<Handle> {
    seq(|files|, i requires 0 <= i < |files| => files[i].h)
  }

  lemma {:induction false} FileListed(segs: seq<Segment>, i: nat)
    requires i < |segs| && segs[i].File?
    ensures segs[i].file in FilesOf(segs) && segs[i].file.h in Handles(FilesOf(segs))
  {
    if i < |segs| - 1 {
      FileListed(segs[..|segs| - 1], i);
      assert segs[i].file in FilesOf(segs);
    }
    var k :| 0 <= k < |FilesOf(segs)| && FilesOf(segs)[k] == segs[i].file;
    assert Handles(FilesOf(segs))[k] == segs[i].file.h;
  }

  ghost predicate OnDisk(segs: seq<Segment>, disk: Disk)
    reads disk
  {
    forall i :: 0 <= i < |segs| && segs[i].File? ==> segs[i].file.h.disk == disk && disk.Holds(segs[i].file.h)
  }

  class SegmentReader {
    const segs: seq<Segment>
    const disk: Disk
    const errs: BodyError
    const files: seq<SharedFile>
    var idx: nat
    var off: nat
    var err: Option<FileError>
    var closed: bool
    /** All bytes returned so far, and those of the current segment. */
    ghost var delivered: Bytes
    ghost var part: Bytes

    constructor (segs: seq<Segment>, disk: Disk, errs: BodyError, files: seq<SharedFile>)
      requires AllSized(segs) && OnDisk(segs, disk)
      ensures this.segs == segs && this.disk == disk && this.errs == errs && this.files == files
      ensures Sound() && !closed && delivered == [] && err.None?
    {
      this.segs, this.disk, this.errs, this.files := segs, disk, errs, files;
      idx, off, err, closed, delivered, part := 0, 0, None, false, [], [];
    }

    /** What was delivered: the finished segments and a part of the current one. */
    ghost predicate Placed()
      reads this
    {
      && AllSized(segs)
      && idx <= |segs| && |part| == off
      && delivered == Concat(segs[..idx]) + part
      && (idx == |segs| ==> off == 0)
      && (idx < |segs| ==> off <= segs[idx].Len())
      && (idx < |segs| && segs[idx].Data? ==> part == segs[idx].data[..off])
      && (idx < |segs| && segs[idx].File? && off == segs[idx].size ==> off == 0)
    }

    /** What was delivered of a file is right as long as the file has not changed; of a finished segment it
        is right for good. */
    ghost predicate Sound()
      reads this, disk
    {
      Placed() && OnDisk(segs, disk) && (idx < |segs| && segs[idx].File? ==> Trusted())
    }

    /** The current file has changed. */
    ghost predicate Broken()
      reads this, disk
    {
      && idx < |segs| && segs[idx].File? && segs[idx].file.h.id in disk.version
      && disk.version[segs[idx].file.h.id] != 0
    }

    /** What was read of the current file, if it is unchanged. */
    ghost predicate Trusted()
      requires idx < |segs| && segs[idx].File? && segs[idx].file.h.id in disk.version
      reads this, disk
    {
      var h := segs[idx].file.h;
      disk.version[h.id] == 0 ==> off <= |h.baseline| && part == h.baseline[..off]
    }

    /** An open reader holds all its files. */
    ghost predicate Holding()
      reads this, files, Handles(files)
    {
      && OwnFiles(files, segs) && AllValid(files)
      && (!closed ==> forall i :: 0 <= i < |files| ==> this in files[i].holders)
    }

    /** So their handles are open, as Read needs them. */
    lemma HoldingOpens()
      requires Holding() && !closed
      ensures Open()
    {
      forall i | 0 <= i < |segs| && segs[i].File? ensures segs[i].file.h.closes == 0 {
        FileListed(segs, i);
        var k :| 0 <= k < |files| && files[k] == segs[i].file;
        assert files[k].Valid() && this in files[k].holders;
      }
    }

    ghost predicate Open()
      reads this, set i | 0 <= i < |segs| && segs[i].File? :: segs[i].file.h
    {
      forall i :: 0 <= i < |segs| && segs[i].File? ==> segs[i].file.h.closes == 0
    }

    /** Returns bytes, or the end, or an error that every later call returns again. */
    method Read(len: nat) returns (bytes: Bytes, r: ReadResult)
      requires Sound() && Open() && !closed
      modifies this`idx, this`off, this`err, this`delivered, this`part, errs, disk
      ensures Sound()
      ensures delivered == old(delivered) + bytes && |bytes| <= len
      ensures old(err).Some? ==> r == Failed(old(err).value) && err == old(err)
      ensures r.Ok? ==> err.None? && (len > 0 ==> bytes != [])
      ensures !r.Ok? ==> bytes == []
      ensures r.EndOfFile? ==> err.None? && idx == |segs|
      ensures r.Failed? ==> err == Some(r.e)
      ensures r.Failed? && old(err).None? ==>
        (r.e == Changed || r.e == Unavailable) && errs.err == if old(errs.err).None? then Some(r.e) else old(errs.err)
      ensures old(disk.faults) <= disk.faults
      ensures r.Failed? && old(err).None? && disk.faults == old(disk.faults) ==> Broken()
    {
      bytes := [];
      if err.Some? { return [], Failed(err.value); }
      if len == 0 { return [], Ok; }
      while idx < |segs|
        invariant Sound() && err.None? && errs.err == old(errs.err)
        invariant delivered == old(delivered) && old(disk.faults) <= disk.faults
        decreases |segs| - idx
      {
        var seg := segs[idx];
        if seg.Data? {
          if off < |seg.data| {
            bytes := ReadData(seg.data, len);
            return bytes, Ok;
          }
          Advance();
        } else {
          var got := ReadSegment(seg, len);
          if err.Some? { return [], Failed(err.value); }
          if |got| > 0 { return got, Ok; }
        }
      }
      r := EndOfFile;
    }

    /** Reads on in the current file; an error is recorded and stays. */
    method ReadSegment(seg: Segment, len: nat) returns (got: Bytes)
      requires Sound() && Open() && err.None? && idx < |segs| && seg == segs[idx] && seg.File? && len > 0
      modifies this`idx, this`off, this`err, this`delivered, this`part, errs, disk
      ensures Sound() && |got| <= len && delivered == old(delivered) + got && old(disk.faults) <= disk.faults
      ensures err.None? ==> errs.err == old(errs.err) && (got == [] ==> idx == old(idx) + 1)
      ensures err.Some? ==> got == [] && (disk.faults == old(disk.faults) ==> Broken())
      ensures err.Some? ==>
        err.value != Eof && errs.err == if old(errs.err).None? then err else old(errs.err)
    {
      var bytes, failed := ReadFile(seg, len);
      if failed.Some? {
        err := Some(Classify(failed.value));
        errs.Record(err.value);
        return [];
      }
      Take(seg, bytes);
      got := bytes;
    }

    method ReadData(data: Bytes, len: nat) returns (bytes: Bytes)
      requires Sound() && idx < |segs| && segs[idx] == Data(data) && off < |data| && len > 0
      modifies this`off, this`delivered, this`part
      ensures Sound() && bytes != [] && |bytes| <= len && delivered == old(delivered) + bytes
    {
      bytes := data[off..if len < |data| - off then off + len else |data|];
      delivered, part := delivered + bytes, part + bytes;
      off := off + |bytes|;
    }

    /** Moves on past the bytes of a file, and to the next segment after its last byte. */
    method Take(seg: Segment, got: Bytes)
      requires Sound() && idx < |segs| && seg == segs[idx] && seg.File? && off + |got| <= seg.size
      requires got == [] ==> seg.size == 0
      requires disk.version[seg.file.h.id] == 0 ==> got == seg.file.h.baseline[off..off + |got|]
      requires off + |got| == seg.size ==> part + got == seg.file.h.baseline
      modifies this`idx, this`off, this`delivered, this`part
      ensures Sound() && delivered == old(delivered) + got && (got == [] ==> idx == old(idx) + 1)
    {
      assert delivered + got == Concat(segs[..idx]) + (part + got);
      delivered := delivered + got;
      if off + |got| == seg.size {
        Advance();
      } else {
        SlicesMeet(seg.file.h.baseline, off, off + |got|, part, got);
        off, part := off + |got|, part + got;
      }
    }

    method Advance()
      requires idx < |segs| && delivered == Concat(segs[..idx]) + segs[idx].Meant()
      modifies this`idx, this`off, this`part
      ensures idx == old(idx) + 1 && off == 0 && part == [] && delivered == Concat(segs[..idx]) + part
    {
      assert segs[..idx + 1][..idx] == segs[..idx];
      idx, off, part := idx + 1, 0, [];
    }

    /** A moment in which other programs may change files. */
    method Pause()
      requires Sound() && idx < |segs| && segs[idx].File?
      modifies disk`version, disk`content
      ensures Sound()
      ensures disk.version[segs[idx].file.h.id] == 0 ==> old(disk.version)[segs[idx].file.h.id] == 0
    {
      disk.Interfere();
    }

    /** The last bytes of a file are given out only after checking that it never changed, so that a finished
        segment is right. Other programs may interfere between any two steps. */
    method ReadFile(seg: Segment, len: nat) returns (bytes: Bytes, failed: Option<FileError>)
      requires Sound() && idx < |segs| && seg == segs[idx] && seg.File? && seg.file.h.closes == 0 && len > 0
      modifies disk
      ensures Sound()
      ensures failed.None? ==> |bytes| == if len < seg.size - off then len else seg.size - off
      ensures failed.None? && disk.version[seg.file.h.id] == 0 ==> bytes == seg.file.h.baseline[off..off + |bytes|]
      ensures failed.None? && off + |bytes| == seg.size ==> part + bytes == seg.file.h.baseline
      ensures old(disk.faults) <= disk.faults
      ensures failed.Some? && disk.faults == old(disk.faults) ==> Broken()
    {
      var h := seg.file.h;
      var want := if len > seg.size - off then seg.size - off else len;
      bytes, failed := [], None;
      Pause();
      if want > 0 {
        bytes, failed := ReadRange(seg, want);
        if failed.Some? { return [], failed; }
      }
      if off + |bytes| == seg.size {
        failed := h.CheckUnchanged();
        if failed.Some? { return [], failed; }
        SlicesMeet(h.baseline, off, seg.size, part, bytes);
        Pause();
      }
    }

    /** A file that ends too early has changed. */
    method ReadRange(seg: Segment, want: nat) returns (bytes: Bytes, failed: Option<FileError>)
      requires Sound() && idx < |segs| && seg == segs[idx] && seg.File? && seg.file.h.closes == 0
      requires 0 < want <= seg.size - off
      modifies disk
      ensures Sound() && old(disk.faults) <= disk.faults
      ensures failed.None? ==> |bytes| == want
      ensures failed.None? && disk.version[seg.file.h.id] == 0 ==> bytes == seg.file.h.baseline[off..off + want]
      ensures failed.Some? && disk.faults == old(disk.faults) ==> Broken()
    {
      var e;
      bytes, e := seg.file.h.ReadAt(want, off);
      Pause();
      failed := None;
      if |bytes| < want {
        if e.None? || e == Some(Eof) { return [], Some(Changed); }
        return [], e;
      }
    }

    /** Lets go of the files, once. */
    method Close()
      requires Holding()
      modifies this`closed, files, Handles(files)
      ensures Holding() && closed
      ensures forall i :: 0 <= i < |files| ==>
        files[i].holders == if old(closed) then old(files[i].holders) else old(files[i].holders) - {this}
    {
      if closed { return; }
      ReleaseFirst(files, |files|, this);
      closed := true;
    }
  }

  /** The files are those of the segments, each with one of its own. */
  ghost predicate OwnFiles(files: seq<SharedFile>, segs: seq<Segment>) {
    files == FilesOf(segs) && SoleHolder(files)
  }

  /** Each segment has a file of its own. */
  ghost predicate SoleHolder(files: seq<SharedFile>) {
    forall i, j :: 0 <= i < j < |files| ==> files[i] != files[j] && files[i].h != files[j].h
  }

  ghost predicate AllValid(files: seq<SharedFile>)
    reads files, Handles(files)
  {
    forall i :: 0 <= i < |files| ==>
      assert Handles(files)[i] == files[i].h;
      files[i].Valid()
  }

  /** Lets go of the first `n` files. */
  method ReleaseFirst(files: seq<SharedFile>, n: nat, ghost holder: object)
    requires SoleHolder(files) && AllValid(files) && n <= |files|
    requires forall i :: 0 <= i < n ==> holder in files[i].holders
    modifies files, Handles(files)
    ensures AllValid(files)
    ensures forall i :: 0 <= i < |files| ==> files[i].holders == old(files[i].holders) - if i < n then {holder} else {}
  {
    for i := 0 to n
      invariant AllValid(files)
      invariant forall k :: 0 <= k < i ==> files[k].holders == old(files[k].holders) - {holder}
      invariant forall k :: i <= k < |files| ==> files[k].holders == old(files[k].holders)
    {
      assert Handles(files)[i] == files[i].h;
      files[i].Release(holder);
    }
  }

  lemma SegmentFinished(r: SegmentReader)
    requires r.Sound() && r.idx < |r.segs| && r.off == r.segs[r.idx].Len()
    ensures r.delivered == Concat(r.segs[..r.idx + 1])
    ensures |r.delivered| == Length(r.segs) ==> Concat(r.segs[..r.idx + 1]) == Concat(r.segs)
  {
    assert r.segs[..r.idx + 1][..r.idx] == r.segs[..r.idx];
    ConcatLength(r.segs[..r.idx + 1]);
    PrefixLength(r.segs, r.idx + 1);
  }

  /** Whatever the sizes of the reads and whatever happened to the files: as many bytes as were announced are
      the right bytes, and there are never more. */
  lemma CompleteIsRight(r: SegmentReader)
    requires r.Sound()
    ensures |r.delivered| <= Length(r.segs)
    ensures |r.delivered| == Length(r.segs) ==> r.delivered == Concat(r.segs)
    ensures r.idx == |r.segs| ==> |r.delivered| == Length(r.segs)
  {
    var before := r.segs[..r.idx];
    ConcatLength(before);
    PrefixLength(r.segs, r.idx);
    if r.idx == |r.segs| {
      assert before == r.segs;
    } else if r.off == r.segs[r.idx].Len() {
      SegmentFinished(r);
    }
  }

  ghost predicate Untouched(segs: seq<Segment>, disk: Disk)
    reads disk
  {
    forall i :: 0 <= i < |segs| && segs[i].File? && segs[i].file.h.id in disk.version ==>
      disk.version[segs[i].file.h.id] == 0
  }

  /** A reader drained by the transport, with other programs at work between the reads: it ends, and reaches
      the end of the body only with the contents the files had when they were opened; it does reach it when
      no file has changed and nothing failed. */
  method Drain(r: SegmentReader) returns (sent: Bytes, end: ReadResult)
    requires r.Sound() && r.Open() && !r.closed && r.delivered == [] && r.err.None?
    modifies r`idx, r`off, r`err, r`delivered, r`part, r.errs, r.disk
    ensures r.Sound() && sent == r.delivered && |sent| <= Length(r.segs)
    ensures |sent| == Length(r.segs) ==> sent == Concat(r.segs)
    ensures end.EndOfFile? ==> sent == Concat(r.segs)
    ensures !end.Ok?
    ensures r.disk.faults == old(r.disk.faults) && Untouched(r.segs, r.disk) ==> end.EndOfFile?
  {
    sent, end := [], Ok;
    while end.Ok?
      invariant end.Ok? ==> r.err.None?
      invariant old(r.disk.faults) <= r.disk.faults
      invariant end.Failed? && r.disk.faults == old(r.disk.faults) ==> r.Broken()
      invariant r.Sound() && sent == r.delivered
      invariant end.EndOfFile? ==> r.idx == |r.segs|
      decreases end.Ok?, Length(r.segs) - |sent|
    {
      var len: int := *;
      if len < 1 { len := 1; }
      r.disk.Interfere();
      var bytes;
      bytes, end := r.Read(len);
      sent := sent + bytes;
      CompleteIsRight(r);
    }
    CompleteIsRight(r);
  }

  // ---------------------------------------------------------------- the body

  lemma Appended(segs: seq<Segment>, seg: Segment)
    ensures FilesOf(segs + [seg]) == FilesOf(segs) + if seg.File? then [seg.file] else []
    ensures Length(segs + [seg]) == Length(segs) + seg.Len() && Concat(segs + [seg]) == Concat(segs) + seg.Meant()
  {
    assert (segs + [seg])[..|segs|] == segs;
  }

  lemma Extended(files: seq<SharedFile>, file: SharedFile)
    requires SoleHolder(files) && forall i :: 0 <= i < |files| ==> files[i] != file && files[i].h != file.h
    ensures SoleHolder(files + [file])
  {
  }

  /** A write extends the last memory segment, or starts one. */
  function Written(segs: seq<Segment>, p: Bytes): seq<Segment> {
    if segs != [] && segs[|segs| - 1].Data? then segs[..|segs| - 1] + [Data(segs[|segs| - 1].data + p)]
    else segs + [Data(p)]
  }

  lemma WrittenMeaning(segs: seq<Segment>, p: Bytes)
    requires AllSized(segs)
    ensures AllSized(Written(segs, p)) && FilesOf(Written(segs, p)) == FilesOf(segs)
    ensures Length(Written(segs, p)) == Length(segs) + |p| && Concat(Written(segs, p)) == Concat(segs) + p
  {
    if segs != [] && segs[|segs| - 1].Data? {
      var init, data := segs[..|segs| - 1], segs[|segs| - 1].data;
      assert segs == init + [Data(data)];
      Appended(init, Data(data + p));
      assert Concat(init) + (data + p) == Concat(init) + data + p;
    } else {
      Appended(segs, Data(p));
    }
  }

  class BodySegments {
    var segs: seq<Segment>
    var length: nat
    var released: bool
    ghost var files: seq<SharedFile>

    ghost predicate Shape()
      reads this
    {
      length == Length(segs) && AllSized(segs) && OwnFiles(files, segs)
    }

    ghost predicate Valid()
      reads this, files, Handles(files)
    {
      && Shape() && AllValid(files)
      && (!released ==> forall i :: 0 <= i < |files| ==> this in files[i].holders)
    }

    constructor ()
      ensures Valid() && segs == [] && !released
    {
      segs, length, released, files := [], 0, false, [];
    }

    method Write(p: Bytes)
      requires Valid()
      modifies this`segs, this`length
      ensures Valid()
      ensures Concat(segs) == old(Concat(segs)) + p && length == old(length) + |p|
    {
      WrittenMeaning(segs, p);
      var n := |segs|;
      if n > 0 && segs[n - 1].Data? {
        segs := segs[..n - 1] + [Data(segs[n - 1].data + p)];
      } else {
        segs := segs + [Data(p)];
      }
      length := length + |p|;
    }

    /** The body takes over the handle; its size is the one at opening. */
    method AppendFile(h: Handle, size: nat)
      requires Valid() && !released && h.closes == 0 && h !in Handles(files) && size == |h.baseline|
      modifies this`segs, this`length, this`files
      ensures Valid() && !released
      ensures Concat(segs) == old(Concat(segs)) + h.baseline && length == old(length) + size
      ensures |files| == old(|files|) + 1 && old(files) <= files
      ensures files[|files| - 1].h == h && fresh(files[|files| - 1]) && files[|files| - 1].holders == {this}
      ensures forall i :: 0 <= i < |old(files)| ==> files[i].holders == old(files[i].holders)
    {
      var file := new SharedFile(h, this);
      forall i | 0 <= i < |files| ensures files[i].h != h { assert Handles(files)[i] == files[i].h; }
      Attach(file, size);
    }

    method Attach(file: SharedFile, size: nat)
      requires Valid() && !released && size == |file.h.baseline| && file.Valid() && this in file.holders
      requires forall i :: 0 <= i < |files| ==> files[i] != file && files[i].h != file.h
      modifies this`segs, this`length, this`files
      ensures Valid() && files == old(files) + [file]
      ensures Concat(segs) == old(Concat(segs)) + file.h.baseline && length == old(length) + size
    {
      ghost var before := files;
      assert forall i :: 0 <= i < |before| ==> before[i].Valid() && this in before[i].holders;
      Extended(files, file);
      Appended(segs, File(file, size));
      segs := segs + [File(file, size)];
      length := length + size;
      files := files + [file];
      forall i | 0 <= i < |files|
        ensures Handles(files)[i] == files[i].h && files[i].Valid() && this in files[i].holders
      {
        assert i < |before| ==> files[i] == before[i];
      }
    }

    /** Handles stay open as long as a reader holds them. */
    method Release()
      requires Valid()
      modifies this`released, files, Handles(files)
      ensures Valid() && released
      ensures forall i :: 0 <= i < |files| ==>
        files[i].holders == old(files[i].holders) - if old(released) then {} else {this}
    {
      if released { return; }
      ReleaseFirst(FilesOf(segs), |FilesOf(segs)|, this);
      released := true;
    }

    /** A reader from the start that holds every file; None when some handle is closed, and then nothing is
        held. */
    method NewReader(disk: Disk, errs: BodyError) returns (r: Option<SegmentReader>)
      requires Valid() && OnDisk(segs, disk)
      modifies files, Handles(files)
      ensures Valid()
      ensures r.None? <==> exists i :: 0 <= i < |files| && old(files[i].holders) == {}
      ensures r.None? ==> forall i :: 0 <= i < |files| ==> files[i].holders == old(files[i].holders)
      ensures r.Some? ==> fresh(r.value) && r.value.segs == segs && r.value.files == files
      ensures r.Some? ==> r.value.errs == errs && r.value.disk == disk
      ensures r.Some? ==> r.value.Sound() && r.value.Holding() && !r.value.closed && r.value.delivered == []
      ensures r.Some? ==> forall i :: 0 <= i < |files| ==>
        files[i].holders == old(files[i].holders) + {r.value}
    {
      var reader := new SegmentReader(segs, disk, errs, FilesOf(segs));
      var ok := AcquireAll(FilesOf(segs), reader);
      r := if ok then Some(reader) else None;
    }

    /** What a redirect or a retry reads: the same handles from the start, after checking that no file has
        changed. The check itself holds nothing, so a file may be closed or changed right after it. */
    method GetBody(disk: Disk, errs: BodyError) returns (r: Option<SegmentReader>)
      requires Valid() && OnDisk(segs, disk)
      modifies disk, errs, files, Handles(files)
      ensures Valid() && OnDisk(segs, disk)
      ensures r.None? ==> errs.err.Some? && (old(errs.err).Some? ==> errs.err == old(errs.err))
      ensures r.None? ==> forall i :: 0 <= i < |files| ==> files[i].holders == old(files[i].holders)
      ensures r.None? && disk.faults == old(disk.faults) && Untouched(segs, disk) ==>
        exists i :: 0 <= i < |files| && old(files[i].holders) == {}
      ensures r.Some? ==> old(Untouched(segs, disk))
      ensures r.Some? ==> errs.err == old(errs.err) && fresh(r.value) && r.value.segs == segs && r.value.files == files
      ensures r.Some? ==> r.value.Sound() && r.value.Holding() && !r.value.closed && r.value.delivered == []
      ensures r.Some? ==> forall i :: 0 <= i < |files| ==> files[i].holders == old(files[i].holders) + {r.value}
    {
      var same := CheckFiles(segs, disk, errs);
      if !same { return None; }
      r := Reopen(disk, errs);
    }

    method Reopen(disk: Disk, errs: BodyError) returns (r: Option<SegmentReader>)
      requires Valid() && OnDisk(segs, disk)
      modifies errs, files, Handles(files)
      ensures Valid()
      ensures r.None? ==> errs.err == if old(errs.err).None? then Some(Unavailable) else old(errs.err)
      ensures r.None? ==> exists i :: 0 <= i < |files| && old(files[i].holders) == {}
      ensures r.None? ==> forall i :: 0 <= i < |files| ==> files[i].holders == old(files[i].holders)
      ensures r.Some? ==> errs.err == old(errs.err) && fresh(r.value) && r.value.segs == segs && r.value.files == files
      ensures r.Some? ==> r.value.Sound() && r.value.Holding() && !r.value.closed && r.value.delivered == []
      ensures r.Some? ==> forall i :: 0 <= i < |files| ==> files[i].holders == old(files[i].holders) + {r.value}
    {
      r := NewReader(disk, errs);
      if r.None? { errs.Record(Unavailable); }
    }
  }

  method CheckFiles(segs: seq<Segment>, disk: Disk, errs: BodyError) returns (same: bool)
    requires OnDisk(segs, disk)
    modifies disk, errs
    ensures OnDisk(segs, disk)
    ensures same ==> errs.err == old(errs.err) && old(Untouched(segs, disk))
    ensures !same ==> errs.err.Some? && (old(errs.err).Some? ==> errs.err == old(errs.err))
    ensures old(disk.faults) <= disk.faults && (!same && disk.faults == old(disk.faults) ==> !Untouched(segs, disk))
  {
    for i := 0 to |segs|
      invariant OnDisk(segs, disk) && errs.err == old(errs.err) && old(disk.faults) <= disk.faults
      invariant disk.version.Keys == old(disk.version).Keys
      invariant forall id :: id in disk.version ==> old(disk.version)[id] <= disk.version[id]
      invariant forall k :: 0 <= k < i && segs[k].File? ==> old(disk.version)[segs[k].file.h.id] == 0
    {
      if segs[i].Data? { continue; }
      disk.Interfere();
      var failed := segs[i].file.h.CheckUnchanged();
      if failed.Some? {
        errs.Record(Classify(failed.value));
        return false;
      }
    }
    same := true;
  }

  /** Takes hold of every file in order, or of none. */
  method AcquireAll(files: seq<SharedFile>, ghost holder: object) returns (ok: bool)
    requires SoleHolder(files) && AllValid(files)
    requires forall i :: 0 <= i < |files| ==> holder !in files[i].holders
    modifies files, Handles(files)
    ensures AllValid(files)
    ensures !ok <==> exists i :: 0 <= i < |files| && old(files[i].holders) == {}
    ensures forall i :: 0 <= i < |files| ==> files[i].holders == old(files[i].holders) + if ok then {holder} else {}
  {
    for i := 0 to |files|
      invariant AllValid(files)
      invariant forall k :: 0 <= k < i ==>
        files[k].holders == old(files[k].holders) + {holder} && old(files[k].holders) != {}
      invariant forall k :: i <= k < |files| ==> files[k].holders == old(files[k].holders)
    {
      var got := files[i].Acquire(holder);
      if !got {
        assert old(files[i].holders) == {};
        ReleaseFirst(files, i, holder);
        return false;
      }
    }
    ok := true;
  }

  // ---------------------------------------------------------------- a body and all its readers

  /** An open reader of the body. */
  ghost predicate Reads(o: object, b: BodySegments)
    reads o, b
  {
    o is SegmentReader && var r := o as SegmentReader; !r.closed && r.files == b.files && r.segs == b.segs
  }

  ghost function Holders(b: BodySegments, open: set<object>): set<object>
    reads b
  {
    if b.released then open else open + {b}
  }

  /** `open` are the readers made and not closed yet: each of them and the body, until it has released, hold
      every file, and nobody else does. */
  ghost predicate Shared(b: BodySegments, open: set<object>)
    reads b, open, b.files, Handles(b.files)
  {
    && b.Shape() && AllValid(b.files)
    && (forall o :: o in open ==> Reads(o, b))
    && forall i :: 0 <= i < |b.files| ==> b.files[i].holders == Holders(b, open)
  }

  /** Every open reader may read, and a handle is closed exactly once, namely when the body has released and
      every reader is closed. */
  lemma ClosedOnce(b: BodySegments, open: set<object>)
    requires Shared(b, open)
    ensures forall o :: o in open ==>
      o is SegmentReader && (o as SegmentReader).Holding() && (o as SegmentReader).Open()
    ensures forall i :: 0 <= i < |b.files| ==> b.files[i].h.closes == if b.released && open == {} then 1 else 0
  {
    forall o | o in open ensures o is SegmentReader && (o as SegmentReader).Holding() && (o as SegmentReader).Open() {
      assert Reads(o, b);
      (o as SegmentReader).HoldingOpens();
    }
    assert forall i :: 0 <= i < |b.files| ==> b.files[i].Valid();
  }

  /** It holds for a new body, and appending to a body that nobody reads yet keeps it. */
  method NewBody() returns (b: BodySegments)
    ensures fresh(b) && Shared(b, {}) && b.segs == [] && !b.released
  {
    b := new BodySegments();
  }

  method AddFile(b: BodySegments, h: Handle, size: nat)
    requires Shared(b, {}) && !b.released && h.closes == 0 && h !in Handles(b.files) && size == |h.baseline|
    modifies b`segs, b`length, b`files
    ensures Shared(b, {}) && !b.released && |b.files| == old(|b.files|) + 1
    ensures Concat(b.segs) == old(Concat(b.segs)) + h.baseline
  {
    SharedValid(b, {});
    b.AppendFile(h, size);
  }

  method AddData(b: BodySegments, p: Bytes)
    requires Shared(b, {}) && !b.released
    modifies b`segs, b`length
    ensures Shared(b, {}) && !b.released && Concat(b.segs) == old(Concat(b.segs)) + p
  {
    SharedValid(b, {});
    b.Write(p);
  }

  /** Making a reader, for the first time or again, closing one and releasing the body keep it as well. */
  method OpenReader(b: BodySegments, ghost open: set<object>, disk: Disk, errs: BodyError)
    returns (r: Option<SegmentReader>)
    requires Shared(b, open) && OnDisk(b.segs, disk)
    modifies b.files, Handles(b.files)
    ensures r.Some? ==> fresh(r.value) && Shared(b, open + {r.value}) && r.value.Sound()
    ensures r.None? ==> Shared(b, open)
    ensures r.None? ==> Holders(b, open) == {}
    ensures b.files != [] && Holders(b, open) == {} ==> r.None?
  {
    SharedValid(b, open);
    r := b.NewReader(disk, errs);
    forall o | o in open ensures Reads(o, b) { assert old(Reads(o, b)); }
    if r.Some? { Joined(b, open, r.value); }
    assert b.files != [] ==> old(b.files[0].holders) == Holders(b, open);
  }

  method ReopenReader(b: BodySegments, ghost open: set<object>, disk: Disk, errs: BodyError)
    returns (r: Option<SegmentReader>)
    requires Shared(b, open) && OnDisk(b.segs, disk)
    modifies disk, errs, b.files, Handles(b.files)
    ensures r.Some? ==> fresh(r.value) && Shared(b, open + {r.value}) && r.value.Sound()
    ensures r.Some? ==> old(Untouched(b.segs, disk))
    ensures r.None? ==> Shared(b, open) && errs.err.Some?
    ensures r.None? && disk.faults == old(disk.faults) && Untouched(b.segs, disk) ==> Holders(b, open) == {}
  {
    SharedValid(b, open);
    r := b.GetBody(disk, errs);
    forall o | o in open ensures Reads(o, b) { assert old(Reads(o, b)); }
    if r.Some? { Joined(b, open, r.value); }
  }

  lemma SharedValid(b: BodySegments, open: set<object>)
    requires Shared(b, open)
    ensures b.Valid() && forall i :: 0 <= i < |b.files| ==> b.files[i].holders == Holders(b, open)
  {
  }

  lemma Joined(b: BodySegments, open: set<object>, r: SegmentReader)
    requires b.Shape() && AllValid(b.files) && Reads(r, b) && forall o :: o in open ==> Reads(o, b)
    requires forall i :: 0 <= i < |b.files| ==> b.files[i].holders == Holders(b, open) + {r}
    ensures Shared(b, open + {r})
  {
    assert Holders(b, open + {r}) == Holders(b, open) + {r};
  }

  method CloseReader(b: BodySegments, ghost open: set<object>, r: SegmentReader)
    requires Shared(b, open) && r in open
    modifies r`closed, b.files, Handles(b.files)
    ensures Shared(b, open - {r}) && r.closed
  {
    assert Reads(r, b);
    r.Close();
    forall o | o in open - {r} ensures Reads(o, b) { assert old(Reads(o, b)); }
  }

  method ReleaseBody(b: BodySegments, ghost open: set<object>)
    requires Shared(b, open)
    modifies b`released, b.files, Handles(b.files)
    ensures Shared(b, open) && b.released
  {
    assert b !in open by { assert b in open ==> Reads(b, b); }
    b.Release();
    forall o | o in open ensures Reads(o, b) { assert old(Reads(o, b)); }
  }
}
