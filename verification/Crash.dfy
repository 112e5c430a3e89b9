/** Two-phase writes under crashes: what a destination can hold at every point (tx.go, inspect_header.go). */
module CrashSafety {
  import opened Common
  import opened UndoJournal

  const HEADER_SIZE: nat := 564
  const COPY_CHUNK: nat := 65536

  /** The header slot, written atomically: its validity flag and the image it points into. */
  datatype Header = Header(valid: bool, root: nat)

  /** A file's header and the bytes behind it. */
  datatype Image = Image(header: Header, body: File)

  /** What survives a sync, and what was written since. */
  datatype Disk = Disk(durable: Image, current: File, headers: seq<Header>, dirty: bool)

  /** After a crash any unsynced header may or may not be there; unsynced body writes leave arbitrary bytes. */
  ghost predicate CanRecover(d: Disk, image: Image) {
    && (image.header == d.durable.header || image.header in d.headers)
    && (d.dirty || image.body == d.durable.body)
  }

  /** InspectHeader: only a VALID header lets a reader open the file. */
  predicate Opens(image: Image) {
    image.header.valid
  }

  /** A complete commit: its header over exactly its bytes. A destination that cannot be cut may be longer. */
  ghost predicate Complete(image: Image, header: Header, body: File, cuts: bool) {
    && image.header == header
    && (forall i: nat | HEADER_SIZE <= i < |body| :: At(image.body, i) == body[i])
    && (cuts ==> |image.body| == |body|)
  }

  /** Whatever a crash leaves: a reader that opens it sees the old file whole or the new commit whole. */
  ghost predicate Safe(d: Disk, before: Image, header: Header, body: File, cuts: bool) {
    forall image: Image | CanRecover(d, image) && Opens(image) :: image == before || Complete(image, header, body, cuts)
  }

  datatype BodyWrite = BodyWrite(off: nat, raw: seq<byte>)

  function Laid(f: File, writes: seq<BodyWrite>): File {
    if writes == [] then f else Put(Laid(f, writes[..|writes| - 1]), writes[|writes| - 1].off, writes[|writes| - 1].raw)
  }

  /** What a commit leaves behind the header: the first writes, a cut at the EOF, then the tree pages. */
  ghost function BodyOf(f: File, first: seq<BodyWrite>, eof: nat, pages: seq<BodyWrite>): (r: File)
    ensures |r| == eof
  {
    Read(Laid(Laid(f, first), pages), 0, eof)
  }

  ghost predicate Within(writes: seq<BodyWrite>, eof: nat) {
    forall k | 0 <= k < |writes| :: writes[k].off + |writes[k].raw| <= eof
  }

  /** One call of the operating system; it can only fail where something is faulty. */
  method Attempt(faulty: bool) returns (ok: bool)
    ensures !faulty ==> ok
  {
    ok := *;
    ok := ok || !faulty;
  }

  class Device {
    var durable: Image
    var current: File
    var headers: seq<Header>
    var dirty: bool
    const cuts: bool
    const faulty: bool
    ghost var crashes: seq<Disk>

    function State(): Disk
      reads this
    {
      Disk(durable, current, headers, dirty)
    }

    constructor (before: Image, cuts: bool, faulty: bool)
      ensures State() == Disk(before, before.body, [], false) && crashes == []
      ensures this.cuts == cuts && this.faulty == faulty
    {
      durable, current, headers, dirty, crashes := before, before.body, [], false, [];
      this.cuts, this.faulty := cuts, faulty;
    }

    method WriteHeader(h: Header) returns (ok: bool)
      modifies this
      ensures durable == old(durable) && current == old(current) && dirty == old(dirty)
      ensures ok ==> headers == old(headers) + [h]
      ensures !ok ==> headers == old(headers) || headers == old(headers) + [h]
      ensures crashes == old(crashes) + [State()] && (!faulty ==> ok)
    {
      ok := Attempt(faulty);
      var landed: bool := *;
      if ok || landed {
        headers := headers + [h];
      }
      crashes := crashes + [State()];
    }

    /** WriteAt of body bytes; on failure a prefix may have been written. */
    method WriteBody(off: nat, raw: seq<byte>) returns (ok: bool)
      modifies this
      ensures durable == old(durable) && headers == old(headers) && dirty
      ensures ok ==> current == Put(old(current), off, raw)
      ensures crashes == old(crashes) + [State()] && (!faulty ==> ok)
    {
      var landed: nat :| faulty || landed == |raw|;
      ok := landed >= |raw|;
      current := Put(current, off, if ok then raw else raw[..landed]);
      dirty := true;
      crashes := crashes + [State()];
    }

    /** Truncate, on destinations that have it. */
    method Cut(eof: nat) returns (ok: bool)
      modifies this
      ensures durable == old(durable) && headers == old(headers)
      ensures ok && cuts ==> current == Resized(old(current), eof) && dirty
      ensures ok && !cuts ==> current == old(current) && dirty == old(dirty)
      ensures !ok ==> dirty
      ensures crashes == old(crashes) + [State()] && (!faulty ==> ok)
    {
      ok := true;
      if cuts {
        ok := Attempt(faulty);
        dirty := true;
        if ok {
          current := Resized(current, eof);
        }
      }
      crashes := crashes + [State()];
    }

    method Sync() returns (ok: bool)
      modifies this
      ensures current == old(current)
      ensures ok ==> !dirty && headers == [] && durable.body == current
      ensures ok ==>
        durable.header == if old(headers) == [] then old(durable.header) else old(headers)[|old(headers)| - 1]
      ensures !ok ==> durable == old(durable) && headers == old(headers) && dirty == old(dirty)
      ensures crashes == old(crashes) + [State()] && (!faulty ==> ok)
    {
      ok := Attempt(faulty);
      if ok {
        durable := Image(if headers == [] then durable.header else headers[|headers| - 1], current);
        headers, dirty := [], false;
      }
      crashes := crashes + [State()];
    }
  }

  /** A commit may start only on a settled destination. */
  ghost predicate Settled(dev: Device, before: Image)
    reads dev
  {
    dev.State() == Disk(before, before.body, [], false)
  }

  ghost predicate AllSafe(crashes: seq<Disk>, before: Image, header: Header, body: File, cuts: bool) {
    forall k | 0 <= k < |crashes| :: Safe(crashes[k], before, header, body, cuts)
  }

  lemma SafeInvalid(d: Disk, before: Image, header: Header, body: File, cuts: bool)
    requires !d.durable.header.valid && forall h | h in d.headers :: !h.valid
    ensures Safe(d, before, header, body, cuts)
  {
  }

  lemma {:induction false} LaidSnoc(f: File, writes: seq<BodyWrite>, w: BodyWrite)
    ensures Laid(f, writes + [w]) == Put(Laid(f, writes), w.off, w.raw)
  {
    assert (writes + [w])[..|writes|] == writes;
  }

  lemma OneMore(crashes: seq<Disk>, d: Disk, before: Image, header: Header, body: File, cuts: bool)
    requires AllSafe(crashes, before, header, body, cuts) && Safe(d, before, header, body, cuts)
    ensures AllSafe(crashes + [d], before, header, body, cuts)
  {
    hide Safe;
  }

  /** The writes behind an INVALID header; none of them can be seen. */
  method WriteBodies(dev: Device, writes: seq<BodyWrite>, ghost body: File, ghost before: Image, ghost header: Header)
    returns (ok: bool)
    requires !dev.durable.header.valid && dev.headers == [] && AllSafe(dev.crashes, before, header, body, dev.cuts)
    modifies dev
    ensures !dev.durable.header.valid && dev.headers == [] && AllSafe(dev.crashes, before, header, body, dev.cuts)
    ensures ok ==> dev.current == Laid(old(dev.current), writes)
    ensures !dev.faulty ==> ok
  {
    hide Safe, AllSafe, Laid;
    ok := true;
    LaidNone(dev.current);
    assert writes[..0] == [];
    for i := 0 to |writes|
      invariant !dev.durable.header.valid && dev.headers == [] && dev.current == Laid(old(dev.current), writes[..i])
      invariant AllSafe(dev.crashes, before, header, body, dev.cuts)
    {
      LaidSnoc(old(dev.current), writes[..i], writes[i]);
      assert writes[..i + 1] == writes[..i] + [writes[i]];
      ghost var crashes := dev.crashes;
      ok := dev.WriteBody(writes[i].off, writes[i].raw);
      SafeInvalid(dev.State(), before, header, body, dev.cuts);
      OneMore(crashes, dev.State(), before, header, body, dev.cuts);
      if !ok {
        return;
      }
    }
    assert writes[..|writes|] == writes;
  }

  /** writeBody and the tree pages after it. */
  method WriteAll(dev: Device, first: seq<BodyWrite>, eof: nat, pages: seq<BodyWrite>, ghost body: File,
                  ghost before: Image, ghost header: Header) returns (ok: bool)
    requires !dev.durable.header.valid && dev.headers == [] && AllSafe(dev.crashes, before, header, body, dev.cuts) &&
      Within(pages, eof)
    modifies dev
    ensures !dev.durable.header.valid && dev.headers == [] && AllSafe(dev.crashes, before, header, body, dev.cuts)
    ensures ok ==> forall i: nat | i < eof :: At(dev.current, i) == BodyOf(old(dev.current), first, eof, pages)[i]
    ensures ok && dev.cuts ==> |dev.current| == eof
    ensures !dev.faulty ==> ok
  {
    hide Safe, AllSafe, Laid, Within;
    ghost var start := dev.current;
    ok := WriteBodies(dev, first, body, before, header);
    if !ok {
      return;
    }
    ghost var crashes, laid := dev.crashes, dev.current;
    ok := dev.Cut(eof);
    SafeInvalid(dev.State(), before, header, body, dev.cuts);
    OneMore(crashes, dev.State(), before, header, body, dev.cuts);
    if !ok {
      return;
    }
    LaidAfterCut(laid, dev.current, pages, eof);
    ok := WriteBodies(dev, pages, body, before, header);
  }

  /** Writes below the EOF see nothing of a cut there. */
  lemma {:induction false} LaidAfterCut(f: File, cut: File, writes: seq<BodyWrite>, eof: nat)
    requires Within(writes, eof) && forall i: nat | i < eof :: At(cut, i) == At(f, i)
    ensures forall i: nat | i < eof :: At(Laid(cut, writes), i) == At(Laid(f, writes), i)
    ensures |cut| == eof ==> |Laid(cut, writes)| == eof
  {
    if writes != [] {
      var n := |writes| - 1;
      LaidAfterCut(f, cut, writes[..n], eof);
      assert writes[n].off + |writes[n].raw| <= eof;
    }
  }

  lemma LaidNone(f: File)
    ensures Laid(f, []) == f
  {
  }

  /** INVALID and sync, body and sync, VALID and sync: safe after every single step, complete on success, which only a
      fault can prevent. */
  method WriteTwoPhase(dev: Device, root: nat, first: seq<BodyWrite>, eof: nat, pages: seq<BodyWrite>,
                       ghost before: Image) returns (ok: bool)
    requires Settled(dev, before) && dev.crashes == [] && Within(pages, eof)
    modifies dev
    ensures AllSafe(dev.crashes, before, Header(true, root), BodyOf(before.body, first, eof, pages), dev.cuts)
    ensures ok ==>
      Complete(dev.durable, Header(true, root), BodyOf(before.body, first, eof, pages), dev.cuts) &&
      dev.headers == [] && !dev.dirty
    ensures !dev.faulty ==> ok
  {
    hide Safe, AllSafe, Laid, BodyOf, Within;
    var header := Header(true, root);
    ghost var body := BodyOf(before.body, first, eof, pages);
    ok := dev.WriteHeader(Header(false, root));
    FirstSafe(dev.crashes, before, header, body, dev.cuts);
    if !ok {
      return;
    }
    ghost var crashes := dev.crashes;
    ok := dev.Sync();
    if !ok {
      OneMore(crashes, crashes[0], before, header, body, dev.cuts);
      return;
    }
    SafeInvalid(dev.State(), before, header, body, dev.cuts);
    OneMore(crashes, dev.State(), before, header, body, dev.cuts);
    ok := WriteAll(dev, first, eof, pages, body, before, header);
    if !ok {
      return;
    }
    crashes := dev.crashes;
    ok := dev.Sync();
    SafeInvalid(dev.State(), before, header, body, dev.cuts);
    OneMore(crashes, dev.State(), before, header, body, dev.cuts);
    if !ok {
      return;
    }
    crashes := dev.crashes;
    ok := dev.WriteHeader(header);
    SafeComplete(dev.State(), before, header, body, dev.cuts);
    OneMore(crashes, dev.State(), before, header, body, dev.cuts);
    if !ok {
      return;
    }
    crashes := dev.crashes;
    ok := dev.Sync();
    SafeComplete(dev.State(), before, header, body, dev.cuts);
    OneMore(crashes, dev.State(), before, header, body, dev.cuts);
  }

  /** While only an INVALID header is pending, the old file is still whole. */
  lemma FirstSafe(crashes: seq<Disk>, before: Image, header: Header, body: File, cuts: bool)
    requires |crashes| == 1 && crashes[0].durable == before && !crashes[0].dirty &&
      forall h | h in crashes[0].headers :: !h.valid
    ensures AllSafe(crashes, before, header, body, cuts) && Safe(crashes[0], before, header, body, cuts)
  {
  }

  /** Once the whole body is durable, only the header is in question. */
  lemma SafeComplete(d: Disk, before: Image, header: Header, body: File, cuts: bool)
    requires !d.dirty && (forall i: nat | HEADER_SIZE <= i < |body| :: At(d.durable.body, i) == body[i])
    requires cuts ==> |d.durable.body| == |body|
    requires d.durable.header == header || !d.durable.header.valid
    requires forall h | h in d.headers :: h == header
    ensures Safe(d, before, header, body, cuts)
  {
  }

  // ---------- publishing a stage ----------

  /** The chunks of copyReaderAtFrom. */
  function Chunks(stage: File, from: nat, eof: nat): seq<BodyWrite>
    requires eof <= |stage|
    decreases eof - from
  {
    if from >= eof then []
    else
      var end := if from + COPY_CHUNK > eof then eof else from + COPY_CHUNK;
      [BodyWrite(from, stage[from..end])] + Chunks(stage, end, eof)
  }

  lemma {:induction false} LaidAppend(f: File, a: seq<BodyWrite>, b: seq<BodyWrite>)
    ensures Laid(f, a + b) == Laid(Laid(f, a), b)
  {
    if b == [] {
      assert a + b == a;
    } else {
      LaidAppend(f, a, b[..|b| - 1]);
      assert (a + b)[..|a + b| - 1] == a + b[..|b| - 1];
    }
  }

  lemma {:induction false} ChunksProduce(f: File, stage: File, from: nat, eof: nat, i: nat)
    requires eof <= |stage|
    ensures At(Laid(f, Chunks(stage, from, eof)), i) == if from <= i < eof then stage[i] else At(f, i)
    decreases eof - from
  {
    if from < eof {
      var end := if from + COPY_CHUNK > eof then eof else from + COPY_CHUNK;
      var w := BodyWrite(from, stage[from..end]);
      LaidAppend(f, [w], Chunks(stage, end, eof));
      assert Laid(f, [w]) == Put(f, from, stage[from..end]) by {
        LaidSnoc(f, [], w);
        assert [] + [w] == [w];
      }
      ChunksProduce(Laid(f, [w]), stage, end, eof, i);
    }
  }

  /** Only the bytes behind the header count. */
  lemma SameBody(crashes: seq<Disk>, image: Image, before: Image, header: Header, a: File, b: File, cuts: bool)
    requires |a| == |b| && forall i | HEADER_SIZE <= i < |a| :: a[i] == b[i]
    ensures AllSafe(crashes, before, header, a, cuts) ==> AllSafe(crashes, before, header, b, cuts)
    ensures Complete(image, header, a, cuts) ==> Complete(image, header, b, cuts)
  {
    assert forall x: Image :: Complete(x, header, a, cuts) ==> Complete(x, header, b, cuts);
    hide Complete;
  }

  /** publishSink: the stage arrives complete or not visibly at all. */
  method PublishSink(dev: Device, root: nat, stage: File, eof: nat, ghost before: Image) returns (ok: bool)
    requires Settled(dev, before) && dev.crashes == [] && |stage| == eof
    modifies dev
    ensures AllSafe(dev.crashes, before, Header(true, root), stage, dev.cuts)
    ensures ok ==> Complete(dev.durable, Header(true, root), stage, dev.cuts)
    ensures !dev.faulty ==> ok
  {
    hide AllSafe, Complete;
    ok := WriteTwoPhase(dev, root, Chunks(stage, HEADER_SIZE, eof), eof, [], before);
    ghost var body := BodyOf(before.body, Chunks(stage, HEADER_SIZE, eof), eof, []);
    forall i: nat | HEADER_SIZE <= i < eof
      ensures body[i] == stage[i]
    {
      ChunksProduce(before.body, stage, HEADER_SIZE, eof, i);
      LaidNone(Laid(before.body, Chunks(stage, HEADER_SIZE, eof)));
      hide Laid;
    }
    SameBody(dev.crashes, dev.durable, before, Header(true, root), body, stage, dev.cuts);
  }

  // ---------- committing to a path ----------

  /** What opening the path can find after a crash. */
  datatype Entry = Before(image: Image) | Temp(disk: Disk)

  ghost predicate PathSafe(e: Entry, before: Image, header: Header, body: File, cuts: bool) {
    match e
    case Before(image) => image == before
    case Temp(d) => forall image | CanRecover(d, image) && Opens(image) :: Complete(image, header, body, cuts)
  }

  /** CommitFile: the rename is the commit. The path names the old file until the new one is complete and synced. */
  method CommitFile(tmp: Device, root: nat, first: seq<BodyWrite>, eof: nat, pages: seq<BodyWrite>, before: Image,
                    ghost blank: Image)
    returns (ok: bool, path: Entry)
    requires Settled(tmp, blank) && tmp.crashes == [] && Within(pages, eof)
    modifies tmp
    ensures PathSafe(path, before, Header(true, root), BodyOf(blank.body, first, eof, pages), tmp.cuts)
    ensures path.Before? || (path.disk == tmp.State() && Opens(tmp.durable)
                             && Complete(tmp.durable, Header(true, root), BodyOf(blank.body, first, eof, pages),
                                         tmp.cuts))
    ensures (ok ==> path.Temp?) && (!tmp.faulty ==> ok)
  {
    hide BodyOf, Within, Laid;
    path := Before(before);
    ok := WriteTwoPhase(tmp, root, first, eof, pages, blank);
    if !ok {
      return;
    }
    var closed := Attempt(tmp.faulty);
    if !closed {
      return false, path;
    }
    var renamed := Attempt(tmp.faulty);
    if !renamed {
      return false, path;
    }
    path := Temp(tmp.State());
    var synced := Attempt(tmp.faulty);
    return synced, path;
  }
}
