/** The extent undo journal and the transaction around it, byte by byte (store.go, tx.go). */
module UndoJournal {
  import opened Common

  type File = seq<byte>

  /** A file reads as zero beyond its end. */
  function At(f: File, i: nat): byte {
    if i < |f| then f[i] else 0
  }

  /** Bytes [from, from+n) of a file. */
  function Read(f: File, from: nat, n: nat): (r: seq<byte>)
    ensures |r| == n && forall k | 0 <= k < n :: r[k] == At(f, from + k)
  {
    seq<byte>(n, k requires 0 <= k < n => At(f, from + k))
  }

  /** WriteAt: overwrite, extending the file with zeros when needed. */
  function Put(f: File, off: nat, raw: seq<byte>): (r: File)
    ensures forall i: nat :: At(r, i) == if off <= i < off + |raw| then raw[i - off] else At(f, i)
    ensures |r| >= |f| && forall i | |f| <= i < |r| && i < off :: r[i] == 0
  {
    var len := if raw != [] && off + |raw| > |f| then off + |raw| else |f|;
    seq(len, i requires 0 <= i < len => if off <= i < off + |raw| then raw[i - off] else At(f, i))
  }

  /** Truncate, in either direction. */
  function Resized(f: File, eof: nat): (r: File)
    ensures |r| == eof && forall i: nat | i < eof :: At(r, i) == At(f, i)
    ensures forall i | |f| <= i < eof :: r[i] == 0
  {
    Read(f, 0, eof)
  }

  datatype Extent = Extent(ib: nat, orig: seq<byte>)

  datatype Log = Log(eof: nat, extents: seq<Extent>)

  predicate InExtent(e: Extent, i: nat) {
    e.ib <= i < e.ib + |e.orig|
  }

  ghost predicate Covered(log: Log, i: nat) {
    exists k | 0 <= k < |log.extents| :: InExtent(log.extents[k], i)
  }

  /** Journal extents are disjoint, non-empty, below the starting EOF and hold the bytes of `start`. */
  ghost predicate Journal(log: Log, start: File) {
    && (forall k | 0 <= k < |log.extents| ::
        log.extents[k].orig != [] && log.extents[k].ib + |log.extents[k].orig| <= log.eof)
    && (forall k, i: nat | 0 <= k < |log.extents| && InExtent(log.extents[k], i) ::
          log.extents[k].orig[i - log.extents[k].ib] == At(start, i))
    && forall j, k, i: nat | 0 <= j < k < |log.extents| && InExtent(log.extents[j], i) :: !InExtent(log.extents[k], i)
  }

  /** Every byte below the starting EOF that no extent covers is still the original one. */
  ghost predicate Untouched(log: Log, start: File, now: File) {
    forall i: nat | i < log.eof && !Covered(log, i) :: At(now, i) == At(start, i)
  }

  lemma CoveredMore(log: Log, e: Extent, i: nat)
    ensures Covered(Log(log.eof, log.extents + [e]), i) <==> Covered(log, i) || InExtent(e, i)
  {
    var more := Log(log.eof, log.extents + [e]);
    assert more.extents[|log.extents|] == e;
    assert forall k | 0 <= k < |log.extents| :: more.extents[k] == log.extents[k];
  }

  /** skipCovered: past the extent that holds `pos`, or up to where the next one starts. */
  method SkipCovered(log: Log, pos: nat, end: nat) returns (covered: bool, next: nat)
    requires pos < end && forall k | 0 <= k < |log.extents| :: log.extents[k].orig != []
    ensures covered <==> Covered(log, pos)
    ensures covered ==> pos < next && forall i | pos <= i < next :: Covered(log, i)
    ensures !covered ==>
      pos < next <= end && (forall i | pos <= i < next :: !Covered(log, i)) && (next == end || Covered(log, next))
  {
    next := end;
    for k := 0 to |log.extents|
      invariant pos < next <= end && (next == end || Covered(log, next))
      invariant forall j, i | 0 <= j < k && pos <= i < next :: !InExtent(log.extents[j], i)
    {
      var e := log.extents[k];
      if e.ib <= pos < e.ib + |e.orig| {
        assert forall i | pos <= i < e.ib + |e.orig| :: InExtent(log.extents[k], i);
        return true, e.ib + |e.orig|;
      }
      if pos < e.ib < next {
        assert InExtent(log.extents[k], e.ib);
        next := e.ib;
      }
    }
    return false, next;
  }

  /** What an injected fault does to one write: nothing, the undo read that comes to byte `at` fails, or only `landed`
      bytes reach the file. */
  datatype Fault = NoFault | ReadFails(at: nat) | Torn(landed: nat)

  /** One step of a transaction body. */
  datatype Op =
    | Write(ib: nat, raw: seq<byte>, fault: Fault)
    | Clear(ib: nat, size: nat, fault: Fault)
    | Grow(extra: nat)
    | Spool
    | Inner(body: seq<Op>)
    | Stop

  /** The steps open no transaction of their own. */
  predicate Flat(ops: seq<Op>) {
    forall i | 0 <= i < |ops| :: !ops[i].Inner?
  }

  // ---------- what the steps do, without a journal ----------

  /** A journal as a set: which bytes below the starting EOF have been saved. */
  datatype Saved = Saved(eof: nat, bytes: set<nat>)

  /** The store's files, its EOF and what its journal has saved. */
  datatype Shadow = Shadow(io: Option<File>, work: Option<File>, eof: nat, saved: Option<Saved>)

  function SourceOf(s: Shadow): File {
    if s.work.Some? then s.work.value else if s.io.Some? then s.io.value else []
  }

  /** Bytes a write must save first. */
  function Owed(saved: Option<Saved>, off: nat, n: nat): set<nat> {
    if saved.None? then {} else set i: nat | off <= i < off + n && i < saved.value.eof && i !in saved.value.bytes
  }

  /** What is saved when the read of byte `at` fails: the owed bytes of earlier stretches, which some saved byte parts
      from it. */
  function Earlier(saved: Option<Saved>, off: nat, n: nat, at: nat): set<nat> {
    set i | i in Owed(saved, off, n) && exists j: nat | i < j < at :: j !in Owed(saved, off, n)
  }

  function Landing(raw: seq<byte>, fault: Fault): nat {
    if fault.Torn? && fault.landed < |raw| then fault.landed else |raw|
  }

  /** One write: what is owed is saved, then the bytes land; a failed save writes nothing, but keeps what it saved
      before. */
  function Written(s: Shadow, off: nat, raw: seq<byte>, fault: Fault): (Shadow, bool)
    requires s.work.Some?
  {
    var owed := Owed(s.saved, off, |raw|);
    if fault.ReadFails? && fault.at in owed then
      (s.(saved := Some(Saved(s.saved.value.eof, s.saved.value.bytes + Earlier(s.saved, off, |raw|, fault.at)))), false)
    else
      var saved := if s.saved.None? then None else Some(Saved(s.saved.value.eof, s.saved.value.bytes + owed));
      (s.(work := Some(Put(s.work.value, off, raw[..Landing(raw, fault)])), saved := saved),
       Landing(raw, fault) == |raw|)
  }

  function Spooled(s: Shadow): (r: Shadow)
    ensures r.work.Some?
  {
    if s.work.Some? then s
    else s.(work := Some(if s.io.Some? && |s.io.value| > s.eof then s.io.value[..s.eof] else SourceOf(s)))
  }

  function Did(s: Shadow, op: Op): (Shadow, bool)
    decreases op
  {
    match op
    case Write(ib, raw, fault) =>
      if |raw| == 0 then (s, true) else if ib + |raw| > s.eof then (s, false) else Written(Spooled(s), ib, raw, fault)
    case Clear(ib, size, fault) =>
      if size == 0 || s.work.None? then (s, true) else Written(s, ib, Zeros(size), fault)
    case Grow(extra) => (s.(eof := s.eof + extra), true)
    case Spool => (Spooled(s), true)
    case Inner(body) => Txn(s, body)
    case Stop => (s, false)
  }

  function Zeros(n: nat): seq<byte> {
    seq<byte>(n, _ => 0)
  }

  /** Steps up to and including the first that fails, and how many that is. */
  function DidAll(s: Shadow, ops: seq<Op>): (r: (Shadow, bool, nat))
    ensures r.2 <= |ops| && (r.1 ==> r.2 == |ops|)
    decreases ops, 0
  {
    if ops == [] then (s, true, 0)
    else
      var d := Did(s, ops[0]);
      if !d.1 then (d.0, false, 1)
      else
        var r := DidAll(d.0, ops[1..]);
        (r.0, r.1, r.2 + 1)
  }

  /** beginTxn replaces whatever journal there was, when there is a spool to journal. */
  function Begun(s: Shadow): Shadow {
    if s.work.Some? then s.(saved := Some(Saved(s.eof, {}))) else s
  }

  /** Saved bytes come back; the rest stay as the steps left them; the file is cut to its old length. */
  function Rewound(now: File, start: File, saved: Option<Saved>, eof: nat): (r: File)
    ensures |r| == eof
    ensures saved.None? ==> r == Resized(now, eof)
  {
    var bytes := if saved.None? then {} else saved.value.bytes;
    seq<byte>(eof, i requires 0 <= i < eof => if i in bytes then At(start, i) else At(now, i))
  }

  /** runTxn: the journal is gone afterwards, whoever began it. */
  function Txn(s: Shadow, body: seq<Op>): (Shadow, bool)
    decreases body, 1
  {
    var r := DidAll(Begun(s), body);
    if r.1 then (r.0.(saved := None), true)
    else
      var work := if s.work.None? || r.0.work.None? then None
                  else Some(Rewound(r.0.work.value, s.work.value, r.0.saved, s.eof));
      (Shadow(r.0.io, work, s.eof, None), false)
  }

  // ---------- what a run that succeeds leaves ----------

  /** The steps in the order they run, those of inner transactions in their place. */
  function Steps(ops: seq<Op>): seq<Op>
    decreases ops, 0
  {
    if ops == [] then [] else StepsOf(ops[0]) + Steps(ops[1..])
  }

  function StepsOf(op: Op): seq<Op>
    decreases op
  {
    if op.Inner? then Steps(op.body) else [op]
  }

  predicate MakesSpool(op: Op) {
    op.Spool? || (op.Write? && op.raw != [])
  }

  /** Step `k` of a run writes byte `i`. Clearing does nothing as long as there is no spool. */
  ghost predicate Covers(steps: seq<Op>, had: bool, k: nat, i: nat) {
    && k < |steps|
    && match steps[k]
       case Write(ib, raw, _) => ib <= i < ib + |raw|
       case Clear(ib, size, _) => ib <= i < ib + size && (had || exists j | 0 <= j < k :: MakesSpool(steps[j]))
       case _ => false
  }

  /** What step `k` puts at byte `i`. */
  ghost function PutBy(op: Op, i: nat): byte {
    match op
    case Write(ib, raw, _) => if ib <= i < ib + |raw| then raw[i - ib] else 0
    case _ => 0
  }

  ghost predicate CoversLast(steps: seq<Op>, had: bool, k: nat, i: nat) {
    Covers(steps, had, k, i) && forall l: nat | l > k :: !Covers(steps, had, l, i)
  }

  /** Below `eof`, every byte is the one of the last step that covers it, and the old one when none does. */
  ghost predicate LeftBy(steps: seq<Op>, had: bool, eof: nat, was: File, now: File) {
    forall i: nat | i < eof ::
      && ((forall k: nat :: !Covers(steps, had, k, i)) ==> At(now, i) == At(was, i))
      && forall k: nat | CoversLast(steps, had, k, i) :: At(now, i) == PutBy(steps[k], i)
  }

  // ---------- which runs succeed ----------

  /** How far the steps move the end of file. */
  function Growth(ops: seq<Op>): nat
    decreases ops, 0
  {
    if ops == [] then 0 else GrowthOf(ops[0]) + Growth(ops[1..])
  }

  function GrowthOf(op: Op): nat
    decreases op
  {
    match op
    case Grow(extra) => extra
    case Inner(body) => Growth(body)
    case _ => 0
  }

  predicate Faultless(ops: seq<Op>)
    decreases ops, 0
  {
    ops == [] || (FaultlessStep(ops[0]) && Faultless(ops[1..]))
  }

  predicate FaultlessStep(op: Op)
    decreases op
  {
    match op
    case Write(_, _, fault) => fault.NoFault?
    case Clear(_, _, fault) => fault.NoFault?
    case Inner(body) => Faultless(body)
    case _ => true
  }

  /** No step stops the run, and none writes past the end of file as it stands by then. */
  predicate Fits(ops: seq<Op>, eof: nat)
    decreases ops, 0
  {
    ops == [] || (FitsStep(ops[0], eof) && Fits(ops[1..], eof + GrowthOf(ops[0])))
  }

  predicate FitsStep(op: Op, eof: nat)
    decreases op
  {
    match op
    case Write(ib, raw, _) => raw == [] || ib + |raw| <= eof
    case Inner(body) => Fits(body, eof)
    case Stop => false
    case _ => true
  }

  ghost function SavedOf(undo: Option<Log>): Option<Saved> {
    if undo.None? then None else Some(Saved(undo.value.eof, set i: nat | i < undo.value.eof && Covered(undo.value, i)))
  }

  class ByteStore {
    /** Whether restoring a file can fail; faults of single steps are theirs. */
    const faulty: bool
    var io: Option<File>
    var work: Option<File>
    var eof: nat
    var undo: Option<Log>

    constructor (io: Option<File>, work: Option<File>, eof: nat, faulty: bool)
      ensures this.io == io && this.work == work && this.eof == eof && undo == None && this.faulty == faulty
    {
      this.io, this.work, this.eof, undo, this.faulty := io, work, eof, None, faulty;
    }

    method Fails() returns (io: bool)
      ensures io ==> faulty
    {
      io := *;
      io := io && faulty;
    }

    /** The store without the order and the extents of its journal. */
    ghost function Sh(): Shadow
      reads this
    {
      Shadow(io, work, eof, SavedOf(undo))
    }

    /** The payload source: the work spool when there is one, else the committed source. */
    function Source(): File
      reads this
    {
      if work.Some? then work.value else if io.Some? then io.value else []
    }

    /** noteUndo: what the range owes is saved, stretch by stretch; when a read fails the earlier stretches stay
        saved. */
    method NoteUndo(off: nat, n: nat, fault: Fault, ghost start: File) returns (ok: bool)
      requires undo.Some? ==> Journal(undo.value, start) && Untouched(undo.value, start, Source())
      modifies `undo
      ensures undo.Some? == old(undo.Some?)
      ensures undo.Some? ==> undo.value.eof == old(undo.value.eof)
      ensures undo.Some? ==> Journal(undo.value, start) && Untouched(undo.value, start, Source())
      ensures undo.Some? && ok ==> forall i: nat | off <= i < off + n && i < undo.value.eof :: Covered(undo.value, i)
      ensures undo.Some? && ok ==>
        SavedOf(undo) == Some(Saved(undo.value.eof, old(SavedOf(undo)).value.bytes + Owed(old(SavedOf(undo)), off, n)))
      ensures !ok <==> fault.ReadFails? && fault.at in Owed(old(SavedOf(undo)), off, n)
      ensures !ok ==> SavedOf(undo) == Some(Saved(undo.value.eof,
                                                  old(SavedOf(undo)).value.bytes + Earlier(old(SavedOf(undo)), off, n,
                                                      fault.at)))
    {
      if undo.None? || n == 0 || off >= undo.value.eof {
        assert Owed(SavedOf(undo), off, n) == {};
        if undo.Some? {
          var bytes := SavedOf(undo).value.bytes;
          assert bytes + {} == bytes;
        }
        return true;
      }
      var end := if off + n > undo.value.eof then undo.value.eof else off + n;
      var pos := off;
      ghost var was := undo.value;
      while pos < end
        invariant undo.Some? && off <= pos && Noted(was, undo.value, off, n, pos, end)
        invariant Journal(undo.value, start) && Untouched(undo.value, start, Source())
        invariant Parted(was, off, pos, end)
        invariant fault.ReadFails? && fault.at < pos ==> fault.at !in Owed(SavedOf(Some(was)), off, n)
        decreases end - pos
      {
        NotedEof(was, undo.value, off, n, pos, end);
        JournalSolid(undo.value, start);
        hide Journal, Untouched, Noted, Covered, Parted, Owed, Earlier;
        var covered, next := SkipCovered(undo.value, pos, end);
        NotedFrom(was, undo.value, off, n, pos, end, next, covered);
        if covered {
          NotedSkip(was, undo.value, off, n, pos, end, next);
          pos := next;
          continue;
        }
        if fault.ReadFails? && pos <= fault.at < next {
          NotedPart(was, undo.value, off, n, pos, end, next, fault.at);
          return false;
        }
        var e := Extent(pos, Read(Source(), pos, next - pos));
        ghost var before := undo.value;
        undo := Some(Log(undo.value.eof, undo.value.extents + [e]));
        JournalMore(before, start, Source(), e);
        NotedMore(was, before, off, n, pos, end, next, e);
        pos := next;
      }
      NotedAll(was, undo.value, off, n, pos, end);
      return true;
    }

    /** Journals the range, then writes it; a torn write leaves only part of it. */
    method Overwrite(off: nat, raw: seq<byte>, fault: Fault, ghost start: File) returns (ok: bool)
      requires work.Some?
      requires undo.Some? ==> Journal(undo.value, start) && Untouched(undo.value, start, work.value)
      modifies `undo, `work
      ensures work.Some? && undo.Some? == old(undo.Some?)
      ensures undo.Some? ==> undo.value.eof == old(undo.value.eof)
      ensures undo.Some? ==> Journal(undo.value, start) && Untouched(undo.value, start, work.value)
      ensures (Sh(), ok) == Written(old(Sh()), off, raw, fault)
    {
      ghost var s := Sh();
      ok := NoteUndo(off, |raw|, fault, start);
      if !ok {
        return;
      }
      ghost var before := work.value;
      var landed := Landing(raw, fault);
      work := Some(Put(work.value, off, raw[..landed]));
      assert raw[..|raw|] == raw;
      if undo.Some? {
        forall i: nat | i < undo.value.eof && !Covered(undo.value, i)
          ensures At(work.value, i) == At(start, i)
        {
          assert At(before, i) == At(start, i);
        }
      }
      return landed == |raw|;
    }

    /** ensureSpool: a new work spool starts as a copy of the committed source up to the EOF. */
    method EnsureSpool()
      modifies `work
      ensures work.Some? && (old(work.Some?) ==> work == old(work))
      ensures Sh() == Spooled(old(Sh()))
      ensures forall i: nat | i < eof :: At(Source(), i) == At(old(Source()), i)
    {
      if work.Some? {
        return;
      }
      work := Some(if io.Some? && |io.value| > eof then io.value[..eof] else Source());
    }

    /** beginTxn: a journal only when a spool exists. */
    method Begin()
      modifies `undo
      ensures undo == (if work.Some? then Some(Log(eof, [])) else old(undo)) && Sh() == Begun(old(Sh()))
    {
      if work.Some? {
        undo := Some(Log(eof, []));
        EmptySaved(eof);
      }
    }

    method End()
      modifies `undo
      ensures undo == None
    {
      undo := None;
    }

    /** restoreUndo: every journalled extent is written back, unless a write fails; without a journal nothing is. */
    method RestoreUndo(ghost start: File) returns (ok: bool)
      requires work.Some?
      requires undo.Some? ==> Journal(undo.value, start)
      modifies `work
      ensures work.Some? && (undo.None? ==> ok && work == old(work)) && (!faulty ==> ok)
      ensures undo.Some? ==> forall i: nat | !Covered(undo.value, i) :: At(work.value, i) == At(old(work).value, i)
      ensures undo.Some? && ok ==> forall i: nat | Covered(undo.value, i) :: At(work.value, i) == At(start, i)
      ensures undo.Some? ==>
        forall i: nat :: At(work.value, i) == At(start, i) || At(work.value, i) == At(old(work).value, i)
    {
      if undo.None? {
        return true;
      }
      var extents := undo.value.extents;
      for k := 0 to |extents|
        invariant work.Some?
        invariant forall i: nat | !Covered(undo.value, i) :: At(work.value, i) == At(old(work).value, i)
        invariant forall j, i: nat | 0 <= j < k && InExtent(extents[j], i) :: At(work.value, i) == At(start, i)
        invariant forall i: nat :: At(work.value, i) == At(start, i) || At(work.value, i) == At(old(work).value, i)
      {
        var io := Fails();
        if io {
          return false;
        }
        ghost var before := work.value;
        work := Some(Put(work.value, extents[k].ib, extents[k].orig));
        forall i: nat
          ensures InExtent(extents[k], i) ==> At(work.value, i) == At(start, i)
          ensures !InExtent(extents[k], i) ==> At(work.value, i) == At(before, i)
        {
          assert InExtent(extents[k], i) ==> extents[k].orig[i - extents[k].ib] == At(start, i);
        }
      }
      return true;
    }

    /** abortTxn: the value state comes back from the snapshot, then the bytes; `ok` is false when writing them back, or
        cutting the file, failed. */
    method Abort(hadWork: bool, eof0: nat, ghost start: File) returns (ok: bool)
      requires hadWork ==> work.Some?
      requires hadWork && undo.Some? ==> Journal(undo.value, start) && undo.value.eof == eof0
      modifies `work, `eof
      ensures eof == eof0 && (work.Some? <==> hadWork)
      ensures hadWork && ok ==> work.value == Rewound(old(work).value, start, SavedOf(undo), eof0)
      ensures hadWork && !ok ==>
        forall i: nat | i < eof0 :: At(work.value, i) == At(start, i) || At(work.value, i) == At(old(work).value, i)
      ensures !hadWork || !faulty ==> ok
    {
      eof := eof0;
      if !hadWork {
        work := None;
        return true;
      }
      ok := RestoreUndo(start);
      if !ok {
        return;
      }
      var io := Fails();
      if io {
        return false;
      }
      ghost var now := work.value;
      work := Some(Resized(work.value, eof0));
      assert forall i | 0 <= i < eof0 :: work.value[i] == At(work.value, i) == At(now, i);
    }

    /** Runs steps until one fails; `ran` steps were started. The journal survives exactly while no inner
        transaction was started, and holds what the steps overwrote. Unless an inner transaction could not be rolled
        back, the files are what the steps say. */
    method RunOps(ops: seq<Op>, ghost start: File) returns (ok: bool, ran: nat, clean: bool)
      requires undo.Some? ==> work.Some? && Journal(undo.value, start) && Untouched(undo.value, start, work.value)
      modifies this`undo, this`work, this`eof
      ensures ran <= |ops| && (ok ==> ran == |ops| && clean) && (old(work.Some?) ==> work.Some?) && (!faulty ==> clean)
      ensures undo.Some? <==> old(undo.Some?) && Flat(ops[..ran])
      ensures undo.Some? ==>
        work.Some? && undo.value.eof == old(undo.value.eof)
        && Journal(undo.value, start) && Untouched(undo.value, start, work.value)
      ensures clean ==> DidAll(old(Sh()), ops) == (Sh(), ok, ran)
      ensures !clean ==> !Flat(ops[..ran])
      decreases ops, 1
    {
      DidRest(Sh(), ops, 0, Sh());
      for i := 0 to |ops|
        invariant old(work.Some?) ==> work.Some?
        invariant undo.Some? <==> old(undo.Some?) && Flat(ops[..i])
        invariant undo.Some? ==>
          work.Some? && undo.value.eof == old(undo.value.eof)
          && Journal(undo.value, start) && Untouched(undo.value, start, work.value)
        invariant Resumes(old(Sh()), ops, i, Sh())
      {
        hide Journal, Untouched, DidAll, Did, Resumes;
        assert ops[..i + 1][..i] == ops[..i] && ops[..i + 1] == ops[..i] + [ops[i]];
        assert Flat(ops[..i + 1]) <==> Flat(ops[..i]) && !ops[i].Inner?;
        ghost var before := Sh();
        var stepped, intact := Step(ops[i], start);
        if intact {
          ResumesStep(old(Sh()), ops, i, before, Sh(), stepped);
        }
        if !stepped {
          return false, i + 1, intact;
        }
      }
      assert ops[..|ops|] == ops;
      ResumesEnd(old(Sh()), ops, Sh());
      return true, |ops|, true;
    }

    method Step(op: Op, ghost start: File) returns (ok: bool, clean: bool)
      requires undo.Some? ==> work.Some? && Journal(undo.value, start) && Untouched(undo.value, start, work.value)
      modifies this`undo, this`work, this`eof
      ensures old(work.Some?) ==> work.Some?
      ensures undo.Some? <==> old(undo.Some?) && !op.Inner?
      ensures undo.Some? ==>
        work.Some? && undo.value.eof == old(undo.value.eof)
        && Journal(undo.value, start) && Untouched(undo.value, start, work.value)
      ensures clean ==> Did(old(Sh()), op) == (Sh(), ok)
      ensures (ok ==> clean) && (!clean ==> op.Inner? && faulty)
      decreases op
    {
      hide Journal, Untouched, DidAll, Written, Txn;
      clean := true;
      match op {
        case Write(ib, raw, fault) =>
          if |raw| == 0 {
            return true, true;
          }
          if ib + |raw| > eof {
            return false, true;
          }
          EnsureSpool();
          ok := Overwrite(ib, raw, fault, start);
        case Clear(ib, size, fault) =>
          if size == 0 || work.None? {
            return true, true;
          }
          ok := Overwrite(ib, Zeros(size), fault, start);
        case Grow(extra) =>
          eof := eof + extra;
          return true, true;
        case Spool =>
          EnsureSpool();
          return true, true;
        case Inner(body) =>
          var ran;
          ok, ran, clean := RunTxn(body);
        case Stop =>
          return false, true;
      }
    }

    /** runTxn. Without faults it succeeds exactly when every step fits. When it succeeds, every byte below the old
        EOF is the one of the last step that covers it, inner transactions included, or the old one. Unless writing
        back failed, the store is what `Txn` says: a failed body leaves the saved bytes as they were and every other
        byte below the old EOF as the started steps left it. */
    method RunTxn(body: seq<Op>) returns (ok: bool, ran: nat, clean: bool)
      requires undo.Some? ==> work.Some?
      modifies this`undo, this`work, this`eof
      ensures undo == None && ran <= |body| && (ok ==> ran == |body| && clean) && (old(work.Some?) ==> work.Some?)
      ensures (!faulty ==> clean) && (Faultless(body) && clean ==> (ok <==> Fits(body, old(eof))))
      ensures clean ==> Txn(old(Sh()), body) == (Sh(), ok)
      ensures clean ==> ran == DidAll(Begun(old(Sh())), body).2
      ensures ok ==>
        LeftBy(Steps(body), old(work.Some?), old(eof), old(Source()), Source()) && eof == old(eof) + Growth(body)
      ensures !ok ==> eof == old(eof) && work.Some? == old(work.Some?)
      ensures !ok && old(work.None?) ==> Source() == old(Source())
      ensures !ok && clean && old(work.Some?) && Flat(body[..ran]) ==> work.value == Resized(old(work.value), eof)
      decreases body, 2
    {
      hide Journal, Untouched, DidAll, Fits, Faultless, Growth;
      var hadWork, eof0 := work.Some?, eof;
      ghost var s := Sh();
      ghost var start := Source();
      WhenRuns(Begun(s), body);
      Begin();
      EmptyJournal(eof0, start);
      ok, ran, clean := RunOps(body, start);
      if !ok {
        ghost var left, undone := Sh(), undo;
        var intact := Abort(hadWork, eof0, start);
        if hadWork && undone.Some? {
          SavedRewinds(undone.value, start, left.work.value);
        }
        clean := clean && intact;
      } else {
        RunLeaves(s, body);
      }
      End();
    }
  }

  /** What is left to do from step `i` on completes what has been done. */
  ghost predicate Resumes(s: Shadow, ops: seq<Op>, i: nat, now: Shadow) {
    i <= |ops| && var r := DidAll(now, ops[i..]); DidAll(s, ops) == (r.0, r.1, r.2 + i)
  }

  lemma DidRest(s: Shadow, ops: seq<Op>, i: nat, now: Shadow)
    requires i == 0 && now == s
    ensures Resumes(s, ops, i, now)
  {
    assert ops[0..] == ops;
  }

  lemma ResumesStep(s: Shadow, ops: seq<Op>, i: nat, before: Shadow, after: Shadow, ok: bool)
    requires i < |ops| && Resumes(s, ops, i, before) && Did(before, ops[i]) == (after, ok)
    ensures if ok then Resumes(s, ops, i + 1, after) else DidAll(s, ops) == (after, false, i + 1)
  {
    hide Did;
    var rest := ops[i..];
    assert rest[0] == ops[i] && rest[1..] == ops[i + 1..];
  }

  lemma ResumesEnd(s: Shadow, ops: seq<Op>, now: Shadow)
    requires Resumes(s, ops, |ops|, now)
    ensures DidAll(s, ops) == (now, true, |ops|)
  {
    assert ops[|ops|..] == [];
  }

  /** A journal that covers every byte the steps touched rewinds to the very file. */
  lemma SavedRewinds(log: Log, start: File, now: File)
    requires Journal(log, start) && Untouched(log, start, now)
    ensures Rewound(now, start, SavedOf(Some(log)), log.eof) == Resized(start, log.eof)
  {
    var r := Rewound(now, start, SavedOf(Some(log)), log.eof);
    forall i | 0 <= i < log.eof
      ensures r[i] == Resized(start, log.eof)[i]
    {
      assert At(Resized(start, log.eof), i) == At(start, i);
    }
  }

  // ---------- what a run leaves, step by step ----------

  function HasSpool(steps: seq<Op>, had: bool): bool {
    had || exists j | 0 <= j < |steps| :: MakesSpool(steps[j])
  }

  /** One byte, through the steps. */
  ghost function Through(steps: seq<Op>, had: bool, b: byte, i: nat): byte {
    if steps == [] then b
    else Through(steps[1..], had || MakesSpool(steps[0]), if Covers(steps, had, 0, i) then PutBy(steps[0], i) else b, i)
  }

  lemma {:induction false} ThroughBoth(a: seq<Op>, c: seq<Op>, had: bool, b: byte, i: nat)
    ensures Through(a + c, had, b, i) == Through(c, HasSpool(a, had), Through(a, had, b, i), i)
    ensures HasSpool(a + c, had) == HasSpool(c, HasSpool(a, had))
    decreases |a|
  {
    if a == [] {
      assert a + c == c;
    } else {
      assert (a + c)[1..] == a[1..] + c;
      assert HasSpool(a, had) == HasSpool(a[1..], had || MakesSpool(a[0])) by {
        SpoolFirst(a, had);
      }
      SpoolFirst(a + c, had);
      ThroughBoth(a[1..], c, had || MakesSpool(a[0]), if Covers(a, had, 0, i) then PutBy(a[0], i) else b, i);
    }
  }

  lemma SpoolFirst(a: seq<Op>, had: bool)
    requires a != []
    ensures HasSpool(a, had) == HasSpool(a[1..], had || MakesSpool(a[0]))
  {
    assert a == [a[0]] + a[1..];
  }

  lemma CoversNext(steps: seq<Op>, had: bool, k: nat, i: nat)
    requires steps != []
    ensures Covers(steps, had, k + 1, i) <==> Covers(steps[1..], had || MakesSpool(steps[0]), k, i)
  {
    var rest := steps[1..];
    if k < |rest| {
      assert steps[k + 1] == rest[k];
      if j :| 0 <= j < k && MakesSpool(rest[j]) {
        assert MakesSpool(steps[j + 1]);
      }
      if j :| 0 <= j < k + 1 && MakesSpool(steps[j]) {
        assert j > 0 ==> rest[j - 1] == steps[j];
      }
    }
  }

  lemma NoneLater(steps: seq<Op>, had: bool, rest: seq<Op>, has: bool, i: nat)
    requires steps != [] && rest == steps[1..] && has == (had || MakesSpool(steps[0]))
    requires forall k: nat :: !Covers(steps, had, k, i)
    ensures forall k: nat :: !Covers(rest, has, k, i)
  {
    hide Covers;
    forall k: nat
      ensures !Covers(rest, has, k, i)
    {
      CoversNext(steps, had, k, i);
    }
  }

  /** The byte that comes through is the last one put there. */
  lemma {:induction false} ThroughLast(steps: seq<Op>, had: bool, b: byte, i: nat)
    ensures (forall k: nat :: !Covers(steps, had, k, i)) ==> Through(steps, had, b, i) == b
    ensures forall k: nat | CoversLast(steps, had, k, i) :: Through(steps, had, b, i) == PutBy(steps[k], i)
    decreases |steps|
  {
    if steps != [] {
      var rest, has := steps[1..], had || MakesSpool(steps[0]);
      var next := if Covers(steps, had, 0, i) then PutBy(steps[0], i) else b;
      ThroughLast(rest, has, next, i);
      hide Covers, PutBy;
      forall k: nat
        ensures Covers(steps, had, k + 1, i) <==> Covers(rest, has, k, i)
      {
        CoversNext(steps, had, k, i);
      }
      if forall k: nat :: !Covers(steps, had, k, i) {
        NoneLater(steps, had, rest, has, i);
      }
      forall k: nat | CoversLast(steps, had, k, i)
        ensures Through(steps, had, b, i) == PutBy(steps[k], i)
      {
        assert forall l: nat :: Covers(rest, has, l, i) ==> Covers(steps, had, l + 1, i);
        if k > 0 {
          assert CoversLast(rest, has, k - 1, i) && rest[k - 1] == steps[k];
        }
      }
    }
  }

  lemma WriteThrough(s: Shadow, off: nat, raw: seq<byte>, fault: Fault, i: nat)
    requires s.work.Some? && Written(s, off, raw, fault).1
    ensures var r := Written(s, off, raw, fault).0;
      && r.work.Some? && r.eof == s.eof
      && At(r.work.value, i) == if off <= i < off + |raw| then raw[i - off] else At(s.work.value, i)
  {
    assert raw[..|raw|] == raw;
  }

  /** A step that succeeds. */
  lemma {:induction false} StepThrough(s: Shadow, op: Op, i: nat)
    requires Did(s, op).1 && i < s.eof
    ensures var r := Did(s, op).0; var steps := StepsOf(op);
      && r.eof >= s.eof && r.work.Some? == HasSpool(steps, s.work.Some?)
      && At(SourceOf(r), i) == Through(steps, s.work.Some?, At(SourceOf(s), i), i)
    decreases op, 1
  {
    match op
    case Write(ib, raw, fault) =>
      hide Written, At;
      OneStep(op, s.work.Some?, At(SourceOf(s), i), i);
      if raw != [] {
        WriteThrough(Spooled(s), ib, raw, fault, i);
        SpoolSame(s, i);
      }
    case Clear(ib, size, fault) =>
      hide Written, At;
      OneStep(op, s.work.Some?, At(SourceOf(s), i), i);
      if size != 0 && s.work.Some? {
        WriteThrough(s, ib, Zeros(size), fault, i);
      }
    case Inner(body) =>
      StepsThrough(Begun(s), body, i);
    case Spool =>
      OneStep(op, s.work.Some?, At(SourceOf(s), i), i);
      SpoolSame(s, i);
    case Grow(_) => OneStep(op, s.work.Some?, At(SourceOf(s), i), i);
    case Stop =>
  }

  lemma SpoolSame(s: Shadow, i: nat)
    requires i < s.eof
    ensures At(SourceOf(Spooled(s)), i) == At(SourceOf(s), i)
  {
  }

  lemma OneStep(op: Op, had: bool, b: byte, i: nat)
    requires !op.Inner?
    ensures HasSpool([op], had) == (had || MakesSpool(op))
    ensures Through([op], had, b, i) == if Covers([op], had, 0, i) then PutBy(op, i) else b
  {
    SpoolFirst([op], had);
  }

  lemma {:induction false} StepsThrough(s: Shadow, ops: seq<Op>, i: nat)
    requires DidAll(s, ops).1 && i < s.eof
    ensures var r := DidAll(s, ops).0; var steps := Steps(ops);
      && r.eof >= s.eof && r.work.Some? == HasSpool(steps, s.work.Some?)
      && At(SourceOf(r), i) == Through(steps, s.work.Some?, At(SourceOf(s), i), i)
    decreases ops, 0
  {
    hide Did, At, Through, HasSpool, Covers;
    if ops == [] {
      NoSteps(s.work.Some?, At(SourceOf(s), i), i);
    } else {
      StepThrough(s, ops[0], i);
      StepsThrough(Did(s, ops[0]).0, ops[1..], i);
      ThroughBoth(StepsOf(ops[0]), Steps(ops[1..]), s.work.Some?, At(SourceOf(s), i), i);
    }
  }

  lemma NoSteps(had: bool, b: byte, i: nat)
    ensures Through([], had, b, i) == b && HasSpool([], had) == had
  {
  }

  /** What a transaction that succeeds leaves. */
  lemma RunLeaves(s: Shadow, body: seq<Op>)
    requires Txn(s, body).1
    ensures LeftBy(Steps(body), s.work.Some?, s.eof, SourceOf(s), SourceOf(Txn(s, body).0))
    ensures Txn(s, body).0.eof == s.eof + Growth(body)
  {
    WhenRuns(Begun(s), body);
    forall i: nat | i < s.eof
      ensures At(SourceOf(Txn(s, body).0), i) == Through(Steps(body), s.work.Some?, At(SourceOf(s), i), i)
    {
      StepsThrough(Begun(s), body, i);
    }
    hide Through, Covers, PutBy, At, CoversLast;
    forall i: nat | i < s.eof
      ensures (forall k: nat :: !Covers(Steps(body), s.work.Some?, k, i)) ==>
        At(SourceOf(Txn(s, body).0), i) == At(SourceOf(s), i)
      ensures forall k: nat | CoversLast(Steps(body), s.work.Some?, k, i) ::
        At(SourceOf(Txn(s, body).0), i) == PutBy(Steps(body)[k], i)
    {
      ThroughLast(Steps(body), s.work.Some?, At(SourceOf(s), i), i);
    }
  }

  /** Which steps run through, and how far they move the end of file. */
  lemma {:induction false} WhenRuns(s: Shadow, ops: seq<Op>)
    ensures DidAll(s, ops).1 ==> DidAll(s, ops).0.eof == s.eof + Growth(ops)
    ensures Faultless(ops) ==> (DidAll(s, ops).1 <==> Fits(ops, s.eof))
    decreases ops, 0
  {
    if ops != [] {
      WhenStep(s, ops[0]);
      hide Did, FitsStep, FaultlessStep, GrowthOf;
      if Did(s, ops[0]).1 {
        WhenRuns(Did(s, ops[0]).0, ops[1..]);
      }
    }
  }

  lemma {:induction false} WhenStep(s: Shadow, op: Op)
    ensures Did(s, op).1 ==> Did(s, op).0.eof == s.eof + GrowthOf(op)
    ensures FaultlessStep(op) ==> (Did(s, op).1 <==> FitsStep(op, s.eof))
    decreases op
  {
    if op.Inner? {
      WhenRuns(Begun(s), op.body);
    }
    hide Growth, Fits, Faultless, DidAll, Owed, Zeros;
  }

  // ---------- when rollback is exact ----------

  /** Steps that start no transaction keep the journal, and every byte outside it. */
  lemma {:induction false} FlatKeeps(s: Shadow, start: File, ops: seq<Op>)
    requires s.work.Some? && s.saved.Some? && Flat(ops[..DidAll(s, ops).2])
    requires forall i: nat | i < s.saved.value.eof && i !in s.saved.value.bytes :: At(s.work.value, i) == At(start, i)
    ensures var r := DidAll(s, ops).0;
      && r.work.Some? && r.saved.Some? && r.saved.value.eof == s.saved.value.eof
      && forall i: nat | i < s.saved.value.eof && i !in r.saved.value.bytes :: At(r.work.value, i) == At(start, i)
    decreases |ops|
  {
    if ops != [] {
      var d := Did(s, ops[0]);
      var n := DidAll(s, ops).2;
      assert ops[..n][0] == ops[0];
      StepKeeps(s, start, ops[0]);
      if d.1 {
        assert ops[1..][..n - 1] == ops[..n][1..];
        hide Did;
        FlatKeeps(d.0, start, ops[1..]);
      }
    }
  }

  lemma StepKeeps(s: Shadow, start: File, op: Op)
    requires s.work.Some? && s.saved.Some? && !op.Inner?
    requires forall i: nat | i < s.saved.value.eof && i !in s.saved.value.bytes :: At(s.work.value, i) == At(start, i)
    ensures var r := Did(s, op).0;
      && r.work.Some? && r.saved.Some? && r.saved.value.eof == s.saved.value.eof
      && forall i: nat | i < s.saved.value.eof && i !in r.saved.value.bytes :: At(r.work.value, i) == At(start, i)
  {
    match op
    case Write(ib, raw, fault) => WriteKeeps(s, start, ib, raw, fault);
    case Clear(ib, size, fault) => WriteKeeps(s, start, ib, Zeros(size), fault);
    case _ =>
  }

  lemma WriteKeeps(s: Shadow, start: File, off: nat, raw: seq<byte>, fault: Fault)
    requires s.work.Some? && s.saved.Some?
    requires forall i: nat | i < s.saved.value.eof && i !in s.saved.value.bytes :: At(s.work.value, i) == At(start, i)
    ensures var r := Written(s, off, raw, fault).0;
      && r.work.Some? && r.saved.Some? && r.saved.value.eof == s.saved.value.eof
      && forall i: nat | i < s.saved.value.eof && i !in r.saved.value.bytes :: At(r.work.value, i) == At(start, i)
  {
    var r := Written(s, off, raw, fault).0;
    forall i: nat | i < s.saved.value.eof && i !in r.saved.value.bytes
      ensures At(r.work.value, i) == At(start, i)
    {
      assert i !in Owed(s.saved, off, |raw|) || r.work == s.work;
    }
  }

  lemma StepEnds(s: Shadow, op: Op)
    requires s.saved.None? || op.Inner?
    ensures Did(s, op).0.saved.None?
  {
    hide DidAll;
  }

  /** A step that starts a transaction ends the journal, and no later step begins one. */
  lemma {:induction false} InnerEnds(s: Shadow, ops: seq<Op>)
    requires !Flat(ops[..DidAll(s, ops).2]) || s.saved.None?
    ensures DidAll(s, ops).0.saved.None?
    decreases |ops|
  {
    if ops != [] {
      var d := Did(s, ops[0]);
      var n := DidAll(s, ops).2;
      if d.1 && n > 0 {
        assert ops[..n] == [ops[0]] + ops[1..][..n - 1];
        assert Flat(ops[..n]) <==> !ops[0].Inner? && Flat(ops[1..][..n - 1]);
        if s.saved.None? || ops[0].Inner? {
          StepEnds(s, ops[0]);
        }
        hide Did;
        InnerEnds(d.0, ops[1..]);
      } else {
        assert ops[..n] == [ops[0]];
        assert Flat(ops[..n]) <==> !ops[0].Inner?;
        StepEnds(s, ops[0]);
      }
    }
  }

  /** What a failed transaction leaves: the file as it was when no inner transaction was started; otherwise the file as
      the started steps left it, cut to its old length. */
  lemma FailedLeaves(s: Shadow, body: seq<Op>)
    requires s.work.Some? && !Txn(s, body).1
    ensures var r := DidAll(Begun(s), body); var left := Txn(s, body).0;
      && left.work.Some? && r.0.work.Some? && left.eof == s.eof
      && left.work.value == if Flat(body[..r.2]) then Resized(s.work.value, s.eof) else Resized(r.0.work.value, s.eof)
  {
    var r := DidAll(Begun(s), body);
    WorkStays(Begun(s), body);
    if Flat(body[..r.2]) {
      FlatKeeps(Begun(s), s.work.value, body);
      var left := Txn(s, body).0.work.value;
      forall i | 0 <= i < s.eof
        ensures left[i] == Resized(s.work.value, s.eof)[i]
      {
        assert At(Resized(s.work.value, s.eof), i) == At(s.work.value, i);
      }
    } else {
      InnerEnds(Begun(s), body);
    }
  }

  /** A spool, once there, stays while the steps run. */
  lemma {:induction false} WorkStays(s: Shadow, ops: seq<Op>)
    requires s.work.Some?
    ensures DidAll(s, ops).0.work.Some?
    decreases ops, 0
  {
    if ops != [] {
      WorkStaysStep(s, ops[0]);
      if Did(s, ops[0]).1 {
        hide Did;
        WorkStays(Did(s, ops[0]).0, ops[1..]);
      }
    }
  }

  lemma {:induction false} WorkStaysStep(s: Shadow, op: Op)
    requires s.work.Some?
    ensures Did(s, op).0.work.Some?
    decreases op
  {
    if op.Inner? {
      WorkStays(Begun(s), op.body);
    }
  }

  /** Bytes one write reaches. */
  ghost function Hit(s: Shadow, off: nat, raw: seq<byte>, fault: Fault): set<nat> {
    if fault.ReadFails? && fault.at in Owed(s.saved, off, |raw|) then {}
    else set i: nat | i < off + Landing(raw, fault) && InExtent(Extent(off, raw), i)
  }

  /** Bytes a step leaves overwritten. It takes a journal of its own to take a write back. */
  ghost function Lands(s: Shadow, op: Op): set<nat>
    decreases op
  {
    match op
    case Write(ib, raw, fault) => if |raw| == 0 || ib + |raw| > s.eof then {} else Hit(s, ib, raw, fault)
    case Clear(ib, size, fault) => if size == 0 then {} else Hit(s, ib, Zeros(size), fault)
    case Inner(body) =>
      if !Txn(s, body).1 && Flat(body[..DidAll(Begun(s), body).2]) then {} else LandsAll(Begun(s), body)
    case _ => {}
  }

  ghost function LandsAll(s: Shadow, ops: seq<Op>): set<nat>
    decreases ops, 0
  {
    if ops == [] then {}
    else Lands(s, ops[0]) + if Did(s, ops[0]).1 then LandsAll(Did(s, ops[0]).0, ops[1..]) else {}
  }

  /** The same, except for what the spool holds. */
  ghost predicate Alike(s: Shadow, t: Shadow) {
    s.io == t.io && s.eof == t.eof && s.saved == t.saved && s.work.Some? && t.work.Some?
  }

  /** From alike states come alike ones; below the old EOF they agree where they did and on `lands`, and the rest is
      untouched. */
  ghost predicate InStep(s: Shadow, t: Shadow, s': Shadow, t': Shadow, lands: set<nat>) {
    && s.work.Some? && t.work.Some? && Alike(s', t') && s'.eof >= s.eof
    && (forall i: nat | i < s.eof && i !in lands :: At(s'.work.value, i) == At(s.work.value, i))
    && forall i: nat | i < s.eof && (At(s.work.value, i) == At(t.work.value, i) || i in lands) ::
         At(s'.work.value, i) == At(t'.work.value, i)
  }

  lemma HitInStep(s: Shadow, t: Shadow, off: nat, raw: seq<byte>, fault: Fault)
    requires Alike(s, t)
    ensures Hit(s, off, raw, fault) == Hit(t, off, raw, fault) &&
      Written(s, off, raw, fault).1 == Written(t, off, raw, fault).1
    ensures InStep(s, t, Written(s, off, raw, fault).0, Written(t, off, raw, fault).0, Hit(s, off, raw, fault))
  {
    hide Owed, Earlier;
  }

  /** No step looks at what the spool holds. */
  lemma {:induction false} StepInStep(s: Shadow, t: Shadow, op: Op)
    requires Alike(s, t)
    ensures Lands(s, op) == Lands(t, op) && Did(s, op).1 == Did(t, op).1
    ensures InStep(s, t, Did(s, op).0, Did(t, op).0, Lands(s, op))
    decreases op
  {
    hide Written, Hit, At, DidAll, Txn;
    match op
    case Write(ib, raw, fault) => HitInStep(s, t, ib, raw, fault);
    case Clear(ib, size, fault) => HitInStep(s, t, ib, Zeros(size), fault);
    case Inner(body) => TxnInStep(s, t, body);
    case _ =>
  }

  lemma {:induction false} TxnInStep(s: Shadow, t: Shadow, body: seq<Op>)
    requires Alike(s, t)
    ensures Lands(s, Inner(body)) == Lands(t, Inner(body)) && Txn(s, body).1 == Txn(t, body).1
    ensures InStep(s, t, Txn(s, body).0, Txn(t, body).0, Lands(s, Inner(body)))
    decreases body, 1
  {
    StepsInStep(Begun(s), Begun(t), body);
    if !Txn(s, body).1 {
      FailedLeaves(s, body);
      FailedLeaves(t, body);
    }
    hide DidAll, LandsAll, At;
  }

  lemma {:induction false} StepsInStep(s: Shadow, t: Shadow, ops: seq<Op>)
    requires Alike(s, t)
    ensures LandsAll(s, ops) == LandsAll(t, ops) && DidAll(s, ops).1 == DidAll(t, ops).1 &&
      DidAll(s, ops).2 == DidAll(t, ops).2
    ensures InStep(s, t, DidAll(s, ops).0, DidAll(t, ops).0, LandsAll(s, ops))
    decreases ops, 0
  {
    hide Did, Lands, At;
    if ops != [] {
      StepInStep(s, t, ops[0]);
      if Did(s, ops[0]).1 {
        StepsInStep(Did(s, ops[0]).0, Did(t, ops[0]).0, ops[1..]);
      }
    }
  }

  /** Byte for byte what the spool held, up to the old EOF. */
  ghost predicate Exact(s: Shadow, body: seq<Op>) {
    s.work.Some? && Txn(s, body).0.work == Some(Resized(s.work.value, s.eof))
  }

  /** When a failed body is rolled back exactly, whatever the spool holds: when it started no inner transaction, or
      left nothing below the old EOF overwritten. In any other case some file shows the difference. */
  lemma RollbackExactly(s: Shadow, body: seq<Op>)
    requires s.work.Some? && !Txn(s, body).1
    ensures (forall f: File :: Exact(s.(work := Some(f)), body)) <==>
            Flat(body[..DidAll(Begun(s), body).2]) || forall i | i in LandsAll(Begun(s), body) :: i >= s.eof
  {
    hide DidAll, LandsAll, Txn;
    if Flat(body[..DidAll(Begun(s), body).2]) || forall i | i in LandsAll(Begun(s), body) :: i >= s.eof {
      forall f: File
        ensures Exact(s.(work := Some(f)), body)
      {
        ExactFrom(s, f, body);
      }
    } else {
      var i :| i in LandsAll(Begun(s), body) && i < s.eof;
      InexactFrom(s, body, i);
    }
  }

  lemma ExactFrom(s: Shadow, f: File, body: seq<Op>)
    requires s.work.Some? && !Txn(s, body).1
    requires Flat(body[..DidAll(Begun(s), body).2]) || forall i | i in LandsAll(Begun(s), body) :: i >= s.eof
    ensures Exact(s.(work := Some(f)), body)
  {
    var t := s.(work := Some(f));
    StepsInStep(Begun(t), Begun(s), body);
    TxnInStep(t, s, body);
    FailedLeaves(t, body);
    hide DidAll, LandsAll, Txn;
    var r := DidAll(Begun(t), body).0.work.value;
    if !Flat(body[..DidAll(Begun(s), body).2]) {
      forall i: nat | i < s.eof
        ensures Resized(r, s.eof)[i] == Resized(f, s.eof)[i]
      {
        assert At(Resized(r, s.eof), i) == At(r, i) == At(f, i) == At(Resized(f, s.eof), i);
      }
      assert Resized(r, s.eof) == Resized(f, s.eof);
    }
  }

  /** Two files that differ in a byte the body leaves overwritten cannot both come back. */
  lemma InexactFrom(s: Shadow, body: seq<Op>, i: nat)
    requires s.work.Some? && !Txn(s, body).1
    requires !Flat(body[..DidAll(Begun(s), body).2]) && i in LandsAll(Begun(s), body) && i < s.eof
    ensures exists f: File :: !Exact(s.(work := Some(f)), body)
  {
    var f := s.work.value;
    var g := Put(f, i, [if At(f, i) == 0 then 1 else 0]);
    var t := s.(work := Some(g));
    assert At(g, i) != At(f, i);
    StepsInStep(Begun(s), Begun(t), body);
    TxnInStep(s, t, body);
    FailedLeaves(s, body);
    FailedLeaves(t, body);
    hide DidAll, LandsAll, Put;
    assert s.(work := Some(f)) == s;
    var a, b := DidAll(Begun(s), body).0.work.value, DidAll(Begun(t), body).0.work.value;
    assert At(Resized(a, s.eof), i) == At(a, i) == At(b, i) == At(Resized(b, s.eof), i);
    assert At(Resized(f, s.eof), i) != At(Resized(g, s.eof), i);
    assert Exact(s.(work := Some(f)), body) ==> Txn(s, body).0.work.value == Resized(f, s.eof);
    assert !Exact(s.(work := Some(f)), body) || !Exact(s.(work := Some(g)), body);
  }

  /** How far a range has been saved. */
  ghost predicate Noted(was: Log, now: Log, off: nat, n: nat, pos: nat, end: nat) {
    && now.eof == was.eof && end <= was.eof && end <= off + n
    && (forall i: nat | off <= i < pos && i < end :: Covered(now, i))
    && (forall i: nat | Covered(now, i) :: Covered(was, i) || (off <= i < pos && i < end))
    && (forall i: nat | Covered(was, i) :: Covered(now, i))
  }

  lemma NotedEof(was: Log, now: Log, off: nat, n: nat, pos: nat, end: nat)
    requires Noted(was, now, off, n, pos, end)
    ensures now.eof == was.eof && end <= was.eof && end <= off + n
  {
    hide Covered;
  }

  /** A stretch starts where the range starts, or next to a byte saved before the call. */
  ghost predicate Parted(was: Log, off: nat, pos: nat, end: nat) {
    pos == off || pos >= end || Covered(was, pos) || (pos > 0 && Covered(was, pos - 1))
  }

  /** From `pos` on nothing was saved in this call, so what is covered there was covered before. */
  lemma NotedFrom(was: Log, now: Log, off: nat, n: nat, pos: nat, end: nat, next: nat, covered: bool)
    requires Noted(was, now, off, n, pos, end) && pos < next
    requires covered ==> forall i | pos <= i < next :: Covered(now, i)
    requires !covered ==>
      next <= end && (forall i | pos <= i < next :: !Covered(now, i)) && (next == end || Covered(now, next))
    ensures Parted(was, off, next, end)
    ensures covered ==> forall i: nat | pos <= i < next :: i !in Owed(SavedOf(Some(was)), off, n)
  {
    assert covered ==> Covered(now, next - 1);
    hide Covered;
  }

  /** What is saved when the stretch from `pos` on cannot be read at `at`. */
  lemma NotedPart(was: Log, now: Log, off: nat, n: nat, pos: nat, end: nat, next: nat, at: nat)
    requires Noted(was, now, off, n, pos, end) && Parted(was, off, pos, end) && off <= pos <= at < next <= end
    requires end == if off + n > was.eof then was.eof else off + n
    requires forall i | pos <= i < next :: !Covered(now, i)
    ensures at in Owed(SavedOf(Some(was)), off, n)
    ensures SavedOf(Some(now)) == Some(Saved(was.eof,
                                             SavedOf(Some(was)).value.bytes + Earlier(SavedOf(Some(was)), off, n, at)))
  {
    hide Covered;
    var owed := Owed(SavedOf(Some(was)), off, n);
    forall i: nat
      ensures i in owed <==> off <= i < end && !Covered(was, i)
    {
    }
    forall i: nat | pos <= i < next
      ensures i in owed
    {
    }
    hide Owed;
    forall i: nat
      ensures i in Earlier(SavedOf(Some(was)), off, n, at) <==> i in owed && i < pos
    {
      if i in owed && i < pos {
        assert pos - 1 !in owed;
      }
    }
    var a, b := SavedOf(Some(now)).value.bytes,
      SavedOf(Some(was)).value.bytes + Earlier(SavedOf(Some(was)), off, n, at);
    hide Earlier;
    assert forall i: nat :: i in a <==> i in b;
    assert a == b;
  }

  lemma JournalSolid(log: Log, start: File)
    requires Journal(log, start)
    ensures forall k | 0 <= k < |log.extents| :: log.extents[k].orig != []
  {
  }

  lemma NotedSkip(was: Log, now: Log, off: nat, n: nat, pos: nat, end: nat, next: nat)
    requires Noted(was, now, off, n, pos, end) && pos <= next && forall i | pos <= i < next :: Covered(now, i)
    ensures Noted(was, now, off, n, next, end)
  {
    hide Covered;
  }

  lemma NotedMore(was: Log, now: Log, off: nat, n: nat, pos: nat, end: nat, next: nat, e: Extent)
    requires Noted(was, now, off, n, pos, end) && off <= pos < next <= end && e.ib == pos && |e.orig| == next - pos
    ensures Noted(was, Log(now.eof, now.extents + [e]), off, n, next, end)
  {
    forall i: nat
      ensures Covered(Log(now.eof, now.extents + [e]), i) <==> Covered(now, i) || InExtent(e, i)
    {
      CoveredMore(now, e, i);
    }
    hide Covered;
  }

  lemma NotedAll(was: Log, now: Log, off: nat, n: nat, pos: nat, end: nat)
    requires Noted(was, now, off, n, pos, end) && pos >= end && end == if off + n > was.eof then was.eof else off + n
    ensures forall i: nat | off <= i < off + n && i < now.eof :: Covered(now, i)
    ensures SavedOf(Some(now)) == Some(Saved(was.eof,
                                             SavedOf(Some(was)).value.bytes + Owed(SavedOf(Some(was)), off, n)))
  {
    hide Covered;
    var a, b := SavedOf(Some(now)).value.bytes, SavedOf(Some(was)).value.bytes + Owed(SavedOf(Some(was)), off, n);
    assert forall i: nat :: i in a <==> i in b;
    assert a == b;
  }

  lemma EmptySaved(eof: nat)
    ensures SavedOf(Some(Log(eof, []))) == Some(Saved(eof, {}))
  {
    assert forall i: nat :: !Covered(Log(eof, []), i);
    assert SavedOf(Some(Log(eof, []))).value.bytes == {};
  }

  lemma EmptyJournal(eof: nat, start: File)
    ensures Journal(Log(eof, []), start) && Untouched(Log(eof, []), start, start)
  {
  }

  lemma JournalMore(log: Log, start: File, now: File, e: Extent)
    requires Journal(log, start) && Untouched(log, start, now)
    requires e.orig != [] && e.ib + |e.orig| <= log.eof && e.orig == Read(now, e.ib, |e.orig|)
    requires forall i | e.ib <= i < e.ib + |e.orig| :: !Covered(log, i)
    ensures var more := Log(log.eof, log.extents + [e]); Journal(more, start) && Untouched(more, start, now)
  {
    var more := Log(log.eof, log.extents + [e]);
    var n := |log.extents|;
    assert more.extents[n] == e && forall k | 0 <= k < n :: more.extents[k] == log.extents[k];
    forall k, i: nat | 0 <= k < |more.extents| && InExtent(more.extents[k], i)
      ensures more.extents[k].orig[i - more.extents[k].ib] == At(start, i)
    {
      if k == n {
        assert !Covered(log, i) && At(now, i) == At(start, i);
      }
    }
    forall j, k, i: nat | 0 <= j < k < |more.extents| && InExtent(more.extents[j], i)
      ensures !InExtent(more.extents[k], i)
    {
      if k == n {
        assert InExtent(log.extents[j], i) && Covered(log, i);
      }
    }
    forall i: nat | i < more.eof && !Covered(more, i)
      ensures At(now, i) == At(start, i)
    {
      CoveredMore(log, e, i);
    }
  }

  /** A failed transaction around another one keeps its write: the inner one took the journal away. */
  method NestedTxnKeepsWrite() returns (before: byte, after: byte)
    ensures before == 7 && after == 9
  {
    var s := new ByteStore(None, Some([7]), 1, false);
    before := At(s.Source(), 0);
    var body := [Inner([]), Write(0, [9], NoFault), Stop];
    NestedRun(s.Sh());
    var ok, ran, clean := s.RunTxn(body);
    after := At(s.Source(), 0);
  }

  lemma NestedRun(s: Shadow)
    requires s == Shadow(None, Some([7]), 1, None)
    ensures var body := [Inner([]), Write(0, [9], NoFault), Stop];
      Txn(s, body) == (Shadow(None, Some([9]), 1, None), false)
  {
    var body := [Inner([]), Write(0, [9], NoFault), Stop];
    var b := Begun(s);
    var s1 := b.(saved := None);
    assert DidAll(Begun(b), []) == (Begun(b), true, 0);
    assert Did(b, Inner([])) == (s1, true);
    var s2 := s1.(work := Some([9]));
    assert Put([7], 0, [9]) == [9];
    assert [9][..1] == [9];
    assert Did(s1, Write(0, [9], NoFault)) == (s2, true);
    assert Did(s2, Stop) == (s2, false);
    assert body[1..] == [Write(0, [9], NoFault), Stop] && body[1..][1..] == [Stop];
    assert DidAll(s2, [Stop]) == (s2, false, 1);
    assert DidAll(s1, body[1..]) == (s2, false, 2);
    assert DidAll(b, body) == (s2, false, 3);
    assert Rewound([9], [7], None, 1) == [9];
  }
}
