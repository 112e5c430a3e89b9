/** Who closes which file: the payload sources of a store across commits (tx.go, own.go, ndb.go). */
module HandleOwnership {
  import opened Common

  datatype Life = Borrowed | Close | Temp

  /** An open ioHandle; `known` sinks can be compared for identity. */
  datatype Handle = Handle(sink: nat, life: Life, known: bool)

  /** A commit destination. A wrapper hides the sink it writes through, so identity tests never match it. */
  datatype Dest = Dest(sink: nat, known: bool)

  predicate Owned(h: Option<Handle>) {
    h.Some? && h.value.life != Borrowed
  }

  predicate Owns(h: Option<Handle>, sink: nat) {
    Owned(h) && h.value.sink == sink
  }

  function OwnedSink(h: Option<Handle>): set<nat> {
    if Owned(h) then {h.value.sink} else {}
  }

  predicate SameIO(d: Dest, h: Handle) {
    d.known && h.known && d.sink == h.sink
  }

  /** retainOwned takes the handle: an owned file dest may still write through, and no other is kept. */
  predicate Kept(hold: Option<Handle>, h: Option<Handle>, dst: Dest) {
    h.Some? && h.value.life == Close && (!dst.known || SameIO(dst, h.value)) && hold.None?
  }

  /** The destination may write through this file of ours. */
  predicate WrittenThrough(h: Option<Handle>, dst: Dest) {
    h.Some? && h.value.life == Close && (!dst.known || SameIO(dst, h.value))
  }

  class Sources {
    /** Whether files can fail. */
    const faulty: bool
    var io: Option<Handle>
    var work: Option<Handle>
    var hold: Option<Handle>
    /** How often each sink was closed. */
    var closes: map<nat, nat>
    /** Sinks some handle ever owned. */
    var born: set<nat>
    /** Sinks that hold every payload of the catalog. */
    var complete: set<nat>
    var nextSink: nat

    ghost predicate Held(sink: nat)
      reads this
    {
      Owns(io, sink) || Owns(work, sink) || Owns(hold, sink)
    }

    /** No leak and no double close: a sink that was ever owned is io, work, hold or `loose`, or was closed exactly
        once. */
    ghost predicate Exact(loose: set<nat>)
      reads this
    {
      && (Owned(io) ==>
          io.value.sink in born && !Owns(work, io.value.sink) && !Owns(hold, io.value.sink) && io.value.sink !in loose)
      && (Owned(work) ==> work.value.sink in born && !Owns(hold, work.value.sink) && work.value.sink !in loose)
      && (Owned(hold) ==> hold.value.sink in born && hold.value.sink !in loose)
      && loose <= born
      && (forall s | s in born :: s < nextSink && Get(closes, s) == if Held(s) || s in loose then 0 else 1)
      && (forall s | s !in born :: Get(closes, s) == 0)
    }

    /** The spool is a temporary file; a retained file only exists while io owns no file. */
    ghost predicate Roles()
      reads this
    {
      && (work.Some? ==> work.value.life == Temp && work.value.known)
      && (work.Some? && io.Some? ==> work.value.sink != io.value.sink)
      && (hold.Some? ==> hold.value.life == Close && hold.value.known)
      && (Owned(io) ==> io.value.known)
      && (hold.Some? && io.Some? ==> io.value.life != Close)
    }

    ghost predicate Open(h: Option<Handle>)
      reads this
    {
      h.Some? ==> h.value.sink < nextSink && Get(closes, h.value.sink) == 0
    }

    /** The handle payloads are read through. */
    function Reader(): Option<Handle>
      reads this
    {
      if work.Some? then work else io
    }

    ghost predicate Complete(h: Option<Handle>)
      reads this
    {
      h.Some? ==> h.value.sink in complete
    }

    /** Besides, the payload source is never closed under the catalog and always complete. */
    ghost predicate Valid()
      reads this
    {
      Exact({}) && Roles() && Open(io) && Complete(Reader())
    }

    /** A store over nothing, over a caller's reader, or over a file OpenNDBFile opened. */
    constructor (source: Option<Handle>, faulty: bool)
      requires source.Some? ==> source.value.life != Temp && (source.value.life == Close ==> source.value.known)
      ensures Valid() && io == source && work == None && hold == None && this.faulty == faulty
    {
      this.faulty := faulty;
      io, work, hold, closes := source, None, None, map[];
      born := if Owned(source) then {source.value.sink} else {};
      complete := if source.Some? then {source.value.sink} else {};
      nextSink := if source.Some? then source.value.sink + 1 else 0;
    }

    method Attempt() returns (ok: bool)
      ensures !faulty ==> ok
    {
      ok := *;
      ok := ok || !faulty;
    }

    /** A file of our own. */
    method Create(ghost loose: set<nat>) returns (sink: nat)
      requires Exact(loose)
      modifies `nextSink, `born
      ensures sink == old(nextSink) && nextSink == sink + 1 && born == old(born) + {sink}
      ensures sink !in loose && Exact(loose + {sink})
    {
      sink := nextSink;
      nextSink := nextSink + 1;
      born := born + {sink};
    }

    /** ioHandle.close: a borrowed handle is left alone. The close itself may report an error; it happened anyway. */
    method CloseHandle(h: Option<Handle>, ghost loose: set<nat>) returns (ok: bool)
      requires Exact(loose) && OwnedSink(h) <= loose
      modifies `closes
      ensures Exact(loose - OwnedSink(h)) && (!faulty ==> ok)
      ensures forall s | s !in OwnedSink(h) :: Get(closes, s) == Get(old(closes), s)
    {
      if h.None? || h.value.life == Borrowed {
        return true;
      }
      closes := closes[h.value.sink := Get(closes, h.value.sink) + 1];
      ok := Attempt();
    }

    /** ensureSpool: a new temporary file seeded with the committed bytes. */
    method EnsureSpool() returns (ok: bool)
      requires Valid()
      modifies `work, `closes, `born, `complete, `nextSink
      ensures Valid() && (ok ==> work.Some?) && (old(work.Some?) || !ok ==> work == old(work))
      ensures Grown(old(nextSink), old(born), old(closes), old(complete))
      ensures ok && old(work.None?) ==> work.value.sink >= old(nextSink)
      ensures !faulty ==> ok
    {
      if work.Some? {
        return true;
      }
      var created := Attempt();
      if !created {
        return false;
      }
      var sink := Create({});
      var h := Some(Handle(sink, Temp, true));
      var seeded := Attempt();
      if !seeded {
        ok := CloseHandle(h, {} + {sink});
        return false;
      }
      complete := complete + {sink};
      work := h;
      return true;
    }

    /** Only new sinks were touched. */
    ghost predicate Grown(next0: nat, born0: set<nat>, closes0: map<nat, nat>, complete0: set<nat>)
      reads this
    {
      && next0 <= nextSink && complete0 <= complete
      && (forall s | s < next0 :: (s in born <==> s in born0) && Get(closes, s) == Get(closes0, s))
    }

    method RetainOwned(h: Option<Handle>, dst: Dest, ghost loose: set<nat>) returns (ok: bool)
      requires Exact(loose) && OwnedSink(h) <= loose
      modifies `hold, `closes
      ensures hold == if Kept(old(hold), h, dst) then h else old(hold)
      ensures Exact(loose - OwnedSink(h)) && (!faulty ==> ok)
      ensures forall s | s !in OwnedSink(h) || Kept(old(hold), h, dst) :: Get(closes, s) == Get(old(closes), s)
    {
      if h.None? {
        return true;
      }
      if h.value.life != Close {
        ok := CloseHandle(h, loose);
        return;
      }
      if dst.known && !SameIO(dst, h.value) {
        ok := CloseHandle(h, loose);
        return;
      }
      if hold.Some? {
        ok := true;
        if hold != h {
          ok := CloseHandle(h, loose);
        }
        return;
      }
      hold := h;
      return true;
    }

    method CloseHold(ghost loose: set<nat>) returns (ok: bool)
      requires Exact(loose)
      modifies `hold, `closes
      ensures hold == None && Exact(loose) && (!faulty ==> ok)
      ensures forall s | s !in OwnedSink(old(hold)) :: Get(closes, s) == Get(old(closes), s)
    {
      var h := hold;
      hold := None;
      ok := CloseHandle(h, loose + OwnedSink(h));
      assert (loose + OwnedSink(h)) - OwnedSink(h) == loose;
    }

    method ReleaseHoldIfDistinct(dst: Dest, ghost loose: set<nat>) returns (ok: bool)
      requires Exact(loose)
      modifies `hold, `closes
      ensures Exact(loose) && (!faulty ==> ok)
      ensures hold == if old(hold).Some? && dst.known && !SameIO(dst, old(hold).value) then None else old(hold)
      ensures forall s | !(dst.known && s in OwnedSink(old(hold)) && !SameIO(dst, old(hold).value)) ::
        Get(closes, s) == Get(old(closes), s)
    {
      if hold.None? || !dst.known || SameIO(dst, hold.value) {
        return true;
      }
      ok := CloseHold(loose);
    }

    /** The body of a commit up to its image, which `encodes` or not, creates the spool when it clears or writes an
        extent, and need not do either; a failure takes a new spool away again. */
    method Prepare(encodes: bool) returns (ok: bool)
      requires Valid()
      modifies `work, `closes, `born, `complete, `nextSink
      ensures Valid() && Grown(old(nextSink), old(born), old(closes), old(complete))
      ensures old(work.Some?) || !ok ==> work == old(work)
      ensures ok && old(work.None?) && work.Some? ==> work.value.sink >= old(nextSink)
      ensures (ok ==> encodes) && (encodes && !faulty ==> ok)
    {
      var hadWork := work.Some?;
      ok := true;
      var writes: bool := *;
      if writes {
        ok := EnsureSpool();
      }
      if ok {
        ok := Attempt();
        ok := ok && encodes;
      }
      if !ok {
        DropNewSpool(hadWork);
      }
    }

    /** restoreSource without an earlier spool. */
    method DropNewSpool(hadWork: bool)
      requires Valid() && (!hadWork ==> Complete(io))
      modifies `work, `closes
      ensures Valid() && (if hadWork then work == old(work) else work == None)
      ensures forall s | hadWork || s !in OwnedSink(old(work)) :: Get(closes, s) == Get(old(closes), s)
    {
      if !hadWork && work.Some? {
        var h := work;
        work := None;
        var closed := CloseHandle(h, OwnedSink(h));
        assert OwnedSink(h) - OwnedSink(h) == {};
      }
    }

    /** A destination the caller may pass: open, and none of our temporary files except the spool itself. */
    ghost predicate Offered(dst: Dest)
      reads this
    {
      && Get(closes, dst.sink) == 0 && dst.sink < nextSink
      && (io.Some? && io.value.life == Temp ==> io.value.sink != dst.sink)
      && (Owns(work, dst.sink) ==> dst.known)
    }

    /** CommitTo: afterwards the source is the destination once it is complete, else a complete stage, else what it
        was. A file of ours is held exactly as long as the destination may write through it. */
    method CommitTo(dst: Dest, encodes: bool) returns (r: Result<()>)
      requires Valid() && Offered(dst)
      modifies this
      ensures Valid()
      ensures r == Err(Unsupported) <==> old(work.Some?) && SameIO(dst, old(work).value)
      ensures r == Err(Unsupported) ==> io == old(io) && work == old(work) && hold == old(hold) && closes == old(closes)
      ensures r.Ok? || r == Err(CleanupFailed) ==> io == Some(Handle(dst.sink, Borrowed, dst.known)) && work == None
      ensures r.Err? && r != Err(CleanupFailed) ==>
        (io == old(io) && work == old(work) && hold == old(hold)) ||
        (Owned(io) && io.value.life == Temp && work == None)
      ensures r.Ok? || r == Err(CleanupFailed) ==> Holds(old(hold), old(io), dst)
      ensures !encodes ==> r.Err? && r != Err(CleanupFailed)
      ensures encodes && !faulty ==> r.Ok? || r == Err(Unsupported)
    {
      hide Holds, WrittenThrough, Grown;
      if work.Some? && SameIO(dst, work.value) {
        return Err(Unsupported);
      }
      var created := Attempt();
      if !created {
        return Err(Io);
      }
      var hadWork := work.Some?;
      var prepared := Prepare(encodes);
      if !prepared {
        return Err(Io);
      }
      var sink := Create({});
      var stage := Some(Handle(sink, Temp, true));
      var staged := Attempt();
      if !staged {
        var discarded := CloseHandle(stage, {} + {sink});
        assert ({} + {sink}) - OwnedSink(stage) == {};
        DropNewSpool(hadWork);
        return Err(Io);
      }
      complete := complete + {sink};
      r := Publish(dst, stage);
    }

    /** From the finished stage on: install it as the source, write the destination, then adopt it. */
    method Publish(dst: Dest, stage: Option<Handle>) returns (r: Result<()>)
      requires Exact({} + OwnedSink(stage)) && Roles() && Open(io)
      requires stage.Some? && stage.value.life == Temp && stage.value.known && stage.value.sink != dst.sink
      requires Get(closes, dst.sink) == 0 && dst.sink < nextSink && stage.value.sink in complete
      requires io.Some? && io.value.life == Temp ==> io.value.sink != dst.sink
      requires !Owns(work, dst.sink)
      modifies this
      ensures Valid()
      ensures r.Ok? || r == Err(CleanupFailed) || r == Err(Io)
      ensures r.Ok? || r == Err(CleanupFailed) ==> io == Some(Handle(dst.sink, Borrowed, dst.known)) && work == None
      ensures r == Err(Io) ==> io == stage && work == None
      ensures r.Ok? || r == Err(CleanupFailed) ==> Holds(old(hold), old(io), dst)
      ensures r == Err(Io) ==> hold == if WrittenThrough(old(io), dst) then old(io) else old(hold)
      ensures !faulty ==> r.Ok?
    {
      var oldWork, oldIO := work, io;
      work, io := None, stage;
      assert Exact(OwnedSink(oldWork) + OwnedSink(oldIO));
      complete := complete - {dst.sink};
      var published := Attempt();
      if !published {
        KeepStage(dst, oldWork, oldIO);
        return Err(Io);
      }
      complete := complete + {dst.sink};
      r := AdoptPublished(dst, oldWork, oldIO);
    }

    /** The handles a commit displaced: the old spool and the old source. */
    ghost predicate Displaced(dst: Dest, oldWork: Option<Handle>, oldIO: Option<Handle>)
      reads this
    {
      && Exact(OwnedSink(oldWork) + OwnedSink(oldIO)) && work == None && io.Some? && io.value.life == Temp &&
         io.value.known
      && Open(io) && io.value.sink in complete
      && (hold.Some? ==> hold.value.life == Close && hold.value.known && (oldIO.Some? ==> oldIO.value.life != Close))
      && (Owned(oldIO) ==> oldIO.value.known)
      && OwnedSink(oldWork) !! OwnedSink(oldIO)
    }

    method KeepStage(dst: Dest, oldWork: Option<Handle>, oldIO: Option<Handle>)
      requires Displaced(dst, oldWork, oldIO)
      modifies `hold, `closes
      ensures Valid() && hold == if WrittenThrough(oldIO, dst) then oldIO else old(hold)
    {
      ghost var loose := OwnedSink(oldWork) + OwnedSink(oldIO);
      assert loose - OwnedSink(oldWork) == OwnedSink(oldIO);
      var c1 := CloseHandle(oldWork, loose);
      assert OwnedSink(oldIO) - OwnedSink(oldIO) == {};
      var c2 := RetainOwned(oldIO, dst, OwnedSink(oldIO));
    }

    /** What is held is one of the two, and exactly the one the destination may write through. */
    ghost predicate Holds(oldHold: Option<Handle>, oldIO: Option<Handle>, dst: Dest)
      reads `hold
    {
      && (hold.Some? ==> WrittenThrough(hold, dst) && (hold == oldHold || hold == oldIO))
      && (WrittenThrough(oldHold, dst) ==> hold == oldHold) && (WrittenThrough(oldIO, dst) ==> hold == oldIO)
    }

    /** adoptPublished: the destination is the source from now on, and stays open whatever else is closed. */
    method AdoptPublished(dst: Dest, oldWork: Option<Handle>, oldIO: Option<Handle>) returns (r: Result<()>)
      requires Displaced(dst, oldWork, oldIO)
      requires Get(closes, dst.sink) == 0 && dst.sink < nextSink && dst.sink in complete && dst.sink != io.value.sink
      requires !Owns(oldWork, dst.sink) && (oldIO.Some? && oldIO.value.life == Temp ==> oldIO.value.sink != dst.sink)
      modifies `io, `hold, `closes
      ensures Valid() && (r.Ok? || r == Err(CleanupFailed)) && io == Some(Handle(dst.sink, Borrowed, dst.known))
      ensures Holds(old(hold), oldIO, dst) && (!faulty ==> r.Ok?)
    {
      var stage := io;
      io := Some(Handle(dst.sink, Borrowed, dst.known));
      ghost var loose := OwnedSink(stage) + OwnedSink(oldWork) + OwnedSink(oldIO);
      assert Exact(loose);
      assert loose - OwnedSink(stage) == OwnedSink(oldWork) + OwnedSink(oldIO);
      var c1 := CloseHandle(stage, loose);
      assert (OwnedSink(oldWork) + OwnedSink(oldIO)) - OwnedSink(oldWork) == OwnedSink(oldIO);
      var c2 := CloseHandle(oldWork, OwnedSink(oldWork) + OwnedSink(oldIO));
      assert OwnedSink(oldIO) - OwnedSink(oldIO) == {};
      var c3 := RetainOwned(oldIO, dst, OwnedSink(oldIO));
      var c4 := ReleaseHoldIfDistinct(dst, {});
      return if c1 && c2 && c3 && c4 then Ok(()) else Err(CleanupFailed);
    }

    /** CommitFile: a renamed file is adopted as the one owned source, or the sources stay as they were. */
    method CommitFile(encodes: bool) returns (r: Result<()>)
      requires Valid()
      modifies this
      ensures Valid() && (!encodes ==> r == Err(Io)) && (encodes && !faulty ==> r.Ok?)
      ensures r.Ok? || r == Err(CleanupFailed) ==> Owned(io) && io.value.life == Close && work == None && hold == None
      ensures r == Err(Io) ==> io == old(io) && work == old(work) && hold == old(hold)
      ensures r == Err(AdoptFailed) ==> io == old(io) && hold == old(hold)
    {
      var created := Attempt();
      if !created {
        return Err(Io);
      }
      var hadWork := work.Some?;
      var prepared := Prepare(encodes);
      var tmp := Create({});
      var t := Some(Handle(tmp, Close, true));
      var written := Attempt();
      var closed := CloseHandle(t, {} + {tmp});
      assert ({} + {tmp}) - OwnedSink(t) == {};
      var renamed := Attempt();
      if !prepared || !written || !closed || !renamed {
        DropNewSpool(hadWork);
        return Err(Io);
      }
      var reopened := Attempt();
      if !reopened {
        return Err(AdoptFailed);
      }
      r := Adopt();
    }

    method Adopt() returns (r: Result<()>)
      requires Valid()
      modifies this
      ensures Valid() && (r.Ok? || r == Err(CleanupFailed)) && (!faulty ==> r.Ok?)
      ensures Owned(io) && io.value.life == Close && work == None && hold == None
    {
      var sk := Create({});
      complete := complete + {sk};
      var oldWork, oldIO := work, io;
      ghost var loose := OwnedSink(oldWork) + OwnedSink(oldIO);
      work, io := None, Some(Handle(sk, Close, true));
      assert Exact(loose);
      var c1 := CloseHandle(oldWork, loose);
      var c2 := CloseHandle(oldIO, loose - OwnedSink(oldWork));
      assert loose - OwnedSink(oldWork) - OwnedSink(oldIO) == {};
      var c3 := CloseHold({});
      return if c1 && c2 && c3 then Ok(()) else Err(CleanupFailed);
    }

    /** Close: every sink that was ever owned has been closed exactly once, and no other. */
    method Shutdown()
      requires Valid()
      modifies this
      ensures forall s :: Get(closes, s) == if s in born then 1 else 0
      ensures born == old(born)
    {
      var oldWork, oldIO := work, io;
      ghost var loose := OwnedSink(oldWork) + OwnedSink(oldIO);
      work := None;
      if Owned(io) {
        io := None;
      }
      assert Exact(loose);
      var c1 := CloseHandle(oldWork, loose);
      var c2 := CloseHandle(oldIO, loose - OwnedSink(oldWork));
      assert loose - OwnedSink(oldWork) - OwnedSink(oldIO) == {};
      var c3 := CloseHold({});
    }
  }
}
