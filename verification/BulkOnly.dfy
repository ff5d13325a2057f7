/**
 USB Bulk-Only Transport, host and device: one command is a CBW, a data stage and a CSW
 (section 5.3 of the USB Mass Storage Class Bulk-Only Transport 1.0). The device answers
 every transfer as it likes, but never sends more data than the CBW announced (section
 6.7); what it may do next is its phase. Everything that crosses the bus is an event, and
 the device keeps the trace of them.
 */
module BulkOnly {

  const MSC_XFER_CHUNK := 16 * 1024
  const CSW_SIZE := 13

  type Bytes = seq<bv8>

  /** What the host makes of the CSW of the command with that tag: signature, tag and status are any. */
  type Check = (nat, Bytes) -> bool

  datatype Endpoint = In | Out
  datatype Status = Completed(payload: Bytes) | Stalled | Failed
  datatype Err = Ok | InvalidSize | Stall | Internal | InvalidCrc

  /** What the device is ready for: a CBW, a piece of the data stage, or to hand over its CSW. */
  datatype Phase = Idle | Data | HoldsCsw

  /** What crosses the bus and how it ends; `after` is the phase it leaves the device in. */
  datatype Event =
    | Cbw(read: bool, len: nat, ok: bool, after: Phase)
    | InXfer(size: nat, st: Status, after: Phase)
    | OutXfer(data: Bytes, st: Status, after: Phase)
    | Clear(ep: Endpoint, ok: bool)
    | Reset(after: Phase, halted: bool)

  // ----- The device -----

  /**
   `want` is the length the current CBW announced, `log` the data of its data stage in the
   order it crossed the bus, and `done` the data of the READ commands before it.
   */
  datatype Dev = Dev(phase: Phase, haltIn: bool, haltOut: bool, want: nat, log: Bytes, reading: bool, done: seq<Bytes>)
  {
    predicate Valid() {
      phase == Data ==> |log| < want
    }

    /** Ready for the next command: nothing unread, nothing halted on the way in. */
    predicate InPhase() {
      phase == Idle && !haltIn
    }

    /** What each READ command so far has sent. */
    function Reads(): seq<Bytes> {
      if reading then done + [log] else done
    }

    /** Bus errors, resets and commands out of turn: the device may be anywhere. */
    predicate Anywhere(after: Phase) {
      after == Data ==> |log| < want
    }

    predicate Possible(e: Event) {
      match e
      case Cbw(_, len, ok, after) =>
        && (ok ==> !haltOut)
        && (if phase == Idle && ok then after == (if len > 0 then Data else HoldsCsw) else after == Data ==> len > 0)
      case InXfer(size, st, after) => PossibleIn(size, st, after)
      case OutXfer(data, st, after) => PossibleOut(data, st, after)
      case Clear(_, _) => true
      case Reset(after, _) => Anywhere(after)
    }

    /** Any part of what is left, less than asked for only to end the stage; and the CSW is gone once it was sent. */
    predicate PossibleIn(size: nat, st: Status, after: Phase) {
      match st
      case Stalled => after == if !haltIn && phase == Data then HoldsCsw else phase
      case Failed => !haltIn && Anywhere(after)
      case Completed(p) =>
        && !haltIn && |p| <= size && phase != Idle
        && (phase == HoldsCsw ==> after == Idle)
        && (phase == Data ==> |log| + |p| <= want && after != Idle
                              && (|p| < size || |log| + |p| == want ==> after == HoldsCsw))
    }

    predicate PossibleOut(data: Bytes, st: Status, after: Phase) {
      match st
      case Stalled => after == if !haltOut && phase == Data then HoldsCsw else phase
      case Failed => !haltOut && Anywhere(after)
      case Completed(_) =>
        !haltOut && phase == Data && after != Idle && (|log| + |data| >= want ==> after == HoldsCsw)
    }

    function After(e: Event): Dev {
      match e
      case Cbw(read, len, _, after) => Dev(after, haltIn, haltOut, len, [], read, Reads())
      case InXfer(_, st, after) =>
        this.(phase := after, haltIn := st == Stalled, log := if phase == Data && st.Completed? then log + st.payload else log)
      case OutXfer(data, st, after) =>
        this.(phase := after, haltOut := st == Stalled, log := if st.Completed? then log + data else log)
      case Clear(ep, ok) => if !ok then this else if ep == In then this.(haltIn := false) else this.(haltOut := false)
      case Reset(after, halted) => this.(phase := after, haltIn := halted, haltOut := halted)
    }
  }

  const FRESH := Dev(Idle, false, false, 0, [], false, [])

  /** The device can answer with these events, one after another. */
  ghost predicate Plays(s: Dev, t: seq<Event>) {
    t != [] ==> Plays(s, t[..|t| - 1]) && Final(s, t[..|t| - 1]).Possible(t[|t| - 1])
  }

  ghost function Final(s: Dev, t: seq<Event>): Dev {
    if t == [] then s else Final(s, t[..|t| - 1]).After(t[|t| - 1])
  }

  class Device {
    var s: Dev
    var trace: seq<Event>

    constructor ()
      ensures s == FRESH && trace == []
    {
      s, trace := FRESH, [];
    }

    /** One more event, which is `e`. */
    ghost predicate Answered(s0: Dev, trace0: seq<Event>, e: Event)
      reads this
    {
      s0.Possible(e) && s == s0.After(e) && s.Valid() && trace == trace0 + [e]
    }

    method TakeCbw(read: bool, len: nat) returns (ok: bool, ghost e: Event)
      requires s.Valid()
      modifies this
      ensures Answered(old(s), old(trace), e) && e == Cbw(read, len, ok, s.phase)
    {
      assert s.Possible(Cbw(read, len, false, Idle));
      var x :| s.Possible(x) && x.Cbw? && x.read == read && x.len == len;
      s, trace, ok, e := s.After(x), trace + [x], x.ok, x;
    }

    /** One bulk IN transfer of up to `size` bytes. */
    method BulkIn(size: nat) returns (st: Status, ghost e: Event)
      requires s.Valid()
      modifies this
      ensures Answered(old(s), old(trace), e) && e == InXfer(size, st, s.phase)
    {
      assert s.Possible(InXfer(size, Stalled, if !s.haltIn && s.phase == Data then HoldsCsw else s.phase));
      var x :| s.Possible(x) && x.InXfer? && x.size == size;
      s, trace, st, e := s.After(x), trace + [x], x.st, x;
    }

    /** One bulk OUT transfer of `data`. */
    method BulkOut(data: Bytes) returns (st: Status, ghost e: Event)
      requires s.Valid()
      modifies this
      ensures Answered(old(s), old(trace), e) && e == OutXfer(data, st, s.phase)
    {
      assert s.Possible(OutXfer(data, Stalled, if !s.haltOut && s.phase == Data then HoldsCsw else s.phase));
      var x :| s.Possible(x) && x.OutXfer? && x.data == data;
      s, trace, st, e := s.After(x), trace + [x], x.st, x;
    }

    method ClearFeature(ep: Endpoint) returns (ok: bool, ghost e: Event)
      requires s.Valid()
      modifies this
      ensures Answered(old(s), old(trace), e) && e == Clear(ep, ok)
    {
      ok := *;
      e := Clear(ep, ok);
      s, trace := s.After(Clear(ep, ok)), trace + [Clear(ep, ok)];
    }

    method ResetRecovery() returns (ghost e: Event)
      requires s.Valid()
      modifies this
      ensures Answered(old(s), old(trace), e) && e.Reset?
    {
      assert s.Possible(Reset(Idle, false));
      var x :| s.Possible(x) && x.Reset?;
      s, trace, e := s.After(x), trace + [x], x;
    }
  }

  // ----- The host's side of one command -----

  /** How a command ended: without its CBW, without a halt cleared, or with its status stage, `again` if at the second try. */
  datatype Outcome = NoCbw | NotCleared | Ended(data: Err, again: bool, csw: Err)

  /** What the host does next in a command; `Off` is what it never does. */
  datatype Host =
    | Start | Piece(off: nat) | ClearData | GetStatus(data: Err) | ClearStatus(data: Err)
    | GetAgain(data: Err) | Recover(data: Err, csw: Err) | Done(outcome: Outcome) | Off

  function InErr(size: nat, st: Status): Err {
    match st
    case Completed(p) => if |p| == size then Ok else InvalidSize
    case Stalled => Stall
    case Failed => Internal
  }

  function OutErr(st: Status): Err {
    match st case Completed(_) => Ok case Stalled => Stall case Failed => Internal
  }

  function PieceLen(size: nat, off: nat): nat
    requires off <= size
  {
    if size - off > MSC_XFER_CHUNK then MSC_XFER_CHUNK else size - off
  }

  function NextPiece(size: nat, off: nat): Host {
    if off >= size then GetStatus(Ok) else Piece(off)
  }

  /** After a piece of the data stage: the next one, or the status whatever it was, a stall cleared first. */
  function AfterPiece(size: nat, off: nat, err: Err): Host
    requires off < size
  {
    if err == Ok then NextPiece(size, off + PieceLen(size, off)) else if err == Stall then ClearData else GetStatus(err)
  }

  function HostStep(h: Host, e: Event, size: nat, ep: Endpoint): Host {
    match h
    case Start => if e.Cbw? && e.len == size then (if e.ok then NextPiece(size, 0) else Done(NoCbw)) else Off
    case Piece(off) =>
      if off >= size then Off
      else if ep == In && e.InXfer? && e.size == PieceLen(size, off) then AfterPiece(size, off, InErr(e.size, e.st))
      else if ep == Out && e.OutXfer? && |e.data| == PieceLen(size, off) then AfterPiece(size, off, OutErr(e.st))
      else Off
    case ClearData => if e.Clear? && e.ep == ep then (if e.ok then GetStatus(Stall) else Done(NotCleared)) else Off
    case GetStatus(d) =>
      if !(e.InXfer? && e.size == CSW_SIZE) then Off
      else if e.st == Stalled then ClearStatus(d) else Done(Ended(d, false, InErr(CSW_SIZE, e.st)))
    case ClearStatus(d) => if e.Clear? && e.ep == In then (if e.ok then GetAgain(d) else Done(NotCleared)) else Off
    case GetAgain(d) =>
      if !(e.InXfer? && e.size == CSW_SIZE) then Off
      else if InErr(CSW_SIZE, e.st) == Ok then Done(Ended(d, true, Ok)) else Recover(d, InErr(CSW_SIZE, e.st))
    case Recover(d, c) => if e.Reset? then Done(Ended(d, true, c)) else Off
    case Done(_) => Off
    case Off => Off
  }

  ghost function HostAfter(t: seq<Event>, size: nat, ep: Endpoint): Host {
    if t == [] then Start else HostStep(HostAfter(t[..|t| - 1], size, ep), t[|t| - 1], size, ep)
  }

  /** The trace of one whole command, as the host issues it and the device may answer it. */
  ghost predicate IsCommand(s: Dev, t: seq<Event>, size: nat, ep: Endpoint, o: Outcome) {
    Plays(s, t) && HostAfter(t, size, ep) == Done(o)
  }

  // ----- When a command leaves the device in phase -----

  /** The outcomes after which the device is in phase, whatever it did. */
  ghost predicate InPhaseAfter(o: Outcome, size: nat) {
    o.Ended? &&
    if o.again then o.csw == Ok
    else (o.csw == Ok && (o.data == Internal ==> size < CSW_SIZE)) || (o.csw == InvalidSize && o.data != Internal)
  }

  /**
   Where the device can be while the host is at `h`. The command need not have begun in phase:
   the CBW starts the device afresh. With the way in `halted` from before, the data stage
   stalls at once and its data may still be to come.
   */
  ghost predicate Tracks(s: Dev, h: Host, size: nat, ep: Endpoint, halted: bool) {
    && s.Valid()
    && match h
       case Start => s.haltIn && !s.haltOut ==> halted && ep == In
       case Piece(off) =>
         && s.want == size && off < size && !s.haltOut && (s.phase == Data ==> |s.log| == off)
         && (s.haltIn ==> halted && ep == In && off == 0)
       case ClearData => size > 0 && (s.phase == Data ==> halted && ep == In) && (ep == Out ==> !s.haltIn)
       case GetStatus(d) =>
         && (d != Ok ==> size > 0) && (s.haltIn ==> size == 0)
         && (s.phase == Data ==> (d == Internal && s.want == size) || (halted && d == Stall))
       case ClearStatus(d) => s.phase != Data
       case GetAgain(d) => !s.haltIn && s.phase != Data
       case Recover(_, c) => c != Ok
       case Done(o) => InPhaseAfter(o, size) && (halted && o.data == Stall ==> o.again) ==> s.InPhase()
       case Off => true
  }

  lemma TracksStep(s: Dev, h: Host, e: Event, size: nat, ep: Endpoint, halted: bool)
    requires Tracks(s, h, size, ep, halted) && s.Possible(e)
    ensures Tracks(s.After(e), HostStep(h, e, size, ep), size, ep, halted)
  {
  }

  lemma {:induction false} TracksRun(s: Dev, t: seq<Event>, size: nat, ep: Endpoint, halted: bool)
    requires Tracks(s, Start, size, ep, halted) && Plays(s, t)
    ensures Tracks(Final(s, t), HostAfter(t, size, ep), size, ep, halted)
  {
    if t != [] {
      var init := t[..|t| - 1];
      TracksRun(s, init, size, ep, halted);
      TracksStep(Final(s, init), HostAfter(init, size, ep), t[|t| - 1], size, ep, halted);
    }
  }

  /** What the way a command goes tells of the state `s0` it began in. */
  ghost predicate Joint(s0: Dev, s: Dev, h: Host, size: nat, ep: Endpoint) {
    && s.Valid()
    && match h
       case Start => s == s0
       case Piece(off) => size > 0 && !s.haltOut && if ep == In then s.haltIn == s0.haltIn else s0.InPhase() ==> !s.haltIn && s.phase != Idle
       case ClearData => size > 0 && if ep == In then s.haltIn else s0.InPhase() ==> !s.haltIn && s.phase == HoldsCsw
       case GetStatus(d) => DataTells(s0, d, size, ep)
       case ClearStatus(d) => s.haltIn && DataTells(s0, d, size, ep)
       case GetAgain(d) => DataTells(s0, d, size, ep)
       case Recover(d, c) => c != Ok && c != InvalidCrc && DataTells(s0, d, size, ep)
       case Done(o) => JointEnd(s0, s, o, size, ep)
       case Off => true
  }

  ghost predicate DataTells(s0: Dev, d: Err, size: nat, ep: Endpoint) {
    (d != Ok ==> size > 0) && (ep == In && s0.haltIn && size > 0 ==> d == Stall)
  }

  ghost predicate JointEnd(s0: Dev, s: Dev, o: Outcome, size: nat, ep: Endpoint) {
    && (o == NotCleared && ep == In ==> s.haltIn)
    && (o == NotCleared && s0.InPhase() ==> !s.InPhase())
    && (!s0.haltIn && s.haltIn && !s.haltOut ==> o == NotCleared)
    && (o.Ended? ==> DataTells(s0, o.data, size, ep) && o.csw != InvalidCrc && (o.csw == Stall ==> o.again))
  }

  lemma JointStep(s0: Dev, s: Dev, h: Host, e: Event, size: nat, ep: Endpoint)
    requires Joint(s0, s, h, size, ep) && s.Possible(e)
    ensures Joint(s0, s.After(e), HostStep(h, e, size, ep), size, ep)
  {
  }

  lemma {:induction false} JointRun(s: Dev, t: seq<Event>, size: nat, ep: Endpoint)
    requires s.Valid() && Plays(s, t)
    ensures Joint(s, Final(s, t), HostAfter(t, size, ep), size, ep)
  {
    if t != [] {
      var init := t[..|t| - 1];
      JointRun(s, init, size, ep);
      JointStep(s, Final(s, init), HostAfter(init, size, ep), t[|t| - 1], size, ep);
    }
  }

  lemma Appended(s: Dev, t: seq<Event>, e: Event, size: nat, ep: Endpoint)
    ensures Plays(s, t + [e]) <==> Plays(s, t) && Final(s, t).Possible(e)
    ensures Final(s, t + [e]) == Final(s, t).After(e)
    ensures HostAfter(t + [e], size, ep) == HostStep(HostAfter(t, size, ep), e, size, ep)
  {
    assert (t + [e])[..|t|] == t;
  }

  /** The same command, but its last event leaves the device holding its status. */
  lemma LeftHolding(s: Dev, t: seq<Event>, size: nat, ep: Endpoint, o: Outcome, last: Event) returns (t': seq<Event>)
    requires IsCommand(s, t, size, ep, o)
    requires HostStep(HostAfter(t[..|t| - 1], size, ep), last, size, ep) == Done(o)
    requires Final(s, t[..|t| - 1]).Possible(last) && !Final(s, t[..|t| - 1]).After(last).InPhase()
    ensures IsCommand(s, t', size, ep, o) && !Final(s, t').InPhase()
  {
    t' := t[..|t| - 1] + [last];
    Appended(s, t[..|t| - 1], last, size, ep);
  }

  lemma LastEvent(s: Dev, t: seq<Event>, size: nat, ep: Endpoint, o: Outcome)
    requires IsCommand(s, t, size, ep, o)
    ensures t != []
    ensures var (h, e) := (HostAfter(t[..|t| - 1], size, ep), t[|t| - 1]);
            && HostStep(h, e, size, ep) == Done(o)
            && (o == NoCbw ==> e.Cbw? && !e.ok)
            && (o.Ended? && o.again && o.csw != Ok ==> e.Reset?)
            && (o.Ended? && !o.again && o.csw == Internal ==> e.InXfer? && e.st == Failed)
  {
  }

  /** A data stage that the bus broke off at once, and what the device then makes of the status stage. */
  function Broken(size: nat, ep: Endpoint, st: Status, after: Phase): seq<Event>
    requires size > 0
  {
    var n := PieceLen(size, 0);
    [Cbw(true, size, true, Data), if ep == In then InXfer(n, Failed, Data) else OutXfer(seq(n, _ => 0), Failed, Data),
     InXfer(CSW_SIZE, st, after)]
  }

  lemma BrokenRuns(s: Dev, size: nat, ep: Endpoint, st: Status, after: Phase)
    requires s.Valid() && !s.haltIn && !s.haltOut && size > 0 && st.Completed? && |st.payload| <= CSW_SIZE && |st.payload| <= size
    requires after == if |st.payload| < CSW_SIZE || |st.payload| == size then HoldsCsw else Data
    ensures IsCommand(s, Broken(size, ep, st, after), size, ep, Ended(Internal, false, InErr(CSW_SIZE, st)))
    ensures !Final(s, Broken(size, ep, st, after)).InPhase()
  {
    var t := Broken(size, ep, st, after);
    Appended(s, [], t[0], size, ep);
    Appended(s, [t[0]], t[1], size, ep);
    Appended(s, [t[0], t[1]], t[2], size, ep);
    assert [] + [t[0]] == [t[0]] && [t[0]] + [t[1]] == [t[0], t[1]] && [t[0], t[1]] + [t[2]] == t;
  }

  /** A command that got beyond its CBW found the way out not halted. */
  lemma {:induction false} CbwTaken(s: Dev, t: seq<Event>, size: nat, ep: Endpoint)
    requires Plays(s, t) && !(HostAfter(t, size, ep) in {Start, Done(NoCbw), Off})
    ensures !s.haltOut
  {
    var init := t[..|t| - 1];
    if HostAfter(init, size, ep) == Start {
      StartIsEmpty(init, size, ep);
    } else {
      CbwTaken(s, init, size, ep);
    }
  }

  lemma StartIsEmpty(t: seq<Event>, size: nat, ep: Endpoint)
    requires HostAfter(t, size, ep) == Start
    ensures t == []
  {
  }

  /** A command that ended so, and in which the device is not in phase afterwards. */
  lemma CanDesync(s: Dev, t: seq<Event>, size: nat, ep: Endpoint, o: Outcome) returns (t': seq<Event>)
    requires s.Valid() && (s.InPhase() || ep == In) && IsCommand(s, t, size, ep, o) && !InPhaseAfter(o, size)
    ensures IsCommand(s, t', size, ep, o) && !Final(s, t').InPhase()
  {
    JointRun(s, t, size, ep);
    LastEvent(s, t, size, ep, o);
    var e := t[|t| - 1];
    if o == NotCleared {
      t' := t;
    } else if o == NoCbw {
      t' := LeftHolding(s, t, size, ep, o, Cbw(e.read, size, false, HoldsCsw));
    } else if o.again {
      t' := LeftHolding(s, t, size, ep, o, Reset(HoldsCsw, false));
    } else if o.csw == Internal {
      t' := LeftHolding(s, t, size, ep, o, InXfer(CSW_SIZE, Failed, HoldsCsw));
    } else {
      CbwTaken(s, t, size, ep);
      var payload: Bytes := if o.csw == Ok then seq(CSW_SIZE, _ => 0) else [];
      var after := if |payload| < CSW_SIZE || |payload| == size then HoldsCsw else Data;
      BrokenRuns(s, size, ep, Completed(payload), after);
      t' := Broken(size, ep, Completed(payload), after);
    }
  }

  /**
   A command begun with the way in not halted is sure to end in phase exactly when its CSW
   was read at the second try; or at the first, whole or short, with a data stage the bus did
   not break off; or whole at the first after one that was broken off and too short to be
   taken for a CSW. A command that sends must also have begun in phase.
   */
  lemma InPhaseExactly(s: Dev, t: seq<Event>, size: nat, ep: Endpoint, o: Outcome)
    requires s.Valid() && !s.haltIn && (ep == Out ==> s.phase == Idle) && IsCommand(s, t, size, ep, o)
    ensures (forall t' :: IsCommand(s, t', size, ep, o) ==> Final(s, t').InPhase()) <==> InPhaseAfter(o, size)
  {
    if InPhaseAfter(o, size) {
      forall t' | IsCommand(s, t', size, ep, o) ensures Final(s, t').InPhase() {
        TracksRun(s, t', size, ep, false);
      }
    } else {
      var t' := CanDesync(s, t, size, ep, o);
    }
  }

  /** A bus failure in the data stage of a whole block: the status transport succeeds and the CSW is still to come. */
  lemma BusFailureLeavesCsw(size: nat) returns (t: seq<Event>)
    requires size >= CSW_SIZE
    ensures IsCommand(FRESH, t, size, In, Ended(Internal, false, Ok)) && Final(FRESH, t).phase != Idle
  {
    var payload: Bytes := seq(CSW_SIZE, _ => 0);
    var after := if size == CSW_SIZE then HoldsCsw else Data;
    BrokenRuns(FRESH, size, In, Completed(payload), after);
    t := Broken(size, In, Completed(payload), after);
  }

  // ----- The host's code -----

  /** Since `s0` and `trace0` the host has gone through `t` and is at `h`. */
  ghost predicate At(dev: Device, s0: Dev, trace0: seq<Event>, t: seq<Event>, size: nat, ep: Endpoint, h: Host)
    reads dev
  {
    dev.s.Valid() && dev.trace == trace0 + t && Plays(s0, t) && dev.s == Final(s0, t) && HostAfter(t, size, ep) == h
  }

  /** The events since `trace0`. */
  ghost function Since(dev: Device, trace0: seq<Event>): seq<Event>
    requires |trace0| <= |dev.trace|
    reads dev
  {
    dev.trace[|trace0|..]
  }

  lemma OneOn(s0: Dev, s: Dev, t: seq<Event>, e: Event, trace0: seq<Event>, size: nat, ep: Endpoint)
    requires Plays(s0, t) && s == Final(s0, t) && s.Possible(e)
    ensures Plays(s0, t + [e]) && Final(s0, t + [e]) == s.After(e)
    ensures HostAfter(t + [e], size, ep) == HostStep(HostAfter(t, size, ep), e, size, ep)
    ensures (trace0 + t) + [e] == trace0 + (t + [e])
  {
    Appended(s0, t, e, size, ep);
  }

  /** A transfer that brought fewer bytes than were asked for copies nothing and is an error. */
  method BulkTransferIn(dev: Device, buf: array<bv8>, off: nat, size: nat) returns (err: Err, ghost e: Event)
    requires dev.s.Valid() && off + size <= buf.Length
    modifies dev, buf
    ensures dev.Answered(old(dev.s), old(dev.trace), e) && e.InXfer? && e.size == size && err == InErr(size, e.st)
    ensures forall i :: 0 <= i < buf.Length && (err != Ok || !(off <= i < off + size)) ==> buf[i] == old(buf[i])
    ensures err == Ok ==> buf[off..off + size] == e.st.payload
  {
    var st;
    st, e := dev.BulkIn(size);
    match st
    case Completed(payload) =>
      if |payload| != size {
        err := InvalidSize;
      } else {
        forall i | 0 <= i < size { buf[off + i] := payload[i]; }
        assert buf[off..off + size] == payload;
        err := Ok;
      }
    case Stalled => err := Stall;
    case Failed => err := Internal;
  }

  method BulkTransferOut(dev: Device, data: Bytes) returns (err: Err, ghost e: Event)
    requires dev.s.Valid()
    modifies dev
    ensures dev.Answered(old(dev.s), old(dev.trace), e) && e.OutXfer? && e.data == data && err == OutErr(e.st)
  {
    var st;
    st, e := dev.BulkOut(data);
    err := match st case Completed(_) => Ok case Stalled => Stall case Failed => Internal;
  }

  /** One piece of the data stage, from or into the buffer. */
  method TransferPiece(dev: Device, buf: array<bv8>, off: nat, n: nat, ep: Endpoint) returns (err: Err, ghost e: Event)
    requires dev.s.Valid() && off + n <= buf.Length
    modifies dev, buf
    ensures dev.Answered(old(dev.s), old(dev.trace), e)
    ensures if ep == In then e.InXfer? && e.size == n && err == InErr(n, e.st) else e.OutXfer? && |e.data| == n && err == OutErr(e.st)
    ensures dev.s.want == old(dev.s.want) && dev.s.reading == old(dev.s.reading) && dev.s.done == old(dev.s.done)
    ensures ep == Out ==> buf[..] == old(buf[..])
    ensures err == Ok && dev.s.phase != Idle ==> dev.s.log == old(dev.s.log) + buf[off..off + n]
    ensures err == Ok && dev.s.phase != Idle && old(dev.s.log) == old(buf[..off]) ==> dev.s.log == buf[..off + n]
    ensures err == Ok && dev.s.phase != Idle ==> old(dev.s.phase) != Idle
  {
    if ep == In {
      err, e := BulkTransferIn(dev, buf, off, n);
      assert buf[..off] == old(buf[..off]);
    } else {
      err, e := BulkTransferOut(dev, buf[off..off + n]);
    }
    assert buf[..off + n] == buf[..off] + buf[off..off + n];
  }

  /** Where the host is after a piece, or after the last of them. */
  function AfterData(size: nat, off: nat, err: Err): Host {
    if err == Ok then NextPiece(size, off) else if err == Stall then ClearData else GetStatus(err)
  }

  /** The piece at `off`, and the host one step on. */
  method NextTransfer(dev: Device, buf: array<bv8>, off: nat, size: nat, ep: Endpoint,
                      ghost s0: Dev, ghost trace0: seq<Event>, ghost t0: seq<Event>)
    returns (err: Err, n: nat, ghost t: seq<Event>)
    requires off < size <= buf.Length && dev.s.want == size && At(dev, s0, trace0, t0, size, ep, Piece(off))
    requires dev.s.phase == Idle || dev.s.log == buf[..off]
    modifies dev, buf
    ensures n == PieceLen(size, off) && err in {Ok, InvalidSize, Stall, Internal}
    ensures At(dev, s0, trace0, t, size, ep, AfterData(size, off + n, err))
    ensures dev.s.want == size && dev.s.reading == old(dev.s.reading) && dev.s.done == old(dev.s.done)
    ensures ep == Out ==> buf[..] == old(buf[..])
    ensures err == Ok ==> dev.s.phase == Idle || dev.s.log == buf[..off + n]
  {
    n := if size - off > MSC_XFER_CHUNK then MSC_XFER_CHUNK else size - off;
    ghost var s := dev.s;
    ghost var e;
    err, e := TransferPiece(dev, buf, off, n, ep);
    OneOn(s0, s, t0, e, trace0, size, ep);
    t := t0 + [e];
  }

  /** The data stage in pieces of at most MSC_XFER_CHUNK, stopped by the first that fails. */
  method DataStage(dev: Device, buf: array<bv8>, size: nat, ep: Endpoint, ghost s0: Dev, ghost trace0: seq<Event>, ghost t0: seq<Event>)
    returns (err: Err, ghost t: seq<Event>)
    requires size <= buf.Length && dev.s.want == size && dev.s.log == [] && At(dev, s0, trace0, t0, size, ep, NextPiece(size, 0))
    modifies dev, buf
    ensures err in {Ok, InvalidSize, Stall, Internal}
    ensures At(dev, s0, trace0, t, size, ep, AfterData(size, size, err))
    ensures dev.s.reading == old(dev.s.reading) && dev.s.done == old(dev.s.done)
    ensures ep == Out ==> buf[..] == old(buf[..])
    ensures err == Ok ==> dev.s.phase != Data && (dev.s.phase == HoldsCsw ==> dev.s.log == buf[..size])
  {
    err := Ok;
    t := t0;
    var off := 0;
    while off < size && err == Ok
      invariant 0 <= off <= size && dev.s.want == size
      invariant err in {Ok, InvalidSize, Stall, Internal}
      invariant At(dev, s0, trace0, t, size, ep, AfterData(size, off, err))
      invariant dev.s.reading == old(dev.s.reading) && dev.s.done == old(dev.s.done)
      invariant ep == Out ==> buf[..] == old(buf[..])
      invariant err == Ok ==> dev.s.phase == Idle || dev.s.log == buf[..off]
    {
      var n;
      err, n, t := NextTransfer(dev, buf, off, size, ep, s0, trace0, t);
      off := off + n;
    }
  }

  /** The CSW, at a second try if the first stalled, and reset recovery if that brings nothing either. */
  method StatusStage(dev: Device, data: Err, size: nat, ep: Endpoint, ghost s0: Dev, ghost trace0: seq<Event>, ghost t0: seq<Event>)
    returns (err: Err, csw: Bytes, ghost t: seq<Event>, ghost o: Outcome)
    requires At(dev, s0, trace0, t0, size, ep, GetStatus(data))
    modifies dev
    ensures At(dev, s0, trace0, t, size, ep, Done(o))
    ensures if o == NotCleared then err == Internal else o.Ended? && o.data == data && o.csw == err && err != InvalidCrc
    ensures dev.s.reading == old(dev.s.reading) && dev.s.done == old(dev.s.done)
    ensures err == Ok && old(dev.s.phase) != Data ==> old(dev.s.phase) == HoldsCsw && dev.s.log == old(dev.s.log)
    ensures err == Ok ==> |csw| == CSW_SIZE && csw == CswOf(t)
  {
    var buf := new bv8[CSW_SIZE];
    ghost var s, e := dev.s, Clear(In, true);
    err, e := BulkTransferIn(dev, buf, 0, CSW_SIZE);
    OneOn(s0, s, t0, e, trace0, size, ep);
    t := t0 + [e];
    csw := buf[..];
    if err != Stall {
      o := Ended(data, false, err);
      return;
    }
    var cleared;
    s := dev.s;
    cleared, e := dev.ClearFeature(In);
    OneOn(s0, s, t, e, trace0, size, ep);
    t := t + [e];
    if !cleared {
      o := NotCleared;
      err := Internal;
      return;
    }
    err, csw, t := SecondTry(dev, data, size, ep, s0, trace0, t);
    o := Ended(data, true, err);
  }

  method SecondTry(dev: Device, data: Err, size: nat, ep: Endpoint, ghost s0: Dev, ghost trace0: seq<Event>, ghost t0: seq<Event>)
    returns (err: Err, csw: Bytes, ghost t: seq<Event>)
    requires At(dev, s0, trace0, t0, size, ep, GetAgain(data))
    modifies dev
    ensures At(dev, s0, trace0, t, size, ep, Done(Ended(data, true, err))) && err != InvalidCrc
    ensures dev.s.reading == old(dev.s.reading) && dev.s.done == old(dev.s.done)
    ensures err == Ok && old(dev.s.phase) != Data ==> old(dev.s.phase) == HoldsCsw && dev.s.log == old(dev.s.log)
    ensures err == Ok ==> |csw| == CSW_SIZE && csw == CswOf(t)
  {
    var buf := new bv8[CSW_SIZE];
    ghost var s, e := dev.s, Clear(In, true);
    err, e := BulkTransferIn(dev, buf, 0, CSW_SIZE);
    OneOn(s0, s, t0, e, trace0, size, ep);
    t := t0 + [e];
    csw := buf[..];
    if err != Ok {
      s := dev.s;
      e := dev.ResetRecovery();
      OneOn(s0, s, t, e, trace0, size, ep);
      t := t + [e];
    }
  }

  /** What the last transfer of a command brought. */
  ghost function CswOf(t: seq<Event>): Bytes {
    if t != [] && t[|t| - 1].InXfer? && t[|t| - 1].st.Completed? then t[|t| - 1].st.payload else []
  }

  /** What the caller hears of a command. */
  function Report(o: Outcome, good: bool): Err {
    if !o.Ended? then Internal
    else if o.csw != Ok then o.csw
    else if o.data != Ok then o.data
    else if good then Ok else Internal
  }

  // ----- What is reported, told by the events alone -----

  /** A transfer in which every byte asked for crossed. */
  predicate Whole(e: Event) {
    || (e.InXfer? && e.st.Completed? && |e.st.payload| == e.size)
    || (e.OutXfer? && e.st.Completed?)
  }

  predicate Short(e: Event) {
    e.InXfer? && e.st.Completed? && |e.st.payload| != e.size
  }

  function Asked(e: Event): nat {
    if e.InXfer? then e.size else if e.OutXfer? then |e.data| else 0
  }

  ghost function Moved(t: seq<Event>): nat {
    if t == [] then 0 else Moved(t[..|t| - 1]) + Asked(t[|t| - 1])
  }

  /** All of `t` is a CBW that was taken and then whole transfers, which leave bytes of the `size` announced to come. */
  ghost predicate MidData(t: seq<Event>, size: nat) {
    && t != [] && t[0].Cbw? && t[0].ok && Moved(t) < size
    && forall i :: 1 <= i < |t| ==> Whole(t[i])
  }

  /** Event `i` is the transfer that ended the data stage early. */
  ghost predicate Breaks(t: seq<Event>, i: nat, size: nat) {
    i < |t| && MidData(t[..i], size) && (t[i].InXfer? || t[i].OutXfer?) && !Whole(t[i])
  }

  /** The CSW came whole, as the last thing of the command. */
  ghost predicate CswCame(t: seq<Event>) {
    t != [] && t[|t| - 1].InXfer? && t[|t| - 1].size == CSW_SIZE && Whole(t[|t| - 1])
  }

  /**
   What the caller hears. With the CSW read: of a data stage broken off, that it was short,
   stalled or failed; otherwise the verdict on the CSW. Without it: the failure of the status
   stage, whatever the data stage was.
   */
  ghost predicate Heard(t: seq<Event>, size: nat, good: bool, err: Err) {
    && (CswCame(t) ==> forall i: nat :: Breaks(t, i, size) ==>
          err == if Short(t[i]) then InvalidSize else if t[i].st == Stalled then Stall else Internal)
    && (CswCame(t) && (forall i: nat :: !Breaks(t, i, size)) ==> err == if good then Ok else Internal)
    && (!CswCame(t) && t != [] ==> err == Missed(t))
  }

  /** The failure of a status stage: of its only try, or of the one before reset recovery. */
  ghost function Missed(t: seq<Event>): Err
    requires t != []
  {
    var last := t[|t| - 1];
    if last.InXfer? then (if Short(last) then InvalidSize else Internal)
    else if last.Reset? && |t| >= 2 && t[|t| - 2].InXfer? then
      (if Short(t[|t| - 2]) then InvalidSize else if t[|t| - 2].st == Stalled then Stall else Internal)
    else Internal
  }

  /** What a broken transfer is called. */
  function Named(e: Event): Err
    requires e.InXfer? || e.OutXfer?
  {
    if Short(e) then InvalidSize else if e.st == Stalled then Stall else Internal
  }

  /** The data stage in `t` ended with `d`: at event `i`, or after it in good order. */
  ghost predicate DataEnded(t: seq<Event>, i: nat, d: Err, size: nat) {
    if d == Ok then 1 <= i <= |t| && Moved(t[..i]) >= size && forall k :: 1 <= k < i ==> Whole(t[k])
    else Breaks(t, i, size) && d == Named(t[i])
  }

  /** Where the host is tells what it has seen. */
  ghost predicate Seen(t: seq<Event>, i: nat, h: Host, size: nat) {
    match h
    case Start => t == []
    case Piece(off) => MidData(t, size) && Moved(t) == off
    case ClearData => DataEnded(t, i, Stall, size)
    case GetStatus(d) => DataEnded(t, i, d, size)
    case ClearStatus(d) => DataEnded(t, i, d, size)
    case GetAgain(d) => DataEnded(t, i, d, size)
    case Recover(d, c) => DataEnded(t, i, d, size) && t != [] && t[|t| - 1].InXfer? && c != Ok && c == Named(t[|t| - 1]) && !Whole(t[|t| - 1])
    case Done(o) => SeenEnd(t, i, o, size)
    case Off => true
  }

  ghost predicate SeenEnd(t: seq<Event>, i: nat, o: Outcome, size: nat) {
    && t != []
    && (!o.Ended? ==> !CswCame(t) && Missed(t) == Internal)
    && (o.Ended? ==> i < |t| && DataEnded(t[..|t| - 1], i, o.data, size))
    && (o.Ended? && o.csw == Ok ==> CswCame(t))
    && (o.Ended? && o.csw != Ok ==> !CswCame(t) && o.csw == Missed(t))
  }

  lemma EndedStays(t: seq<Event>, i: nat, d: Err, size: nat, e: Event)
    requires DataEnded(t, i, d, size)
    ensures DataEnded(t + [e], i, d, size)
  {
    assert (t + [e])[..i] == t[..i];
  }

  lemma MovedOn(t: seq<Event>, e: Event)
    ensures Moved(t + [e]) == Moved(t) + Asked(e)
  {
    assert (t + [e])[..|t|] == t;
  }

  lemma SeenPiece(t: seq<Event>, off: nat, e: Event, size: nat, ep: Endpoint)
    requires Seen(t, 0, Piece(off), size)
    ensures Seen(t + [e], if Whole(e) then |t| + 1 else |t|, HostStep(Piece(off), e, size, ep), size)
  {
    var t' := t + [e];
    assert t'[..|t|] == t && t'[|t|] == e && t'[..|t'|] == t';
    MovedOn(t, e);
  }

  /** The host is past a data stage that ended with `d`. */
  ghost predicate PastData(h: Host, d: Err) {
    match h
    case ClearData => d == Stall
    case GetStatus(x) => x == d
    case ClearStatus(x) => x == d
    case GetAgain(x) => x == d
    case Recover(x, _) => x == d
    case _ => false
  }

  lemma SeenStatus(t: seq<Event>, i: nat, h: Host, d: Err, e: Event, size: nat, ep: Endpoint)
    requires DataEnded(t, i, d, size) && Seen(t, i, h, size)
    requires PastData(h, d)
    ensures Seen(t + [e], i, HostStep(h, e, size, ep), size)
  {
    var t' := t + [e];
    assert t'[..|t|] == t && t'[|t|] == e && t'[..|t'|] == t';
    EndedStays(t, i, d, size, e);
  }

  /** One event on; `j` is where the data stage ended, if it has. */
  lemma SeenStep(t: seq<Event>, i: nat, h: Host, e: Event, size: nat, ep: Endpoint) returns (j: nat)
    requires Seen(t, i, h, size)
    ensures Seen(t + [e], j, HostStep(h, e, size, ep), size)
  {
    j := i;
    match h
    case Start =>
      j := 1;
      MovedOn(t, e);
      assert t + [e] == [e] && [e][..1] == [e];
    case Piece(off) =>
      j := if Whole(e) then |t| + 1 else |t|;
      SeenPiece(t, off, e, size, ep);
    case ClearData => SeenStatus(t, i, h, Stall, e, size, ep);
    case GetStatus(d) => SeenStatus(t, i, h, d, e, size, ep);
    case ClearStatus(d) => SeenStatus(t, i, h, d, e, size, ep);
    case GetAgain(d) => SeenStatus(t, i, h, d, e, size, ep);
    case Recover(d, c) => SeenStatus(t, i, h, d, e, size, ep);
    case Done(_) =>
    case Off =>
  }

  lemma {:induction false} SeenRun(t: seq<Event>, size: nat, ep: Endpoint) returns (i: nat)
    ensures Seen(t, i, HostAfter(t, size, ep), size)
  {
    if t == [] {
      i := 0;
    } else {
      var init := t[..|t| - 1];
      var k := SeenRun(init, size, ep);
      i := SeenStep(init, k, HostAfter(init, size, ep), t[|t| - 1], size, ep);
      assert init + [t[|t| - 1]] == t;
    }
  }

  lemma {:induction false} MovedGrows(t: seq<Event>, i: nat)
    requires i <= |t|
    ensures Moved(t[..i]) <= Moved(t)
  {
    if i < |t| {
      MovedGrows(t[..|t| - 1], i);
      assert t[..|t| - 1][..i] == t[..i];
    } else {
      assert t[..i] == t;
    }
  }

  /** A data stage ends once. */
  lemma EndsOnce(t: seq<Event>, i: nat, d: Err, size: nat, k: nat)
    requires DataEnded(t, i, d, size) && k < |t| && (d == Ok || k != i)
    ensures !Breaks(t, k, size)
  {
    if d == Ok && k >= i {
      MovedGrows(t[..k], i);
      assert t[..k][..i] == t[..i];
    } else if d != Ok && k < i {
      assert k >= 1 ==> t[..i][k] == t[k];
    } else if d != Ok {
      assert t[..k][i] == t[i];
    }
  }

  lemma HeardOfReport(t: seq<Event>, size: nat, ep: Endpoint, o: Outcome, good: bool)
    requires HostAfter(t, size, ep) == Done(o)
    ensures Heard(t, size, good, Report(o, good))
  {
    var i := SeenRun(t, size, ep);
    if CswCame(t) {
      var (init, last) := (t[..|t| - 1], t[|t| - 1]);
      assert init + [last] == t;
      EndedStays(init, i, o.data, size, last);
      forall k: nat | k < |t| && (o.data == Ok || k != i) ensures !Breaks(t, k, size) {
        EndsOnce(t, i, o.data, size, k);
      }
    }
  }

  /** The data stage, and the halt cleared that it ran into. */
  method DataAndClear(dev: Device, buf: array<bv8>, size: nat, ep: Endpoint, ghost s0: Dev, ghost trace0: seq<Event>, ghost t0: seq<Event>)
    returns (err: Err, cleared: bool, ghost t: seq<Event>)
    requires size <= buf.Length && dev.s.want == size && dev.s.log == [] && At(dev, s0, trace0, t0, size, ep, NextPiece(size, 0))
    modifies dev, buf
    ensures err in {Ok, InvalidSize, Stall, Internal}
    ensures At(dev, s0, trace0, t, size, ep, if cleared then GetStatus(err) else Done(NotCleared))
    ensures dev.s.reading == old(dev.s.reading) && dev.s.done == old(dev.s.done)
    ensures ep == Out ==> buf[..] == old(buf[..])
    ensures err == Ok ==> dev.s.phase != Data && (dev.s.phase == HoldsCsw ==> dev.s.log == buf[..size])
  {
    err, t := DataStage(dev, buf, size, ep, s0, trace0, t0);
    cleared := true;
    if err == Stall {
      ghost var s, e := dev.s, Clear(ep, true);
      cleared, e := dev.ClearFeature(ep);
      OneOn(s0, s, t, e, trace0, size, ep);
      t := t + [e];
    }
  }

  /**
   One command. The data stage's failure is kept until the CSW has been consumed, so that
   what crossed the bus is always a whole command, status stage included.
   */
  method BotExecuteCommand(dev: Device, check: Check, read: bool, buf: array<bv8>, size: nat, ep: Endpoint)
    returns (err: Err, ghost o: Outcome)
    requires dev.s.Valid() && size <= buf.Length
    modifies dev, buf
    ensures dev.s.Valid() && old(dev.trace) <= dev.trace
    ensures IsCommand(old(dev.s), Since(dev, old(dev.trace)), size, ep, o)
    ensures dev.s == Final(old(dev.s), Since(dev, old(dev.trace)))
    ensures dev.s.reading == read && dev.s.done == old(dev.s.Reads())
    ensures ep == Out ==> buf[..] == old(buf[..])
    ensures err == Report(o, check(|old(dev.trace)|, CswOf(Since(dev, old(dev.trace))))) && err != InvalidCrc
    // which is what the events say
    ensures Heard(Since(dev, old(dev.trace)), size, check(|old(dev.trace)|, CswOf(Since(dev, old(dev.trace)))), err)
    // success is a complete data stage, all of it in the buffer in order
    ensures err == Ok ==> dev.s.log == buf[..size]
    // in phase again whenever the outcome says so
    ensures !old(dev.s.haltIn) && InPhaseAfter(o, size) ==> dev.s.InPhase()
  {
    ghost var s0, trace0 := dev.s, dev.trace;
    var tag, sent := |dev.trace|, false;
    ghost var e;
    sent, e := dev.TakeCbw(read, size);
    OneOn(s0, s0, [], e, trace0, size, ep);
    ghost var t := [] + [e];
    assert trace0 + [] == trace0;
    if !sent {
      o := NoCbw;
      CommandDone(dev, s0, trace0, t, size, ep, o);
      return Internal, o;
    }
    var dataErr, cleared;
    dataErr, cleared, t := DataAndClear(dev, buf, size, ep, s0, trace0, t);
    if !cleared {
      o := NotCleared;
      CommandDone(dev, s0, trace0, t, size, ep, o);
      return Internal, o;
    }
    var cswErr, csw;
    cswErr, csw, t, o := StatusStage(dev, dataErr, size, ep, s0, trace0, t);
    CommandDone(dev, s0, trace0, t, size, ep, o);
    if cswErr != Ok {
      return cswErr, o;
    }
    if dataErr != Ok {
      return dataErr, o;
    }
    err := if check(tag, csw) then Ok else Internal;
  }

  lemma CommandDone(dev: Device, s0: Dev, trace0: seq<Event>, t: seq<Event>, size: nat, ep: Endpoint, o: Outcome)
    requires At(dev, s0, trace0, t, size, ep, Done(o))
    ensures trace0 <= dev.trace && Since(dev, trace0) == t && IsCommand(s0, t, size, ep, o) && dev.s == Final(s0, t)
    ensures s0.Valid() && !s0.haltIn && InPhaseAfter(o, size) ==> dev.s.InPhase()
    ensures forall good: bool :: Heard(t, size, good, Report(o, good))
  {
    HeardOfReport(t, size, ep, o, true);
    HeardOfReport(t, size, ep, o, false);
    if s0.Valid() && !s0.haltIn {
      TracksRun(s0, t, size, ep, false);
    }
  }

  // ----- SCSI reads and the block device above them -----

  const SENSE_SIZE := 18

  /**
   One READ: the state and the tag it began with, what crossed the bus in it and in the
   REQUEST SENSE after one that failed, how the two ended and what was reported of them, what
   the device sent for it and the state it left.
   */
  datatype Attempt = Attempt(start: Dev, tag: nat, t1: seq<Event>, t2: seq<Event>,
                             outcome: Outcome, sensed: Outcome, read: Err, sense: Err, data: Bytes, end: Dev)
  {
    /** REQUEST SENSE's own failure, or else that of the READ. */
    function Result(): Err { if read == Ok || sense == Ok then read else sense }
  }

  /** `a` is a READ of `len` bytes as the host issues it and the device may answer it. */
  ghost predicate Runs(a: Attempt, check: Check, len: nat) {
    && IsCommand(a.start, a.t1, len, In, a.outcome)
    && a.read == Report(a.outcome, check(a.tag, CswOf(a.t1)))
    && a.data == Final(a.start, a.t1).log && a.end == Final(Final(a.start, a.t1), a.t2)
    && if a.read == Ok then a.t2 == [] else SenseRuns(a, check)
  }

  ghost predicate SenseRuns(a: Attempt, check: Check) {
    && IsCommand(Final(a.start, a.t1), a.t2, SENSE_SIZE, In, a.sensed)
    && a.sense == Report(a.sensed, check(a.tag + |a.t1|, CswOf(a.t2)))
  }

  method ScsiRead(dev: Device, check: Check, target: array<bv8>, len: nat) returns (err: Err, ghost a: Attempt)
    requires dev.s.Valid() && len <= target.Length
    modifies dev, target
    ensures Runs(a, check, len) && a.start == old(dev.s) && a.tag == |old(dev.trace)|
    ensures dev.s.Valid() && dev.s == a.end && dev.trace == old(dev.trace) + a.t1 + a.t2
    ensures dev.s.Reads() == old(dev.s.Reads()) + [a.data]
    ensures err == a.Result() && (err == Ok ==> a.data == target[..len])
  {
    ghost var s0, n0 := dev.s, |dev.trace|;
    ghost var o, t1;
    err, o, t1 := ReadCommand(dev, check, target, len);
    ghost var s1 := dev.s;
    if err == Ok {
      a := Attempt(s0, n0, t1, [], o, o, Ok, Ok, s1.log, s1);
      assert dev.trace == old(dev.trace) + t1 + [];
      return;
    }
    var senseErr;
    ghost var sensed, t2;
    senseErr, sensed, t2 := Sense(dev, check);
    a := Attempt(s0, n0, t1, t2, o, sensed, err, senseErr, s1.log, dev.s);
    assert SenseRuns(a, check);
    assert Runs(a, check, len);
    if senseErr != Ok {
      err := senseErr;
    }
  }

  method ReadCommand(dev: Device, check: Check, target: array<bv8>, len: nat) returns (err: Err, ghost o: Outcome, ghost t: seq<Event>)
    requires dev.s.Valid() && len <= target.Length
    modifies dev, target
    ensures IsCommand(old(dev.s), t, len, In, o) && err == Report(o, check(|old(dev.trace)|, CswOf(t)))
    ensures dev.s.Valid() && dev.s == Final(old(dev.s), t) && dev.trace == old(dev.trace) + t
    ensures dev.s.Reads() == old(dev.s.Reads()) + [dev.s.log]
    ensures err == Ok ==> dev.s.log == target[..len]
  {
    err, o := BotExecuteCommand(dev, check, true, target, len, In);
    t := Since(dev, old(dev.trace));
  }

  method Sense(dev: Device, check: Check) returns (err: Err, ghost o: Outcome, ghost t: seq<Event>)
    requires dev.s.Valid()
    modifies dev
    ensures IsCommand(old(dev.s), t, SENSE_SIZE, In, o) && err == Report(o, check(|old(dev.trace)|, CswOf(t)))
    ensures dev.s.Valid() && dev.s == Final(old(dev.s), t) && dev.trace == old(dev.trace) + t
    ensures dev.s.Reads() == old(dev.s.Reads())
  {
    var buf := new bv8[SENSE_SIZE];
    err, o := BotExecuteCommand(dev, check, false, buf, SENSE_SIZE, In);
    t := Since(dev, old(dev.trace));
  }

  // ----- Whether a READ that is issued again starts in phase -----

  /** A READ and a REQUEST SENSE that ended so. */
  ghost predicate Both(s: Dev, t1: seq<Event>, t2: seq<Event>, len: nat, o1: Outcome, o2: Outcome) {
    IsCommand(s, t1, len, In, o1) && IsCommand(Final(s, t1), t2, SENSE_SIZE, In, o2)
  }

  ghost predicate InPhaseAfterBoth(o1: Outcome, o2: Outcome) {
    InPhaseAfter(o2, SENSE_SIZE) && (o1 == NotCleared ==> o2.again)
  }

  lemma BothInPhase(s: Dev, t1: seq<Event>, t2: seq<Event>, len: nat, o1: Outcome, o2: Outcome)
    requires s.Valid() && !s.haltIn && Both(s, t1, t2, len, o1, o2) && InPhaseAfterBoth(o1, o2)
    ensures Final(Final(s, t1), t2).InPhase()
  {
    JointRun(s, t1, len, In);
    TracksRun(Final(s, t1), t2, SENSE_SIZE, In, o1 == NotCleared);
  }

  /** REQUEST SENSE on a way in that is still halted: its data stage stalls, and the CSW is read out of its data. */
  function Halted(payload: Bytes): seq<Event> {
    [Cbw(false, SENSE_SIZE, true, Data), InXfer(SENSE_SIZE, Stalled, Data), Clear(In, true),
     InXfer(CSW_SIZE, Completed(payload), if |payload| < CSW_SIZE then HoldsCsw else Data)]
  }

  lemma HaltedUpToCsw(s: Dev, t: seq<Event>)
    requires s.Valid() && s.haltIn && !s.haltOut && t == Halted([])[..3]
    ensures Plays(s, t) && HostAfter(t, SENSE_SIZE, In) == GetStatus(Stall)
    ensures var f := Final(s, t); f.phase == Data && !f.haltIn && f.log == [] && f.want == SENSE_SIZE
  {
    Appended(s, [], t[0], SENSE_SIZE, In);
    assert [] + [t[0]] == [t[0]];
    Appended(s, [t[0]], t[1], SENSE_SIZE, In);
    assert [t[0]] + [t[1]] == t[..2];
    Appended(s, t[..2], t[2], SENSE_SIZE, In);
    assert t[..2] + [t[2]] == t;
  }

  lemma HaltedRuns(s: Dev, payload: Bytes)
    requires s.Valid() && s.haltIn && !s.haltOut && |payload| <= CSW_SIZE
    ensures IsCommand(s, Halted(payload), SENSE_SIZE, In, Ended(Stall, false, InErr(CSW_SIZE, Completed(payload))))
    ensures !Final(s, Halted(payload)).InPhase()
  {
    var t := Halted(payload);
    HaltedUpToCsw(s, t[..3]);
    Appended(s, t[..3], t[3], SENSE_SIZE, In);
    assert t[..3] + [t[3]] == t;
  }

  /** A REQUEST SENSE that ended as `o2` did, and after which the device is not in phase. */
  lemma BothCanDesync(s: Dev, t1: seq<Event>, t2: seq<Event>, len: nat, o1: Outcome, o2: Outcome) returns (t': seq<Event>)
    requires s.InPhase() && Both(s, t1, t2, len, o1, o2) && !InPhaseAfterBoth(o1, o2)
    ensures Both(s, t1, t', len, o1, o2) && !Final(Final(s, t1), t').InPhase()
  {
    JointRun(s, t1, len, In);
    var s1 := Final(s, t1);
    if !InPhaseAfter(o2, SENSE_SIZE) {
      t' := CanDesync(s1, t2, SENSE_SIZE, In, o2);
    } else {
      JointRun(s1, t2, SENSE_SIZE, In);
      CbwTaken(s1, t2, SENSE_SIZE, In);
      var payload: Bytes := if o2.csw == Ok then seq(CSW_SIZE, _ => 0) else [];
      HaltedRuns(s1, payload);
      t' := Halted(payload);
    }
  }

  /**
   After a READ begun in phase and the REQUEST SENSE that follows it, the next command is sure
   to start in phase exactly when REQUEST SENSE ended as InPhaseExactly asks, and at the second
   try if the READ had left a halt uncleared.
   */
  lemma ReissueExactly(s: Dev, t1: seq<Event>, t2: seq<Event>, len: nat, o1: Outcome, o2: Outcome)
    requires s.InPhase() && Both(s, t1, t2, len, o1, o2)
    ensures (forall u1, u2 :: Both(s, u1, u2, len, o1, o2) ==> Final(Final(s, u1), u2).InPhase())
       <==> InPhaseAfterBoth(o1, o2)
  {
    if InPhaseAfterBoth(o1, o2) {
      forall u1, u2 | Both(s, u1, u2, len, o1, o2) ensures Final(Final(s, u1), u2).InPhase() {
        BothInPhase(s, u1, u2, len, o1, o2);
      }
    } else {
      var t' := BothCanDesync(s, t1, t2, len, o1, o2);
      assert Both(s, t1, t', len, o1, o2);
    }
  }

  /** A short READ whose REQUEST SENSE went well is followed by a command that starts in phase. */
  lemma ShortReadEndsInPhase(a: Attempt, check: Check, len: nat)
    requires a.start.Valid() && !a.start.haltIn && Runs(a, check, len)
    requires a.read == InvalidSize && a.sense == Ok
    ensures a.Result() == InvalidSize && a.end.InPhase()
  {
    BothInPhase(a.start, a.t1, a.t2, len, a.outcome, a.sensed);
  }

  /** A READ that brought too few bytes in a transfer, its CSW whole, and a REQUEST SENSE all of whose transfers were whole and whose CSW was good. */
  ghost predicate ShortRead(a: Attempt, check: Check, len: nat, i: nat) {
    && Breaks(a.t1, i, len) && Short(a.t1[i]) && CswCame(a.t1)
    && CswCame(a.t2) && (forall k: nat :: !Breaks(a.t2, k, SENSE_SIZE)) && check(a.tag + |a.t1|, CswOf(a.t2))
  }

  lemma ShortIsInvalidSize(t: seq<Event>, size: nat, o: Outcome, good: bool, i: nat)
    requires HostAfter(t, size, In) == Done(o) && Breaks(t, i, size) && Short(t[i]) && CswCame(t)
    ensures Report(o, good) == InvalidSize
  {
    HeardOfReport(t, size, In, o, good);
  }

  lemma UnbrokenIsVerdict(t: seq<Event>, size: nat, o: Outcome, good: bool)
    requires HostAfter(t, size, In) == Done(o) && CswCame(t) && forall k: nat :: !Breaks(t, k, size)
    ensures Report(o, good) == if good then Ok else Internal
  {
    HeardOfReport(t, size, In, o, good);
  }

  lemma ShortReadIsReported(a: Attempt, check: Check, len: nat, i: nat)
    requires Runs(a, check, len) && ShortRead(a, check, len, i)
    ensures a.read == InvalidSize && a.sense == Ok && a.Result() == InvalidSize
  {
    ShortIsInvalidSize(a.t1, len, a.outcome, check(a.tag, CswOf(a.t1)), i);
    UnbrokenIsVerdict(a.t2, SENSE_SIZE, a.sensed, true);
  }

  /** A REQUEST SENSE without a CSW is what the caller hears of, whatever the READ was. */
  lemma FailedSenseIsHeard(a: Attempt, check: Check, len: nat)
    requires Runs(a, check, len) && a.read != Ok && !CswCame(a.t2)
    ensures a.t2 != [] && a.Result() == Missed(a.t2) != Ok
  {
    HeardOfReport(a.t2, SENSE_SIZE, In, a.sensed, true);
  }

  // ----- Reissue and verification -----

  /** `runs` is true of every READ that the host can issue and the device answer; Runs itself, or what follows from it. */
  ghost predicate Covers(runs: Attempt -> bool, check: Check, len: nat) {
    forall a :: Runs(a, check, len) ==> runs(a)
  }

  ghost function Sent(tries: seq<Attempt>): seq<Bytes> {
    seq(|tries|, i requires 0 <= i < |tries| => tries[i].data)
  }

  /** The results before the last are all `err`. */
  ghost predicate AllBefore(tries: seq<Attempt>, err: Err) {
    forall i :: 0 <= i < |tries| - 1 ==> tries[i].Result() == err
  }

  /** What has been run from state `s0` and tag `n0` on: these attempts in turn, and no READ besides. */
  ghost predicate Ran(s0: Dev, n0: nat, tries: seq<Attempt>, s: Dev, runs: Attempt -> bool) {
    && (tries != [] ==> tries[0].start == s0 && tries[0].tag == n0)
    && (forall i :: 0 <= i < |tries| ==> runs(tries[i]))
    && (forall i :: 0 <= i < |tries| - 1 ==> tries[i + 1].start == tries[i].end)
    && s.Valid() && s == (if tries == [] then s0 else tries[|tries| - 1].end)
    && s.Reads() == s0.Reads() + Sent(tries)
  }

  lemma RanNothing(s: Dev, n: nat, runs: Attempt -> bool)
    requires s.Valid()
    ensures Ran(s, n, [], s, runs)
  {
    assert s.Reads() + Sent([]) == s.Reads();
  }

  lemma RanOneMore(s0: Dev, n0: nat, tries: seq<Attempt>, s: Dev, a: Attempt, s1: Dev, runs: Attempt -> bool)
    requires Ran(s0, n0, tries, s, runs) && runs(a) && a.start == s && (tries == [] ==> a.tag == n0)
    requires s1.Valid() && s1 == a.end && s1.Reads() == s.Reads() + [a.data]
    ensures Ran(s0, n0, tries + [a], s1, runs)
  {
    assert Sent(tries + [a]) == Sent(tries) + [a.data];
  }

  /** One READ more; `more` has it added. */
  method ReadOnce(dev: Device, check: Check, buf: array<bv8>, len: nat,
                  ghost s0: Dev, ghost n0: nat, ghost tries: seq<Attempt>, ghost runs: Attempt -> bool)
    returns (err: Err, ghost a: Attempt, ghost more: seq<Attempt>)
    requires len <= buf.Length && Covers(runs, check, len)
    requires Ran(s0, n0, tries, dev.s, runs) && (tries == [] ==> |dev.trace| == n0)
    modifies dev, buf
    ensures Ran(s0, n0, more, dev.s, runs)
    ensures more == tries + [a] && more[..|tries|] == tries && err == a.Result() && (err == Ok ==> a.data == buf[..len])
  {
    ghost var s := dev.s;
    err, a := ScsiRead(dev, check, buf, len);
    RanOneMore(s0, n0, tries, s, a, dev.s, runs);
    more := tries + [a];
  }

  /** A READ is followed by another exactly when it was reported short and was not the third. */
  ghost predicate Reissued(tries: seq<Attempt>) {
    && 1 <= |tries| <= 3 && AllBefore(tries, InvalidSize)
    && (tries[|tries| - 1].Result() == InvalidSize ==> |tries| == 3)
  }

  /**
   A READ that is issued again starts in phase if the one before it did and its REQUEST SENSE
   went well, or ended as ReissueExactly asks.
   */
  lemma ReissueStartsInPhase(s0: Dev, n0: nat, tries: seq<Attempt>, s: Dev, check: Check, len: nat, i: nat)
    requires Reissued(tries) && Ran(s0, n0, tries, s, (a: Attempt) => Runs(a, check, len)) && i + 1 < |tries|
    requires tries[i].start.InPhase() && (tries[i].sense == Ok || InPhaseAfterBoth(tries[i].outcome, tries[i].sensed))
    ensures tries[i + 1].start.InPhase()
  {
    var a := tries[i];
    assert Runs(a, check, len) && a.Result() == InvalidSize && tries[i + 1].start == a.end;
    if a.sense == Ok {
      ShortReadEndsInPhase(a, check, len);
    } else {
      BothInPhase(a.start, a.t1, a.t2, len, a.outcome, a.sensed);
    }
  }

  /** A READ that brought too few bytes, with all else in order, is followed by another unless it was the third. */
  lemma ShortReadIsReissued(s0: Dev, n0: nat, tries: seq<Attempt>, s: Dev, check: Check, len: nat, k: nat, i: nat)
    requires Reissued(tries) && Ran(s0, n0, tries, s, (a: Attempt) => Runs(a, check, len)) && k < |tries|
    requires ShortRead(tries[k], check, len, i)
    ensures k + 1 < |tries| || |tries| == 3
  {
    ShortReadIsReported(tries[k], check, len, i);
  }

  ghost predicate AllShort(tries: seq<Attempt>) {
    forall i :: 0 <= i < |tries| ==> tries[i].Result() == InvalidSize
  }

  lemma ShortAfter(tries: seq<Attempt>, a: Attempt)
    requires AllShort(tries) && |tries| < 3
    ensures a.Result() != InvalidSize || |tries| == 2 ==> Reissued(tries + [a])
    ensures a.Result() == InvalidSize ==> AllShort(tries + [a])
  {
  }

  /** A READ reported as short is issued again as a whole command, three attempts in all. */
  method ReadWithReissue(dev: Device, check: Check, target: array<bv8>, len: nat, ghost runs: Attempt -> bool)
    returns (err: Err, ghost tries: seq<Attempt>)
    requires dev.s.Valid() && len <= target.Length && Covers(runs, check, len)
    modifies dev, target
    ensures Reissued(tries) && Ran(old(dev.s), |old(dev.trace)|, tries, dev.s, runs)
    ensures err == tries[|tries| - 1].Result()
    ensures err == Ok ==> target[..len] == tries[|tries| - 1].data
  {
    err, tries := Internal, [];
    ghost var s0, n0 := dev.s, |dev.trace|;
    RanNothing(s0, n0, runs);
    var attempt := 0;
    while attempt < 3
      invariant 0 <= attempt <= 3 && |tries| == attempt && AllShort(tries) && (attempt == 3 ==> Reissued(tries))
      invariant Ran(s0, n0, tries, dev.s, runs) && (attempt == 0 ==> |dev.trace| == n0)
      invariant attempt > 0 ==> err == InvalidSize
    {
      ghost var a;
      ghost var before := tries;
      err, a, tries := ReadOnce(dev, check, target, len, s0, n0, tries, runs);
      ShortAfter(before, a);
      if err != InvalidSize {
        return;
      }
      attempt := attempt + 1;
    }
  }

  ghost predicate NoTwoAgree(values: seq<Bytes>) {
    forall i :: 0 <= i < |values| - 1 ==> values[i] != values[i + 1]
  }

  ghost function Values(first: Bytes, tries: seq<Attempt>): seq<Bytes> {
    [first] + Sent(tries)
  }

  /** The last reread brought what the one before it, or the first read, had brought. */
  ghost predicate LastAgrees(first: Bytes, tries: seq<Attempt>)
    requires tries != []
  {
    Values(first, tries)[|tries|] == Values(first, tries)[|tries| - 1]
  }

  /** The outcome of a verification: the last reread's failure, its agreement, or none in all. */
  ghost function Verdict(first: Bytes, tries: seq<Attempt>): Err
    requires tries != []
  {
    var last := tries[|tries| - 1].Result();
    if last != Ok then last else if LastAgrees(first, tries) then Ok else InvalidCrc
  }

  /** Rereads go on exactly while they succeed and no two in a row agree, four at most. */
  ghost predicate Rereads(first: Bytes, tries: seq<Attempt>) {
    && 1 <= |tries| <= 4 && AllBefore(tries, Ok)
    && NoTwoAgree(Values(first, tries[..|tries| - 1]))
    && (|tries| < 4 ==> tries[|tries| - 1].Result() != Ok || LastAgrees(first, tries))
  }

  /** So far every reread has succeeded and no two in a row agreed; `prev` is the last value. */
  ghost predicate Undecided(first: Bytes, tries: seq<Attempt>, prev: Bytes) {
    && |tries| <= 4 && (forall i :: 0 <= i < |tries| ==> tries[i].Result() == Ok)
    && prev == Values(first, tries)[|tries|] && NoTwoAgree(Values(first, tries))
  }

  lemma UndecidedAfter(first: Bytes, tries: seq<Attempt>, prev: Bytes, a: Attempt)
    requires Undecided(first, tries, prev) && |tries| < 4
    ensures var more := tries + [a];
            && (a.Result() != Ok || prev == a.data ==>
                  Rereads(first, more) && Verdict(first, more) == a.Result())
            && (a.Result() == Ok && prev != a.data ==> Undecided(first, more, a.data))
  {
    var more := tries + [a];
    assert more[..|tries|] == tries;
    assert Sent(more) == Sent(tries) + [a.data];
    assert Values(first, more) == Values(first, tries) + [a.data];
  }

  lemma NeverDecided(first: Bytes, tries: seq<Attempt>, prev: Bytes)
    requires Undecided(first, tries, prev) && |tries| == 4
    ensures Rereads(first, tries) && Verdict(first, tries) == InvalidCrc
  {
    assert Sent(tries[..3]) == Sent(tries)[..3];
    assert Values(first, tries[..3]) == Values(first, tries)[..4];
  }

  /** One reread, compared with the one before it. */
  method RereadAndCompare(dev: Device, check: Check, prev: array<bv8>, scratch: array<bv8>, ghost s0: Dev, ghost n0: nat,
                          ghost first: Bytes, ghost tries: seq<Attempt>, ghost runs: Attempt -> bool)
    returns (err: Err, agree: bool, ghost more: seq<Attempt>)
    requires prev != scratch && scratch.Length == prev.Length && Covers(runs, check, prev.Length)
    requires Ran(s0, n0, tries, dev.s, runs) && (tries == [] ==> |dev.trace| == n0)
    requires Undecided(first, tries, prev[..]) && |tries| < 4
    modifies dev, scratch
    ensures Ran(s0, n0, more, dev.s, runs) && |more| == |tries| + 1
    ensures err != Ok || agree ==> Rereads(first, more) && Verdict(first, more) == err
    ensures err == Ok && agree ==> more[|tries|].data == prev[..]
    ensures err == Ok && !agree ==> Undecided(first, more, scratch[..])
  {
    ghost var a;
    err, a, more := ReadOnce(dev, check, scratch, scratch.Length, s0, n0, tries, runs);
    UndecidedAfter(first, tries, prev[..], a);
    assert scratch[..scratch.Length] == scratch[..];
    agree := prev[..] == scratch[..];
  }

  /** The read is repeated until two in a row agree, and what they agree on is the result. */
  method VerifyRead(dev: Device, check: Check, target: array<bv8>, ghost runs: Attempt -> bool)
    returns (err: Err, ghost tries: seq<Attempt>)
    requires dev.s.Valid() && Covers(runs, check, target.Length)
    modifies dev, target
    ensures Rereads(old(target[..]), tries) && Ran(old(dev.s), |old(dev.trace)|, tries, dev.s, runs)
    ensures err == Verdict(old(target[..]), tries)
    ensures err == Ok <==> tries[|tries| - 1].Result() == Ok && LastAgrees(old(target[..]), tries)
    ensures tries[|tries| - 1].Result() != Ok ==> err == tries[|tries| - 1].Result()
    ensures tries[|tries| - 1].Result() == Ok && !LastAgrees(old(target[..]), tries) ==> err == InvalidCrc
    ensures target[..] == if err == Ok then tries[|tries| - 1].data else old(target[..])
  {
    var len := target.Length;
    var scratch, prev := new bv8[len], new bv8[len](i requires 0 <= i < len reads target => target[i]);
    ghost var s0, n0, first := dev.s, |dev.trace|, target[..];
    tries := [];
    assert prev[..] == target[..];
    RanNothing(s0, n0, runs);
    var attempt := 0;
    while attempt < 4
      invariant 0 <= attempt <= 4 && fresh(scratch) && fresh(prev) && scratch != prev
      invariant scratch.Length == prev.Length == len && target[..] == first
      invariant |tries| == attempt && Ran(s0, n0, tries, dev.s, runs) && (attempt == 0 ==> |dev.trace| == n0)
      invariant Undecided(first, tries, prev[..])
    {
      var agree;
      err, agree, tries := RereadAndCompare(dev, check, prev, scratch, s0, n0, first, tries, runs);
      if err != Ok {
        return;
      }
      if agree {
        forall i | 0 <= i < len { target[i] := prev[i]; }
        assert target[..] == prev[..];
        return;
      }
      scratch, prev := prev, scratch;
      attempt := attempt + 1;
    }
    NeverDecided(first, tries, prev[..]);
    err := InvalidCrc;
  }

  /** The block device layer: the read, and for the first `limit` of them a verification. */
  class BlockLayer {
    const limit: nat
    var verified: nat

    constructor (limit: nat)
      ensures this.limit == limit && verified == 0
    {
      this.limit := limit;
      verified := 0;
    }

    /**
     `tries` are the READs of the read itself and `rereads` those of its verification, which a
     read that succeeded gets while there are any left and when there is memory for it.
     */
    method Read(dev: Device, check: Check, target: array<bv8>, alloc: bool, ghost runs: Attempt -> bool)
      returns (err: Err, ghost tries: seq<Attempt>, ghost rereads: seq<Attempt>)
      requires dev.s.Valid() && Covers(runs, check, target.Length)
      modifies dev, target, this`verified
      ensures Reissued(tries) && Ran(old(dev.s), |old(dev.trace)|, tries, tries[|tries| - 1].end, runs)
      ensures dev.s.Valid() && dev.s.Reads() == old(dev.s.Reads()) + Sent(tries) + Sent(rereads)
      ensures var (last, turn) := (tries[|tries| - 1], tries[|tries| - 1].Result() == Ok && old(verified) < limit);
              && verified == old(verified) + (if turn then 1 else 0)
              && if turn && alloc then Rereads(last.data, rereads) && err == Verdict(last.data, rereads)
                 else rereads == [] && err == last.Result()
      ensures err == Ok ==> target[..] == (if rereads == [] then tries[|tries| - 1] else rereads[|rereads| - 1]).data
    {
      err, tries := ReadWithReissue(dev, check, target, target.Length, runs);
      rereads := [];
      assert target[..target.Length] == target[..];
      ghost var before := dev.s.Reads();
      assert before + Sent(rereads) == before;
      if err == Ok && verified < limit {
        verified := verified + 1;
        if alloc {
          err, rereads := VerifyRead(dev, check, target, runs);
        }
      }
    }
  }
}
