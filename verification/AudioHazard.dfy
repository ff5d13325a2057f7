/**
 The life of a stream shared between its owner, the one mixer and stop requests.

 The mixer publishes the stream it is inside in `s_mixing`, in the same critical section
 in which it reads the table; an owner closing a stream takes it out of the table and then
 waits until the mixer is not inside it. Addresses are reused: an opened stream may get
 the address of one freed before.
 */
module AudioHazard {
  import opened Collections

  const STREAM_MAX := 4

  type Ptr = nat

  /** Where the owner of an open stream is in espix_audio_stream_close. */
  datatype Phase = Owned | Draining | Unlinked | Cleared

  /** Where the mixer is in its pass over the table. */
  datatype Mixer = Between(next: nat) | Inside(slot: nat, st: Ptr)

  datatype State = State(
    table: seq<Option<Ptr>>,   // s_streams
    mixing: Option<Ptr>,       // s_mixing
    mixer: Mixer,
    owners: map<Ptr, Phase>,
    live: set<Ptr>)            // what the allocator has handed out

  datatype Event =
    | Open(slot: nat, st: Ptr)
    | Write(st: Ptr)
    | BeginClose(st: Ptr)
    | Drain(st: Ptr)
    | Unlink(st: Ptr)
    | SeeLeft(st: Ptr)
    | Free(st: Ptr)
    | Pick
    | Mix
    | Leave
    | NewPass
    | Stop

  function Init(): State {
    State(seq(STREAM_MAX, _ => None), None, Between(0), map[], {})
  }

  /** The guard of each step: what the acting code has tested, never whether memory is alive. */
  predicate Enabled(s: State, e: Event) {
    match e
    case Open(slot, st) => slot < |s.table| && s.table[slot] == None && st !in s.live
    case Write(st) => st in s.owners && s.owners[st] == Owned
    case BeginClose(st) => st in s.owners && s.owners[st] == Owned
    case Drain(st) => st in s.owners && s.owners[st] == Draining
    case Unlink(st) => st in s.owners && s.owners[st] == Draining
    case SeeLeft(st) => st in s.owners && s.owners[st] == Unlinked && s.mixing != Some(st)
    case Free(st) => st in s.owners && s.owners[st] == Cleared
    case Pick => s.mixer.Between? && s.mixer.next < |s.table|
    case Mix => s.mixer.Inside?
    case Leave => s.mixer.Inside?
    case NewPass => s.mixer.Between?
    case Stop => true
  }

  function Remove(table: seq<Option<Ptr>>, st: Ptr): (r: seq<Option<Ptr>>)
    ensures |r| == |table|
    ensures forall i :: 0 <= i < |table| ==> r[i] == if table[i] == Some(st) then None else table[i]
  {
    seq(|table|, i requires 0 <= i < |table| => if table[i] == Some(st) then None else table[i])
  }

  function Next(s: State, e: Event): State
    requires Enabled(s, e)
  {
    match e
    case Open(slot, st) =>
      s.(table := s.table[slot := Some(st)], owners := s.owners[st := Owned], live := s.live + {st})
    case Write(st) => s
    case BeginClose(st) => s.(owners := s.owners[st := Draining])
    case Drain(st) => s
    case Unlink(st) => s.(table := Remove(s.table, st), owners := s.owners[st := Unlinked])
    case SeeLeft(st) => s.(owners := s.owners[st := Cleared])
    case Free(st) => s.(owners := s.owners - {st}, live := s.live - {st})
    case Pick =>
      var i := s.mixer.next;
      s.(mixing := s.table[i],
         mixer := if s.table[i] == None then Between(i + 1) else Inside(i, s.table[i].value))
    case Mix => s
    case Leave => s.(mixing := None, mixer := Between(s.mixer.slot + 1))
    case NewPass => s.(mixer := Between(0))
    case Stop => s
  }

  /** The streams whose memory a step reads or writes. */
  function Touched(s: State, e: Event): set<Ptr>
    requires Enabled(s, e)
  {
    match e
    case Write(st) => {st}
    case BeginClose(st) => {st}
    case Drain(st) => {st}
    case Free(st) => {st}
    case Mix => {s.mixer.st}
    case Stop => set i | 0 <= i < |s.table| && s.table[i] != None :: s.table[i].value
    case _ => {}
  }

  // ----- The invariant -----

  ghost predicate Inv(s: State) {
    && s.owners.Keys == s.live
    && (forall i :: 0 <= i < |s.table| && s.table[i].Some? ==>
          s.table[i].value in s.owners && s.owners[s.table[i].value] in {Owned, Draining})
    && s.mixing == (if s.mixer.Inside? then Some(s.mixer.st) else None)
    && (s.mixer.Inside? ==> s.mixer.st in s.owners && s.owners[s.mixer.st] != Cleared)
  }

  lemma StepKeepsInv(s: State, e: Event)
    requires Inv(s) && Enabled(s, e)
    ensures Inv(Next(s, e))
  {
  }

  /** No step touches freed memory, and what a step frees is allocated. */
  lemma StepTouchesLive(s: State, e: Event)
    requires Inv(s) && Enabled(s, e)
    ensures Touched(s, e) <= s.live
    ensures e.Free? ==> e.st in s.live && e.st !in Next(s, e).live
  {
  }

  // ----- Whole runs -----

  ghost predicate Run(ss: seq<State>, es: seq<Event>) {
    && |ss| == |es| + 1
    && ss[0] == Init()
    && forall i {:trigger es[i]} :: 0 <= i < |es| ==> Enabled(ss[i], es[i]) && ss[i + 1] == Next(ss[i], es[i])
  }

  lemma {:induction false} RunKeepsInv(ss: seq<State>, es: seq<Event>, k: nat)
    requires Run(ss, es) && k < |ss|
    ensures Inv(ss[k])
  {
    if k > 0 {
      RunKeepsInv(ss, es, k - 1);
      assert ss[k] == Next(ss[k - 1], es[k - 1]);
      StepKeepsInv(ss[k - 1], es[k - 1]);
    }
  }

  /** In every interleaving the mixer, the owners and stop requests touch only live streams. */
  lemma NeverTouchesFreed(ss: seq<State>, es: seq<Event>, k: nat)
    requires Run(ss, es) && k < |es|
    ensures Touched(ss[k], es[k]) <= ss[k].live
    ensures es[k].Free? ==> es[k].st in ss[k].live
  {
    RunKeepsInv(ss, es, k);
    StepTouchesLive(ss[k], es[k]);
  }

  /** Between two frees of one address lies the open that handed it out again. */
  lemma {:induction false} NoDoubleFree(ss: seq<State>, es: seq<Event>, a: nat, b: nat)
    requires Run(ss, es) && a < b < |es|
    requires es[a].Free? && es[b].Free? && es[b].st == es[a].st
    ensures exists k :: a < k < b && es[k].Open? && es[k].st == es[a].st
  {
    RunKeepsInv(ss, es, a);
    assert ss[a + 1] == Next(ss[a], es[a]);
    assert es[a].st !in ss[a + 1].owners;
    assert Enabled(ss[b], es[b]);
    if forall k :: a < k < b ==> !(es[k].Open? && es[k].st == es[a].st) {
      StaysAbsent(ss, es, a + 1, b, es[a].st);
    }
  }

  lemma {:induction false} StaysAbsent(ss: seq<State>, es: seq<Event>, a: nat, b: nat, st: Ptr)
    requires Run(ss, es) && a <= b < |ss|
    requires st !in ss[a].owners
    requires forall k :: a <= k < b ==> !(es[k].Open? && es[k].st == st)
    ensures st !in ss[b].owners
    decreases b
  {
    if a < b {
      StaysAbsent(ss, es, a, b - 1, st);
      assert Enabled(ss[b - 1], es[b - 1]) && ss[b] == Next(ss[b - 1], es[b - 1]);
    }
  }

  /**
   The stream the mixer picked is the very one it mixes: from the pick until it leaves, that
   address is not freed, so it cannot have been handed out again either.
   */
  lemma {:induction false} MixerKeepsItsStream(ss: seq<State>, es: seq<Event>, a: nat, b: nat)
    requires Run(ss, es) && a <= b < |ss|
    requires ss[a].mixer.Inside?
    requires forall k :: a <= k < b ==> !es[k].Leave?
    ensures ss[b].mixer == ss[a].mixer && ss[a].mixer.st in ss[b].live
    ensures forall k :: a <= k < b ==> es[k] != Free(ss[a].mixer.st)
    decreases b
  {
    RunKeepsInv(ss, es, b);
    if a < b {
      MixerKeepsItsStream(ss, es, a, b - 1);
      RunKeepsInv(ss, es, b - 1);
      assert Enabled(ss[b - 1], es[b - 1]) && ss[b] == Next(ss[b - 1], es[b - 1]);
    }
  }

  /** A closer waits out one visit at most: once the mixer is elsewhere it cannot come back. */
  lemma {:induction false} MixerNeverReturns(ss: seq<State>, es: seq<Event>, a: nat, b: nat, st: Ptr)
    requires Run(ss, es) && a <= b < |ss|
    requires st in ss[a].owners && ss[a].owners[st] in {Unlinked, Cleared} && ss[a].mixing != Some(st)
    requires forall k :: a <= k < b ==> es[k] != Free(st)
    ensures st in ss[b].owners && ss[b].owners[st] in {Unlinked, Cleared} && ss[b].mixing != Some(st)
    decreases b
  {
    if a < b {
      MixerNeverReturns(ss, es, a, b - 1, st);
      RunKeepsInv(ss, es, b - 1);
      assert Enabled(ss[b - 1], es[b - 1]) && ss[b] == Next(ss[b - 1], es[b - 1]);
    }
  }

  /** The wait is needed: an unlinked stream can still be the one the mixer is inside. */
  lemma UnlinkedWhileMixing() returns (ss: seq<State>, es: seq<Event>)
    ensures Run(ss, es)
    ensures var s := ss[|es|]; s.owners == map[7 := Unlinked] && s.mixer == Inside(0, 7) && Enabled(s, Mix)
  {
    es := [Open(0, 7), Pick, BeginClose(7), Unlink(7)];
    var s0 := Init();
    var s1 := Next(s0, es[0]);
    var s2 := Next(s1, es[1]);
    var s3 := Next(s2, es[2]);
    var s4 := Next(s3, es[3]);
    ss := [s0, s1, s2, s3, s4];
  }
}
