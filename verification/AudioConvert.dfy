/**
 The converting write path of a stream: producer bytes go through a rate converter and
 from its output buffer into the ring, which may take any part of what it is offered.

 The converter is an arbitrary stateful function on chunks; the ring takes any prefix.
 */
module AudioConvert {

  type Bytes = seq<bv8>
  type Converter<!S> = (S, Bytes) -> (S, Bytes)

  function Concat(chunks: seq<Bytes>): Bytes {
    if chunks == [] then [] else chunks[0] + Concat(chunks[1..])
  }

  /** What a converter started in `s` puts out when fed the chunks one after another. */
  function Convert<S>(step: Converter<S>, s: S, chunks: seq<Bytes>): (S, Bytes) {
    if chunks == [] then (s, [])
    else
      var (s1, out) := step(s, chunks[0]);
      var (s2, rest) := Convert(step, s1, chunks[1..]);
      (s2, out + rest)
  }

  lemma {:induction false} ConvertAppend<S>(step: Converter<S>, s: S, chunks: seq<Bytes>, chunk: Bytes)
    ensures var (s1, out) := Convert(step, s, chunks);
            var (s2, more) := step(s1, chunk);
            Convert(step, s, chunks + [chunk]) == (s2, out + more)
  {
    if chunks == [] {
      assert chunks + [chunk] == [chunk];
      assert [chunk][1..] == [];
      var (s1, out) := step(s, chunk);
      assert Convert(step, s1, [chunk][1..]) == (s1, []);
      assert out + [] == out && [] + out == out;
    } else {
      var (s1, out) := step(s, chunks[0]);
      ConvertAppend(step, s1, chunks[1..], chunk);
      assert (chunks + [chunk])[0] == chunks[0];
      assert (chunks + [chunk])[1..] == chunks[1..] + [chunk];
      var (sm, mid) := Convert(step, s1, chunks[1..]);
      var (s2, more) := step(sm, chunk);
      assert out + (mid + more) == (out + mid) + more;
    }
  }

  lemma {:induction false} ConcatAppend(chunks: seq<Bytes>, chunk: Bytes)
    ensures Concat(chunks + [chunk]) == Concat(chunks) + chunk
  {
    if chunks == [] {
      assert chunks + [chunk] == [chunk];
      assert [chunk][1..] == [];
      assert Concat([chunk]) == chunk + Concat([]);
    } else {
      ConcatAppend(chunks[1..], chunk);
      assert (chunks + [chunk])[1..] == chunks[1..] + [chunk];
    }
  }

  /** A converter that works frame by frame: cutting its input between frames changes nothing. */
  ghost predicate FrameWise<S(!new)>(step: Converter<S>, frame: nat)
    requires frame > 0
  {
    && (forall s :: step(s, []) == (s, []))
    && forall s, a, b {:trigger step(s, a + b)} :: |a| % frame == 0 && |b| % frame == 0 ==>
         var (s1, o1) := step(s, a);
         var (s2, o2) := step(s1, b);
         step(s, a + b) == (s2, o1 + o2)
  }

  lemma MulMod(k: int, frame: nat)
    requires frame > 0
    ensures (frame * k) % frame == 0
  {
    var x := frame * k;
    var d := k - x / frame;
    assert frame * d == frame * k - frame * (x / frame) == x % frame;
    var f: int := frame;
    assert d >= 1 ==> f * d >= f;
    assert d <= -1 ==> f * d <= -f;
  }

  lemma ModAdd(a: nat, b: nat, frame: nat)
    requires frame > 0 && a % frame == 0 && b % frame == 0
    ensures (a + b) % frame == 0
  {
    assert a + b == frame * (a / frame) + frame * (b / frame) == frame * (a / frame + b / frame);
    MulMod(a / frame + b / frame, frame);
  }

  /** Rounding down to whole frames, as the write path does. */
  function WholeFrames(len: nat, frame: nat): (n: nat)
    requires frame > 0
    ensures n <= len < n + frame && n % frame == 0
  {
    assert len == frame * (len / frame) + len % frame;
    MulMod(len / frame, frame);
    len - len % frame
  }

  /** For such a converter the output depends on the accepted bytes alone, not on how they were cut. */
  lemma {:induction false} CutsDoNotMatter<S(!new)>(step: Converter<S>, frame: nat, s: S, chunks: seq<Bytes>)
    requires frame > 0 && FrameWise(step, frame)
    requires forall c :: c in chunks ==> |c| % frame == 0
    ensures |Concat(chunks)| % frame == 0
    ensures Convert(step, s, chunks) == step(s, Concat(chunks))
  {
    if chunks != [] {
      var (s1, out) := step(s, chunks[0]);
      CutsDoNotMatter(step, frame, s1, chunks[1..]);
      ModAdd(|chunks[0]|, |Concat(chunks[1..])|, frame);
    }
  }

  /** The next `w` bytes of a producer's data go on where the last ones ended. */
  lemma FedMore(accepted: seq<Bytes>, before: Bytes, p: Bytes, off: nat, w: nat)
    requires off + w <= |p| && Concat(accepted) == before + p[..off]
    ensures Concat(accepted + [p[off..][..w]]) == before + p[..off + w]
  {
    ConcatAppend(accepted, p[off..][..w]);
    assert p[..off] + p[off..][..w] == p[..off + w];
  }

  /** Sending the first part of a slice and keeping the rest loses nothing. */
  lemma SentPart(before: Bytes, out: Bytes, off: nat, pending: nat, w: nat)
    requires off + pending <= |out| && w <= pending
    ensures (before + out[off..off + pending][..w]) + out[off + w..(off + w) + (pending - w)] == before + out[off..off + pending]
  {
    assert out[off..off + pending][..w] + out[off + w..(off + w) + (pending - w)] == out[off..off + pending];
  }

  lemma SentFirst(before: Bytes, out: Bytes, w: nat)
    requires w <= |out|
    ensures (before + out[..w]) + out[w..w + (|out| - w)] == before + out
  {
    assert out[..w] + out[w..w + (|out| - w)] == out;
  }

  /**
   What the ring is offered to get rid of `pending`: all of it first, and what is left as long
   as the ring takes some; if any is left in the end, that was the last offer.
   */
  ghost predicate Offers(offers: seq<Bytes>, pending: Bytes, left: Bytes) {
    && (pending == [] <==> offers == [])
    && (offers != [] ==> offers[0] == pending && (left != [] ==> offers[|offers| - 1] == left))
  }

  /** `rest` is the end of `p` from some place on. */
  ghost predicate IsRest(rest: Bytes, p: Bytes) {
    |rest| <= |p| && rest == p[|p| - |rest|..]
  }

  class Stream<S(!new)> {
    const step: Converter<S>
    const start: S
    const inSize: nat             // the converter's input buffer
    const frame: nat              // bytes of one input frame
    const converts: bool          // the producer's format is not the ring's
    var conv: S
    var out: Bytes                // the converter's output buffer
    var outOff: nat
    var outPending: nat
    var ring: Bytes               // every byte the ring has taken, in order
    var stop: bool
    ghost var accepted: seq<Bytes>  // what each write that took anything took
    ghost var offered: seq<Bytes>   // what the ring has been offered, taken or not
    ghost var asked: seq<Bytes>     // what each write was given

    ghost predicate Valid()
      reads this
    {
      && frame > 0
      && outOff + outPending <= |out|
      && (!converts ==> outPending == 0 && ring == Concat(accepted))
      && (converts ==>
            Convert(step, start, accepted) == (conv, ring + out[outOff..outOff + outPending]))
      && (converts ==> forall c :: c in accepted ==> |c| % frame == 0)
    }

    /**
     Exactly once and in order: ring and pending slice together are the converter's output on
     the accepted bytes, however writes and ring space cut them.
     */
    lemma OutputIsConversionOfInput()
      requires Valid() && converts && FrameWise(step, frame)
      ensures ring + out[outOff..outOff + outPending] == step(start, Concat(accepted)).1
    {
      CutsDoNotMatter(step, frame, start, accepted);
    }

    constructor (step: Converter<S>, start: S, inSize: nat, frame: nat, converts: bool)
      requires frame > 0
      ensures Valid() && accepted == [] && ring == [] && !stop
    {
      this.step := step;
      this.start := start;
      this.inSize := inSize;
      this.frame := frame;
      this.converts := converts;
      conv, out, outOff, outPending := start, [], 0, 0;
      ring, stop, accepted, offered, asked := [], false, [], [], [];
      new;
      assert ring + out[outOff..outOff + outPending] == [];
    }

    /** The ring takes as much as it has room for before the timeout. */
    method Send(data: Bytes) returns (w: nat)
      modifies this`ring, this`offered
      ensures w <= |data|
      ensures ring == old(ring) + data[..w]
      ensures offered == old(offered) + [data]
    {
      w :| 0 <= w <= |data|;
      ring := ring + data[..w];
      offered := offered + [data];
    }

    /** Converted bytes the ring has not taken yet. */
    ghost function Pending(): Bytes
      requires outOff + outPending <= |out|
      reads this
    {
      out[outOff..outOff + outPending]
    }

    /** All that is pending is offered, and what the ring took is pending no more. */
    method OfferPending() returns (w: nat)
      requires outOff + outPending <= |out|
      modifies this`ring, this`outOff, this`outPending, this`offered
      ensures w <= old(outPending) && outPending == old(outPending) - w && outOff + outPending <= |out|
      ensures offered == old(offered) + [old(Pending())]
      ensures old(ring) <= ring && ring + Pending() == old(ring + Pending()) && (w == 0 ==> ring == old(ring) && Pending() == old(Pending()))
    {
      w := Send(out[outOff..outOff + outPending]);
      SentPart(old(ring), out, outOff, outPending, w);
      outOff, outPending := outOff + w, outPending - w;
    }

    /** They go first, in order, as far as the ring takes them. */
    method Flush() returns (done: bool)
      requires Valid() && converts
      modifies this`ring, this`outOff, this`outPending, this`offered
      ensures Valid() && done == (outPending == 0)
      ensures old(offered) <= offered && Offers(offered[|old(offered)|..], old(Pending()), Pending())
      ensures old(ring) <= ring && ring + Pending() == old(ring + Pending())
    {
      ghost var n := |offered|;
      while outPending > 0
        invariant outOff + outPending <= |out| && old(ring) <= ring && ring + Pending() == old(ring + Pending())
        invariant n <= |offered| && offered[..n] == old(offered)
        invariant if |offered| == n then Pending() == old(Pending()) else old(Pending()) != [] && offered[n] == old(Pending())
        decreases outPending
      {
        var w := OfferPending();
        if w == 0 {
          return false;
        }
      }
      done := true;
    }

    /** One chunk of whole frames is converted, and the ring offered the result. */
    method ConvertChunk(chunk: Bytes)
      requires Valid() && converts && outPending == 0
      requires |chunk| % frame == 0
      modifies this`ring, this`out, this`outOff, this`outPending, this`conv, this`accepted, this`offered
      ensures Valid()
      ensures old(ring) <= ring
      ensures accepted == old(accepted) + [chunk]
      ensures offered == old(offered) + [step(old(conv), chunk).1]
    {
      ghost var before := ring;
      assert before + out[outOff..outOff + outPending] == before;
      assert Convert(step, start, accepted) == (conv, before);
      ConvertAppend(step, start, accepted, chunk);
      var (s, converted) := step(conv, chunk);
      conv, out := s, converted;
      accepted := accepted + [chunk];
      var w := Send(out);
      outOff, outPending := w, |out| - w;
      SentFirst(before, out, w);
    }

    /**
     One write: `n` bytes of the producer's data were taken, and taken for good.
     `runs` says whether the converter hardware answered.
     */
    method Write(pcm: Bytes, runs: bool) returns (n: nat)
      requires Valid()
      modifies this`ring, this`out, this`outOff, this`outPending, this`conv, this`accepted, this`offered, this`asked
      ensures Valid() && n <= |pcm| && asked == old(asked) + [pcm] && old(offered) <= offered
      ensures !converts && pcm != [] && !stop ==> offered == old(offered) + [pcm]
      ensures converts && pcm != [] && !stop && old(outPending) > 0 ==>
                |offered| > |old(offered)| && offered[|old(offered)|] == old(out[outOff..outOff + outPending])
      ensures converts && n > 0 ==>
                |offered| > |old(offered)| && offered[|offered| - 1] == step(old(conv), pcm[..n]).1
      ensures old(ring) <= ring
      ensures accepted == if n == 0 then old(accepted) else old(accepted) + [pcm[..n]]
      ensures old(stop) ==> n == 0 && ring == old(ring)
      ensures converts && n > 0 ==> n == WholeFrames(if |pcm| > inSize then inSize else |pcm|, frame)
      ensures converts && n == 0 && !stop && runs && frame <= |pcm| && frame <= inSize ==> outPending > 0
    {
      asked := asked + [pcm];
      if pcm == [] || stop {
        return 0;
      }
      if !converts {
        n := Send(pcm);
        if n > 0 {
          ConcatAppend(accepted, pcm[..n]);
          accepted := accepted + [pcm[..n]];
        }
        return;
      }
      var flushed := Flush();
      if !flushed {
        return 0;
      }
      var chunk := WholeFrames(if |pcm| > inSize then inSize else |pcm|, frame);
      if chunk == 0 || !runs {
        return 0;
      }
      ConvertChunk(pcm[..chunk]);
      n := chunk;
    }

    /**
     The producer's loop, for as many writes as it gets before it is stopped: what went in
     is a prefix of its data, each byte once and in order.
     */
    method Feed(p: Bytes, answers: seq<bool>) returns (off: nat)
      requires Valid()
      modifies this`ring, this`out, this`outOff, this`outPending, this`conv, this`accepted, this`offered, this`asked
      ensures Valid()
      ensures off <= |p|
      ensures Concat(accepted) == Concat(old(accepted)) + p[..off]
      // every write is given all that is left, and there is one for each answer until nothing is
      ensures old(asked) <= asked && forall k :: |old(asked)| <= k < |asked| ==> IsRest(asked[k], p)
      ensures off == |p| || |asked| == |old(asked)| + |answers|
      ensures p != [] && answers != [] ==> |asked| > |old(asked)| && asked[|old(asked)|] == p
    {
      off := 0;
      assert p[0..] == p;
      var i := 0;
      while off < |p| && i < |answers|
        invariant Valid() && off <= |p| && i <= |answers|
        invariant Concat(accepted) == Concat(old(accepted)) + p[..off]
        invariant |asked| == |old(asked)| + i && asked[..|old(asked)|] == old(asked)
        invariant forall k :: |old(asked)| <= k < |asked| ==> IsRest(asked[k], p)
        invariant if i == 0 then off == 0 else asked[|old(asked)|] == p
        decreases |answers| - i
      {
        ghost var was := accepted;
        var w := Write(p[off..], answers[i]);
        if w > 0 {
          FedMore(was, Concat(old(accepted)), p, off, w);
        }
        off := off + w;
        i := i + 1;
      }
    }
  }
}
