/**
 Frames of one queue redirected to several sockets. A batch is for one target: it goes out when it is
 full, when a frame for another target comes, and at the end. However the targets take turns, every
 socket gets its own frames, each of them once, and with valid fills in their order.
 */
module Redirects {
  import opened Frames
  import opened Umem
  import opened Receive
  import opened Batches

  /** The frames among these that are for socket `s`. */
  function Own(frames: seq<(nat, Bytes)>, s: nat): seq<Bytes> {
    if frames == [] then []
    else
      var n := |frames| - 1;
      Own(frames[..n], s) + if frames[n].0 == s then [frames[n].1] else []
  }

  lemma {:induction false} OwnMore(frames: seq<(nat, Bytes)>, frame: (nat, Bytes), s: nat)
    ensures Own(frames + [frame], s) == if frame.0 == s then Own(frames, s) + [frame.1] else Own(frames, s)
  {
    assert (frames + [frame])[..|frames|] == frames;
  }

  /** A socket after `own` frames have been redirected to it, the last ones still pending. */
  ghost predicate Passed(r: Region, delivers: bool, start: Rx, now: Rx, pending: seq<Bytes>, own: seq<Bytes>) {
    && ValidRx(r, start) && ValidRx(r, now) && |pending| <= |own|
    && (!delivers ==> now == start)
    && (delivers ==>
          && Conserves(r, start, now, |own| - |pending|)
          && (AllValid(r, start.fills) ==> OneByOne(r, now, pending) == OneByOne(r, start, own)))
  }

  lemma {:induction false} PassedStart(r: Region, delivers: bool, rx: Rx)
    requires ValidRx(r, rx)
    ensures Passed(r, delivers, rx, rx, [], [])
  {
    assert rx.fills[0..] == rx.fills && rx.fills[..0] == [];
    assert Bases(rx.ring) == Bases(rx.ring) + [];
  }

  lemma {:induction false} PassedPend(
    r: Region, delivers: bool, start: Rx, now: Rx, pending: seq<Bytes>, own: seq<Bytes>, flat: Bytes)
    requires Passed(r, delivers, start, now, pending, own)
    ensures Passed(r, delivers, start, now, pending + [flat], own + [flat])
  {
    OneByOneJoin(r, now, pending, [flat]);
    OneByOneJoin(r, start, own, [flat]);
  }

  lemma {:induction false} PassedFlush(
    r: Region, delivers: bool, start: Rx, now: Rx, pending: seq<Bytes>, own: seq<Bytes>)
    requires Passed(r, delivers, start, now, pending, own)
    ensures Passed(r, delivers, start, if delivers then Redirected(r, now, pending) else now, [], own)
  {
    if delivers {
      RedirectedConserves(r, now, pending);
      ConservesBoth(r, start, now, Redirected(r, now, pending), |own| - |pending|, |pending|);
      if AllValid(r, start.fills) {
        RedirectedIsExclusive(r, now, pending);
        ExclusiveIsOneByOne(r, now, pending);
      }
    }
  }

  class RedirectContext {
    const regions: seq<Region>
    const delivers: seq<bool>
    var sockets: seq<Rx>
    var target: nat
    var batch: seq<Bytes>

    ghost predicate Valid()
      reads this
    {
      && |regions| == |delivers| == |sockets| && |batch| <= BATCH && (batch != [] ==> target < |sockets|)
      && forall s :: 0 <= s < |sockets| ==> ValidRx(regions[s], sockets[s])
    }

    constructor (regions: seq<Region>, delivers: seq<bool>, sockets: seq<Rx>)
      requires |regions| == |delivers| == |sockets|
      requires forall s :: 0 <= s < |sockets| ==> ValidRx(regions[s], sockets[s])
      ensures Valid() && batch == []
      ensures this.regions == regions && this.delivers == delivers && this.sockets == sockets
    {
      this.regions, this.delivers, this.sockets, target, batch := regions, delivers, sockets, 0, [];
    }

    ghost function Pending(s: nat): seq<Bytes>
      reads this
    {
      if s == target then batch else []
    }

    /** Every socket stands where its own of the frames so far have put it. */
    ghost predicate Serving(start: seq<Rx>, frames: seq<(nat, Bytes)>)
      reads this
    {
      && Valid() && |start| == |sockets|
      && forall s :: 0 <= s < |sockets| ==>
           Passed(regions[s], delivers[s], start[s], sockets[s], Pending(s), Own(frames, s))
    }

    /** The pending batch arrives at its socket, if that is attached to this queue. */
    method FlushRedirectBatch(ghost start: seq<Rx>, ghost frames: seq<(nat, Bytes)>)
      requires Serving(start, frames) && batch != []
      modifies this`sockets, this`batch
      ensures Serving(start, frames) && batch == []
    {
      PassedFlush(regions[target], delivers[target], start[target], sockets[target], batch, Own(frames, target));
      if delivers[target] {
        sockets := sockets[target := Redirected(regions[target], sockets[target], batch)];
      }
      batch := [];
    }

    /** Puts a frame into a batch that is empty or its target's. */
    method Pend(frame: (nat, Bytes), ghost start: seq<Rx>, ghost frames: seq<(nat, Bytes)>)
      requires Serving(start, frames) && frame.0 < |sockets|
      requires |batch| < BATCH && (batch != [] ==> target == frame.0)
      modifies this`batch, this`target
      ensures Serving(start, frames + [frame]) && target == frame.0
    {
      ghost var t := frame.0;
      PassedPend(regions[t], delivers[t], start[t], sockets[t], Pending(t), Own(frames, t), frame.1);
      forall s | 0 <= s < |sockets| && s != t
        ensures Passed(regions[s], delivers[s], start[s], sockets[s], [], Own(frames, s))
      {
        assert Pending(s) == [];
      }
      if batch == [] {
        target := frame.0;
      }
      batch := batch + [frame.1];
      forall s | 0 <= s < |sockets|
        ensures Passed(regions[s], delivers[s], start[s], sockets[s], Pending(s), Own(frames + [frame], s))
      {
        OwnMore(frames, frame, s);
      }
    }

    /** Pends a frame for a target, after flushing a batch that is full or another target's. */
    method Redirect(frame: (nat, Bytes), ghost start: seq<Rx>, ghost frames: seq<(nat, Bytes)>)
      requires Serving(start, frames) && frame.0 < |sockets|
      modifies this`sockets, this`batch, this`target
      ensures Serving(start, frames + [frame]) && target == frame.0
    {
      if batch != [] && (target != frame.0 || |batch| == BATCH) {
        FlushRedirectBatch(start, frames);
      }
      Pend(frame, start, frames);
    }

    /** Redirects all of a receive batch's frames and flushes. Whatever the order of targets, an
        attached socket's frames, slots and fills are conserved over its own frames, and with valid
        fills it ends as if these had come to it one by one; a detached one is left alone. */
    method RedirectAll(frames: seq<(nat, Bytes)>)
      requires Valid() && batch == [] && forall k :: 0 <= k < |frames| ==> frames[k].0 < |sockets|
      modifies this
      ensures Valid() && batch == [] && |sockets| == |old(sockets)|
      ensures forall s :: 0 <= s < |sockets| && !delivers[s] ==> sockets[s] == old(sockets)[s]
      ensures forall s :: 0 <= s < |sockets| && delivers[s] ==>
                Conserves(regions[s], old(sockets)[s], sockets[s], |Own(frames, s)|)
      ensures forall s :: 0 <= s < |sockets| && delivers[s] && AllValid(regions[s], old(sockets)[s].fills) ==>
                sockets[s] == OneByOne(regions[s], old(sockets)[s], Own(frames, s))
    {
      ghost var start := sockets;
      ServingStart();
      RedirectEach(frames, start);
      if batch != [] {
        FlushRedirectBatch(start, frames);
      }
      assert forall s :: 0 <= s < |sockets| ==>
        Passed(regions[s], delivers[s], start[s], sockets[s], [], Own(frames, s));
    }

    lemma ServingStart()
      requires Valid() && batch == []
      ensures Serving(sockets, [])
    {
      forall s | 0 <= s < |sockets|
        ensures Passed(regions[s], delivers[s], sockets[s], sockets[s], Pending(s), Own([], s))
      {
        PassedStart(regions[s], delivers[s], sockets[s]);
      }
    }

    method RedirectEach(frames: seq<(nat, Bytes)>, ghost start: seq<Rx>)
      requires Serving(start, []) && forall k :: 0 <= k < |frames| ==> frames[k].0 < |start|
      modifies this`sockets, this`batch, this`target
      ensures Serving(start, frames)
    {
      for k := 0 to |frames|
        invariant Serving(start, frames[..k])
      {
        Redirect(frames[k], start, frames[..k]);
        assert frames[..k] + [frames[k]] == frames[..k + 1];
      }
      assert frames[..|frames|] == frames;
    }
  }
}
