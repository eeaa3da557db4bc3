/**
 The player's frame joiner: blocks of one timestamp are queued in a doubly linked list and leave as one byte-stream
 frame, each block behind a start code (Annex B of ITU-T H.264).
 */
module Framing {
  import opened AnnexB
  import opened Bytes
  import opened Protocol

  // ---------- Maximal runs ----------

  /** Adds a unit to the last run, or opens a new one. */
  function Place(gs: seq<seq<Unit>>, u: Unit): seq<seq<Unit>> {
    if gs != [] && gs[|gs| - 1] != [] && Last(gs[|gs| - 1]).ts == u.ts
    then gs[..|gs| - 1] + [gs[|gs| - 1] + [u]]
    else gs + [[u]]
  }

  /** The input cut into maximal runs of one timestamp. */
  function Groups(us: seq<Unit>): seq<seq<Unit>> {
    if us == [] then [] else Place(Groups(us[..|us| - 1]), us[|us| - 1])
  }

  function Last(us: seq<Unit>): Unit
    requires us != []
  {
    us[|us| - 1]
  }

  ghost predicate OneTime(g: seq<Unit>) {
    g != [] && forall i :: 0 <= i < |g| ==> g[i].ts == g[0].ts
  }

  /** Neither run could be longer. */
  ghost predicate Apart(g: seq<Unit>, h: seq<Unit>) {
    g != [] && h != [] && g[0].ts != h[0].ts
  }

  /** Every run has one timestamp, and neighbouring runs differ. */
  ghost predicate Maximal(gs: seq<seq<Unit>>) {
    && (forall i {:trigger OneTime(gs[i])} :: 0 <= i < |gs| ==> OneTime(gs[i]))
    && (forall i {:trigger gs[i]} :: 0 <= i < |gs| - 1 ==> Apart(gs[i], gs[i + 1]))
  }

  function Flatten(gs: seq<seq<Unit>>): seq<Unit> {
    if gs == [] then [] else Flatten(gs[..|gs| - 1]) + gs[|gs| - 1]
  }

  lemma PlaceFacts(gs: seq<seq<Unit>>, u: Unit)
    requires Maximal(gs)
    ensures Maximal(Place(gs, u)) && Flatten(Place(gs, u)) == Flatten(gs) + [u]
  {
    var gs' := Place(gs, u);
    if gs != [] {
      var g := gs[|gs| - 1];
      assert OneTime(g);
      if Last(g).ts == u.ts {
        assert gs'[..|gs'| - 1] == gs[..|gs| - 1];
        assert OneTime(g + [u]);
        forall i | 0 <= i < |gs'| - 1 ensures Apart(gs'[i], gs'[i + 1]) {
          assert Apart(gs[i], gs[i + 1]);
        }
      } else {
        assert gs'[..|gs|] == gs && OneTime([u]);
        forall i | 0 <= i < |gs'| - 1 ensures Apart(gs'[i], gs'[i + 1]) {
          assert i < |gs| - 1 ==> Apart(gs[i], gs[i + 1]);
        }
      }
    } else {
      assert gs' == [[u]] && [[u]][..0] == [];
    }
  }

  /** The runs, in order, are the whole input, and they are maximal. */
  lemma {:induction false} GroupsAreMaximal(us: seq<Unit>)
    ensures Flatten(Groups(us)) == us && Maximal(Groups(us))
  {
    hide Maximal, Place;
    if us == [] {
      NoGroups();
    } else {
      GroupsAreMaximal(us[..|us| - 1]);
      PlaceFacts(Groups(us[..|us| - 1]), us[|us| - 1]);
    }
  }

  lemma NoGroups()
    ensures Maximal([])
  {
  }

  /** The frames that runs become. */
  function Streams(gs: seq<seq<Unit>>): seq<Data> {
    if gs == [] then [] else Streams(gs[..|gs| - 1]) + [Stream(gs[|gs| - 1])]
  }

  function Concat(ds: seq<Data>): Data {
    if ds == [] then [] else Concat(ds[..|ds| - 1]) + ds[|ds| - 1]
  }

  /** All frames one after the other are the framing of the whole input. */
  lemma {:induction false} StreamsConcat(gs: seq<seq<Unit>>)
    ensures Concat(Streams(gs)) == Stream(Flatten(gs))
  {
    if gs != [] {
      var n := |gs| - 1;
      StreamsConcat(gs[..n]);
      StreamConcat(Flatten(gs[..n]), gs[n]);
      assert Streams(gs)[..|Streams(gs)| - 1] == Streams(gs[..n]);
    }
  }

  // ---------- The queue ----------

  class Block {
    const unit: Unit
    var prev: Block?
    var next: Block?

    constructor (unit: Unit)
      ensures this.unit == unit && prev == null && next == null
    {
      this.unit, prev, next := unit, null, null;
    }
  }

  /** A frame that left the queue. */
  class Frame {
    const data: array<Byte>
    const ts: int

    constructor (data: array<Byte>, ts: int)
      ensures this.data == data && this.ts == ts
    {
      this.data, this.ts := data, ts;
    }
  }

  function Units(bs: seq<Block>): (us: seq<Unit>)
    ensures |us| == |bs| && forall i :: 0 <= i < |bs| ==> us[i] == bs[i].unit
  {
    if bs == [] then [] else Units(bs[..|bs| - 1]) + [bs[|bs| - 1].unit]
  }

  ghost predicate Distinct(bs: seq<Block>) {
    forall i, j :: 0 <= i < j < |bs| ==> bs[i] != bs[j]
  }

  /** `bs` are chained by their links in both directions, from `first` to `last`. */
  ghost predicate Chained(bs: seq<Block>, first: Block?, last: Block?)
    reads bs
  {
    && Distinct(bs)
    && first == (if bs == [] then null else bs[0])
    && (bs != [] ==> last == bs[|bs| - 1])
    && (forall i :: 0 <= i < |bs| ==> bs[i].next == At(bs, i + 1) && bs[i].prev == At(bs, i - 1))
  }

  /** The block at place `i`, or null off the ends. */
  ghost function At(bs: seq<Block>, i: int): Block? {
    if 0 <= i < |bs| then bs[i] else null
  }

  class BlockQueue {
    var first: Block?
    var last: Block?
    var size: nat
    ghost var blocks: seq<Block>
    ghost var Repr: set<Block>

    /**
     While anything is queued, `size` is the number of bytes its frame will have and all of it has one timestamp.
     A flush that leaves the queue empty leaves `size` as it was.
     */
    ghost predicate Valid()
      reads this, Repr
    {
      && Linked()
      && (blocks != [] ==> Sized() && OneTime(Units(blocks)))
    }

    /** `size` is the number of bytes that what is queued will have. */
    ghost predicate Sized()
      reads this
    {
      size == |Stream(Units(blocks))|
    }

    ghost predicate Linked()
      reads this, Repr
    {
      && (forall i :: 0 <= i < |blocks| ==> blocks[i] in Repr)
      && Chained(blocks, first, last)
    }

    constructor ()
      ensures Valid() && blocks == [] && Repr == {} && Sized()
    {
      first, last, size, blocks, Repr := null, null, 0, [], {};
    }

    /** The queue becomes the one block `b`. */
    method Begin(b: Block)
      requires b.next == null && b.prev == null
      modifies this
      ensures Valid() && blocks == [b] && Repr == {b}
    {
      first, last := b, b;
      Repr := {b};
      size := (if b.unit.mark then 4 else 3) + |b.unit.data|;
      blocks := [b];
      SingleFacts(b);
    }

    /** Appends a block of the same timestamp. */
    method Append(b: Block)
      requires Valid() && blocks != [] && b !in Repr && b.next == null && b.prev == null
      requires b.unit.ts == blocks[0].unit.ts
      modifies this, Repr`next, b`prev
      ensures Valid() && blocks == old(blocks) + [b] && Repr == old(Repr) + {b}
    {
      hide Stream, Units, OneTime, StartCode;
      PushFacts(blocks, b);
      StartSize(b.unit.mark);
      assert Units(blocks)[0] == blocks[0].unit;
      LinkLast(b);
      size := size + (if b.unit.mark then 4 else 3) + |b.unit.data|;
    }

    method LinkLast(b: Block)
      requires Linked() && blocks != [] && b !in Repr && b.next == null && b.prev == null
      modifies this`last, this`blocks, this`Repr, Repr`next, b`prev
      ensures Linked() && blocks == old(blocks) + [b] && Repr == old(Repr) + {b}
    {
      ghost var was := blocks;
      last.next := b;
      b.prev := last;
      last := b;
      blocks := blocks + [b];
      Repr := Repr + {b};
      forall i | 0 <= i < |was|
        ensures was[i].next == At(blocks, i + 1) && was[i].prev == At(blocks, i - 1)
      {
        assert old(was[i].next) == At(was, i + 1) && old(was[i].prev) == At(was, i - 1);
      }
    }

    /** Unlinks the first block. */
    method Pop() returns (curr: Block)
      requires blocks != [] && Linked()
      modifies this`first, this`blocks, Repr`prev
      ensures curr == old(blocks)[0] && blocks == old(blocks)[1..] && Linked()
    {
      ghost var was := blocks;
      curr := first;
      assert was[0].next == At(was, 0 + 1);
      first := curr.next;
      if first != null { first.prev := null; }
      blocks := blocks[1..];
      forall i | 0 <= i < |blocks|
        ensures blocks[i].next == At(blocks, i + 1) && blocks[i].prev == At(blocks, i - 1)
      {
        assert blocks[i] == was[i + 1] && old(was[i + 1].next) == At(was, i + 1 + 1);
        assert old(was[i + 1].prev) == At(was, i + 1 - 1);
      }
    }

    /** Takes all blocks off the queue and joins them into one frame; the copying ends exactly at its end. */
    method TakeAll() returns (frame: Frame)
      requires Valid() && blocks != []
      modifies this, Repr
      ensures Valid() && blocks == [] && first == null && size == old(size) && Repr == {} && !Sized()
      ensures fresh(frame) && fresh(frame.data)
      ensures frame.data[..] == Stream(Units(old(blocks))) && frame.ts == old(blocks)[0].unit.ts
    {
      hide Stream, Units, Chained, OneTime;
      ghost var all := blocks;
      ChainEnds(blocks, first, last);
      var data := new Byte[size];
      frame := new Frame(data, last.unit.ts);
      LastOfRun(all);
      var offset := 0;
      ghost var done: seq<Block> := [];
      NothingYet();
      SomeBytes(all);
      assert all == done + blocks;
      while first != null
        invariant all == done + blocks && Linked() && Repr == old(Repr)
        invariant offset == |Stream(Units(done))| <= data.Length && data[..offset] == Stream(Units(done))
        invariant data.Length == |Stream(Units(all))| && frame.data == data && frame.ts == all[0].unit.ts
        invariant size == old(size)
        decreases |blocks|
      {
        ChainEnds(blocks, first, last);
        StepFacts(all, done, blocks);
        var curr := Pop();
        offset := CopyUnit(data, offset, curr.unit, Stream(Units(done)));
        done := done + [curr];
      }
      ChainEnds(blocks, first, last);
      assert done + [] == done;
      assert data[..offset] == data[..];
      last := null;
      Repr := {};
      ChainNone(first, last);
    }

    /** The queue leaves as one frame, from which a decoder reads the payloads of the blocks in order. */
    method Flush() returns (frame: Frame)
      requires Valid() && blocks != []
      modifies this, Repr
      ensures Valid() && blocks == [] && first == null && size == old(size) && Repr == {} && !Sized()
      ensures fresh(frame) && fresh(frame.data)
      ensures frame.data[..] == Stream(Units(old(blocks))) && frame.ts == old(blocks)[0].unit.ts
      ensures forall k :: 0 <= k < |old(blocks)| ==>
                Coded(frame.data[..], |Stream(Units(old(blocks))[..k])|, old(blocks)[k].unit)
      ensures AllClean(Units(old(blocks))) ==> Unframe(frame.data[..]) == Payloads(Units(old(blocks)))
    {
      hide Stream, Units, Chained, OneTime, Coded, AllClean, Unframe, Linked, Sized;
      Decoded(Units(blocks));
      UnitsAt(blocks);
      frame := TakeAll();
    }

    /** Writes a start code and the data behind it. */
    method CopyUnit(buf: array<Byte>, offset: nat, u: Unit, ghost filled: Data) returns (next: nat)
      requires offset + |Framed(u)| <= buf.Length && buf[..offset] == filled
      modifies buf
      ensures next == offset + |Framed(u)| && buf[..next] == filled + Framed(u)
    {
      next := Bytes.Append(buf, offset, StartCode(u.mark), filled);
      next := Bytes.Append(buf, next, u.data, filled + StartCode(u.mark));
      Assoc(filled, StartCode(u.mark), u.data);
    }

    /**
     Takes the next block, or nothing to flush.  A block of another timestamp, or nothing, makes the queued run leave
     as one frame.  After a last flush, and only then, `size` is wrong until the next block comes.
     */
    method Join(b: Block?) returns (frame: Frame?)
      requires Valid() && (b != null ==> b !in Repr && b.next == null && b.prev == null)
      modifies this, Repr, b
      ensures Valid() && Repr <= old(Repr) + (if b == null then {} else {b})
      ensures frame != null <==> old(blocks) != [] && (b == null || b.unit.ts != old(blocks)[0].unit.ts)
      ensures frame != null ==>
                fresh(frame) && frame.data[..] == Stream(Units(old(blocks))) && frame.ts == old(blocks)[0].unit.ts
      ensures blocks == if frame != null then (if b == null then [] else [b])
                        else if b == null then old(blocks) else old(blocks) + [b]
      ensures Sized() <==> b != null || (old(blocks) == [] && old(Sized()))
    {
      hide Stream, Units, Chained, OneTime;
      ChainEnds(blocks, first, last);
      if first == null && b == null { return null; }
      if first == null {
        Begin(b);
        return null;
      }
      LastOfRun(blocks);
      if b != null && b.unit.ts == last.unit.ts {
        Append(b);
        return null;
      }
      frame := Flush();
      if b != null { Begin(b); }
    }
  }

  lemma StartSize(mark: bool)
    ensures |StartCode(mark)| == if mark then 4 else 3
  {
  }

  lemma ChainEnds(bs: seq<Block>, first: Block?, last: Block?)
    requires Chained(bs, first, last)
    ensures first == null <==> bs == []
    ensures bs != [] ==> first == bs[0] && last == bs[|bs| - 1]
  {
  }

  lemma ChainNone(first: Block?, last: Block?)
    requires first == null
    ensures Chained([], first, last)
  {
  }

  lemma LastOfRun(bs: seq<Block>)
    requires bs != [] && OneTime(Units(bs))
    ensures bs[|bs| - 1].unit.ts == bs[0].unit.ts
  {
    assert Units(bs)[|bs| - 1].ts == Units(bs)[0].ts;
  }

  lemma NothingYet()
    ensures Stream(Units([])) == []
  {
  }

  lemma SomeBytes(bs: seq<Block>)
    requires bs != []
    ensures |Stream(Units(bs))| > 0
  {
    var n := |bs| - 1;
    assert bs == bs[..n] + [bs[n]];
    PushFacts(bs[..n], bs[n]);
  }

  lemma SingleFacts(b: Block)
    ensures Units([b]) == [b.unit] && OneTime(Units([b]))
    ensures |Stream(Units([b]))| == (if b.unit.mark then 4 else 3) + |b.unit.data|
  {
    assert [b.unit][..0] == [];
    assert Stream([b.unit]) == Stream([]) + Framed(b.unit);
  }

  lemma PushFacts(bs: seq<Block>, b: Block)
    ensures Units(bs + [b]) == Units(bs) + [b.unit]
    ensures Stream(Units(bs + [b])) == Stream(Units(bs)) + Framed(b.unit)
    ensures OneTime(Units(bs)) && Units(bs)[0].ts == b.unit.ts ==> OneTime(Units(bs + [b]))
  {
    assert (bs + [b])[..|bs|] == bs;
    assert (Units(bs) + [b.unit])[..|bs|] == Units(bs);
  }

  lemma {:induction false} UnitsConcat(a: seq<Block>, b: seq<Block>)
    ensures Units(a + b) == Units(a) + Units(b)
  {
  }

  /** There is room for the next block, and copying it extends the stream. */
  lemma StepFacts(all: seq<Block>, done: seq<Block>, rest: seq<Block>)
    requires all == done + rest && rest != []
    ensures all == (done + [rest[0]]) + rest[1..]
    ensures |Stream(Units(done))| + |Framed(rest[0].unit)| <= |Stream(Units(all))|
    ensures Stream(Units(done + [rest[0]])) == Stream(Units(done)) + Framed(rest[0].unit)
  {
    hide Units, Stream, Framed;
    PushFacts(done, rest[0]);
    assert all == (done + [rest[0]]) + rest[1..];
    UnitsConcat(done + [rest[0]], rest[1..]);
    StreamConcat(Units(done + [rest[0]]), Units(rest[1..]));
  }

  // ---------- A whole transmission ----------

  /**
   Joins every block in turn and flushes at the end: the frames are the maximal runs of the input, in order.  The
   queue is left with a wrong size whenever there was anything to play.
   */
  method Play(us: seq<Unit>) returns (frames: seq<Data>, ghost sized: bool)
    ensures frames == Streams(Groups(us))
    ensures Concat(frames) == Stream(us)
    ensures forall k :: 0 <= k < |us| ==> Coded(Concat(frames), |Stream(us[..k])|, us[k])
    ensures AllClean(us) ==> Unframe(Concat(frames)) == Payloads(us)
    ensures sized <==> us == []
  {
    hide Stream, Units, Chained, OneTime, Groups, Streams, Concat, Splits, Maximal, Flatten, BlockQueue.Linked;
    hide Coded, AllClean, Unframe;
    var queue := new BlockQueue();
    frames := [];
    GroupsNone();
    assert us[..0] == [];
    var i := 0;
    while i < |us|
      invariant 0 <= i <= |us| && queue.Valid() && fresh(queue)
      invariant fresh(queue.Repr) && (queue.blocks == [] <==> i == 0) && queue.Sized()
      invariant Splits(us[..i], frames, Units(queue.blocks))
    {
      var b := new Block(us[i]);
      PlayStep(us, i, frames, queue.blocks, b);
      var frame := queue.Join(b);
      if frame != null { frames := frames + [frame.data[..]]; }
      i := i + 1;
    }
    assert us[..i] == us;
    PlayEnd(us, frames, queue.blocks);
    var frame := queue.Join(null);
    if frame != null { frames := frames + [frame.data[..]]; }
    sized := queue.Sized();
    Decoded(us);
    FramesAreAll(us);
  }

  /** What a stream holds, and what a decoder makes of it. */
  lemma Decoded(us: seq<Unit>)
    ensures forall k :: 0 <= k < |us| ==> Coded(Stream(us), |Stream(us[..k])|, us[k])
    ensures AllClean(us) ==> Unframe(Stream(us)) == Payloads(us)
  {
    hide Coded, AllClean, Unframe, Stream;
    forall k | 0 <= k < |us| ensures Coded(Stream(us), |Stream(us[..k])|, us[k]) {
      CodesInPlace(us, k);
    }
    if AllClean(us) { UnframeStream(us); }
  }

  lemma UnitsAt(bs: seq<Block>)
    ensures |Units(bs)| == |bs| && forall k :: 0 <= k < |bs| ==> Units(bs)[k] == bs[k].unit
  {
  }

  lemma FramesAreAll(us: seq<Unit>)
    ensures Concat(Streams(Groups(us))) == Stream(us)
  {
    GroupsAreMaximal(us);
    StreamsConcat(Groups(us));
  }

  /** The frames so far are all runs but the open one, which is queued. */
  ghost predicate Splits(us: seq<Unit>, frames: seq<Data>, open: seq<Unit>) {
    var gs := Groups(us);
    if gs == [] then frames == [] && open == []
    else open == gs[|gs| - 1] && frames == Streams(gs[..|gs| - 1])
  }

  lemma GroupsNone()
    ensures Splits([], [], Units([]))
  {
  }

  lemma PlayStep(us: seq<Unit>, i: nat, frames: seq<Data>, queued: seq<Block>, b: Block)
    requires i < |us| && b.unit == us[i] && Splits(us[..i], frames, Units(queued))
    requires queued != [] ==> OneTime(Units(queued))
    ensures queued == [] ==> Splits(us[..i + 1], frames, Units(queued + [b]))
    ensures queued != [] && us[i].ts == queued[0].unit.ts ==> Splits(us[..i + 1], frames, Units(queued + [b]))
    ensures queued != [] && us[i].ts != queued[0].unit.ts ==>
              Splits(us[..i + 1], frames + [Stream(Units(queued))], Units([b]))
  {
    hide Stream, Framed;
    assert us[..i + 1][..i] == us[..i];
    var gs := Groups(us[..i]);
    GroupsAreMaximal(us[..i]);
    PushFacts(queued, b);
    SingleFacts(b);
    if queued == [] {
      assert queued + [b] == [b];
    } else {
      LastOfRun(queued);
      var gs' := Groups(us[..i + 1]);
      assert gs'[..|gs'| - 1] == if us[i].ts == queued[0].unit.ts then gs[..|gs| - 1] else gs;
    }
  }

  lemma PlayEnd(us: seq<Unit>, frames: seq<Data>, queued: seq<Block>)
    requires Splits(us, frames, Units(queued))
    ensures queued == [] ==> frames == Streams(Groups(us))
    ensures queued != [] ==> frames + [Stream(Units(queued))] == Streams(Groups(us))
  {
    GroupsAreMaximal(us);
  }
}
