/** The wire format of one exchange round (`fillNeighborsMPI`): every destination process
    gets one buffer `ntiles, (gid, tid, size, payload)*`, and every received buffer is
    walked frame by frame into the neighbour store. */
module Framing {
  import opened Wrappers
  import opened Bytes
  import opened Seqs
  import opened Buffers

  /** Header of one frame: grid id, tile id, payload size, each a four-byte `int`. */
  const HeaderBytes: nat := 3 * IntBytes

  /** One frame. The size is the buffer length cast to `int`. */
  function Frame(e: Entry): (r: seq<byte>)
    ensures |r| == HeaderBytes + |e.data|
  {
    EncodeInt32(e.tag.grid) + EncodeInt32(e.tag.tile) + EncodeInt32(|e.data|) + e.data
  }

  /** The entries addressed to process `q`, in map order. */
  function FramesFor(l: CommList, q: int): (r: seq<Entry>)
    ensures |r| <= |l|
    ensures forall i :: 0 <= i < |r| ==> r[i].tag.proc == q
  {
    if |l| == 0 then []
    else (if l[0].tag.proc == q then [l[0]] else []) + FramesFor(l[1..], q)
  }

  function Frames(es: seq<Entry>): seq<byte> {
    if |es| == 0 then [] else Frame(es[0]) + Frames(es[1..])
  }

  /** The buffer sent to process `q`: the number of tags for `q`, then their frames. Its
      length is the byte count announced to `q` (what the sizing all-to-all carries): 4,
      plus 12 header bytes and the payload per frame; its first word reads back as the
      number of frames. */
  function EncodeFor(l: CommList, q: int): (r: seq<byte>)
    ensures |r| == IntBytes + HeaderBytes * |FramesFor(l, q)| + SumData(FramesFor(l, q))
    ensures IsInt32(|FramesFor(l, q)|) ==> DecodeInt32(r[..IntBytes]) == |FramesFor(l, q)|
  {
    var es := FramesFor(l, q);
    FramesLength(es);
    CountRoundTrip(|es|);
    assert (EncodeInt32(|es|) + Frames(es))[..IntBytes] == EncodeInt32(|es|);
    EncodeInt32(|es|) + Frames(es)
  }

  lemma CountRoundTrip(n: int)
    ensures IsInt32(n) ==> DecodeInt32(EncodeInt32(n)) == n
  {
    if IsInt32(n) {
      Int32RoundTrip(n);
    }
  }

  function Procs(l: CommList): set<int> {
    set i | 0 <= i < |l| :: l[i].tag.proc
  }

  /** `send_data`: one buffer per process that has at least one tag. */
  function SendData(l: CommList): (r: map<int, seq<byte>>)
    ensures r.Keys == Procs(l)
  {
    map q | q in Procs(l) :: EncodeFor(l, q)
  }

  // ---------------------------------------------------------------------------
  // Unpacking
  // ---------------------------------------------------------------------------

  /** Walks `n` frames of `b`, appending each non-empty payload under its tile. A buffer
      that ends inside a frame, or a negative size, is a protocol error. */
  function UnpackFrames(st: Store, b: seq<byte>, n: int): (r: Result<Store>)
    ensures r.Success? ==> Extends(st, r.value)
    decreases if n < 0 then 0 else n
  {
    if n <= 0 then Success(st)
    else if |b| < HeaderBytes then Failure(Truncated)
    else
      var gid := DecodeInt32(b[..4]);
      var tid := DecodeInt32(b[4..8]);
      var size := DecodeInt32(b[8..12]);
      if size == 0 then UnpackFrames(st, b[12..], n - 1)
      else if size < 0 then Failure(NegativeSize)
      else if |b| - HeaderBytes < size then Failure(Truncated)
      else
        var st' := AppendTo(st, PairIndex(gid, tid), b[12..12 + size]);
        var r := UnpackFrames(st', b[12 + size..], n - 1);
        ExtendsThen(st, st', r);
        r
  }

  lemma ExtendsThen(st: Store, st': Store, r: Result<Store>)
    requires Extends(st, st')
    ensures r.Success? && Extends(st', r.value) ==> Extends(st, r.value)
  {
    if r.Success? && Extends(st', r.value) {
      ExtendsTrans(st, st', r.value);
    }
  }

  /** Unpacks one received buffer into the store; bytes are only ever appended. */
  function Unpack(st: Store, b: seq<byte>): (r: Result<Store>)
    ensures r.Success? ==> Extends(st, r.value)
  {
    if |b| < IntBytes then Failure(Truncated)
    else UnpackFrames(st, b[4..], DecodeInt32(b[..4]))
  }

  /** Unpacks the received buffers in order of sending process; no tile loses bytes it
      held before. */
  function UnpackAll(st: Store, bufs: seq<seq<byte>>): (r: Result<Store>)
    ensures r.Success? ==> Extends(st, r.value)
    decreases |bufs|
  {
    if |bufs| == 0 then Success(st)
    else
      var st' :- Unpack(st, bufs[0]);
      var r := UnpackAll(st', bufs[1..]);
      ExtendsThen(st, st', r);
      r
  }

  // ---------------------------------------------------------------------------
  // Reference semantics: appending the payloads directly
  // ---------------------------------------------------------------------------

  function KeyOf(e: Entry): PairIndex {
    PairIndex(e.tag.grid, e.tag.tile)
  }

  /** Appends every non-empty payload to the store under its tile, in order. */
  function AppendFrames(st: Store, es: seq<Entry>): Store
    decreases |es|
  {
    if |es| == 0 then st
    else if |es[0].data| == 0 then AppendFrames(st, es[1..])
    else AppendFrames(AppendTo(st, KeyOf(es[0]), es[0].data), es[1..])
  }

  /** The payloads of `es` addressed to tile `k`, concatenated in order. */
  function DataFor(es: seq<Entry>, k: PairIndex): seq<byte> {
    if |es| == 0 then []
    else (if KeyOf(es[0]) == k then es[0].data else []) + DataFor(es[1..], k)
  }

  /** Appending the frames leaves each tile's buffer followed by its payloads. */
  lemma {:induction false} AppendFramesContents(st: Store, es: seq<Entry>, k: PairIndex)
    ensures Get(AppendFrames(st, es), k) == Get(st, k) + DataFor(es, k)
    decreases |es|
  {
    if |es| > 0 {
      if |es[0].data| == 0 {
        AppendFramesContents(st, es[1..], k);
      } else {
        AppendFramesContents(AppendTo(st, KeyOf(es[0]), es[0].data), es[1..], k);
      }
    }
  }

  /** A frame whose fields fit their four-byte words. */
  predicate Encodable(e: Entry) {
    IsInt32(e.tag.grid) && IsInt32(e.tag.tile) && IsInt32(|e.data|)
  }

  lemma FrameParse(e: Entry, tail: seq<byte>)
    requires Encodable(e)
    ensures var b := Frame(e) + tail;
      && |b| >= HeaderBytes + |e.data|
      && DecodeInt32(b[..4]) == e.tag.grid
      && DecodeInt32(b[4..8]) == e.tag.tile
      && DecodeInt32(b[8..12]) == |e.data|
      && b[12..12 + |e.data|] == e.data
      && b[12 + |e.data|..] == tail
  {
    var b := Frame(e) + tail;
    assert b == EncodeInt32(e.tag.grid) + EncodeInt32(e.tag.tile) + EncodeInt32(|e.data|) + e.data + tail;
    assert b[..4] == EncodeInt32(e.tag.grid);
    assert b[4..8] == EncodeInt32(e.tag.tile);
    assert b[8..12] == EncodeInt32(|e.data|);
    Int32RoundTrip(e.tag.grid);
    Int32RoundTrip(e.tag.tile);
    Int32RoundTrip(|e.data|);
  }

  lemma {:induction false} FramesRoundTrip(st: Store, es: seq<Entry>, rest: seq<byte>)
    requires forall i :: 0 <= i < |es| ==> Encodable(es[i])
    ensures UnpackFrames(st, Frames(es) + rest, |es|) == Success(AppendFrames(st, es))
    decreases |es|
  {
    if |es| > 0 {
      var e := es[0];
      var tail := Frames(es[1..]) + rest;
      assert Frames(es) + rest == Frame(e) + tail;
      FrameParse(e, tail);
      if |e.data| == 0 {
        FramesRoundTrip(st, es[1..], rest);
      } else {
        FramesRoundTrip(AppendTo(st, KeyOf(e), e.data), es[1..], rest);
      }
    }
  }

  /** Unpacking the buffer built for `q` appends, frame by frame, the payloads sent to `q`. */
  lemma FramingRoundTrip(st: Store, l: CommList, q: int)
    requires forall i :: 0 <= i < |l| ==> Encodable(l[i])
    requires IsInt32(|l|)
    ensures Unpack(st, EncodeFor(l, q)) == Success(AppendFrames(st, FramesFor(l, q)))
  {
    var es := FramesFor(l, q);
    FramesForEncodable(l, q);
    var b := EncodeFor(l, q);
    assert b[..4] == EncodeInt32(|es|);
    assert b[4..] == Frames(es) + [];
    assert IsInt32(|es|);
    Int32RoundTrip(|es|);
    FramesRoundTrip(st, es, []);
  }

  lemma {:induction false} FramesForEncodable(l: CommList, q: int)
    requires forall i :: 0 <= i < |l| ==> Encodable(l[i])
    ensures forall i :: 0 <= i < |FramesFor(l, q)| ==> Encodable(FramesFor(l, q)[i])
  {
    if |l| > 0 {
      FramesForEncodable(l[1..], q);
    }
  }

  lemma {:induction false} DataForAbsent(l: CommList, q: int, k: PairIndex)
    requires CommTag(q, k.grid, k.tile) !in Tags(l)
    ensures DataFor(FramesFor(l, q), k) == []
  {
    if |l| > 0 {
      assert l[0].tag in Tags(l);
      TagsTail(l);
      DataForAbsent(l[1..], q, k);
      var fs := FramesFor(l, q);
      if l[0].tag.proc == q {
        assert fs == [l[0]] + FramesFor(l[1..], q);
        assert fs[1..] == FramesFor(l[1..], q);
        assert KeyOf(l[0]) != k;
      } else {
        assert fs == FramesFor(l[1..], q);
      }
    }
  }

  lemma {:induction false} DataForFramesFor(l: CommList, q: int, k: PairIndex)
    requires Sorted(l)
    ensures DataFor(FramesFor(l, q), k) == Lookup(l, CommTag(q, k.grid, k.tile))
  {
    if |l| > 0 {
      SortedHead(l);
      var t := CommTag(q, k.grid, k.tile);
      var fs := FramesFor(l, q);
      if l[0].tag == t {
        assert t !in Tags(l[1..]);
        DataForAbsent(l[1..], q, k);
        assert fs == [l[0]] + FramesFor(l[1..], q);
        assert fs[1..] == FramesFor(l[1..], q);
      } else {
        DataForFramesFor(l[1..], q, k);
        if l[0].tag.proc == q {
          assert fs == [l[0]] + FramesFor(l[1..], q);
          assert fs[1..] == FramesFor(l[1..], q);
          assert KeyOf(l[0]) != k;
        } else {
          assert fs == FramesFor(l[1..], q);
        }
      }
    }
  }

  /** After unpacking the buffer sent to process `q`, every tile's store buffer is its old
      contents followed by exactly the bytes that were queued for (`q`, that tile). */
  lemma UnpackDeliversQueuedBytes(st: Store, l: CommList, q: int, k: PairIndex)
    requires Sorted(l)
    requires forall i :: 0 <= i < |l| ==> Encodable(l[i])
    requires IsInt32(|l|)
    ensures Unpack(st, EncodeFor(l, q)).Success?
    ensures Get(Unpack(st, EncodeFor(l, q)).value, k) == Get(st, k) + Lookup(l, CommTag(q, k.grid, k.tile))
  {
    FramingRoundTrip(st, l, q);
    AppendFramesContents(st, FramesFor(l, q), k);
    DataForFramesFor(l, q, k);
  }

  lemma {:induction false} FramesLength(es: seq<Entry>)
    ensures |Frames(es)| == HeaderBytes * |es| + SumData(es)
  {
    if |es| > 0 {
      FramesLength(es[1..]);
    }
  }

  function SumData(es: seq<Entry>): nat {
    if |es| == 0 then 0 else |es[0].data| + SumData(es[1..])
  }
}
