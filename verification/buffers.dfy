/** Keys and byte buffers of the neighbour exchange: the per-tile neighbour store
    (`neighbors`) and the outbound per-destination buffers (`NeighborCommMap`), the latter
    kept, as `std::map` keeps it, ordered by key. */
module Buffers {
  import opened Bytes

  /** A tile: (grid id, tile id). */
  datatype PairIndex = PairIndex(grid: int, tile: int)

  /** One batch in flight: (destination process, grid id, tile id). */
  datatype CommTag = CommTag(proc: int, grid: int, tile: int)

  /** The neighbour store: a byte buffer of packed particle records per tile.
      A tile without an entry holds the empty buffer. */
  type Store = map<PairIndex, seq<byte>>

  function Get(st: Store, k: PairIndex): seq<byte> {
    if k in st then st[k] else []
  }

  /** Every tile's buffer in `st` is a prefix of its buffer in `st'`: bytes have only
      been appended. */
  ghost predicate Extends(st: Store, st': Store) {
    forall k :: Get(st, k) <= Get(st', k)
  }

  lemma ExtendsTrans(a: Store, b: Store, c: Store)
    requires Extends(a, b) && Extends(b, c)
    ensures Extends(a, c)
  {
    forall k ensures Get(a, k) <= Get(c, k) {
      assert Get(a, k) == Get(b, k)[..|Get(a, k)|];
      assert Get(b, k) == Get(c, k)[..|Get(b, k)|];
      assert Get(b, k)[..|Get(a, k)|] == Get(c, k)[..|Get(a, k)|];
    }
  }

  /** `neighbors[k]` grown by `bytes` (the `resize` + `memcpy` of the source). */
  function AppendTo(st: Store, k: PairIndex, bytes: seq<byte>): (r: Store)
    ensures Get(r, k) == Get(st, k) + bytes
    ensures forall k' :: k' != k ==> Get(r, k') == Get(st, k')
    ensures r.Keys == st.Keys + {k}
    ensures Extends(st, r)
  {
    assert Get(st, k) <= Get(st, k) + bytes;
    st[k := Get(st, k) + bytes]
  }

  // ---------------------------------------------------------------------------
  // The outbound map, ordered by tag
  // ---------------------------------------------------------------------------

  /** Lexicographic order on tags: process, then grid, then tile. */
  predicate TagLess(a: CommTag, b: CommTag) {
    || a.proc < b.proc
    || (a.proc == b.proc && a.grid < b.grid)
    || (a.proc == b.proc && a.grid == b.grid && a.tile < b.tile)
  }

  lemma TagLessTransitive(a: CommTag, b: CommTag, c: CommTag)
    requires TagLess(a, b) && TagLess(b, c)
    ensures TagLess(a, c)
  {
  }

  datatype Entry = Entry(tag: CommTag, data: seq<byte>)

  /** The outbound map as its entries in iteration order. */
  type CommList = seq<Entry>

  /** Strictly increasing tags, hence each tag at most once. */
  predicate Sorted(l: CommList) {
    forall i, j :: 0 <= i < j < |l| ==> TagLess(l[i].tag, l[j].tag)
  }

  function Tags(l: CommList): set<CommTag> {
    set i | 0 <= i < |l| :: l[i].tag
  }

  lemma TagsTail(l: CommList)
    requires |l| > 0
    ensures Tags(l) == {l[0].tag} + Tags(l[1..])
  {
    assert l == [l[0]] + l[1..];
    TagsCons(l[0], l[1..]);
  }

  /** The buffer stored under `t`; the empty buffer when `t` is absent. */
  function Lookup(l: CommList, t: CommTag): seq<byte> {
    if |l| == 0 then []
    else if l[0].tag == t then l[0].data
    else Lookup(l[1..], t)
  }

  lemma {:induction false} LookupAbsent(l: CommList, t: CommTag)
    requires t !in Tags(l)
    ensures Lookup(l, t) == []
  {
    if |l| > 0 {
      assert l[0].tag in Tags(l);
      TagsTail(l);
      LookupAbsent(l[1..], t);
    }
  }

  lemma TagsCons(e: Entry, l: CommList)
    ensures Tags([e] + l) == {e.tag} + Tags(l)
  {
    var r := [e] + l;
    forall x | x in Tags(r) ensures x in {e.tag} + Tags(l) {
      var i :| 0 <= i < |r| && r[i].tag == x;
      if i > 0 {
        assert l[i - 1].tag == x;
      }
    }
    forall x | x in Tags(l) ensures x in Tags(r) {
      var i :| 0 <= i < |l| && l[i].tag == x;
      assert r[i + 1].tag == x;
    }
    assert r[0].tag == e.tag;
  }

  lemma SortedCons(e: Entry, l: CommList)
    requires Sorted(l)
    requires forall x :: x in Tags(l) ==> TagLess(e.tag, x)
    ensures Sorted([e] + l)
  {
    var r := [e] + l;
    forall i, j | 0 <= i < j < |r| ensures TagLess(r[i].tag, r[j].tag) {
      if i == 0 {
        assert l[j - 1].tag in Tags(l);
      } else {
        assert r[i] == l[i - 1] && r[j] == l[j - 1];
      }
    }
  }

  lemma SortedHead(l: CommList)
    requires Sorted(l) && |l| > 0
    ensures Sorted(l[1..])
    ensures Tags(l) == {l[0].tag} + Tags(l[1..])
    ensures forall x :: x in Tags(l[1..]) ==> TagLess(l[0].tag, x)
  {
    assert l == [l[0]] + l[1..];
    TagsCons(l[0], l[1..]);
    forall x | x in Tags(l[1..]) ensures TagLess(l[0].tag, x) {
      var i :| 0 <= i < |l[1..]| && l[1..][i].tag == x;
      assert l[i + 1].tag == x;
    }
  }

  /** `neighbors_to_comm[t]` grown by `bytes`, the entry created in order if new. */
  function AppendAt(l: CommList, t: CommTag, bytes: seq<byte>): (r: CommList)
    requires Sorted(l)
    ensures Sorted(r)
    ensures Tags(r) == Tags(l) + {t}
  {
    if |l| == 0 then
      TagsCons(Entry(t, bytes), []);
      [Entry(t, bytes)]
    else
      SortedHead(l);
      if l[0].tag == t then
        TagsCons(Entry(t, l[0].data + bytes), l[1..]);
        SortedCons(Entry(t, l[0].data + bytes), l[1..]);
        [Entry(t, l[0].data + bytes)] + l[1..]
      else if TagLess(t, l[0].tag) then
        TagsCons(Entry(t, bytes), l);
        assert forall x :: x in Tags(l) ==> TagLess(t, x) by {
          forall x | x in Tags(l) ensures TagLess(t, x) {
            if x != l[0].tag {
              TagLessTransitive(t, l[0].tag, x);
            }
          }
        }
        SortedCons(Entry(t, bytes), l);
        [Entry(t, bytes)] + l
      else
        var rest := AppendAt(l[1..], t, bytes);
        TagsCons(l[0], rest);
        SortedCons(l[0], rest);
        [l[0]] + rest
  }

  /** Appending under `t` grows exactly the buffer of `t`. */
  lemma {:induction false} AppendAtLookup(l: CommList, t: CommTag, bytes: seq<byte>, u: CommTag)
    requires Sorted(l)
    ensures Lookup(AppendAt(l, t, bytes), u) == Lookup(l, u) + (if u == t then bytes else [])
  {
    if |l| == 0 {
    } else if l[0].tag == t {
    } else if TagLess(t, l[0].tag) {
      if u == t {
        SortedHead(l);
        assert t !in Tags(l) by {
          forall x | x in Tags(l[1..]) ensures x != t {
            TagLessTransitive(t, l[0].tag, x);
          }
        }
        LookupAbsent(l, t);
      }
    } else {
      SortedHead(l);
      AppendAtLookup(l[1..], t, bytes, u);
    }
  }
}
