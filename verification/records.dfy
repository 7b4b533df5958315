/** The particle record and its fixed-size byte image: the unit `packNeighborParticle`
    copies into a buffer (`pdata_size` bytes) and `buildNeighborList` copies back out. */
module Records {
  import opened Bytes

  /** Per-species layout fixed at configuration time: space dimension, extra real
      components, extra integer components. */
  datatype Schema = Schema(dim: nat, nreal: nat, nint: nat)

  /** A particle: position and extra reals (real words, modelled as integers), then the
      id, the creating process and the extra integers. */
  datatype Particle = Particle(pos: seq<int>, rdata: seq<int>, id: int, cpu: int, idata: seq<int>)

  /** Bytes of one record: eight per real word, four per integer (`id`, `cpu`, extras). */
  function RecordSize(sc: Schema): (r: nat)
    ensures r >= 2 * IntBytes
  {
    WordBytes * (sc.dim + sc.nreal) + IntBytes * (2 + sc.nint)
  }

  predicate AllSigned(ws: seq<int>, k: nat) {
    forall i :: 0 <= i < |ws| ==> InSigned(ws[i], k)
  }

  /** The particle has the schema's number of components (the template parameters of
      the particle type fix them). */
  predicate Sized(sc: Schema, p: Particle) {
    |p.pos| == sc.dim && |p.rdata| == sc.nreal && |p.idata| == sc.nint
  }

  predicate AllSized(sc: Schema, ps: seq<Particle>) {
    forall m :: 0 <= m < |ps| ==> Sized(sc, ps[m])
  }

  lemma AllSizedAppend(sc: Schema, a: seq<Particle>, b: seq<Particle>)
    requires AllSized(sc, a) && AllSized(sc, b)
    ensures AllSized(sc, a + b)
  {
    forall m | 0 <= m < |a + b| ensures Sized(sc, (a + b)[m]) {
      if m < |a| { assert (a + b)[m] == a[m]; } else { assert (a + b)[m] == b[m - |a|]; }
    }
  }

  /** The particle matches the schema and every field fits its word. */
  predicate WellFormed(sc: Schema, p: Particle) {
    && Sized(sc, p)
    && AllSigned(p.pos + p.rdata, WordBytes)
    && AllSigned([p.id, p.cpu] + p.idata, IntBytes)
  }

  function EncodeWords(ws: seq<int>, k: nat): (r: seq<byte>)
    ensures |r| == k * |ws|
  {
    if |ws| == 0 then [] else EncodeSigned(ws[0], k) + EncodeWords(ws[1..], k)
  }

  function DecodeWords(b: seq<byte>, k: nat, n: nat): (r: seq<int>)
    requires k >= 1 && |b| == k * n
    ensures |r| == n && AllSigned(r, k)
  {
    if n == 0 then []
    else
      assert k * n == k + k * (n - 1);
      [DecodeSigned(b[..k])] + DecodeWords(b[k..], k, n - 1)
  }

  lemma {:induction false} WordsRoundTrip(ws: seq<int>, k: nat)
    requires k >= 1 && AllSigned(ws, k)
    ensures DecodeWords(EncodeWords(ws, k), k, |ws|) == ws
  {
    if |ws| > 0 {
      var b := EncodeWords(ws, k);
      assert b[..k] == EncodeSigned(ws[0], k);
      assert b[k..] == EncodeWords(ws[1..], k);
      SignedRoundTrip(ws[0], k);
      WordsRoundTrip(ws[1..], k);
    }
  }

  lemma SignedEncodeDecode(b: seq<byte>)
    requires |b| > 0
    ensures EncodeSigned(DecodeSigned(b), |b|) == b
  {
    var p := Pow256(|b|);
    var u := DecodeUnsigned(b);
    var x := DecodeSigned(b);
    if u < p / 2 {
      assert x == u;
      ModOfSmall(u, p);
    } else {
      assert x == (u as int) - (p as int);
      ModOfNegative(x, p);
    }
    assert x % p == u;
    UnsignedEncodeDecode(b);
  }

  lemma {:induction false} WordsEncodeDecode(b: seq<byte>, k: nat, n: nat)
    requires k >= 1 && |b| == k * n
    ensures EncodeWords(DecodeWords(b, k, n), k) == b
  {
    if n > 0 {
      assert k * n == k + k * (n - 1);
      var ws := DecodeWords(b, k, n);
      SignedEncodeDecode(b[..k]);
      WordsEncodeDecode(b[k..], k, n - 1);
      assert ws[1..] == DecodeWords(b[k..], k, n - 1);
      assert b == b[..k] + b[k..];
    }
  }

  /** The record image: the real words then the integer words, as the particle struct
      lies in memory. */
  function Encode(p: Particle): (r: seq<byte>)
  {
    EncodeWords(p.pos + p.rdata, WordBytes) + EncodeWords([p.id, p.cpu] + p.idata, IntBytes)
  }

  /** Every record image is `pdata_size` bytes, whatever the field values. */
  lemma EncodeSize(sc: Schema, p: Particle)
    requires Sized(sc, p)
    ensures |Encode(p)| == RecordSize(sc)
  {
  }

  /** The real words come from the first `8 * (dim + nreal)` bytes, the integer words
      from the rest. */
  function Decode(sc: Schema, b: seq<byte>): (p: Particle)
    requires |b| == RecordSize(sc)
    ensures WellFormed(sc, p)
    ensures p.pos + p.rdata
      == DecodeWords(b[..WordBytes * (sc.dim + sc.nreal)], WordBytes, sc.dim + sc.nreal)
    ensures [p.id, p.cpu] + p.idata
      == DecodeWords(b[WordBytes * (sc.dim + sc.nreal)..], IntBytes, 2 + sc.nint)
  {
    var nr := sc.dim + sc.nreal;
    var reals := DecodeWords(b[..WordBytes * nr], WordBytes, nr);
    var ints := DecodeWords(b[WordBytes * nr..], IntBytes, 2 + sc.nint);
    assert reals == reals[..sc.dim] + reals[sc.dim..];
    assert ints == [ints[0], ints[1]] + ints[2..];
    Particle(reals[..sc.dim], reals[sc.dim..], ints[0], ints[1], ints[2..])
  }

  /** Packing a particle and unpacking the bytes gives the particle back. */
  lemma RecordRoundTrip(sc: Schema, p: Particle)
    requires WellFormed(sc, p)
    ensures |Encode(p)| == RecordSize(sc) && Decode(sc, Encode(p)) == p
  {
    var reals := p.pos + p.rdata;
    var ints := [p.id, p.cpu] + p.idata;
    var b := Encode(p);
    var nr := sc.dim + sc.nreal;
    assert b[..WordBytes * nr] == EncodeWords(reals, WordBytes);
    assert b[WordBytes * nr..] == EncodeWords(ints, IntBytes);
    WordsRoundTrip(reals, WordBytes);
    WordsRoundTrip(ints, IntBytes);
    assert reals[..sc.dim] == p.pos && reals[sc.dim..] == p.rdata;
    assert ints[2..] == p.idata;
  }

  /** Every record image is the image of the particle it decodes to. */
  lemma RecordBytesRoundTrip(sc: Schema, b: seq<byte>)
    requires |b| == RecordSize(sc)
    ensures Encode(Decode(sc, b)) == b
  {
    var nr := sc.dim + sc.nreal;
    var rb := b[..WordBytes * nr];
    var ib := b[WordBytes * nr..];
    var reals := DecodeWords(rb, WordBytes, nr);
    var ints := DecodeWords(ib, IntBytes, 2 + sc.nint);
    EncodeParts(Decode(sc, b), reals, ints);
    WordsEncodeDecode(rb, WordBytes, nr);
    WordsEncodeDecode(ib, IntBytes, 2 + sc.nint);
    assert b == rb + ib;
  }

  lemma EncodeParts(p: Particle, reals: seq<int>, ints: seq<int>)
    requires p.pos + p.rdata == reals && [p.id, p.cpu] + p.idata == ints
    ensures Encode(p) == EncodeWords(reals, WordBytes) + EncodeWords(ints, IntBytes)
  {
  }

  // ---------------------------------------------------------------------------
  // Buffers of whole records
  // ---------------------------------------------------------------------------

  function EncodeAll(ps: seq<Particle>): (r: seq<byte>)
  {
    if |ps| == 0 then [] else Encode(ps[0]) + EncodeAll(ps[1..])
  }

  /** The first `count` records of a buffer (`memcpy` of `pdata_size` bytes each). */
  function DecodeRecords(sc: Schema, b: seq<byte>, count: nat): (r: seq<Particle>)
    requires count * RecordSize(sc) <= |b|
    ensures |r| == count
    ensures forall i :: 0 <= i < count ==> WellFormed(sc, r[i])
  {
    if count == 0 then []
    else
      var sz := RecordSize(sc);
      MulSucc(count - 1, sz);
      [Decode(sc, b[..sz])] + DecodeRecords(sc, b[sz..], count - 1)
  }

  /** The records a buffer holds: its length divided by the record size, rounded down. */
  function RecordCount(sc: Schema, b: seq<byte>): (n: nat)
    ensures n * RecordSize(sc) <= |b| < (n + 1) * RecordSize(sc)
  {
    var n := |b| / RecordSize(sc);
    assert |b| == n * RecordSize(sc) + |b| % RecordSize(sc);
    n
  }

  /** Packing two runs of particles one after the other packs their concatenation. */
  lemma {:induction false} EncodeAllAppend(a: seq<Particle>, b: seq<Particle>)
    ensures EncodeAll(a + b) == EncodeAll(a) + EncodeAll(b)
  {
    if |a| > 0 {
      assert (a + b)[0] == a[0] && (a + b)[1..] == a[1..] + b;
      EncodeAllAppend(a[1..], b);
      assert Encode(a[0]) + (EncodeAll(a[1..]) + EncodeAll(b)) == (Encode(a[0]) + EncodeAll(a[1..])) + EncodeAll(b);
    } else {
      assert a + b == b;
    }
  }

  lemma MulSucc(n: nat, sz: nat)
    ensures (n + 1) * sz == sz + n * sz
  {
  }

  /** A run of packed records is a whole number of records long. */
  lemma {:induction false} EncodeAllLength(sc: Schema, ps: seq<Particle>)
    requires forall i :: 0 <= i < |ps| ==> Sized(sc, ps[i])
    ensures |EncodeAll(ps)| == |ps| * RecordSize(sc)
  {
    if |ps| > 0 {
      var sz := RecordSize(sc);
      EncodeAllLength(sc, ps[1..]);
      EncodeSize(sc, ps[0]);
      assert |EncodeAll(ps)| == sz + (|ps| - 1) * sz;
      MulSucc(|ps| - 1, sz);
    }
  }

  /** A buffer of packed well-formed particles unpacks to exactly those particles. */
  lemma {:induction false} RecordsRoundTrip(sc: Schema, ps: seq<Particle>)
    requires forall i :: 0 <= i < |ps| ==> WellFormed(sc, ps[i])
    ensures |EncodeAll(ps)| == |ps| * RecordSize(sc)
    ensures RecordCount(sc, EncodeAll(ps)) == |ps|
    ensures DecodeRecords(sc, EncodeAll(ps), |ps|) == ps
  {
    EncodeAllLength(sc, ps);
    var sz := RecordSize(sc);
    CountOfExact(|EncodeAll(ps)|, |ps|, sz);
    if |ps| > 0 {
      var b := EncodeAll(ps);
      RecordRoundTrip(sc, ps[0]);
      assert b[..sz] == Encode(ps[0]);
      assert b[sz..] == EncodeAll(ps[1..]);
      RecordsRoundTrip(sc, ps[1..]);
    }
  }

  lemma {:induction false} CountOfExact(len: nat, n: nat, sz: nat)
    requires sz > 0 && len == n * sz
    ensures len / sz == n
  {
    if n > 0 {
      assert len - sz == (n - 1) * sz;
      CountOfExact(len - sz, n - 1, sz);
      DivStep(len - sz, sz);
    }
  }

  lemma DivStep(a: nat, sz: nat)
    requires sz > 0
    ensures (a + sz) / sz == a / sz + 1
  {
    var q, r := a / sz, a % sz;
    assert a == q * sz + r;
    assert a + sz == (q + 1) * sz + r;
    DivUnique(a + sz, sz, q + 1, r);
  }

  lemma DivUnique(a: int, sz: int, q: int, r: int)
    requires sz > 0 && 0 <= r < sz && a == q * sz + r
    ensures a / sz == q
  {
    var q', r' := a / sz, a % sz;
    assert a == q' * sz + r';
    assert (q - q') * sz == r' - r;
    SmallMultiple(q - q', sz);
  }

  lemma SmallMultiple(m: int, sz: int)
    requires sz > 0 && -sz < m * sz < sz
    ensures m == 0
  {
    if m >= 1 {
      MulAtLeast(m, sz);
    } else if m <= -1 {
      MulAtLeast(-m, sz);
    }
  }

  lemma {:induction false} MulAtLeast(m: int, sz: int)
    requires m >= 1 && sz > 0
    ensures m * sz >= sz
    decreases m
  {
    if m > 1 {
      MulAtLeast(m - 1, sz);
      assert m * sz == (m - 1) * sz + sz;
    }
  }
}
