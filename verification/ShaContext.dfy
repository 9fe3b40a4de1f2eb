/** The contexts of js-crypto.c: a block buffer filled in place and a length kept in two words. */
module ShaContext {
  import opened Bytes
  import opened Sha

  class Context<S> {
    const kind: Kind
    const alg: Alg<S>
    var state: S
    var lo: nat
    var hi: nat
    const buffer: array<Byte>
    ghost var taken: Bytes

    /** The context stands for the bytes taken so far. */
    ghost predicate Valid()
      reads this, buffer
    {
      var b := BlockSize(kind);
      && buffer.Length == b
      && Counts(kind, lo, hi, |taken|)
      && state == Fold(alg, b, alg.init, taken)
      && |Rest(b, taken)| == Used(kind, |taken|)
      && buffer[..Used(kind, |taken|)] == Rest(b, taken)
    }

    constructor (kind: Kind, alg: Alg<S>)
      ensures this.kind == kind && this.alg == alg
      ensures Valid() && taken == [] && fresh(buffer)
    {
      this.kind, this.alg := kind, alg;
      state, lo, hi := alg.init, 0, 0;
      buffer := new Byte[BlockSize(kind)];
      taken := [];
      new;
      Empty(kind, alg);
    }

    /** Where in the buffer the next byte goes, read off the low counter word. */
    function Index(): (j: nat)
      reads this
      requires Counts(kind, lo, hi, |taken|)
      ensures j == Used(kind, |taken|)
    {
      IndexRight(kind, lo, hi, |taken|);
      match kind
      case Sha1 => lo / 8 % 64
      case Sha256 => lo % 64
      case Sha512 => lo % 128
    }

    method Fill(at: nat, data: Bytes)
      requires at + |data| <= buffer.Length
      modifies buffer
      ensures buffer[..at + |data|] == old(buffer[..at]) + data
      ensures buffer[at + |data|..] == old(buffer[at + |data|..])
    {
      forall i | 0 <= i < |data| {
        buffer[at + i] := data[i];
      }
    }

    /** The block loop of the update functions, from buffer index j. */
    method Absorb(j: nat, data: Bytes)
      requires buffer.Length == BlockSize(kind) && j < buffer.Length
      modifies this`state, buffer
      ensures var whole := old(buffer[..j]) + data;
              && state == Fold(alg, BlockSize(kind), old(state), whole)
              && |Rest(BlockSize(kind), whole)| <= buffer.Length
              && buffer[..|Rest(BlockSize(kind), whole)|] == Rest(BlockSize(kind), whole)
    {
      var b := BlockSize(kind);
      ghost var s0, whole := state, buffer[..j] + data;
      var i, at := 0, j;
      if j + |data| >= b {
        i, at := b - j, 0;
        Fill(j, data[..i]);
        assert whole[..b] == buffer[..] && whole[b..] == data[i..];
        state := alg.f(state, buffer[..]);
        while i + b <= |data|
          invariant 0 < i <= |data|
          invariant Fold(alg, b, s0, whole) == Fold(alg, b, state, data[i..])
          invariant Rest(b, whole) == Rest(b, data[i..])
        {
          assert data[i..][..b] == data[i..i + b] && data[i..][b..] == data[i + b..];
          state := alg.f(state, data[i..i + b]);
          i := i + b;
        }
        Fill(0, data[i..]);
      } else {
        Fill(j, data);
      }
    }

    /** sha1_update, sha256_update, sha512_update. */
    method Update(data: Bytes)
      requires Valid() && |data| < TWO_64
      modifies this, buffer
      ensures Valid() && taken == old(taken) + data
    {
      var j := Index();
      CountsUp(kind, lo, hi, |taken|, |data|);
      FoldAppend(alg, BlockSize(kind), alg.init, taken, data);
      RestLength(kind, taken + data);
      var (lo', hi') := CountUp(kind, lo, hi, |data|);
      Absorb(j, data);
      lo, hi := lo', hi';
      taken := taken + data;
    }

    /** sha1_final: the padding is fed through update, zeros one byte at a time until the counter
        says eight bytes of the block are left. */
    method Final1() returns (digest: Bytes)
      requires Valid() && kind == Sha1
      modifies this, buffer
      ensures digest == Digest(Sha1, alg, old(taken))
    {
      ghost var m := taken;
      var fc := BE(hi, 4) + BE(lo, 4);
      Length1(hi, lo, |m|);
      Update([0x80]);
      ghost var k := 0;
      AtGap(lo, hi, |m|, k);
      while lo / 8 % 64 * 8 != 448
        invariant Valid()
        invariant taken == m + [0x80] + Zeros(k)
        invariant k <= Gap(Sha1, |m|) && (lo / 8 % 64 * 8 == 448 <==> k == Gap(Sha1, |m|))
        decreases Gap(Sha1, |m|) - k
      {
        Update([0]);
        k := k + 1;
        assert Zeros(k) == Zeros(k - 1) + [0];
        Assoc(m + [0x80], Zeros(k - 1), [0]);
        AtGap(lo, hi, |m|, k);
      }
      Update(fc);
      PaddedInSteps(m);
      digest := alg.out(state);
    }

    /** sha256_final and sha512_final: the padding is written into the buffer directly, over one
        block or two, with the length in its last bytes. */
    method FinalDirect() returns (digest: Bytes)
      requires Valid() && kind != Sha1
      modifies this, buffer
      ensures digest == Digest(kind, alg, old(taken))
    {
      var b, l := BlockSize(kind), LengthSize(kind);
      var len := LengthBytes(kind, lo, hi);
      LengthRight(kind, lo, hi, |taken|);
      var idx := Index();
      FoldAppend(alg, b, alg.init, taken, Padding(kind, |taken|));
      ghost var tail := Rest(b, taken) + Padding(kind, |taken|);
      TailBlocks(kind, Rest(b, taken), |taken|);
      FoldBlocks(alg, b, state, tail);
      Fill(idx, [0x80]);
      idx := idx + 1;
      if idx > b - l {
        Fill(idx, Zeros(b - idx));
        assert buffer[..] == buffer[..b];
        state := alg.f(state, buffer[..]);
        idx := 0;
      }
      Fill(idx, Zeros(b - l - idx));
      Fill(b - l, len);
      assert buffer[..] == buffer[..b];
      state := alg.f(state, buffer[..]);
      digest := alg.out(state);
    }
  }

  /** What the final functions write after the unfinished block r: one block, or two. */
  lemma TailBlocks(kind: Kind, r: Bytes, n: nat)
    requires |r| == Used(kind, n)
    ensures var b, l, tail := BlockSize(kind), LengthSize(kind), r + Padding(kind, n);
            if |r| + 1 > b - l then
              && |tail| == 2 * b
              && tail[..b] == r + [0x80] + Zeros(b - |r| - 1)
              && tail[b..] == [] + Zeros(b - l) + BE(8 * n, l)
            else
              && |tail| == b
              && tail == r + [0x80] + Zeros(b - l - |r| - 1) + BE(8 * n, l)
  {
    var b, l, z, len := BlockSize(kind), LengthSize(kind), Zeros(Gap(kind, n)), BE(8 * n, LengthSize(kind));
    Assoc(r, [0x80], z);
    Assoc(r, [0x80] + z, len);
    var tail := (r + [0x80]) + z + len;
    assert tail == r + Padding(kind, n);
    if |r| + 1 > b - l {
      assert z == Zeros(b - |r| - 1) + Zeros(b - l);
      assert tail == (r + [0x80] + Zeros(b - |r| - 1)) + (Zeros(b - l) + len);
      Halves(r + [0x80] + Zeros(b - |r| - 1), Zeros(b - l) + len);
      assert [] + Zeros(b - l) == Zeros(b - l);
    }
  }

  lemma Empty<S>(kind: Kind, alg: Alg<S>)
    ensures Fold(alg, BlockSize(kind), alg.init, []) == alg.init
    ensures Rest(BlockSize(kind), []) == [] && Used(kind, 0) == 0 && Counts(kind, 0, 0, 0)
  {
  }

  /** One block and two. */
  lemma FoldBlocks<S>(alg: Alg<S>, b: nat, s: S, m: Bytes)
    requires b > 0
    ensures |m| == b ==> Fold(alg, b, s, m) == alg.f(s, m)
    ensures |m| == 2 * b ==> Fold(alg, b, s, m) == alg.f(alg.f(s, m[..b]), m[b..])
  {
    if |m| == b {
      FoldOne(alg, b, s, m);
    } else if |m| == 2 * b {
      FoldOne(alg, b, alg.f(s, m[..b]), m[b..]);
    }
  }

  lemma Mod64(x: nat, k: int)
    requires x + 64 * k >= 0
    ensures (x + 64 * k) % 64 == x % 64
  {
  }

  lemma Mod128(x: nat, k: int)
    requires x + 128 * k >= 0
    ensures (x + 128 * k) % 128 == x % 128
  {
  }

  lemma IndexRight1(lo: nat, hi: nat, n: nat)
    requires Counts(Sha1, lo, hi, n)
    ensures lo / 8 % 64 == n % 64
  {
    var q := 8 * n / TWO_64;
    assert 8 * n == lo + q * TWO_64 + hi * TWO_32;
    assert n == lo / 8 + 64 * (q * 0x80_0000_0000_0000 + hi * 0x80_0000);
    Mod64(lo / 8, q * 0x80_0000_0000_0000 + hi * 0x80_0000);
  }

  lemma IndexRight(kind: Kind, lo: nat, hi: nat, n: nat)
    requires Counts(kind, lo, hi, n)
    ensures match kind
            case Sha1 => lo / 8 % 64 == Used(kind, n)
            case Sha256 => lo % 64 == Used(kind, n)
            case Sha512 => lo % 128 == Used(kind, n)
  {
    match kind
    case Sha1 => IndexRight1(lo, hi, n);
    case Sha256 =>
      var q := n / TWO_64;
      assert n == lo + 64 * (q * 0x400_0000_0000_0000);
      Mod64(lo, q * 0x400_0000_0000_0000);
    case Sha512 =>
      IndexRight512(lo, hi, n);
  }

  lemma IndexRight512(lo: nat, hi: nat, n: nat)
    requires Counts(Sha512, lo, hi, n)
    ensures lo % 128 == n % 128
  {
    var q := n / (TWO_64 * TWO_64);
    var k := q * (0x200_0000_0000_0000 * TWO_64) + hi * 0x200_0000_0000_0000;
    assert n == lo + 128 * k;
    Mod128(lo, k);
  }

  lemma GapReached(n: nat, k: nat)
    requires k <= Gap(Sha1, n)
    ensures k == Gap(Sha1, n) <==> (n + 1 + k) % 64 == 56
  {
    var r := n % 64;
    Mod64(r + 1 + k, n / 64);
  }

  /** sha1_final's loop test holds exactly when the zeros written fill the gap. */
  lemma AtGap(lo: nat, hi: nat, n: nat, k: nat)
    requires k <= Gap(Sha1, n) && Counts(Sha1, lo, hi, n + 1 + k)
    ensures lo / 8 % 64 * 8 == 448 <==> k == Gap(Sha1, n)
  {
    IndexRight1(lo, hi, n + 1 + k);
    GapReached(n, k);
  }

  lemma PaddedInSteps(m: Bytes)
    ensures m + [0x80] + Zeros(Gap(Sha1, |m|)) + BE(8 * |m|, 8) == Padded(Sha1, m)
  {
    var z, len := Zeros(Gap(Sha1, |m|)), BE(8 * |m|, 8);
    Assoc(m, [0x80], z);
    Assoc(m, [0x80] + z, len);
  }

  /** The length field the final functions write, from the counter words. */
  function LengthBytes(kind: Kind, lo: nat, hi: nat): Bytes
    requires kind != Sha1
  {
    if kind == Sha256 then BE(lo * 8 % TWO_64, 8)
    else BE((hi * 8 % TWO_64 + lo / 0x2000_0000_0000_0000) % TWO_64, 8) + BE(lo * 8 % TWO_64, 8)
  }

  lemma Length1(hi: nat, lo: nat, n: nat)
    requires Counts(Sha1, lo, hi, n)
    ensures BE(hi, 4) + BE(lo, 4) == BE(8 * n, 8)
  {
    Pow256Values();
    BEJoin(hi, lo, 4, 4);
    BEWraps(8 * n % TWO_64, 8 * n / TWO_64, 8);
  }

  lemma LengthRight(kind: Kind, lo: nat, hi: nat, n: nat)
    requires kind != Sha1 && Counts(kind, lo, hi, n)
    ensures LengthBytes(kind, lo, hi) == BE(8 * n, LengthSize(kind))
  {
    Pow256Values();
    if kind == Sha256 {
      var p, top := n / TWO_64, lo / 0x2000_0000_0000_0000;
      TimesEight(lo);
      assert 8 * n == lo * 8 % TWO_64 + (top + 8 * p) * TWO_64;
      BEWraps(lo * 8 % TWO_64, top + 8 * p, 8);
    } else {
      Length512(lo, hi, n);
    }
  }

  lemma TimesEight(lo: nat)
    ensures lo * 8 == lo / 0x2000_0000_0000_0000 * TWO_64 + lo * 8 % TWO_64
  {
  }

  lemma AddWrapped(a: nat, top: nat)
    ensures (a % TWO_64 + top) % TWO_64 == a + top - (a + top) / TWO_64 * TWO_64
  {
  }

  lemma Pow256Sixteen()
    ensures Pow256(16) == TWO_64 * TWO_64
  {
    Pow256Values();
    assert Pow256(10) == 256 * (256 * Pow256(8));
    assert Pow256(12) == 256 * (256 * Pow256(10));
    assert Pow256(14) == 256 * (256 * Pow256(12));
    assert Pow256(16) == 256 * (256 * Pow256(14));
  }

  lemma Length512(lo: nat, hi: nat, n: nat)
    requires Counts(Sha512, lo, hi, n)
    ensures LengthBytes(Sha512, lo, hi) == BE(8 * n, 16)
  {
    Pow256Values();
    Pow256Sixteen();
    var top := lo / 0x2000_0000_0000_0000;
    var blo, bhi := lo * 8 % TWO_64, (hi * 8 % TWO_64 + top) % TWO_64;
    TimesEight(lo);
    var q := (hi * 8 + top) / TWO_64;
    AddWrapped(hi * 8, top);
    var p := n / (TWO_64 * TWO_64);
    assert n == hi * TWO_64 + lo + p * (TWO_64 * TWO_64);
    assert 8 * n == bhi * TWO_64 + blo + (q + 8 * p) * (TWO_64 * TWO_64);
    BEJoin(bhi, blo, 8, 8);
    BEWraps(bhi * TWO_64 + blo, q + 8 * p, 16);
  }
}
