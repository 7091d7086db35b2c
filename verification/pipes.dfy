/*
 * Pipe bookkeeping of the driver: the 64-bit masks of open pipes and of
 * locally stored TX pipes. A uint64_t mask is modelled as the set of the
 * positions of its set bits; bit k stands for pipe k.
 */
module Pipes {
  import opened Aci

  /** A uint64_t bit mask, as the set of positions of its one bits. */
  type Mask = s: set<nat> | forall k | k in s :: k < 64

  /** Pipes that must be closed by hand on a disconnect: stored locally, type ACI_TX. */
  predicate IsLocalTx(p: PipeMapping)
  {
    p.store == StoreLocal && p.kind == PipeTx
  }

  /**
   * The bits nrf_tx_map_pipes ORs in after looking at the first n entries of
   * the pipe map: bit i + 1 for every local TX entry i.
   */
  function TxPipeBits(pipeMap: seq<PipeMapping>, n: nat): Mask
    requires n <= |pipeMap| < 64
  {
    if n == 0 then {}
    else TxPipeBits(pipeMap, n - 1) + (if IsLocalTx(pipeMap[n - 1]) then {n} else {})
  }

  /** Bit k is in the TX pipe mask exactly when pipe k is a local TX pipe. */
  lemma {:induction false} TxPipeBitsExact(pipeMap: seq<PipeMapping>, n: nat, k: nat)
    requires n <= |pipeMap| < 64
    ensures k in TxPipeBits(pipeMap, n) <==> 1 <= k <= n && IsLocalTx(pipeMap[k - 1])
  {
    if n != 0 {
      TxPipeBitsExact(pipeMap, n - 1, k);
    }
  }

  /** Pipe numbers start at 1: bit 0 is never set. */
  lemma TxPipeBitsNoBitZero(pipeMap: seq<PipeMapping>)
    requires |pipeMap| < 64
    ensures 0 !in TxPipeBits(pipeMap, |pipeMap|)
  {
    TxPipeBitsExact(pipeMap, |pipeMap|, 0);
  }

  /**
   * nrf_close_tx_pipes: pipes_open &= ~nrf_tx_pipe_map. Mapped bits are
   * cleared, all other bits keep their value, and closing twice changes
   * nothing more.
   */
  function CloseTxPipes(open: Mask, txMap: Mask): (r: Mask)
    ensures forall k :: k in r <==> k in open && k !in txMap
  {
    open - txMap
  }

  lemma CloseTxPipesIdempotent(open: Mask, txMap: Mask)
    ensures CloseTxPipes(CloseTxPipes(open, txMap), txMap) == CloseTxPipes(open, txMap)
  {
  }

  // ---------------------------------------------------------------------
  // Pipe status: eight bytes, little endian.

  /** Bit j (0 = least significant) of a byte. */
  function Bit(b: nat, j: nat): bool
  {
    if j == 0 then b % 2 == 1 else Bit(b / 2, j - 1)
  }

  /** The bits of the byte `b << (8 * i)`. */
  function ByteBits(b: byte, i: nat): Mask
    requires i < 8
  {
    set j | 0 <= j < 8 && Bit(b, j) :: 8 * i + j
  }

  lemma ByteBitsExact(b: byte, i: nat, k: nat)
    requires i < 8
    ensures k in ByteBits(b, i) <==> 8 * i <= k < 8 * i + 8 && Bit(b, k - 8 * i)
  {
    if 8 * i <= k < 8 * i + 8 && Bit(b, k - 8 * i) {
      var j := k - 8 * i;
      assert 8 * i + j in ByteBits(b, i);
    }
  }

  /**
   * The mask assembled from the first n bytes of a pipe status:
   * pipes_open |= bytes[i] << (8 * i) for i < n, starting from 0.
   */
  function StatusBits(bytes: seq<byte>, n: nat): Mask
    requires n <= |bytes| && n <= 8
  {
    if n == 0 then {} else StatusBits(bytes, n - 1) + ByteBits(bytes[n - 1], n - 1)
  }

  /** Byte i of the status occupies bits 8i .. 8i + 7 of the mask. */
  lemma {:induction false} StatusBitsExact(bytes: seq<byte>, n: nat, k: nat)
    requires n <= |bytes| && n <= 8
    ensures k in StatusBits(bytes, n) <==> k < 8 * n && Bit(bytes[k / 8], k % 8)
  {
    if n != 0 {
      StatusBitsExact(bytes, n - 1, k);
      ByteBitsExact(bytes[n - 1], n - 1, k);
    }
  }

  /** A status whose only one bit is bit 1 of byte 0 opens exactly pipe 1. */
  lemma StatusBitsPipeOne(bytes: seq<byte>)
    requires bytes == [0x02, 0, 0, 0, 0, 0, 0, 0]
    ensures StatusBits(bytes, 8) == {1}
  {
    forall k ensures k in StatusBits(bytes, 8) <==> k == 1 {
      StatusBitsExact(bytes, 8, k);
      if k < 64 {
        var j := k % 8;
        if k / 8 == 0 {
          if j >= 2 {
            ZeroHasNoBits(j - 2);
          }
        } else {
          ZeroHasNoBits(j);
        }
      }
    }
  }

  lemma {:induction false} ZeroHasNoBits(j: nat)
    ensures !Bit(0, j)
  {
    if j > 0 {
      ZeroHasNoBits(j - 1);
    }
  }

  // ---------------------------------------------------------------------
  // The shift as the source writes it: `1 << (i + 1)` is evaluated in
  // 16-bit int and then widened to uint64_t.

  /**
   * The mask `(uint64_t)(1 << k)` for a 16-bit int: bit k for k < 15; for
   * k = 15 the int is negative (0x8000) and widening sign-extends it, so
   * bits 15 to 63 are set. Shifts by 16 or more are undefined and not modelled.
   */
  function Int16ShiftBits(k: nat): (r: Mask)
    requires k <= 15
    ensures k < 15 ==> r == {k}
    ensures k == 15 ==> forall j :: j in r <==> 15 <= j < 64
  {
    if k < 15 then {k} else BitsFrom(15)
  }

  /** Bits lo to 63. */
  function BitsFrom(lo: nat): (r: Mask)
    requires lo <= 64
    ensures forall j :: j in r <==> lo <= j < 64
    decreases 64 - lo
  {
    if lo == 64 then {} else {lo} + BitsFrom(lo + 1)
  }

  /** nrf_tx_map_pipes as written, for pipe maps whose shifts stay defined. */
  function TxPipeBitsAsWritten(pipeMap: seq<PipeMapping>, n: nat): Mask
    requires n <= |pipeMap| <= 15
  {
    if n == 0 then {}
    else TxPipeBitsAsWritten(pipeMap, n - 1) + (if IsLocalTx(pipeMap[n - 1]) then Int16ShiftBits(n) else {})
  }

  /**
   * With a local TX pipe as entry 14 (pipe 15), the source's mask also holds
   * bits 16 to 63, so a disconnect would close pipes that are not TX pipes;
   * the 64-bit mask holds pipe 15 alone.
   */
  lemma TxPipeBitsPipeFifteen(pipeMap: seq<PipeMapping>)
    requires |pipeMap| == 15 && IsLocalTx(pipeMap[14])
    requires forall i | 0 <= i < 14 :: !IsLocalTx(pipeMap[i])
    ensures 40 in TxPipeBitsAsWritten(pipeMap, 15)
    ensures TxPipeBits(pipeMap, 15) == {15}
  {
    assert 40 in Int16ShiftBits(15);
    forall k ensures k in TxPipeBits(pipeMap, 15) <==> k == 15 {
      TxPipeBitsExact(pipeMap, 15, k);
    }
  }
}
