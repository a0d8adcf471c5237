/**
 * The enrolled-id bitmap that follows a GET_ENROLLED_ID_LIST reply
 * (CapSensor.py:722-769): after a 10-byte header, bit `b` of byte `i`
 * marks slot `8 * i + b` as enrolled; slots above 3000 are ignored.
 */
module CapIdList {
  import opened Wrappers

  const HEADER_SIZE := 10
  const MAX_ID := 3000

  function Pow2(k: nat): (p: nat)
    ensures p >= 1
  {
    if k == 0 then 1 else 2 * Pow2(k - 1)
  }

  /** `byte & (1 << k) != 0`. */
  predicate Bit(byte: int, k: nat)
  {
    (byte / Pow2(k)) % 2 == 1
  }

  /** Whether slot `id` is reported by the bitmap `bits`. */
  predicate Marked(bits: seq<int>, id: int)
  {
    0 <= id <= MAX_ID && id < 8 * |bits| && Bit(bits[id / 8], id % 8)
  }

  /** The reported slots among the first `n` bit positions, in the order the loops visit them. */
  function EnrolledBelow(bits: seq<int>, n: nat): seq<int>
    requires n <= 8 * |bits|
  {
    if n == 0 then []
    else EnrolledBelow(bits, n - 1) + (if Marked(bits, n - 1) then [n - 1] else [])
  }

  /** The list is ascending, below `n`, and holds exactly the marked slots below `n`. */
  lemma {:induction false} EnrolledBelowSpec(bits: seq<int>, n: nat)
    requires n <= 8 * |bits|
    ensures forall i, j | 0 <= i < j < |EnrolledBelow(bits, n)| :: EnrolledBelow(bits, n)[i] < EnrolledBelow(bits, n)[j]
    ensures forall id :: id in EnrolledBelow(bits, n) <==> id < n && Marked(bits, id)
  {
    if n > 0 {
      EnrolledBelowSpec(bits, n - 1);
      var prev := EnrolledBelow(bits, n - 1);
      var out := EnrolledBelow(bits, n);
      assert forall k | 0 <= k < |prev| :: prev[k] < n - 1 by {
        forall k | 0 <= k < |prev| ensures prev[k] < n - 1 {
          assert prev[k] in prev;
        }
      }
      forall i, j | 0 <= i < j < |out| ensures out[i] < out[j] {
        if j < |prev| {
          assert out[i] == prev[i] && out[j] == prev[j];
        } else {
          assert out[i] == prev[i];
        }
      }
    }
  }

  lemma SlotOf(byteIndex: nat, bit: nat)
    requires bit < 8
    ensures (8 * byteIndex + bit) / 8 == byteIndex && (8 * byteIndex + bit) % 8 == bit
  {
  }

  /**
   * The decoding loop of RpsGetEnrolledIdList: None when the packet is
   * shorter than the 10-byte header (the source stops there), otherwise
   * every marked slot, ascending, and nothing else.
   */
  method DecodeEnrolledIds(packet: seq<int>) returns (r: Option<seq<int>>)
    ensures r.None? <==> |packet| < HEADER_SIZE
    ensures r.Some? ==> r.value == EnrolledBelow(packet[HEADER_SIZE..], 8 * (|packet| - HEADER_SIZE))
    ensures r.Some? ==> forall i, j | 0 <= i < j < |r.value| :: r.value[i] < r.value[j]
    ensures r.Some? ==> forall id :: id in r.value <==> Marked(packet[HEADER_SIZE..], id)
  {
    if |packet| < HEADER_SIZE {
      return None;
    }
    var bits := packet[HEADER_SIZE..];
    var ids: seq<int> := [];
    var byteIndex := 0;
    while byteIndex < |bits|
      invariant 0 <= byteIndex <= |bits|
      invariant ids == EnrolledBelow(bits, 8 * byteIndex)
    {
      var byte := bits[byteIndex];
      var bit := 0;
      while bit < 8
        invariant 0 <= bit <= 8
        invariant ids == EnrolledBelow(bits, 8 * byteIndex + bit)
      {
        var id := byteIndex * 8 + bit;
        SlotOf(byteIndex, bit);
        if Bit(byte, bit) {
          if id <= MAX_ID {
            ids := ids + [id];
          }
        }
        bit := bit + 1;
      }
      byteIndex := byteIndex + 1;
    }
    EnrolledBelowSpec(bits, 8 * |bits|);
    r := Some(ids);
  }
}
