/** The per-node bitmap of served slots (bitmapTestBit, bitmapSetBit, bitmapClearBit). */
module SlotBitmap {
  import opened ClusterView

  type Bitmap = b: seq<bv8> | |b| == 2048 witness seq(2048, _ => 0)

  /** 1 << bit, for the low three bits of a position. */
  function Mask(bit: nat): bv8
    requires bit < 8
  {
    match bit
    case 0 => 1 case 1 => 2 case 2 => 4 case 3 => 8
    case 4 => 16 case 5 => 32 case 6 => 64 case 7 => 128
  }

  predicate BitOf(x: bv8, bit: nat)
    requires bit < 8
  {
    x & Mask(bit) != 0
  }

  predicate TestBit(b: Bitmap, pos: nat)
    requires pos < CLUSTER_SLOTS
  {
    BitOf(b[pos / 8], pos % 8)
  }

  function SetBit(b: Bitmap, pos: nat): Bitmap
    requires pos < CLUSTER_SLOTS
  {
    b[pos / 8 := b[pos / 8] | Mask(pos % 8)]
  }

  function ClearBit(b: Bitmap, pos: nat): Bitmap
    requires pos < CLUSTER_SLOTS
  {
    b[pos / 8 := b[pos / 8] & !Mask(pos % 8)]
  }

  /** Setting or clearing one position changes the answer at that position and nowhere else. */
  lemma BitChanged(b: Bitmap, pos: nat, q: nat)
    requires pos < CLUSTER_SLOTS && q < CLUSTER_SLOTS
    ensures TestBit(SetBit(b, pos), q) <==> q == pos || TestBit(b, q)
    ensures TestBit(ClearBit(b, pos), q) <==> q != pos && TestBit(b, q)
  {
  }

  /** The slots a bitmap holds. */
  function SlotSet(b: Bitmap): set<nat> {
    set j: nat | j < CLUSTER_SLOTS && TestBit(b, j)
  }

  lemma SlotSetChanged(b: Bitmap, pos: nat)
    requires pos < CLUSTER_SLOTS
    ensures SlotSet(SetBit(b, pos)) == SlotSet(b) + {pos}
    ensures SlotSet(ClearBit(b, pos)) == SlotSet(b) - {pos}
  {
    forall q: nat | q < CLUSTER_SLOTS
      ensures q in SlotSet(SetBit(b, pos)) <==> q in SlotSet(b) + {pos}
      ensures q in SlotSet(ClearBit(b, pos)) <==> q in SlotSet(b) - {pos}
    {
      BitChanged(b, pos, q);
    }
  }
}
