/** Four field elements in one 32-bit word, as the fast P parity uses them. */
module EccSwar {
  import opened Gf256

  function Lane0(w: bv32): bv8 { (w & 0xff) as bv8 }
  function Lane1(w: bv32): bv8 { ((w >> 8) & 0xff) as bv8 }
  function Lane2(w: bv32): bv8 { ((w >> 16) & 0xff) as bv8 }
  function Lane3(w: bv32): bv8 { (w >> 24) as bv8 }

  /** Lane k of a word, the lowest byte being lane 0. */
  function Lane(w: bv32, k: nat): bv8
    requires k < 4
  {
    if k == 0 then Lane0(w) else if k == 1 then Lane1(w) else if k == 2 then Lane2(w) else Lane3(w)
  }

  /** Four bytes assembled into a word. */
  function Pack(b0: bv8, b1: bv8, b2: bv8, b3: bv8): bv32 {
    (b0 as bv32) | ((b1 as bv32) << 8) | ((b2 as bv32) << 16) | ((b3 as bv32) << 24)
  }

  function Add4(v: bv32, w: bv32): bv32 {
    v ^ w
  }

  function XTime4(t: bv32): bv32 {
    ((t << 1) & 0xfefefefe) ^ (((t >> 7) & 0x01010101) * 0x1d)
  }

  lemma PackLane0(b0: bv8, b1: bv8, b2: bv8, b3: bv8)
    ensures Lane0(Pack(b0, b1, b2, b3)) == b0 && Lane1(Pack(b0, b1, b2, b3)) == b1
  {
  }

  lemma PackLane2(b0: bv8, b1: bv8, b2: bv8, b3: bv8)
    ensures Lane2(Pack(b0, b1, b2, b3)) == b2 && Lane3(Pack(b0, b1, b2, b3)) == b3
  {
  }

  /** Packing and taking lanes are inverse. */
  lemma PackLane(b0: bv8, b1: bv8, b2: bv8, b3: bv8, k: nat)
    requires k < 4
    ensures Lane(Pack(b0, b1, b2, b3), k) == [b0, b1, b2, b3][k]
  {
    hide Pack, Lane0, Lane1, Lane2, Lane3;
    PackLane0(b0, b1, b2, b3);
    PackLane2(b0, b1, b2, b3);
  }

  lemma AddLane0(v: bv32, w: bv32) ensures Lane0(Add4(v, w)) == Add(Lane0(v), Lane0(w)) {}
  lemma AddLane1(v: bv32, w: bv32) ensures Lane1(Add4(v, w)) == Add(Lane1(v), Lane1(w)) {}
  lemma AddLane2(v: bv32, w: bv32) ensures Lane2(Add4(v, w)) == Add(Lane2(v), Lane2(w)) {}
  lemma AddLane3(v: bv32, w: bv32) ensures Lane3(Add4(v, w)) == Add(Lane3(v), Lane3(w)) {}
  lemma XTimeLane0(t: bv32) ensures Lane0(XTime4(t)) == XTime(Lane0(t)) {}
  lemma XTimeLane1(t: bv32) ensures Lane1(XTime4(t)) == XTime(Lane1(t)) {}
  lemma XTimeLane2(t: bv32) ensures Lane2(XTime4(t)) == XTime(Lane2(t)) {}
  lemma XTimeLane3(t: bv32) ensures Lane3(XTime4(t)) == XTime(Lane3(t)) {}

  lemma Add4Lane(v: bv32, w: bv32, k: nat)
    requires k < 4
    ensures Lane(Add4(v, w), k) == Add(Lane(v, k), Lane(w, k))
  {
    hide Add, Add4, Lane0, Lane1, Lane2, Lane3;
    AddLane0(v, w);
    AddLane1(v, w);
    AddLane2(v, w);
    AddLane3(v, w);
  }

  /** No carry crosses a lane: one word-wide step is four products by the generator. */
  lemma XTime4Lane(t: bv32, k: nat)
    requires k < 4
    ensures Lane(XTime4(t), k) == XTime(Lane(t, k))
  {
    hide XTime, XTime4, Lane0, Lane1, Lane2, Lane3;
    XTimeLane0(t);
    XTimeLane1(t);
    XTimeLane2(t);
    XTimeLane3(t);
  }

  lemma ZeroLane(k: nat)
    requires k < 4
    ensures Lane(0, k) == 0
  {
    assert Lane0(0) == 0 && Lane1(0) == 0 && Lane2(0) == 0 && Lane3(0) == 0;
  }
}
