/** The shifted words of the xorwow generator, walked from one start (prng/prng_xorshift.c). */
module XorshiftWalk {

  /** The four shifted words, and one step on them in plain shifts. */
  datatype Four = Four(w0: bv32, w1: bv32, w2: bv32, w3: bv32)

  function Shift(w: Four): (r: Four)
    ensures r.w0 == NewWord(w.w3, w.w0)
  {
    hide NewWord;
    PlainNew(w.w3, w.w0);
    Four((w.w3 ^ (w.w3 >> 2)) ^ ((w.w3 ^ (w.w3 >> 2)) << 1) ^ w.w0 ^ (w.w0 << 4), w.w0, w.w1, w.w2)
  }

  function Shifts(w: Four, k: nat): Four { if k == 0 then w else Shift(Shifts(w, k - 1)) }

  // ----- The step in parts -----

  function TwoRight(t: bv32): bv32 { t ^ (t >> 2) }

  function OneLeft(t: bv32): bv32 { t ^ (t << 1) }

  function Blend(t: bv32, s: bv32): bv32 { t ^ s ^ (s << 4) }

  function NewWord(w3: bv32, w0: bv32): bv32 { Blend(OneLeft(TwoRight(w3)), w0) }

  lemma PlainTwoRight(w3: bv32) ensures TwoRight(w3) == w3 ^ (w3 >> 2) {}

  lemma PlainOneLeft(w3: bv32)
    ensures OneLeft(w3 ^ (w3 >> 2)) == (w3 ^ (w3 >> 2)) ^ ((w3 ^ (w3 >> 2)) << 1)
  {
  }

  lemma PlainBlend(w3: bv32, w0: bv32)
    ensures Blend((w3 ^ (w3 >> 2)) ^ ((w3 ^ (w3 >> 2)) << 1), w0)
            == (w3 ^ (w3 >> 2)) ^ ((w3 ^ (w3 >> 2)) << 1) ^ w0 ^ (w0 << 4)
  {
  }

  lemma PlainNew(w3: bv32, w0: bv32)
    ensures NewWord(w3, w0) == (w3 ^ (w3 >> 2)) ^ ((w3 ^ (w3 >> 2)) << 1) ^ w0 ^ (w0 << 4)
  {
    hide TwoRight, OneLeft, Blend;
    PlainTwoRight(w3);
    PlainOneLeft(w3);
    PlainBlend(w3, w0);
  }

  // ----- A walk -----

  /** Checkpoints ten steps apart. */
  lemma {:induction false} Tens(path: seq<Four>)
    requires path != [] && forall i :: 0 <= i < |path| - 1 ==> Shifts(path[i], 10) == path[i + 1]
    ensures Shifts(path[0], 10 * (|path| - 1)) == path[|path| - 1]
  {
    if |path| > 1 {
      var k := |path| - 1;
      Tens(path[..k]);
      ShiftsSplit(path[0], 10 * (k - 1), 10);
    }
  }

  lemma {:induction false} ShiftsSplit(w: Four, j: nat, k: nat)
    ensures Shifts(w, j + k) == Shifts(Shifts(w, j), k)
  {
    if k > 0 {
      ShiftsSplit(w, j, k - 1);
    }
  }

  /** Two hundred steps, in four parts. */
  lemma FirstFifty()
    ensures Shifts(Four(0x85c28e40, 0x00002a40, 0x000a9000, 0x02a40000), 50)
            == Four(0x3d6eb561, 0x0c2dd216, 0x139627db, 0xee1a7cd3)
  {
    hide NewWord;
    var path := [
      Four(0x85c28e40, 0x00002a40, 0x000a9000, 0x02a40000),
      Four(0x35eb4180, 0x1cd91730, 0x352a3374, 0xcbcd1c44),
      Four(0xb61e29fc, 0x05643b27, 0x43f1dbb3, 0x651e17ff),
      Four(0xcdc3ec62, 0xb7178c69, 0x462da359, 0x0970ddb1),
      Four(0xc4352d61, 0x7fab4744, 0x1710b947, 0xd29079fb),
      Four(0x3d6eb561, 0x0c2dd216, 0x139627db, 0xee1a7cd3)];
    assert Shifts(path[0], 10) == path[1];
    assert Shifts(path[1], 10) == path[2];
    assert Shifts(path[2], 10) == path[3];
    assert Shifts(path[3], 10) == path[4];
    assert Shifts(path[4], 10) == path[5];
    Tens(path);
  }

  lemma SecondFifty()
    ensures Shifts(Four(0x3d6eb561, 0x0c2dd216, 0x139627db, 0xee1a7cd3), 50)
            == Four(0xb58b70a1, 0x4f91b241, 0x157c239f, 0x5b9edc29)
  {
    hide NewWord;
    var path := [
      Four(0x3d6eb561, 0x0c2dd216, 0x139627db, 0xee1a7cd3),
      Four(0x11abc6e9, 0x8db8d4e9, 0xce6bdccc, 0x2d4d4c7f),
      Four(0x3cf4b0f0, 0xbe571a86, 0xee2d0603, 0xb0b55fd1),
      Four(0xc86c4928, 0xdc45fd58, 0xa71618a8, 0x4f8d6532),
      Four(0x5030463f, 0xb38d773a, 0x4e0a5f60, 0xd3c21882),
      Four(0xb58b70a1, 0x4f91b241, 0x157c239f, 0x5b9edc29)];
    assert Shifts(path[0], 10) == path[1];
    assert Shifts(path[1], 10) == path[2];
    assert Shifts(path[2], 10) == path[3];
    assert Shifts(path[3], 10) == path[4];
    assert Shifts(path[4], 10) == path[5];
    Tens(path);
  }

  lemma ThirdFifty()
    ensures Shifts(Four(0xb58b70a1, 0x4f91b241, 0x157c239f, 0x5b9edc29), 50)
            == Four(0x51b5f4fe, 0x0b88de49, 0xd2f5e850, 0xa9dc2cda)
  {
    hide NewWord;
    var path := [
      Four(0xb58b70a1, 0x4f91b241, 0x157c239f, 0x5b9edc29),
      Four(0x610e9527, 0x98fd241b, 0xb490fae9, 0xb1f46716),
      Four(0xa13452cb, 0x409dde91, 0xbe3ec5f0, 0x7f8d356a),
      Four(0x27330ab4, 0x0432d28d, 0x1b2b4257, 0x30a8caf4),
      Four(0xd5327f29, 0x7fb6993b, 0x3579103a, 0xf2df8672),
      Four(0x51b5f4fe, 0x0b88de49, 0xd2f5e850, 0xa9dc2cda)];
    assert Shifts(path[0], 10) == path[1];
    assert Shifts(path[1], 10) == path[2];
    assert Shifts(path[2], 10) == path[3];
    assert Shifts(path[3], 10) == path[4];
    assert Shifts(path[4], 10) == path[5];
    Tens(path);
  }

  lemma FourthFifty()
    ensures Shifts(Four(0x51b5f4fe, 0x0b88de49, 0xd2f5e850, 0xa9dc2cda), 50)
            == Four(0x473a2d80, 0x75885041, 0x7d46063f, 0x909dba23)
  {
    hide NewWord;
    var path := [
      Four(0x51b5f4fe, 0x0b88de49, 0xd2f5e850, 0xa9dc2cda),
      Four(0x7b1f4cb9, 0x49be0d62, 0x19b0e640, 0x1393011a),
      Four(0xbba1082b, 0xd86ed02d, 0xea523a6f, 0x554079b3),
      Four(0x8aa8ec4a, 0x4e5800ce, 0x1a7bd317, 0xb80da85b),
      Four(0x2d991ed1, 0x0d41aee9, 0x2ea89903, 0x26b6394c),
      Four(0x473a2d80, 0x75885041, 0x7d46063f, 0x909dba23)];
    assert Shifts(path[0], 10) == path[1];
    assert Shifts(path[1], 10) == path[2];
    assert Shifts(path[2], 10) == path[3];
    assert Shifts(path[3], 10) == path[4];
    assert Shifts(path[4], 10) == path[5];
    Tens(path);
  }

  lemma TwoHundred()
    ensures Shifts(Four(0x85c28e40, 0x00002a40, 0x000a9000, 0x02a40000), 200)
            == Four(0x473a2d80, 0x75885041, 0x7d46063f, 0x909dba23)
  {
    FirstFifty();
    SecondFifty();
    ThirdFifty();
    FourthFifty();
    hide Shifts;
    var w := Four(0x85c28e40, 0x00002a40, 0x000a9000, 0x02a40000);
    ShiftsSplit(w, 50, 50);
    ShiftsSplit(w, 100, 50);
    ShiftsSplit(w, 150, 50);
  }
}
