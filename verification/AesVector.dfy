/** The worked example of Appendix B of FIPS 197, through all its round keys and round states: the
    words of the schedule are those of Appendix A.1, the states those listed round by round. */
module AesVector {
  import opened AesField
  import opened AesColumn
  import opened AesTables
  import opened AesKeySchedule
  import opened AesRounds
  import opened AesPadding
  import C = AesCipher
  import M = AesModes
  import E = AesEncryption

  const KEY: seq<bv8> := [0x2b, 0x7e, 0x15, 0x16, 0x28, 0xae, 0xd2, 0xa6, 0xab, 0xf7, 0x15, 0x88, 0x09, 0xcf, 0x4f, 0x3c]

  const INPUT: seq<bv8> := [0x32, 0x43, 0xf6, 0xa8, 0x88, 0x5a, 0x30, 0x8d, 0x31, 0x31, 0x98, 0xa2, 0xe0, 0x37, 0x07, 0x34]

  const OUTPUT: seq<bv8> := [0x39, 0x25, 0x84, 0x1d, 0x02, 0xdc, 0x09, 0xfb, 0xdc, 0x11, 0x85, 0x97, 0x19, 0x6a, 0x0b, 0x32]

  // ---- Evaluating one step ----

  /** The four words that make up round key `r`, from those of the round before. */
  function NextKey(r: nat, k: RoundKey): (n: RoundKey)
    requires r < |RCON|
  {
    var a := Add(k.w0, Column(Xor(SBox(k.w3.b1), RCON[r]), SBox(k.w3.b2), SBox(k.w3.b3), SBox(k.w3.b0)));
    var b := Add(k.w1, a);
    var c := Add(k.w2, b);
    Four(a, b, c, Add(k.w3, c))
  }

  /** Four words of a key or columns of a state. */
  datatype RoundKey = Four(w0: Column, w1: Column, w2: Column, w3: Column)

  /** Round key `r` of the schedule `w`. */
  ghost function KeyOf(w: seq<bv8>, r: nat): (k: RoundKey)
    requires C.HasRoundKey(w, r)
  {
    Four(WordAt(w, 4 * r), WordAt(w, 4 * r + 1), WordAt(w, 4 * r + 2), WordAt(w, 4 * r + 3))
  }

  ghost function ColumnsOf(s: C.Block): (c: RoundKey) {
    Four(C.ColumnOf(s, 0), C.ColumnOf(s, 1), C.ColumnOf(s, 2), C.ColumnOf(s, 3))
  }

  lemma KeyStep(key: seq<bv8>, w: seq<bv8>, r: nat)
    requires |key| == 16 && w == ScheduleBytes(key, 4, 44) && 0 < r <= 10
    ensures KeyOf(w, r) == NextKey(r, KeyOf(w, r - 1))
  {
    hide *;
    FirstWord(key, w, r);
    OtherWord(key, w, r, 1);
    OtherWord(key, w, r, 2);
    OtherWord(key, w, r, 3);
    KeyOfNext(w, r);
  }

  lemma FirstWord(key: seq<bv8>, w: seq<bv8>, r: nat)
    requires |key| == 16 && w == ScheduleBytes(key, 4, 44) && 0 < r <= 10
    ensures var t := WordAt(w, 4 * r - 1);
            WordAt(w, 4 * r)
            == Add(WordAt(w, 4 * r - 4), Column(Xor(SBox(t.b1), RCON[r]), SBox(t.b2), SBox(t.b3), SBox(t.b0)))
  {
    hide SBox, RoundConstant, Xor, WordAt, ScheduleBytes;
    ScheduleRecurrence(key, 4, 44, 4 * r);
    RconIsRoundConstant(r);
    assert (4 * r) / 4 == r;
  }

  lemma OtherWord(key: seq<bv8>, w: seq<bv8>, r: nat, j: nat)
    requires |key| == 16 && w == ScheduleBytes(key, 4, 44) && 0 < r <= 10 && 0 < j < 4
    ensures WordAt(w, 4 * r + j) == Add(WordAt(w, 4 * r + j - 4), WordAt(w, 4 * r + j - 1))
  {
    hide SBox, RoundConstant, Xor, WordAt, ScheduleBytes;
    ScheduleRecurrence(key, 4, 44, 4 * r + j);
    assert (4 * r + j) % 4 == j;
  }

  lemma KeyOfNext(w: seq<bv8>, r: nat)
    requires |w| == 176 && 0 < r <= 10
    requires var t := WordAt(w, 4 * r - 1);
             WordAt(w, 4 * r)
             == Add(WordAt(w, 4 * r - 4), Column(Xor(SBox(t.b1), RCON[r]), SBox(t.b2), SBox(t.b3), SBox(t.b0)))
    requires WordAt(w, 4 * r + 1) == Add(WordAt(w, 4 * r - 3), WordAt(w, 4 * r))
    requires WordAt(w, 4 * r + 2) == Add(WordAt(w, 4 * r - 2), WordAt(w, 4 * r + 1))
    requires WordAt(w, 4 * r + 3) == Add(WordAt(w, 4 * r - 1), WordAt(w, 4 * r + 2))
    ensures KeyOf(w, r) == NextKey(r, KeyOf(w, r - 1))
  {
    hide SBox, Xor, WordAt, Add;
    assert 4 * (r - 1) == 4 * r - 4;
  }

  /** The state substituted and shifted. */
  function Shifted(c: RoundKey): (d: RoundKey) {
    Four(SubWord(Column(c.w0.b0, c.w1.b1, c.w2.b2, c.w3.b3)), SubWord(Column(c.w1.b0, c.w2.b1, c.w3.b2, c.w0.b3)),
         SubWord(Column(c.w2.b0, c.w3.b1, c.w0.b2, c.w1.b3)), SubWord(Column(c.w3.b0, c.w0.b1, c.w1.b2, c.w2.b3)))
  }

  function Mixed(c: RoundKey): (d: RoundKey) {
    Four(Mix(c.w0), Mix(c.w1), Mix(c.w2), Mix(c.w3))
  }

  function Plus(c: RoundKey, k: RoundKey): (d: RoundKey) {
    Four(Add(c.w0, k.w0), Add(c.w1, k.w1), Add(c.w2, k.w2), Add(c.w3, k.w3))
  }

  lemma DiagonalsOf(s: C.Block)
    ensures Four(Diagonal(s, 0), Diagonal(s, 1), Diagonal(s, 2), Diagonal(s, 3)) == Shifted(ColumnsOf(s))
  {
    hide SBox;
  }

  /** One round on columns: the first key addition, a round, and the last round. */
  lemma RoundStep(s: C.Block, w: seq<bv8>, r: nat)
    requires C.HasRoundKey(w, r)
    ensures ColumnsOf(C.Rounds(s, w, 0)) == Plus(ColumnsOf(s), KeyOf(w, 0))
    ensures r > 0 ==>
              var d := Shifted(ColumnsOf(C.Rounds(s, w, r - 1)));
              && ColumnsOf(C.Rounds(s, w, r)) == Plus(Mixed(d), KeyOf(w, r))
              && ColumnsOf(C.Cipher(s, w, r)) == Plus(d, KeyOf(w, r))
  {
    hide Mix, Add, Shifted, Diagonal, WordAt, C.Rounds, C.Cipher, C.ColumnOf;
    RoundColumns(s, w, r, 0);
    RoundColumns(s, w, r, 1);
    RoundColumns(s, w, r, 2);
    RoundColumns(s, w, r, 3);
    if r > 0 {
      DiagonalsOf(C.Rounds(s, w, r - 1));
    }
  }

  // ---- The round keys ----

  const KEY0 := Four(Column(0x2b, 0x7e, 0x15, 0x16), Column(0x28, 0xae, 0xd2, 0xa6), Column(0xab, 0xf7, 0x15, 0x88), Column(0x09, 0xcf, 0x4f, 0x3c))
  const KEY1 := Four(Column(0xa0, 0xfa, 0xfe, 0x17), Column(0x88, 0x54, 0x2c, 0xb1), Column(0x23, 0xa3, 0x39, 0x39), Column(0x2a, 0x6c, 0x76, 0x05))
  const KEY2 := Four(Column(0xf2, 0xc2, 0x95, 0xf2), Column(0x7a, 0x96, 0xb9, 0x43), Column(0x59, 0x35, 0x80, 0x7a), Column(0x73, 0x59, 0xf6, 0x7f))
  const KEY3 := Four(Column(0x3d, 0x80, 0x47, 0x7d), Column(0x47, 0x16, 0xfe, 0x3e), Column(0x1e, 0x23, 0x7e, 0x44), Column(0x6d, 0x7a, 0x88, 0x3b))
  const KEY4 := Four(Column(0xef, 0x44, 0xa5, 0x41), Column(0xa8, 0x52, 0x5b, 0x7f), Column(0xb6, 0x71, 0x25, 0x3b), Column(0xdb, 0x0b, 0xad, 0x00))
  const KEY5 := Four(Column(0xd4, 0xd1, 0xc6, 0xf8), Column(0x7c, 0x83, 0x9d, 0x87), Column(0xca, 0xf2, 0xb8, 0xbc), Column(0x11, 0xf9, 0x15, 0xbc))
  const KEY6 := Four(Column(0x6d, 0x88, 0xa3, 0x7a), Column(0x11, 0x0b, 0x3e, 0xfd), Column(0xdb, 0xf9, 0x86, 0x41), Column(0xca, 0x00, 0x93, 0xfd))
  const KEY7 := Four(Column(0x4e, 0x54, 0xf7, 0x0e), Column(0x5f, 0x5f, 0xc9, 0xf3), Column(0x84, 0xa6, 0x4f, 0xb2), Column(0x4e, 0xa6, 0xdc, 0x4f))
  const KEY8 := Four(Column(0xea, 0xd2, 0x73, 0x21), Column(0xb5, 0x8d, 0xba, 0xd2), Column(0x31, 0x2b, 0xf5, 0x60), Column(0x7f, 0x8d, 0x29, 0x2f))
  const KEY9 := Four(Column(0xac, 0x77, 0x66, 0xf3), Column(0x19, 0xfa, 0xdc, 0x21), Column(0x28, 0xd1, 0x29, 0x41), Column(0x57, 0x5c, 0x00, 0x6e))
  const KEY10 := Four(Column(0xd0, 0x14, 0xf9, 0xa8), Column(0xc9, 0xee, 0x25, 0x89), Column(0xe1, 0x3f, 0x0c, 0xc8), Column(0xb6, 0x63, 0x0c, 0xa6))

  // ---- The states at the start of the rounds, and the result ----

  const STATE0 := Four(Column(0x19, 0x3d, 0xe3, 0xbe), Column(0xa0, 0xf4, 0xe2, 0x2b), Column(0x9a, 0xc6, 0x8d, 0x2a), Column(0xe9, 0xf8, 0x48, 0x08))
  const STATE1 := Four(Column(0xa4, 0x9c, 0x7f, 0xf2), Column(0x68, 0x9f, 0x35, 0x2b), Column(0x6b, 0x5b, 0xea, 0x43), Column(0x02, 0x6a, 0x50, 0x49))
  const STATE2 := Four(Column(0xaa, 0x8f, 0x5f, 0x03), Column(0x61, 0xdd, 0xe3, 0xef), Column(0x82, 0xd2, 0x4a, 0xd2), Column(0x68, 0x32, 0x46, 0x9a))
  const STATE3 := Four(Column(0x48, 0x6c, 0x4e, 0xee), Column(0x67, 0x1d, 0x9d, 0x0d), Column(0x4d, 0xe3, 0xb1, 0x38), Column(0xd6, 0x5f, 0x58, 0xe7))
  const STATE4 := Four(Column(0xe0, 0x92, 0x7f, 0xe8), Column(0xc8, 0x63, 0x63, 0xc0), Column(0xd9, 0xb1, 0x35, 0x50), Column(0x85, 0xb8, 0xbe, 0x01))
  const STATE5 := Four(Column(0xf1, 0x00, 0x6f, 0x55), Column(0xc1, 0x92, 0x4c, 0xef), Column(0x7c, 0xc8, 0x8b, 0x32), Column(0x5d, 0xb5, 0xd5, 0x0c))
  const STATE6 := Four(Column(0x26, 0x0e, 0x2e, 0x17), Column(0x3d, 0x41, 0xb7, 0x7d), Column(0xe8, 0x64, 0x72, 0xa9), Column(0xfd, 0xd2, 0x8b, 0x25))
  const STATE7 := Four(Column(0x5a, 0x41, 0x42, 0xb1), Column(0x19, 0x49, 0xdc, 0x1f), Column(0xa3, 0xe0, 0x19, 0x65), Column(0x7a, 0x8c, 0x04, 0x0c))
  const STATE8 := Four(Column(0xea, 0x83, 0x5c, 0xf0), Column(0x04, 0x45, 0x33, 0x2d), Column(0x65, 0x5d, 0x98, 0xad), Column(0x85, 0x96, 0xb0, 0xc5))
  const STATE9 := Four(Column(0xeb, 0x40, 0xf2, 0x1e), Column(0x59, 0x2e, 0x38, 0x84), Column(0x8b, 0xa1, 0x13, 0xe7), Column(0x1b, 0xc3, 0x42, 0xd2))
  const STATE10 := Four(Column(0x39, 0x25, 0x84, 0x1d), Column(0x02, 0xdc, 0x09, 0xfb), Column(0xdc, 0x11, 0x85, 0x97), Column(0x19, 0x6a, 0x0b, 0x32))

  lemma Key1()
    ensures NextKey(1, KEY0) == KEY1
  {
  }

  lemma Key2()
    ensures NextKey(2, KEY1) == KEY2
  {
  }

  lemma Key3()
    ensures NextKey(3, KEY2) == KEY3
  {
  }

  lemma Key4()
    ensures NextKey(4, KEY3) == KEY4
  {
  }

  lemma Key5()
    ensures NextKey(5, KEY4) == KEY5
  {
  }

  lemma Key6()
    ensures NextKey(6, KEY5) == KEY6
  {
  }

  lemma Key7()
    ensures NextKey(7, KEY6) == KEY7
  {
  }

  lemma Key8()
    ensures NextKey(8, KEY7) == KEY8
  {
  }

  lemma Key9()
    ensures NextKey(9, KEY8) == KEY9
  {
  }

  lemma Key10()
    ensures NextKey(10, KEY9) == KEY10
  {
  }

  lemma State1()
    ensures Plus(Mixed(Shifted(STATE0)), KEY1) == STATE1
  {
  }

  lemma State2()
    ensures Plus(Mixed(Shifted(STATE1)), KEY2) == STATE2
  {
  }

  lemma State3()
    ensures Plus(Mixed(Shifted(STATE2)), KEY3) == STATE3
  {
  }

  lemma State4()
    ensures Plus(Mixed(Shifted(STATE3)), KEY4) == STATE4
  {
  }

  lemma State5()
    ensures Plus(Mixed(Shifted(STATE4)), KEY5) == STATE5
  {
  }

  lemma State6()
    ensures Plus(Mixed(Shifted(STATE5)), KEY6) == STATE6
  {
  }

  lemma State7()
    ensures Plus(Mixed(Shifted(STATE6)), KEY7) == STATE7
  {
  }

  lemma State8()
    ensures Plus(Mixed(Shifted(STATE7)), KEY8) == STATE8
  {
  }

  lemma State9()
    ensures Plus(Mixed(Shifted(STATE8)), KEY9) == STATE9
  {
  }

  lemma State10()
    ensures Plus(Shifted(STATE9), KEY10) == STATE10
  {
  }

  /** All round keys of the example. */
  lemma RoundKeys(key: seq<bv8>, w: seq<bv8>)
    requires |key| == 16 && w == ScheduleBytes(key, 4, 44) && KeyOf(w, 0) == KEY0
    ensures KeyOf(w, 1) == KEY1
            && KeyOf(w, 2) == KEY2
            && KeyOf(w, 3) == KEY3
            && KeyOf(w, 4) == KEY4
            && KeyOf(w, 5) == KEY5
            && KeyOf(w, 6) == KEY6
            && KeyOf(w, 7) == KEY7
            && KeyOf(w, 8) == KEY8
            && KeyOf(w, 9) == KEY9
            && KeyOf(w, 10) == KEY10
  {
    hide *;

    KeyStep(key, w, 1);
    Key1();
    KeyStep(key, w, 2);
    Key2();
    KeyStep(key, w, 3);
    Key3();
    KeyStep(key, w, 4);
    Key4();
    KeyStep(key, w, 5);
    Key5();
    KeyStep(key, w, 6);
    Key6();
    KeyStep(key, w, 7);
    Key7();
    KeyStep(key, w, 8);
    Key8();
    KeyStep(key, w, 9);
    Key9();
    KeyStep(key, w, 10);
    Key10();
  }

  /** All round states of the example. */
  lemma RoundStates(s: C.Block, w: seq<bv8>)
    requires |w| == 176 && Plus(ColumnsOf(s), KEY0) == STATE0
    requires KeyOf(w, 0) == KEY0
             && KeyOf(w, 1) == KEY1
             && KeyOf(w, 2) == KEY2
             && KeyOf(w, 3) == KEY3
             && KeyOf(w, 4) == KEY4
             && KeyOf(w, 5) == KEY5
             && KeyOf(w, 6) == KEY6
             && KeyOf(w, 7) == KEY7
             && KeyOf(w, 8) == KEY8
             && KeyOf(w, 9) == KEY9
             && KeyOf(w, 10) == KEY10
    ensures ColumnsOf(C.Cipher(s, w, 10)) == STATE10
  {
    hide C.Rounds, C.Cipher, Shifted, Mixed, Plus, KeyOf, ColumnsOf;

    RoundStep(s, w, 1);
    State1();
    RoundStep(s, w, 2);
    State2();
    RoundStep(s, w, 3);
    State3();
    RoundStep(s, w, 4);
    State4();
    RoundStep(s, w, 5);
    State5();
    RoundStep(s, w, 6);
    State6();
    RoundStep(s, w, 7);
    State7();
    RoundStep(s, w, 8);
    State8();
    RoundStep(s, w, 9);
    State9();
    RoundStep(s, w, 10);
    State10();
  }

  ghost function WordsOf(key: seq<bv8>): (k: RoundKey)
    requires |key| == 16
  {
    Four(WordAt(key, 0), WordAt(key, 1), WordAt(key, 2), WordAt(key, 3))
  }

  /** The key and input of the example lead to its output. */
  lemma CipherAnswer(key: seq<bv8>, input: C.Block, w: seq<bv8>)
    requires |key| == 16 && WordsOf(key) == KEY0 && input == INPUT && w == ScheduleBytes(key, 4, 44)
    ensures C.Cipher(input, w, 10) == OUTPUT
  {
    hide C.Cipher, C.Rounds, ScheduleBytes, KeyOf, ColumnsOf, Plus, WordsOf;
    FirstKey(key, w);
    RoundKeys(key, w);
    FirstState(input);
    RoundStates(input, w);
    LastState(C.Cipher(input, w, 10));
  }

  lemma FirstKey(key: seq<bv8>, w: seq<bv8>)
    requires |key| == 16 && w == ScheduleBytes(key, 4, 44)
    ensures KeyOf(w, 0) == WordsOf(key)
  {
    hide ScheduleBytes, SBox, RoundConstant, WordAt;
    ScheduleRecurrence(key, 4, 44, 0);
    ScheduleRecurrence(key, 4, 44, 1);
    ScheduleRecurrence(key, 4, 44, 2);
    ScheduleRecurrence(key, 4, 44, 3);
  }

  lemma FirstState(input: C.Block)
    requires input == INPUT
    ensures Plus(ColumnsOf(input), KEY0) == STATE0
  {
  }

  lemma LastState(s: C.Block)
    requires ColumnsOf(s) == STATE10
    ensures s == OUTPUT
  {
    C.ColumnsRebuild(s);
    assert s == C.FromColumns(STATE10.w0, STATE10.w1, STATE10.w2, STATE10.w3);
  }

  /** The example through the whole of `encode`: one block without padding. */
  lemma KnownAnswer(key: seq<bv8>, input: C.Block)
    requires key == KEY && input == INPUT
    ensures E.Encoded(Aes128, E.ECB, Zero, input, key, []) == OUTPUT
  {
    hide C.Cipher, ScheduleBytes, Pad, M.Ecb;
    assert WordsOf(key) == KEY0;
    CipherAnswer(key, input, ScheduleBytes(key, 4, 44));
    var e := E.Encryptor(Aes128, key);
    assert e(input) == OUTPUT;
    OneBlock(e, input);
  }

  lemma OneBlock(e: C.Block -> C.Block, b: C.Block)
    ensures Pad(Zero, b) == b && M.Ecb(e, b) == e(b)
  {
    assert M.Front(b) == [] && M.Last(b) == b;
    assert M.Ecb(e, []) == [];
  }
}
