/** The AES block cipher over byte sequences: the round steps of sections 5.1 and 5.3 of
    FIPS 197 on the column-ordered state, and the two ciphers composed from them for any
    number of rounds. */
module AesCipher {
  import opened AesField
  import opened AesColumn
  import opened AesTables

  const ZERO_BLOCK: seq<bv8> := seq(16, i => 0)

  type Block = s: seq<bv8> | |s| == 16 witness ZERO_BLOCK

  // ---- Round steps ----

  /** Is `w` long enough for the round keys 0 to `round`? */
  predicate HasRoundKey(w: seq<bv8>, round: nat) {
    16 * (round + 1) <= |w|
  }

  function AddRoundKey(s: Block, w: seq<bv8>, round: nat): (r: Block)
    requires HasRoundKey(w, round)
  {
    seq(16, i requires 0 <= i < 16 => Xor(s[i], w[16 * round + i]))
  }

  function SubBytes(s: Block): (r: Block) {
    seq(16, i requires 0 <= i < 16 => SBox(s[i]))
  }

  function InvSubBytes(s: Block): (r: Block) {
    seq(16, i requires 0 <= i < 16 => InvSBox(s[i]))
  }

  /** Byte i is in row i % 4 and column i / 4; row r takes its bytes from r columns to the right. */
  function ShiftFrom(i: nat): (j: nat)
    ensures j < 16
  {
    i % 4 + 4 * ((i / 4 + i % 4) % 4)
  }

  function ShiftRows(s: Block): (r: Block) {
    seq(16, i requires 0 <= i < 16 => s[ShiftFrom(i)])
  }

  /** Row r takes its bytes from r columns to the left. */
  function InvShiftFrom(i: nat): (j: nat)
    ensures j < 16
  {
    i % 4 + 4 * ((i / 4 + 4 - i % 4) % 4)
  }

  function InvShiftRows(s: Block): (r: Block) {
    seq(16, i requires 0 <= i < 16 => s[InvShiftFrom(i)])
  }

  // Where each byte comes from, written out.

  lemma ShiftFromTable()
    ensures ShiftFrom(0) == 0 && ShiftFrom(1) == 5 && ShiftFrom(2) == 10 && ShiftFrom(3) == 15
    ensures ShiftFrom(4) == 4 && ShiftFrom(5) == 9 && ShiftFrom(6) == 14 && ShiftFrom(7) == 3
    ensures ShiftFrom(8) == 8 && ShiftFrom(9) == 13 && ShiftFrom(10) == 2 && ShiftFrom(11) == 7
    ensures ShiftFrom(12) == 12 && ShiftFrom(13) == 1 && ShiftFrom(14) == 6 && ShiftFrom(15) == 11
  {
  }

  lemma ShiftRowsBytes(s: Block)
    ensures ShiftRows(s)[0] == s[0] && ShiftRows(s)[1] == s[5] && ShiftRows(s)[2] == s[10] && ShiftRows(s)[3] == s[15]
    ensures ShiftRows(s)[4] == s[4] && ShiftRows(s)[5] == s[9] && ShiftRows(s)[6] == s[14] && ShiftRows(s)[7] == s[3]
    ensures ShiftRows(s)[8] == s[8] && ShiftRows(s)[9] == s[13] && ShiftRows(s)[10] == s[2] && ShiftRows(s)[11] == s[7]
    ensures ShiftRows(s)[12] == s[12] && ShiftRows(s)[13] == s[1] && ShiftRows(s)[14] == s[6] && ShiftRows(s)[15] == s[11]
  {
    hide ShiftFrom;
    ShiftFromTable();
  }

  lemma InvShiftFromTable()
    ensures InvShiftFrom(0) == 0 && InvShiftFrom(1) == 13 && InvShiftFrom(2) == 10 && InvShiftFrom(3) == 7
    ensures InvShiftFrom(4) == 4 && InvShiftFrom(5) == 1 && InvShiftFrom(6) == 14 && InvShiftFrom(7) == 11
    ensures InvShiftFrom(8) == 8 && InvShiftFrom(9) == 5 && InvShiftFrom(10) == 2 && InvShiftFrom(11) == 15
    ensures InvShiftFrom(12) == 12 && InvShiftFrom(13) == 9 && InvShiftFrom(14) == 6 && InvShiftFrom(15) == 3
  {
  }

  lemma InvShiftRowsBytes(s: Block)
    ensures InvShiftRows(s)[0] == s[0] && InvShiftRows(s)[1] == s[13] && InvShiftRows(s)[2] == s[10] && InvShiftRows(s)[3] == s[7]
    ensures InvShiftRows(s)[4] == s[4] && InvShiftRows(s)[5] == s[1] && InvShiftRows(s)[6] == s[14] && InvShiftRows(s)[7] == s[11]
    ensures InvShiftRows(s)[8] == s[8] && InvShiftRows(s)[9] == s[5] && InvShiftRows(s)[10] == s[2] && InvShiftRows(s)[11] == s[15]
    ensures InvShiftRows(s)[12] == s[12] && InvShiftRows(s)[13] == s[9] && InvShiftRows(s)[14] == s[6] && InvShiftRows(s)[15] == s[3]
  {
    hide InvShiftFrom;
    InvShiftFromTable();
  }

  function ColumnOf(s: Block, k: nat): (c: Column)
    requires k < 4
  {
    Column(s[4 * k], s[4 * k + 1], s[4 * k + 2], s[4 * k + 3])
  }

  function Bytes(c: Column): (r: seq<bv8>)
    ensures |r| == 4
  {
    [c.b0, c.b1, c.b2, c.b3]
  }

  function FromColumns(c0: Column, c1: Column, c2: Column, c3: Column): (s: Block) {
    Bytes(c0) + Bytes(c1) + Bytes(c2) + Bytes(c3)
  }

  function MixColumns(s: Block): (r: Block) {
    FromColumns(Mix(ColumnOf(s, 0)), Mix(ColumnOf(s, 1)), Mix(ColumnOf(s, 2)), Mix(ColumnOf(s, 3)))
  }

  function InvMixColumns(s: Block): (r: Block) {
    FromColumns(InvMix(ColumnOf(s, 0)), InvMix(ColumnOf(s, 1)), InvMix(ColumnOf(s, 2)), InvMix(ColumnOf(s, 3)))
  }

  // ---- The ciphers ----

  /** One pass of the encryption loop. */
  function Round(s: Block, w: seq<bv8>, k: nat): (r: Block)
    requires HasRoundKey(w, k)
  {
    AddRoundKey(MixColumns(ShiftRows(SubBytes(s))), w, k)
  }

  /** The state after the initial key addition and the rounds 1 to `k`. */
  function Rounds(s: Block, w: seq<bv8>, k: nat): (r: Block)
    requires HasRoundKey(w, k)
    decreases k
  {
    if k == 0 then AddRoundKey(s, w, 0)
    else Round(Rounds(s, w, k - 1), w, k)
  }

  /** Section 5.1 of FIPS 197, for any number of rounds. */
  function Cipher(s: Block, w: seq<bv8>, nr: nat): (r: Block)
    requires nr > 0 && HasRoundKey(w, nr)
  {
    AddRoundKey(ShiftRows(SubBytes(Rounds(s, w, nr - 1))), w, nr)
  }

  /** One pass of the decryption loop. */
  function InvRound(s: Block, w: seq<bv8>, k: nat): (r: Block)
    requires HasRoundKey(w, k)
  {
    InvMixColumns(AddRoundKey(InvSubBytes(InvShiftRows(s)), w, k))
  }

  /** The inverse rounds `k` down to 1. */
  function InvRounds(s: Block, w: seq<bv8>, k: nat): (r: Block)
    requires HasRoundKey(w, k)
    decreases k
  {
    if k == 0 then s
    else InvRounds(InvRound(s, w, k), w, k - 1)
  }

  /** Section 5.3 of FIPS 197, for any number of rounds. */
  function InvCipher(s: Block, w: seq<bv8>, nr: nat): (r: Block)
    requires nr > 0 && HasRoundKey(w, nr)
  {
    AddRoundKey(InvSubBytes(InvShiftRows(InvRounds(AddRoundKey(s, w, nr), w, nr - 1))), w, 0)
  }

  // ---- Every step is undone by its inverse ----

  lemma AddRoundKeyUndoesItself(s: Block, w: seq<bv8>, round: nat)
    requires HasRoundKey(w, round)
    ensures AddRoundKey(AddRoundKey(s, w, round), w, round) == s
  {
    hide Xor;
    forall i | 0 <= i < 16
      ensures AddRoundKey(AddRoundKey(s, w, round), w, round)[i] == s[i]
    {
      XorCancels(s[i], w[16 * round + i]);
    }
  }

  lemma InvSubBytesUndoesSubBytes(s: Block)
    ensures InvSubBytes(SubBytes(s)) == s
  {
    hide SBox, InvSBox;
    forall i | 0 <= i < 16
      ensures InvSubBytes(SubBytes(s))[i] == s[i]
    {
      SBoxesInverse(s[i]);
    }
  }

  lemma ShiftFromInverse(i: nat)
    requires i < 16
    ensures ShiftFrom(InvShiftFrom(i)) == i
  {
    var r, c := i % 4, i / 4;
    var k := (c + 4 - r) % 4;
    assert (k + r) % 4 == c;
    assert (r + 4 * k) % 4 == r && (r + 4 * k) / 4 == k;
  }

  lemma InvShiftRowsUndoesShiftRows(s: Block)
    ensures InvShiftRows(ShiftRows(s)) == s
  {
    hide ShiftFrom, InvShiftFrom;
    forall i | 0 <= i < 16
      ensures InvShiftRows(ShiftRows(s))[i] == s[i]
    {
      ShiftFromInverse(i);
    }
  }

  lemma ColumnsOf(c0: Column, c1: Column, c2: Column, c3: Column)
    ensures var s := FromColumns(c0, c1, c2, c3);
            ColumnOf(s, 0) == c0 && ColumnOf(s, 1) == c1 && ColumnOf(s, 2) == c2 && ColumnOf(s, 3) == c3
  {
  }

  lemma ColumnsRebuild(s: Block)
    ensures FromColumns(ColumnOf(s, 0), ColumnOf(s, 1), ColumnOf(s, 2), ColumnOf(s, 3)) == s
  {
  }

  lemma InvMixColumnsUndoesMixColumns(s: Block)
    ensures InvMixColumns(MixColumns(s)) == s
  {
    hide Mix, InvMix, FromColumns, ColumnOf;
    var c0, c1, c2, c3 := ColumnOf(s, 0), ColumnOf(s, 1), ColumnOf(s, 2), ColumnOf(s, 3);
    ColumnsOf(Mix(c0), Mix(c1), Mix(c2), Mix(c3));
    InvMixUndoesMix(c0);
    InvMixUndoesMix(c1);
    InvMixUndoesMix(c2);
    InvMixUndoesMix(c3);
    ColumnsRebuild(s);
  }

  // ---- So the inverse cipher undoes the cipher ----

  /** Entered with the state of round `k` substituted and shifted, the inverse rounds
      arrive at the initial state substituted and shifted. */
  lemma {:induction false} InvRoundsUndoRounds(s: Block, w: seq<bv8>, k: nat)
    requires HasRoundKey(w, k)
    ensures InvRounds(ShiftRows(SubBytes(Rounds(s, w, k))), w, k) == ShiftRows(SubBytes(AddRoundKey(s, w, 0)))
  {
    hide AddRoundKey, SubBytes, InvSubBytes, ShiftRows, InvShiftRows, MixColumns, InvMixColumns;
    if k > 0 {
      var before := ShiftRows(SubBytes(Rounds(s, w, k - 1)));
      var state := Rounds(s, w, k);
      InvShiftRowsUndoesShiftRows(SubBytes(state));
      InvSubBytesUndoesSubBytes(state);
      AddRoundKeyUndoesItself(MixColumns(before), w, k);
      InvMixColumnsUndoesMixColumns(before);
      InvRoundsUndoRounds(s, w, k - 1);
    }
  }

  /** For every block, every number of rounds and every string of round keys long enough
      for them, decryption returns the block that was encrypted. */
  lemma InvCipherUndoesCipher(s: Block, w: seq<bv8>, nr: nat)
    requires nr > 0 && HasRoundKey(w, nr)
    ensures InvCipher(Cipher(s, w, nr), w, nr) == s
  {
    hide AddRoundKey, SubBytes, InvSubBytes, ShiftRows, InvShiftRows;
    AddRoundKeyUndoesItself(ShiftRows(SubBytes(Rounds(s, w, nr - 1))), w, nr);
    InvRoundsUndoRounds(s, w, nr - 1);
    var start := AddRoundKey(s, w, 0);
    InvShiftRowsUndoesShiftRows(SubBytes(start));
    InvSubBytesUndoesSubBytes(start);
    AddRoundKeyUndoesItself(s, w, 0);
  }
}
