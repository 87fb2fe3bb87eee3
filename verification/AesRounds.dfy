/** What the rounds compute, byte by byte, and how they use the round keys. */
module AesRounds {
  import opened AesField
  import opened AesColumn
  import opened AesTables
  import opened AesCipher
  import opened AesKeySchedule

  // ---- One round, column by column ----

  /** Column `j` of the state after substitution and row shifts: its four bytes come from the
      diagonal that starts in column `j`. */
  function Diagonal(s: Block, j: nat): (c: Column)
    requires j < 4
  {
    Column(SBox(s[4 * j]), SBox(s[(4 * j + 5) % 16]), SBox(s[(4 * j + 10) % 16]), SBox(s[(4 * j + 15) % 16]))
  }

  lemma SubstitutedAndShifted(s: Block, j: nat)
    requires j < 4
    ensures ColumnOf(ShiftRows(SubBytes(s)), j) == Diagonal(s, j)
  {
    hide SBox, ShiftRows, ShiftFrom;
    var t := SubBytes(s);
    ShiftRowsBytes(t);
    if j == 0 {
      assert ColumnOf(ShiftRows(t), 0) == Column(t[0], t[5], t[10], t[15]);
    } else if j == 1 {
      assert ColumnOf(ShiftRows(t), 1) == Column(t[4], t[9], t[14], t[3]);
    } else if j == 2 {
      assert ColumnOf(ShiftRows(t), 2) == Column(t[8], t[13], t[2], t[7]);
    } else {
      assert ColumnOf(ShiftRows(t), 3) == Column(t[12], t[1], t[6], t[11]);
    }
  }

  lemma AddedColumn(s: Block, w: seq<bv8>, k: nat, j: nat)
    requires HasRoundKey(w, k) && j < 4
    ensures ColumnOf(AddRoundKey(s, w, k), j) == Add(ColumnOf(s, j), WordAt(w, 4 * k + j))
  {
    hide Xor;
  }

  lemma MixedColumn(s: Block, j: nat)
    requires j < 4
    ensures ColumnOf(MixColumns(s), j) == Mix(ColumnOf(s, j))
  {
    hide Mix;
    ColumnsOf(Mix(ColumnOf(s, 0)), Mix(ColumnOf(s, 1)), Mix(ColumnOf(s, 2)), Mix(ColumnOf(s, 3)));
  }

  /** Every column of the cipher, for any number of rounds: word 0 to 3 of the schedule are added
      first; column `j` of round `k` is the matrix product of a substituted diagonal plus word
      4k + j; the last round leaves out the product. */
  lemma RoundColumns(s: Block, w: seq<bv8>, k: nat, j: nat)
    requires HasRoundKey(w, k) && j < 4
    ensures ColumnOf(Rounds(s, w, 0), j) == Add(ColumnOf(s, j), WordAt(w, j))
    ensures k > 0 ==>
              && ColumnOf(Rounds(s, w, k), j) == Add(Mix(Diagonal(Rounds(s, w, k - 1), j)), WordAt(w, 4 * k + j))
              && ColumnOf(Cipher(s, w, k), j) == Add(Diagonal(Rounds(s, w, k - 1), j), WordAt(w, 4 * k + j))
  {
    hide AddRoundKey, SubBytes, ShiftRows, MixColumns, Mix, Diagonal, ColumnOf, Add;
    AddedColumn(s, w, 0, j);
    if k > 0 {
      var t := ShiftRows(SubBytes(Rounds(s, w, k - 1)));
      SubstitutedAndShifted(Rounds(s, w, k - 1), j);
      MixedColumn(t, j);
      AddedColumn(MixColumns(t), w, k, j);
      AddedColumn(t, w, k, j);
    }
  }

  // ---- Every byte of every round key matters ----

  /** The two key strings differ in byte `i` of round key `r` and nowhere else. */
  ghost predicate DifferOnlyAt(w: seq<bv8>, v: seq<bv8>, r: nat, i: nat) {
    && |w| == |v| && i < 16 && HasRoundKey(w, r) && w[16 * r + i] != v[16 * r + i]
    && forall j :: 0 <= j < |w| && j != 16 * r + i ==> w[j] == v[j]
  }

  lemma OtherRoundKey(s: Block, w: seq<bv8>, v: seq<bv8>, r: nat, i: nat, k: nat)
    requires DifferOnlyAt(w, v, r, i) && HasRoundKey(w, k) && k != r
    ensures AddRoundKey(s, w, k) == AddRoundKey(s, v, k)
  {
    hide Xor;
    forall j | 0 <= j < 16
      ensures AddRoundKey(s, w, k)[j] == AddRoundKey(s, v, k)[j]
    {
      assert w[16 * k + j] == v[16 * k + j];
    }
  }

  /** Adding the round key that differs changes one byte of the state. */
  lemma ThisRoundKey(s: Block, w: seq<bv8>, v: seq<bv8>, r: nat, i: nat)
    requires DifferOnlyAt(w, v, r, i)
    ensures AddRoundKey(s, w, r) != AddRoundKey(s, v, r)
    ensures forall j :: 0 <= j < 16 ==>
              AddRoundKey(s, v, r)[j] ==
              if j == i then Xor(AddRoundKey(s, w, r)[i], Xor(w[16 * r + i], v[16 * r + i]))
              else AddRoundKey(s, w, r)[j]
  {
    hide Xor;
    var b, c := w[16 * r + i], v[16 * r + i];
    XorShift(s[i], b, c);
    assert AddRoundKey(s, w, r)[i] == Xor(s[i], b) && AddRoundKey(s, v, r)[i] == Xor(s[i], c);
  }

  lemma XorShift(a: bv8, b: bv8, c: bv8)
    requires b != c
    ensures Xor(a, b) != Xor(a, c)
    ensures Xor(a, c) == Xor(Xor(a, b), Xor(b, c))
  {
  }

  /** A round does not merge states. */
  lemma RoundInjective(s: Block, t: Block, w: seq<bv8>, k: nat)
    requires HasRoundKey(w, k) && s != t
    ensures Round(s, w, k) != Round(t, w, k)
    ensures AddRoundKey(ShiftRows(SubBytes(s)), w, k) != AddRoundKey(ShiftRows(SubBytes(t)), w, k)
  {
    hide AddRoundKey, SubBytes, InvSubBytes, ShiftRows, InvShiftRows, MixColumns, InvMixColumns;
    var a, b := ShiftRows(SubBytes(s)), ShiftRows(SubBytes(t));
    InvSubBytesUndoesSubBytes(s);
    InvSubBytesUndoesSubBytes(t);
    InvShiftRowsUndoesShiftRows(SubBytes(s));
    InvShiftRowsUndoesShiftRows(SubBytes(t));
    InvMixColumnsUndoesMixColumns(a);
    InvMixColumnsUndoesMixColumns(b);
    AddRoundKeyUndoesItself(a, w, k);
    AddRoundKeyUndoesItself(b, w, k);
    AddRoundKeyUndoesItself(MixColumns(a), w, k);
    AddRoundKeyUndoesItself(MixColumns(b), w, k);
  }

  lemma {:induction false} RoundsDiffer(s: Block, w: seq<bv8>, v: seq<bv8>, r: nat, i: nat, k: nat)
    requires DifferOnlyAt(w, v, r, i) && HasRoundKey(w, k)
    ensures Rounds(s, w, k) == Rounds(s, v, k) <==> k < r
    decreases k
  {
    hide AddRoundKey, SubBytes, ShiftRows, MixColumns, DifferOnlyAt;
    assert |w| == |v| by { SameLength(w, v, r, i); }
    if k == 0 {
      if r == 0 {
        ThisRoundKey(s, w, v, r, i);
      } else {
        OtherRoundKey(s, w, v, r, i, 0);
      }
    } else {
      RoundsDiffer(s, w, v, r, i, k - 1);
      var x, y := Rounds(s, w, k - 1), Rounds(s, v, k - 1);
      var mixed := MixColumns(ShiftRows(SubBytes(y)));
      if k == r {
        ThisRoundKey(mixed, w, v, r, i);
      } else {
        OtherRoundKey(mixed, w, v, r, i, k);
        if k > r {
          RoundInjective(x, y, w, k);
        }
      }
    }
  }

  lemma SameLength(w: seq<bv8>, v: seq<bv8>, r: nat, i: nat)
    requires DifferOnlyAt(w, v, r, i)
    ensures |w| == |v|
  {
  }

  /** For every block and any number of rounds, a change of any one byte of the round keys used
      changes the result; a change in the last round key changes just that byte of the result, by
      the same difference. */
  lemma KeyByteMatters(s: Block, w: seq<bv8>, v: seq<bv8>, nr: nat, r: nat, i: nat)
    requires 0 < nr && HasRoundKey(w, nr) && r <= nr && DifferOnlyAt(w, v, r, i)
    ensures Cipher(s, w, nr) != Cipher(s, v, nr)
    ensures r == nr ==>
              forall j :: 0 <= j < 16 ==>
                Cipher(s, v, nr)[j] ==
                if j == i then Xor(Cipher(s, w, nr)[i], Xor(w[16 * nr + i], v[16 * nr + i])) else Cipher(s, w, nr)[j]
  {
    hide AddRoundKey, SubBytes, ShiftRows, Rounds, Xor;
    RoundsDiffer(s, w, v, r, i, nr - 1);
    var x, y := Rounds(s, w, nr - 1), Rounds(s, v, nr - 1);
    var t := ShiftRows(SubBytes(y));
    if r == nr {
      ThisRoundKey(t, w, v, r, i);
    } else {
      OtherRoundKey(t, w, v, r, i, nr);
      RoundInjective(x, y, w, nr);
    }
  }

  // ---- The words of the schedule ----

  /** Section 5.2 of FIPS 197 on the words of the expanded key: after the key itself, each word is
      the one a key length before plus the previous one, which at multiples of the key length is
      rotated, substituted and added to a round constant, and for the longest key is substituted half
      way in between. */
  lemma ScheduleRecurrence(key: seq<bv8>, nk: nat, n: nat, i: nat)
    requires (nk == 4 || nk == 6 || nk == 8) && |key| == 4 * nk && i < n <= 60
    ensures i < nk ==> WordAt(ScheduleBytes(key, nk, n), i) == WordAt(key, i)
    ensures i >= nk ==>
              var w := ScheduleBytes(key, nk, n);
              var t := WordAt(w, i - 1);
              var added :=
                if i % nk == 0 then Column(Xor(SBox(t.b1), RoundConstant(i / nk)), SBox(t.b2), SBox(t.b3), SBox(t.b0))
                else if nk == 8 && i % 8 == 4 then Column(SBox(t.b0), SBox(t.b1), SBox(t.b2), SBox(t.b3))
                else t;
              WordAt(w, i) == Add(WordAt(w, i - nk), added)
  {
    hide SBox, RoundConstant, Xor, ScheduleBytes, WordAt;
    ScheduleWordAt(key, nk, n, i);
    if i >= nk {
      ScheduleWordAt(key, nk, n, i - 1);
      ScheduleWordAt(key, nk, n, i - nk);
      var t := KeyWord(key, nk, i - 1);
      assert i / nk > 0;
      XorZero(SBox(t.b2));
      XorZero(SBox(t.b3));
      XorZero(SBox(t.b0));
    }
  }
}
