/** The key schedule of section 5.2 of FIPS 197 as a recurrence on four-byte words,
    and the three parameter sets of QuickDesk/base/qaesencryption.h. */
module AesKeySchedule {
  import opened AesField
  import opened AesColumn
  import opened AesTables

  datatype Level = Aes128 | Aes192 | Aes256

  /** `nk`: the length of the key in words. */
  function KeyWords(level: Level): (nk: nat)
    ensures nk == 4 || nk == 6 || nk == 8
  {
    match level
    case Aes128 => 4
    case Aes192 => 6
    case Aes256 => 8
  }

  /** `keylen`, in bytes. */
  function KeyLength(level: Level): (n: nat) {
    match level
    case Aes128 => 16
    case Aes192 => 24
    case Aes256 => 32
  }

  /** `nr`: the number of rounds. */
  function RoundCount(level: Level): (nr: nat)
    ensures nr == KeyWords(level) + 6
  {
    match level
    case Aes128 => 10
    case Aes192 => 12
    case Aes256 => 14
  }

  function RotWord(w: Column): (r: Column) {
    Column(w.b1, w.b2, w.b3, w.b0)
  }

  function SubWord(w: Column): (r: Column) {
    Column(SBox(w.b0), SBox(w.b1), SBox(w.b2), SBox(w.b3))
  }

  /** x^(i-1) in the field. */
  function RoundConstant(i: nat): (r: bv8)
    requires i > 0
  {
    if i == 1 then 1 else XTime(RoundConstant(i - 1))
  }

  function WordAt(bytes: seq<bv8>, i: nat): (w: Column)
    requires 4 * i + 4 <= |bytes|
  {
    Column(bytes[4 * i], bytes[4 * i + 1], bytes[4 * i + 2], bytes[4 * i + 3])
  }

  /** What the previous word contributes to word `i`. */
  function Transformed(previous: Column, nk: nat, i: nat): (w: Column)
    requires 0 < nk <= i
  {
    if i % nk == 0 then Add(SubWord(RotWord(previous)), Column(RoundConstant(QuotientPositive(i, nk)), 0, 0, 0))
    else if nk > 6 && i % nk == 4 then SubWord(previous)
    else previous
  }

  function QuotientPositive(i: nat, nk: nat): (q: nat)
    requires 0 < nk <= i
    ensures q == i / nk && q > 0
  {
    i / nk
  }

  /** Word `i` of the expanded key. */
  function KeyWord(key: seq<bv8>, nk: nat, i: nat): (w: Column)
    requires nk > 0 && |key| == 4 * nk
    decreases i
  {
    if i < nk then WordAt(key, i)
    else Add(KeyWord(key, nk, i - nk), Transformed(KeyWord(key, nk, i - 1), nk, i))
  }

  /** The bytes of the first `n` words of the expanded key. */
  function ScheduleBytes(key: seq<bv8>, nk: nat, n: nat): (s: seq<bv8>)
    requires nk > 0 && |key| == 4 * nk
    ensures |s| == 4 * n
  {
    if n == 0 then []
    else
      var w := KeyWord(key, nk, n - 1);
      ScheduleBytes(key, nk, n - 1) + [w.b0, w.b1, w.b2, w.b3]
  }

  /** The words read back out of the bytes. */
  lemma {:induction false} ScheduleWordAt(key: seq<bv8>, nk: nat, n: nat, i: nat)
    requires nk > 0 && |key| == 4 * nk
    requires i < n
    ensures WordAt(ScheduleBytes(key, nk, n), i) == KeyWord(key, nk, i)
  {
    hide KeyWord;
    if i < n - 1 {
      ScheduleWordAt(key, nk, n - 1, i);
    }
  }

  /** The schedule starts with the key itself. */
  lemma ScheduleStartsWithKey(key: seq<bv8>, nk: nat)
    requires nk > 0 && |key| == 4 * nk
    ensures ScheduleBytes(key, nk, nk) == key
  {
    forall j | 0 <= j < |key|
      ensures ScheduleBytes(key, nk, nk)[j] == key[j]
    {
      ScheduleWordAt(key, nk, nk, j / 4);
      assert j == 4 * (j / 4) + j % 4;
    }
  }

  /** The table holds the round constants. */
  lemma {:induction false} RconIsRoundConstant(i: nat)
    requires 0 < i < |RCON|
    ensures RCON[i] == RoundConstant(i)
  {
    hide XTime;
    RconIsDoublings(i);
    if i > 1 {
      RconIsRoundConstant(i - 1);
    }
  }

  /** One more word of the schedule, byte by byte. */
  lemma ScheduleStep(key: seq<bv8>, nk: nat, i: nat)
    requires 0 < nk <= i && |key| == 4 * nk
    ensures var s := ScheduleBytes(key, nk, i);
            var t := Transformed(WordAt(s, i - 1), nk, i);
            ScheduleBytes(key, nk, i + 1) ==
              s + [Xor(s[4 * (i - nk)], t.b0), Xor(s[4 * (i - nk) + 1], t.b1),
                   Xor(s[4 * (i - nk) + 2], t.b2), Xor(s[4 * (i - nk) + 3], t.b3)]
  {
    hide Xor, Transformed;
    ScheduleWordAt(key, nk, i, i - 1);
    ScheduleWordAt(key, nk, i, i - nk);
  }

  /** In every parameter set the round constants that are looked up are in the table. */
  lemma RconIndex(level: Level, i: nat)
    requires KeyWords(level) <= i < 4 * (RoundCount(level) + 1)
    ensures 0 < i / KeyWords(level) < |RCON|
    ensures RCON[i / KeyWords(level)] == RoundConstant(i / KeyWords(level))
  {
    hide RoundConstant;
    RconIsRoundConstant(i / KeyWords(level));
  }
}
