/** `QAESEncryption` (QuickDesk/base/qaesencryption.cpp): the object whose methods rewrite the
    state buffer and grow byte arrays, proved against the functions of the other AES modules. */
module AesEncryption {
  import opened AesField
  import opened AesColumn
  import opened AesTables
  import opened AesKeySchedule
  import opened AesPadding
  import opened Options
  import C = AesCipher
  import M = AesModes

  datatype Mode = ECB | CBC | CFB | OFB

  // ---- What encoding and decoding compute ----

  /** The guard shared by `encode` and `decode`. */
  predicate Accepts(level: Level, mode: Mode, key: seq<bv8>, iv: seq<bv8>) {
    |key| == KeyLength(level) && (mode == ECB || |iv| == 16)
  }

  function Schedule(level: Level, key: seq<bv8>): (w: seq<bv8>)
    requires |key| == KeyLength(level)
    ensures |w| == 16 * (RoundCount(level) + 1)
  {
    ScheduleBytes(key, KeyWords(level), 4 * (RoundCount(level) + 1))
  }

  function Encryptor(level: Level, key: seq<bv8>): (e: C.Block -> C.Block)
    requires |key| == KeyLength(level)
  {
    var w := Schedule(level, key);
    (b: C.Block) => C.Cipher(b, w, RoundCount(level))
  }

  function Decryptor(level: Level, key: seq<bv8>): (d: C.Block -> C.Block)
    requires |key| == KeyLength(level)
  {
    var w := Schedule(level, key);
    (b: C.Block) => C.InvCipher(b, w, RoundCount(level))
  }

  /** The result of `encode`: empty when the guard fails. */
  function Encoded(level: Level, mode: Mode, padding: Padding, rawText: seq<bv8>, key: seq<bv8>, iv: seq<bv8>)
    : (r: seq<bv8>)
  {
    if !Accepts(level, mode, key, iv) then []
    else
      var e := Encryptor(level, key);
      var t := Pad(padding, rawText);
      match mode
      case ECB => M.Ecb(e, t)
      case CBC => M.CbcEncrypt(e, iv, t)
      case CFB => M.CfbEncrypt(e, iv, t)
      case OFB => M.Ofb(e, iv, t)
  }

  /** The result of `decode`: empty when the guard fails or the text is not whole blocks. */
  function Decoded(level: Level, mode: Mode, rawText: seq<bv8>, key: seq<bv8>, iv: seq<bv8>): (r: seq<bv8>) {
    if !Accepts(level, mode, key, iv) || |rawText| % 16 != 0 then []
    else
      match mode
      case ECB => M.Ecb(Decryptor(level, key), rawText)
      case CBC => M.CbcDecrypt(Decryptor(level, key), iv, rawText)
      case CFB => M.CfbDecrypt(Encryptor(level, key), iv, rawText)
      case OFB => M.Ofb(Encryptor(level, key), iv, rawText)
  }

  lemma DecryptorUndoesEncryptor(level: Level, key: seq<bv8>)
    requires |key| == KeyLength(level)
    ensures forall b: C.Block :: Decryptor(level, key)(Encryptor(level, key)(b)) == b
  {
    hide C.Cipher, C.InvCipher;
    var w := Schedule(level, key);
    forall b: C.Block
      ensures Decryptor(level, key)(Encryptor(level, key)(b)) == b
    {
      C.InvCipherUndoesCipher(b, w, RoundCount(level));
    }
  }

  /** For every key size, mode, padding, accepted key and vector and text of any length,
      decoding what was encoded gives the text followed by its padding. */
  lemma DecodeEncode(level: Level, mode: Mode, padding: Padding, text: seq<bv8>, key: seq<bv8>, iv: seq<bv8>)
    requires Accepts(level, mode, key, iv)
    ensures Decoded(level, mode, Encoded(level, mode, padding, text, key, iv), key, iv) == Pad(padding, text)
  {
    hide Encryptor, Decryptor, Pad, M.Ecb, M.CbcEncrypt, M.CbcDecrypt, M.CfbEncrypt, M.CfbDecrypt, M.Ofb;
    var e, d := Encryptor(level, key), Decryptor(level, key);
    var t := Pad(padding, text);
    DecryptorUndoesEncryptor(level, key);
    match mode
    case ECB => M.EcbRoundTrip(e, d, t);
    case CBC => M.CbcRoundTrip(e, d, iv, t);
    case CFB => M.CfbRoundTrip(e, iv, t);
    case OFB => M.OfbRoundTrip(e, iv, t);
  }

  /** The whole trip, padding removed: exactly the recoverable texts come back. */
  lemma UnpadDecodeEncode(level: Level, mode: Mode, padding: Padding, text: seq<bv8>, key: seq<bv8>, iv: seq<bv8>)
    requires Accepts(level, mode, key, iv)
    ensures Unpad(padding, Decoded(level, mode, Encoded(level, mode, padding, text, key, iv), key, iv)) == Some(text)
            <==> Recoverable(padding, text)
  {
    hide Decoded, Encoded, Unpad, Pad, Recoverable;
    DecodeEncode(level, mode, padding, text, key, iv);
    UnpadPad(padding, text);
  }

  // ---- What is computed, in terms of the ciphers alone ----

  /** The cipher of a key of 16, 24 or 32 bytes: its length gives the number of rounds. */
  function KeyCipher(key: seq<bv8>, b: C.Block): (r: C.Block)
    requires |key| == 16 || |key| == 24 || |key| == 32
  {
    var nk := |key| / 4;
    C.Cipher(b, ScheduleBytes(key, nk, 4 * (nk + 7)), nk + 6)
  }

  lemma EncryptorIsCipher(level: Level, key: seq<bv8>, b: C.Block)
    requires |key| == KeyLength(level)
    ensures |key| == 16 || |key| == 24 || |key| == 32
    ensures Encryptor(level, key)(b) == KeyCipher(key, b)
  {
    hide C.Cipher, ScheduleBytes;
  }

  /** Anything but a key of the right length, and a vector of 16 bytes where one is used, gives the
      empty result; and so does a text to decode that is not whole blocks. */
  lemma GuardExactly(level: Level, mode: Mode, key: seq<bv8>, iv: seq<bv8>)
    ensures Accepts(level, mode, key, iv) <==>
            && |key| == (match level case Aes128 => 16 case Aes192 => 24 case Aes256 => 32)
            && (mode != ECB ==> |iv| == 16)
    ensures !Accepts(level, mode, key, iv) ==>
              forall padding, text :: Encoded(level, mode, padding, text, key, iv) == [] == Decoded(level, mode, text, key, iv)
    ensures forall text :: |text| % 16 != 0 ==> Decoded(level, mode, text, key, iv) == []
  {
    hide Encryptor, Decryptor, Pad;
  }

  /** Every block of an encoding, by the equations of sections 6.1 to 6.4 of NIST SP 800-38A for the
      padded text: its own cipher; the cipher of its sum with the block before; its sum with the
      cipher of the block before; its sum with the vector enciphered again and again. */
  lemma EncodedBlocks(level: Level, mode: Mode, padding: Padding, text: seq<bv8>, key: seq<bv8>, iv: seq<bv8>, j: nat)
    requires Accepts(level, mode, key, iv) && 16 * j + 16 <= |Pad(padding, text)|
    ensures |key| == 16 || |key| == 24 || |key| == 32
    ensures |Encoded(level, mode, padding, text, key, iv)| == |Pad(padding, text)|
    ensures var c := M.BlockAt(Encoded(level, mode, padding, text, key, iv), j);
            var p := M.BlockAt(Pad(padding, text), j);
            var e := (b: C.Block) => KeyCipher(key, b);
            match mode
            case ECB => c == e(p)
            case CBC => c == e(M.ByteXor(p, M.Previous(iv, Encoded(level, mode, padding, text, key, iv), j)))
            case CFB => c == M.ByteXor(p, e(M.Previous(iv, Encoded(level, mode, padding, text, key, iv), j)))
            case OFB => c == M.ByteXor(p, M.Iterated(e, iv, j + 1))
  {
    hide C.Cipher, Pad, KeyCipher, M.Ecb, M.CbcEncrypt, M.CfbEncrypt, M.Ofb, M.ByteXor, M.Previous, M.BlockAt, M.Iterated, Encryptor;
    var e, t := Encryptor(level, key), Pad(padding, text);
    EncryptorIsCipher(level, key, C.ZERO_BLOCK);
    forall b: C.Block
      ensures e(b) == KeyCipher(key, b)
    {
      EncryptorIsCipher(level, key, b);
    }
    match mode {
      case ECB => M.EcbBlocks(e, t, j);
      case CBC => M.CbcEncryptBlocks(e, iv, t, j);
      case CFB => M.CfbEncryptBlocks(e, iv, t, j);
      case OFB =>
        M.OfbBlocks(e, iv, t, j);
        SameIterates(e, (b: C.Block) => KeyCipher(key, b), iv, j + 1);
    }
  }

  lemma {:induction false} SameIterates(e: C.Block -> C.Block, f: C.Block -> C.Block, iv: C.Block, n: nat)
    requires forall b: C.Block :: e(b) == f(b)
    ensures M.Iterated(e, iv, n) == M.Iterated(f, iv, n)
    decreases n
  {
    if n > 0 {
      SameIterates(e, f, iv, n - 1);
    }
  }

  // ---- Byte array operations of the library ----

  /** `QByteArray::insert` of one byte: positions past the end are reached by filling with spaces. */
  function Insert(s: seq<bv8>, pos: nat, b: bv8): (r: seq<bv8>)
    ensures pos == |s| ==> r == s + [b]
  {
    if pos <= |s| then s[..pos] + [b] + s[pos..]
    else s + Fill(0x20, pos - |s|) + [b]
  }

  /** Four insertions at the end append four bytes, each read from inside the original array. */
  lemma FourInserts(s: seq<bv8>, from: nat, a: Column)
    requires from + 4 <= |s|
    ensures var s1 := Insert(s, |s|, Xor(s[from], a.b0));
            var s2 := Insert(s1, |s| + 1, Xor(s1[from + 1], a.b1));
            var s3 := Insert(s2, |s| + 2, Xor(s2[from + 2], a.b2));
            Insert(s3, |s| + 3, Xor(s3[from + 3], a.b3))
            == s + [Xor(s[from], a.b0), Xor(s[from + 1], a.b1), Xor(s[from + 2], a.b2), Xor(s[from + 3], a.b3)]
  {
    hide Xor;
  }

  /** `QByteArray::mid` */
  function Mid(s: seq<bv8>, pos: nat, n: nat): (r: seq<bv8>) {
    if pos >= |s| then []
    else if pos + n >= |s| then s[pos..]
    else s[pos..pos + n]
  }

  /** `QByteArray::replace` of a range inside the array. */
  function Replace(s: seq<bv8>, pos: nat, n: nat, after: seq<bv8>): (r: seq<bv8>)
    requires pos + n <= |s|
  {
    s[..pos] + after + s[pos + n..]
  }

  /** The prefix of a text grows by the block taken from it. */
  lemma BlockStep(t: seq<bv8>, i: nat)
    requires |t| % 16 == 0 && i % 16 == 0 && i < |t|
    ensures i + 16 <= |t|
    ensures M.Front(t[..i + 16]) == t[..i] && M.Last(t[..i + 16]) == Mid(t, i, 16)
  {
  }

  lemma CbcStart(e: C.Block -> C.Block, iv: C.Block, t: seq<bv8>)
    ensures M.CbcEncrypt(e, iv, t[..0]) == [] && M.Feedback(iv, []) == iv
  {
  }

  /** One more block of chained ciphertext. */
  lemma CbcEncryptStep(e: C.Block -> C.Block, iv: C.Block, t: seq<bv8>, i: nat)
    requires |t| % 16 == 0 && i % 16 == 0 && i < |t|
    ensures i + 16 <= |t| && |Mid(t, i, 16)| == 16
    ensures var p := M.CbcEncrypt(e, iv, t[..i]);
            M.CbcEncrypt(e, iv, t[..i + 16]) == p + e(M.ByteXor(Mid(t, i, 16), M.Feedback(iv, p)))
  {
    hide M.ByteXor, M.Feedback;
    BlockStep(t, i);
  }

  lemma CbcDecryptStart(d: C.Block -> C.Block, iv: C.Block, t: seq<bv8>)
    ensures M.CbcDecrypt(d, iv, t[..0]) == [] && M.Feedback(iv, t[..0]) == iv
  {
  }

  /** One more block of chained plaintext. */
  lemma CbcDecryptStep(d: C.Block -> C.Block, iv: C.Block, t: seq<bv8>, i: nat)
    requires |t| % 16 == 0 && i % 16 == 0 && i < |t|
    ensures i + 16 <= |t| && |Mid(t, i, 16)| == 16
    ensures M.CbcDecrypt(d, iv, t[..i + 16])
            == M.CbcDecrypt(d, iv, t[..i]) + M.ByteXor(d(Mid(t, i, 16)), M.Feedback(iv, t[..i]))
    ensures M.Feedback(iv, t[..i + 16]) == Mid(t, i, 16)
  {
    hide M.ByteXor;
    BlockStep(t, i);
  }

  /** Overwriting the block just appended. */
  lemma ReplaceAppended(p: seq<bv8>, b: C.Block, x: C.Block)
    ensures Mid(p + b, |p|, 16) == b && Replace(p + b, |p|, 16, x) == p + x
  {
  }

  lemma OfbStart(e: C.Block -> C.Block, iv: C.Block)
    ensures M.OfbStream(e, iv, 1) == e(iv)
  {
    assert M.OfbStream(e, iv, 0) == [];
  }

  /** One more block of output stream. */
  lemma OfbStep(e: C.Block -> C.Block, iv: C.Block, n: nat)
    requires n > 0
    ensures var p := M.OfbStream(e, iv, n);
            |p| >= 16 && M.OfbStream(e, iv, n + 1) == p + e(p[|p| - 16..])
  {
  }

  lemma {:induction false} OfbStreamPrefix(e: C.Block -> C.Block, iv: C.Block, m: nat, n: nat)
    requires m <= n
    ensures M.OfbStream(e, iv, m) == M.OfbStream(e, iv, n)[..16 * m]
  {
    if m < n {
      OfbStreamPrefix(e, iv, m, n - 1);
    }
  }

  lemma CfbEncryptStart(e: C.Block -> C.Block, iv: C.Block)
    ensures M.CfbEncrypt(e, iv, []) == []
  {
  }

  lemma CfbDecryptStart(e: C.Block -> C.Block, iv: C.Block)
    ensures M.CfbDecrypt(e, iv, []) == []
  {
  }

  lemma EmptyXor(b: seq<bv8>)
    ensures Mid([], 0, 16) == [] && M.ByteXor([], b) == []
  {
  }

  /** One more block of feedback ciphertext. */
  lemma CfbEncryptStep(e: C.Block -> C.Block, iv: C.Block, t: seq<bv8>, i: nat)
    requires |t| % 16 == 0 && i % 16 == 0 && i < |t|
    ensures i + 16 <= |t| && |Mid(t, i, 16)| == 16
    ensures var p := M.CfbEncrypt(e, iv, t[..i]);
            && M.CfbEncrypt(e, iv, t[..i + 16]) == p + M.ByteXor(Mid(t, i, 16), e(M.Feedback(iv, p)))
            && M.Feedback(iv, p) == if i == 0 then iv else Mid(p, i - 16, 16)
  {
    hide M.ByteXor;
    BlockStep(t, i);
  }

  /** One more block of feedback plaintext. */
  lemma CfbDecryptStep(e: C.Block -> C.Block, iv: C.Block, t: seq<bv8>, i: nat)
    requires |t| % 16 == 0 && i % 16 == 0 && i < |t|
    ensures i + 16 <= |t| && |Mid(t, i, 16)| == 16
    ensures i >= 16 ==> |Mid(t, i - 16, 16)| == 16
    ensures var f := if i == 0 then iv else Mid(t, i - 16, 16);
            M.CfbDecrypt(e, iv, t[..i + 16]) == M.CfbDecrypt(e, iv, t[..i]) + M.ByteXor(Mid(t, i, 16), e(f))
  {
    hide M.ByteXor;
    BlockStep(t, i);
  }

  lemma SameBlock(s: seq<bv8>, t: seq<bv8>, i: nat)
    requires i + 16 <= |s| == |t| && s[i..] == t[i..]
    ensures Mid(s, i, 16) == Mid(t, i, 16) && s[i + 16..] == t[i + 16..]
  {
    assert s[i + 16..] == s[i..][16..];
    assert t[i + 16..] == t[i..][16..];
    assert s[i..i + 16] == s[i..][..16];
    assert t[i..i + 16] == t[i..][..16];
  }

  lemma AppendedBlock(p: seq<bv8>, b: C.Block)
    requires |p| % 16 == 0
    ensures Mid(p + b, |p|, 16) == b && (forall iv: C.Block :: M.Feedback(iv, p + b) == b)
  {
  }

  lemma ReplaceBlock(s: seq<bv8>, i: nat, x: C.Block)
    requires i + 16 <= |s|
    ensures Mid(Replace(s, i, 16, x), i, 16) == x
    ensures |Replace(s, i, 16, x)| == |s| && Replace(s, i, 16, x)[i + 16..] == s[i + 16..]
  {
  }

  /** Two blocks that agree on each of the sixteen bytes are the same. */
  lemma SameBytes(s: C.Block, t: C.Block)
    requires s[0] == t[0] && s[1] == t[1] && s[2] == t[2] && s[3] == t[3]
    requires s[4] == t[4] && s[5] == t[5] && s[6] == t[6] && s[7] == t[7]
    requires s[8] == t[8] && s[9] == t[9] && s[10] == t[10] && s[11] == t[11]
    requires s[12] == t[12] && s[13] == t[13] && s[14] == t[14] && s[15] == t[15]
    ensures s == t
  {
  }

  /** `after` is `before` with the bytes of column `n` replaced by `c`. */
  ghost predicate WithColumn(before: C.Block, after: C.Block, n: nat, c: Column)
    requires n < 4
  {
    && after[4 * n] == c.b0 && after[4 * n + 1] == c.b1 && after[4 * n + 2] == c.b2 && after[4 * n + 3] == c.b3
    && forall j :: 0 <= j < 16 && !(4 * n <= j < 4 * n + 4) ==> after[j] == before[j]
  }

  lemma OneColumn(before: C.Block, after: C.Block, n: nat, c: Column)
    requires n < 4 && WithColumn(before, after, n, c)
    ensures forall k :: 0 <= k < 4 ==> C.ColumnOf(after, k) == if k == n then c else C.ColumnOf(before, k)
  {
  }

  /** The inverse column through the products the source forms. */
  lemma InvMixByMultiply(c: Column)
    ensures InvMix(c).b0 == Xor4(Multiply(c.b0, 0x0e), Multiply(c.b1, 0x0b), Multiply(c.b2, 0x0d), Multiply(c.b3, 0x09))
    ensures InvMix(c).b1 == Xor4(Multiply(c.b0, 0x09), Multiply(c.b1, 0x0e), Multiply(c.b2, 0x0b), Multiply(c.b3, 0x0d))
    ensures InvMix(c).b2 == Xor4(Multiply(c.b0, 0x0d), Multiply(c.b1, 0x09), Multiply(c.b2, 0x0e), Multiply(c.b3, 0x0b))
    ensures InvMix(c).b3 == Xor4(Multiply(c.b0, 0x0b), Multiply(c.b1, 0x0d), Multiply(c.b2, 0x09), Multiply(c.b3, 0x0e))
  {
    hide Xor4, Multiply, By09, By0b, By0d, By0e;
    MultiplySelects(c.b0);
    MultiplySelects(c.b1);
    MultiplySelects(c.b2);
    MultiplySelects(c.b3);
  }

  // ---- The object ----

  class QAesEncryption {
    const level: Level
    const mode: Mode
    const padding: Padding
    var state: array<bv8>

    constructor (level: Level, mode: Mode, padding: Padding)
      ensures this.level == level && this.mode == mode && this.padding == padding
    {
      this.level, this.mode, this.padding := level, mode, padding;
      state := new bv8[0];
    }

    /** The part of the `expandKey` loop that works on the four temporary bytes. */
    method TransformTemporary(t0: bv8, t1: bv8, t2: bv8, t3: bv8, i: nat) returns (a0: bv8, a1: bv8, a2: bv8, a3: bv8)
      requires KeyWords(level) <= i < 4 * (RoundCount(level) + 1)
      ensures Column(a0, a1, a2, a3) == Transformed(Column(t0, t1, t2, t3), KeyWords(level), i)
    {
      hide SBox, Xor, RoundConstant;
      var nk := KeyWords(level);
      a0, a1, a2, a3 := t0, t1, t2, t3;
      if i % nk == 0 {
        var k := a0;
        a0, a1, a2, a3 := a1, a2, a3, k;
        a0 := SBox(a0);
        a1 := SBox(a1);
        a2 := SBox(a2);
        a3 := SBox(a3);
        RconIndex(level, i);
        a0 := Xor(a0, RCON[i / nk]);
        XorZero(a1);
        XorZero(a2);
        XorZero(a3);
      }
      if level == Aes256 && i % nk == 4 {
        a0 := SBox(a0);
        a1 := SBox(a1);
        a2 := SBox(a2);
        a3 := SBox(a3);
      }
    }

    /** `expandKey`: the byte-appending loop computes the word recurrence. */
    method ExpandKey(key: seq<bv8>) returns (roundKey: seq<bv8>)
      requires |key| == KeyLength(level)
      ensures roundKey == Schedule(level, key)
    {
      hide ScheduleBytes, Xor, Insert, Transformed;
      var nk, nr := KeyWords(level), RoundCount(level);
      roundKey := key;
      ScheduleStartsWithKey(key, nk);
      var i := nk;
      while i < 4 * (nr + 1)
        invariant nk <= i <= 4 * (nr + 1)
        invariant roundKey == ScheduleBytes(key, nk, i)
      {
        var a0 := roundKey[(i - 1) * 4 + 0];
        var a1 := roundKey[(i - 1) * 4 + 1];
        var a2 := roundKey[(i - 1) * 4 + 2];
        var a3 := roundKey[(i - 1) * 4 + 3];
        a0, a1, a2, a3 := TransformTemporary(a0, a1, a2, a3, i);
        ScheduleStep(key, nk, i);
        FourInserts(roundKey, (i - nk) * 4, Column(a0, a1, a2, a3));
        roundKey := Insert(roundKey, i * 4 + 0, Xor(roundKey[(i - nk) * 4 + 0], a0));
        roundKey := Insert(roundKey, i * 4 + 1, Xor(roundKey[(i - nk) * 4 + 1], a1));
        roundKey := Insert(roundKey, i * 4 + 2, Xor(roundKey[(i - nk) * 4 + 2], a2));
        roundKey := Insert(roundKey, i * 4 + 3, Xor(roundKey[(i - nk) * 4 + 3], a3));
        i := i + 1;
      }
    }

    // ---- Round steps, in place ----

    method AddRoundKey(round: nat, w: seq<bv8>)
      requires state.Length == 16 && C.HasRoundKey(w, round)
      modifies state
      ensures state[..] == C.AddRoundKey(old(state[..]), w, round)
    {
      hide Xor;
      for i := 0 to 16
        invariant forall j :: 0 <= j < i ==> state[j] == Xor(old(state[j]), w[16 * round + j])
        invariant forall j :: i <= j < 16 ==> state[j] == old(state[j])
      {
        assert round * 4 * 4 + (i / 4) * 4 + i % 4 == 16 * round + i;
        state[i] := Xor(state[i], w[round * 4 * 4 + (i / 4) * 4 + i % 4]);
      }
    }

    method SubBytes()
      requires state.Length == 16
      modifies state
      ensures state[..] == C.SubBytes(old(state[..]))
    {
      hide SBox;
      for i := 0 to 16
        invariant forall j :: 0 <= j < i ==> state[j] == SBox(old(state[j]))
        invariant forall j :: i <= j < 16 ==> state[j] == old(state[j])
      {
        state[i] := SBox(state[i]);
      }
    }

    method InvSubBytes()
      requires state.Length == 16
      modifies state
      ensures state[..] == C.InvSubBytes(old(state[..]))
    {
      hide InvSBox;
      for i := 0 to 16
        invariant forall j :: 0 <= j < i ==> state[j] == InvSBox(old(state[j]))
        invariant forall j :: i <= j < 16 ==> state[j] == old(state[j])
      {
        state[i] := InvSBox(state[i]);
      }
    }

    /** "Shift 1 to left" of `shiftRows`: a cycle through one temporary. */
    method ShiftRow1Left()
      requires state.Length == 16
      modifies state
      ensures state[1] == old(state[5]) && state[5] == old(state[9]) && state[9] == old(state[13]) && state[13] == old(state[1])
      ensures forall j :: 0 <= j < 16 && j % 4 != 1 ==> state[j] == old(state[j])
    {
      var temp := state[1];
      state[1] := state[5];
      state[5] := state[9];
      state[9] := state[13];
      state[13] := temp;
    }

    /** "Shift 2 to left": two swaps. */
    method ShiftRow2Left()
      requires state.Length == 16
      modifies state
      ensures state[2] == old(state[10]) && state[10] == old(state[2]) && state[6] == old(state[14]) && state[14] == old(state[6])
      ensures forall j :: 0 <= j < 16 && j % 4 != 2 ==> state[j] == old(state[j])
    {
      var temp := state[2];
      state[2] := state[10];
      state[10] := temp;
      temp := state[6];
      state[6] := state[14];
      state[14] := temp;
    }

    /** "Shift 3 to left". */
    method ShiftRow3Left()
      requires state.Length == 16
      modifies state
      ensures state[3] == old(state[15]) && state[15] == old(state[11]) && state[11] == old(state[7]) && state[7] == old(state[3])
      ensures forall j :: 0 <= j < 16 && j % 4 != 3 ==> state[j] == old(state[j])
    {
      var temp := state[3];
      state[3] := state[15];
      state[15] := state[11];
      state[11] := state[7];
      state[7] := temp;
    }

    method ShiftRows()
      requires state.Length == 16
      modifies state
      ensures state[..] == C.ShiftRows(old(state[..]))
    {
      hide C.ShiftRows;
      ShiftRow1Left();
      ShiftRow2Left();
      ShiftRow3Left();
      C.ShiftRowsBytes(old(state[..]));
      SameBytes(state[..], C.ShiftRows(old(state[..])));
    }

    /** "Shift 1 to right" of `invShiftRows`. */
    method ShiftRow1Right()
      requires state.Length == 16
      modifies state
      ensures state[13] == old(state[9]) && state[9] == old(state[5]) && state[5] == old(state[1]) && state[1] == old(state[13])
      ensures forall j :: 0 <= j < 16 && j % 4 != 1 ==> state[j] == old(state[j])
    {
      var temp := state[13];
      state[13] := state[9];
      state[9] := state[5];
      state[5] := state[1];
      state[1] := temp;
    }

    /** "Shift 2" of `invShiftRows`. */
    method ShiftRow2Right()
      requires state.Length == 16
      modifies state
      ensures state[10] == old(state[2]) && state[2] == old(state[10]) && state[14] == old(state[6]) && state[6] == old(state[14])
      ensures forall j :: 0 <= j < 16 && j % 4 != 2 ==> state[j] == old(state[j])
    {
      var temp := state[10];
      state[10] := state[2];
      state[2] := temp;
      temp := state[14];
      state[14] := state[6];
      state[6] := temp;
    }

    /** "Shift 3" of `invShiftRows`. */
    method ShiftRow3Right()
      requires state.Length == 16
      modifies state
      ensures state[7] == old(state[11]) && state[11] == old(state[15]) && state[15] == old(state[3]) && state[3] == old(state[7])
      ensures forall j :: 0 <= j < 16 && j % 4 != 3 ==> state[j] == old(state[j])
    {
      var temp := state[7];
      state[7] := state[11];
      state[11] := state[15];
      state[15] := state[3];
      state[3] := temp;
    }

    method InvShiftRows()
      requires state.Length == 16
      modifies state
      ensures state[..] == C.InvShiftRows(old(state[..]))
    {
      hide C.InvShiftRows;
      ShiftRow1Right();
      ShiftRow2Right();
      ShiftRow3Right();
      C.InvShiftRowsBytes(old(state[..]));
      SameBytes(state[..], C.InvShiftRows(old(state[..])));
    }

    /** The body of the `mixColumns` loop: the column starting at `i`, with its sum shared
        by its four bytes. */
    method MixColumnAt(i: nat)
      requires state.Length == 16 && i < 16 && i % 4 == 0
      modifies state
      ensures WithColumn(old(state[..]), state[..], i / 4, Mix(C.ColumnOf(old(state[..]), i / 4)))
    {
      hide Xor, XTime, Mix;
      ghost var c := C.ColumnOf(state[..], i / 4);
      var t := state[i];
      var tmp := Xor(Xor(Xor(state[i], state[i + 1]), state[i + 2]), state[i + 3]);
      assert c == Column(state[i], state[i + 1], state[i + 2], state[i + 3]);

      var tm := XTime(Xor(state[i], state[i + 1]));
      state[i] := Xor(Xor(state[i], tm), tmp);

      tm := XTime(Xor(state[i + 1], state[i + 2]));
      state[i + 1] := Xor(Xor(state[i + 1], tm), tmp);

      tm := XTime(Xor(state[i + 2], state[i + 3]));
      state[i + 2] := Xor(Xor(state[i + 2], tm), tmp);

      tm := XTime(Xor(state[i + 3], t));
      state[i + 3] := Xor(Xor(state[i + 3], tm), tmp);
      SharedMix(c, tmp);
    }

    method MixColumns()
      requires state.Length == 16
      modifies state
      ensures state[..] == C.MixColumns(old(state[..]))
    {
      hide Mix, C.ColumnOf, WithColumn;
      var i := 0;
      while i < 16
        invariant 0 <= i <= 16 && i % 4 == 0
        invariant forall k :: 0 <= k < i / 4 ==> C.ColumnOf(state[..], k) == Mix(C.ColumnOf(old(state[..]), k))
        invariant forall k :: i / 4 <= k < 4 ==> C.ColumnOf(state[..], k) == C.ColumnOf(old(state[..]), k)
      {
        ghost var before := state[..];
        MixColumnAt(i);
        OneColumn(before, state[..], i / 4, Mix(C.ColumnOf(before, i / 4)));
        i := i + 4;
      }
      C.ColumnsRebuild(state[..]);
    }

    /** The body of the `invMixColumns` loop. */
    method InvMixColumnAt(i: nat)
      requires state.Length == 16 && i < 16 && i % 4 == 0
      modifies state
      ensures WithColumn(old(state[..]), state[..], i / 4, InvMix(C.ColumnOf(old(state[..]), i / 4)))
    {
      hide Xor4, Multiply, InvMix;
      var a, b, c, d := state[i], state[i + 1], state[i + 2], state[i + 3];
      state[i] := Xor4(Multiply(a, 0x0e), Multiply(b, 0x0b), Multiply(c, 0x0d), Multiply(d, 0x09));
      state[i + 1] := Xor4(Multiply(a, 0x09), Multiply(b, 0x0e), Multiply(c, 0x0b), Multiply(d, 0x0d));
      state[i + 2] := Xor4(Multiply(a, 0x0d), Multiply(b, 0x09), Multiply(c, 0x0e), Multiply(d, 0x0b));
      state[i + 3] := Xor4(Multiply(a, 0x0b), Multiply(b, 0x0d), Multiply(c, 0x09), Multiply(d, 0x0e));
      InvMixByMultiply(Column(a, b, c, d));
    }

    method InvMixColumns()
      requires state.Length == 16
      modifies state
      ensures state[..] == C.InvMixColumns(old(state[..]))
    {
      hide InvMix, C.ColumnOf, WithColumn;
      var i := 0;
      while i < 16
        invariant 0 <= i <= 16 && i % 4 == 0
        invariant forall k :: 0 <= k < i / 4 ==> C.ColumnOf(state[..], k) == InvMix(C.ColumnOf(old(state[..]), k))
        invariant forall k :: i / 4 <= k < 4 ==> C.ColumnOf(state[..], k) == C.ColumnOf(old(state[..]), k)
      {
        ghost var before := state[..];
        InvMixColumnAt(i);
        OneColumn(before, state[..], i / 4, InvMix(C.ColumnOf(before, i / 4)));
        i := i + 4;
      }
      C.ColumnsRebuild(state[..]);
    }

    // ---- The ciphers: a fresh buffer holds the state ----

    method Cipher(expKey: seq<bv8>, input: seq<bv8>) returns (output: seq<bv8>)
      requires |input| == 16 && C.HasRoundKey(expKey, RoundCount(level))
      modifies this
      ensures output == C.Cipher(input, expKey, RoundCount(level))
    {
      hide C.AddRoundKey, C.SubBytes, C.ShiftRows, C.MixColumns;
      var nr := RoundCount(level);
      state := new bv8[16](i requires 0 <= i < 16 => input[i]);
      assert state[..] == input;
      AddRoundKey(0, expKey);
      var round := 1;
      while round < nr
        invariant 1 <= round <= nr
        invariant fresh(state) && state.Length == 16
        invariant state[..] == C.Rounds(input, expKey, round - 1)
      {
        SubBytes();
        ShiftRows();
        MixColumns();
        AddRoundKey(round, expKey);
        round := round + 1;
      }
      SubBytes();
      ShiftRows();
      AddRoundKey(nr, expKey);
      output := state[..];
    }

    method InvCipher(expKey: seq<bv8>, input: seq<bv8>) returns (output: seq<bv8>)
      requires |input| == 16 && C.HasRoundKey(expKey, RoundCount(level))
      modifies this
      ensures output == C.InvCipher(input, expKey, RoundCount(level))
    {
      hide C.AddRoundKey, C.InvSubBytes, C.InvShiftRows, C.InvMixColumns;
      var nr := RoundCount(level);
      state := new bv8[16](i requires 0 <= i < 16 => input[i]);
      assert state[..] == input;
      AddRoundKey(nr, expKey);
      ghost var start := state[..];
      var round := nr - 1;
      while round > 0
        invariant 0 <= round < nr
        invariant fresh(state) && state.Length == 16
        invariant C.InvRounds(state[..], expKey, round) == C.InvRounds(start, expKey, nr - 1)
      {
        InvShiftRows();
        InvSubBytes();
        AddRoundKey(round, expKey);
        InvMixColumns();
        round := round - 1;
      }
      InvShiftRows();
      InvSubBytes();
      AddRoundKey(0, expKey);
      output := state[..];
    }

    // ---- The loops over blocks ----

    method ByteXor(a: seq<bv8>, b: seq<bv8>) returns (ret: seq<bv8>)
      ensures ret == M.ByteXor(a, b)
    {
      hide Xor;
      ret := [];
      var n := if |a| <= |b| then |a| else |b|;
      for i := 0 to n
        invariant ret == M.ByteXor(a, b)[..i]
      {
        ret := Insert(ret, i, Xor(a[i], b[i]));
      }
    }

    method EncodeEcb(w: seq<bv8>, t: seq<bv8>, ghost e: C.Block -> C.Block) returns (ret: seq<bv8>)
      requires C.HasRoundKey(w, RoundCount(level)) && |t| % 16 == 0
      requires forall b: C.Block :: e(b) == C.Cipher(b, w, RoundCount(level))
      modifies this
      ensures ret == M.Ecb(e, t)
    {
      hide C.Cipher;
      ret := [];
      var i := 0;
      while i < |t|
        invariant 0 <= i <= |t| && i % 16 == 0
        invariant ret == M.Ecb(e, t[..i])
      {
        var c := Cipher(w, Mid(t, i, 16));
        BlockStep(t, i);
        ret := ret + c;
        i := i + 16;
      }
      assert t[..i] == t;
    }

    method DecodeEcb(w: seq<bv8>, t: seq<bv8>, ghost d: C.Block -> C.Block) returns (ret: seq<bv8>)
      requires C.HasRoundKey(w, RoundCount(level)) && |t| % 16 == 0
      requires forall b: C.Block :: d(b) == C.InvCipher(b, w, RoundCount(level))
      modifies this
      ensures ret == M.Ecb(d, t)
    {
      hide C.InvCipher;
      ret := [];
      var i := 0;
      while i < |t|
        invariant 0 <= i <= |t| && i % 16 == 0
        invariant ret == M.Ecb(d, t[..i])
      {
        var p := InvCipher(w, Mid(t, i, 16));
        BlockStep(t, i);
        ret := ret + p;
        i := i + 16;
      }
      assert t[..i] == t;
    }

    /** The text is overwritten block by block with what goes into the cipher. */
    method EncodeCbc(w: seq<bv8>, t: seq<bv8>, iv: seq<bv8>, ghost e: C.Block -> C.Block) returns (ret: seq<bv8>)
      requires C.HasRoundKey(w, RoundCount(level)) && |t| % 16 == 0 && |iv| == 16
      requires forall b: C.Block :: e(b) == C.Cipher(b, w, RoundCount(level))
      modifies this
      ensures ret == M.CbcEncrypt(e, iv, t)
    {
      hide C.Cipher, M.ByteXor, M.CbcEncrypt, M.Feedback, Mid, Replace;
      var alignedText := t;
      var ivTemp := iv;
      ret := [];
      assert M.CbcEncrypt(e, iv, t[..0]) == [] && M.Feedback(iv, []) == iv by { CbcStart(e, iv, t); }
      var i := 0;
      while i < |alignedText|
        invariant 0 <= i <= |t| == |alignedText| && i % 16 == 0
        invariant alignedText[i..] == t[i..]
        invariant ret == M.CbcEncrypt(e, iv, t[..i])
        invariant ivTemp == M.Feedback(iv, ret)
      {
        CbcEncryptStep(e, iv, t, i);
        SameBlock(alignedText, t, i);
        var x := ByteXor(Mid(alignedText, i, 16), ivTemp);
        ReplaceBlock(alignedText, i, x);
        alignedText := Replace(alignedText, i, 16, x);
        var c := Cipher(w, Mid(alignedText, i, 16));
        AppendedBlock(ret, c);
        ret := ret + c;
        ivTemp := Mid(ret, i, 16);
        i := i + 16;
      }
      assert t[..i] == t;
    }

    /** The result is extended with the deciphered block, which is then overwritten. */
    method DecodeCbc(w: seq<bv8>, t: seq<bv8>, iv: seq<bv8>, ghost d: C.Block -> C.Block) returns (ret: seq<bv8>)
      requires C.HasRoundKey(w, RoundCount(level)) && |t| % 16 == 0 && |iv| == 16
      requires forall b: C.Block :: d(b) == C.InvCipher(b, w, RoundCount(level))
      modifies this
      ensures ret == M.CbcDecrypt(d, iv, t)
    {
      hide C.InvCipher, M.ByteXor, M.CbcDecrypt, M.Feedback, Mid, Replace;
      var ivTemp := iv;
      ret := [];
      CbcDecryptStart(d, iv, t);
      var i := 0;
      while i < |t|
        invariant 0 <= i <= |t| && i % 16 == 0
        invariant ret == M.CbcDecrypt(d, iv, t[..i])
        invariant ivTemp == M.Feedback(iv, t[..i])
      {
        CbcDecryptStep(d, iv, t, i);
        var p := InvCipher(w, Mid(t, i, 16));
        ghost var before := ret;
        ret := ret + p;
        ReplaceAppended(before, p, p);
        var x := ByteXor(Mid(ret, i, 16), ivTemp);
        ReplaceAppended(before, p, x);
        ret := Replace(ret, i, 16, x);
        ivTemp := Mid(t, i, 16);
        i := i + 16;
      }
      assert t[..i] == t;
    }

    /** Each pass appends the block after the one it stands at. */
    method EncodeCfb(w: seq<bv8>, t: seq<bv8>, iv: seq<bv8>, ghost e: C.Block -> C.Block) returns (ret: seq<bv8>)
      requires C.HasRoundKey(w, RoundCount(level)) && |t| % 16 == 0 && |iv| == 16
      requires forall b: C.Block :: e(b) == C.Cipher(b, w, RoundCount(level))
      modifies this
      ensures ret == M.CfbEncrypt(e, iv, t)
    {
      hide C.Cipher, M.ByteXor, M.CfbEncrypt, M.Feedback, Mid;
      var c := Cipher(w, iv);
      assert t[..0] == [] && M.CfbEncrypt(e, iv, []) == [] by { CfbEncryptStart(e, iv); }
      var x := ByteXor(Mid(t, 0, 16), c);
      ret := x;
      if t == [] {
        EmptyXor(c);
      } else {
        CfbEncryptStep(e, iv, t, 0);
      }
      var i := 0;
      while i < |t|
        invariant 0 <= i <= |t| && i % 16 == 0
        invariant ret == M.CfbEncrypt(e, iv, if i < |t| then t[..i + 16] else t)
      {
        if i + 16 < |t| {
          CfbEncryptStep(e, iv, t, i + 16);
          c := Cipher(w, Mid(ret, i, 16));
          x := ByteXor(Mid(t, i + 16, 16), c);
          ret := ret + x;
        } else {
          assert t[..i + 16] == t;
        }
        i := i + 16;
      }
    }

    method DecodeCfb(w: seq<bv8>, t: seq<bv8>, iv: seq<bv8>, ghost e: C.Block -> C.Block) returns (ret: seq<bv8>)
      requires C.HasRoundKey(w, RoundCount(level)) && |t| % 16 == 0 && |iv| == 16
      requires forall b: C.Block :: e(b) == C.Cipher(b, w, RoundCount(level))
      modifies this
      ensures ret == M.CfbDecrypt(e, iv, t)
    {
      hide C.Cipher, M.ByteXor, M.CfbDecrypt, M.Feedback, Mid;
      var c := Cipher(w, iv);
      assert t[..0] == [] && M.CfbDecrypt(e, iv, []) == [] by { CfbDecryptStart(e, iv); }
      var x := ByteXor(Mid(t, 0, 16), c);
      ret := x;
      if t == [] {
        EmptyXor(c);
      } else {
        CfbDecryptStep(e, iv, t, 0);
      }
      var i := 0;
      while i < |t|
        invariant 0 <= i <= |t| && i % 16 == 0
        invariant ret == M.CfbDecrypt(e, iv, if i < |t| then t[..i + 16] else t)
      {
        if i + 16 < |t| {
          CfbDecryptStep(e, iv, t, i + 16);
          c := Cipher(w, Mid(t, i, 16));
          x := ByteXor(Mid(t, i + 16, 16), c);
          ret := ret + x;
        } else {
          assert t[..i + 16] == t;
        }
        i := i + 16;
      }
    }

    /** Encoding and decoding are the same loop. */
    method CodeOfb(w: seq<bv8>, t: seq<bv8>, iv: seq<bv8>, ghost e: C.Block -> C.Block) returns (ret: seq<bv8>)
      requires C.HasRoundKey(w, RoundCount(level)) && |t| % 16 == 0 && |iv| == 16
      requires forall b: C.Block :: e(b) == C.Cipher(b, w, RoundCount(level))
      modifies this
      ensures ret == M.Ofb(e, iv, t)
    {
      hide C.Cipher, M.ByteXor, M.OfbStream, M.Feedback;
      var ofbTemp := Cipher(w, iv);
      OfbStart(e, iv);
      ghost var n: nat := 1;
      var i := 16;
      while i < |t|
        invariant i == 16 * n && 16 <= i && (i <= |t| || i == 16)
        invariant ofbTemp == M.OfbStream(e, iv, n)
      {
        OfbStep(e, iv, n);
        var c := Cipher(w, ofbTemp[|ofbTemp| - 16..]);
        ofbTemp := ofbTemp + c;
        i := i + 16;
        n := n + 1;
      }
      ret := ByteXor(t, ofbTemp);
      OfbStreamPrefix(e, iv, |t| / 16, n);
      M.ByteXorPrefix(t, ofbTemp, M.OfbStream(e, iv, |t| / 16));
    }

    method Encode(rawText: seq<bv8>, key: seq<bv8>, iv: seq<bv8>) returns (r: seq<bv8>)
      modifies this
      ensures r == Encoded(level, mode, padding, rawText, key, iv)
    {
      hide C.Cipher, Schedule, Pad;
      if (mode != ECB && (iv == [] || |iv| != 16)) || |key| != KeyLength(level) {
        return [];
      }
      var w := ExpandKey(key);
      var t := Pad(padding, rawText);
      ghost var e := Encryptor(level, key);
      match mode {
        case ECB => r := EncodeEcb(w, t, e);
        case CBC => r := EncodeCbc(w, t, iv, e);
        case CFB => r := EncodeCfb(w, t, iv, e);
        case OFB => r := CodeOfb(w, t, iv, e);
      }
    }

    method Decode(rawText: seq<bv8>, key: seq<bv8>, iv: seq<bv8>) returns (r: seq<bv8>)
      modifies this
      ensures r == Decoded(level, mode, rawText, key, iv)
    {
      hide C.Cipher, C.InvCipher, Schedule;
      if (mode != ECB && (iv == [] || |iv| != 16)) || |key| != KeyLength(level) || |rawText| % 16 != 0 {
        return [];
      }
      var w := ExpandKey(key);
      ghost var e, d := Encryptor(level, key), Decryptor(level, key);
      match mode {
        case ECB => r := DecodeEcb(w, rawText, d);
        case CBC => r := DecodeCbc(w, rawText, iv, d);
        case CFB => r := DecodeCfb(w, rawText, iv, e);
        case OFB => r := CodeOfb(w, rawText, iv, e);
      }
    }
  }
}
