/** The modes of operation of sections 6.1 to 6.4 of NIST SP 800-38A over any block
    permutation. Each text function peels off the last block, so that block j is given in
    terms of the blocks before it, as the standard writes it. */
module AesModes {
  import opened AesField
  import opened AesCipher

  predicate Aligned(t: seq<bv8>) {
    |t| % 16 == 0
  }

  /** `byteXor`: byte by byte, as far as both go. */
  function ByteXor(a: seq<bv8>, b: seq<bv8>): (r: seq<bv8>)
    ensures |r| == if |a| <= |b| then |a| else |b|
  {
    seq(if |a| <= |b| then |a| else |b|, i requires 0 <= i < |a| && i < |b| => Xor(a[i], b[i]))
  }

  /** All blocks but the last. */
  function Front(t: seq<bv8>): (r: seq<bv8>)
    requires Aligned(t) && t != []
    ensures Aligned(r) && |r| == |t| - 16
  {
    t[..|t| - 16]
  }

  function Last(t: seq<bv8>): (r: Block)
    requires |t| >= 16
  {
    t[|t| - 16..]
  }

  /** The block that precedes the next one: the last one so far, or the initialisation vector. */
  function Feedback(iv: Block, t: seq<bv8>): (r: Block) {
    if |t| < 16 then iv else Last(t)
  }

  function Ecb(f: Block -> Block, t: seq<bv8>): (r: seq<bv8>)
    requires Aligned(t)
    ensures |r| == |t|
    decreases |t|
  {
    if t == [] then [] else Ecb(f, Front(t)) + f(Last(t))
  }

  function CbcEncrypt(e: Block -> Block, iv: Block, t: seq<bv8>): (r: seq<bv8>)
    requires Aligned(t)
    ensures |r| == |t|
    decreases |t|
  {
    if t == [] then []
    else
      var p := CbcEncrypt(e, iv, Front(t));
      p + e(ByteXor(Last(t), Feedback(iv, p)))
  }

  function CbcDecrypt(d: Block -> Block, iv: Block, c: seq<bv8>): (r: seq<bv8>)
    requires Aligned(c)
    ensures |r| == |c|
    decreases |c|
  {
    if c == [] then []
    else CbcDecrypt(d, iv, Front(c)) + ByteXor(d(Last(c)), Feedback(iv, Front(c)))
  }

  function CfbEncrypt(e: Block -> Block, iv: Block, t: seq<bv8>): (r: seq<bv8>)
    requires Aligned(t)
    ensures |r| == |t|
    decreases |t|
  {
    if t == [] then []
    else
      var p := CfbEncrypt(e, iv, Front(t));
      p + ByteXor(Last(t), e(Feedback(iv, p)))
  }

  function CfbDecrypt(e: Block -> Block, iv: Block, c: seq<bv8>): (r: seq<bv8>)
    requires Aligned(c)
    ensures |r| == |c|
    decreases |c|
  {
    if c == [] then []
    else CfbDecrypt(e, iv, Front(c)) + ByteXor(Last(c), e(Feedback(iv, Front(c))))
  }

  /** The first `n` output blocks: each is the encryption of the one before. */
  function OfbStream(e: Block -> Block, iv: Block, n: nat): (r: seq<bv8>)
    ensures |r| == 16 * n
  {
    if n == 0 then []
    else
      var p := OfbStream(e, iv, n - 1);
      p + e(Feedback(iv, p))
  }

  function Ofb(e: Block -> Block, iv: Block, t: seq<bv8>): (r: seq<bv8>)
    requires Aligned(t)
    ensures |r| == |t|
  {
    ByteXor(t, OfbStream(e, iv, |t| / 16))
  }

  // ---- Round trips ----

  lemma ByteXorCancels(a: seq<bv8>, b: seq<bv8>)
    requires |a| <= |b|
    ensures ByteXor(ByteXor(a, b), b) == a
  {
    hide Xor;
    forall i | 0 <= i < |a|
      ensures ByteXor(ByteXor(a, b), b)[i] == a[i]
    {
      XorCancels(a[i], b[i]);
    }
  }

  /** Only as much of the second text matters as the first one covers. */
  lemma ByteXorPrefix(a: seq<bv8>, b: seq<bv8>, c: seq<bv8>)
    requires |a| <= |c| <= |b| && c == b[..|c|]
    ensures ByteXor(a, b) == ByteXor(a, c)
  {
    hide Xor;
  }

  lemma Snoc(p: seq<bv8>, b: Block)
    requires Aligned(p)
    ensures Aligned(p + b) && Front(p + b) == p && Last(p + b) == b
  {
  }

  lemma {:induction false} EcbRoundTrip(e: Block -> Block, d: Block -> Block, t: seq<bv8>)
    requires forall b: Block :: d(e(b)) == b
    requires Aligned(t)
    ensures Ecb(d, Ecb(e, t)) == t
    decreases |t|
  {
    if t != [] {
      EcbRoundTrip(e, d, Front(t));
      Snoc(Ecb(e, Front(t)), e(Last(t)));
      assert t == Front(t) + Last(t);
    }
  }

  lemma {:induction false} CbcRoundTrip(e: Block -> Block, d: Block -> Block, iv: Block, t: seq<bv8>)
    requires forall b: Block :: d(e(b)) == b
    requires Aligned(t)
    ensures CbcDecrypt(d, iv, CbcEncrypt(e, iv, t)) == t
    decreases |t|
  {
    hide ByteXor, Xor;
    if t != [] {
      assert t == Front(t) + Last(t);
      hide Front, Last, Feedback;
      var p := CbcEncrypt(e, iv, Front(t));
      var x := ByteXor(Last(t), Feedback(iv, p));
      var y := e(x);
      CbcRoundTrip(e, d, iv, Front(t));
      Snoc(p, y);
      ByteXorCancels(Last(t), Feedback(iv, p));
      assert CbcEncrypt(e, iv, t) == p + y;
      assert CbcDecrypt(d, iv, p + y) == CbcDecrypt(d, iv, p) + ByteXor(d(y), Feedback(iv, p));
      assert d(y) == x;
    }
  }

  lemma {:induction false} CfbRoundTrip(e: Block -> Block, iv: Block, t: seq<bv8>)
    requires Aligned(t)
    ensures CfbDecrypt(e, iv, CfbEncrypt(e, iv, t)) == t
    decreases |t|
  {
    hide ByteXor, Xor;
    if t != [] {
      assert t == Front(t) + Last(t);
      hide Front, Last, Feedback;
      var p := CfbEncrypt(e, iv, Front(t));
      CfbRoundTrip(e, iv, Front(t));
      Snoc(p, ByteXor(Last(t), e(Feedback(iv, p))));
      ByteXorCancels(Last(t), e(Feedback(iv, p)));
    }
  }

  lemma OfbRoundTrip(e: Block -> Block, iv: Block, t: seq<bv8>)
    requires Aligned(t)
    ensures Ofb(e, iv, Ofb(e, iv, t)) == t
  {
    ByteXorCancels(t, OfbStream(e, iv, |t| / 16));
  }

  // ---- The equations of the standard, block by block ----

  /** Block `j` of a text. */
  function BlockAt(t: seq<bv8>, j: nat): (b: Block)
    requires 16 * j + 16 <= |t|
  {
    t[16 * j..16 * j + 16]
  }

  /** The block before block `j`. */
  function Previous(iv: Block, t: seq<bv8>, j: nat): (b: Block)
    requires 16 * j <= |t|
  {
    if j == 0 then iv else BlockAt(t, j - 1)
  }

  lemma ByteXorBytes(a: seq<bv8>, b: seq<bv8>, i: nat)
    requires i < |a| && i < |b|
    ensures i < |ByteXor(a, b)| && ByteXor(a, b)[i] == Xor(a[i], b[i])
  {
    hide Xor;
  }

  /** A block other than the last is a block of the text without the last one. */
  lemma BlockOfFront(t: seq<bv8>, j: nat)
    requires Aligned(t) && 16 * j + 16 <= |t|
    ensures 16 * j + 16 < |t| ==> 16 * j + 16 <= |Front(t)| && BlockAt(t, j) == BlockAt(Front(t), j)
    ensures 16 * j + 16 == |t| ==> BlockAt(t, j) == Last(t)
  {
  }

  lemma BlockOfAppended(p: seq<bv8>, b: Block, j: nat)
    requires Aligned(p) && 16 * j <= |p|
    ensures 16 * j < |p| ==> 16 * j + 16 <= |p| && BlockAt(p + b, j) == BlockAt(p, j)
    ensures 16 * j == |p| ==> BlockAt(p + b, j) == b
    ensures forall iv: Block :: 16 * j == |p| ==> Feedback(iv, p) == Previous(iv, p + b, j)
    ensures forall iv: Block :: 16 * j < |p| ==> Previous(iv, p, j) == Previous(iv, p + b, j)
  {
  }

  /** Section 6.1 of NIST SP 800-38A: each block on its own. */
  lemma {:induction false} EcbBlocks(f: Block -> Block, t: seq<bv8>, j: nat)
    requires Aligned(t) && 16 * j + 16 <= |t|
    ensures BlockAt(Ecb(f, t), j) == f(BlockAt(t, j))
    decreases |t|
  {
    hide BlockAt, Last, Front;
    BlockOfFront(t, j);
    BlockOfAppended(Ecb(f, Front(t)), f(Last(t)), j);
    if 16 * j + 16 < |t| {
      EcbBlocks(f, Front(t), j);
    }
  }

  /** Section 6.2: each block is added to the ciphertext block before it, and enciphered. */
  lemma {:induction false} CbcEncryptBlocks(e: Block -> Block, iv: Block, t: seq<bv8>, j: nat)
    requires Aligned(t) && 16 * j + 16 <= |t|
    ensures var c := CbcEncrypt(e, iv, t);
            BlockAt(c, j) == e(ByteXor(BlockAt(t, j), Previous(iv, c, j)))
    decreases |t|
  {
    hide BlockAt, Last, Front, Feedback, Previous, ByteXor;
    var p := CbcEncrypt(e, iv, Front(t));
    var b := e(ByteXor(Last(t), Feedback(iv, p)));
    assert CbcEncrypt(e, iv, t) == p + b;
    BlockOfFront(t, j);
    BlockOfAppended(p, b, j);
    if 16 * j + 16 < |t| {
      CbcEncryptBlocks(e, iv, Front(t), j);
    }
  }

  lemma {:induction false} CbcDecryptBlocks(d: Block -> Block, iv: Block, c: seq<bv8>, j: nat)
    requires Aligned(c) && 16 * j + 16 <= |c|
    ensures BlockAt(CbcDecrypt(d, iv, c), j) == ByteXor(d(BlockAt(c, j)), Previous(iv, c, j))
    decreases |c|
  {
    hide BlockAt, Last, Front, Feedback, Previous, ByteXor;
    var p := CbcDecrypt(d, iv, Front(c));
    var b := ByteXor(d(Last(c)), Feedback(iv, Front(c)));
    assert CbcDecrypt(d, iv, c) == p + b;
    BlockOfFront(c, j);
    BlockOfAppended(p, b, j);
    Rejoined(c);
    BlockOfAppended(Front(c), Last(c), j);
    if 16 * j + 16 < |c| {
      CbcDecryptBlocks(d, iv, Front(c), j);
    }
  }

  lemma Rejoined(t: seq<bv8>)
    requires Aligned(t) && t != []
    ensures t == Front(t) + Last(t)
  {
  }

  /** Section 6.3, with whole blocks: each block is added to the enciphered ciphertext block before. */
  lemma {:induction false} CfbEncryptBlocks(e: Block -> Block, iv: Block, t: seq<bv8>, j: nat)
    requires Aligned(t) && 16 * j + 16 <= |t|
    ensures var c := CfbEncrypt(e, iv, t);
            BlockAt(c, j) == ByteXor(BlockAt(t, j), e(Previous(iv, c, j)))
    decreases |t|
  {
    hide BlockAt, Last, Front, Feedback, Previous, ByteXor;
    var p := CfbEncrypt(e, iv, Front(t));
    var b := ByteXor(Last(t), e(Feedback(iv, p)));
    assert CfbEncrypt(e, iv, t) == p + b;
    BlockOfFront(t, j);
    BlockOfAppended(p, b, j);
    if 16 * j + 16 < |t| {
      CfbEncryptBlocks(e, iv, Front(t), j);
    }
  }

  lemma {:induction false} CfbDecryptBlocks(e: Block -> Block, iv: Block, c: seq<bv8>, j: nat)
    requires Aligned(c) && 16 * j + 16 <= |c|
    ensures BlockAt(CfbDecrypt(e, iv, c), j) == ByteXor(BlockAt(c, j), e(Previous(iv, c, j)))
    decreases |c|
  {
    hide BlockAt, Last, Front, Feedback, Previous, ByteXor;
    var p := CfbDecrypt(e, iv, Front(c));
    var b := ByteXor(Last(c), e(Feedback(iv, Front(c))));
    assert CfbDecrypt(e, iv, c) == p + b;
    BlockOfFront(c, j);
    BlockOfAppended(p, b, j);
    Rejoined(c);
    BlockOfAppended(Front(c), Last(c), j);
    if 16 * j + 16 < |c| {
      CfbDecryptBlocks(e, iv, Front(c), j);
    }
  }

  /** Section 6.4: output block `j` is the vector enciphered `j` + 1 times. */
  function Iterated(e: Block -> Block, iv: Block, n: nat): (b: Block) {
    if n == 0 then iv else e(Iterated(e, iv, n - 1))
  }

  lemma {:induction false} OfbStreamBlocks(e: Block -> Block, iv: Block, n: nat, j: nat)
    requires j < n
    ensures BlockAt(OfbStream(e, iv, n), j) == Iterated(e, iv, j + 1)
    ensures Feedback(iv, OfbStream(e, iv, n)) == Iterated(e, iv, n)
    decreases n
  {
    hide Iterated, OfbStream, BlockAt, Last, Feedback;
    var p := OfbStream(e, iv, n - 1);
    OfbUnfolds(e, iv, n);
    if n > 1 {
      OfbStreamBlocks(e, iv, n - 1, if j < n - 1 then j else 0);
    }
    var b := e(Feedback(iv, p));
    BlockOfAppended(p, b, j);
    FeedbackOfAppended(iv, p, b);
  }

  lemma OfbUnfolds(e: Block -> Block, iv: Block, n: nat)
    requires n > 0
    ensures OfbStream(e, iv, n) == OfbStream(e, iv, n - 1) + e(Feedback(iv, OfbStream(e, iv, n - 1)))
    ensures Iterated(e, iv, n) == e(Iterated(e, iv, n - 1))
    ensures n == 1 ==> Feedback(iv, OfbStream(e, iv, 0)) == Iterated(e, iv, 0)
  {
  }

  lemma FeedbackOfAppended(iv: Block, p: seq<bv8>, b: Block)
    ensures Feedback(iv, p + b) == b
  {
  }

  lemma OfbBlocks(e: Block -> Block, iv: Block, t: seq<bv8>, j: nat)
    requires Aligned(t) && 16 * j + 16 <= |t|
    ensures BlockAt(Ofb(e, iv, t), j) == ByteXor(BlockAt(t, j), Iterated(e, iv, j + 1))
  {
    hide Iterated, OfbStream, Xor;
    var n := |t| / 16;
    OfbStreamBlocks(e, iv, n, j);
    var o := OfbStream(e, iv, n);
    forall i | 0 <= i < 16
      ensures BlockAt(ByteXor(t, o), j)[i] == ByteXor(BlockAt(t, j), BlockAt(o, j))[i]
    {
    }
    assert BlockAt(ByteXor(t, o), j) == ByteXor(BlockAt(t, j), BlockAt(o, j));
  }
}
