/** Padding to the block length and its removal (`getPadding` and `RemovePadding`,
    QuickDesk/base/qaesencryption.cpp). Removal yields None where the source would read
    the byte before the first one. */
module AesPadding {
  import opened Options

  datatype Padding = Zero | Pkcs7 | Iso

  function Fill(b: bv8, n: nat): (r: seq<bv8>)
    ensures |r| == n
  {
    seq(n, i => b)
  }

  /** How far a length is from the next multiple of the block length. */
  function Room(length: nat): (n: nat)
    ensures n < 16 && (length + n) % 16 == 0
    ensures n == 0 <==> length % 16 == 0
  {
    (16 - length % 16) % 16
  }

  /** `getPadding(currSize, 16)` */
  function PaddingFor(padding: Padding, length: nat): (r: seq<bv8>)
    ensures (length + |r|) % 16 == 0
  {
    var size := Room(length);
    match padding
    case Zero => Fill(0x00, size)
    case Pkcs7 =>
      var n := if size == 0 then 16 else size;
      Fill(n as bv8, n)
    case Iso => if size > 0 then [0x80] + Fill(0x00, size - 1) else []
  }

  function Pad(padding: Padding, text: seq<bv8>): (r: seq<bv8>)
    ensures |r| % 16 == 0
  {
    text + PaddingFor(padding, |text|)
  }

  /** The text up to its last non-zero byte. */
  function TrimZeros(s: seq<bv8>): (r: seq<bv8>)
    ensures |r| <= |s| && r == s[..|r|]
    ensures r == [] || r[|r| - 1] != 0x00
    ensures forall i :: |r| <= i < |s| ==> s[i] == 0x00
  {
    if s == [] || s[|s| - 1] != 0x00 then s else TrimZeros(s[..|s| - 1])
  }

  /** A `char` read as a number, where `char` is signed. */
  function SignedValue(b: bv8): (r: int) {
    if b < 0x80 then b as int else b as int - 256
  }

  /** `ret.remove(ret.length() - n, n)`: nothing happens unless the range starts inside the array. */
  function RemoveTail(s: seq<bv8>, n: int): (r: seq<bv8>) {
    if 0 < n <= |s| then s[..|s| - n] else s
  }

  function Unpad(padding: Padding, s: seq<bv8>): (r: Option<seq<bv8>>) {
    if s == [] then Some(s)
    else
      match padding
      case Zero => if TrimZeros(s) == [] then None else Some(TrimZeros(s))
      case Pkcs7 => Some(RemoveTail(s, SignedValue(s[|s| - 1])))
      case Iso =>
        var t := TrimZeros(s);
        if t == [] then None
        else if t[|t| - 1] == 0x80 then Some(t[..|t| - 1])
        else Some(s)
  }

  /** `RemovePadding`, with its loops. */
  method RemovePadding(rawText: seq<bv8>, padding: Padding) returns (r: Option<seq<bv8>>)
    ensures r == Unpad(padding, rawText)
  {
    if rawText == [] {
      return Some(rawText);
    }
    var ret := rawText;
    match padding {
      case Zero =>
        while ret != [] && ret[|ret| - 1] == 0x00
          invariant TrimZeros(ret) == TrimZeros(rawText)
        {
          ret := ret[..|ret| - 1];
        }
        // An emptied array is indexed at -1 by the next test.
        r := if ret == [] then None else Some(ret);
      case Pkcs7 =>
        r := Some(RemoveTail(ret, SignedValue(ret[|ret| - 1])));
      case Iso =>
        var marker := |ret| - 1;
        while marker >= 0 && ret[marker] == 0x00
          invariant -1 <= marker < |ret|
          invariant TrimZeros(ret[..marker + 1]) == TrimZeros(rawText)
        {
          assert ret[..marker + 1][..marker] == ret[..marker];
          marker := marker - 1;
        }
        if marker < 0 {
          r := None;
        } else if ret[marker] == 0x80 {
          assert ret[..marker + 1][..marker] == ret[..marker];
          r := Some(ret[..marker]);
        } else {
          r := Some(ret);
        }
    }
  }

  // ---- When removal gives back what was padded ----

  lemma {:induction false} TrimDropsZeros(s: seq<bv8>, n: nat)
    ensures TrimZeros(s + Fill(0x00, n)) == TrimZeros(s)
  {
    if n == 0 {
      assert s + Fill(0x00, 0) == s;
    } else {
      assert (s + Fill(0x00, n))[..|s| + n - 1] == s + Fill(0x00, n - 1);
      TrimDropsZeros(s, n - 1);
    }
  }

  lemma CountByte(n: nat)
    requires 1 <= n <= 16
    ensures SignedValue(n as bv8) == n
  {
  }

  /** Whether removing the padding of `text` gives `text` back: always for PKCS7; for zero
      padding when the text is empty or ends in a non-zero byte; for marker padding when there
      is room for a marker, or the text is empty, or no byte of it can be taken for the marker. */
  predicate Recoverable(padding: Padding, text: seq<bv8>) {
    match padding
    case Pkcs7 => true
    case Zero => text == [] || text[|text| - 1] != 0x00
    case Iso =>
      || |text| % 16 != 0
      || text == []
      || (TrimZeros(text) != [] && TrimZeros(text)[|TrimZeros(text)| - 1] != 0x80)
  }

  lemma Pkcs7RoundTrip(text: seq<bv8>)
    ensures Unpad(Pkcs7, Pad(Pkcs7, text)) == Some(text)
  {
    hide SignedValue;
    var n := |PaddingFor(Pkcs7, |text|)|;
    CountByte(n);
    assert Pad(Pkcs7, text)[|text| + n - 1] == n as bv8;
  }

  lemma ZeroRoundTrip(text: seq<bv8>)
    ensures Unpad(Zero, Pad(Zero, text)) == Some(text) <==> Recoverable(Zero, text)
    ensures Unpad(Zero, Pad(Zero, text)) == None <==> text != [] && TrimZeros(text) == []
  {
    hide Room;
    TrimDropsZeros(text, Room(|text|));
  }

  lemma IsoTrimmed(text: seq<bv8>)
    ensures Room(|text|) == 0 ==> Pad(Iso, text) == text
    ensures Room(|text|) > 0 ==> Pad(Iso, text) != [] && TrimZeros(Pad(Iso, text)) == text + [0x80]
  {
    hide Room;
    var size := Room(|text|);
    if size > 0 {
      var marked := text + [0x80];
      assert Pad(Iso, text) == marked + Fill(0x00, size - 1);
      TrimDropsZeros(marked, size - 1);
    }
  }

  lemma IsoRoundTrip(text: seq<bv8>)
    ensures Unpad(Iso, Pad(Iso, text)) == Some(text) <==> Recoverable(Iso, text)
    ensures Unpad(Iso, Pad(Iso, text)) == None <==> text != [] && TrimZeros(text) == [] && |text| % 16 == 0
  {
    hide Pad, Room;
    IsoTrimmed(text);
    if Room(|text|) > 0 {
      assert (text + [0x80])[..|text|] == text;
    }
  }

  /** Removing the padding gives the text back exactly on the recoverable texts. */
  lemma UnpadPad(padding: Padding, text: seq<bv8>)
    ensures Unpad(padding, Pad(padding, text)) == Some(text) <==> Recoverable(padding, text)
  {
    hide Unpad, Pad;
    match padding
    case Pkcs7 => Pkcs7RoundTrip(text);
    case Zero => ZeroRoundTrip(text);
    case Iso => IsoRoundTrip(text);
  }

  // ---- The bytes that are added and removed ----

  /** Padding follows the text up to whole blocks. PKCS7 adds 1 to 16 bytes that each say how many
      (section 6.3 of RFC 5652); the zero padding adds fewer than 16 zero bytes; the ISO padding adds
      fewer than 16 bytes, the first 80 and the others zero. */
  lemma PadBytes(padding: Padding, text: seq<bv8>, i: nat)
    requires |text| <= i < |Pad(padding, text)|
    ensures |Pad(padding, text)| % 16 == 0 && Pad(padding, text)[..|text|] == text
    ensures var n, b := |Pad(padding, text)| - |text|, Pad(padding, text)[i];
            match padding
            case Zero => n < 16 && b == 0x00
            case Pkcs7 => 1 <= n <= 16 && b as int == n
            case Iso => n < 16 && b == if i == |text| then 0x80 else 0x00
  {
  }

  lemma PadAlways(padding: Padding, text: seq<bv8>)
    ensures padding == Pkcs7 ==> |Pad(padding, text)| > |text|
    ensures padding != Pkcs7 ==> (Pad(padding, text) == text <==> |text| % 16 == 0)
  {
  }

  /** What is removed from any array, padded or not. PKCS7: as many bytes as the last one says, when it
      says from 1 to 127 and that many are there, and none otherwise. The others: `k` is the place of
      the last byte that is not zero; the zero padding leaves all up to it, the ISO padding all before
      it when it is 80 and the whole array when it is not. */
  lemma UnpadBytes(s: seq<bv8>, k: nat)
    requires k < |s| && s[k] != 0x00 && forall i :: k < i < |s| ==> s[i] == 0x00
    ensures var n := s[|s| - 1] as int;
            Unpad(Pkcs7, s) == Some(if 1 <= n <= 127 && n <= |s| then s[..|s| - n] else s)
    ensures Unpad(Zero, s) == Some(s[..k + 1])
    ensures Unpad(Iso, s) == Some(if s[k] == 0x80 then s[..k] else s)
  {
    var t := TrimZeros(s);
    assert |t| == k + 1;
    assert t == s[..k + 1] && t[..k] == s[..k];
    Signed(s[|s| - 1]);
    hide SignedValue;
  }

  lemma Signed(b: bv8)
    ensures SignedValue(b) == if b as int <= 127 then b as int else b as int - 256
    ensures 0 <= b as int < 256
  {
    assert b < 0x80 <==> b as int < 0x80 as bv8 as int;
  }

  /** Without such a byte the two others read before the array, unless it is empty. */
  lemma UnpadZeros(s: seq<bv8>)
    requires forall i :: 0 <= i < |s| ==> s[i] == 0x00
    ensures Unpad(Pkcs7, s) == Some(s)
    ensures Unpad(Zero, s) == Unpad(Iso, s) == if s == [] then Some([]) else None
  {
  }
}
