/** The device list order (QuickDesk/qml/util/DeviceSort.js). Strings are sequences of UTF-16
    code units. */
module DeviceSort {
  import opened Options

  type Text = seq<nat>

  // ---- String helpers ----

  predicate IsBlank(c: nat) {
    c == 32 || c == 9 || c == 13 || c == 10
  }

  function TrimStart(s: Text): (r: Text) {
    if s != [] && IsBlank(s[0]) then TrimStart(s[1..]) else s
  }

  function TrimEnd(s: Text): (r: Text) {
    if s != [] && IsBlank(s[|s| - 1]) then TrimEnd(s[..|s| - 1]) else s
  }

  /** `clean`: a value that is not a string counts as empty. */
  function Clean(value: Option<Text>): (r: Text) {
    if value.None? then [] else TrimEnd(TrimStart(value.value))
  }

  function FoldUnit(c: nat): (r: nat) {
    if 65 <= c <= 90 then c + 32 else c
  }

  /** `fold`: ASCII capitals to small letters. */
  function Fold(s: Text): (r: Text)
    ensures |r| == |s|
  {
    seq(|s|, i requires 0 <= i < |s| => FoldUnit(s[i]))
  }

  /** `lexical`: the order of strings by code units. */
  function Lexical(a: Text, b: Text): (r: int)
    ensures -1 <= r <= 1
  {
    if a == [] then (if b == [] then 0 else -1)
    else if b == [] then 1
    else if a[0] < b[0] then -1
    else if a[0] > b[0] then 1
    else Lexical(a[1..], b[1..])
  }

  // ---- Natural order ----

  predicate IsDigit(c: nat) {
    48 <= c <= 57
  }

  /** How many units from the start are digits, or are not, as the first one. */
  function RunLength(s: Text): (n: nat)
    requires s != []
    ensures 1 <= n <= |s|
    ensures forall i :: 0 <= i < n ==> (IsDigit(s[i]) <==> IsDigit(s[0]))
  {
    if |s| > 1 && (IsDigit(s[1]) <==> IsDigit(s[0])) then 1 + RunLength(s[1..]) else 1
  }

  /** A run of digits, or of other units. */
  ghost predicate IsToken(x: Text) {
    x != [] && forall i :: 0 <= i < |x| ==> (IsDigit(x[i]) <==> IsDigit(x[0]))
  }

  /** The matches of `/[0-9]+|[^0-9]+/g`. */
  function Tokens(s: Text): (ts: seq<Text>)
    ensures forall i :: 0 <= i < |ts| ==> IsToken(ts[i])
    decreases |s|
  {
    if s == [] then [] else var n := RunLength(s); [s[..n]] + Tokens(s[n..])
  }

  /** `/^[0-9]+$/.test(x)` of a token. */
  predicate IsNumber(x: Text) {
    x != [] && forall i :: 0 <= i < |x| ==> IsDigit(x[i])
  }

  function StripZeros(x: Text): (r: Text) {
    if x != [] && x[0] == 48 then StripZeros(x[1..]) else x
  }

  /** `x.replace(/^0+/, '') || '0'` */
  function Digits(x: Text): (r: Text) {
    if StripZeros(x) == [] then [48] else StripZeros(x)
  }

  /** JavaScript's `p || q` on numbers. */
  function Or(p: int, q: int): (r: int) {
    if p != 0 then p else q
  }

  function TokenCompare(x: Text, y: Text): (r: int) {
    if IsNumber(x) && IsNumber(y) then
      Or(|Digits(x)| - |Digits(y)|, Or(Lexical(Digits(x), Digits(y)), |x| - |y|))
    else Lexical(x, y)
  }

  function CompareTokens(aa: seq<Text>, bb: seq<Text>): (r: int) {
    if aa == [] || bb == [] then |aa| - |bb|
    else Or(TokenCompare(aa[0], bb[0]), CompareTokens(aa[1..], bb[1..]))
  }

  function Natural(a: Text, b: Text): (r: int) {
    CompareTokens(Tokens(Fold(a)), Tokens(Fold(b)))
  }

  /** `natural`, with its index loop and early return. */
  method NaturalLoop(a: Text, b: Text) returns (r: int)
    ensures r == Natural(a, b)
  {
    var aa, bb := Tokens(Fold(a)), Tokens(Fold(b));
    var i := 0;
    while i < |aa| && i < |bb|
      invariant 0 <= i <= |aa| && i <= |bb|
      invariant CompareTokens(aa[i..], bb[i..]) == CompareTokens(aa, bb)
    {
      var x, y := aa[i], bb[i];
      assert aa[i..][0] == x && bb[i..][0] == y && aa[i..][1..] == aa[i + 1..] && bb[i..][1..] == bb[i + 1..];
      var result;
      if IsNumber(x) && IsNumber(y) {
        var nx, ny := Digits(x), Digits(y);
        result := Or(|nx| - |ny|, Or(Lexical(nx, ny), |x| - |y|));
      } else {
        result := Lexical(x, y);
      }
      if result != 0 {
        return result;
      }
      i := i + 1;
    }
    r := |aa| - |bb|;
  }

  // ---- The order of strings is total ----

  lemma {:induction false} LexicalReverses(a: Text, b: Text)
    ensures Lexical(a, b) == -Lexical(b, a)
  {
    if a != [] && b != [] && a[0] == b[0] {
      LexicalReverses(a[1..], b[1..]);
    }
  }

  lemma {:induction false} LexicalZero(a: Text, b: Text)
    ensures Lexical(a, b) == 0 <==> a == b
  {
    if a != [] && b != [] && a[0] == b[0] {
      LexicalZero(a[1..], b[1..]);
      assert a == [a[0]] + a[1..] && b == [b[0]] + b[1..];
    }
  }

  lemma {:induction false} LexicalTransitive(a: Text, b: Text, c: Text)
    requires Lexical(a, b) <= 0 && Lexical(b, c) <= 0
    ensures Lexical(a, c) <= 0
  {
    if a != [] && b != [] && c != [] && a[0] == b[0] == c[0] {
      LexicalTransitive(a[1..], b[1..], c[1..]);
    }
  }

  // ---- The order of tokens is total ----

  lemma TokenReverses(x: Text, y: Text)
    ensures TokenCompare(x, y) == -TokenCompare(y, x)
  {
    LexicalReverses(x, y);
    LexicalReverses(Digits(x), Digits(y));
  }

  /** The zeros that were stripped and what is left make up the number again. */
  lemma {:induction false} StripZerosShape(x: Text)
    ensures var s := StripZeros(x);
            && |s| <= |x| && x[|x| - |s|..] == s
            && (forall i :: 0 <= i < |x| - |s| ==> x[i] == 48)
            && (s != [] ==> s[0] != 48)
  {
    if x != [] && x[0] == 48 {
      StripZerosShape(x[1..]);
      var s := StripZeros(x);
      assert x[|x| - |s|..] == x[1..][|x| - 1 - |s|..];
      forall i | 0 <= i < |x| - |s|
        ensures x[i] == 48
      {
        assert i > 0 ==> x[i] == x[1..][i - 1];
      }
    }
  }

  /** Runs of digits with the same stripped digits and the same length are the same run. */
  lemma DigitsDetermine(x: Text, y: Text)
    requires Digits(x) == Digits(y) && |x| == |y|
    ensures x == y
  {
    StripZerosShape(x);
    StripZerosShape(y);
    var s, t := StripZeros(x), StripZeros(y);
    assert s == t;
    assert x == x[..|x| - |s|] + s && y == y[..|y| - |t|] + t;
  }

  lemma TokenZero(x: Text, y: Text)
    ensures TokenCompare(x, y) == 0 <==> x == y
  {
    LexicalZero(x, y);
    LexicalZero(Digits(x), Digits(y));
    if IsNumber(x) && IsNumber(y) && TokenCompare(x, y) == 0 {
      DigitsDetermine(x, y);
    }
  }

  /** A run of digits and another run are ordered by their first units. */
  lemma MixedTokens(x: Text, y: Text)
    requires IsToken(x) && IsToken(y) && IsNumber(x) != IsNumber(y)
    ensures x[0] != y[0] && !(IsNumber(x) && IsNumber(y))
    ensures TokenCompare(x, y) == if x[0] < y[0] then -1 else 1
  {
  }

  lemma NumbersTransitive(x: Text, y: Text, z: Text)
    requires IsNumber(x) && IsNumber(y) && IsNumber(z)
    requires TokenCompare(x, y) <= 0 && TokenCompare(y, z) <= 0
    ensures TokenCompare(x, z) <= 0
  {
    var a, b, c := Digits(x), Digits(y), Digits(z);
    LexicalZero(a, b);
    LexicalZero(b, c);
    LexicalZero(a, c);
    if Lexical(a, b) <= 0 && Lexical(b, c) <= 0 {
      LexicalTransitive(a, b, c);
    }
    LexicalReverses(a, b);
    LexicalReverses(b, c);
    LexicalReverses(a, c);
    if Lexical(c, a) <= 0 && Lexical(a, b) <= 0 {
      LexicalTransitive(c, a, b);
    }
    if Lexical(b, c) <= 0 && Lexical(c, a) <= 0 {
      LexicalTransitive(b, c, a);
    }
  }

  lemma TokenTransitive(x: Text, y: Text, z: Text)
    requires IsToken(x) && IsToken(y) && IsToken(z)
    requires TokenCompare(x, y) <= 0 && TokenCompare(y, z) <= 0
    ensures TokenCompare(x, z) <= 0
  {
    hide TokenCompare;
    assert IsNumber(x) <==> IsDigit(x[0]);
    assert IsNumber(y) <==> IsDigit(y[0]);
    assert IsNumber(z) <==> IsDigit(z[0]);
    if IsNumber(x) && IsNumber(y) && IsNumber(z) {
      NumbersTransitive(x, y, z);
    } else if IsNumber(x) && IsNumber(y) {
      MixedTokens(y, z);
      MixedTokens(x, z);
    } else if IsNumber(y) && IsNumber(z) {
      MixedTokens(x, y);
      MixedTokens(x, z);
    } else if IsNumber(x) && IsNumber(z) {
      MixedTokens(x, y);
      MixedTokens(y, z);
    } else {
      TextTransitive(x, y, z);
    }
  }

  lemma TextTransitive(x: Text, y: Text, z: Text)
    requires !(IsNumber(x) && IsNumber(y)) && !(IsNumber(y) && IsNumber(z)) && !(IsNumber(x) && IsNumber(z))
    requires TokenCompare(x, y) <= 0 && TokenCompare(y, z) <= 0
    ensures TokenCompare(x, z) <= 0
  {
    LexicalTransitive(x, y, z);
  }

  // ---- So is the order of token lists ----

  ghost predicate AreTokens(ts: seq<Text>) {
    forall i :: 0 <= i < |ts| ==> IsToken(ts[i])
  }

  lemma {:induction false} CompareTokensReverses(aa: seq<Text>, bb: seq<Text>)
    ensures CompareTokens(aa, bb) == -CompareTokens(bb, aa)
  {
    hide TokenCompare;
    if aa != [] && bb != [] {
      TokenReverses(aa[0], bb[0]);
      CompareTokensReverses(aa[1..], bb[1..]);
    }
  }

  lemma {:induction false} CompareTokensZero(aa: seq<Text>, bb: seq<Text>)
    ensures CompareTokens(aa, bb) == 0 <==> aa == bb
  {
    hide TokenCompare;
    if aa != [] && bb != [] {
      TokenZero(aa[0], bb[0]);
      CompareTokensZero(aa[1..], bb[1..]);
      assert aa == [aa[0]] + aa[1..] && bb == [bb[0]] + bb[1..];
    }
  }

  lemma {:induction false} CompareTokensTransitive(aa: seq<Text>, bb: seq<Text>, cc: seq<Text>)
    requires AreTokens(aa) && AreTokens(bb) && AreTokens(cc)
    requires CompareTokens(aa, bb) <= 0 && CompareTokens(bb, cc) <= 0
    ensures CompareTokens(aa, cc) <= 0
  {
    hide TokenCompare, IsToken;
    if aa != [] && bb != [] && cc != [] {
      var x, y, z := aa[0], bb[0], cc[0];
      TokenTransitive(x, y, z);
      TokenZero(x, y);
      TokenZero(y, z);
      TokenZero(x, z);
      if TokenCompare(x, z) == 0 {
        TokenReverses(y, z);
        assert TokenCompare(x, y) == 0 && TokenCompare(y, z) == 0;
        CompareTokensTransitive(aa[1..], bb[1..], cc[1..]);
      }
    }
  }

  /** The concatenation of a list of tokens. */
  function Join(ts: seq<Text>): (s: Text) {
    if ts == [] then [] else ts[0] + Join(ts[1..])
  }

  lemma {:induction false} JoinTokens(s: Text)
    ensures Join(Tokens(s)) == s
    decreases |s|
  {
    if s != [] {
      var n := RunLength(s);
      JoinTokens(s[n..]);
      assert Tokens(s)[1..] == Tokens(s[n..]);
    }
  }

  /** `natural` is a total preorder on all strings: reversing the arguments negates it, it is
      transitive, and it is zero exactly for strings that are equal after case folding. */
  lemma NaturalIsPreorder(a: Text, b: Text, c: Text)
    ensures Natural(a, b) == -Natural(b, a)
    ensures Natural(a, b) == 0 <==> Fold(a) == Fold(b)
    ensures Natural(a, b) <= 0 && Natural(b, c) <= 0 ==> Natural(a, c) <= 0
  {
    hide CompareTokens, Tokens, Fold;
    var ta, tb, tc := Tokens(Fold(a)), Tokens(Fold(b)), Tokens(Fold(c));
    CompareTokensReverses(ta, tb);
    CompareTokensZero(ta, tb);
    JoinTokens(Fold(a));
    JoinTokens(Fold(b));
    if Natural(a, b) <= 0 && Natural(b, c) <= 0 {
      CompareTokensTransitive(ta, tb, tc);
    }
  }

  // ---- What the string helpers mean ----

  ghost predicate Blanks(s: Text) {
    forall i :: 0 <= i < |s| ==> s[i] == 9 || s[i] == 10 || s[i] == 13 || s[i] == 32
  }

  ghost predicate Trimmed(s: Text) {
    s != [] ==> !Blanks([s[0]]) && !Blanks([s[|s| - 1]])
  }

  lemma {:induction false} TrimStartDrops(s: Text)
    ensures var r := TrimStart(s);
            |r| <= |s| && s[|s| - |r|..] == r && Blanks(s[..|s| - |r|]) && (r != [] ==> !IsBlank(r[0]))
  {
    if s != [] && IsBlank(s[0]) {
      TrimStartDrops(s[1..]);
      var r := TrimStart(s);
      assert s[|s| - |r|..] == s[1..][|s| - 1 - |r|..];
      assert s[..|s| - |r|] == [s[0]] + s[1..][..|s| - 1 - |r|];
    }
  }

  lemma {:induction false} TrimEndDrops(s: Text)
    ensures var r := TrimEnd(s);
            |r| <= |s| && s[..|r|] == r && Blanks(s[|r|..]) && (r != [] ==> !IsBlank(r[|r| - 1]))
  {
    if s != [] && IsBlank(s[|s| - 1]) {
      TrimEndDrops(s[..|s| - 1]);
      var r := TrimEnd(s);
      assert s[..|r|] == s[..|s| - 1][..|r|];
      assert s[|r|..] == s[..|s| - 1][|r|..] + [s[|s| - 1]];
    }
  }

  /** `clean` takes off the blanks at both ends and nothing else. */
  lemma CleanTrims(s: Text)
    ensures var r := Clean(Some(s));
            Trimmed(r) && exists before, after :: Blanks(before) && Blanks(after) && s == before + r + after
    ensures Clean(None) == []
  {
    hide TrimStart, TrimEnd;
    TrimStartDrops(s);
    var t := TrimStart(s);
    TrimEndDrops(t);
    var r := TrimEnd(t);
    if r != [] {
      assert [r[0]][0] == r[0] == t[0] && [r[|r| - 1]][0] == r[|r| - 1];
    }
    var before, after := s[..|s| - |t|], t[|r|..];
    assert s == before + r + after;
  }

  /** `fold` turns capitals A to Z into small letters and leaves all else. */
  lemma FoldMeans(s: Text, i: nat)
    requires i < |s|
    ensures var c := Fold(s)[i]; if 'A' as int <= s[i] <= 'Z' as int then c == s[i] - 'A' as int + 'a' as int else c == s[i]
  {
  }

  /** A string comes before another when it is a proper beginning of it, or has the smaller unit where
      they first differ. */
  lemma {:induction false} LexicalMeans(a: Text, b: Text, k: nat)
    requires k <= |a| && k <= |b| && a[..k] == b[..k]
    ensures k == |a| < |b| ==> Lexical(a, b) == -1
    ensures k < |a| && k < |b| && a[k] < b[k] ==> Lexical(a, b) == -1
    decreases k
  {
    if k > 0 {
      assert a[0] == a[..k][0] && b[0] == b[..k][0];
      assert a[1..][..k - 1] == a[..k][1..] && b[1..][..k - 1] == b[..k][1..];
      LexicalMeans(a[1..], b[1..], k - 1);
    }
  }

  /** `natural` is decided by the first tokens that differ: as text, unless both are numbers; and a
      string whose tokens run out first comes first. */
  lemma {:induction false} TokensDecide(aa: seq<Text>, bb: seq<Text>, k: nat)
    requires k <= |aa| && k <= |bb| && aa[..k] == bb[..k]
    ensures k == |aa| < |bb| ==> CompareTokens(aa, bb) < 0
    ensures k < |aa| && k < |bb| && aa[k] != bb[k] ==> CompareTokens(aa, bb) == TokenCompare(aa[k], bb[k])
    ensures k < |aa| && k < |bb| && !(IsNumber(aa[k]) && IsNumber(bb[k])) ==>
              TokenCompare(aa[k], bb[k]) == Lexical(aa[k], bb[k])
    decreases k
  {
    hide Lexical, Digits;
    if k > 0 {
      assert aa[0] == aa[..k][0] && bb[0] == bb[..k][0];
      assert aa[1..][..k - 1] == aa[..k][1..] && bb[1..][..k - 1] == bb[..k][1..];
      TokenZero(aa[0], bb[0]);
      TokensDecide(aa[1..], bb[1..], k - 1);
    } else if |aa| > 0 && |bb| > 0 {
      TokenZero(aa[0], bb[0]);
    }
  }

  lemma NaturalDecides(a: Text, b: Text, k: nat)
    requires var aa, bb := Tokens(Fold(a)), Tokens(Fold(b)); k <= |aa| && k <= |bb| && aa[..k] == bb[..k]
    ensures var aa, bb := Tokens(Fold(a)), Tokens(Fold(b));
            && (k == |aa| < |bb| ==> Natural(a, b) < 0)
            && (k < |aa| && k < |bb| && aa[k] != bb[k] ==> Natural(a, b) == TokenCompare(aa[k], bb[k]))
  {
    hide Tokens, Fold, CompareTokens, TokenCompare;
    TokensDecide(Tokens(Fold(a)), Tokens(Fold(b)), k);
  }

  // ---- What the token order means ----

  /** The tokens are the maximal runs: neighbours are of different kinds. */
  lemma {:induction false} TokensAlternate(s: Text, i: nat)
    requires i + 1 < |Tokens(s)|
    ensures IsDigit(Tokens(s)[i][0]) != IsDigit(Tokens(s)[i + 1][0])
    decreases |s|
  {
    var n := RunLength(s);
    if i == 0 {
      RunIsMaximal(s);
      assert Tokens(s)[1] == Tokens(s[n..])[0];
    } else {
      TokensAlternate(s[n..], i - 1);
    }
  }

  lemma {:induction false} RunIsMaximal(s: Text)
    requires s != []
    ensures RunLength(s) < |s| ==> IsDigit(s[RunLength(s)]) != IsDigit(s[0])
  {
    if |s| > 1 && (IsDigit(s[1]) <==> IsDigit(s[0])) {
      RunIsMaximal(s[1..]);
    }
  }

  function Pow10(n: nat): (p: nat)
    ensures p > 0
  {
    if n == 0 then 1 else 10 * Pow10(n - 1)
  }

  /** The number that a run of digits writes. */
  function Value(x: Text): (v: int)
    requires forall i :: 0 <= i < |x| ==> IsDigit(x[i])
  {
    if x == [] then 0 else (x[0] - 48) * Pow10(|x| - 1) + Value(x[1..])
  }

  lemma {:induction false} ValueBound(x: Text)
    requires forall i :: 0 <= i < |x| ==> IsDigit(x[i])
    ensures 0 <= Value(x) < Pow10(|x|)
    ensures x != [] && x[0] != 48 ==> Value(x) >= Pow10(|x| - 1)
  {
    if x != [] {
      ValueBound(x[1..]);
      var d, p := x[0] - 48, Pow10(|x| - 1);
      assert 0 <= d * p <= 9 * p by { MulBounds(d, 9, p); }
      if d >= 1 {
        MulBounds(1, d, p);
      }
    }
  }

  lemma MulBounds(a: int, b: int, p: nat)
    requires 0 <= a <= b
    ensures 0 <= a * p <= b * p
  {
  }

  lemma {:induction false} Pow10Grows(m: nat, n: nat)
    requires m <= n
    ensures Pow10(m) <= Pow10(n)
  {
    if m < n {
      Pow10Grows(m, n - 1);
    }
  }

  lemma {:induction false} StripKeepsValue(x: Text)
    requires forall i :: 0 <= i < |x| ==> IsDigit(x[i])
    ensures forall i :: 0 <= i < |StripZeros(x)| ==> IsDigit(StripZeros(x)[i])
    ensures Value(StripZeros(x)) == Value(x)
  {
    if x != [] && x[0] == 48 {
      StripKeepsValue(x[1..]);
    }
  }

  lemma LeadingDigitWins(d: int, e: int, p: nat, v: int, w: int)
    requires 0 <= d < e && v < p && 0 <= w
    ensures d * p + v < e * p + w
  {
    MulBounds(d + 1, e, p);
    assert (d + 1) * p == d * p + p;
  }

  lemma {:induction false} SameLengthValue(x: Text, y: Text)
    requires |x| == |y|
    requires forall i :: 0 <= i < |x| ==> IsDigit(x[i]) && IsDigit(y[i])
    ensures Lexical(x, y) < 0 <==> Value(x) < Value(y)
    ensures Lexical(x, y) > 0 <==> Value(x) > Value(y)
  {
    hide Pow10;
    if x != [] {
      var p := Pow10(|x| - 1);
      ValueBound(x[1..]);
      ValueBound(y[1..]);
      var d, e, v, w := x[0] - 48, y[0] - 48, Value(x[1..]), Value(y[1..]);
      assert Value(x) == d * p + v && Value(y) == e * p + w;
      if d < e {
        LeadingDigitWins(d, e, p, v, w);
      } else if e < d {
        LeadingDigitWins(e, d, p, w, v);
      } else {
        SameLengthValue(x[1..], y[1..]);
      }
    }
  }

  lemma DigitsValue(x: Text)
    requires IsNumber(x)
    ensures IsNumber(Digits(x)) && Value(Digits(x)) == Value(x)
    ensures |Digits(x)| > 1 ==> Digits(x)[0] != 48
  {
    StripKeepsValue(x);
    StripZerosShape(x);
  }

  lemma ShorterIsSmaller(x: Text, y: Text)
    requires IsNumber(x) && IsNumber(y) && |Digits(x)| < |Digits(y)|
    ensures Value(x) < Value(y)
  {
    DigitsValue(x);
    DigitsValue(y);
    ValueBound(Digits(x));
    ValueBound(Digits(y));
    Pow10Grows(|Digits(x)|, |Digits(y)| - 1);
  }

  /** Runs of digits of any length are ordered by the numbers they write; of two runs that write
      the same number the one with fewer leading zeros comes first. */
  lemma NumbersByValue(x: Text, y: Text)
    requires IsNumber(x) && IsNumber(y)
    ensures Value(x) < Value(y) ==> TokenCompare(x, y) < 0
    ensures Value(x) > Value(y) ==> TokenCompare(x, y) > 0
    ensures Value(x) == Value(y) ==> TokenCompare(x, y) == |x| - |y|
  {
    DigitsValue(x);
    DigitsValue(y);
    if |Digits(x)| < |Digits(y)| {
      ShorterIsSmaller(x, y);
    } else if |Digits(y)| < |Digits(x)| {
      ShorterIsSmaller(y, x);
    } else {
      SameLengthValue(Digits(x), Digits(y));
    }
  }
}

/** Rows of the device list and the order `sortedDeviceRows` puts them in. */
module DeviceRows {
  import opened Options
  import opened DeviceSort

  /** A row; a field that is missing or not a string is None. */
  datatype Row = Row(deviceId: Option<Text>, deviceName: Option<Text>, remark: Option<Text>, online: bool)

  function DisplayName(row: Row, favorites: bool): (r: Text) {
    if !favorites && Clean(row.remark) != [] then Clean(row.remark)
    else if Clean(row.deviceName) != [] then Clean(row.deviceName)
    else Clean(row.deviceId)
  }

  /** `Number(x)` of a boolean. */
  function Number(b: bool): (n: int) { if b then 1 else 0 }

  function RowCompare(a: Row, b: Row, favorites: bool): (r: int) {
    var presence := if favorites then 0 else Number(b.online) - Number(a.online);
    Or(presence, Or(Natural(DisplayName(a, favorites), DisplayName(b, favorites)),
                    Lexical(Clean(a.deviceId), Clean(b.deviceId))))
  }

  /** Rows the list does not tell apart. */
  predicate Tied(a: Row, b: Row, favorites: bool) {
    && (favorites || a.online == b.online)
    && Fold(DisplayName(a, favorites)) == Fold(DisplayName(b, favorites))
    && Clean(a.deviceId) == Clean(b.deviceId)
  }

  /** The comparison function is a consistent comparator in the sense of section 23.1.3.30 of
      ECMA-262 (2023): a total preorder, whose ties are the rows with the same presence, folded
      display name and cleaned id. */
  lemma RowOrder(a: Row, b: Row, c: Row, favorites: bool)
    ensures RowCompare(a, b, favorites) == -RowCompare(b, a, favorites)
    ensures RowCompare(a, b, favorites) == 0 <==> Tied(a, b, favorites)
    ensures RowCompare(a, b, favorites) <= 0 && RowCompare(b, c, favorites) <= 0 ==> RowCompare(a, c, favorites) <= 0
  {
    hide Natural, Lexical, DisplayName, Clean, Fold;
    var x, y, z := DisplayName(a, favorites), DisplayName(b, favorites), DisplayName(c, favorites);
    var p, q, r := Clean(a.deviceId), Clean(b.deviceId), Clean(c.deviceId);
    NaturalIsPreorder(x, y, z);
    NaturalIsPreorder(y, z, x);
    NaturalIsPreorder(z, x, y);
    LexicalReverses(p, q);
    LexicalZero(p, q);
    if Lexical(p, q) <= 0 && Lexical(q, r) <= 0 {
      LexicalTransitive(p, q, r);
    }
  }

  /** The text a row is shown and ordered by: the remark when there is one, except among favourites,
      then the device name, then the id. */
  lemma ShownText(row: Row, favorites: bool)
    ensures !favorites && Clean(row.remark) != [] ==> DisplayName(row, favorites) == Clean(row.remark)
    ensures (favorites || Clean(row.remark) == []) && Clean(row.deviceName) != [] ==>
              DisplayName(row, favorites) == Clean(row.deviceName)
    ensures (favorites || Clean(row.remark) == []) && Clean(row.deviceName) == [] ==>
              DisplayName(row, favorites) == Clean(row.deviceId)
  {
  }

  /** Which of two rows comes first: outside the favourites an online one before an offline one; of
      the same presence by the natural order of the shown text; of the same folded text by the id. */
  ghost predicate InOrder(a: Row, b: Row, favorites: bool) {
    && (!favorites && b.online ==> a.online)
    && (favorites || a.online == b.online ==> Natural(DisplayName(a, favorites), DisplayName(b, favorites)) <= 0)
    && ((favorites || a.online == b.online) && Fold(DisplayName(a, favorites)) == Fold(DisplayName(b, favorites)) ==>
          Lexical(Clean(a.deviceId), Clean(b.deviceId)) <= 0)
  }

  lemma CompareMeansOrder(a: Row, b: Row, favorites: bool)
    ensures RowCompare(a, b, favorites) <= 0 ==> InOrder(a, b, favorites)
  {
    hide Natural, Lexical, DisplayName, Clean, Fold;
    NaturalIsPreorder(DisplayName(a, favorites), DisplayName(b, favorites), DisplayName(a, favorites));
  }

  // ---- Sorting ----

  ghost predicate Sorted(rows: seq<Row>, favorites: bool) {
    forall i, j :: 0 <= i < j < |rows| ==> RowCompare(rows[i], rows[j], favorites) <= 0
  }

  /** The rows tied with `row`, in order. */
  function TiedWith(rows: seq<Row>, row: Row, favorites: bool): (r: seq<Row>) {
    if rows == [] then []
    else if Tied(rows[0], row, favorites) then [rows[0]] + TiedWith(rows[1..], row, favorites)
    else TiedWith(rows[1..], row, favorites)
  }

  /** What a stable sort with a consistent comparator yields: the rows in order, tied rows among
      each other as they were. */
  ghost predicate IsSortOf(rows: seq<Row>, sorted: seq<Row>, favorites: bool) {
    && Sorted(sorted, favorites)
    && (forall row :: TiedWith(sorted, row, favorites) == TiedWith(rows, row, favorites))
  }

  lemma TiedIsEquivalence(a: Row, b: Row, c: Row, favorites: bool)
    ensures Tied(a, a, favorites)
    ensures Tied(a, b, favorites) ==> (Tied(b, c, favorites) <==> Tied(a, c, favorites))
  {
  }

  lemma {:induction false} TiedWithHas(rows: seq<Row>, row: Row, favorites: bool)
    requires TiedWith(rows, row, favorites) != []
    ensures exists i :: 0 <= i < |rows| && Tied(rows[i], row, favorites)
  {
    hide Tied;
    if Tied(rows[0], row, favorites) {
    } else {
      TiedWithHas(rows[1..], row, favorites);
      var i :| 0 <= i < |rows[1..]| && Tied(rows[1..][i], row, favorites);
      assert rows[i + 1] == rows[1..][i];
    }
  }

  /** The first of the rows in order is at most any row that some of them is tied with. */
  lemma HeadIsLeast(rows: seq<Row>, row: Row, favorites: bool)
    requires Sorted(rows, favorites) && TiedWith(rows, row, favorites) != []
    ensures rows != [] && RowCompare(rows[0], row, favorites) <= 0
  {
    hide RowCompare, Tied;
    TiedWithHas(rows, row, favorites);
    var i :| 0 <= i < |rows| && Tied(rows[i], row, favorites);
    RowOrder(rows[0], rows[i], row, favorites);
    RowOrder(rows[i], row, row, favorites);
    if i == 0 {
    } else {
      assert RowCompare(rows[0], rows[i], favorites) <= 0;
    }
  }

  /** Of two arrangements in order, with as many rows of each kind, the first rows are tied. */
  lemma HeadsTied(a: seq<Row>, b: seq<Row>, favorites: bool)
    requires Sorted(a, favorites) && Sorted(b, favorites)
    requires forall row :: |TiedWith(a, row, favorites)| == |TiedWith(b, row, favorites)|
    ensures a == [] <==> b == []
    ensures a != [] ==> Tied(a[0], b[0], favorites)
  {
    hide RowCompare, Tied, Sorted;
    if a != [] {
      TiedIsEquivalence(a[0], a[0], a[0], favorites);
      assert TiedWith(a, a[0], favorites) != [];
      assert |TiedWith(a, a[0], favorites)| == |TiedWith(b, a[0], favorites)|;
      HeadIsLeast(b, a[0], favorites);
    }
    if b != [] {
      TiedIsEquivalence(b[0], b[0], b[0], favorites);
      assert TiedWith(b, b[0], favorites) != [];
      assert |TiedWith(a, b[0], favorites)| == |TiedWith(b, b[0], favorites)|;
      HeadIsLeast(a, b[0], favorites);
      RowOrder(a[0], b[0], a[0], favorites);
    }
  }

  lemma SortedTail(rows: seq<Row>, favorites: bool)
    requires Sorted(rows, favorites) && rows != []
    ensures Sorted(rows[1..], favorites)
  {
    hide RowCompare;
  }

  lemma {:induction false} SameKindsTied(a: seq<Row>, b: seq<Row>, favorites: bool)
    requires Sorted(a, favorites) && Sorted(b, favorites)
    requires forall row :: |TiedWith(a, row, favorites)| == |TiedWith(b, row, favorites)|
    ensures |a| == |b|
    ensures forall i :: 0 <= i < |a| ==> Tied(a[i], b[i], favorites)
    decreases |a|
  {
    hide Tied, Sorted;
    HeadsTied(a, b, favorites);
    if a != [] {
      var x, y := a[0], b[0];
      forall row
        ensures |TiedWith(a[1..], row, favorites)| == |TiedWith(b[1..], row, favorites)|
      {
        TiedIsEquivalence(x, y, row, favorites);
        assert |TiedWith(a, row, favorites)| == |TiedWith(b, row, favorites)|;
      }
      SortedTail(a, favorites);
      SortedTail(b, favorites);
      SameKindsTied(a[1..], b[1..], favorites);
      assert forall i :: 1 <= i < |a| ==> a[i] == a[1..][i - 1] && b[i] == b[1..][i - 1];
    }
  }

  /** A stable sort has one possible result. */
  lemma {:induction false} StableSortUnique(rows: seq<Row>, a: seq<Row>, b: seq<Row>, favorites: bool)
    requires IsSortOf(rows, a, favorites) && IsSortOf(rows, b, favorites)
    ensures a == b
  {
    hide Tied, Sorted;
    assert forall row :: TiedWith(a, row, favorites) == TiedWith(rows, row, favorites) == TiedWith(b, row, favorites);
    SameGroupsEqual(a, b, favorites);
  }

  lemma {:induction false} SameGroupsEqual(a: seq<Row>, b: seq<Row>, favorites: bool)
    requires Sorted(a, favorites) && Sorted(b, favorites)
    requires forall row :: TiedWith(a, row, favorites) == TiedWith(b, row, favorites)
    ensures a == b
    decreases |a|
  {
    hide Tied, Sorted;
    HeadsTied(a, b, favorites);
    if a != [] {
      var x, y := a[0], b[0];
      TiedIsEquivalence(x, x, x, favorites);
      TiedIsEquivalence(x, y, x, favorites);
      assert TiedWith(a, x, favorites) == TiedWith(b, x, favorites);
      assert TiedWith(a, x, favorites)[0] == x && TiedWith(b, x, favorites)[0] == y;
      forall row
        ensures TiedWith(a[1..], row, favorites) == TiedWith(b[1..], row, favorites)
      {
        assert TiedWith(a, row, favorites) == TiedWith(b, row, favorites);
        if Tied(x, row, favorites) {
          assert TiedWith(a[1..], row, favorites) == TiedWith(a, row, favorites)[1..];
          assert TiedWith(b[1..], row, favorites) == TiedWith(b, row, favorites)[1..];
        }
      }
      SortedTail(a, favorites);
      SortedTail(b, favorites);
      SameGroupsEqual(a[1..], b[1..], favorites);
      assert a == [x] + a[1..] && b == [y] + b[1..];
    }
  }

  // ---- The groups of tied rows make up the multiset of rows ----

  lemma {:induction false} TiedWithConcat(a: seq<Row>, b: seq<Row>, row: Row, favorites: bool)
    ensures TiedWith(a + b, row, favorites) == TiedWith(a, row, favorites) + TiedWith(b, row, favorites)
    decreases |a|
  {
    hide Tied;
    if a == [] {
      assert a + b == b;
    } else {
      TiedWithConcat(a[1..], b, row, favorites);
      assert (a + b)[1..] == a[1..] + b;
    }
  }

  lemma {:induction false} SameRowsSameCount(a: seq<Row>, b: seq<Row>, row: Row, favorites: bool)
    requires multiset(a) == multiset(b)
    ensures |TiedWith(a, row, favorites)| == |TiedWith(b, row, favorites)|
    decreases |a|
  {
    hide Tied;
    if a == [] {
      assert |b| == |multiset(b)| == 0;
    } else {
      var x := a[0];
      assert a == [x] + a[1..];
      assert x in multiset(b);
      var k :| 0 <= k < |b| && b[k] == x;
      var rest := b[..k] + b[k + 1..];
      assert b == b[..k] + ([x] + b[k + 1..]);
      assert multiset(a[1..]) == multiset(a) - multiset{x};
      assert multiset(rest) == multiset(b) - multiset{x};
      SameRowsSameCount(a[1..], rest, row, favorites);
      TiedWithConcat(b[..k], [x] + b[k + 1..], row, favorites);
      TiedWithConcat([x], b[k + 1..], row, favorites);
      TiedWithConcat(b[..k], b[k + 1..], row, favorites);
      TiedWithConcat([x], a[1..], row, favorites);
    }
  }

  lemma {:induction false} GroupCounts(rows: seq<Row>, row: Row, favorites: bool)
    ensures multiset(rows)[row] == multiset(TiedWith(rows, row, favorites))[row]
  {
    hide Tied;
    if rows != [] {
      TiedIsEquivalence(row, row, row, favorites);
      GroupCounts(rows[1..], row, favorites);
      assert rows == [rows[0]] + rows[1..];
    }
  }

  /** The result holds the rows given, each as often as it was. */
  lemma SortIsPermutation(rows: seq<Row>, sorted: seq<Row>, favorites: bool)
    requires IsSortOf(rows, sorted, favorites)
    ensures multiset(sorted) == multiset(rows)
  {
    hide TiedWith, Sorted;
    forall row
      ensures multiset(sorted)[row] == multiset(rows)[row]
    {
      GroupCounts(rows, row, favorites);
      GroupCounts(sorted, row, favorites);
      assert TiedWith(sorted, row, favorites) == TiedWith(rows, row, favorites);
    }
  }

  /** Whatever order the same rows arrive in, and whether or not the sort is stable, every place of
      the list shows a row of the same presence, folded name and id. */
  lemma SortedIsCanonical(a: seq<Row>, b: seq<Row>, favorites: bool)
    requires Sorted(a, favorites) && Sorted(b, favorites) && multiset(a) == multiset(b)
    ensures |a| == |b| && forall i :: 0 <= i < |a| ==> Tied(a[i], b[i], favorites)
  {
    hide TiedWith, Sorted, Tied;
    forall row
      ensures |TiedWith(a, row, favorites)| == |TiedWith(b, row, favorites)|
    {
      SameRowsSameCount(a, b, row, favorites);
    }
    SameKindsTied(a, b, favorites);
  }

  // ---- A sort ----

  function InsertRow(row: Row, rows: seq<Row>, favorites: bool): (r: seq<Row>) {
    if rows == [] || RowCompare(row, rows[0], favorites) <= 0 then [row] + rows
    else [rows[0]] + InsertRow(row, rows[1..], favorites)
  }

  /** A stable sort by insertion. */
  function SortRows(rows: seq<Row>, favorites: bool): (r: seq<Row>) {
    if rows == [] then [] else InsertRow(rows[0], SortRows(rows[1..], favorites), favorites)
  }

  lemma {:induction false} InsertHas(row: Row, rows: seq<Row>, x: Row, favorites: bool)
    requires x in InsertRow(row, rows, favorites)
    ensures x == row || x in rows
  {
    hide RowCompare;
    if rows != [] && !(RowCompare(row, rows[0], favorites) <= 0) && x != rows[0] {
      InsertHas(row, rows[1..], x, favorites);
    }
  }

  lemma SortedCons(row: Row, rows: seq<Row>, favorites: bool)
    requires Sorted(rows, favorites)
    requires forall x :: x in rows ==> RowCompare(row, x, favorites) <= 0
    ensures Sorted([row] + rows, favorites)
  {
    hide RowCompare;
    var all := [row] + rows;
    forall i, j | 0 <= i < j < |all|
      ensures RowCompare(all[i], all[j], favorites) <= 0
    {
      assert all[j] == rows[j - 1];
      if i == 0 {
        assert all[j] in rows;
      } else {
        assert all[i] == rows[i - 1];
      }
    }
  }

  lemma {:induction false} InsertSorts(row: Row, rows: seq<Row>, favorites: bool)
    requires Sorted(rows, favorites)
    ensures Sorted(InsertRow(row, rows, favorites), favorites)
  {
    hide RowCompare;
    if rows == [] {
    } else if RowCompare(row, rows[0], favorites) <= 0 {
      forall x | x in rows
        ensures RowCompare(row, x, favorites) <= 0
      {
        RowOrder(row, rows[0], x, favorites);
        var i :| 0 <= i < |rows| && rows[i] == x;
        if i > 0 {
          assert RowCompare(rows[0], rows[i], favorites) <= 0;
        }
      }
      SortedCons(row, rows, favorites);
    } else {
      SortedTail(rows, favorites);
      InsertSorts(row, rows[1..], favorites);
      var rest := InsertRow(row, rows[1..], favorites);
      forall x | x in rest
        ensures RowCompare(rows[0], x, favorites) <= 0
      {
        InsertHas(row, rows[1..], x, favorites);
        RowOrder(rows[0], row, row, favorites);
        if x != row {
          var i :| 0 <= i < |rows[1..]| && rows[1..][i] == x;
          assert rows[i + 1] == x;
          assert RowCompare(rows[0], rows[i + 1], favorites) <= 0;
        }
      }
      SortedCons(rows[0], rest, favorites);
    }
  }

  lemma {:induction false} InsertKeepsGroups(row: Row, rows: seq<Row>, other: Row, favorites: bool)
    ensures TiedWith(InsertRow(row, rows, favorites), other, favorites)
         == (if Tied(row, other, favorites) then [row] else []) + TiedWith(rows, other, favorites)
    decreases |rows|
  {
    hide RowCompare, Tied;
    if rows == [] || RowCompare(row, rows[0], favorites) <= 0 {
      assert ([row] + rows)[1..] == rows;
    } else {
      RowOrder(row, rows[0], rows[0], favorites);
      TiedIsEquivalence(row, rows[0], other, favorites);
      InsertKeepsGroups(row, rows[1..], other, favorites);
      var rest := InsertRow(row, rows[1..], favorites);
      assert ([rows[0]] + rest)[1..] == rest;
      if Tied(rows[0], other, favorites) {
        assert !Tied(row, other, favorites) by {
          TiedIsSymmetric(row, rows[0], other, favorites);
        }
      }
    }
  }

  lemma TiedIsSymmetric(a: Row, b: Row, c: Row, favorites: bool)
    ensures Tied(a, c, favorites) && Tied(b, c, favorites) ==> Tied(a, b, favorites)
  {
  }

  lemma {:induction false} SortRowsSorts(rows: seq<Row>, favorites: bool)
    ensures IsSortOf(rows, SortRows(rows, favorites), favorites)
  {
    hide Tied, InsertRow, Sorted;
    if rows == [] {
      assert Sorted([], favorites) by { EmptySorted(favorites); }
    } else {
      var rest := SortRows(rows[1..], favorites);
      SortRowsSorts(rows[1..], favorites);
      InsertSorts(rows[0], rest, favorites);
      forall row
        ensures TiedWith(InsertRow(rows[0], rest, favorites), row, favorites) == TiedWith(rows, row, favorites)
      {
        InsertKeepsGroups(rows[0], rest, row, favorites);
        assert TiedWith(rest, row, favorites) == TiedWith(rows[1..], row, favorites);
      }
    }
  }

  lemma EmptySorted(favorites: bool)
    ensures Sorted([], favorites)
  {
  }

  /** `sortedDeviceRows`: a missing array counts as empty, and the array given is copied. */
  method SortedDeviceRows(rows: array?<Row>, favorites: bool) returns (sorted: array<Row>)
    ensures fresh(sorted)
    ensures IsSortOf(if rows == null then [] else rows[..], sorted[..], favorites)
    ensures forall i, j :: 0 <= i < j < sorted.Length ==> InOrder(sorted[i], sorted[j], favorites)
    ensures multiset(sorted[..]) == if rows == null then multiset{} else multiset(rows[..])
    ensures rows != null ==> rows[..] == old(rows[..])
  {
    hide SortRows, RowCompare, InOrder, TiedWith;
    var slice := if rows == null then [] else rows[..];
    var result := SortRows(slice, favorites);
    SortRowsSorts(slice, favorites);
    sorted := new Row[|result|](i requires 0 <= i < |result| => result[i]);
    assert sorted[..] == result;
    SortIsPermutation(slice, result, favorites);
    forall i, j | 0 <= i < j < |result|
      ensures InOrder(result[i], result[j], favorites)
    {
      CompareMeansOrder(result[i], result[j], favorites);
    }
  }
}
