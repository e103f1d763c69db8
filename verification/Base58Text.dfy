/** Encoding bytes as Base58 text and back. */
module Base58Text {
  import opened Powers
  import opened Radix
  import opened Base58Sizes
  import opened Base58

  /** All digits and letters but "0", "I", "O" and "l". */
  const ALPHABET := "123456789" + "ABCDEFGH" + "JKLMN" + "PQRSTUVWXYZ" + "abcdefghijk" + "mnopqrstuvwxyz"

  /** The digit a character stands for, or -1; the table is the inverse of the alphabet. */
  function DigitOf(c: char): (r: int)
    ensures -1 <= r < 58
  {
    if '1' <= c <= '9' then c as int - '1' as int
    else if 'A' <= c <= 'H' then c as int - 'A' as int + 9
    else if 'J' <= c <= 'N' then c as int - 'J' as int + 17
    else if 'P' <= c <= 'Z' then c as int - 'P' as int + 22
    else if 'a' <= c <= 'k' then c as int - 'a' as int + 33
    else if 'm' <= c <= 'z' then c as int - 'm' as int + 44
    else -1
  }

  predicate IsSpace(c: char) {
    c == ' ' || c == 12 as char || c == '\n' || c == '\r' || c == '\t' || c == 11 as char
  }

  ghost predicate Names(c: char, d: nat) { DigitOf(c) == d && !IsSpace(c) && (c == '1' <==> d == 0) }

  lemma AlphabetDigits(d: nat)
    requires 0 <= d < 9
    ensures Names(ALPHABET[d], d)
  {
  }

  lemma AlphabetA(d: nat)
    requires 9 <= d < 17
    ensures Names(ALPHABET[d], d)
  {
  }

  lemma AlphabetJ(d: nat)
    requires 17 <= d < 22
    ensures Names(ALPHABET[d], d)
  {
  }

  lemma AlphabetP(d: nat)
    requires 22 <= d < 33
    ensures Names(ALPHABET[d], d)
  {
  }

  lemma AlphabetLower(d: nat)
    requires 33 <= d < 44
    ensures Names(ALPHABET[d], d)
  {
  }

  lemma AlphabetM(d: nat)
    requires 44 <= d < 58
    ensures Names(ALPHABET[d], d)
  {
  }

  /** Every digit's character stands for that digit. */
  lemma AlphabetNames(d: nat)
    requires d < 58
    ensures Names(ALPHABET[d], d)
  {
    hide Names;
    if d < 9 { AlphabetDigits(d); }
    else if d < 17 { AlphabetA(d); }
    else if d < 22 { AlphabetJ(d); }
    else if d < 33 { AlphabetP(d); }
    else if d < 44 { AlphabetLower(d); }
    else { AlphabetM(d); }
  }

  /** No two characters stand for the same digit. */
  lemma DigitOfInjective(a: char, b: char)
    requires DigitOf(a) == DigitOf(b) != -1
    ensures a == b
  {
  }

  predicate AllDigits(s: string) { forall i :: 0 <= i < |s| ==> DigitOf(s[i]) != -1 }

  function Values(s: string): (d: seq<nat>)
    requires AllDigits(s)
    ensures AllBelow(d, 58) && |d| == |s|
  {
    seq(|s|, i requires 0 <= i < |s| => DigitOf(s[i]))
  }

  function Text(d: seq<nat>): string
    requires AllBelow(d, 58)
  {
    seq(|d|, i requires 0 <= i < |d| => ALPHABET[d[i]])
  }

  lemma ValuesOfText(d: seq<nat>)
    requires AllBelow(d, 58)
    ensures AllDigits(Text(d)) && Values(Text(d)) == d && forall i :: 0 <= i < |d| ==> !IsSpace(Text(d)[i])
  {
    hide DigitOf; hide IsSpace;
    forall i | 0 <= i < |d| ensures Names(Text(d)[i], d[i]) { AlphabetNames(d[i]); }
  }

  lemma TextOfValues(s: string)
    requires AllDigits(s)
    ensures Text(Values(s)) == s
  {
    hide DigitOf; hide IsSpace;
    forall i | 0 <= i < |s| ensures ALPHABET[DigitOf(s[i])] == s[i] {
      AlphabetNames(DigitOf(s[i]));
      DigitOfInjective(ALPHABET[DigitOf(s[i])], s[i]);
    }
  }

  // ----- what is computed

  function LeadingZeros(d: seq<nat>): (z: nat)
    ensures z <= |d| && (forall i :: 0 <= i < z ==> d[i] == 0) && (z < |d| ==> d[z] != 0)
  {
    if d == [] || d[0] != 0 then 0 else 1 + LeadingZeros(d[1..])
  }

  function Zeros(n: nat): seq<nat> { seq(n, i => 0) }

  /** The same number in another base; each leading zero stays a zero of its own. */
  function Convert(d: seq<nat>, from: nat, to: nat): seq<nat>
    requires to >= 2
  {
    var z := LeadingZeros(d);
    Zeros(z) + Digits(Num(d[z..], from), to)
  }

  lemma LeadingZerosOf(z: nat, d: seq<nat>)
    requires d != [] ==> d[0] != 0
    ensures LeadingZeros(Zeros(z) + d) == z && (Zeros(z) + d)[z..] == d
  {
    var s := Zeros(z) + d;
    assert s[z..] == d;
  }

  lemma ConvertBelow(d: seq<nat>, from: nat, to: nat)
    requires to >= 2
    ensures AllBelow(Convert(d, from, to), to)
  {
    NumOfDigits(Num(d[LeadingZeros(d)..], from), to);
  }

  /** Converting back gives the digits again. */
  lemma ConvertBack(d: seq<nat>, from: nat, to: nat)
    requires from >= 2 && to >= 2 && AllBelow(d, from)
    ensures Convert(Convert(d, from, to), to, from) == d
  {
    hide Num; hide Digits; hide LeadingZeros;
    var z := LeadingZeros(d);
    var n := Num(d[z..], from);
    NumOfDigits(n, to);
    LeadingZerosOf(z, Digits(n, to));
    DigitsOfNum(d[z..], from);
    assert d == Zeros(z) + d[z..];
  }

  /** Converting keeps the number and how many zeros lead it. */
  lemma ConvertMeans(d: seq<nat>, from: nat, to: nat)
    requires to >= 2
    ensures Num(Convert(d, from, to), to) == Num(d, from)
    ensures LeadingZeros(Convert(d, from, to)) == LeadingZeros(d)
  {
    hide Num; hide Digits; hide LeadingZeros;
    var z := LeadingZeros(d);
    var n := Num(d[z..], from);
    NumOfDigits(n, to);
    LeadingZerosOf(z, Digits(n, to));
    NumLeadingZeros(d, z, from);
    NumLeadingZeros(Convert(d, from, to), z, to);
  }

  /** What `EncodeBase58` returns. */
  function Encoded(v: seq<nat>): string {
    ConvertBelow(v, 256, 58);
    Text(Convert(v, 256, 58))
  }

  /** The bytes Base58 text stands for. */
  function Decoded(t: string): seq<nat>
    requires AllDigits(t)
  {
    Convert(Values(t), 58, 256)
  }

  function TrimLeft(s: string): (t: string)
    ensures t != "" ==> !IsSpace(t[0])
  {
    if s != "" && IsSpace(s[0]) then TrimLeft(s[1..]) else s
  }

  function TrimRight(s: string): (t: string)
    ensures t != "" ==> !IsSpace(t[|t| - 1])
  {
    if s != "" && IsSpace(s[|s| - 1]) then TrimRight(s[..|s| - 1]) else s
  }

  function Trim(s: string): string { TrimRight(TrimLeft(s)) }

  /** When decoding succeeds. */
  predicate Accepted(s: string, maxLen: int) {
    var t := Trim(s);
    AllDigits(t) && (t == "" || |Decoded(t)| <= maxLen)
  }

  /** Decoding an encoding gives the bytes back, whenever they may be returned. */
  lemma DecodeEncode(v: seq<nat>, maxLen: int)
    requires AllBelow(v, 256) && |v| <= maxLen
    ensures Accepted(Encoded(v), maxLen) && Decoded(Trim(Encoded(v))) == v
  {
    hide IsSpace; hide DigitOf; hide Convert;
    ConvertBelow(v, 256, 58);
    ValuesOfText(Convert(v, 256, 58));
    ConvertBack(v, 256, 58);
    assert Trim(Encoded(v)) == Encoded(v);
  }

  /** The text of an encoding is the same number in base 58, with one digit zero for every leading zero byte. */
  lemma EncodedMeans(v: seq<nat>)
    requires AllBelow(v, 256)
    ensures AllDigits(Encoded(v))
    ensures Num(Values(Encoded(v)), 58) == Num(v, 256) && LeadingZeros(Values(Encoded(v))) == LeadingZeros(v)
  {
    hide DigitOf; hide Convert; hide Num; hide LeadingZeros;
    ConvertBelow(v, 256, 58);
    ValuesOfText(Convert(v, 256, 58));
    ConvertMeans(v, 256, 58);
  }

  /** Encoding what was decoded gives the text back without the spaces around it. */
  lemma EncodeDecode(s: string)
    requires AllDigits(Trim(s))
    ensures Encoded(Decoded(Trim(s))) == Trim(s)
  {
    hide IsSpace; hide DigitOf; hide Convert;
    var t := Trim(s);
    ConvertBack(Values(t), 58, 256);
    TextOfValues(t);
  }

  lemma {:induction false} TrimRightCuts(s: string) returns (n: nat)
    ensures n <= |s| && TrimRight(s) == s[..n] && forall i :: n <= i < |s| ==> IsSpace(s[i])
  {
    hide IsSpace;
    if s != "" && IsSpace(s[|s| - 1]) {
      n := TrimRightCuts(s[..|s| - 1]);
    } else {
      n := |s|;
    }
  }

  lemma {:induction false} TrimLeftCuts(s: string) returns (n: nat)
    ensures n <= |s| && TrimLeft(s) == s[n..] && forall i :: 0 <= i < n ==> IsSpace(s[i])
  {
    hide IsSpace;
    if s != "" && IsSpace(s[0]) {
      var m := TrimLeftCuts(s[1..]);
      n := m + 1;
      assert s[1..][m..] == s[n..];
      assert forall i :: 1 <= i < n ==> s[i] == s[1..][i - 1];
    } else {
      n := 0;
    }
  }

  /** Only spaces are trimmed, and no space is left at either end. */
  lemma TrimCuts(s: string) returns (lo: nat, hi: nat)
    ensures lo <= hi <= |s| && Trim(s) == s[lo..hi]
    ensures forall i :: 0 <= i < |s| && !(lo <= i < hi) ==> IsSpace(s[i])
    ensures lo < hi ==> !IsSpace(s[lo]) && !IsSpace(s[hi - 1])
  {
    hide IsSpace; hide TrimLeft; hide TrimRight;
    lo := TrimLeftCuts(s);
    var t := s[lo..];
    var n := TrimRightCuts(t);
    hi := lo + n;
    assert t[..n] == s[lo..hi];
    forall i | hi <= i < |s| ensures IsSpace(s[i]) { assert s[i] == t[i - lo]; }
    if n > 0 { assert t[0] == s[lo] && t[..n][n - 1] == s[hi - 1]; }
  }

  /** A text is accepted as some bytes exactly when it is their encoding, spaces around it aside, and they are not too
      many; no bytes at all are never too many. */
  lemma AcceptedExactly(s: string, maxLen: int, v: seq<nat>)
    requires AllBelow(v, 256)
    ensures Accepted(s, maxLen) && Decoded(Trim(s)) == v <==> Trim(s) == Encoded(v) && (v == [] || |v| <= maxLen)
  {
    hide IsSpace; hide DigitOf; hide Convert; hide Trim;
    ConvertBelow(v, 256, 58);
    ValuesOfText(Convert(v, 256, 58));
    ConvertBack(v, 256, 58);
    EmptyText();
    if AllDigits(Trim(s)) {
      ConvertBack(Values(Trim(s)), 58, 256);
      TextOfValues(Trim(s));
    }
  }

  lemma EmptyText()
    ensures Convert([], 256, 58) == [] && Convert([], 58, 256) == []
  {
  }

  // ----- the encoder

  /** Digits after the leading zeros of a buffer are those of its number. */
  lemma StripZeros(d: seq<nat>, it: nat, b: nat)
    requires b >= 2 && AllBelow(d, b) && it <= |d| && (forall i :: 0 <= i < it ==> d[i] == 0) &&
      (it < |d| ==> d[it] != 0)
    ensures d[it..] == Digits(Num(d, b), b)
  {
    hide Num; hide Digits;
    NumLeadingZeros(d, it, b);
    DigitsOfNum(d[it..], b);
  }

  /** The next number still fits the buffer. */
  lemma Fits(d: seq<nat>, j: nat, from: nat, to: nat, size: nat)
    requires from >= 1 && AllBelow(d, from) && j < |d| && Pow(from, |d|) <= Pow(to, size)
    ensures Num(d[..j + 1], from) == Num(d[..j], from) * from + d[j] && Num(d[..j + 1], from) < Pow(to, size)
  {
    hide Pow; hide Num;
    assert d[..j + 1] == d[..j] + [d[j]];
    NumPush(d[..j], d[j], from);
    NumBound(d[..j + 1], from);
    PowExponent(from, j + 1, |d|);
  }

  lemma EmptyBuffer(d: seq<nat>, b: nat)
    requires b >= 1 && forall i :: 0 <= i < |d| ==> d[i] == 0
    ensures AllBelow(d, b) && ZeroBefore(d, 0) && Num(d, b) == 0 && Num([], b) == 0
  {
    NumLeadingZeros(d, |d|, b);
  }

  /** `EncodeBase58`. */
  method EncodeBase58(v: seq<nat>) returns (str: string)
    requires AllBelow(v, 256)
    ensures str == Encoded(v)
  {
    hide Num; hide Pow; hide Digits; hide ZeroBefore;
    var zeroes := 0;
    while zeroes < |v| && v[zeroes] == 0
      invariant 0 <= zeroes <= |v| && forall i :: 0 <= i < zeroes ==> v[i] == 0
    {
      zeroes := zeroes + 1;
    }
    var rest := v[zeroes..];
    var digits := ToDigits(rest);
    assert zeroes == LeadingZeros(v) by { ZerosAre(v, zeroes); }
    ConvertBelow(v, 256, 58);
    assert digits == Digits(Num(rest, 256), 58);
    str := seq(zeroes, i => '1');
    for i := 0 to |digits|
      invariant str == seq(zeroes, i => '1') + Text(digits[..i])
    {
      str := str + [ALPHABET[digits[i]]];
    }
    assert digits[..|digits|] == digits;
    OnesText(zeroes, digits);
  }

  lemma ZerosAre(d: seq<nat>, z: nat)
    requires z <= |d| && (forall i :: 0 <= i < z ==> d[i] == 0) && (z < |d| ==> d[z] != 0)
    ensures LeadingZeros(d) == z
  {
  }

  lemma OnesText(z: nat, d: seq<nat>)
    requires AllBelow(d, 58)
    ensures AllBelow(Zeros(z) + d, 58) && seq(z, i => '1') + Text(d) == Text(Zeros(z) + d)
  {
    assert ALPHABET[0] == '1';
  }

  /** The base conversion of the encoder. */
  method ToDigits(rest: seq<nat>) returns (digits: seq<nat>)
    requires AllBelow(rest, 256)
    ensures digits == Digits(Num(rest, 256), 58) && AllBelow(digits, 58)
  {
    hide Num; hide Pow; hide Digits; hide ZeroBefore;
    var size := |rest| * 138 / 100 + 1;
    EncoderRoom(|rest|);
    var b58 := new nat[size](_ => 0);
    EmptyBuffer(b58[..], 58);
    var length := 0;
    assert rest[..0] == [];
    assert Num([], 256) == 0 by { EmptyBuffer([], 256); }
    for j := 0 to |rest|
      invariant length <= b58.Length && AllBelow(b58[..], 58) && ZeroBefore(b58[..], length) &&
        Num(b58[..], 58) == Num(rest[..j], 256)
    {
      Fits(rest, j, 256, 58, size);
      length := MultiplyAdd(b58, length, 58, 256, rest[j]);
      assert length <= b58.Length by { WithinBuffer(b58[..], length); }
    }
    assert rest[..|rest|] == rest;
    WithinBuffer(b58[..], length);
    var it := size - length;
    while it < size && b58[it] == 0
      invariant 0 <= it <= size && forall i :: 0 <= i < it ==> b58[i] == 0
    {
      it := it + 1;
    }
    StripZeros(b58[..], it, 58);
    digits := b58[it..];
    assert digits == b58[..][it..];
  }

  lemma WithinBuffer(d: seq<nat>, length: nat)
    requires ZeroBefore(d, length)
    ensures length <= |d| && forall i :: 0 <= i < |d| - length ==> d[i] == 0
  {
  }

  // ----- the decoder

  lemma {:induction false} TrimLeftIs(s: string, p: nat)
    requires p <= |s| && (forall i :: 0 <= i < p ==> IsSpace(s[i])) && (p < |s| ==> !IsSpace(s[p]))
    ensures TrimLeft(s) == s[p..]
    decreases p
  {
    hide IsSpace;
    if p > 0 {
      TrimLeftIs(s[1..], p - 1);
      assert s[1..][p - 1..] == s[p..];
    }
  }

  /** Trimming on the right keeps everything up to the last character that is not a space. */
  lemma {:induction false} TrimRightKeeps(s: string)
    ensures var t := TrimRight(s); |t| <= |s| && t == s[..|t|] && forall i :: |t| <= i < |s| ==> IsSpace(s[i])
  {
    hide IsSpace;
    if s != "" && IsSpace(s[|s| - 1]) { TrimRightKeeps(s[..|s| - 1]); }
  }

  lemma SpaceNoDigit(c: char)
    ensures IsSpace(c) ==> DigitOf(c) == -1
  {
  }

  /** A character that is no digit, in or after the word, spoils the trimmed text. */
  lemma NoDigitInside(s: string, i: nat, j: nat)
    requires i <= j < |s| && DigitOf(s[i]) == -1 && !IsSpace(s[j])
    ensures !AllDigits(TrimRight(s))
  {
    hide IsSpace; hide DigitOf; hide TrimRight;
    TrimRightKeeps(s);
    var t := TrimRight(s);
    assert j < |t| && t[i] == s[i];
  }

  /** A word followed by nothing but spaces is the trimmed text. */
  lemma WordIsTrimmed(s: string, m: nat)
    requires m <= |s| && (m > 0 ==> !IsSpace(s[m - 1])) && forall i :: m <= i < |s| ==> IsSpace(s[i])
    ensures TrimRight(s) == s[..m]
  {
    hide IsSpace;
    TrimRightKeeps(s);
  }

  lemma {:induction false} NumGrows(d: seq<nat>, k: nat, b: nat)
    requires b >= 1 && k <= |d|
    ensures Num(d[..k], b) <= Num(d, b)
    decreases |d|
  {
    if k == |d| {
      assert d[..k] == d;
    } else {
      NumGrows(d[..|d| - 1], k, b);
      assert d[..|d| - 1][..k] == d[..k];
      MulOrder(1, b, Num(d[..|d| - 1], b));
    }
  }

  lemma QuotMonotone(a: nat, c: nat, b: nat)
    requires b >= 2 && a <= c
    ensures Quot(a, b) <= Quot(c, b)
  {
    DivMonotone(a, c, b);
  }

  lemma {:induction false} DigitsLonger(a: nat, c: nat, b: nat)
    requires b >= 2 && a <= c
    ensures |Digits(a, b)| <= |Digits(c, b)|
  {
    hide Quot; hide Rem;
    if a > 0 {
      DivStep(a, b);
      DivStep(c, b);
      QuotMonotone(a, c, b);
      DigitsLonger(Quot(a, b), Quot(c, b), b);
    }
  }

  /** Text beginning with ones, or with ones and then more digits, decodes to at least the bytes seen so far. */
  lemma DecodedAtLeast(t: string, z: nat, j: nat)
    requires AllDigits(t) && z <= j <= |t| && (forall i :: 0 <= i < z ==> t[i] == '1') && (z < j ==> t[z] != '1')
    ensures |Decoded(t)| >= z + |Digits(Num(Values(t)[z..j], 58), 256)|
  {
    hide Num; hide Digits;
    var d := Values(t);
    assert DigitOf('1') == 0;
    var lz := LeadingZeros(d);
    if z < j {
      DigitOfInjectiveOne(t[z]);
      ZerosAre(d, z);
      NumGrows(d[z..], j - z, 58);
      assert d[z..][..j - z] == d[z..j];
      DigitsLonger(Num(d[z..j], 58), Num(d[z..], 58), 256);
    } else {
      assert d[z..j] == [];
      assert Num([], 58) == 0 && Digits(0, 256) == [] by { NoDigits(); }
      assert lz >= z;
    }
  }

  lemma DigitOfInjectiveOne(c: char)
    ensures DigitOf(c) == 0 <==> c == '1'
  {
  }

  lemma NoDigits()
    ensures Num([], 58) == 0 && Num([], 256) == 0 && Digits(0, 256) == [] && Digits(0, 58) == []
  {
  }

  /** The used digits of a buffer are those of its number when they reach its length. */
  lemma UsedDigits(d: seq<nat>, length: nat, b: nat)
    requires b >= 2 && AllBelow(d, b) && ZeroBefore(d, length) && (length > 0 ==> Num(d, b) >= Pow(b, length - 1))
    ensures d[|d| - length..] == Digits(Num(d, b), b)
  {
    hide Num; hide Pow; hide Digits;
    var it := |d| - length;
    NumLeadingZeros(d, it, b);
    if length > 0 { NumReaches(d[it..], b); }
    StripZeros(d, it, b);
  }

  /** `DecodeBase58`: succeeds exactly on accepted text, and then returns the bytes it stands for. */
  method DecodeBase58(s: string, maxLen: int) returns (ok: bool, vch: seq<nat>)
    ensures ok <==> Accepted(s, maxLen)
    ensures ok ==> vch == Decoded(Trim(s))
  {
    hide IsSpace; hide DigitOf; hide Decoded; hide TrimRight; hide TrimLeft;
    vch := [];
    var p := 0;
    while p < |s| && IsSpace(s[p])
      invariant 0 <= p <= |s| && forall i :: 0 <= i < p ==> IsSpace(s[i])
    {
      p := p + 1;
    }
    TrimLeftIs(s, p);
    var text := s[p..];
    var zeroes := 0;
    while zeroes < |text| && text[zeroes] == '1'
      invariant 0 <= zeroes <= |text| && forall i :: 0 <= i < zeroes ==> text[i] == '1'
      invariant zeroes > 0 ==> zeroes <= maxLen
    {
      zeroes := zeroes + 1;
      if zeroes > maxLen {
        OnesAreDigits(text[..zeroes]);
        TooLong(text, zeroes, zeroes, maxLen);
        return false, [];
      }
    }
    var read, m, digits := ReadDigits(text, zeroes, maxLen);
    if !read { return false, []; }
    var q := m;
    while q < |text| && IsSpace(text[q])
      invariant m <= q <= |text| && forall i :: m <= i < q ==> IsSpace(text[i])
    {
      q := q + 1;
    }
    if q != |text| {
      SpaceNoDigit(text[m]);
      NoDigitInside(text, m, q);
      return false, [];
    }
    LastNotSpace(text, m);
    WordIsTrimmed(text, m);
    vch := Zeros(zeroes) + digits;
    WholeWord(text[..m], zeroes);
    return true, vch;
  }

  /** The word begins with exactly these ones. */
  ghost predicate LeadsWith(w: string, z: nat) {
    z <= |w| && (forall i :: 0 <= i < z ==> w[i] == '1') && (z < |w| ==> w[z] != '1')
  }

  ghost predicate Rejected(text: string, maxLen: int) {
    var t := TrimRight(text);
    AllDigits(t) ==> t != "" && |Decoded(t)| > maxLen
  }

  /** The bytes of the digits from z on. */
  ghost function Tail(w: string, z: nat): seq<nat>
    requires AllDigits(w) && z <= |w|
  {
    Digits(Num(Values(w)[z..], 58), 256)
  }

  /** Once the digits read stand for too many bytes, the text is not accepted. */
  lemma TooLong(text: string, z: nat, j: nat, maxLen: int)
    requires 0 < j <= |text| && AllDigits(text[..j]) && LeadsWith(text[..j], z) && z + |Tail(text[..j], z)| > maxLen
    ensures Rejected(text, maxLen)
  {
    hide DigitOf; hide IsSpace; hide Decoded; hide Digits; hide Num; hide TrimRight;
    TrimRightKeeps(text);
    var t := TrimRight(text);
    SpaceNoDigit(text[j - 1]);
    assert text[..j][j - 1] == text[j - 1];
    assert j <= |t|;
    assert t[..j] == text[..j];
    if AllDigits(t) {
      assert forall i :: 0 <= i < z ==> t[i] == text[..j][i];
      DecodedAtLeast(t, z, j);
      assert Values(t)[z..j] == Values(text[..j])[z..];
    }
  }

  lemma OnesAreDigits(w: string)
    requires forall i :: 0 <= i < |w| ==> w[i] == '1'
    ensures AllDigits(w) && LeadsWith(w, |w|) && Tail(w, |w|) == []
  {
  }

  lemma LastNotSpace(text: string, m: nat)
    requires m <= |text| && AllDigits(text[..m])
    ensures m > 0 ==> !IsSpace(text[m - 1])
  {
    hide DigitOf; hide IsSpace;
    if m > 0 { SpaceNoDigit(text[m - 1]); assert text[..m][m - 1] == text[m - 1]; }
  }

  lemma WholeWord(w: string, z: nat)
    requires AllDigits(w) && LeadsWith(w, z)
    ensures Decoded(w) == Zeros(z) + Tail(w, z)
  {
    hide Digits; hide Num; hide DigitOf;
    forall i | 0 <= i < |w| ensures Values(w)[i] == 0 <==> w[i] == '1' { DigitOfInjectiveOne(w[i]); }
    ZerosAre(Values(w), z);
  }

  /** What has been read of the digits, and its number in the buffer. */
  ghost predicate Reading(text: string, z: nat, p: nat, buf: seq<nat>, length: nat) {
    && z <= p <= |text| && AllDigits(text[..p]) && AllBelow(buf, 256) && ZeroBefore(buf, length)
    && Num(buf, 256) == Num(Values(text[..p])[z..], 58) && (length > 0 ==> Num(buf, 256) >= Pow(256, length - 1))
  }

  /** The digit loop of the decoder, up to a space or the end. */
  method ReadDigits(text: string, zeroes: nat, maxLen: int) returns (read: bool, m: nat, digits: seq<nat>)
    requires LeadsWith(text, zeroes) && (zeroes > 0 ==> zeroes <= maxLen)
    ensures !read ==> Rejected(text, maxLen)
    ensures read ==> zeroes <= m <= |text| && AllDigits(text[..m]) && digits == Tail(text[..m], zeroes)
    ensures read ==> (m < |text| ==> IsSpace(text[m])) && (m > 0 ==> zeroes + |digits| <= maxLen)
  {
    hide DigitOf; hide IsSpace; hide Num; hide Pow; hide Digits; hide Rejected; hide Reading; hide ZeroBefore;
    hide AllBelow;
    var size := (|text| - zeroes) * 733 / 1000 + 1;
    var b256 := new nat[size](_ => 0);
    var p, length := zeroes, 0;
    ReadingStarts(text, zeroes, b256[..]);
    while p < |text| && !IsSpace(text[p])
      invariant zeroes <= p <= |text| && Reading(text, zeroes, p, b256[..], length) &&
        (p > 0 ==> zeroes + length <= maxLen)
    {
      var carry := DigitOf(text[p]);
      if carry == -1 {
        NoDigitInside(text, p, p);
        RejectedIf(text, maxLen);
        return false, 0, [];
      }
      ReadingNext(text, zeroes, p, b256[..], length);
      ghost var before := b256[..];
      var longer := MultiplyAdd(b256, length, 256, 58, carry);
      ReadingDone(text, zeroes, p, before, b256[..], length, longer);
      length := longer;
      p := p + 1;
      if length + zeroes > maxLen {
        ReadingDigits(text, zeroes, p, b256[..], length);
        LeadsPrefix(text, zeroes, p);
        TooLong(text, zeroes, p, maxLen);
        return false, 0, [];
      }
    }
    ReadingDigits(text, zeroes, p, b256[..], length);
    m := p;
    digits := b256[size - length..];
    assert digits == b256[..][size - length..];
    read := true;
  }

  lemma RejectedIf(text: string, maxLen: int)
    requires !AllDigits(TrimRight(text))
    ensures Rejected(text, maxLen)
  {
  }

  lemma LeadsPrefix(text: string, z: nat, p: nat)
    requires LeadsWith(text, z) && z <= p <= |text|
    ensures LeadsWith(text[..p], z)
  {
  }

  lemma ReadingStarts(text: string, z: nat, buf: seq<nat>)
    requires LeadsWith(text, z) && forall i :: 0 <= i < |buf| ==> buf[i] == 0
    ensures Reading(text, z, z, buf, 0)
  {
    hide Num; hide Pow;
    EmptyBuffer(buf, 256);
    EmptyBuffer([], 58);
    OnesAreDigits(text[..z]);
    assert Values(text[..z])[z..] == [];
  }

  /** The digits read so far and one more. */
  lemma OneMoreDigit(text: string, z: nat, p: nat)
    requires z <= p < |text| && AllDigits(text[..p]) && DigitOf(text[p]) != -1
    ensures AllDigits(text[..p + 1])
    ensures Values(text[..p + 1])[z..] == Values(text[..p])[z..] + [DigitOf(text[p])]
    ensures AllBelow(Values(text[..p + 1])[z..], 58)
  {
    hide DigitOf; hide AllBelow;
    BelowSlice(Values(text[..p + 1]), z, 58);
  }

  /** Before a digit is added: the buffer has room for the result. */
  lemma ReadingNext(text: string, z: nat, p: nat, buf: seq<nat>, length: nat)
    requires Reading(text, z, p, buf, length) && p < |text| && DigitOf(text[p]) != -1 &&
      |buf| == (|text| - z) * 733 / 1000 + 1
    ensures AllBelow(buf, 256) && ZeroBefore(buf, length) && length <= |buf|
    ensures AllDigits(text[..p + 1])
    ensures Num(buf, 256) * 58 + DigitOf(text[p]) == Num(Values(text[..p + 1])[z..], 58)
    ensures Num(buf, 256) * 58 + DigitOf(text[p]) < Pow(256, |buf|)
  {
    hide Num; hide Pow; hide DigitOf; hide AllBelow; hide Values; hide AllDigits;
    OneMoreDigit(text, z, p);
    var d := Values(text[..p])[z..];
    NumPush(d, DigitOf(text[p]), 58);
    NumBound(d + [DigitOf(text[p])], 58);
    PowExponent(58, p + 1 - z, |text| - z);
    DecoderRoom(|text| - z);
  }

  lemma BelowSlice(d: seq<nat>, z: nat, b: nat)
    requires AllBelow(d, b) && z <= |d|
    ensures AllBelow(d[z..], b)
  {
  }

  lemma ReadingDone(text: string, z: nat, p: nat, before: seq<nat>, after: seq<nat>, length: nat, longer: nat)
    requires Reading(text, z, p, before, length) && p < |text| && AllDigits(text[..p + 1])
    requires AllBelow(after, 256) && ZeroBefore(after, longer) && length <= longer &&
      Num(after, 256) == Num(Values(text[..p + 1])[z..], 58)
    requires Num(before, 256) <= Num(after, 256) && (longer > length ==> Num(after, 256) >= Pow(256, longer - 1))
    ensures Reading(text, z, p + 1, after, longer)
  {
    hide Num; hide Pow; hide AllBelow; hide ZeroBefore; hide DigitOf;
  }

  lemma ReadingDigits(text: string, z: nat, p: nat, buf: seq<nat>, length: nat)
    requires Reading(text, z, p, buf, length)
    ensures AllDigits(text[..p]) && length <= |buf| && buf[|buf| - length..] == Tail(text[..p], z)
  {
    hide Num; hide Pow; hide Digits; hide DigitOf;
    UsedDigits(buf, length, 256);
  }

  // ----- with a checksum

  const INT_MAX := 0x7fff_ffff

  type Hashing = seq<nat> -> seq<nat>

  /** The four checksum bytes of some data. */
  function FourBytes(hash: Hashing, v: seq<nat>): (r: seq<nat>)
    requires |hash(v)| >= 4
    ensures |r| == 4
  {
    hash(v)[..4]
  }

  /** The space allowed for data and checksum together. */
  function Allowance(maxLen: int): int { if maxLen > INT_MAX - 4 then INT_MAX else maxLen + 4 }

  /** Data that ends with its own checksum. */
  ghost predicate Checked(hash: Hashing, d: seq<nat>) {
    |d| >= 4 && |hash(d[..|d| - 4])| >= 4 && FourBytes(hash, d[..|d| - 4]) == d[|d| - 4..]
  }

  /** `EncodeBase58Check`. */
  method EncodeBase58Check(v: seq<nat>, hash: Hashing) returns (str: string)
    requires AllBelow(v, 256) && |hash(v)| >= 4 && AllBelow(FourBytes(hash, v), 256)
    ensures str == Encoded(v + FourBytes(hash, v))
  {
    str := EncodeBase58(v + FourBytes(hash, v));
  }

  /** `DecodeBase58Check`. */
  method DecodeBase58Check(s: string, maxLen: int, hash: Hashing) returns (ok: bool, vch: seq<nat>)
    requires forall v :: |hash(v)| >= 4
    ensures ok <==> Accepted(s, Allowance(maxLen)) && Checked(hash, Decoded(Trim(s)))
    ensures if ok then vch == Decoded(Trim(s))[..|Decoded(Trim(s))| - 4] else vch == []
  {
    hide Decoded; hide DigitOf; hide Trim;
    var decoded;
    ok, decoded := DecodeBase58(s, Allowance(maxLen));
    if !ok || |decoded| < 4 { return false, []; }
    var n := |decoded| - 4;
    if FourBytes(hash, decoded[..n]) != decoded[n..] { return false, []; }
    return true, decoded[..n];
  }

  /** Data with its checksum comes back, and only with its own checksum. */
  lemma CheckedRoundTrip(v: seq<nat>, hash: Hashing, maxLen: int)
    requires AllBelow(v, 256) && |hash(v)| >= 4 && AllBelow(FourBytes(hash, v), 256) && |v| + 4 <= Allowance(maxLen)
    ensures var s := Encoded(v + FourBytes(hash, v));
      Accepted(s, Allowance(maxLen)) && Decoded(Trim(s)) == v + FourBytes(hash, v) &&
        Checked(hash, v + FourBytes(hash, v))
  {
    hide Encoded; hide Decoded; hide DigitOf; hide Trim;
    var d := v + FourBytes(hash, v);
    DecodeEncode(d, Allowance(maxLen));
    assert d[..|v|] == v && d[|v|..] == FourBytes(hash, v);
  }
}
