/** Encoding to and decoding from Bech32 text. */
module Bech32Text {
  import opened Bech32Checksum
  import opened Bech32

  const MAX_LENGTH := 90

  function Chars(v: seq<Symbol>): string { seq(|v|, i requires 0 <= i < |v| => CHARSET[v[i]]) }

  predicate NoUpper(s: string) { forall i :: 0 <= i < |s| ==> !IsUpper(s[i]) }
  predicate AllInRange(s: string) { forall i :: 0 <= i < |s| ==> InRange(s[i]) }
  predicate MixedCase(s: string) {
    (exists i :: 0 <= i < |s| && IsLower(s[i])) && (exists i :: 0 <= i < |s| && IsUpper(s[i]))
  }

  /** What `Encode` returns. */
  function Encoded(e: Encoding, hrp: string, values: seq<Symbol>): string
    requires e != INVALID && Bytes(hrp)
  {
    hrp + "1" + Chars(values + Checksum(e, hrp, values))
  }

  /** The last separator, or -1. */
  function LastOne(s: string): (p: int)
    ensures -1 <= p < |s|
    ensures p >= 0 ==> s[p] == '1'
    ensures forall i :: p < i < |s| ==> s[i] != '1'
  {
    if s == "" then -1 else if s[|s| - 1] == '1' then |s| - 1 else LastOne(s[..|s| - 1])
  }

  predicate AllSymbols(s: string) { forall i :: 0 <= i < |s| ==> CharsetRev(s[i]) != -1 }

  function Symbols(s: string): seq<Symbol>
    requires AllSymbols(s)
  {
    seq(|s|, i requires 0 <= i < |s| => CharsetRev(s[i]))
  }

  /** A decoding; failure is `INVALID` with empty outputs. */
  datatype Decoding = Decoding(encoding: Encoding, hrp: string, values: seq<Symbol>)

  const FAILED := Decoding(INVALID, "", [])

  lemma LowerBytes(s: string)
    requires AllInRange(s)
    ensures Bytes(Lower(s)) && AllInRange(Lower(s)) && NoUpper(Lower(s))
  {
  }

  /** What `Decode` returns. */
  function Decoded(str: string): Decoding {
    var pos := LastOne(str);
    if !AllInRange(str) || MixedCase(str) || |str| > MAX_LENGTH || pos == -1 || pos == 0 || pos + 7 > |str| ||
      !AllSymbols(str[pos + 1..])
    then FAILED
    else
      var hrp, values := Lower(str[..pos]), Symbols(str[pos + 1..]);
      LowerBytes(str[..pos]);
      var result := Verify(hrp, values);
      if result == INVALID then FAILED else Decoding(result, hrp, values[..|values| - 6])
  }

  /** What an encoder may be given. */
  ghost predicate Legal(hrp: string, values: seq<Symbol>) {
    hrp != "" && AllInRange(hrp) && NoUpper(hrp) && |hrp| + 1 + |values| + 6 <= MAX_LENGTH
  }

  lemma SymbolsOfChars(v: seq<Symbol>)
    ensures AllSymbols(Chars(v)) && Symbols(Chars(v)) == v && AllInRange(Chars(v)) && NoUpper(Chars(v))
    ensures forall i :: 0 <= i < |v| ==> Chars(v)[i] != '1'
  {
    hide CharsetRev; hide InRange; hide IsUpper;
    forall i | 0 <= i < |v| ensures StandsFor(Chars(v)[i], v[i]) { CharsetForth(v[i]); }
  }

  lemma LowerSame(s: string)
    requires NoUpper(s)
    ensures Lower(s) == s
  {
  }

  /** Decoding an encoding gives back the encoding, the human-readable part and the values. */
  lemma DecodeEncode(e: Encoding, hrp: string, values: seq<Symbol>)
    requires e != INVALID && Legal(hrp, values)
    ensures Decoded(Encoded(e, hrp, values)) == Decoding(e, hrp, values)
  {
    hide CharsetRev; hide Verify; hide Checksum; hide InRange; hide IsUpper; hide IsLower; hide LowerCase;
    RangeBytes(hrp);
    var all := values + Checksum(e, hrp, values);
    var str := Encoded(e, hrp, values);
    SymbolsOfChars(all);
    Separator();
    assert str[..|hrp|] == hrp && str[|hrp| + 1..] == Chars(all);
    assert AllInRange(str) && NoUpper(str);
    assert LastOne(str) == |hrp| by {
      assert str[|hrp|] == '1';
      assert forall i :: |hrp| < i < |str| ==> str[i] == Chars(all)[i - |hrp| - 1];
    }
    LowerSame(hrp);
    ChecksumCorrect(e, hrp, values);
  }

  lemma RangeBytes(s: string)
    requires AllInRange(s)
    ensures Bytes(s)
  {
  }

  lemma Separator()
    ensures InRange('1') && !IsUpper('1') && LowerCase('1') == '1'
  {
  }

  lemma CharsOfSymbols(s: string)
    requires AllSymbols(s)
    ensures Chars(Symbols(s)) == Lower(s)
  {
    hide CharsetRev; hide LowerCase;
    forall i | 0 <= i < |s| ensures CHARSET[CharsetRev(s[i])] == LowerCase(s[i]) { CharsetBack(s[i]); }
  }

  /** Encoding what was decoded gives back the text in lower case. */
  lemma EncodeDecode(str: string)
    requires Decoded(str).encoding != INVALID
    ensures var d := Decoded(str); Bytes(d.hrp) && NoUpper(d.hrp) && Encoded(d.encoding, d.hrp, d.values) == Lower(str)
  {
    hide CharsetRev; hide Verify; hide Checksum; hide InRange; hide IsUpper; hide IsLower; hide LowerCase;
    var pos := LastOne(str);
    var d := Decoded(str);
    var all := Symbols(str[pos + 1..]);
    LowerBytes(str[..pos]);
    var made := d.values + Checksum(d.encoding, d.hrp, d.values);
    ChecksumCorrect(d.encoding, d.hrp, d.values);
    BurstsDetected(d.hrp, all, made, |d.values|);
    CharsOfSymbols(str[pos + 1..]);
    Separator();
    assert Lower(str) == Lower(str[..pos]) + "1" + Lower(str[pos + 1..]);
  }

  lemma SymbolsOfSame(s: string, t: string)
    requires AllSymbols(s) && AllSymbols(t) && Symbols(s) == Symbols(t)
    ensures Lower(s) == Lower(t)
  {
    hide CharsetRev; hide LowerCase;
    CharsOfSymbols(s);
    CharsOfSymbols(t);
  }

  /** Characters that are the same up to case stand for the same symbol. */
  lemma SameSymbol(c: char, d: char)
    requires LowerCase(c) == LowerCase(d)
    ensures CharsetRev(c) == CharsetRev(d)
  {
    hide CharsetRev;
    LowerSymbol(c);
    LowerSymbol(d);
  }

  lemma LowerSymbol(c: char)
    ensures CharsetRev(LowerCase(c)) == CharsetRev(c)
  {
  }

  /** The tests a text has passed before its checksum is computed. */
  predicate Parses(s: string) {
    var pos := LastOne(s);
    AllInRange(s) && !MixedCase(s) && |s| <= MAX_LENGTH && 0 < pos && pos + 7 <= |s| && AllSymbols(s[pos + 1..])
  }

  lemma AcceptedParses(s: string)
    requires Decoded(s).encoding != INVALID
    ensures Parses(s)
  {
    hide AllSymbols; hide Symbols; hide Verify; hide Lower; hide Bytes; hide MixedCase; hide AllInRange; hide LastOne;
  }

  /** What is known of an accepted text. */
  lemma AcceptedParts(s: string)
    requires Parses(s) && Decoded(s).encoding != INVALID
    ensures Bytes(Lower(s[..LastOne(s)])) && Decoded(s).hrp == Lower(s[..LastOne(s)])
    ensures Verify(Lower(s[..LastOne(s)]), Symbols(s[LastOne(s) + 1..])) == Decoded(s).encoding
  {
    hide AllSymbols; hide Symbols; hide Verify; hide Lower; hide Bytes; hide MixedCase; hide AllInRange; hide LastOne;
    PartInRange(s, LastOne(s));
    LowerBytes(s[..LastOne(s)]);
  }

  lemma PartInRange(s: string, n: nat)
    requires AllInRange(s) && n <= |s|
    ensures AllInRange(s[..n])
  {
    hide InRange;
  }

  lemma LowerParts(s: string, pos: nat)
    requires pos < |s|
    ensures Lower(s) == Lower(s[..pos]) + [LowerCase(s[pos])] + Lower(s[pos + 1..])
  {
    hide LowerCase;
  }

  lemma SymbolsAgree(s: string, t: string, l: nat)
    requires |s| == |t| && AllSymbols(s) && AllSymbols(t) && l < |s| && LowerCase(s[l]) == LowerCase(t[l])
    ensures Symbols(s)[l] == Symbols(t)[l]
  {
    hide CharsetRev; hide LowerCase;
    SameSymbol(s[l], t[l]);
  }

  /** The data parts of two texts, which start at `pos`. */
  lemma DataDetected(hrp: string, s: string, t: string, pos: nat, i: nat, j: nat, k: nat)
    requires Bytes(hrp) && |s| == |t| && AllSymbols(s) && AllSymbols(t) && pos <= i <= j <= k && |s| <= 90
    requires Verify(hrp, Symbols(s)) == Verify(hrp, Symbols(t)) != INVALID
    requires forall l :: 0 <= l < |s| && pos + l != i && pos + l != j && pos + l != k ==>
      LowerCase(s[l]) == LowerCase(t[l])
    ensures Lower(s) == Lower(t)
  {
    hide Verify; hide LowerCase; hide AllSymbols; hide CharsetRev;
    var v, w, n := Symbols(s), Symbols(t), pos + |s|;
    forall l | 0 <= l < |v| && pos + l != i && pos + l != j && pos + l != k ensures v[l] == w[l] {
      SymbolsAgree(s, t, l);
    }
    // places beyond the end of the text do not matter
    ThreeChangesDetected(hrp, v, w, Within(i, n) - pos, Within(j, n) - pos, Within(k, n) - pos);
    SymbolsOfSame(s, t);
  }

  /**
   * Two accepted texts of the same encoding and human-readable part that differ, up to case, in at most three
   * characters of the data part are the same up to case.
   */
  lemma ChangesDetected(s: string, t: string, i: nat, j: nat, k: nat)
    requires Decoded(s).encoding == Decoded(t).encoding != INVALID && |s| == |t|
    requires Decoded(s).hrp == Decoded(t).hrp && LastOne(s) == LastOne(t) < i <= j <= k
    requires forall l :: 0 <= l < |s| && l != i && l != j && l != k ==> LowerCase(s[l]) == LowerCase(t[l])
    ensures Lower(s) == Lower(t)
  {
    hide Decoded; hide Verify; hide LowerCase; hide AllSymbols; hide Symbols; hide Lower; hide Bytes; hide MixedCase;
    hide AllInRange; hide LastOne;
    AcceptedParses(s);
    AcceptedParses(t);
    AcceptedParts(s);
    AcceptedParts(t);
    var pos := LastOne(s);
    DataDetected(Decoded(s).hrp, s[pos + 1..], t[pos + 1..], pos + 1, i, j, k);
    LowerParts(s, pos);
    LowerParts(t, pos);
  }

  function Within(i: nat, n: nat): nat { if i < n then i else n }

  // ----- exactly what is accepted

  lemma LowerOnce(c: char)
    ensures LowerCase(LowerCase(c)) == LowerCase(c) && (InRange(LowerCase(c)) <==> InRange(c))
    ensures LowerCase(c) == '1' <==> c == '1'
  {
  }

  lemma LowerTwice(s: string)
    ensures Lower(Lower(s)) == Lower(s) && (AllInRange(Lower(s)) <==> AllInRange(s))
  {
    hide LowerCase; hide InRange;
    forall i | 0 <= i < |s| ensures LowerCase(LowerCase(s[i])) == LowerCase(s[i]) { LowerOnce(s[i]); }
    forall i | 0 <= i < |s| ensures InRange(Lower(s)[i]) <==> InRange(s[i]) { LowerOnce(s[i]); }
  }

  lemma LowerKeepsLast(s: string)
    ensures LastOne(Lower(s)) == LastOne(s)
  {
    hide LowerCase;
    forall i | 0 <= i < |s| ensures Lower(s)[i] == '1' <==> s[i] == '1' { LowerOnce(s[i]); }
  }

  lemma LowerKeepsSymbols(s: string)
    ensures AllSymbols(Lower(s)) <==> AllSymbols(s)
    ensures AllSymbols(s) ==> Symbols(Lower(s)) == Symbols(s)
  {
    hide CharsetRev; hide LowerCase;
    forall i | 0 <= i < |s| ensures CharsetRev(Lower(s)[i]) == CharsetRev(s[i]) { LowerSymbol(s[i]); }
  }

  lemma LowerNotMixed(s: string)
    ensures !MixedCase(Lower(s)) && NoUpper(Lower(s))
  {
  }

  lemma LowerSlices(s: string, n: nat)
    requires n < |s|
    ensures Lower(s)[..n] == Lower(s[..n]) && Lower(s)[n + 1..] == Lower(s[n + 1..])
  {
    hide LowerCase;
  }

  lemma ParsesLower(s: string)
    requires !MixedCase(s)
    ensures Parses(Lower(s)) <==> Parses(s)
  {
    hide MixedCase; hide AllInRange; hide AllSymbols; hide LastOne; hide LowerCase;
    LowerTwice(s);
    LowerKeepsLast(s);
    LowerNotMixed(s);
    if 0 <= LastOne(s) {
      LowerSlices(s, LastOne(s));
      LowerKeepsSymbols(s[LastOne(s) + 1..]);
    }
  }

  /** What is decoded from a text that parses. */
  function Reading(s: string): Decoding
    requires Parses(s)
  {
    var hrp, values := Lower(s[..LastOne(s)]), Symbols(s[LastOne(s) + 1..]);
    LowerBytes(s[..LastOne(s)]);
    var result := Verify(hrp, values);
    if result == INVALID then FAILED else Decoding(result, hrp, values[..|values| - 6])
  }

  lemma DecodedIs(s: string)
    ensures Decoded(s) == if Parses(s) then Reading(s) else FAILED
  {
    hide AllSymbols; hide Symbols; hide Verify; hide Lower; hide Bytes; hide MixedCase; hide AllInRange; hide LastOne;
  }

  /** Case does not matter, unless it is mixed. */
  lemma DecodedLower(s: string)
    requires !MixedCase(s)
    ensures Decoded(Lower(s)) == Decoded(s)
  {
    hide Decoded; hide AllSymbols; hide Symbols; hide Verify; hide Lower; hide Bytes; hide MixedCase; hide AllInRange;
    hide LastOne;
    DecodedIs(s);
    DecodedIs(Lower(s));
    ParsesLower(s);
    if Parses(s) { ReadingLower(s); }
  }

  lemma ReadingLower(s: string)
    requires Parses(s) && Parses(Lower(s))
    ensures Reading(Lower(s)) == Reading(s)
  {
    hide AllSymbols; hide Symbols; hide Verify; hide Lower; hide Bytes; hide MixedCase; hide AllInRange; hide LastOne;
    LowerKeepsLast(s);
    LowerSlices(s, LastOne(s));
    LowerTwice(s[..LastOne(s)]);
    LowerKeepsSymbols(s[LastOne(s) + 1..]);
  }

  lemma AcceptedLegal(s: string)
    requires Decoded(s).encoding != INVALID
    ensures !MixedCase(s) && Legal(Decoded(s).hrp, Decoded(s).values)
  {
    hide AllSymbols; hide Verify; hide Bytes; hide MixedCase; hide AllInRange; hide LastOne; hide LowerCase;
    hide Decoded; hide NoUpper; hide CharsetRev;
    AcceptedParses(s);
    DecodedIs(s);
    PartInRange(s, LastOne(s));
    LowerBytes(s[..LastOne(s)]);
  }

  /**
   * A text is accepted as an encoding, human-readable part and values exactly when it is theirs up to case, is not
   * of mixed case, and they are ones that may be encoded: a nonempty printable part without capitals, 90 characters
   * in all.
   */
  lemma AcceptedExactly(s: string, e: Encoding, hrp: string, values: seq<Symbol>)
    requires e != INVALID
    ensures Decoded(s) == Decoding(e, hrp, values) <==>
      !MixedCase(s) && Legal(hrp, values) && (RangeBytes(hrp); Lower(s) == Encoded(e, hrp, values))
  {
    hide Decoded; hide Lower; hide MixedCase; hide Encoded; hide AllInRange; hide NoUpper;
    if Decoded(s) == Decoding(e, hrp, values) {
      AcceptedLegal(s);
      EncodeDecode(s);
    }
    if !MixedCase(s) && Legal(hrp, values) {
      RangeBytes(hrp);
      if Lower(s) == Encoded(e, hrp, values) {
        DecodedLower(s);
        DecodeEncode(e, hrp, values);
      }
    }
  }

  // ----- the loops

  method ComputePolyMod(v: seq<Symbol>) returns (c: bv32)
    ensures c == PolyMod(v)
  {
    hide Step; hide Bits;
    c := 1;
    for i := 0 to |v|
      invariant c == Remainder(1, AsBits(v)[..i])
    {
      assert AsBits(v)[..i + 1][..i] == AsBits(v)[..i];
      c := Step(c, Bits(v[i]));
    }
    assert AsBits(v)[..|v|] == AsBits(v);
  }

  method ExpandHrp(hrp: string) returns (ret: seq<Symbol>)
    requires Bytes(hrp)
    ensures ret == Expand(hrp) && |ret| == 2 * |hrp| + 1 && ret[|hrp|] == 0
    ensures forall i :: 0 <= i < |hrp| ==> ret[i] < 8 && 32 * (ret[i] as int) + ret[|hrp| + 1 + i] == hrp[i] as int
  {
    var n := |hrp|;
    ret := seq(2 * n + 1, i => 0);
    for i := 0 to n
      invariant |ret| == 2 * n + 1 && ret[n] == 0
      invariant forall k :: 0 <= k < i ==> ret[k] == hrp[k] as int / 32 && ret[n + 1 + k] == hrp[k] as int % 32
    {
      ret := ret[i := hrp[i] as int / 32][n + 1 + i := hrp[i] as int % 32];
    }
  }

  method CreateChecksum(e: Encoding, hrp: string, values: seq<Symbol>) returns (ret: seq<Symbol>)
    requires e != INVALID && Bytes(hrp)
    ensures ret == Checksum(e, hrp, values)
  {
    hide PolyMod; hide Group; hide SymbolOf; hide Xor; hide Small;
    var enc := ExpandHrp(hrp);
    var polymod := ComputePolyMod(enc + values + [0, 0, 0, 0, 0, 0]);
    var mod := Xor(polymod, Const(e));
    GroupsSmall(mod);
    ret := [];
    for i := 0 to 6
      invariant |ret| == i && forall k :: 0 <= k < i ==> ret[k] == SymbolOf(Groups(mod)[k])
    {
      ret := ret + [SymbolOf(Groups(mod)[i])];
    }
  }

  method Encode(e: Encoding, hrp: string, values: seq<Symbol>) returns (ret: string)
    requires e != INVALID && Bytes(hrp) && NoUpper(hrp)
    ensures ret == Encoded(e, hrp, values)
  {
    hide Checksum;
    var checksum := CreateChecksum(e, hrp, values);
    var combined := values + checksum;
    ret := hrp + "1";
    for i := 0 to |combined|
      invariant ret == hrp + "1" + Chars(combined[..i])
    {
      ret := ret + [CHARSET[combined[i]]];
      assert Chars(combined[..i + 1]) == Chars(combined[..i]) + [CHARSET[combined[i]]];
    }
    assert combined[..|combined|] == combined;
  }

  method Decode(str: string) returns (result: Encoding, outHrp: string, outValues: seq<Symbol>)
    ensures Decoding(result, outHrp, outValues) == Decoded(str)
  {
    hide Verify; hide CharsetRev; hide LowerCase;
    var lower, upper := false, false;
    for i := 0 to |str|
      invariant AllInRange(str[..i])
      invariant lower <==> exists k :: 0 <= k < i && IsLower(str[k])
      invariant upper <==> exists k :: 0 <= k < i && IsUpper(str[k])
    {
      if IsLower(str[i]) {
        lower := true;
      } else if IsUpper(str[i]) {
        upper := true;
      } else if !InRange(str[i]) {
        return INVALID, "", [];
      }
    }
    if lower && upper { return INVALID, "", []; }
    var pos := FindLast(str);
    if |str| > MAX_LENGTH || pos == -1 || pos == 0 || pos + 7 > |str| { return INVALID, "", []; }
    var ok, values := ReadSymbols(str[pos + 1..]);
    if !ok { return INVALID, "", []; }
    var hrp := ReadHrp(str[..pos]);
    LowerBytes(str[..pos]);
    result := VerifyChecksum(hrp, values);
    if result == INVALID { return INVALID, "", []; }
    return result, hrp, values[..|values| - 6];
  }

  method VerifyChecksum(hrp: string, values: seq<Symbol>) returns (e: Encoding)
    requires Bytes(hrp)
    ensures e == Verify(hrp, values)
  {
    var expanded := ExpandHrp(hrp);
    var check := ComputePolyMod(expanded + values);
    if check == BECH32_CONST { return BECH32; }
    if check == BECH32M_CONST { return BECH32M; }
    return INVALID;
  }

  /** `rfind('1')`. */
  method FindLast(s: string) returns (p: int)
    ensures p == LastOne(s)
  {
    p := |s| - 1;
    while p >= 0 && s[p] != '1'
      invariant -1 <= p < |s| && forall i :: p < i < |s| ==> s[i] != '1'
    {
      p := p - 1;
    }
  }

  method ReadSymbols(s: string) returns (ok: bool, values: seq<Symbol>)
    ensures ok <==> AllSymbols(s)
    ensures ok ==> values == Symbols(s)
  {
    hide CharsetRev;
    values := [];
    for i := 0 to |s|
      invariant |values| == i && AllSymbols(s[..i]) && forall k :: 0 <= k < i ==> values[k] == CharsetRev(s[k])
    {
      var rev := CharsetRev(s[i]);
      if rev == -1 { return false, []; }
      values := values + [rev];
    }
    ok := true;
  }

  method ReadHrp(s: string) returns (hrp: string)
    ensures hrp == Lower(s)
  {
    hrp := "";
    for i := 0 to |s|
      invariant |hrp| == i && forall k :: 0 <= k < i ==> hrp[k] == LowerCase(s[k])
    {
      hrp := hrp + [LowerCase(s[i])];
    }
  }
}
