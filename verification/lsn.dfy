/** A PostgreSQL write-ahead-log position (LSN) and its text encodings, as in
    pkg/utils/lsn.go: the fixed-width hex form written by `Hex` and read by
    `ParseHex`, and the canonical `HIGH/LOW` form of PostgreSQL's `pg_lsn` type
    written by `String` and read by `Parse` (both of which the Go code takes
    from the pglogrepl package; here they are defined directly). */
module Lsn {
  import opened Wrappers
  import opened HexText

  const TWO_32: nat := 0x1_0000_0000
  const TWO_64: nat := 0x1_0000_0000_0000_0000

  /** Go's `type LSN uint64`. */
  type LSN = n: nat | n < TWO_64

  type byte = b: nat | b < 256

  /** Position zero means "no position". */
  const InvalidLSN: LSN := 0

  datatype LsnError =
    | HexScanError(input: string)
    | LsnSyntaxError(input: string)
    | YamlDecodeError(cause: string)
    | YamlLsnError(input: string, parseError: LsnError)

  /** The effect of a Go method with a pointer receiver that returns an
      `error`: the receiver after the call and the error, if any. */
  datatype Updated = Updated(receiver: LSN, err: Option<LsnError>)

  lemma Pow16Widths()
    ensures Pow16(8) == TWO_32
    ensures Pow16(16) == TWO_64
  {
    assert Pow16(4) == 0x1_0000;
    assert Pow16(8) == 0x1_0000 * Pow16(4);
    assert Pow16(12) == 0x1_0000 * Pow16(8);
    assert Pow16(16) == 0x1_0000 * Pow16(12);
  }

  lemma {:induction false} Pow16Monotone(j: nat, k: nat)
    requires j <= k
    ensures Pow16(j) <= Pow16(k)
  {
    if j < k {
      Pow16Monotone(j, k - 1);
    }
  }

  // ---------------------------------------------------------------------
  // Validity
  // ---------------------------------------------------------------------

  /** `LSN.IsValid`: only the zero position is invalid, which is the one
      position whose fixed-width hex form is all zeros. */
  function IsValid(l: LSN): (b: bool)
    ensures b <==> l != InvalidLSN
    ensures b <==> Hex(l) != "0000000000000000"
  {
    ZeroHex();
    l != InvalidLSN
  }

  /** The invalid position prints as sixteen zeros. */
  lemma ZeroHex()
    ensures Hex(InvalidLSN) == "0000000000000000"
  {
    PadHexZero(16);
  }

  // ---------------------------------------------------------------------
  // Fixed-width hex form: `%016x`
  // ---------------------------------------------------------------------

  /** Sixteen lowercase hex digits, zero-padded on the left. */
  function Hex(l: LSN): (r: string)
    ensures |r| == 16 && AllLowerHex(r)
    ensures AllHex(r) && Value(r) == l
  {
    PadHexValue(l, 16);
    Pow16Widths();
    assert l % TWO_64 == l;
    PadHex(l, 16)
  }

  /** The inputs on which `Sscanf(s, "%016x", ...)` reads the whole string:
      one to sixteen hex digits of either case. */
  predicate IsHexNumeral(s: string) {
    1 <= |s| <= 16 && AllHex(s)
  }

  /** The scan `ParseHex` performs, restricted to whole-string matches. */
  function ScanHex(s: string): (r: Result<LSN, LsnError>)
    ensures r.Success? <==> IsHexNumeral(s)
    ensures r.Success? ==> r.value == Value(s)
    ensures r.Failure? ==> r.error == HexScanError(s)
  {
    if IsHexNumeral(s) then
      ValueBound(s);
      Pow16Monotone(|s|, 16);
      Pow16Widths();
      Success(Value(s))
    else
      Failure(HexScanError(s))
  }

  /** `(*LSN).ParseHex`: the receiver is overwritten only after a successful scan. */
  function ParseHex(recv: LSN, s: string): (r: Updated)
    ensures r.err.None? <==> IsHexNumeral(s)
    ensures r.err.Some? ==> r.receiver == recv
    ensures r.err.None? ==> r.receiver == Value(s)
  {
    match ScanHex(s)
    case Success(v) => Updated(v, None)
    case Failure(e) => Updated(recv, Some(e))
  }

  // ---------------------------------------------------------------------
  // Canonical form: `%X/%X` of the high and low 32 bits
  // ---------------------------------------------------------------------

  /** The index of the first '/' in `s`, if there is one. */
  function Slash(s: string): (r: Option<nat>)
    ensures r.Some? ==> r.value < |s| && s[r.value] == '/'
    ensures r.Some? ==> forall i :: 0 <= i < r.value ==> s[i] != '/'
    ensures r.None? ==> forall i :: 0 <= i < |s| ==> s[i] != '/'
  {
    if s == [] then None
    else if s[0] == '/' then Some(0)
    else match Slash(s[1..])
      case None => None
      case Some(k) => Some(k + 1)
  }

  /** One half of the canonical form as accepted here: one to eight hex digits. */
  predicate IsHalf(g: string) {
    1 <= |g| <= 8 && AllHex(g)
  }

  /** Well-formed canonical text: two halves around the first '/'. */
  predicate IsLsnText(s: string) {
    match Slash(s)
    case None => false
    case Some(k) => IsHalf(s[..k]) && IsHalf(s[k + 1..])
  }

  /** `s` shows `hi` and `lo` exactly as `%X/%X` prints them: uppercase, no
      leading zeros, separated by a single '/'. */
  predicate ShowsHalves(s: string, hi: nat, lo: nat) {
    match Slash(s)
    case None => false
    case Some(k) =>
      && IsCanonicalUpper(s[..k]) && AllHex(s[..k]) && Value(s[..k]) == hi
      && IsCanonicalUpper(s[k + 1..]) && AllHex(s[k + 1..]) && Value(s[k + 1..]) == lo
  }

  /** Text exactly as `String` prints some position. */
  predicate IsCanonicalLsnText(s: string) {
    match Slash(s)
    case None => false
    case Some(k) =>
      && IsCanonicalUpper(s[..k]) && |s[..k]| <= 8
      && IsCanonicalUpper(s[k + 1..]) && |s[k + 1..]| <= 8
  }

  /** The first '/' of `a + "/" + b` is the one between them when `a` has none. */
  lemma {:induction false} SlashAfter(a: string, b: string)
    requires forall i :: 0 <= i < |a| ==> a[i] != '/'
    ensures Slash(a + "/" + b) == Some(|a|)
  {
    if a == [] {
      assert (a + "/" + b)[0] == '/';
    } else {
      assert (a + "/" + b)[0] == a[0];
      assert (a + "/" + b)[1..] == a[1..] + "/" + b;
      SlashAfter(a[1..], b);
    }
  }

  /** `pglogrepl.LSN.String`: upper half, '/', lower half, each `%X`. */
  function String(l: LSN): (r: string)
    ensures ShowsHalves(r, l / TWO_32, l % TWO_32)
    ensures IsCanonicalLsnText(r)
    ensures 3 <= |r| <= 17
  {
    var hi := UpperHex(l / TWO_32);
    var lo := UpperHex(l % TWO_32);
    Pow16Widths();
    UpperHexShape(l / TWO_32, 8);
    UpperHexShape(l % TWO_32, 8);
    UpperHexValue(l / TWO_32);
    UpperHexValue(l % TWO_32);
    SlashAfter(hi, lo);
    var r := hi + "/" + lo;
    assert r[..|hi|] == hi && r[|hi| + 1..] == lo;
    r
  }

  /** `pglogrepl.ParseLSN` on well-formed input: the halves are combined as
      `hi << 32 + lo`. */
  function ScanLsn(s: string): (r: Result<LSN, LsnError>)
    ensures r.Success? <==> IsLsnText(s)
    ensures r.Success? ==> r.value == Value(s[..Slash(s).value]) * TWO_32 + Value(s[Slash(s).value + 1..])
    ensures r.Failure? ==> r.error == LsnSyntaxError(s)
  {
    match Slash(s)
    case None => Failure(LsnSyntaxError(s))
    case Some(k) =>
      var hi := s[..k];
      var lo := s[k + 1..];
      if IsHalf(hi) && IsHalf(lo) then
        ValueBound(hi);
        ValueBound(lo);
        Pow16Monotone(|hi|, 8);
        Pow16Monotone(|lo|, 8);
        Pow16Widths();
        Success(Value(hi) * TWO_32 + Value(lo))
      else
        Failure(LsnSyntaxError(s))
  }

  /** `(*LSN).Parse`: the receiver is overwritten only after a successful parse. */
  function Parse(recv: LSN, s: string): (r: Updated)
    ensures r.err.None? <==> IsLsnText(s)
    ensures r.err.None? ==> r.receiver == Value(s[..Slash(s).value]) * TWO_32 + Value(s[Slash(s).value + 1..])
    ensures r.err.Some? ==> r.receiver == recv && r.err == Some(LsnSyntaxError(s))
  {
    match ScanLsn(s)
    case Success(v) => Updated(v, None)
    case Failure(e) => Updated(recv, Some(e))
  }

  // ---------------------------------------------------------------------
  // YAML and bytes: both reuse the canonical form
  // ---------------------------------------------------------------------

  /** `(*LSN).UnmarshalYAML`. `node` is what the YAML library's `unmarshal`
      callback produced when asked for a string: the string, or its error. */
  function UnmarshalYaml(recv: LSN, node: Result<string, string>): (r: Updated)
    ensures r.err.None? <==> node.Success? && IsLsnText(node.value)
    ensures r.err.None? ==>
      r.receiver == Value(node.value[..Slash(node.value).value]) * TWO_32 + Value(node.value[Slash(node.value).value + 1..])
    ensures r.err.Some? ==> r.receiver == recv
    ensures node.Failure? ==> r.err == Some(YamlDecodeError(node.error))
    ensures node.Success? && r.err.Some? ==> r.err == Some(YamlLsnError(node.value, LsnSyntaxError(node.value)))
  {
    match node
    case Failure(e) => Updated(recv, Some(YamlDecodeError(e)))
    case Success(val) =>
      match ScanLsn(val)
      case Success(v) => Updated(v, None)
      case Failure(e) => Updated(recv, Some(YamlLsnError(val, e)))
  }

  /** `LSN.MarshalYAML`: the node is the canonical string, and unmarshalling
      it into any receiver restores the position. */
  function MarshalYaml(l: LSN): (r: string)
    ensures IsCanonicalLsnText(r)
    ensures forall recv: LSN :: UnmarshalYaml(recv, Success(r)) == Updated(l, None)
  {
    StringRoundTrip(l);
    String(l)
  }

  /** Reads bytes as ASCII characters. */
  function AsciiText(bs: seq<byte>): (s: string)
    ensures |s| == |bs|
  {
    seq(|bs|, i requires 0 <= i < |bs| => bs[i] as char)
  }

  /** `(*LSN).Bytes`: the canonical string's characters, one byte each. */
  function Bytes(l: LSN): (r: seq<byte>)
    ensures |r| == |String(l)|
    ensures forall i :: 0 <= i < |r| ==> r[i] < 128
    ensures AsciiText(r) == String(l)
    ensures ScanLsn(AsciiText(r)) == Success(l)
  {
    var s := String(l);
    CanonicalTextIsAscii(s);
    StringRoundTrip(l);
    var r: seq<byte> := seq(|s|, i requires 0 <= i < |s| => s[i] as nat);
    assert AsciiText(r) == s;
    r
  }

  lemma CanonicalTextIsAscii(s: string)
    requires IsCanonicalLsnText(s)
    ensures forall i :: 0 <= i < |s| ==> (s[i] as nat) < 128
  {
    var k := Slash(s).value;
    assert s == s[..k] + [s[k]] + s[k + 1..];
    forall i | 0 <= i < |s|
      ensures (s[i] as nat) < 128
    {
      if i < k {
        assert s[i] == s[..k][i];
      } else if i > k {
        assert s[i] == s[k + 1..][i - k - 1];
      }
    }
  }

  // ---------------------------------------------------------------------
  // Properties
  // ---------------------------------------------------------------------

  /** Every position's hex form parses back to it, into any receiver. */
  lemma HexRoundTrip(recv: LSN, l: LSN)
    ensures ParseHex(recv, Hex(l)) == Updated(l, None)
  {
  }

  /** Sixteen lowercase digits are the hex form of the position they parse to. */
  lemma HexOfParsed(recv: LSN, s: string)
    requires |s| == 16 && AllLowerHex(s)
    ensures ParseHex(recv, s).err.None?
    ensures Hex(ParseHex(recv, s).receiver) == s
  {
    PadHexOfValue(s);
  }

  /** Input without a single hex digit is rejected and the receiver is kept. */
  lemma ParseHexNoDigits(recv: LSN, s: string)
    requires forall i :: 0 <= i < |s| ==> !IsHexDigit(s[i])
    ensures ParseHex(recv, s) == Updated(recv, Some(HexScanError(s)))
  {
    if s != [] {
      assert !IsHexDigit(s[0]);
    }
  }

  /** The canonical form parses back to the position that printed it. */
  lemma StringRoundTrip(l: LSN)
    ensures ScanLsn(String(l)) == Success(l)
  {
    var s := String(l);
    var k := Slash(s).value;
    Pow16Widths();
    UpperHexShape(l / TWO_32, 8);
    UpperHexShape(l % TWO_32, 8);
    assert IsHalf(s[..k]) && IsHalf(s[k + 1..]);
  }

  /** `Parse` inverts `String` whatever the receiver held. */
  lemma ParseOfString(recv: LSN, l: LSN)
    ensures Parse(recv, String(l)) == Updated(l, None)
  {
    StringRoundTrip(l);
  }

  /** `Parse` also accepts text `String` never prints. Lowercase digits give
      the position whose canonical form is uppercase. */
  lemma ParseAcceptsLowercase()
    ensures Parse(InvalidLSN, "0/1a") == Updated(0x1a, None)
    ensures String(0x1a) == "0/1A"
  {
    var s := "0/1a";
    SlashAfter("0", "1a");
    assert "0" + "/" + "1a" == s;
    assert s[..1] == "0" && s[2..] == "1a";
    assert "1a"[..1] == "1";
    assert UpperHex(0x1a) == UpperHex(1) + "A";
  }

  /** Leading zeros give the position whose canonical form drops them. */
  lemma ParseAcceptsLeadingZeros()
    ensures Parse(InvalidLSN, "00000001/0") == Updated(TWO_32, None)
    ensures String(TWO_32) == "1/0"
  {
    var s := "00000001/0";
    SlashAfter("00000001", "0");
    assert "00000001" + "/" + "0" == s;
    assert s[..8] == "00000001" && s[9..] == "0";
    PaddedOne();
    assert IsLsnText(s);
    assert Value("0") == 0 by {
      assert "0"[..0] == [];
    }
    StringOfOneZero();
  }

  lemma StringOfOneZero()
    ensures String(TWO_32) == "1/0"
  {
    assert TWO_32 / TWO_32 == 1 && TWO_32 % TWO_32 == 0;
  }

  lemma PaddedOne()
    ensures AllHex("00000001") && Value("00000001") == 1
  {
    PadHexZero(7);
    PadHexValue(0, 7);
    assert "00000001"[..7] == PadHex(0, 7);
  }

  /** Conversely, text in canonical form is what `String` prints for the
      position it parses to: `String` and `ScanLsn` are mutually inverse on it. */
  lemma StringOfParsed(s: string)
    requires IsCanonicalLsnText(s)
    ensures ScanLsn(s).Success?
    ensures String(ScanLsn(s).value) == s
  {
    var k := Slash(s).value;
    var hi, lo := s[..k], s[k + 1..];
    AllUpperIsHex(hi);
    AllUpperIsHex(lo);
    assert IsHalf(hi) && IsHalf(lo);
    UpperHexOfValue(hi);
    UpperHexOfValue(lo);
    ValueBound(lo);
    Pow16Monotone(|lo|, 8);
    Pow16Widths();
    var l := ScanLsn(s).value;
    assert l == Value(hi) * TWO_32 + Value(lo);
    ModOfDecomposition(l, TWO_32, Value(hi), Value(lo));
    assert l / TWO_32 == Value(hi);
    assert s == hi + "/" + lo;
  }

  /** The YAML form round-trips into any receiver. */
  lemma YamlRoundTrip(recv: LSN, l: LSN)
    ensures UnmarshalYaml(recv, Success(MarshalYaml(l))) == Updated(l, None)
  {
  }

  /** Different positions have different encodings in both text forms. */
  lemma EncodingsInjective(a: LSN, b: LSN)
    requires a != b
    ensures Hex(a) != Hex(b)
    ensures String(a) != String(b)
  {
    StringRoundTrip(a);
    StringRoundTrip(b);
  }

  /** A position is valid exactly when neither text form shows zero. */
  lemma ValidIffNonzeroText(l: LSN)
    ensures IsValid(l) <==> Hex(l) != "0000000000000000"
    ensures IsValid(l) <==> String(l) != "0/0"
  {
    ZeroHex();
    assert String(InvalidLSN) == "0/0" by {
      assert UpperHex(0) == "0";
    }
    if l != InvalidLSN {
      EncodingsInjective(l, InvalidLSN);
    }
  }
}
