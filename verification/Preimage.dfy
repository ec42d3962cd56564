/** The byte layout a claim is hashed over, and its decoder. The hash itself stays abstract. */
module ClaimLayout {
  type Byte = b: int | 0 <= b < 256
  type Bytes = seq<Byte>
  type Bytes32 = s: Bytes | |s| == 32 witness seq(32, _ => 0)

  datatype Option<+T> = None | Some(value: T)

  /** What a verifier is asked: source, build image, and flags in submission order. */
  datatype Question = Question(source: Bytes32, image: Bytes32, flags: seq<Bytes>)

  const TWO_32: int := 0x1_0000_0000

  /** "sorofy-claim-v1" */
  const DOMAIN: Bytes := [115, 111, 114, 111, 102, 121, 45, 99, 108, 97, 105, 109, 45, 118, 49]

  /** Big-endian, of the low 32 bits. */
  function U32be(n: nat): (b: Bytes)
    ensures |b| == 4
  {
    [n / 256 / 256 / 256 % 256, n / 256 / 256 % 256, n / 256 % 256, n % 256]
  }

  function FromU32be(b: Bytes): nat
    requires |b| == 4
  {
    var b0: nat, b1: nat, b2: nat, b3: nat := b[0], b[1], b[2], b[3];
    ((b0 * 256 + b1) * 256 + b2) * 256 + b3
  }

  /** Most significant byte first, of the low 32 bits. */
  lemma U32IsBigEndian(n: nat)
    ensures var b := U32be(n); b[0] as int * 16777216 + b[1] as int * 65536 + b[2] as int * 256 + b[3] as int == n % 4294967296
  {
    U32RoundTrip(n);
  }

  lemma U32RoundTrip(n: nat)
    ensures FromU32be(U32be(n)) == n % TWO_32
  {
    var a := n / 256;
    var b := a / 256;
    var c := b / 256;
    assert n == a * 256 + n % 256;
    assert a == b * 256 + a % 256;
    assert b == c * 256 + b % 256;
    assert c == c / 256 * 256 + c % 256;
    LowBits(n, c / 256, FromU32be(U32be(n)));
  }

  lemma LowBits(n: nat, q: nat, r: nat)
    requires n == q * TWO_32 + r && r < TWO_32
    ensures n % TWO_32 == r
  {
  }

  lemma U32Back(b: Bytes)
    requires |b| == 4
    ensures U32be(FromU32be(b)) == b && FromU32be(b) < TWO_32
  {
    var b0: nat, b1: nat, b2: nat, b3: nat := b[0], b[1], b[2], b[3];
    var n := FromU32be(b);
    assert n / 256 == (b0 * 256 + b1) * 256 + b2;
    assert n / 256 / 256 == b0 * 256 + b1;
    assert n / 256 / 256 / 256 == b0;
  }

  function EncodeFlags(flags: seq<Bytes>): Bytes {
    if flags == [] then [] else U32be(|flags[0]|) + flags[0] + EncodeFlags(flags[1..])
  }

  function Preimage(q: Question): Bytes {
    DOMAIN + q.source + q.image + U32be(|q.flags|) + EncodeFlags(q.flags)
  }

  lemma {:induction false} EncodeFlagsAppend(flags: seq<Bytes>, last: Bytes)
    ensures EncodeFlags(flags + [last]) == EncodeFlags(flags) + U32be(|last|) + last
  {
    if flags != [] {
      assert (flags + [last])[1..] == flags[1..] + [last];
      EncodeFlagsAppend(flags[1..], last);
    } else {
      assert EncodeFlags([last]) == U32be(|last|) + last + EncodeFlags([]);
    }
  }

  /** The domain is the text "sorofy-claim-v1". */
  lemma DomainSpelled()
    ensures |DOMAIN| == |"sorofy-claim-v1"| == 15
    ensures forall i | 0 <= i < 15 :: DOMAIN[i] as char == "sorofy-claim-v1"[i]
  {
  }

  /** Where the `i`-th flag begins. */
  function Offset(flags: seq<Bytes>, i: nat): nat
    requires i <= |flags|
  {
    if i == 0 then 83 else Offset(flags, i - 1) + 4 + |flags[i - 1]|
  }

  lemma {:induction false} FlagPlace(head: Bytes, flags: seq<Bytes>, n: nat, i: nat)
    requires |head| == 83 && i < n <= |flags|
    ensures |head + EncodeFlags(flags[..n])| == Offset(flags, n)
    ensures FlagAt(head + EncodeFlags(flags[..n]), flags[i], Offset(flags, i))
    decreases n
  {
    hide U32be, FlagAt;
    var last := flags[n - 1];
    assert flags[..n] == flags[..n - 1] + [last];
    EncodeFlagsAppend(flags[..n - 1], last);
    var before := head + EncodeFlags(flags[..n - 1]);
    assert head + EncodeFlags(flags[..n]) == before + (U32be(|last|) + last);
    if n == 1 {
      assert flags[..0] == [];
      assert before == head;
    } else {
      FlagPlace(head, flags, n - 1, if i < n - 1 then i else 0);
    }
    if i == n - 1 {
      FlagAtEnd(before, last);
    } else {
      FlagStays(before, U32be(|last|) + last, flags[i], Offset(flags, i));
    }
  }

  /** The length of `flag` and then its bytes stand at `at`. */
  predicate FlagAt(p: Bytes, flag: Bytes, at: nat) {
    at + 4 + |flag| <= |p| && p[at..at + 4] == U32be(|flag|) && p[at + 4..at + 4 + |flag|] == flag
  }

  lemma FlagAtEnd(before: Bytes, flag: Bytes)
    ensures FlagAt(before + (U32be(|flag|) + flag), flag, |before|)
  {
    hide U32be;
  }

  lemma FlagStays(p: Bytes, more: Bytes, flag: Bytes, at: nat)
    requires FlagAt(p, flag, at)
    ensures FlagAt(p + more, flag, at)
  {
    hide U32be;
    assert (p + more)[at..at + 4] == p[at..at + 4];
    assert (p + more)[at + 4..at + 4 + |flag|] == p[at + 4..at + 4 + |flag|];
  }

  /** The layout, byte by byte: the domain, the source, the image, the count, and for each flag in order
      its length and its bytes, and nothing more. */
  lemma PreimageLayout(q: Question)
    ensures var p := Preimage(q);
            && |p| == Offset(q.flags, |q.flags|)
            && p[..15] == DOMAIN && p[15..47] == q.source && p[47..79] == q.image && p[79..83] == U32be(|q.flags|)
            && forall i | 0 <= i < |q.flags| :: FlagAt(p, q.flags[i], Offset(q.flags, i))
  {
    hide U32be, EncodeFlags, Offset, FlagAt;
    var p, n := Preimage(q), |q.flags|;
    var head := DOMAIN + q.source + q.image + U32be(n);
    Sections(p, q.source, q.image, U32be(n), EncodeFlags(q.flags));
    assert q.flags[..n] == q.flags && p == head + EncodeFlags(q.flags[..n]);
    forall i | 0 <= i < n
      ensures |p| == Offset(q.flags, n) && FlagAt(p, q.flags[i], Offset(q.flags, i))
    {
      FlagPlace(head, q.flags, n, i);
    }
    if n == 0 {
      NothingEncoded();
      NoOffset(q.flags);
    } else {
      FlagPlace(head, q.flags, n, 0);
    }
  }

  lemma NoOffset(flags: seq<Bytes>)
    ensures Offset(flags, 0) == 83
  {
  }

  // ---- decoding ------------------------------------------------------------------------

  /** Exactly `n` flags, and nothing after them. */
  function DecodeFlags(b: Bytes, n: nat): Option<seq<Bytes>>
    decreases n
  {
    if n == 0 then (if b == [] then Some([]) else None)
    else if |b| < 4 then None
    else
      var len := FromU32be(b[..4]);
      if |b| < 4 + len then None
      else
        match DecodeFlags(b[4 + len..], n - 1)
        case None => None
        case Some(rest) => Some([b[4..4 + len]] + rest)
  }

  function Decode(b: Bytes): Option<Question> {
    if |b| < 83 || b[..15] != DOMAIN then None
    else
      match DecodeFlags(b[83..], FromU32be(b[79..83]))
      case None => None
      case Some(flags) => Some(Question(b[15..47], b[47..79], flags))
  }

  /** Counts and lengths fit the 32 bits they are written in. */
  predicate Fits(flags: seq<Bytes>) {
    |flags| < TWO_32 && forall i | 0 <= i < |flags| :: |flags[i]| < TWO_32
  }

  lemma {:induction false} FlagsDecode(flags: seq<Bytes>)
    requires forall i | 0 <= i < |flags| :: |flags[i]| < TWO_32
    ensures DecodeFlags(EncodeFlags(flags), |flags|) == Some(flags)
  {
    hide U32be, FromU32be;
    if flags != [] {
      var b, len := EncodeFlags(flags), |flags[0]|;
      U32RoundTrip(len);
      assert b[..4] == U32be(len);
      assert b[4..4 + len] == flags[0];
      assert b[4 + len..] == EncodeFlags(flags[1..]);
      FlagsDecode(flags[1..]);
      assert [flags[0]] + flags[1..] == flags;
    }
  }

  lemma {:induction false} FlagsEncode(b: Bytes, n: nat)
    requires DecodeFlags(b, n).Some?
    ensures var flags := DecodeFlags(b, n).value;
            && EncodeFlags(flags) == b && |flags| == n
            && forall i | 0 <= i < n :: |flags[i]| < TWO_32
    decreases n
  {
    hide U32be, FromU32be, EncodeFlags;
    if n == 0 {
      NothingEncoded();
    } else {
      var len := FromU32be(b[..4]);
      U32Back(b[..4]);
      FlagsEncode(b[4 + len..], n - 1);
      EncodeFlagsCons(b[4..4 + len], DecodeFlags(b[4 + len..], n - 1).value);
      assert b == b[..4] + b[4..4 + len] + b[4 + len..];
    }
  }

  lemma NothingEncoded()
    ensures EncodeFlags([]) == []
  {
  }

  lemma EncodeFlagsCons(first: Bytes, rest: seq<Bytes>)
    ensures EncodeFlags([first] + rest) == U32be(|first|) + first + EncodeFlags(rest)
  {
    assert ([first] + rest)[1..] == rest;
  }

  /** The layout is uniquely decodable: the decoder reads a question off exactly the bytes of its
      preimage, and exactly when its count and lengths fit 32 bits. */
  lemma DecodeInvertsPreimage(q: Question, b: Bytes)
    ensures Decode(b) == Some(q) <==> b == Preimage(q) && Fits(q.flags)
  {
    if Fits(q.flags) {
      PreimageDecodes(q);
    }
    if Decode(b) == Some(q) {
      DecodedIsPreimage(b);
    }
  }

  lemma PreimageDecodes(q: Question)
    requires Fits(q.flags)
    ensures Decode(Preimage(q)) == Some(q)
  {
    hide U32be, FromU32be, EncodeFlags, DecodeFlags;
    var p := Preimage(q);
    FlagsDecode(q.flags);
    U32RoundTrip(|q.flags|);
    Sections(p, q.source, q.image, U32be(|q.flags|), EncodeFlags(q.flags));
  }

  lemma Sections(p: Bytes, source: Bytes32, image: Bytes32, count: Bytes, rest: Bytes)
    requires |count| == 4 && p == DOMAIN + source + image + count + rest
    ensures |p| >= 83 && p[..15] == DOMAIN && p[15..47] == source && p[47..79] == image && p[79..83] == count && p[83..] == rest
  {
  }

  lemma DecodedIsPreimage(b: Bytes)
    requires Decode(b).Some?
    ensures Preimage(Decode(b).value) == b && Fits(Decode(b).value.flags)
  {
    hide U32be, FromU32be, EncodeFlags, DecodeFlags;
    U32Back(b[79..83]);
    FlagsEncode(b[83..], FromU32be(b[79..83]));
    assert b == b[..15] + b[15..47] + b[47..79] + b[79..83] + b[83..];
  }

  /** Two different questions never share a preimage. */
  lemma DifferentQuestionsDiffer(q: Question, r: Question)
    requires Fits(q.flags) && Fits(r.flags)
    ensures Preimage(q) == Preimage(r) <==> q == r
  {
    DecodeInvertsPreimage(q, Preimage(q));
    DecodeInvertsPreimage(r, Preimage(r));
  }

  /** The bound is needed: lengths are written modulo 2^32, and a flag of 2^32 zero bytes can trade
      places with an empty one. */
  lemma LongFlagsCollide()
    ensures var long: Bytes := seq(TWO_32, _ => 0);
            var q := Question(seq(32, _ => 0), seq(32, _ => 0), [long, []]);
            var r := Question(seq(32, _ => 0), seq(32, _ => 0), [[], long]);
            q != r && Preimage(q) == Preimage(r)
  {
    var long: Bytes := seq(TWO_32, _ => 0);
    var none: Bytes := [];
    var zero: Bytes := [0, 0, 0, 0];
    assert U32be(|long|) == zero && U32be(|none|) == zero;
    assert [long, none][1..] == [none] && [none, long][1..] == [long];
    assert [none][1..] == [] && [long][1..] == [];
    assert EncodeFlags([none]) == zero;
    assert EncodeFlags([long]) == zero + long;
    assert EncodeFlags([long, none]) == zero + long + zero;
    assert EncodeFlags([none, long]) == zero + none + (zero + long);
    assert zero + long + zero == zero + none + (zero + long);
    assert |[long, none][0]| != |[none, long][0]|;
  }
}

/** Hexadecimal text, read and written. */
module Hex {
  import opened ClaimLayout

  predicate IsHexDigit(c: char) {
    '0' <= c <= '9' || 'a' <= c <= 'f' || 'A' <= c <= 'F'
  }

  predicate IsLowerHex(c: char) {
    '0' <= c <= '9' || 'a' <= c <= 'f'
  }

  function Lower(c: char): char {
    if 'A' <= c <= 'Z' then c - 'A' + 'a' else c
  }

  function LowerAll(s: string): (t: string)
    ensures |t| == |s|
  {
    seq(|s|, i requires 0 <= i < |s| => Lower(s[i]))
  }

  /** The white space and line ends that `trim` strips. */
  predicate IsSpace(c: char) {
    || c == ' ' || '\t' <= c <= '\r'
    || c == '\U{A0}' || c == '\U{1680}' || '\U{2000}' <= c <= '\U{200A}'
    || c == '\U{2028}' || c == '\U{2029}' || c == '\U{202F}' || c == '\U{205F}' || c == '\U{3000}' || c == '\U{FEFF}'
  }

  function TrimStart(s: string): string {
    if s != [] && IsSpace(s[0]) then TrimStart(s[1..]) else s
  }

  function TrimEnd(s: string): string {
    if s != [] && IsSpace(s[|s| - 1]) then TrimEnd(s[..|s| - 1]) else s
  }

  function Trim(s: string): string {
    TrimEnd(TrimStart(s))
  }

  function Digit(c: char): nat
    requires IsHexDigit(c)
  {
    if c <= '9' then (c - '0') as nat
    else if c <= 'F' then (c - 'A') as nat + 10
    else (c - 'a') as nat + 10
  }

  function DigitChar(n: nat): char
    requires n < 16
  {
    if n < 10 then '0' + n as char else 'a' + (n - 10) as char
  }

  predicate IsHex(s: string) {
    |s| % 2 == 0 && forall i | 0 <= i < |s| :: IsHexDigit(s[i])
  }

  function Pair(c: char, d: char): Byte
    requires IsHexDigit(c) && IsHexDigit(d)
  {
    assert Digit(c) < 16 && Digit(d) < 16;
    Digit(c) * 16 + Digit(d)
  }

  /** The bytes an even run of hex digits spells, upper or lower case. */
  function Unhex(s: string): (b: Bytes)
    requires IsHex(s)
    ensures |b| == |s| / 2
  {
    seq(|s| / 2, i requires 0 <= i < |s| / 2 => Pair(s[2 * i], s[2 * i + 1]))
  }

  function ToHex(b: Bytes): (s: string)
    ensures |s| == 2 * |b|
  {
    seq(2 * |b|, i requires 0 <= i < 2 * |b| => DigitChar(if i % 2 == 0 then b[i / 2] / 16 else b[i / 2] % 16))
  }

  lemma DigitsRoundTrip(n: nat, c: char)
    ensures n < 16 ==> IsLowerHex(DigitChar(n)) && Digit(DigitChar(n)) == n
    ensures IsHexDigit(c) ==> Digit(c) < 16 && DigitChar(Digit(c)) == Lower(c)
    ensures IsHexDigit(c) ==> IsLowerHex(Lower(c)) && Digit(Lower(c)) == Digit(c)
  {
  }

  /** The digits that are read, and what lower case does to them. */
  lemma HexDigitsAre(c: char)
    ensures IsHexDigit(c) <==> c in "0123456789abcdefABCDEF"
    ensures Lower('A') == 'a' && Lower('F') == 'f' && Lower('Z') == 'z' && Lower('0') == '0' && Lower('a') == 'a'
    ensures Lower(c) != c ==> 'A' <= c <= 'Z' && (Lower(c) - 'a') as int == (c - 'A') as int
  {
    assert IsHexDigit(c) ==> c in ['0', '1', '2', '3', '4', '5', '6', '7', '8', '9', 'a', 'b', 'c', 'd', 'e', 'f', 'A', 'B', 'C', 'D', 'E', 'F'];
  }

  /** Trimming takes white space off both ends, and stops where there is none. */
  lemma TrimExact(s: string) returns (before: string, after: string)
    ensures s == before + Trim(s) + after && Tight(Trim(s))
    ensures forall c | c in before || c in after :: IsSpace(c)
  {
    before := StartOff(s);
    after := EndOff(TrimStart(s));
  }

  lemma {:induction false} StartOff(s: string) returns (before: string)
    ensures s == before + TrimStart(s) && (forall c | c in before :: IsSpace(c))
    ensures TrimStart(s) != "" ==> !IsSpace(TrimStart(s)[0])
    decreases |s|
  {
    if s != "" && IsSpace(s[0]) {
      before := StartOff(s[1..]);
      before := [s[0]] + before;
    } else {
      before := "";
    }
  }

  lemma {:induction false} EndOff(s: string) returns (after: string)
    ensures s == TrimEnd(s) + after && (forall c | c in after :: IsSpace(c))
    ensures TrimEnd(s) != "" ==> !IsSpace(TrimEnd(s)[|TrimEnd(s)| - 1]) && TrimEnd(s)[0] == s[0]
    decreases |s|
  {
    if s != "" && IsSpace(s[|s| - 1]) {
      after := EndOff(s[..|s| - 1]);
      after := after + [s[|s| - 1]];
    } else {
      after := "";
    }
  }

  /** Each byte is written as its two digits, the high one first, in lower case. */
  lemma HexIsPositional(b: Bytes)
    ensures |ToHex(b)| == 2 * |b|
    ensures forall i | 0 <= i < |b| ::
              ToHex(b)[2 * i] == "0123456789abcdef"[b[i] / 16] && ToHex(b)[2 * i + 1] == "0123456789abcdef"[b[i] % 16]
  {
    forall i | 0 <= i < |b|
      ensures ToHex(b)[2 * i] == "0123456789abcdef"[b[i] / 16] && ToHex(b)[2 * i + 1] == "0123456789abcdef"[b[i] % 16]
    {
      assert (2 * i) / 2 == i && (2 * i + 1) / 2 == i && (2 * i) % 2 == 0 && (2 * i + 1) % 2 == 1;
      DigitCharIs(b[i] / 16);
      DigitCharIs(b[i] % 16);
    }
  }

  lemma DigitCharIs(n: nat)
    requires n < 16
    ensures DigitChar(n) == "0123456789abcdef"[n]
  {
  }

  /** Writing bytes and reading them back gives the bytes. */
  lemma UnhexToHex(b: Bytes)
    ensures IsHex(ToHex(b)) && Unhex(ToHex(b)) == b
  {
    var s := ToHex(b);
    forall i | 0 <= i < |s|
      ensures IsHexDigit(s[i])
    {
      DigitsRoundTrip(if i % 2 == 0 then b[i / 2] / 16 else b[i / 2] % 16, 'a');
    }
    forall i | 0 <= i < |b|
      ensures Unhex(s)[i] == b[i]
    {
      DigitsRoundTrip(b[i] / 16, 'a');
      DigitsRoundTrip(b[i] % 16, 'a');
      assert (2 * i) / 2 == i && (2 * i + 1) / 2 == i;
    }
  }

  /** Reading hex and writing it back gives the lower-case text. */
  lemma ToHexUnhex(s: string)
    requires IsHex(s)
    ensures ToHex(Unhex(s)) == LowerAll(s)
  {
    hide DigitChar, Pair, Lower;
    forall i | 0 <= i < |s|
      ensures ToHex(Unhex(s))[i] == Lower(s[i])
    {
      var k := i / 2;
      PairSplits(s[2 * k], s[2 * k + 1]);
      assert i == 2 * k || i == 2 * k + 1;
    }
  }

  lemma PairSplits(c: char, d: char)
    requires IsHexDigit(c) && IsHexDigit(d)
    ensures DigitChar(Pair(c, d) / 16) == Lower(c) && DigitChar(Pair(c, d) % 16) == Lower(d)
  {
    DigitsRoundTrip(0, c);
    DigitsRoundTrip(0, d);
  }

  lemma LowerKeepsHex(s: string)
    requires IsHex(s)
    ensures IsHex(LowerAll(s)) && Unhex(LowerAll(s)) == Unhex(s)
  {
    var t := LowerAll(s);
    forall i | 0 <= i < |s|
      ensures IsHexDigit(t[i]) && Digit(t[i]) == Digit(s[i])
    {
      DigitsRoundTrip(0, s[i]);
    }
  }

  /** Neither end of `s` is white space. */
  predicate Tight(s: string) {
    s != [] ==> !IsSpace(s[0]) && !IsSpace(s[|s| - 1])
  }

  lemma TrimTight(s: string)
    requires Tight(s)
    ensures Trim(s) == s
  {
  }

  lemma HexIsTight(s: string)
    requires IsHex(s)
    ensures Tight(s)
  {
  }

  /** The browser's reader: trims, lowers, checks every digit, and fills a buffer byte by byte. */
  method FromHex(hex: string, expectedLen: Option<nat>) returns (out: Option<Bytes>)
    ensures var s := Trim(hex);
            out == if IsHex(LowerAll(s)) && (expectedLen.None? || expectedLen.value == |s| / 2) then Some(Unhex(LowerAll(s))) else None
  {
    var s := LowerAll(Trim(hex));
    for i := 0 to |s|
      invariant forall j | 0 <= j < i :: IsHexDigit(s[j])
      invariant s == LowerAll(Trim(hex))
    {
      if !IsLowerHex(s[i]) {
        assert !IsHexDigit(s[i]) by {
          LowerIsLower(Trim(hex)[i]);
        }
        return None;
      }
    }
    if |s| % 2 != 0 {
      return None;
    }
    var buffer := new Byte[|s| / 2];
    for i := 0 to buffer.Length
      invariant buffer[..i] == Unhex(s)[..i]
    {
      buffer[i] := Pair(s[2 * i], s[2 * i + 1]);
    }
    assert buffer[..] == buffer[..buffer.Length] == Unhex(s)[..buffer.Length] == Unhex(s);
    if expectedLen.Some? && expectedLen.value != buffer.Length {
      return None;
    }
    out := Some(buffer[..]);
  }

  lemma LowerIsLower(c: char)
    ensures IsHexDigit(Lower(c)) <==> IsLowerHex(Lower(c))
  {
  }
}

/** The three programs that build the layout, and the ways to the digests they take. */
module ClaimPrograms {
  import opened ClaimLayout
  import opened Hex

  /** A streaming hasher, as the sequence of bytes fed to it. */
  class Hasher {
    var fed: Bytes

    constructor ()
      ensures fed == []
    {
      fed := [];
    }

    method Update(b: Bytes)
      modifies this
      ensures fed == old(fed) + b
    {
      fed := fed + b;
    }

    method Finalize(sha: Bytes -> Bytes32) returns (digest: Bytes32)
      ensures digest == sha(fed)
    {
      digest := sha(fed);
    }
  }

  /** The contract: one buffer, appended to. Its lengths are 32-bit by type. */
  method ClaimInputDigest(sha: Bytes -> Bytes32, q: Question) returns (digest: Bytes32)
    requires Fits(q.flags)
    ensures digest == sha(Preimage(q))
  {
    hide U32be, EncodeFlags, DOMAIN;
    assert EncodeFlags([]) == [] by { NothingEncoded(); }
    var buf := DOMAIN;
    buf := buf + q.source;
    buf := buf + q.image;
    buf := buf + U32be(|q.flags|);
    for i := 0 to |q.flags|
      invariant buf == DOMAIN + q.source + q.image + U32be(|q.flags|) + EncodeFlags(q.flags[..i])
    {
      buf := buf + U32be(|q.flags[i]|);
      buf := buf + q.flags[i];
      EncodeFlagsAppend(q.flags[..i], q.flags[i]);
      assert q.flags[..i + 1] == q.flags[..i] + [q.flags[i]];
    }
    assert q.flags[..|q.flags|] == q.flags;
    digest := sha(buf);
  }

  /** The service: a streaming hasher; lengths are cast to 32 bits. */
  method InputDigest(sha: Bytes -> Bytes32, q: Question) returns (digest: Bytes32)
    ensures digest == sha(Preimage(q))
  {
    hide U32be, EncodeFlags, DOMAIN;
    assert EncodeFlags([]) == [] by { NothingEncoded(); }
    var h := new Hasher();
    h.Update(DOMAIN);
    h.Update(q.source);
    h.Update(q.image);
    CastIsLowBits(|q.flags|);
    h.Update(U32be(|q.flags| % TWO_32));
    for i := 0 to |q.flags|
      invariant h.fed == DOMAIN + q.source + q.image + U32be(|q.flags|) + EncodeFlags(q.flags[..i])
    {
      CastIsLowBits(|q.flags[i]|);
      h.Update(U32be(|q.flags[i]| % TWO_32));
      h.Update(q.flags[i]);
      EncodeFlagsAppend(q.flags[..i], q.flags[i]);
      assert q.flags[..i + 1] == q.flags[..i] + [q.flags[i]];
    }
    assert q.flags[..|q.flags|] == q.flags;
    digest := h.Finalize(sha);
  }

  lemma CastIsLowBits(n: nat)
    ensures U32be(n % TWO_32) == U32be(n)
  {
    U32RoundTrip(n);
    U32RoundTrip(n % TWO_32);
    U32Back(U32be(n));
    U32Back(U32be(n % TWO_32));
  }

  function Flatten(chunks: seq<Bytes>): Bytes {
    if chunks == [] then [] else Flatten(chunks[..|chunks| - 1]) + chunks[|chunks| - 1]
  }

  /** Overwrites the bytes from `at` on. */
  method CopyTo(out: array<Byte>, at: nat, c: Bytes)
    requires at + |c| <= out.Length
    modifies out
    ensures out[..] == old(out[..at]) + c + old(out[at + |c|..])
  {
    for j := 0 to |c|
      invariant out[..at] == old(out[..at]) && out[at + |c|..] == old(out[at + |c|..])
      invariant out[at..at + j] == c[..j]
    {
      out[at + j] := c[j];
      assert out[at..at + j + 1] == out[at..at + j] + [c[j]];
    }
    assert out[..] == out[..at] + out[at..at + |c|] + out[at + |c|..];
  }

  /** Sizes a buffer once and copies every chunk to its place. */
  method Concat(chunks: seq<Bytes>) returns (out: array<Byte>)
    ensures fresh(out) && out[..] == Flatten(chunks)
  {
    var total := 0;
    for i := 0 to |chunks|
      invariant total == |Flatten(chunks[..i])|
    {
      assert chunks[..i + 1][..i] == chunks[..i];
      total := total + |chunks[i]|;
    }
    assert chunks[..|chunks|] == chunks;
    out := new Byte[total];
    var at := 0;
    for i := 0 to |chunks|
      invariant at == |Flatten(chunks[..i])| <= total
      invariant out[..at] == Flatten(chunks[..i])
    {
      FlattenPrefix(chunks, i + 1);
      assert chunks[..i + 1][..i] == chunks[..i];
      var c := chunks[i];
      CopyTo(out, at, c);
      assert out[..at + |c|] == out[..at] + out[at..at + |c|];
      at := at + |c|;
    }
    assert out[..] == out[..at];
  }

  lemma {:induction false} FlattenPrefix(chunks: seq<Bytes>, i: nat)
    requires i <= |chunks|
    ensures |Flatten(chunks[..i])| <= |Flatten(chunks)|
    decreases |chunks|
  {
    if i == |chunks| {
      assert chunks[..i] == chunks;
    } else {
      FlattenPrefix(chunks[..|chunks| - 1], i);
      assert chunks[..|chunks| - 1][..i] == chunks[..i];
    }
  }

  /** The browser: a list of parts from hex text, concatenated. `None` is a thrown error. */
  method BrowserInputDigest(sha: Bytes -> Bytes32, sourceHex: string, imageHex: string, flags: seq<Bytes>) returns (digest: Option<Bytes32>)
    ensures digest == BrowserDigest(sha, sourceHex, imageHex, flags)
  {
    hide U32be, Unhex, Flatten, EncodeFlags, Trim, LowerAll, DOMAIN;
    var source := FromHex(sourceHex, Some(32));
    if source.None? {
      return None;
    }
    var image := FromHex(imageHex, Some(32));
    if image.None? {
      return None;
    }
    var parts := [DOMAIN, source.value, image.value, U32be(|flags|)];
    NothingEncoded();
    FourParts(DOMAIN, source.value, image.value, U32be(|flags|));
    for i := 0 to |flags|
      invariant Flatten(parts) == DOMAIN + source.value + image.value + U32be(|flags|) + EncodeFlags(flags[..i])
    {
      EncodeFlagsAppend(flags[..i], flags[i]);
      assert flags[..i + 1] == flags[..i] + [flags[i]];
      FlattenPush(parts, U32be(|flags[i]|));
      FlattenPush(parts + [U32be(|flags[i]|)], flags[i]);
      assert parts + [U32be(|flags[i]|), flags[i]] == parts + [U32be(|flags[i]|)] + [flags[i]];
      parts := parts + [U32be(|flags[i]|), flags[i]];
    }
    assert flags[..|flags|] == flags;
    var bytes := Concat(parts);
    digest := Some(sha(bytes[..]));
  }

  lemma FlattenPush(chunks: seq<Bytes>, c: Bytes)
    ensures Flatten(chunks + [c]) == Flatten(chunks) + c
  {
    assert (chunks + [c])[..|chunks|] == chunks;
  }

  lemma FourParts(a: Bytes, b: Bytes, c: Bytes, d: Bytes)
    ensures Flatten([a, b, c, d]) == a + b + c + d
  {
    FlattenPush([], a);
    FlattenPush([a], b);
    FlattenPush([a, b], c);
    FlattenPush([a, b, c], d);
    assert [a, b] + [c] == [a, b, c] && [a, b, c] + [d] == [a, b, c, d] && [a] + [b] == [a, b] && [] + [a] == [a];
  }

  function ReadHex32(hex: string): Option<Bytes32> {
    var s := LowerAll(Trim(hex));
    if IsHex(s) && |s| == 64 then Some(Unhex(s)) else None
  }

  function BrowserDigest(sha: Bytes -> Bytes32, sourceHex: string, imageHex: string, flags: seq<Bytes>): Option<Bytes32> {
    match (ReadHex32(sourceHex), ReadHex32(imageHex))
    case (Some(source), Some(image)) => Some(sha(Preimage(Question(source, image, flags))))
    case _ => None
  }

  // ---- from a report to a claim --------------------------------------------------------

  const MARK: string := "@sha256:"

  /** What follows the first mark. */
  function AfterMark(s: string): Option<string> {
    if |s| >= |MARK| && s[..|MARK|] == MARK then Some(s[|MARK|..])
    else if s == [] then None
    else AfterMark(s[1..])
  }

  /** The service's strict reader: hex of either case, nothing around it. */
  function Hex32(s: string): Option<Bytes32> {
    if IsHex(s) && |s| == 64 then Some(Unhex(s)) else None
  }

  datatype Report = Report(imageRef: Option<string>, wasm: string, source: string, rebuilt: string, flags: seq<Bytes>)

  datatype NoClaim = NoImageDigest | Malformed

  datatype Claim = Claim(wasm: Bytes32, digest: Bytes32, rebuilt: Bytes32)

  datatype FromReportResult = Formed(claim: Claim) | Skipped(why: NoClaim)

  function FromReport(sha: Bytes -> Bytes32, r: Report): FromReportResult {
    if r.imageRef.None? then Skipped(NoImageDigest)
    else
      var tail := AfterMark(r.imageRef.value);
      if tail.None? then Skipped(Malformed)
      else
        match (Hex32(tail.value), Hex32(r.wasm), Hex32(r.source), Hex32(r.rebuilt))
        case (Some(image), Some(wasm), Some(source), Some(rebuilt)) =>
          Formed(Claim(wasm, sha(Preimage(Question(source, image, r.flags))), rebuilt))
        case _ => Skipped(Malformed)
  }

  /** The browser's reading of an image reference: a marked one, or a bare digest. */
  function ImageDigestHex(ref: string): Option<string> {
    var s := Trim(ref);
    match AfterMark(s)
    case Some(tail) => Some(LowerAll(tail))
    case None => if |s| == 64 && IsHex(s) then Some(LowerAll(s)) else None
  }

  lemma {:induction false} AfterMarkSkipsSpace(s: string)
    ensures AfterMark(TrimStart(s)) == AfterMark(s)
    decreases |s|
  {
    if s != [] && IsSpace(s[0]) {
      assert |s| >= |MARK| ==> s[..|MARK|][0] == s[0];
      assert MARK[0] == '@';
      AfterMarkSkipsSpace(s[1..]);
    }
  }

  lemma {:induction false} AfterMarkIsASuffix(s: string)
    requires AfterMark(s).Some?
    ensures var tail := AfterMark(s).value;
            |tail| <= |s| && s[|s| - |tail|..] == tail
    decreases |s|
  {
    if !(|s| >= |MARK| && s[..|MARK|] == MARK) {
      AfterMarkIsASuffix(s[1..]);
    }
  }

  lemma StrictIsLenient(s: string)
    requires Hex32(s).Some?
    ensures ReadHex32(s) == Hex32(s) && ReadHex32(LowerAll(s)) == Hex32(s)
  {
    HexIsTight(s);
    TrimTight(s);
    LowerKeepsHex(s);
    HexIsTight(LowerAll(s));
    TrimTight(LowerAll(s));
    LowerKeepsHex(LowerAll(s));
  }

  /** The browser asks about the very claim the service attests: whenever a report forms a claim, the
      browser, from the same reference, source and flags, computes the same digest. */
  lemma BrowserNamesTheAttestedClaim(sha: Bytes -> Bytes32, r: Report)
    requires FromReport(sha, r).Formed?
    ensures var image := ImageDigestHex(r.imageRef.value);
            && image.Some?
            && BrowserDigest(sha, r.source, image.value, r.flags) == Some(FromReport(sha, r).claim.digest)
  {
    var ref := r.imageRef.value;
    var tail := AfterMark(ref).value;
    AfterMarkSkipsSpace(ref);
    AfterMarkIsASuffix(TrimStart(ref));
    HexIsTight(tail);
    var s := TrimStart(ref);
    assert s[|s| - 1] == tail[|tail| - 1];
    assert TrimEnd(s) == s;
    StrictIsLenient(tail);
    StrictIsLenient(r.source);
  }

  /** A report forms a claim exactly when the reference carries a digest and all four fields are
      thirty-two bytes of hex, and it then carries the report's two hashes. */
  lemma FormedMeans(sha: Bytes -> Bytes32, r: Report)
    ensures FromReport(sha, r).Formed? <==>
              && r.imageRef.Some? && AfterMark(r.imageRef.value).Some?
              && Hex32(AfterMark(r.imageRef.value).value).Some?
              && Hex32(r.wasm).Some? && Hex32(r.source).Some? && Hex32(r.rebuilt).Some?
    ensures FromReport(sha, r) == Skipped(NoImageDigest) <==> r.imageRef.None?
    ensures FromReport(sha, r).Formed? ==>
              && ToHex(FromReport(sha, r).claim.wasm) == LowerAll(r.wasm)
              && ToHex(FromReport(sha, r).claim.rebuilt) == LowerAll(r.rebuilt)
    ensures FromReport(sha, r).Formed? ==>
              exists q: Question ::
                && FromReport(sha, r).claim.digest == sha(Preimage(q)) && q.flags == r.flags
                && ToHex(q.source) == LowerAll(r.source) && ToHex(q.image) == LowerAll(AfterMark(r.imageRef.value).value)
  {
    if FromReport(sha, r).Formed? {
      ToHexUnhex(r.wasm);
      ToHexUnhex(r.rebuilt);
      ToHexUnhex(r.source);
      ToHexUnhex(AfterMark(r.imageRef.value).value);
      var q := Question(Unhex(r.source), Unhex(AfterMark(r.imageRef.value).value), r.flags);
      assert FromReport(sha, r).claim.digest == sha(Preimage(q));
    }
  }

  predicate MarkAt(s: string, i: nat) {
    i + 8 <= |s| && s[i..i + 8] == "@sha256:"
  }

  lemma MarkShifts(s: string, i: nat)
    requires s != ""
    ensures MarkAt(s[1..], i) <==> MarkAt(s, i + 1)
  {
    if i + 9 <= |s| {
      assert s[1..][i..i + 8] == s[i + 1..i + 1 + 8];
    }
  }

  /** The digest in a reference is what follows the first mark, and there is none without a mark. */
  lemma {:induction false} MarkExact(s: string)
    ensures match AfterMark(s)
            case Some(tail) => exists i: nat :: MarkAt(s, i) && tail == s[i + 8..] && forall j: nat | j < i :: !MarkAt(s, j)
            case None => forall i: nat :: !MarkAt(s, i)
    decreases |s|
  {
    assert MarkAt(s, 0) <==> |s| >= |MARK| && s[..|MARK|] == MARK by {
      if |s| >= 8 {
        assert s[0..8] == s[..8];
      }
    }
    if MarkAt(s, 0) {
      assert s[|MARK|..] == s[0 + 8..];
    } else if s != "" {
      MarkExact(s[1..]);
      forall i: nat
        ensures MarkAt(s[1..], i) <==> MarkAt(s, i + 1)
      {
        MarkShifts(s, i);
      }
      match AfterMark(s)
      case Some(tail) =>
        var i: nat :| MarkAt(s[1..], i) && tail == s[1..][i + 8..] && forall j: nat | j < i :: !MarkAt(s[1..], j);
        assert tail == s[i + 1 + 8..];
        forall j: nat | j < i + 1
          ensures !MarkAt(s, j)
        {
          assert j > 0 ==> (MarkAt(s[1..], j - 1) <==> MarkAt(s, j - 1 + 1));
        }
        assert MarkAt(s, i + 1);
      case None =>
        forall i: nat
          ensures !MarkAt(s, i)
        {
          assert i > 0 ==> (MarkAt(s[1..], i - 1) <==> MarkAt(s, i - 1 + 1));
        }
    }
  }

  /** The browser's digest is that of the question its texts spell, and its image text is what follows the
      mark, or a bare digest, in lower case; it refuses anything else. */
  lemma BrowserMeans(sha: Bytes -> Bytes32, sourceHex: string, imageHex: string, flags: seq<Bytes>, ref: string)
    ensures var d := BrowserDigest(sha, sourceHex, imageHex, flags);
            && (d.Some? <==> IsHex(LowerAll(Trim(sourceHex))) && |Trim(sourceHex)| == 64 && IsHex(LowerAll(Trim(imageHex))) && |Trim(imageHex)| == 64)
            && (d.Some? ==> d.value == sha(Preimage(Question(Unhex(LowerAll(Trim(sourceHex))), Unhex(LowerAll(Trim(imageHex))), flags))))
    ensures var s := Trim(ref);
            && (AfterMark(s).Some? ==> ImageDigestHex(ref) == Some(LowerAll(AfterMark(s).value)))
            && (AfterMark(s).None? && |s| == 64 && IsHex(s) ==> ImageDigestHex(ref) == Some(LowerAll(s)))
            && (AfterMark(s).None? && !(|s| == 64 && IsHex(s)) ==> ImageDigestHex(ref) == None)
  {
  }
}
