/** The reader as an object that moves through a buffer, and what the event scan does with it. */
module XdrReader {
  import opened ClaimLayout
  import opened Hex
  import opened Xdr
  import P = ClaimPrograms

  /** A method that returns `None` has thrown. */
  class Reader {
    const b: Bytes
    var at: nat

    constructor (bytes: Bytes)
      ensures b == bytes && at == 0
    {
      b := bytes;
      at := 0;
    }

    ghost predicate Valid()
      reads this
    {
      at <= |b| + 3
    }

    method ReadU32() returns (v: Option<nat>)
      requires Valid()
      modifies this
      ensures Valid()
      ensures v == Word(b, old(at)) && (v.Some? ==> at <= |b|)
      ensures at == if v.Some? then old(at) + 4 else old(at)
    {
      if at + 4 > |b| {
        return None;
      }
      v := Some(FromU32be(b[at..at + 4]));
      at := at + 4;
    }

    /** Steps over the padding as well, past the end of the buffer if need be. */
    method ReadBytes(n: nat) returns (v: Option<Bytes>)
      requires Valid()
      modifies this
      ensures Valid()
      ensures v == Run(b, old(at), n)
      ensures at == if v.Some? then old(at) + Padded(n) else old(at)
    {
      if at + n > |b| {
        return None;
      }
      v := Some(b[at..at + n]);
      at := at + Padded(n);
    }

    method ReadCounted() returns (v: Option<Bytes>)
      requires Valid()
      modifies this
      ensures Valid()
      ensures v == Counted(b, old(at))
      ensures v.Some? ==> at == old(at) + 4 + Padded(|v.value|)
    {
      var n := ReadU32();
      if n.None? {
        return None;
      }
      v := ReadBytes(n.value);
    }

    /** One value. The two loops read the items and the entries. */
    method Value(js: Js) returns (v: Option<Native>)
      requires Valid()
      modifies this
      ensures Valid()
      ensures match Parse(js, b, old(at))
              case Fail => v.None?
              case Done(x, end) => v == Some(x) && at == end
      decreases |b| + 3 - at, 1
    {
      hide Word, Counted, Run;
      var start := at;
      var tag := ReadU32();
      if tag.None? {
        return None;
      }
      match tag.value {
        case 3 =>
          var n := ReadU32();
          return if n.Some? then Some(Num(n.value)) else None;
        case 15 =>
          var s := ReadCounted();
          return if s.Some? then Some(Str(js.text(s.value))) else None;
        case 13 =>
          var s := ReadCounted();
          return if s.Some? then Some(Str(ToHex(s.value))) else None;
        case 18 =>
          v := ReadAddress(start);
        case _ =>
          if tag.value != 16 && tag.value != 17 {
            return None;
          }
          var present := ReadU32();
          if present.None? {
            return None;
          }
          if present.value == 0 {
            return Some(if tag.value == 16 then Arr([]) else FRESH);
          }
          var len := ReadU32();
          if len.None? {
            return None;
          }
          if tag.value == 16 {
            v := ReadItems(js, len.value);
          } else {
            v := ReadEntries(js, len.value);
          }
      }
    }

    method ReadAddress(start: nat) returns (v: Option<Native>)
      requires at == start + 4 && at <= |b|
      modifies this
      ensures Valid()
      ensures match ParseAddress(b, start)
              case Fail => v.None?
              case Done(x, end) => v == Some(x) && at == end
    {
      hide Word, Run;
      var kind := ReadU32();
      if kind.None? {
        return None;
      }
      if kind.value == 0 {
        var keyType := ReadU32();
        if keyType.None? {
          return None;
        }
      }
      var key := ReadBytes(32);
      v := if key.Some? then Some(Address(kind.value == 0, ToHex(key.value))) else None;
    }

    method ReadItems(js: Js, len: nat) returns (v: Option<Native>)
      requires Valid()
      modifies this
      ensures Valid()
      ensures match ParseItems(js, b, old(at), len, [])
              case Fail => v.None?
              case Done(x, end) => v == Some(x) && at == end
      decreases |b| + 3 - at, 3
    {
      hide Parse;
      var items: seq<Native> := [];
      for i := 0 to len
        invariant Valid() && at >= old(at)
        invariant ParseItems(js, b, old(at), len, []) == ParseItems(js, b, at, len - i, items)
      {
        var before := at;
        var x := Value(js);
        if x.None? {
          return None;
        }
        items := items + [x.value];
      }
      v := Some(Arr(items));
    }

    method ReadEntries(js: Js, len: nat) returns (v: Option<Native>)
      requires Valid()
      modifies this
      ensures Valid()
      ensures match ParseEntries(js, b, old(at), len, FRESH)
              case Fail => v.None?
              case Done(x, end) => v == Some(x) && at == end
      decreases |b| + 3 - at, 3
    {
      hide Parse;
      var out := FRESH;
      for i := 0 to len
        invariant Valid() && at >= old(at) && out.Obj?
        invariant ParseEntries(js, b, old(at), len, FRESH) == ParseEntries(js, b, at, len - i, out)
      {
        var k := Value(js);
        if k.None? {
          return None;
        }
        var x := Value(js);
        if x.None? {
          return None;
        }
        var name := KeyOf(js, k.value);
        if name.None? {
          return None;
        }
        out := SetKey(out, name.value, x.value);
      }
      v := Some(out);
    }
  }

  /** Decodes one value; reads from the start and ignores what follows. */
  method ReadScVal(js: Js, b: Bytes) returns (v: Option<Native>)
    ensures v == DecodeScVal(js, b)
  {
    var r := new Reader(b);
    v := r.Value(js);
  }

  // ---- the topic a scan filters by -----------------------------------------------------

  /** Writes the topic for a digest into a buffer of forty bytes. */
  method BytesScVal(hex: string) returns (out: Option<Bytes>)
    ensures out.Some? <==> P.ReadHex32(hex).Some?
    ensures out.Some? ==> out.value == Encode(Blob(P.ReadHex32(hex).value))
  {
    var bytes := FromHex(hex, Some(32));
    if bytes.None? {
      return None;
    }
    var buffer := new Byte[40](_ => 0);
    P.CopyTo(buffer, 0, U32be(13));
    P.CopyTo(buffer, 4, U32be(32));
    P.CopyTo(buffer, 8, bytes.value);
    assert buffer[..] == U32be(13) + (U32be(32) + bytes.value);
    out := Some(buffer[..]);
    NoPadding(bytes.value);
  }

  lemma NoPadding(b: Bytes)
    requires |b| == 32
    ensures Encode(Blob(b)) == U32be(13) + (U32be(32) + b)
  {
    var pad: Bytes := seq(Padded(|b|) - |b|, _ => 0);
    assert pad == [];
  }

  /** The reader undoes the topic: it reads back the digest's text, trimmed and in lower case. */
  lemma TopicReadsBack(js: Js, hex: string)
    requires P.ReadHex32(hex).Some?
    ensures DecodeScVal(js, Encode(Blob(P.ReadHex32(hex).value))) == Some(Str(LowerAll(Trim(hex))))
  {
    var s := LowerAll(Trim(hex));
    ToHexUnhex(s);
    LowerTwice(Trim(hex));
    DecodeEncoded(js, Blob(P.ReadHex32(hex).value));
  }

  lemma LowerTwice(s: string)
    ensures LowerAll(LowerAll(s)) == LowerAll(s)
  {
  }

  // ---- from an event to a claim --------------------------------------------------------

  datatype Seen =
    | Unparsable
    | NotAnAttestation
    | Claimed(wasm: string, digest: string, rebuilt: Option<Native>, verifier: Option<string>)

  /** Property lookup, along the prototypes. */
  function Lookup(v: Native, name: string): Option<Native> {
    if !v.Obj? then None
    else if name in v.own then Some(v.own[name])
    else
      match v.proto
      case None => None
      case Some(p) => Lookup(p, name)
  }

  function ClaimFromEvent(js: Js, topics: seq<Bytes>, value: Bytes): Seen {
    if |topics| < 3 then NotAnAttestation
    else
      match DecodeScVal(js, topics[0])
      case None => Unparsable
      case Some(name) =>
        if name != Str(ATTESTED) then NotAnAttestation
        else
          match (DecodeScVal(js, topics[2]), DecodeScVal(js, value))
          case (Some(wasm), Some(body)) =>
            var digest := Lookup(body, INPUT_DIGEST);
            if !wasm.Str? || digest.None? || !digest.value.Str? then NotAnAttestation
            else
              (match DecodeScVal(js, topics[1])
               case None => Unparsable
               case Some(v) =>
                 Claimed(wasm.s, digest.value.s, Lookup(body, REBUILT_HASH), if v.Address? then Some(v.hex) else None))
          case _ => Unparsable
  }

  /** When the scan takes an event for an attestation, and what it reads off it: it has three topics, the
      first is the name, the third and the value's digest are text; these are the claim. */
  lemma ClaimedIff(js: Js, topics: seq<Bytes>, value: Bytes)
    ensures var seen := ClaimFromEvent(js, topics, value);
            && (seen.Claimed? <==>
                  && |topics| >= 3
                  && DecodeScVal(js, topics[0]) == Some(Str(ATTESTED))
                  && DecodeScVal(js, topics[1]).Some?
                  && DecodeScVal(js, topics[2]).Some? && DecodeScVal(js, topics[2]).value.Str?
                  && DecodeScVal(js, value).Some?
                  && Lookup(DecodeScVal(js, value).value, INPUT_DIGEST).Some?
                  && Lookup(DecodeScVal(js, value).value, INPUT_DIGEST).value.Str?)
            && (seen.Claimed? ==>
                  && DecodeScVal(js, topics[2]).value == Str(seen.wasm)
                  && Lookup(DecodeScVal(js, value).value, INPUT_DIGEST).value == Str(seen.digest))
  {
    hide DecodeScVal, Lookup;
    assert ATTESTED == "attested" && INPUT_DIGEST == "input_digest";
  }

  /** Text of seven-bit characters decodes to those characters. */
  ghost predicate PlainText(js: Js) {
    forall b: Bytes | (forall i | 0 <= i < |b| :: b[i] < 128) :: js.text(b) == Chars(b)
  }

  function Chars(b: Bytes): string {
    seq(|b|, i requires 0 <= i < |b| => b[i] as char)
  }

  predicate SevenBit(s: string) {
    forall i | 0 <= i < |s| :: s[i] < 128 as char
  }

  /** The bytes of seven-bit text; anything else becomes a question mark. */
  function TextBytes(s: string): (b: Bytes)
    ensures |b| == |s|
  {
    seq(|s|, i requires 0 <= i < |s| => if s[i] < 128 as char then s[i] as int else 63)
  }

  lemma TextRoundTrip(js: Js, s: string)
    requires PlainText(js) && SevenBit(s)
    ensures js.text(TextBytes(s)) == s
  {
    var b := TextBytes(s);
    assert forall i | 0 <= i < |b| :: b[i] < 128 && b[i] as char == s[i];
    assert Chars(b) == s;
  }

  const ATTESTED: string := "attested"
  const INPUT_DIGEST: string := "input_digest"
  const REBUILT_HASH: string := "rebuilt_hash"

  lemma NamesArePlain()
    ensures SevenBit(ATTESTED) && SevenBit(INPUT_DIGEST) && SevenBit(REBUILT_HASH)
    ensures |ATTESTED| < 100 && |INPUT_DIGEST| < 100 && |REBUILT_HASH| < 100
    ensures INPUT_DIGEST != REBUILT_HASH && INPUT_DIGEST != PROTO && REBUILT_HASH != PROTO
  {
    assert INPUT_DIGEST[0] != REBUILT_HASH[0] && INPUT_DIGEST[0] != PROTO[0] && REBUILT_HASH[0] != PROTO[0];
  }

  /** The topics and the value the registry publishes for an attestation. */
  function AttestedTopics(verifier: ScVal, wasm: Bytes32): seq<Bytes> {
    [Encode(Symbol(TextBytes(ATTESTED))), Encode(verifier), Encode(Blob(wasm))]
  }

  function AttestedEntries(digest: Bytes32, rebuilt: Bytes32): seq<Entry> {
    [Entry(Symbol(TextBytes(INPUT_DIGEST)), Blob(digest)), Entry(Symbol(TextBytes(REBUILT_HASH)), Blob(rebuilt))]
  }

  function AttestedValue(digest: Bytes32, rebuilt: Bytes32): Bytes {
    Encode(Map(AttestedEntries(digest, rebuilt)))
  }

  lemma AttestedIsSmall(digest: Bytes32, rebuilt: Bytes32)
    ensures Small(Map(AttestedEntries(digest, rebuilt)))
  {
    hide ATTESTED, INPUT_DIGEST, REBUILT_HASH;
    NamesArePlain();
    var es := AttestedEntries(digest, rebuilt);
    assert Small(Blob(digest)) && Small(Blob(rebuilt));
    assert Small(es[0].key) && Small(es[1].key);
    assert SmallEntry(es[0]) && SmallEntry(es[1]);
    assert SmallEntries(es[1..][1..]);
    assert SmallEntries(es[1..]);
  }

  lemma AttestedNames(js: Js, digest: Bytes32, rebuilt: Bytes32)
    requires PlainText(js)
    ensures var es := AttestedEntries(digest, rebuilt);
            && NameOf(js, es[0]) == INPUT_DIGEST && NameOf(js, es[1]) == REBUILT_HASH
            && Unique(Names(js, es)) && PROTO !in Names(js, es)
  {
    hide ATTESTED, INPUT_DIGEST, REBUILT_HASH, PROTO, SevenBit, TextBytes, PlainText;
    var es := AttestedEntries(digest, rebuilt);
    NamesArePlain();
    TextRoundTrip(js, INPUT_DIGEST);
    TextRoundTrip(js, REBUILT_HASH);
    TwoNames(js, es, INPUT_DIGEST, REBUILT_HASH);
  }

  lemma TwoNames(js: Js, es: seq<Entry>, a: string, b: string)
    requires |es| == 2 && SymbolKeys(es) && NameOf(js, es[0]) == a && NameOf(js, es[1]) == b
    requires a != b && a != PROTO && b != PROTO
    ensures Unique(Names(js, es)) && PROTO !in Names(js, es)
  {
    hide PROTO;
    assert Names(js, es) == [a, b];
  }

  lemma EntriesReadBack(js: Js, digest: Bytes32, rebuilt: Bytes32)
    requires PlainText(js)
    ensures DecodeScVal(js, AttestedValue(digest, rebuilt)).Some?
    ensures var body := DecodeScVal(js, AttestedValue(digest, rebuilt)).value;
            && Lookup(body, INPUT_DIGEST) == Some(Str(ToHex(digest)))
            && Lookup(body, REBUILT_HASH) == Some(Str(ToHex(rebuilt)))
  {
    hide ToHex, Encode, DecodeScVal, NameOf, TextBytes, Small, ImageEntries, ATTESTED, INPUT_DIGEST, REBUILT_HASH, PROTO;
    var es := AttestedEntries(digest, rebuilt);
    AttestedIsSmall(digest, rebuilt);
    AttestedNames(js, digest, rebuilt);
    DecodeEncoded(js, Map(es));
    assert Image(js, es[0].val) == Some(Str(ToHex(digest))) && Image(js, es[1].val) == Some(Str(ToHex(rebuilt)));
    MapIsWholeIff(js, es);
  }

  /** The first topic of an attestation event as the network carries it: type 15, length 8, the eight
      letters. */
  lemma AttestedTopicOnTheWire()
    ensures Encode(Symbol(TextBytes(ATTESTED))) == [0, 0, 0, 15, 0, 0, 0, 8, 97, 116, 116, 101, 115, 116, 101, 100]
  {
    assert TextBytes(ATTESTED) == [97, 116, 116, 101, 115, 116, 101, 100];
    assert U32be(15) == [0, 0, 0, 15] && U32be(8) == [0, 0, 0, 8];
    assert seq(0, _ => 0) == [];
  }

  /** Every attestation the registry publishes is seen by the scan as exactly the claim, the hash and
      the verifier it was filed with. */
  lemma EventReadsBack(js: Js, verifier: ScVal, wasm: Bytes32, digest: Bytes32, rebuilt: Bytes32)
    requires PlainText(js) && (verifier.Account? || verifier.Contract?)
    ensures ClaimFromEvent(js, AttestedTopics(verifier, wasm), AttestedValue(digest, rebuilt)) ==
            Claimed(ToHex(wasm), ToHex(digest), Some(Str(ToHex(rebuilt))), Some(ToHex(verifier.key)))
  {
    hide Encode, ToHex, AttestedValue, Lookup, ATTESTED, INPUT_DIGEST, REBUILT_HASH, PROTO, SevenBit, TextBytes, PlainText;
    NamesArePlain();
    TextRoundTrip(js, ATTESTED);
    EntriesReadBack(js, digest, rebuilt);
    DecodeEncoded(js, Symbol(TextBytes(ATTESTED)));
    DecodeEncoded(js, verifier);
    DecodeEncoded(js, Blob(wasm));
  }
}
