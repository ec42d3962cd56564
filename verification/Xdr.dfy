/** Contract values in their XDR encoding (RFC 4506), the values a script sees, and what the reader
    computes, as functions. */
module Xdr {
  import opened ClaimLayout
  import opened Hex

  /** The shapes the reader covers. A symbol and a byte string carry bytes; a vector or map may be
      absent. */
  datatype ScVal =
    | U32(n: nat)
    | Symbol(text: Bytes)
    | Blob(bytes: Bytes)
    | Account(key: Bytes32)
    | Contract(key: Bytes32)
    | AbsentVec
    | Vec(items: seq<ScVal>)
    | AbsentMap
    | Map(entries: seq<Entry>)

  datatype Entry = Entry(key: ScVal, val: ScVal)

  /** A script value. An object has properties of its own and a prototype, `None` being the default. */
  datatype Native =
    | Num(n: nat)
    | Str(s: string)
    | Address(isAccount: bool, hex: string)
    | Arr(items: seq<Native>)
    | Obj(own: map<string, Native>, proto: Option<Native>)

  /** What the language does and the model does not: decoding text, and turning a value that is not a
      string into a property name, which can fail. */
  datatype Js = Js(text: Bytes -> string, coerce: Native -> Option<string>)

  const PROTO: string := "__proto__"

  const FRESH: Native := Obj(map[], None)

  function KeyOf(js: Js, k: Native): Option<string> {
    if k.Str? then Some(k.s) else js.coerce(k)
  }

  /** `o[k] = v`: the one name that is not stored is the prototype's. */
  function SetKey(o: Native, k: string, v: Native): (o': Native)
    requires o.Obj?
    ensures o'.Obj?
  {
    if k != PROTO then o.(own := o.own[k := v])
    else if v.Arr? || v.Obj? || v.Address? then o.(proto := Some(v))
    else o
  }

  /** Setting a property: any name but the prototype's is stored; that one replaces the prototype if the
      value is an object of any kind, and is dropped if it is not. */
  lemma SetKeyIs(js: Js, o: Native, k: string, v: Native)
    requires o.Obj?
    ensures k != "__proto__" ==> SetKey(o, k, v).own == o.own[k := v] && SetKey(o, k, v).proto == o.proto
    ensures k == "__proto__" ==> SetKey(o, k, v).own == o.own
    ensures k == "__proto__" ==> SetKey(o, k, v).proto == if v.Num? || v.Str? then o.proto else Some(v)
    ensures KeyOf(js, Str(k)) == Some(k) && (!v.Str? ==> KeyOf(js, v) == js.coerce(v))
  {
  }

  // ---- the encoding --------------------------------------------------------------------

  function Padded(n: nat): nat {
    n + (4 - n % 4) % 4
  }

  function Opaque(b: Bytes): Bytes {
    U32be(|b|) + b + seq(Padded(|b|) - |b|, _ => 0)
  }

  function Encode(v: ScVal): Bytes
    decreases v
  {
    match v
    case U32(n) => U32be(3) + U32be(n)
    case Symbol(s) => U32be(15) + Opaque(s)
    case Blob(b) => U32be(13) + Opaque(b)
    case Account(key) => U32be(18) + (U32be(0) + (U32be(0) + key))
    case Contract(key) => U32be(18) + (U32be(1) + key)
    case AbsentVec => U32be(16) + U32be(0)
    case Vec(vs) => U32be(16) + (U32be(1) + (U32be(|vs|) + EncodeAll(vs)))
    case AbsentMap => U32be(17) + U32be(0)
    case Map(es) => U32be(17) + (U32be(1) + (U32be(|es|) + EncodeEntries(es)))
  }

  function EncodeAll(vs: seq<ScVal>): Bytes
    decreases vs
  {
    if vs == [] then [] else Encode(vs[0]) + EncodeAll(vs[1..])
  }

  function EncodeEntries(es: seq<Entry>): Bytes
    decreases es
  {
    if es == [] then [] else EncodeEntry(es[0]) + EncodeEntries(es[1..])
  }

  function EncodeEntry(e: Entry): Bytes
    decreases e
  {
    Encode(e.key) + Encode(e.val)
  }

  /** Every number and length fits 32 bits. */
  predicate Small(v: ScVal)
    decreases v
  {
    match v
    case U32(n) => n < TWO_32
    case Symbol(s) => |s| < TWO_32
    case Blob(b) => |b| < TWO_32
    case Vec(vs) => |vs| < TWO_32 && SmallAll(vs)
    case Map(es) => |es| < TWO_32 && SmallEntries(es)
    case _ => true
  }

  predicate SmallAll(vs: seq<ScVal>)
    decreases vs
  {
    vs == [] || (Small(vs[0]) && SmallAll(vs[1..]))
  }

  predicate SmallEntries(es: seq<Entry>)
    decreases es
  {
    es == [] || (SmallEntry(es[0]) && SmallEntries(es[1..]))
  }

  predicate SmallEntry(e: Entry)
    decreases e
  {
    Small(e.key) && Small(e.val)
  }

  /** The script value `v` stands for; `None` when some map key cannot be a property name. */
  function Image(js: Js, v: ScVal): Option<Native>
    decreases v
  {
    match v
    case U32(n) => Some(Num(n))
    case Symbol(s) => Some(Str(js.text(s)))
    case Blob(b) => Some(Str(ToHex(b)))
    case Account(key) => Some(Address(true, ToHex(key)))
    case Contract(key) => Some(Address(false, ToHex(key)))
    case AbsentVec => Some(Arr([]))
    case Vec(vs) => ImageAll(js, vs, [])
    case AbsentMap => Some(FRESH)
    case Map(es) => ImageEntries(js, es, FRESH)
  }

  function ImageAll(js: Js, vs: seq<ScVal>, done: seq<Native>): Option<Native>
    decreases vs
  {
    if vs == [] then Some(Arr(done))
    else
      match Image(js, vs[0])
      case None => None
      case Some(x) => ImageAll(js, vs[1..], done + [x])
  }

  function ImageEntries(js: Js, es: seq<Entry>, o: Native): Option<Native>
    requires o.Obj?
    decreases es
  {
    if es == [] then Some(o)
    else
      match ImageEntry(js, es[0])
      case None => None
      case Some(f) => ImageEntries(js, es[1..], SetKey(o, f.name, f.val))
  }

  /** A property to be set. */
  datatype Field = Field(name: string, val: Native)

  function ImageEntry(js: Js, e: Entry): Option<Field>
    decreases e
  {
    match Image(js, e.key)
    case None => None
    case Some(k) =>
      match Image(js, e.val)
      case None => None
      case Some(x) =>
        match KeyOf(js, k)
        case None => None
        case Some(name) => Some(Field(name, x))
  }

  // ---- what the reader computes --------------------------------------------------------

  /** A value and the position after it, or a thrown error. */
  datatype Read = Fail | Done(v: Native, at: nat)

  function Word(b: Bytes, at: nat): Option<nat> {
    if at + 4 > |b| then None else Some(FromU32be(b[at..at + 4]))
  }

  /** `n` bytes. The padding behind them is skipped, not read: it may be anything and may be missing. */
  function Run(b: Bytes, at: nat, n: nat): Option<Bytes> {
    if at + n > |b| then None else Some(b[at..at + n])
  }

  function Counted(b: Bytes, at: nat): Option<Bytes> {
    match Word(b, at)
    case None => None
    case Some(n) => Run(b, at + 4, n)
  }

  /** Defined on every byte string: each value read takes at least four bytes. */
  function Parse(js: Js, b: Bytes, at: nat): (r: Read)
    requires at <= |b| + 3
    ensures r.Done? ==> at + 4 <= r.at <= |b| + 3
    decreases |b| + 3 - at, 0, 0
  {
    match Word(b, at)
    case None => Fail
    case Some(tag) =>
      if tag == 3 then
        match Word(b, at + 4)
        case None => Fail
        case Some(n) => Done(Num(n), at + 8)
      else if tag == 15 then
        match Counted(b, at + 4)
        case None => Fail
        case Some(s) => Done(Str(js.text(s)), at + 8 + Padded(|s|))
      else if tag == 13 then
        match Counted(b, at + 4)
        case None => Fail
        case Some(s) => Done(Str(ToHex(s)), at + 8 + Padded(|s|))
      else if tag == 18 then
        ParseAddress(b, at)
      else if tag == 16 || tag == 17 then
        match Word(b, at + 4)
        case None => Fail
        case Some(present) =>
          if present == 0 then Done(if tag == 16 then Arr([]) else FRESH, at + 8)
          else
            match Word(b, at + 8)
            case None => Fail
            case Some(n) =>
              if tag == 16 then ParseItems(js, b, at + 12, n, []) else ParseEntries(js, b, at + 12, n, FRESH)
      else Fail
  }

  function ParseAddress(b: Bytes, at: nat): (r: Read)
    requires at + 4 <= |b|
    ensures r.Done? ==> at + 4 <= r.at <= |b| + 3
  {
    match Word(b, at + 4)
    case None => Fail
    case Some(kind) =>
      if kind == 0 && Word(b, at + 8).None? then Fail
      else
        var from := if kind == 0 then at + 12 else at + 8;
        match Run(b, from, 32)
        case None => Fail
        case Some(key) => Done(Address(kind == 0, ToHex(key)), from + 32)
  }

  function ParseItems(js: Js, b: Bytes, at: nat, n: nat, done: seq<Native>): (r: Read)
    requires at <= |b| + 3
    ensures r.Done? ==> at <= r.at <= |b| + 3
    decreases |b| + 3 - at, 1, n
  {
    if n == 0 then Done(Arr(done), at)
    else
      match Parse(js, b, at)
      case Fail => Fail
      case Done(x, next) => ParseItems(js, b, next, n - 1, done + [x])
  }

  function ParseEntries(js: Js, b: Bytes, at: nat, n: nat, o: Native): (r: Read)
    requires at <= |b| + 3 && o.Obj?
    ensures r.Done? ==> at <= r.at <= |b| + 3
    decreases |b| + 3 - at, 1, n
  {
    if n == 0 then Done(o, at)
    else
      match ParseEntry(js, b, at)
      case NoField => Fail
      case GotField(f, next) => ParseEntries(js, b, next, n - 1, SetKey(o, f.name, f.val))
  }

  datatype ReadField = NoField | GotField(field: Field, at: nat)

  function ParseEntry(js: Js, b: Bytes, at: nat): (r: ReadField)
    requires at <= |b| + 3
    ensures r.GotField? ==> at + 8 <= r.at <= |b| + 3
    decreases |b| + 3 - at, 1, 0
  {
    match Parse(js, b, at)
    case Fail => NoField
    case Done(k, mid) =>
      match Parse(js, b, mid)
      case Fail => NoField
      case Done(x, next) =>
        match KeyOf(js, k)
        case None => NoField
        case Some(name) => GotField(Field(name, x), next)
  }

  // ---- reading back what was encoded ---------------------------------------------------

  /** `e` stands in `b` at `at`. */
  predicate At(b: Bytes, at: nat, e: Bytes) {
    at + |e| <= |b| && b[at..at + |e|] == e
  }

  lemma AtSplits(b: Bytes, at: nat, e: Bytes, f: Bytes)
    requires At(b, at, e + f)
    ensures At(b, at, e) && At(b, at + |e|, f)
  {
    assert b[at..at + |e + f|][..|e|] == e && b[at..at + |e + f|][|e|..] == f;
  }

  lemma WordAt(b: Bytes, at: nat, n: nat)
    requires At(b, at, U32be(n)) && n < TWO_32
    ensures Word(b, at) == Some(n)
  {
    U32RoundTrip(n);
  }

  lemma CountedAt(b: Bytes, at: nat, s: Bytes)
    requires At(b, at, Opaque(s)) && |s| < TWO_32
    ensures Counted(b, at) == Some(s) && |Opaque(s)| == 4 + Padded(|s|)
  {
    var pad: Bytes := seq(Padded(|s|) - |s|, _ => 0);
    AtSplits(b, at, U32be(|s|) + s, pad);
    AtSplits(b, at, U32be(|s|), s);
    WordAt(b, at, |s|);
  }

  /** What the reader makes of `v` where its encoding ends at `end`. */
  function Expected(image: Option<Native>, end: nat): Read {
    match image
    case None => Fail
    case Some(x) => Done(x, end)
  }

  lemma ParseNumber(js: Js, b: Bytes, at: nat, n: nat)
    requires At(b, at, Encode(U32(n))) && n < TWO_32
    ensures Parse(js, b, at) == Done(Num(n), at + |Encode(U32(n))|)
  {
    hide U32be, FromU32be, Word, At;
    AtSplits(b, at, U32be(3), U32be(n));
    WordAt(b, at, 3);
    WordAt(b, at + 4, n);
  }

  /** A symbol or a byte string. */
  lemma ParseText(js: Js, b: Bytes, at: nat, v: ScVal, s: Bytes)
    requires At(b, at, Encode(v)) && |s| < TWO_32 && (v == Symbol(s) || v == Blob(s))
    ensures Parse(js, b, at) == Done(Str(if v.Symbol? then js.text(s) else ToHex(s)), at + |Encode(v)|)
  {
    hide U32be, FromU32be, Word, At, Opaque, Counted, ToHex;
    var tag := if v.Symbol? then 15 else 13;
    AtSplits(b, at, U32be(tag), Opaque(s));
    WordAt(b, at, tag);
    CountedAt(b, at + 4, s);
  }

  lemma ParseAccount(js: Js, b: Bytes, at: nat, key: Bytes32)
    requires At(b, at, Encode(Account(key)))
    ensures Parse(js, b, at) == Done(Address(true, ToHex(key)), at + |Encode(Account(key))|)
  {
    hide U32be, FromU32be, Word, ToHex;
    AtSplits(b, at, U32be(18), U32be(0) + (U32be(0) + key));
    AtSplits(b, at + 4, U32be(0), U32be(0) + key);
    AtSplits(b, at + 8, U32be(0), key);
    WordAt(b, at, 18);
    WordAt(b, at + 4, 0);
    WordAt(b, at + 8, 0);
  }

  lemma ParseContract(js: Js, b: Bytes, at: nat, key: Bytes32)
    requires At(b, at, Encode(Contract(key)))
    ensures Parse(js, b, at) == Done(Address(false, ToHex(key)), at + |Encode(Contract(key))|)
  {
    hide U32be, FromU32be, Word, ToHex;
    AtSplits(b, at, U32be(18), U32be(1) + key);
    AtSplits(b, at + 4, U32be(1), key);
    WordAt(b, at, 18);
    WordAt(b, at + 4, 1);
  }

  lemma ParseLeaf(js: Js, b: Bytes, at: nat, v: ScVal)
    requires At(b, at, Encode(v)) && Small(v)
    requires v.U32? || v.Symbol? || v.Blob? || v.Account? || v.Contract?
    ensures Parse(js, b, at) == Expected(Image(js, v), at + |Encode(v)|)
  {
    hide Encode, Parse, At, ToHex;
    match v
    case U32(n) => ParseNumber(js, b, at, n);
    case Symbol(s) => ParseText(js, b, at, v, s);
    case Blob(s) => ParseText(js, b, at, v, s);
    case Account(key) => ParseAccount(js, b, at, key);
    case Contract(key) => ParseContract(js, b, at, key);
  }

  /** Reading the encoding of a value, wherever it stands, gives the value's image and ends exactly
      behind it; it fails exactly when some map key has no property name. */
  lemma {:induction false} ParseEncoded(js: Js, b: Bytes, at: nat, v: ScVal)
    requires At(b, at, Encode(v)) && Small(v)
    ensures Parse(js, b, at) == Expected(Image(js, v), at + |Encode(v)|)
    decreases v
  {
    hide U32be, FromU32be, Word;
    if v.AbsentVec? || v.AbsentMap? {
      var tag := if v.AbsentVec? then 16 else 17;
      AtSplits(b, at, U32be(tag), U32be(0));
      WordAt(b, at, tag);
      WordAt(b, at + 4, 0);
    } else if v.Vec? {
      var vs := v.items;
      ParseHeader(b, at, 16, |vs|, EncodeAll(vs));
      ParseAllEncoded(js, b, at + 12, vs, []);
    } else if v.Map? {
      var es := v.entries;
      ParseHeader(b, at, 17, |es|, EncodeEntries(es));
      ParseEntriesEncoded(js, b, at + 12, es, FRESH);
    } else {
      ParseLeaf(js, b, at, v);
    }
  }

  lemma ParseHeader(b: Bytes, at: nat, tag: nat, n: nat, rest: Bytes)
    requires At(b, at, U32be(tag) + (U32be(1) + (U32be(n) + rest))) && tag < TWO_32 && n < TWO_32
    ensures Word(b, at) == Some(tag) && Word(b, at + 4) == Some(1) && Word(b, at + 8) == Some(n)
    ensures At(b, at + 12, rest)
  {
    hide U32be, Word;
    AtSplits(b, at, U32be(tag), U32be(1) + (U32be(n) + rest));
    AtSplits(b, at + 4, U32be(1), U32be(n) + rest);
    AtSplits(b, at + 8, U32be(n), rest);
    WordAt(b, at, tag);
    WordAt(b, at + 4, 1);
    WordAt(b, at + 8, n);
  }

  lemma {:induction false} ParseAllEncoded(js: Js, b: Bytes, at: nat, vs: seq<ScVal>, done: seq<Native>)
    requires At(b, at, EncodeAll(vs)) && SmallAll(vs)
    ensures ParseItems(js, b, at, |vs|, done) == Expected(ImageAll(js, vs, done), at + |EncodeAll(vs)|)
    decreases vs
  {
    hide Parse, Image, Encode;
    if vs != [] {
      AtSplits(b, at, Encode(vs[0]), EncodeAll(vs[1..]));
      ParseEncoded(js, b, at, vs[0]);
      match Image(js, vs[0])
      case None =>
      case Some(x) => ParseAllEncoded(js, b, at + |Encode(vs[0])|, vs[1..], done + [x]);
    }
  }

  lemma {:induction false} ParseEntriesEncoded(js: Js, b: Bytes, at: nat, es: seq<Entry>, o: Native)
    requires At(b, at, EncodeEntries(es)) && SmallEntries(es) && o.Obj?
    ensures ParseEntries(js, b, at, |es|, o) == Expected(ImageEntries(js, es, o), at + |EncodeEntries(es)|)
    decreases es
  {
    hide ParseEntry, ImageEntry, EncodeEntry;
    if es != [] {
      var e, n := es[0], |EncodeEntry(es[0])|;
      AtSplits(b, at, EncodeEntry(e), EncodeEntries(es[1..]));
      ParseEntryEncoded(js, b, at, e);
      match ImageEntry(js, e)
      case None =>
      case Some(f) => ParseEntriesEncoded(js, b, at + n, es[1..], SetKey(o, f.name, f.val));
    }
  }

  lemma {:induction false} ParseEntryEncoded(js: Js, b: Bytes, at: nat, e: Entry)
    requires At(b, at, EncodeEntry(e)) && SmallEntry(e)
    ensures ParseEntry(js, b, at) == match ImageEntry(js, e) case None => NoField case Some(f) => GotField(f, at + |EncodeEntry(e)|)
    decreases e
  {
    hide At, Parse, Encode;
    AtSplits(b, at, Encode(e.key), Encode(e.val));
    ParseEncoded(js, b, at, e.key);
    ParseEncoded(js, b, at + |Encode(e.key)|, e.val);
  }

  /** `decodeScVal`, after its base64: one value from the start; what follows it is ignored. */
  function DecodeScVal(js: Js, b: Bytes): Option<Native> {
    match Parse(js, b, 0)
    case Fail => None
    case Done(x, _) => Some(x)
  }

  lemma DecodeEncoded(js: Js, v: ScVal)
    requires Small(v)
    ensures DecodeScVal(js, Encode(v)) == Image(js, v)
    ensures Image(js, v).Some? ==> Parse(js, Encode(v), 0) == Done(Image(js, v).value, |Encode(v)|)
  {
    ParseEncoded(js, Encode(v), 0, v);
  }

  /** The forms on the wire: each type number, address kind, presence flag and length where RFC 4506 and
      the contract value types put them, and zeros up to the next multiple of four. */
  lemma WireLeaves(n: nat, s: Bytes, key: Bytes32)
    ensures Encode(U32(n)) == [0, 0, 0, 3] + U32be(n)
    ensures Encode(Symbol(s)) == [0, 0, 0, 15] + (U32be(|s|) + s + Padding(|s|))
    ensures Encode(Blob(s)) == [0, 0, 0, 13] + (U32be(|s|) + s + Padding(|s|))
    ensures Encode(Account(key)) == [0, 0, 0, 18] + ([0, 0, 0, 0] + ([0, 0, 0, 0] + key))
    ensures Encode(Contract(key)) == [0, 0, 0, 18] + ([0, 0, 0, 1] + key)
  {
    hide U32be, Padding, Padded;
    SmallWords();
    PaddingIs(|s|);
  }

  lemma WireContainers(vs: seq<ScVal>, es: seq<Entry>)
    ensures Encode(AbsentVec) == [0, 0, 0, 16] + [0, 0, 0, 0] && Encode(AbsentMap) == [0, 0, 0, 17] + [0, 0, 0, 0]
    ensures Encode(Vec(vs)) == [0, 0, 0, 16] + ([0, 0, 0, 1] + (U32be(|vs|) + EncodeAll(vs)))
    ensures Encode(Map(es)) == [0, 0, 0, 17] + ([0, 0, 0, 1] + (U32be(|es|) + EncodeEntries(es)))
  {
    hide U32be, EncodeAll, EncodeEntries;
    SmallWords();
  }

  function Padding(n: nat): Bytes {
    if n % 4 == 0 then [] else if n % 4 == 1 then [0, 0, 0] else if n % 4 == 2 then [0, 0] else [0]
  }

  lemma PaddingIs(n: nat)
    ensures Padding(n) == seq(Padded(n) - n, _ => 0)
  {
  }

  lemma SmallWords()
    ensures U32be(0) == [0, 0, 0, 0] && U32be(1) == [0, 0, 0, 1] && U32be(3) == [0, 0, 0, 3]
    ensures U32be(13) == [0, 0, 0, 13] && U32be(15) == [0, 0, 0, 15] && U32be(16) == [0, 0, 0, 16]
    ensures U32be(17) == [0, 0, 0, 17] && U32be(18) == [0, 0, 0, 18]
  {
  }

  /** What each shape reads back as: a number as itself, a symbol as its text, bytes as hex, an address as
      its kind and hex, and a vector as its items in order. */
  lemma ShapesReadBack(js: Js, n: nat, s: Bytes, key: Bytes32)
    requires n < TWO_32 && |s| < TWO_32
    ensures DecodeScVal(js, Encode(U32(n))) == Some(Num(n))
    ensures DecodeScVal(js, Encode(Symbol(s))) == Some(Str(js.text(s)))
    ensures DecodeScVal(js, Encode(Blob(s))) == Some(Str(ToHex(s)))
    ensures DecodeScVal(js, Encode(Account(key))) == Some(Address(true, ToHex(key)))
    ensures DecodeScVal(js, Encode(Contract(key))) == Some(Address(false, ToHex(key)))
    ensures DecodeScVal(js, Encode(AbsentVec)) == Some(Arr([])) && DecodeScVal(js, Encode(AbsentMap)) == Some(Obj(map[], None))
  {
    hide Encode, DecodeScVal, ToHex;
    DecodeEncoded(js, U32(n));
    DecodeEncoded(js, Symbol(s));
    DecodeEncoded(js, Blob(s));
    DecodeEncoded(js, Account(key));
    DecodeEncoded(js, Contract(key));
    DecodeEncoded(js, AbsentVec);
    DecodeEncoded(js, AbsentMap);
  }

  lemma {:induction false} ItemsInOrder(js: Js, vs: seq<ScVal>, done: seq<Native>)
    requires forall i | 0 <= i < |vs| :: Image(js, vs[i]).Some?
    ensures ImageAll(js, vs, done).Some? && ImageAll(js, vs, done).value.Arr?
    ensures var items := ImageAll(js, vs, done).value.items;
            && |items| == |done| + |vs| && done <= items
            && forall i | 0 <= i < |vs| :: items[|done| + i] == Image(js, vs[i]).value
    decreases vs
  {
    hide Image;
    if vs != [] {
      var x := Image(js, vs[0]).value;
      ItemsInOrder(js, vs[1..], done + [x]);
      var items := ImageAll(js, vs, done).value.items;
      forall i | 0 <= i < |vs|
        ensures items[|done| + i] == Image(js, vs[i]).value
      {
        if i > 0 {
          assert vs[1..][i - 1] == vs[i];
          assert items[|done + [x]| + (i - 1)] == Image(js, vs[1..][i - 1]).value;
        }
      }
    }
  }

  lemma VectorReadsBack(js: Js, vs: seq<ScVal>)
    requires Small(Vec(vs)) && forall i | 0 <= i < |vs| :: Image(js, vs[i]).Some?
    ensures DecodeScVal(js, Encode(Vec(vs))).Some? && DecodeScVal(js, Encode(Vec(vs))).value.Arr?
    ensures var items := DecodeScVal(js, Encode(Vec(vs))).value.items;
            |items| == |vs| && forall i | 0 <= i < |vs| :: items[i] == Image(js, vs[i]).value
  {
    hide Encode, DecodeScVal;
    DecodeEncoded(js, Vec(vs));
    ItemsInOrder(js, vs, []);
    assert forall i | 0 <= i < |vs| :: ImageAll(js, vs, []).value.items[0 + i] == Image(js, vs[i]).value;
  }

  /** What the reader throws at: bytes that run out before the next word, and a type it does not cover. */
  lemma ReaderRefuses(js: Js, b: Bytes, at: nat)
    requires at <= |b| + 3
    ensures at + 4 > |b| ==> Parse(js, b, at) == Fail
    ensures at + 4 <= |b| && FromU32be(b[at..at + 4]) !in {3, 13, 15, 16, 17, 18} ==> Parse(js, b, at) == Fail
  {
  }

  /** And what it lets pass: padding that is missing at the end. */
  lemma MissingPaddingPasses(js: Js, s: Bytes)
    requires |s| < TWO_32
    ensures DecodeScVal(js, U32be(13) + (U32be(|s|) + s)) == Some(Str(ToHex(s)))
  {
    hide U32be, FromU32be, Word, ToHex;
    var b := U32be(13) + (U32be(|s|) + s);
    assert b[0..|b|] == b;
    AtSplits(b, 0, U32be(13), U32be(|s|) + s);
    AtSplits(b, 4, U32be(|s|), s);
    WordAt(b, 0, 13);
    WordAt(b, 4, |s|);
  }

  /** Any address kind but zero reads as a contract's. */
  lemma AnyOtherKindIsContract(js: Js, kind: nat, key: Bytes32)
    requires 0 < kind < TWO_32
    ensures DecodeScVal(js, U32be(18) + (U32be(kind) + key)) == Some(Address(false, ToHex(key)))
  {
    hide U32be, FromU32be, Word, ToHex;
    var b := U32be(18) + (U32be(kind) + key);
    assert b[0..|b|] == b;
    AtSplits(b, 0, U32be(18), U32be(kind) + key);
    AtSplits(b, 4, U32be(kind), key);
    WordAt(b, 0, 18);
    WordAt(b, 4, kind);
  }

  /** A container is there for any presence flag but zero, and for zero it is empty, whatever follows. */
  lemma PresenceIsAFlag(js: Js, b: Bytes, at: nat, present: nat)
    requires at <= |b| + 3 && Word(b, at + 4) == Some(present)
    ensures Word(b, at) == Some(16) && present == 0 ==> Parse(js, b, at) == Done(Arr([]), at + 8)
    ensures Word(b, at) == Some(17) && present == 0 ==> Parse(js, b, at) == Done(Obj(map[], None), at + 8)
    ensures Word(b, at) == Some(16) && present > 0 && Word(b, at + 8).Some? ==>
              Parse(js, b, at) == ParseItems(js, b, at + 12, Word(b, at + 8).value, [])
    ensures Word(b, at) == Some(17) && present > 0 && Word(b, at + 8).Some? ==>
              Parse(js, b, at) == ParseEntries(js, b, at + 12, Word(b, at + 8).value, FRESH)
  {
    hide FromU32be;
  }

  // ---- which maps come through whole ---------------------------------------------------

  /** The name a symbol key becomes. */
  function NameOf(js: Js, e: Entry): string
    requires e.key.Symbol?
  {
    js.text(e.key.text)
  }

  predicate SymbolKeys(es: seq<Entry>) {
    forall i | 0 <= i < |es| :: es[i].key.Symbol?
  }

  predicate Imaged(js: Js, es: seq<Entry>) {
    forall i | 0 <= i < |es| :: Image(js, es[i].val).Some?
  }

  function Names(js: Js, es: seq<Entry>): seq<string>
    requires SymbolKeys(es)
  {
    seq(|es|, i requires 0 <= i < |es| => NameOf(js, es[i]))
  }

  /** Every entry is there under its name, with its own value, and there are as many as entries. */
  ghost predicate Whole(js: Js, es: seq<Entry>, o: Native)
    requires SymbolKeys(es) && Imaged(js, es)
  {
    && o.Obj?
    && |o.own| == |es|
    && forall i | 0 <= i < |es| :: NameOf(js, es[i]) in o.own && o.own[NameOf(js, es[i])] == Image(js, es[i].val).value
  }

  predicate Unique(names: seq<string>) {
    forall i, j | 0 <= i < j < |names| :: names[i] != names[j]
  }

  function Stored(names: seq<string>): set<string> {
    set k | k in names && k != PROTO
  }

  lemma StoredTail(names: seq<string>)
    requires names != []
    ensures Stored(names) == Stored(names[1..]) + if names[0] == PROTO then {} else {names[0]}
  {
    assert names == [names[0]] + names[1..];
  }

  lemma {:induction false} FillNames(js: Js, es: seq<Entry>, o: Native)
    requires SymbolKeys(es) && Imaged(js, es) && o.Obj?
    ensures ImageEntries(js, es, o).Some? && ImageEntries(js, es, o).value.Obj?
    ensures ImageEntries(js, es, o).value.own.Keys == o.own.Keys + Stored(Names(js, es))
    decreases es
  {
    hide Image, Names, Stored;
    if es != [] {
      NamesTail(js, es);
      StoredTail(Names(js, es));
      HeadField(js, es);
      var f := ImageEntry(js, es[0]).value;
      FillNames(js, es[1..], SetKey(o, f.name, f.val));
    } else {
      NoNames(js);
    }
  }

  lemma NoNames(js: Js)
    ensures Names(js, []) == [] && Stored([]) == {}
  {
  }

  lemma HeadField(js: Js, es: seq<Entry>)
    requires SymbolKeys(es) && Imaged(js, es) && es != []
    ensures ImageEntry(js, es[0]) == Some(Field(NameOf(js, es[0]), Image(js, es[0].val).value))
    ensures SymbolKeys(es[1..]) && Imaged(js, es[1..])
  {
  }

  lemma NamesTail(js: Js, es: seq<Entry>)
    requires SymbolKeys(es) && es != []
    ensures |Names(js, es)| == |es| && Names(js, es)[0] == NameOf(js, es[0])
    ensures SymbolKeys(es[1..]) && Names(js, es[1..]) == Names(js, es)[1..]
  {
  }

  /** A name that does not come again keeps the value it has. */
  lemma {:induction false} FillKeeps(js: Js, es: seq<Entry>, o: Native, k: string)
    requires SymbolKeys(es) && Imaged(js, es) && o.Obj?
    requires k in o.own && k !in Names(js, es)
    ensures ImageEntries(js, es, o).Some?
    ensures var r := ImageEntries(js, es, o).value; r.Obj? && k in r.own && r.own[k] == o.own[k]
    decreases es
  {
    hide Image;
    if es != [] {
      NamesTail(js, es);
      HeadField(js, es);
      assert NameOf(js, es[0]) in Names(js, es);
      var f := ImageEntry(js, es[0]).value;
      FillKeeps(js, es[1..], SetKey(o, f.name, f.val), k);
    }
  }

  lemma {:induction false} FillValue(js: Js, es: seq<Entry>, o: Native, i: nat)
    requires SymbolKeys(es) && Imaged(js, es) && o.Obj?
    requires Unique(Names(js, es)) && PROTO !in Names(js, es) && i < |es|
    ensures ImageEntries(js, es, o).Some?
    ensures var r := ImageEntries(js, es, o).value;
            r.Obj? && NameOf(js, es[i]) in r.own && r.own[NameOf(js, es[i])] == Image(js, es[i].val).value
    decreases es
  {
    hide Image, NameOf;
    NamesTail(js, es);
    HeadField(js, es);
    var names := Names(js, es);
    var f := ImageEntry(js, es[0]).value;
    var o1 := SetKey(o, f.name, f.val);
    assert names[0] in names && names[0] !in names[1..];
    if i == 0 {
      FillKeeps(js, es[1..], o1, f.name);
    } else {
      assert es[1..][i - 1] == es[i];
      FillValue(js, es[1..], o1, i - 1);
    }
  }

  lemma {:induction false} StoredCount(names: seq<string>)
    ensures |Stored(names)| <= |names|
    ensures |Stored(names)| == |names| <==> Unique(names) && PROTO !in names
    decreases names
  {
    if names == [] {
      assert Stored(names) == {};
    } else {
      StoredTail(names);
      StoredCount(names[1..]);
      var rest := Stored(names[1..]);
      assert names == [names[0]] + names[1..];
      if names[0] != PROTO && names[0] !in names[1..] {
        assert |rest + {names[0]}| == |rest| + 1;
      } else if names[0] != PROTO {
        assert rest + {names[0]} == rest;
      }
    }
  }

  /** A map with symbol keys comes through whole if and only if its keys read as different names and
      none of them is the one name that is not stored. */
  lemma MapIsWholeIff(js: Js, es: seq<Entry>)
    requires SymbolKeys(es) && Imaged(js, es)
    ensures Image(js, Map(es)).Some?
    ensures Whole(js, es, Image(js, Map(es)).value) <==> Unique(Names(js, es)) && PROTO !in Names(js, es)
  {
    hide NameOf;
    FillNames(js, es, FRESH);
    var r := Image(js, Map(es)).value;
    StoredCount(Names(js, es));
    assert r.own.Keys == Stored(Names(js, es));
    assert |r.own| == |r.own.Keys|;
    if Unique(Names(js, es)) && PROTO !in Names(js, es) {
      forall i | 0 <= i < |es|
        ensures NameOf(js, es[i]) in r.own && r.own[NameOf(js, es[i])] == Image(js, es[i].val).value
      {
        FillValue(js, es, FRESH, i);
      }
    }
  }

  /** The bytes of "__proto__". */
  const PROTO_TEXT: Bytes := [95, 95, 112, 114, 111, 116, 111, 95, 95]

  /** An entry under that name is lost: a map that holds only it reads as an object with nothing in
      it. */
  lemma ProtoKeyIsLost(js: Js, n: nat)
    requires js.text(PROTO_TEXT) == PROTO && n < TWO_32
    ensures DecodeScVal(js, Encode(Map([Entry(Symbol(PROTO_TEXT), U32(n))]))) == Some(FRESH)
  {
    var e := Entry(Symbol(PROTO_TEXT), U32(n));
    var es := [e];
    assert SmallEntry(e) && es[1..] == [];
    assert SmallEntries(es);
    DecodeEncoded(js, Map(es));
    assert ImageEntry(js, e) == Some(Field(PROTO, Num(n)));
    assert ImageEntries(js, es, FRESH) == ImageEntries(js, [], FRESH);
  }
}
