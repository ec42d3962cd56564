/** Re-rooting a source archive: what happens to each entry, and to the tree the entries unpack to.
    An archive is a list of decoded entries. */
module StagingSpec {
  import opened ClaimLayout

  type Name = Bytes

  const SLASH: Byte := 47
  const DOT: Name := [46]
  const DOTDOT: Name := [46, 46]

  /** "source" */
  const SOURCE: Name := [115, 111, 117, 114, 99, 101]

  const BUILDER_UID: nat := 1000

  datatype Kind = Regular | Directory | Symlink | HardLink | PaxMeta

  /** `mode` and `mtime` are `None` when the header field cannot be read. */
  datatype Entry = Entry(kind: Kind, path: Bytes, link: Option<Bytes>, mode: Option<int>, mtime: Option<int>, uid: nat, data: Bytes)

  /** The position of the first slash, or the length. */
  function FirstSlash(p: Bytes): (i: nat)
    ensures i <= |p| && (forall k | 0 <= k < i :: p[k] != SLASH) && (i < |p| ==> p[i] == SLASH)
  {
    if p == [] || p[0] == SLASH then 0 else 1 + FirstSlash(p[1..])
  }

  /** `p` with everything before its first slash replaced by `top`. */
  function Retop(p: Bytes, top: Name): Bytes {
    top + p[FirstSlash(p)..]
  }

  /** What stands before the first slash. */
  function TopOf(p: Bytes): Name {
    p[..FirstSlash(p)]
  }

  /** `None` is the refusal of a name that is not UTF-8; what precedes the slash is not looked at. */
  function Restage(utf8: Bytes -> bool, p: Bytes): Option<Bytes> {
    if FirstSlash(p) < |p| && !utf8(p[FirstSlash(p)..]) then None else Some(Retop(p, SOURCE))
  }

  function ModeOf(e: Entry): int {
    match e.mode
    case Some(m) => m
    case None => if e.kind.Directory? then 0x1ED else 0x1A4
  }

  function MtimeOf(e: Entry): int {
    match e.mtime
    case Some(t) => t
    case None => 0
  }

  function StageLink(utf8: Bytes -> bool, kind: Kind, link: Bytes): Option<Bytes> {
    if kind.HardLink? then Restage(utf8, link)
    else if utf8(link) then Some(link)
    else None
  }

  /** One entry, with a header made from scratch. The archive writer refuses a path with a parent
      component; a link's target it does not look at. */
  function StageEntry(utf8: Bytes -> bool, e: Entry): Option<Entry> {
    match Restage(utf8, e.path)
    case None => None
    case Some(path) =>
      if DOTDOT in Pieces(path) then None
      else
      match e.link
      case None => Some(Entry(e.kind, path, None, Some(ModeOf(e)), Some(MtimeOf(e)), BUILDER_UID, e.data))
      case Some(link) =>
        match StageLink(utf8, e.kind, link)
        case None => None
        // A link has no body.
        case Some(l) => Some(Entry(e.kind, path, Some(l), Some(ModeOf(e)), Some(MtimeOf(e)), BUILDER_UID, []))
  }

  /** What staging keeps of an entry and what it sets: the kind, a readable mode and time, the data, and a
      symbolic link's target stay; an unreadable mode becomes 0755 for a directory and 0644 for anything
      else, and an unreadable time zero; the owner becomes the builder's. */
  lemma StagedEntryKeeps(utf8: Bytes -> bool, e: Entry)
    requires StageEntry(utf8, e).Some?
    ensures var s := StageEntry(utf8, e).value;
            && s.kind == e.kind
            && (e.mode.Some? ==> s.mode == e.mode)
            && (e.mode.None? && e.kind.Directory? ==> s.mode == Some(7 * 64 + 5 * 8 + 5))
            && (e.mode.None? && !e.kind.Directory? ==> s.mode == Some(6 * 64 + 4 * 8 + 4))
            && (e.mtime.Some? ==> s.mtime == e.mtime)
            && (e.mtime.None? ==> s.mtime == Some(0))
            && (e.link.None? ==> s.link.None? && s.data == e.data)
            && (e.link.Some? ==> s.link.Some? && s.data == [])
            && (e.link.Some? && !e.kind.HardLink? ==> s.link == e.link)
            && s.uid == 1000
  {
  }

  /** An entry is refused exactly when a name in it is not UTF-8, as far as it is looked at, or its staged
      path has a parent component. */
  lemma RefusedIff(utf8: Bytes -> bool, e: Entry)
    ensures var i := FirstSlash(e.path);
            StageEntry(utf8, e).None? <==>
              || (i < |e.path| && !utf8(e.path[i..]))
              || DOTDOT in Pieces(SOURCE + e.path[i..])
              || (e.link.Some? && !e.kind.HardLink? && !utf8(e.link.value))
              || (e.link.Some? && e.kind.HardLink? &&
                  FirstSlash(e.link.value) < |e.link.value| && !utf8(e.link.value[FirstSlash(e.link.value)..]))
  {
  }

  /** The staged archive; one refused entry refuses it. */
  function Normalize(utf8: Bytes -> bool, es: seq<Entry>): Option<seq<Entry>> {
    if es == [] then Some([])
    else
      match Normalize(utf8, es[..|es| - 1])
      case None => None
      case Some(done) =>
        var e := es[|es| - 1];
        if e.kind.PaxMeta? then Some(done)
        else
          match StageEntry(utf8, e)
          case None => None
          case Some(staged) => Some(done + [staged])
  }

  /** The staging name is the text "source". */
  lemma SourceSpelled()
    ensures |SOURCE| == |"source"| && forall i | 0 <= i < |SOURCE| :: SOURCE[i] as char == "source"[i]
  {
  }

  // ---- paths ---------------------------------------------------------------------------

  predicate SlashFree(n: Name) {
    SLASH !in n
  }

  /** `p` is `top` itself or lies below it. */
  predicate Under(top: Name, p: Bytes) {
    TopOf(p) == top
  }

  lemma {:induction false} FirstSlashAfter(top: Name, rest: Bytes)
    requires SlashFree(top) && (rest == [] || rest[0] == SLASH)
    ensures FirstSlash(top + rest) == |top|
    ensures TopOf(top + rest) == top && (top + rest)[|top|..] == rest
  {
    if top == [] {
      assert top + rest == rest;
    } else {
      assert (top + rest)[1..] == top[1..] + rest;
      assert top[0] in top && forall c | c in top[1..] :: c in top;
      FirstSlashAfter(top[1..], rest);
    }
  }

  lemma SourceIsPlain()
    ensures SlashFree(SOURCE) && SOURCE != [] && SOURCE != DOT && SOURCE != DOTDOT
  {
  }

  /** Replacing the top twice is replacing it once, with the later name. */
  lemma RetopRetop(p: Bytes, a: Name, b: Name)
    requires SlashFree(a)
    ensures Retop(Retop(p, a), b) == Retop(p, b) && TopOf(Retop(p, a)) == a
  {
    FirstSlashAfter(a, p[FirstSlash(p)..]);
  }

  lemma RetopIsInjective(p: Bytes, q: Bytes, a: Name)
    requires SlashFree(a) && TopOf(p) == TopOf(q)
    ensures Retop(p, a) == Retop(q, a) <==> p == q
  {
    FirstSlashAfter(a, p[FirstSlash(p)..]);
    FirstSlashAfter(a, q[FirstSlash(q)..]);
    assert p == TopOf(p) + p[FirstSlash(p)..] && q == TopOf(q) + q[FirstSlash(q)..];
  }

  /** Re-rooting writes the staging name for the first name and copies the rest, the slash included. */
  lemma RestageIs(utf8: Bytes -> bool, top: Name, rest: Bytes)
    requires SlashFree(top)
    ensures utf8([SLASH] + rest) ==> Restage(utf8, top + ([SLASH] + rest)) == Some(SOURCE + ([SLASH] + rest))
    ensures !utf8([SLASH] + rest) ==> Restage(utf8, top + ([SLASH] + rest)) == None
    ensures Restage(utf8, top) == Some(SOURCE)
  {
    FirstSlashAfter(top, [SLASH] + rest);
    FirstSlashAfter(top, []);
    assert top + [] == top && top[|top|..] == [] && SOURCE + [] == SOURCE;
  }

  /** Staged paths are the same only if the paths were, they are below the one staging name, staging
      again changes nothing, and the old name leaves no trace. */
  lemma RestageKeepsPathsApart(utf8: Bytes -> bool, top: Name, p: Bytes, q: Bytes)
    requires SlashFree(top) && Under(top, p) && Under(top, q)
    requires Restage(utf8, p).Some? && Restage(utf8, q).Some?
    ensures Restage(utf8, p) == Restage(utf8, q) <==> p == q
    ensures Under(SOURCE, Restage(utf8, p).value)
    ensures Restage(utf8, Restage(utf8, p).value) == Restage(utf8, p)
    ensures forall other: Name | SlashFree(other) :: Restage(utf8, Retop(p, other)) == Restage(utf8, p)
  {
    SourceIsPlain();
    RetopIsInjective(p, q, SOURCE);
    RestageRetop(utf8, p, SOURCE);
    forall other: Name | SlashFree(other)
      ensures Restage(utf8, Retop(p, other)) == Restage(utf8, p)
    {
      RestageRetop(utf8, p, other);
    }
  }

  lemma RestageRetop(utf8: Bytes -> bool, p: Bytes, other: Name)
    requires SlashFree(other)
    ensures Restage(utf8, Retop(p, other)) == Restage(utf8, p) && TopOf(Retop(p, other)) == other
  {
    FirstSlashAfter(other, p[FirstSlash(p)..]);
    RetopRetop(p, other, SOURCE);
  }

  // ---- whole archives ------------------------------------------------------------------

  /** The same entry under another top name. */
  function RetopEntry(e: Entry, top: Name): Entry {
    e.(path := Retop(e.path, top),
       link := if e.kind.HardLink? && e.link.Some? then Some(Retop(e.link.value, top)) else e.link)
  }

  function RetopAll(es: seq<Entry>, top: Name): seq<Entry> {
    seq(|es|, i requires 0 <= i < |es| => RetopEntry(es[i], top))
  }

  lemma StageEntryForgets(utf8: Bytes -> bool, e: Entry, top: Name)
    requires SlashFree(top)
    ensures StageEntry(utf8, RetopEntry(e, top)) == StageEntry(utf8, e)
  {
    hide Retop, Restage;
    RestageRetop(utf8, e.path, top);
    if e.kind.HardLink? && e.link.Some? {
      RestageRetop(utf8, e.link.value, top);
    }
  }

  /** The staged archive does not depend on what the source's top directory was called. */
  lemma {:induction false} StagingForgetsTheTop(utf8: Bytes -> bool, es: seq<Entry>, top: Name)
    requires SlashFree(top)
    ensures Normalize(utf8, RetopAll(es, top)) == Normalize(utf8, es)
    decreases |es|
  {
    hide StageEntry, RetopEntry;
    if es != [] {
      var n := |es| - 1;
      assert RetopAll(es, top)[..n] == RetopAll(es[..n], top);
      StagingForgetsTheTop(utf8, es[..n], top);
      StageEntryForgets(utf8, es[n], top);
      KindKept(es[n], top);
    }
  }

  lemma KindKept(e: Entry, top: Name)
    ensures RetopEntry(e, top).kind == e.kind
  {
  }

  /** Links carry no data of their own, as the format has it. */
  predicate LinksAreEmpty(es: seq<Entry>) {
    forall i | 0 <= i < |es| :: es[i].link.Some? ==> es[i].data == []
  }

  lemma StageEntryTwice(utf8: Bytes -> bool, e: Entry)
    requires StageEntry(utf8, e).Some?
    ensures var s := StageEntry(utf8, e).value;
            StageEntry(utf8, s) == Some(s) && s.kind == e.kind && TopOf(s.path) == SOURCE
  {
    hide Retop;
    SourceIsPlain();
    RestageRetop(utf8, e.path, SOURCE);
    if e.kind.HardLink? && e.link.Some? {
      RestageRetop(utf8, e.link.value, SOURCE);
    }
  }

  lemma NormalizeUnfold(utf8: Bytes -> bool, es: seq<Entry>)
    ensures Normalize(utf8, es) ==
            if es == [] then Some([])
            else
              match Normalize(utf8, es[..|es| - 1])
              case None => None
              case Some(done) =>
                if es[|es| - 1].kind.PaxMeta? then Some(done)
                else match StageEntry(utf8, es[|es| - 1]) case None => None case Some(s) => Some(done + [s])
  {
  }

  /** Staging a staged archive changes nothing, and everything in it is under the staging name. */
  lemma {:induction false} StagingTwice(utf8: Bytes -> bool, es: seq<Entry>)
    requires Normalize(utf8, es).Some?
    ensures var staged := Normalize(utf8, es).value;
            && Normalize(utf8, staged) == Some(staged)
            && forall i | 0 <= i < |staged| :: !staged[i].kind.PaxMeta? && Under(SOURCE, staged[i].path)
    decreases |es|
  {
    hide StageEntry, TopOf, Normalize;
    NormalizeUnfold(utf8, es);
    if es != [] {
      var n := |es| - 1;
      StagingTwice(utf8, es[..n]);
      if !es[n].kind.PaxMeta? {
        var before, s := Normalize(utf8, es[..n]).value, StageEntry(utf8, es[n]).value;
        StageEntryTwice(utf8, es[n]);
        NormalizeUnfold(utf8, before + [s]);
        assert (before + [s])[..|before|] == before;
      }
    } else {
      NormalizeUnfold(utf8, []);
    }
  }

  /** The entries that are not metadata, in order. */
  function Files(es: seq<Entry>): seq<Entry> {
    if es == [] then [] else Files(es[..|es| - 1]) + if es[|es| - 1].kind.PaxMeta? then [] else [es[|es| - 1]]
  }

  /** The staged archive holds the staged form of every entry that is not metadata, in order, and nothing
      else; so each keeps its kind, its mode, its time and its data. */
  lemma {:induction false} StagedInOrder(utf8: Bytes -> bool, es: seq<Entry>)
    requires Normalize(utf8, es).Some?
    ensures var staged, files := Normalize(utf8, es).value, Files(es);
            && |staged| == |files|
            && forall i | 0 <= i < |files| ::
                 && StageEntry(utf8, files[i]) == Some(staged[i])
                 && staged[i].kind == files[i].kind
                 && (files[i].mode.Some? ==> staged[i].mode == files[i].mode)
                 && (files[i].mtime.Some? ==> staged[i].mtime == files[i].mtime)
                 && (files[i].link.None? ==> staged[i].data == files[i].data)
    decreases |es|
  {
    hide StageEntry, Normalize;
    NormalizeUnfold(utf8, es);
    if es != [] {
      var n := |es| - 1;
      StagedInOrder(utf8, es[..n]);
      if !es[n].kind.PaxMeta? {
        StagedEntryKeeps(utf8, es[n]);
      }
    }
  }

  /** An archive is refused if and only if one of its entries is. */
  lemma RefusedArchiveIff(utf8: Bytes -> bool, es: seq<Entry>)
    ensures Normalize(utf8, es).None? <==> exists i :: 0 <= i < |es| && Counts(es[i]) && StageEntry(utf8, es[i]).None?
  {
    if i :| 0 <= i < |es| && Counts(es[i]) && StageEntry(utf8, es[i]).None? {
      Refused(utf8, es, i);
    } else {
      AllStaged(utf8, es);
    }
  }

  lemma {:induction false} AllStaged(utf8: Bytes -> bool, es: seq<Entry>)
    requires forall i | 0 <= i < |es| && Counts(es[i]) :: StageEntry(utf8, es[i]).Some?
    ensures Normalize(utf8, es).Some?
    decreases |es|
  {
    hide StageEntry;
    if es != [] {
      var n := |es| - 1;
      AllStaged(utf8, es[..n]);
      assert Counts(es[n]) ==> StageEntry(utf8, es[n]).Some?;
    }
  }

  /** An archive is refused as soon as one of its entries is. */
  lemma {:induction false} Refused(utf8: Bytes -> bool, es: seq<Entry>, i: nat)
    requires i < |es| && Counts(es[i]) && StageEntry(utf8, es[i]).None?
    ensures Normalize(utf8, es).None?
    decreases |es|
  {
    if i < |es| - 1 {
      Refused(utf8, es[..|es| - 1], i);
    }
  }

  // ---- the one-top-directory check -----------------------------------------------------

  function Pieces(p: Bytes): seq<Name> {
    var i := FirstSlash(p);
    if i == |p| then [p] else [p[..i]] + Pieces(p[i + 1..])
  }

  /** No absolute path and no parent component. */
  predicate Safe(p: Bytes) {
    (p != [] ==> p[0] != SLASH) && DOTDOT !in Pieces(p)
  }

  /** Two dots standing alone between slashes or ends. */
  predicate ParentAt(p: Bytes, i: nat) {
    i + 2 <= |p| && p[i] == 46 && p[i + 1] == 46
    && (i == 0 || p[i - 1] == 47) && (i + 2 == |p| || p[i + 2] == 47)
  }

  /** The first piece stands alone. */
  lemma ParentFirst(p: Bytes)
    ensures ParentAt(p, 0) <==> TopOf(p) == DOTDOT
  {
    var k := FirstSlash(p);
    if ParentAt(p, 0) {
      assert k == 2;
      assert p[..2] == DOTDOT;
    }
    if TopOf(p) == DOTDOT {
      assert TopOf(p)[0] == p[0] && TopOf(p)[1] == p[1];
    }
  }

  /** What stands alone after a slash stands alone in the whole. */
  lemma ParentLater(a: Bytes, rest: Bytes, i: nat)
    ensures ParentAt(rest, i) <==> ParentAt(a + [SLASH] + rest, |a| + 1 + i)
  {
    var p, j := a + [SLASH] + rest, |a| + 1 + i;
    if i + 2 <= |rest| {
      assert p[j] == rest[i] && p[j + 1] == rest[i + 1];
      if i > 0 {
        assert p[j - 1] == rest[i - 1];
      } else {
        assert p[j - 1] == SLASH;
      }
      if i + 2 < |rest| {
        assert p[j + 2] == rest[i + 2];
      }
    }
  }

  /** Nothing stands alone inside the first piece but at its start. */
  lemma ParentOnlyFirst(p: Bytes, i: nat)
    requires 0 < i <= FirstSlash(p)
    ensures !ParentAt(p, i)
  {
  }

  lemma {:induction false} ParentPieces(p: Bytes)
    ensures DOTDOT in Pieces(p) <==> exists i: nat :: ParentAt(p, i)
    decreases |p|
  {
    hide ParentAt;
    var k := FirstSlash(p);
    ParentFirst(p);
    if k == |p| {
      assert TopOf(p) == p && Pieces(p) == [p];
      if i: nat :| ParentAt(p, i) {
        ParentInBounds(p, i);
        OnlyAtTheStart(p, i);
      }
    } else {
      var top, rest := TopOf(p), p[k + 1..];
      assert p == top + [SLASH] + rest;
      assert Pieces(p) == [top] + Pieces(rest);
      ParentPieces(rest);
      ParentOfTwo(top, rest);
    }
  }

  lemma ParentOfTwo(top: Name, rest: Bytes)
    requires SlashFree(top)
    ensures (exists i: nat :: ParentAt(top + [SLASH] + rest, i)) <==> top == DOTDOT || exists i: nat :: ParentAt(rest, i)
  {
    hide ParentAt;
    var p := top + [SLASH] + rest;
    assert p == top + ([SLASH] + rest);
    FirstSlashAfter(top, [SLASH] + rest);
    ParentFirst(p);
    if i: nat :| ParentAt(rest, i) {
      ParentLater(top, rest, i);
    }
    if i: nat :| ParentAt(p, i) {
      OnlyAtTheStart(p, i);
      if i > |top| {
        ParentLater(top, rest, i - |top| - 1);
      }
    }
  }

  lemma OnlyAtTheStart(p: Bytes, i: nat)
    requires ParentAt(p, i)
    ensures i == 0 || i > FirstSlash(p)
  {
    if 0 < i <= FirstSlash(p) {
      ParentOnlyFirst(p, i);
    }
  }

  lemma ParentInBounds(p: Bytes, i: nat)
    requires ParentAt(p, i)
    ensures i < |p|
  {
  }

  /** A path is safe exactly when it does not begin with a slash and nowhere has two dots standing alone. */
  lemma SafeIff(p: Bytes)
    ensures Safe(p) <==> (p == [] || p[0] != 47) && forall i: nat :: !ParentAt(p, i)
  {
    ParentPieces(p);
  }

  datatype TopResult = Unsafe | Layout(tops: nat) | Single(top: string)

  predicate Counts(e: Entry) {
    !e.kind.PaxMeta?
  }

  predicate AllSafe(es: seq<Entry>) {
    forall i | 0 <= i < |es| && Counts(es[i]) :: Safe(es[i].path)
  }

  /** The names counted are decoded with replacement, so different bytes can give one name; the empty
      path names nothing. */
  function Tops(lossy: Bytes -> string, es: seq<Entry>): set<string> {
    set i | 0 <= i < |es| && Counts(es[i]) && es[i].path != [] :: lossy(TopOf(es[i].path))
  }

  ghost function SingleTop(lossy: Bytes -> string, es: seq<Entry>): TopResult {
    if !AllSafe(es) then Unsafe
    else
      var tops := Tops(lossy, es);
      if |tops| != 1 then Layout(|tops|)
      else
        var t :| t in tops;
        Single(t)
  }

  /** The two refusals: unsafe for a path that is not safe, and otherwise the number of tops if it is not
      one. */
  lemma RefusalMeans(lossy: Bytes -> string, es: seq<Entry>)
    ensures SingleTop(lossy, es) == Unsafe <==> exists i :: 0 <= i < |es| && Counts(es[i]) && !Safe(es[i].path)
    ensures forall n: nat ::
              SingleTop(lossy, es) == Layout(n) <==>
                (forall i | 0 <= i < |es| && Counts(es[i]) :: Safe(es[i].path)) && n == |Tops(lossy, es)| != 1
  {
    hide Safe, Tops;
  }

  lemma SingleMeans(lossy: Bytes -> string, es: seq<Entry>, t: string)
    ensures SingleTop(lossy, es) == Single(t) <==>
              && AllSafe(es)
              && (exists i :: 0 <= i < |es| && Counts(es[i]) && es[i].path != [])
              && (forall i | 0 <= i < |es| && Counts(es[i]) && es[i].path != [] :: lossy(TopOf(es[i].path)) == t)
  {
    hide AllSafe, TopOf;
    var tops := Tops(lossy, es);
    if |tops| == 1 {
      var u :| u in tops;
      assert tops == {u} by {
        assert |tops - {u}| == 0;
      }
      var i :| 0 <= i < |es| && Counts(es[i]) && es[i].path != [] && lossy(TopOf(es[i].path)) == u;
      forall j | 0 <= j < |es| && Counts(es[j]) && es[j].path != []
        ensures lossy(TopOf(es[j].path)) == u
      {
        assert lossy(TopOf(es[j].path)) in tops;
      }
    } else {
      OnlyTop(lossy, es, t);
    }
  }

  lemma OnlyTop(lossy: Bytes -> string, es: seq<Entry>, t: string)
    ensures (exists i :: 0 <= i < |es| && Counts(es[i]) && es[i].path != [])
            && (forall i | 0 <= i < |es| && Counts(es[i]) && es[i].path != [] :: lossy(TopOf(es[i].path)) == t)
            ==> Tops(lossy, es) == {t}
  {
    if i :| 0 <= i < |es| && Counts(es[i]) && es[i].path != [] {
      assert lossy(TopOf(es[i].path)) in Tops(lossy, es);
    }
  }

  /** Every counted entry lies under `top`. */
  predicate OneTop(top: Name, es: seq<Entry>) {
    SlashFree(top) && forall i | 0 <= i < |es| && Counts(es[i]) :: Under(top, es[i].path)
  }

  /** Tops of counted entries that differ decode to different names. */
  predicate TopsTellApart(lossy: Bytes -> string, es: seq<Entry>) {
    forall i, j | 0 <= i < |es| && 0 <= j < |es| && Counts(es[i]) && Counts(es[j]) ::
      TopOf(es[i].path) != TopOf(es[j].path) ==> lossy(TopOf(es[i].path)) != lossy(TopOf(es[j].path))
  }

  predicate NoPathEmpty(es: seq<Entry>) {
    forall i | 0 <= i < |es| && Counts(es[i]) :: es[i].path != []
  }

  lemma AcceptedHasOneTop(lossy: Bytes -> string, es: seq<Entry>, t: string) returns (top: Name)
    requires SingleTop(lossy, es) == Single(t) && TopsTellApart(lossy, es) && NoPathEmpty(es)
    ensures OneTop(top, es) && top != [] && top != DOTDOT && lossy(top) == t
  {
    SingleMeans(lossy, es, t);
    var k :| 0 <= k < |es| && Counts(es[k]) && es[k].path != [];
    top := TopOf(es[k].path);
    SafeTop(es[k].path);
    forall i | 0 <= i < |es| && Counts(es[i])
      ensures Under(top, es[i].path)
    {
      assert lossy(TopOf(es[i].path)) == lossy(TopOf(es[k].path));
    }
  }

  lemma SafeTop(p: Bytes)
    requires Safe(p) && p != []
    ensures TopOf(p) != [] && TopOf(p) != DOTDOT && SlashFree(TopOf(p))
  {
    assert Pieces(p)[0] == TopOf(p);
    assert p[0] != SLASH;
  }

  /** An archive the check accepts has all its paths under one top directory if and only if different
      tops in it decode to different names and none of its paths is empty. */
  lemma AcceptedHasOneTopIff(lossy: Bytes -> string, es: seq<Entry>, t: string)
    requires SingleTop(lossy, es) == Single(t)
    ensures (exists top :: OneTop(top, es)) <==> TopsTellApart(lossy, es) && NoPathEmpty(es)
  {
    if TopsTellApart(lossy, es) && NoPathEmpty(es) {
      var _ := AcceptedHasOneTop(lossy, es, t);
    }
    if top :| OneTop(top, es) {
      SingleMeans(lossy, es, t);
      var k :| 0 <= k < |es| && Counts(es[k]) && es[k].path != [];
      SafeTop(es[k].path);
      assert Under(top, es[k].path);
      forall i | 0 <= i < |es| && Counts(es[i])
        ensures TopOf(es[i].path) == top && es[i].path != []
      {
        assert Under(top, es[i].path);
      }
    }
  }

  /** An archive made of `.` is accepted like any other: its top directory is the dot. */
  lemma DotTopIsAccepted(lossy: Bytes -> string)
    ensures var es := [Entry(Regular, DOT + [SLASH, 97], None, None, None, 0, [])];
            SingleTop(lossy, es) == Single(lossy(DOT)) && OneTop(DOT, es)
  {
    var es := [Entry(Regular, DOT + [SLASH, 97], None, None, None, 0, [])];
    FirstSlashAfter(DOT, [SLASH, 97]);
    OnePiece([97]);
    assert es[0].path[1 + 1..] == [97];
    assert Pieces(es[0].path) == [DOT, [97]];
    assert Counts(es[0]) && es[0].path != [];
    SingleMeans(lossy, es, lossy(DOT));
  }

  /** It can fail: two directories whose names are not UTF-8 can count as one, and staging
      then merges them, so two files become one. */
  lemma TwoTopsCanMerge(lossy: Bytes -> string, utf8: Bytes -> bool)
    requires lossy([255]) == lossy([254]) && utf8([SLASH, 97])
    ensures var a := Entry(Regular, [255, SLASH, 97], None, None, None, 0, [1]);
            var b := Entry(Regular, [254, SLASH, 97], None, None, None, 0, [2]);
            && SingleTop(lossy, [a, b]) == Single(lossy([255]))
            && a.path != b.path
            && Restage(utf8, a.path).Some? && Restage(utf8, a.path) == Restage(utf8, b.path)
  {
    var a := Entry(Regular, [255, SLASH, 97], None, None, None, 0, [1]);
    var b := Entry(Regular, [254, SLASH, 97], None, None, None, 0, [2]);
    assert a.path == [255] + [SLASH, 97] && b.path == [254] + [SLASH, 97];
    FirstSlashAfter([255], [SLASH, 97]);
    FirstSlashAfter([254], [SLASH, 97]);
    OnePiece([97]);
    assert a.path[1 + 1..] == [97] && b.path[1 + 1..] == [97];
    assert Pieces(a.path) == [[255], [97]];
    assert Pieces(b.path) == [[254], [97]];
    SingleMeans(lossy, [a, b], lossy([255]));
    assert Counts([a, b][0]) && [a, b][0].path != [];
  }

  lemma OnePiece(p: Bytes)
    requires SlashFree(p)
    ensures Pieces(p) == [p]
  {
    FirstSlashAfter(p, []);
    assert p + [] == p;
  }
}

/** The two passes over an archive, as they run. */
module StagingContract {
  import opened ClaimLayout
  import opened StagingSpec

  method RestagePath(utf8: Bytes -> bool, raw: Bytes) returns (path: Option<Bytes>)
    ensures path == Restage(utf8, raw)
  {
    var i := 0;
    while i < |raw| && raw[i] != SLASH
      invariant i <= FirstSlash(raw)
    {
      i := i + 1;
    }
    if i < |raw| {
      if !utf8(raw[i..]) {
        return None;
      }
      return Some(SOURCE + raw[i..]);
    }
    assert raw[i..] == [];
    path := Some(SOURCE);
    assert SOURCE + raw[i..] == SOURCE;
  }

  method NormalizeForStaging(utf8: Bytes -> bool, es: seq<Entry>) returns (staged: Option<seq<Entry>>)
    ensures staged == Normalize(utf8, es)
  {
    var builder: seq<Entry> := [];
    for i := 0 to |es|
      invariant Normalize(utf8, es[..i]) == Some(builder)
    {
      assert es[..i + 1][..i] == es[..i];
      var e := es[i];
      if e.kind.PaxMeta? {
        continue;
      }
      var path := RestagePath(utf8, e.path);
      if path.None? {
        Refused(utf8, es, i);
        return None;
      }
      if DOTDOT in Pieces(path.value) {
        // The archive writer refuses it.
        Refused(utf8, es, i);
        return None;
      }
      var header := Entry(e.kind, path.value, None, Some(ModeOf(e)), Some(MtimeOf(e)), BUILDER_UID, []);
      if e.link.Some? {
        var link := None;
        if e.kind.HardLink? {
          link := RestagePath(utf8, e.link.value);
        } else if utf8(e.link.value) {
          link := Some(e.link.value);
        }
        if link.None? {
          Refused(utf8, es, i);
          return None;
        }
        builder := builder + [header.(link := link)];
      } else {
        builder := builder + [header.(data := e.data)];
      }
    }
    assert es[..|es|] == es;
    staged := Some(builder);
  }

  method SingleTopDir(lossy: Bytes -> string, es: seq<Entry>) returns (r: TopResult)
    ensures r == SingleTop(lossy, es)
  {
    var tops: set<string> := {};
    for i := 0 to |es|
      invariant AllSafe(es[..i])
      invariant tops == Tops(lossy, es[..i])
    {
      assert es[..i + 1] == es[..i] + [es[i]];
      if es[i].kind.PaxMeta? {
        assert Tops(lossy, es[..i + 1]) == Tops(lossy, es[..i]);
        continue;
      }
      var safe := IsSafe(es[i].path);
      if !safe {
        return Unsafe;
      }
      if es[i].path != [] {
        tops := tops + {lossy(TopOf(es[i].path))};
        assert Tops(lossy, es[..i + 1]) == Tops(lossy, es[..i]) + {lossy(TopOf(es[i].path))};
      } else {
        assert Tops(lossy, es[..i + 1]) == Tops(lossy, es[..i]);
      }
    }
    assert es[..|es|] == es;
    if |tops| != 1 {
      return Layout(|tops|);
    }
    var t :| t in tops;
    assert tops == {t} by {
      assert |tops - {t}| == 0;
    }
    r := Single(t);
  }

  /** Walks the components and stops at a parent or a root. */
  method IsSafe(p: Bytes) returns (safe: bool)
    ensures safe == Safe(p)
  {
    if p != [] && p[0] == SLASH {
      return false;
    }
    var pieces := Pieces(p);
    for i := 0 to |pieces|
      invariant DOTDOT !in pieces[..i]
    {
      if pieces[i] == DOTDOT {
        return false;
      }
    }
    safe := true;
  }
}

/** The tree an archive unpacks to, and where paths in it lead, before and after staging. */
module StagedTree {
  import opened ClaimLayout
  import opened StagingSpec

  datatype Node = Dir | File(data: Bytes, mode: int) | Link(absolute: bool, target: seq<Name>)

  /** Nodes by their components, from the directory the archive is unpacked in. */
  type Tree = map<seq<Name>, Node>

  /** A place by `up` steps above that directory and `path` steps down again. */
  datatype Spot = Spot(up: nat, path: seq<Name>)

  /** Symbolic links followed before a path is given up. */
  const LINK_LIMIT: nat := 40

  /** The components of a stored path: empty ones and dots do not count. */
  function Clean(pieces: seq<Name>): seq<Name> {
    if pieces == [] then []
    else if pieces[0] == [] || pieces[0] == DOT then Clean(pieces[1..])
    else [pieces[0]] + Clean(pieces[1..])
  }

  function Comps(p: Bytes): seq<Name> {
    Clean(Pieces(p))
  }

  function LinkNode(target: Bytes): Node {
    Link(target != [] && target[0] == SLASH, Comps(target))
  }

  function NodeAt(tree: Tree, k: seq<Name>): Option<Node> {
    if k in tree then Some(tree[k]) else None
  }

  function Look(tree: Tree): seq<Name> -> Option<Node> {
    (k: seq<Name>) => NodeAt(tree, k)
  }

  // ---- following a path ----------------------------------------------------------------

  /** Where a path leads: to a place, to an absolute path, or past the limit on links. */
  datatype Found = At(spot: Spot) | Absolute | TooMany

  function Parent(s: Spot): Spot {
    if s.path == [] then s.(up := s.up + 1) else s.(path := s.path[..|s.path| - 1])
  }

  /** Follows `todo` from the directory `s`, through every symbolic link on the way, wherever it leads;
      `look` says what is where. */
  function Follow(look: seq<Name> -> Option<Node>, s: Spot, todo: seq<Name>, links: nat): Found
    decreases links, |todo|
  {
    if todo == [] then At(s)
    else if todo[0] == DOTDOT then Follow(look, Parent(s), todo[1..], links)
    else
      var next := s.path + [todo[0]];
      var node := if s.up == 0 then look(next) else None;
      if node.Some? && node.value.Link? then
        if links == 0 then TooMany
        else if node.value.absolute then Absolute
        else Follow(look, s, node.value.target + todo[1..], links - 1)
      else Follow(look, s.(path := next), todo[1..], links)
  }

  /** Where an entry with these components is put: below the directory its path leads to. */
  function Landing(look: seq<Name> -> Option<Node>, comps: seq<Name>): Option<seq<Name>> {
    if comps == [] then Some([])
    else
      match Follow(look, Spot(0, []), comps[..|comps| - 1], LINK_LIMIT)
      case At(s) => if s.up == 0 then Some(s.path + [comps[|comps| - 1]]) else None
      case _ => None
  }

  /** The components left of `todo` below `at` once parents are taken off the text; `None` when it
      climbs above where `at` starts. */
  function Lexical(at: seq<Name>, todo: seq<Name>): Option<seq<Name>>
    decreases todo
  {
    if todo == [] then Some(at)
    else if todo[0] == DOTDOT then (if at == [] then None else Lexical(at[..|at| - 1], todo[1..]))
    else Lexical(at + [todo[0]], todo[1..])
  }

  // ---- unpacking -----------------------------------------------------------------------

  /** What an entry other than a hard link puts in its place. */
  function OwnNode(e: Entry): Option<Node> {
    match e.kind
    case Directory => Some(Dir)
    case Regular => Some(File(e.data, match e.mode case Some(m) => m case None => 0x1A4))
    case Symlink => if e.link.Some? then Some(LinkNode(e.link.value)) else None
    case _ => None
  }

  /** What a hard link's target names: read off its text first, and then followed. */
  function Linked(look: seq<Name> -> Option<Node>, target: seq<Name>): Option<Node> {
    match Lexical([], target)
    case None => None
    case Some(q) =>
      match Landing(look, q)
      case None => None
      case Some(k) => look(k)
  }

  datatype Change = Change(at: seq<Name>, node: Node)

  /** What unpacking `e` changes, if its path and its hard link's target have these components. An
      entry that leads out of the directory, or to nothing, changes nothing in it. */
  function Effect(look: seq<Name> -> Option<Node>, e: Entry, path: seq<Name>, target: seq<Name>): Option<Change> {
    match Landing(look, path)
    case None => None
    case Some(at) =>
      match if e.kind.HardLink? && e.link.Some? then Linked(look, target) else OwnNode(e)
      case None => None
      case Some(n) => Some(Change(at, n))
  }

  function Apply(tree: Tree, c: Option<Change>): Tree {
    match c
    case None => tree
    case Some(Change(at, n)) => tree[at := n]
  }

  function TargetOf(e: Entry): seq<Name> {
    if e.link.Some? then Comps(e.link.value) else []
  }

  function Unpack(tree: Tree, e: Entry): Tree {
    Apply(tree, Effect(Look(tree), e, Comps(e.path), TargetOf(e)))
  }

  function UnpackAll(es: seq<Entry>): Tree {
    if es == [] then map[] else Unpack(UnpackAll(es[..|es| - 1]), es[|es| - 1])
  }

  // ---- the same tree under another name ------------------------------------------------

  /** An ordinary directory name. */
  predicate Plain(n: Name) {
    SlashFree(n) && n != [] && n != DOT && n != DOTDOT
  }

  /** The components a top name stands for: a dot is no directory of its own. */
  function Root(top: Name): seq<Name> {
    if top == [] || top == DOT then [] else [top]
  }

  /** `tree'` is `tree` with the root `a` called `b`: the same nodes, at the same places below it, and
      nothing anywhere else. */
  ghost predicate Moved(tree: Tree, a: seq<Name>, tree': Tree, b: seq<Name>) {
    && (forall k | k in tree :: a <= k)
    && (forall k | k in tree' :: b <= k)
    && (forall k: seq<Name> {:trigger a + k} {:trigger b + k} :: NodeAt(tree, a + k) == NodeAt(tree', b + k))
  }

  lemma MovedAt(tree: Tree, a: seq<Name>, tree': Tree, b: seq<Name>, k: seq<Name>)
    requires Moved(tree, a, tree', b)
    ensures NodeAt(tree, a + k) == NodeAt(tree', b + k)
  {
  }

  lemma MovedPut(tree: Tree, a: seq<Name>, tree': Tree, b: seq<Name>, k: seq<Name>, n: Node)
    requires Moved(tree, a, tree', b)
    ensures Moved(tree[a + k := n], a, tree'[b + k := n], b)
  {
    var t, t' := tree[a + k := n], tree'[b + k := n];
    forall j: seq<Name>
      ensures NodeAt(t, a + j) == NodeAt(t', b + j)
    {
      assert a + j == a + k <==> j == k by {
        assert (a + j)[|a|..] == j && (a + k)[|a|..] == k;
      }
      assert b + j == b + k <==> j == k by {
        assert (b + j)[|b|..] == j && (b + k)[|b|..] == k;
      }
      assert NodeAt(tree, a + j) == NodeAt(tree', b + j);
    }
  }

  /** Only one tree is another's renaming. */
  lemma MovedIsUnique(tree: Tree, other: Tree, a: seq<Name>, tree': Tree, b: seq<Name>)
    requires Moved(tree, a, tree', b) && Moved(other, a, tree', b)
    ensures tree == other
  {
    forall k
      ensures NodeAt(tree, k) == NodeAt(other, k)
    {
      if k in tree || k in other {
        assert k == a + k[|a|..];
        assert NodeAt(tree, a + k[|a|..]) == NodeAt(tree', b + k[|a|..]);
        assert NodeAt(other, a + k[|a|..]) == NodeAt(tree', b + k[|a|..]);
      }
    }
    assert forall k :: k in tree <==> NodeAt(tree, k).Some?;
    assert forall k :: k in other <==> NodeAt(other, k).Some?;
    assert forall k | k in tree :: tree[k] == NodeAt(tree, k).value;
    assert forall k | k in other :: other[k] == NodeAt(other, k).value;
  }

  lemma CompsUnder(p: Bytes)
    ensures Comps(p) == Root(TopOf(p)) + Below(p)
  {
    var i := FirstSlash(p);
    if i < |p| {
      assert Pieces(p)[1..] == Pieces(p[i + 1..]);
    } else {
      assert TopOf(p) == p && Pieces(p) == [p];
      assert Clean(Pieces(p)[1..]) == [];
    }
  }

  /** The components below the top. */
  function Below(p: Bytes): seq<Name> {
    var i := FirstSlash(p);
    if i == |p| then [] else Comps(p[i + 1..])
  }

  lemma BelowKept(p: Bytes, top: Name)
    requires SlashFree(top)
    ensures Below(Retop(p, top)) == Below(p) && TopOf(Retop(p, top)) == top
  {
    var rest := p[FirstSlash(p)..];
    FirstSlashAfter(top, rest);
    if rest != [] {
      assert (top + rest)[|top| + 1..] == rest[1..] == p[FirstSlash(p) + 1..];
    }
  }

  // ---- one entry -----------------------------------------------------------------------

  /** What would be where if the root `a` of `tree` were called by the staging name. */
  function LookAs(tree: Tree, a: seq<Name>): seq<Name> -> Option<Node> {
    (k: seq<Name>) => if [SOURCE] <= k then NodeAt(tree, a + k[1..]) else None
  }

  lemma StagedLooksAs(tree: Tree, a: seq<Name>, tree': Tree)
    requires Moved(tree, a, tree', [SOURCE])
    ensures forall k :: Look(tree')(k) == LookAs(tree, a)(k)
  {
    forall k
      ensures Look(tree')(k) == LookAs(tree, a)(k)
    {
      if [SOURCE] <= k {
        assert k == [SOURCE] + k[1..];
        MovedAt(tree, a, tree', [SOURCE], k[1..]);
      }
    }
  }

  lemma {:induction false} FollowSame(look: seq<Name> -> Option<Node>, look': seq<Name> -> Option<Node>, s: Spot, todo: seq<Name>, links: nat)
    requires forall k :: look(k) == look'(k)
    ensures Follow(look, s, todo, links) == Follow(look', s, todo, links)
    decreases links, |todo|
  {
    if todo != [] {
      if todo[0] == DOTDOT {
        FollowSame(look, look', Parent(s), todo[1..], links);
      } else {
        var next := s.path + [todo[0]];
        var node := if s.up == 0 then look(next) else None;
        if node.Some? && node.value.Link? {
          if links > 0 && !node.value.absolute {
            FollowSame(look, look', s, node.value.target + todo[1..], links - 1);
          }
        } else {
          FollowSame(look, look', s.(path := next), todo[1..], links);
        }
      }
    }
  }

  lemma EffectSame(look: seq<Name> -> Option<Node>, look': seq<Name> -> Option<Node>, e: Entry, path: seq<Name>, target: seq<Name>)
    requires forall k :: look(k) == look'(k)
    ensures Effect(look, e, path, target) == Effect(look', e, path, target)
  {
    hide Follow;
    if path != [] {
      FollowSame(look, look', Spot(0, []), path[..|path| - 1], LINK_LIMIT);
    }
    match Lexical([], target)
    case None =>
    case Some(q) =>
      if q != [] {
        FollowSame(look, look', Spot(0, []), q[..|q| - 1], LINK_LIMIT);
      }
  }

  /** What unpacking the staged form of `e` would change, worked out on the source tree. */
  function StagedEffect(tree: Tree, top: Name, e: Entry): Option<Change> {
    Effect(LookAs(tree, Root(top)), e, [SOURCE] + Below(e.path), if e.link.Some? then [SOURCE] + Below(e.link.value) else [])
  }

  /** Unpacking `e` changes the same whether its path, and the target of a hard link, are read as they
      are written or with the staging name for their first name: nothing outside the top directory,
      and in it the same. */
  predicate Alike(tree: Tree, top: Name, e: Entry) {
    var a := Root(top);
    var c, c' := Effect(Look(tree), e, Comps(e.path), TargetOf(e)), StagedEffect(tree, top, e);
    && (c.Some? ==> a <= c.value.at)
    && (c'.Some? ==> [SOURCE] <= c'.value.at)
    && Apply(tree, c) == if c'.Some? then tree[a + c'.value.at[1..] := c'.value.node] else tree
  }

  /** An effect depends on little of the entry. */
  lemma EffectOf(look: seq<Name> -> Option<Node>, e: Entry, s: Entry, path: seq<Name>, target: seq<Name>, target': seq<Name>)
    requires s.kind == e.kind && s.link.Some? == e.link.Some? && OwnNode(s) == OwnNode(e)
    requires e.kind.HardLink? && e.link.Some? ==> target == target'
    ensures Effect(look, e, path, target) == Effect(look, s, path, target')
  {
  }

  lemma StagedEffectIs(utf8: Bytes -> bool, tree: Tree, tree': Tree, e: Entry, top: Name)
    requires Moved(tree, Root(top), tree', [SOURCE])
    requires StageEntry(utf8, e).Some? && (e.link.Some? ==> e.data == [])
    ensures var s := StageEntry(utf8, e).value;
            Effect(Look(tree'), s, Comps(s.path), TargetOf(s)) == StagedEffect(tree, top, e)
  {
    hide Effect, Comps, Moved, Retop, TopOf, Look, LookAs;
    var s := StageEntry(utf8, e).value;
    SourceIsPlain();
    BelowKept(e.path, SOURCE);
    CompsUnder(s.path);
    if e.kind.HardLink? && e.link.Some? {
      BelowKept(e.link.value, SOURCE);
      CompsUnder(s.link.value);
    }
    var target := if e.link.Some? then [SOURCE] + Below(e.link.value) else [];
    StagedLooksAs(tree, Root(top), tree');
    EffectSame(Look(tree'), LookAs(tree, Root(top)), e, Comps(s.path), target);
    EffectOf(Look(tree'), e, s, Comps(s.path), target, TargetOf(s));
  }

  /** Unpacking an entry and its staged form keeps two trees the same but for the top's name if and only
      if the entry is alike. */
  lemma UnpackMovesIff(utf8: Bytes -> bool, tree: Tree, tree': Tree, e: Entry, top: Name)
    requires Moved(tree, Root(top), tree', [SOURCE])
    requires StageEntry(utf8, e).Some? && (e.link.Some? ==> e.data == [])
    ensures Moved(Unpack(tree, e), Root(top), Unpack(tree', StageEntry(utf8, e).value), [SOURCE]) <==> Alike(tree, top, e)
  {
    hide Effect, Comps, Moved, Root, StageEntry, StagedEffect, Look, TargetOf;
    StagedEffectIs(utf8, tree, tree', e, top);
    ChangesMoveIff(tree, Root(top), tree', Effect(Look(tree), e, Comps(e.path), TargetOf(e)), StagedEffect(tree, top, e));
  }

  lemma ChangesMoveIff(tree: Tree, a: seq<Name>, tree': Tree, c: Option<Change>, c': Option<Change>)
    requires Moved(tree, a, tree', [SOURCE])
    ensures Moved(Apply(tree, c), a, Apply(tree', c'), [SOURCE]) <==>
              && (c.Some? ==> a <= c.value.at)
              && (c'.Some? ==> [SOURCE] <= c'.value.at)
              && Apply(tree, c) == if c'.Some? then tree[a + c'.value.at[1..] := c'.value.node] else tree
  {
    var t, t' := Apply(tree, c), Apply(tree', c');
    if Moved(t, a, t', [SOURCE]) {
      assert c.Some? ==> c.value.at in t;
      assert c'.Some? ==> c'.value.at in t';
    }
    if c'.Some? && [SOURCE] <= c'.value.at {
      var k := c'.value.at[1..];
      assert c'.value.at == [SOURCE] + k;
      MovedPut(tree, a, tree', [SOURCE], k, c'.value.node);
      if Moved(t, a, t', [SOURCE]) {
        MovedIsUnique(t, tree[a + k := c'.value.node], a, t', [SOURCE]);
      }
    } else if c'.None? {
      if Moved(t, a, t', [SOURCE]) {
        MovedIsUnique(t, tree, a, t', [SOURCE]);
      }
    }
  }

  // ---- whole archives ------------------------------------------------------------------

  /** Every entry is alike when its turn comes. */
  predicate AllAlike(es: seq<Entry>, top: Name)
    decreases |es|
  {
    es == [] ||
    (var n := |es| - 1; AllAlike(es[..n], top) && (Counts(es[n]) ==> Alike(UnpackAll(es[..n]), top, es[n])))
  }

  /** After every entry the staged archive has unpacked to what the source has, with the top directory
      renamed. */
  ghost predicate KeepsPace(utf8: Bytes -> bool, es: seq<Entry>, top: Name)
    decreases |es|
  {
    && Normalize(utf8, es).Some?
    && Moved(UnpackAll(es), Root(top), UnpackAll(Normalize(utf8, es).value), [SOURCE])
    && (es != [] ==> KeepsPace(utf8, es[..|es| - 1], top))
  }

  lemma PaxUnpacksToNothing(tree: Tree, e: Entry)
    requires e.kind.PaxMeta?
    ensures Unpack(tree, e) == tree
  {
  }

  lemma NothingMoved(top: Name)
    ensures UnpackAll([]) == map[] && Moved(map[], Root(top), map[], [SOURCE])
  {
  }

  /** Re-rooting preserves the tree, exactly: the staged archive unpacks entry by entry to what the
      source unpacks to, with the top directory renamed and nothing else changed, if and only if every
      entry, at its turn, is alike. */
  lemma {:induction false} StagingPreservesTheTreeIff(utf8: Bytes -> bool, es: seq<Entry>, top: Name)
    requires LinksAreEmpty(es) && Normalize(utf8, es).Some?
    ensures KeepsPace(utf8, es, top) <==> AllAlike(es, top)
    decreases |es|
  {
    hide StageEntry, Unpack, Moved, Alike, Normalize;
    NormalizeUnfold(utf8, es);
    if es == [] {
      NothingMoved(top);
    } else {
      var n := |es| - 1;
      StagingPreservesTheTreeIff(utf8, es[..n], top);
      var staged, before := Normalize(utf8, es).value, Normalize(utf8, es[..n]).value;
      if es[n].kind.PaxMeta? {
        PaxUnpacksToNothing(UnpackAll(es[..n]), es[n]);
      } else {
        assert staged[..|staged| - 1] == before;
        if Moved(UnpackAll(es[..n]), Root(top), UnpackAll(before), [SOURCE]) {
          UnpackMovesIff(utf8, UnpackAll(es[..n]), UnpackAll(before), es[n], top);
        }
      }
    }
  }

  // ---- paths that never leave the top directory ----------------------------------------

  /** Where a path leads that is stopped where it climbs above the top directory or becomes absolute. */
  datatype Place = Reached(at: seq<Name>) | Outside | TooManyLinks

  /** Follows `todo` from the directory `at`, through every symbolic link on the way. The top directory
      is `base` components deep. */
  function Walk(look: seq<Name> -> Option<Node>, base: nat, at: seq<Name>, todo: seq<Name>, links: nat): (p: Place)
    requires |at| >= base
    ensures p.Reached? ==> |p.at| >= base
    decreases links, |todo|
  {
    if todo == [] then Reached(at)
    else if todo[0] == DOTDOT then
      if |at| == base then Outside else Walk(look, base, at[..|at| - 1], todo[1..], links)
    else
      var next := at + [todo[0]];
      var node := look(next);
      if node.Some? && node.value.Link? then
        if links == 0 then TooManyLinks
        else if node.value.absolute then Outside
        else Walk(look, base, at, node.value.target + todo[1..], links - 1)
      else Walk(look, base, next, todo[1..], links)
  }

  lemma {:induction false} WalkKeepsBase(look: seq<Name> -> Option<Node>, base: nat, at: seq<Name>, todo: seq<Name>, links: nat)
    requires |at| >= base
    ensures var p := Walk(look, base, at, todo, links); p.Reached? ==> p.at[..base] == at[..base]
    decreases links, |todo|
  {
    if todo != [] {
      if todo[0] == DOTDOT {
        if |at| > base {
          WalkKeepsBase(look, base, at[..|at| - 1], todo[1..], links);
        }
      } else {
        var next := at + [todo[0]];
        var node := look(next);
        if node.Some? && node.value.Link? {
          if links > 0 && !node.value.absolute {
            WalkKeepsBase(look, base, at, node.value.target + todo[1..], links - 1);
          }
        } else {
          WalkKeepsBase(look, base, next, todo[1..], links);
        }
      }
    }
  }

  /** The same place with the first `base` components replaced by `b`. */
  function MovePlace(p: Place, base: nat, b: seq<Name>): Place {
    match p
    case Reached(at) => if |at| < base then p else Reached(b + at[base..])
    case _ => p
  }

  /** Below `a` the one sees what the other sees below `b`. */
  ghost predicate SameBelow(look: seq<Name> -> Option<Node>, a: seq<Name>, look': seq<Name> -> Option<Node>, b: seq<Name>) {
    forall k: seq<Name> {:trigger a + k} {:trigger b + k} :: look(a + k) == look'(b + k)
  }

  lemma SeesTheSame(look: seq<Name> -> Option<Node>, a: seq<Name>, look': seq<Name> -> Option<Node>, b: seq<Name>, k: seq<Name>)
    requires SameBelow(look, a, look', b)
    ensures look(a + k) == look'(b + k)
  {
  }

  /** Every path, through every chain of links, leads in the renamed tree to the image of where it led;
      it leaves the tree in the one exactly when it does in the other, and runs into the limit on links
      in the one exactly when it does in the other. */
  lemma {:induction false} WalkMoves(look: seq<Name> -> Option<Node>, a: seq<Name>, look': seq<Name> -> Option<Node>, b: seq<Name>, at: seq<Name>, todo: seq<Name>, links: nat)
    requires SameBelow(look, a, look', b)
    ensures Walk(look', |b|, b + at, todo, links) == MovePlace(Walk(look, |a|, a + at, todo, links), |a|, b)
    decreases links, |todo|
  {
    hide SameBelow;
    if todo == [] {
      assert (a + at)[|a|..] == at;
    } else if todo[0] == DOTDOT {
      if at != [] {
        var n := |at| - 1;
        assert (a + at)[..|a| + n] == a + at[..n] && (b + at)[..|b| + n] == b + at[..n];
        WalkMoves(look, a, look', b, at[..n], todo[1..], links);
      }
    } else {
      var next := at + [todo[0]];
      assert a + at + [todo[0]] == a + next && b + at + [todo[0]] == b + next;
      SeesTheSame(look, a, look', b, next);
      var node := look(a + next);
      if node.Some? && node.value.Link? {
        if links > 0 && !node.value.absolute {
          WalkMoves(look, a, look', b, at, node.value.target + todo[1..], links - 1);
        }
      } else {
        WalkMoves(look, a, look', b, next, todo[1..], links);
      }
    }
  }

  function FoundAt(p: Place): Found
    requires p != Outside
  {
    if p.Reached? then At(Spot(0, p.at)) else TooMany
  }

  /** A path that never leaves the top directory leads where it leads. */
  lemma {:induction false} WalkIsFollow(look: seq<Name> -> Option<Node>, base: nat, at: seq<Name>, todo: seq<Name>, links: nat)
    requires |at| >= base && Walk(look, base, at, todo, links) != Outside
    ensures Follow(look, Spot(0, at), todo, links) == FoundAt(Walk(look, base, at, todo, links))
    decreases links, |todo|
  {
    if todo != [] {
      if todo[0] == DOTDOT {
        WalkIsFollow(look, base, at[..|at| - 1], todo[1..], links);
      } else {
        var next := at + [todo[0]];
        var node := look(next);
        if node.Some? && node.value.Link? {
          if links > 0 {
            WalkIsFollow(look, base, at, node.value.target + todo[1..], links - 1);
          }
        } else {
          WalkIsFollow(look, base, next, todo[1..], links);
        }
      }
    }
  }

  predicate IsLink(n: Option<Node>) {
    n.Some? && n.value.Link?
  }

  /** A root: the directory of unpacking itself, or one directory in it that is not a link. */
  predicate Rooted(look: seq<Name> -> Option<Node>, a: seq<Name>) {
    a == [] || (|a| == 1 && a[0] != DOTDOT && !IsLink(look(a)))
  }

  /** The way to the directory of `k` never leaves the root. */
  predicate StaysIn(look: seq<Name> -> Option<Node>, a: seq<Name>, k: seq<Name>) {
    k == [] || Walk(look, |a|, a, k[..|k| - 1], LINK_LIMIT) != Outside
  }

  /** Where something with the components `k` below the root is put. */
  function Inside(look: seq<Name> -> Option<Node>, a: seq<Name>, k: seq<Name>): Option<seq<Name>> {
    if k == [] then Some(a)
    else
      match Walk(look, |a|, a, k[..|k| - 1], LINK_LIMIT)
      case Reached(at) => Some(at + [k[|k| - 1]])
      case _ => None
  }

  lemma LandingInside(look: seq<Name> -> Option<Node>, a: seq<Name>, k: seq<Name>)
    requires Rooted(look, a) && StaysIn(look, a, k)
    ensures Landing(look, a + k) == Inside(look, a, k)
    ensures Inside(look, a, k).Some? ==> a <= Inside(look, a, k).value
  {
    if k == [] {
      assert a + k == a;
      if a != [] {
        assert a[..0] == [] && a == [] + [a[0]];
      }
    } else {
      var n := |k| - 1;
      assert (a + k)[..|a| + n] == a + k[..n];
      FromTheRoot(look, a, k[..n]);
      WalkKeepsBase(look, |a|, a, k[..n], LINK_LIMIT);
      WalkIsFollow(look, |a|, a, k[..n], LINK_LIMIT);
    }
  }

  lemma FromTheRoot(look: seq<Name> -> Option<Node>, a: seq<Name>, todo: seq<Name>)
    requires Rooted(look, a)
    ensures Follow(look, Spot(0, []), a + todo, LINK_LIMIT) == Follow(look, Spot(0, a), todo, LINK_LIMIT)
  {
    if a == [] {
      assert a + todo == todo;
    } else {
      assert (a + todo)[1..] == todo && [] + [(a + todo)[0]] == a;
    }
  }

  lemma InsideMoves(look: seq<Name> -> Option<Node>, a: seq<Name>, look': seq<Name> -> Option<Node>, b: seq<Name>, k: seq<Name>)
    requires SameBelow(look, a, look', b) && StaysIn(look, a, k)
    requires Inside(look, a, k).Some? ==> a <= Inside(look, a, k).value
    ensures StaysIn(look', b, k)
    ensures Inside(look', b, k) == match Inside(look, a, k) case None => None case Some(at) => Some(b + at[|a|..])
  {
    hide SameBelow;
    assert a + [] == a && b + [] == b;
    if k != [] {
      WalkMoves(look, a, look', b, [], k[..|k| - 1], LINK_LIMIT);
      if Inside(look, a, k).Some? {
        var at := Walk(look, |a|, a, k[..|k| - 1], LINK_LIMIT).at;
        assert (at + [k[|k| - 1]])[|a|..] == at[|a|..] + [k[|k| - 1]];
        assert b + at[|a|..] + [k[|k| - 1]] == b + (at[|a|..] + [k[|k| - 1]]);
      }
    }
  }

  lemma {:induction false} LexicalBelow(pre: seq<Name>, at: seq<Name>, todo: seq<Name>)
    requires Lexical(at, todo).Some?
    ensures Lexical(pre + at, todo) == Some(pre + Lexical(at, todo).value)
    decreases todo
  {
    if todo != [] {
      if todo[0] == DOTDOT {
        assert (pre + at)[..|pre + at| - 1] == pre + at[..|at| - 1];
        LexicalBelow(pre, at[..|at| - 1], todo[1..]);
      } else {
        assert pre + at + [todo[0]] == pre + (at + [todo[0]]);
        LexicalBelow(pre, at + [todo[0]], todo[1..]);
      }
    }
  }

  lemma LexicalFromRoot(a: seq<Name>, todo: seq<Name>)
    requires a == [] || (|a| == 1 && a[0] != DOTDOT)
    requires Lexical([], todo).Some?
    ensures Lexical([], a + todo) == Some(a + Lexical([], todo).value)
  {
    LexicalBelow(a, [], todo);
    assert a + [] == a;
    if a == [] {
      assert a + todo == todo;
    } else {
      assert (a + todo)[1..] == todo && [] + [(a + todo)[0]] == a;
    }
  }

  /** Nothing `e` is resolved by ever leaves the top directory: the top is not a link, the entry's path
      and a hard link's target begin with it, the target's text does not climb above it, and no
      symbolic link on the way to either does. */
  predicate Clear(tree: Tree, top: Name, e: Entry) {
    var a := Root(top);
    && top != DOTDOT && !IsLink(NodeAt(tree, a))
    && Under(top, e.path) && StaysIn(Look(tree), a, Below(e.path))
    && (e.kind.HardLink? && e.link.Some? ==>
          && Under(top, e.link.value)
          && Lexical([], Below(e.link.value)).Some?
          && StaysIn(Look(tree), a, Lexical([], Below(e.link.value)).value))
  }

  lemma LooksBelow(tree: Tree, a: seq<Name>)
    ensures SameBelow(Look(tree), a, LookAs(tree, a), [SOURCE])
  {
    forall k: seq<Name>
      ensures Look(tree)(a + k) == LookAs(tree, a)([SOURCE] + k)
    {
      assert ([SOURCE] + k)[1..] == k;
    }
  }

  /** Where both land, in terms of the source tree. */
  lemma BothLand(tree: Tree, a: seq<Name>, k: seq<Name>)
    requires Rooted(Look(tree), a) && !IsLink(NodeAt(tree, a)) && StaysIn(Look(tree), a, k)
    ensures var l, l' := Landing(Look(tree), a + k), Landing(LookAs(tree, a), [SOURCE] + k);
            && (l.Some? <==> l'.Some?)
            && (l.Some? ==> a <= l.value && [SOURCE] <= l'.value && l'.value[1..] == l.value[|a|..])
  {
    hide SameBelow, Inside, Landing, StaysIn, LookAs;
    LooksBelow(tree, a);
    LandingInside(Look(tree), a, k);
    InsideMoves(Look(tree), a, LookAs(tree, a), [SOURCE], k);
    SourceIsPlain();
    SeesTheSame(Look(tree), a, LookAs(tree, a), [SOURCE], []);
    assert a + [] == a && [SOURCE] + [] == [SOURCE];
    LandingInside(LookAs(tree, a), [SOURCE], k);
  }

  lemma BothLink(tree: Tree, a: seq<Name>, target: seq<Name>)
    requires Rooted(Look(tree), a) && !IsLink(NodeAt(tree, a))
    requires Lexical([], target).Some? && StaysIn(Look(tree), a, Lexical([], target).value)
    ensures Linked(Look(tree), a + target) == Linked(LookAs(tree, a), [SOURCE] + target)
  {
    hide Landing, StaysIn, Lexical;
    SourceIsPlain();
    var q := Lexical([], target).value;
    LexicalFromRoot(a, target);
    LexicalFromRoot([SOURCE], target);
    BothLand(tree, a, q);
    var l, l' := Landing(Look(tree), a + q), Landing(LookAs(tree, a), [SOURCE] + q);
    if l.Some? {
      assert a + l.value[|a|..] == l.value;
    }
  }

  /** What never leaves the top directory does not notice its name. */
  lemma ClearIsAlike(tree: Tree, top: Name, e: Entry)
    requires Clear(tree, top, e)
    ensures Alike(tree, top, e)
  {
    hide Landing, StaysIn, Linked, Comps, Below, LookAs, OwnNode;
    var a := Root(top);
    CompsUnder(e.path);
    BothLand(tree, a, Below(e.path));
    if e.kind.HardLink? && e.link.Some? {
      CompsUnder(e.link.value);
      BothLink(tree, a, Below(e.link.value));
    }
    var l := Landing(Look(tree), a + Below(e.path));
    if l.Some? {
      assert a + l.value[|a|..] == l.value;
    }
  }

  predicate AllClear(es: seq<Entry>, top: Name)
    decreases |es|
  {
    es == [] ||
    (var n := |es| - 1; AllClear(es[..n], top) && (Counts(es[n]) ==> Clear(UnpackAll(es[..n]), top, es[n])))
  }

  lemma {:induction false} AllClearIsAlike(es: seq<Entry>, top: Name)
    requires AllClear(es, top)
    ensures AllAlike(es, top)
    decreases |es|
  {
    hide Clear, Alike;
    if es != [] {
      var n := |es| - 1;
      AllClearIsAlike(es[..n], top);
      if Counts(es[n]) {
        ClearIsAlike(UnpackAll(es[..n]), top, es[n]);
      }
    }
  }

  // ---- archives whose paths cross no link ----------------------------------------------

  /** May put a symbolic link in its place. */
  predicate MayLink(e: Entry) {
    e.kind.Symlink? || e.kind.HardLink?
  }

  /** The entry at `link` is on the way to `k`. */
  predicate OnTheWay(link: seq<Name>, k: seq<Name>) {
    |link| < |k| && link == k[..|link|]
  }

  /** Said of the archive's text alone: no entry's path, and no hard link's target, goes through a link
      of the archive, and the top directory is not one. */
  predicate NoDetours(es: seq<Entry>) {
    forall i, j | 0 <= i < |es| && 0 <= j < |es| && MayLink(es[j]) ::
      && Below(es[j].path) != []
      && !OnTheWay(Below(es[j].path), Below(es[i].path))
      && (es[i].kind.HardLink? && es[i].link.Some? ==>
            match Lexical([], Below(es[i].link.value))
            case None => true
            case Some(q) => !OnTheWay(Below(es[j].path), q))
  }

  /** Every hard link's target begins with the top directory, and its text does not climb above it. */
  predicate LinksInside(top: Name, es: seq<Entry>) {
    forall i | 0 <= i < |es| && es[i].kind.HardLink? && es[i].link.Some? ::
      Under(top, es[i].link.value) && Lexical([], Below(es[i].link.value)).Some?
  }

  /** Every link in the tree stands where the archive has an entry for one. */
  ghost predicate LinksKnown(tree: Tree, es: seq<Entry>, a: seq<Name>) {
    forall k | k in tree && tree[k].Link? :: exists j :: 0 <= j < |es| && MayLink(es[j]) && k == a + Below(es[j].path)
  }

  lemma {:induction false} WalkStraight(look: seq<Name> -> Option<Node>, base: nat, at: seq<Name>, todo: seq<Name>, links: nat)
    requires |at| >= base && DOTDOT !in todo
    requires forall i | 0 < i <= |todo| :: !IsLink(look(at + todo[..i]))
    ensures Walk(look, base, at, todo, links) == Reached(at + todo)
    decreases todo
  {
    if todo == [] {
      assert at + todo == at;
    } else {
      var next := at + [todo[0]];
      assert todo[..1] == [todo[0]];
      forall i | 0 < i <= |todo[1..]|
        ensures !IsLink(look(next + todo[1..][..i]))
      {
        assert next + todo[1..][..i] == at + todo[..i + 1];
      }
      assert !IsLink(look(at + todo[..1]));
      WalkStraight(look, base, next, todo[1..], links);
      assert next + todo[1..] == at + todo;
    }
  }

  lemma KnownLink(tree: Tree, es: seq<Entry>, a: seq<Name>, k: seq<Name>) returns (j: nat)
    requires LinksKnown(tree, es, a) && IsLink(NodeAt(tree, a + k))
    ensures j < |es| && MayLink(es[j]) && Below(es[j].path) == k
  {
    j :| 0 <= j < |es| && MayLink(es[j]) && a + k == a + Below(es[j].path);
    assert (a + k)[|a|..] == k && (a + Below(es[j].path))[|a|..] == Below(es[j].path);
  }

  /** With no link on the way, `k` stays inside and lands where it says. */
  lemma StraightStays(tree: Tree, es: seq<Entry>, a: seq<Name>, k: seq<Name>)
    requires LinksKnown(tree, es, a) && DOTDOT !in k
    requires forall j | 0 <= j < |es| && MayLink(es[j]) :: !OnTheWay(Below(es[j].path), k)
    ensures StaysIn(Look(tree), a, k) && Inside(Look(tree), a, k) == Some(a + k)
  {
    if k == [] {
      assert a + k == a;
    } else {
      var n := |k| - 1;
      var todo := k[..n];
      forall i | 0 < i <= n
        ensures !IsLink(Look(tree)(a + todo[..i]))
      {
        assert todo[..i] == k[..i];
        if IsLink(NodeAt(tree, a + todo[..i])) {
          var _ := KnownLink(tree, es, a, todo[..i]);
        }
      }
      WalkStraight(Look(tree), |a|, a, todo, LINK_LIMIT);
      assert a + todo + [k[n]] == a + k;
    }
  }

  lemma {:induction false} CleanKeepsOut(pieces: seq<Name>)
    requires DOTDOT !in pieces
    ensures DOTDOT !in Clean(pieces)
    decreases pieces
  {
    if pieces != [] {
      CleanKeepsOut(pieces[1..]);
    }
  }

  lemma StagedHasNoParent(utf8: Bytes -> bool, e: Entry)
    requires StageEntry(utf8, e).Some?
    ensures DOTDOT !in Below(e.path)
  {
    hide Pieces, Below, Clean;
    SourceIsPlain();
    NoParentBelow(e.path);
  }

  lemma NoParentBelow(p: Bytes)
    requires DOTDOT !in Pieces(Retop(p, SOURCE))
    ensures DOTDOT !in Below(p)
  {
    hide Clean;
    SourceIsPlain();
    var rest := p[FirstSlash(p)..];
    FirstSlashAfter(SOURCE, rest);
    if rest != [] {
      assert (SOURCE + rest)[|SOURCE| + 1..] == p[FirstSlash(p) + 1..];
      var pieces := Pieces(p[FirstSlash(p) + 1..]);
      assert Pieces(SOURCE + rest) == [SOURCE] + pieces;
      assert DOTDOT !in pieces;
      CleanKeepsOut(pieces);
    }
  }

  lemma {:induction false} LexicalKeepsOut(at: seq<Name>, todo: seq<Name>)
    requires DOTDOT !in at && Lexical(at, todo).Some?
    ensures DOTDOT !in Lexical(at, todo).value
    decreases todo
  {
    if todo != [] {
      LexicalKeepsOut(if todo[0] == DOTDOT then at[..|at| - 1] else at + [todo[0]], todo[1..]);
    }
  }

  lemma TopIsNoLink(tree: Tree, es: seq<Entry>, a: seq<Name>)
    requires LinksKnown(tree, es, a) && forall j | 0 <= j < |es| && MayLink(es[j]) :: Below(es[j].path) != []
    ensures !IsLink(NodeAt(tree, a))
  {
    assert a + [] == a;
    if IsLink(NodeAt(tree, a)) {
      var _ := KnownLink(tree, es, a, []);
    }
  }

  lemma NoDetourIsClear(utf8: Bytes -> bool, tree: Tree, es: seq<Entry>, n: nat, top: Name)
    requires n < |es| && OneTop(top, es) && top != DOTDOT && LinksInside(top, es) && NoDetours(es)
    requires LinksKnown(tree, es[..n], Root(top)) && StageEntry(utf8, es[n]).Some? && Counts(es[n])
    ensures Clear(tree, top, es[n])
    ensures LinksKnown(Unpack(tree, es[n]), es[..n + 1], Root(top))
  {
    hide Comps, Below, StageEntry, Lexical, Walk;
    var a, e := Root(top), es[n];
    assert forall j | 0 <= j < n :: es[..n][j] == es[j];
    assert LinksKnown(tree, es, a);
    TopIsNoLink(tree, es, a);
    StagedHasNoParent(utf8, e);
    StraightStays(tree, es, a, Below(e.path));
    if e.kind.HardLink? && e.link.Some? {
      LexicalKeepsOut([], Below(e.link.value));
      StraightStays(tree, es, a, Lexical([], Below(e.link.value)).value);
    }
    CompsUnder(e.path);
    LandingInside(Look(tree), a, Below(e.path));
    KnownAfter(tree, es, n, top);
  }

  lemma KnownAfter(tree: Tree, es: seq<Entry>, n: nat, top: Name)
    requires n < |es| && LinksKnown(tree, es[..n], Root(top))
    requires Landing(Look(tree), Comps(es[n].path)) == Some(Root(top) + Below(es[n].path))
    ensures LinksKnown(Unpack(tree, es[n]), es[..n + 1], Root(top))
  {
    hide Comps, Below, Landing, Linked, Root;
    var a, e := Root(top), es[n];
    var t, upTo := Unpack(tree, e), es[..n + 1];
    forall k | k in t && t[k].Link?
      ensures exists j :: 0 <= j < |upTo| && MayLink(upTo[j]) && k == a + Below(upTo[j].path)
    {
      if k in tree && tree[k] == t[k] {
        var j :| 0 <= j < n && MayLink(es[..n][j]) && k == a + Below(es[..n][j].path);
        assert upTo[j] == es[..n][j];
      } else {
        assert upTo[n] == e;
        assert k == a + Below(e.path) && MayLink(e);
      }
    }
  }

  lemma {:induction false} NoDetoursAreClear(utf8: Bytes -> bool, es: seq<Entry>, n: nat, top: Name)
    requires n <= |es| && OneTop(top, es) && top != DOTDOT && LinksInside(top, es) && NoDetours(es)
    requires forall i | 0 <= i < |es| && Counts(es[i]) :: StageEntry(utf8, es[i]).Some?
    ensures AllClear(es[..n], top) && LinksKnown(UnpackAll(es[..n]), es[..n], Root(top))
    decreases n
  {
    hide Clear, Unpack, LinksKnown, StageEntry, NoDetours, LinksInside, OneTop;
    if n == 0 {
      NothingKnown(Root(top));
    } else {
      NoDetoursAreClear(utf8, es, n - 1, top);
      assert es[..n][..n - 1] == es[..n - 1] && es[..n][n - 1] == es[n - 1];
      var tree := UnpackAll(es[..n - 1]);
      if Counts(es[n - 1]) {
        NoDetourIsClear(utf8, tree, es, n - 1, top);
      } else {
        PaxUnpacksToNothing(tree, es[n - 1]);
        KnownLonger(tree, es, n - 1, Root(top));
      }
    }
  }

  lemma NothingKnown(a: seq<Name>)
    ensures LinksKnown(map[], [], a)
  {
  }

  lemma KnownLonger(tree: Tree, es: seq<Entry>, n: nat, a: seq<Name>)
    requires n < |es| && LinksKnown(tree, es[..n], a)
    ensures LinksKnown(tree, es[..n + 1], a)
  {
    assert forall j | 0 <= j < n :: es[..n + 1][j] == es[..n][j];
  }

  lemma StagedAll(utf8: Bytes -> bool, es: seq<Entry>)
    requires Normalize(utf8, es).Some?
    ensures forall i | 0 <= i < |es| && Counts(es[i]) :: StageEntry(utf8, es[i]).Some?
  {
    forall i | 0 <= i < |es| && Counts(es[i])
      ensures StageEntry(utf8, es[i]).Some?
    {
      if StageEntry(utf8, es[i]).None? {
        Refused(utf8, es, i);
      }
    }
  }

  /** In particular the tree is preserved, the dot as a top included, when no path goes through a link
      and no hard link's target leaves the top directory. */
  lemma StagingPreservesTheTree(utf8: Bytes -> bool, es: seq<Entry>, top: Name)
    requires OneTop(top, es) && top != DOTDOT && LinksInside(top, es) && NoDetours(es) && LinksAreEmpty(es)
    requires Normalize(utf8, es).Some?
    ensures AllClear(es, top)
    ensures Moved(UnpackAll(es), Root(top), UnpackAll(Normalize(utf8, es).value), [SOURCE])
  {
    hide Normalize, UnpackAll, Moved, AllClear, NoDetours, LinksInside;
    StagedAll(utf8, es);
    NoDetoursAreClear(utf8, es, |es|, top);
    assert es[..|es|] == es;
    AllClearIsAlike(es, top);
    StagingPreservesTheTreeIff(utf8, es, top);
  }

  // ---- what paths mean afterwards ------------------------------------------------------

  /** The place found, with the root `a` called `b`. */
  function MoveFound(f: Found, a: seq<Name>, b: seq<Name>): Found {
    if f.At? && f.spot.up == 0 && a <= f.spot.path then At(Spot(0, b + f.spot.path[|a|..])) else f
  }

  /** In the staged archive every path below the top directory, through every chain of links, leads to
      the image of where it led in the source archive, if it never leaves the top directory; and it
      leaves it in the one exactly when it does in the other. */
  lemma LinksResolveAlike(utf8: Bytes -> bool, es: seq<Entry>, top: Name, todo: seq<Name>, links: nat)
    requires LinksAreEmpty(es) && Normalize(utf8, es).Some? && AllAlike(es, top)
    ensures var a, tree, tree' := Root(top), UnpackAll(es), UnpackAll(Normalize(utf8, es).value);
            var p := Walk(Look(tree), |a|, a, todo, links);
            && Walk(Look(tree'), 1, [SOURCE], todo, links) == MovePlace(p, |a|, [SOURCE])
            && (p != Outside ==>
                  Follow(Look(tree'), Spot(0, [SOURCE]), todo, links) == MoveFound(Follow(Look(tree), Spot(0, a), todo, links), a, [SOURCE]))
  {
    hide Normalize, UnpackAll, Walk, Follow, Moved, AllAlike, Root;
    StagingPreservesTheTreeIff(utf8, es, top);
    var a, tree, tree' := Root(top), UnpackAll(es), UnpackAll(Normalize(utf8, es).value);
    MovedSees(tree, a, tree', [SOURCE]);
    WalkMoves(Look(tree), a, Look(tree'), [SOURCE], [], todo, links);
    assert a + [] == a && [SOURCE] + [] == [SOURCE];
    var p := Walk(Look(tree), |a|, a, todo, links);
    if p != Outside {
      WalkKeepsBase(Look(tree), |a|, a, todo, links);
      WalkIsFollow(Look(tree), |a|, a, todo, links);
      WalkIsFollow(Look(tree'), 1, [SOURCE], todo, links);
    }
  }

  lemma MovedSees(tree: Tree, a: seq<Name>, tree': Tree, b: seq<Name>)
    requires Moved(tree, a, tree', b)
    ensures SameBelow(Look(tree), a, Look(tree'), b)
  {
    forall k: seq<Name>
      ensures Look(tree)(a + k) == Look(tree')(b + k)
    {
      MovedAt(tree, a, tree', b, k);
    }
  }

  /** From the check to the tree: an accepted archive whose tops can be told apart and whose paths are
      not empty keeps its tree through staging if and only if its entries are alike, which they are
      when none of them is resolved by leaving the top directory, which none is when no path goes
      through a link and no hard link's target climbs; and then every path keeps its meaning. */
  lemma AcceptedKeepsItsTree(lossy: Bytes -> string, utf8: Bytes -> bool, es: seq<Entry>, t: string) returns (top: Name)
    requires SingleTop(lossy, es) == Single(t) && TopsTellApart(lossy, es) && NoPathEmpty(es)
    requires LinksAreEmpty(es) && Normalize(utf8, es).Some?
    ensures OneTop(top, es) && lossy(top) == t
    ensures KeepsPace(utf8, es, top) <==> AllAlike(es, top)
    ensures AllClear(es, top) ==> AllAlike(es, top)
    ensures LinksInside(top, es) && NoDetours(es) ==> AllClear(es, top)
    ensures AllAlike(es, top) ==>
              forall todo, links: nat ::
                Walk(Look(UnpackAll(Normalize(utf8, es).value)), 1, [SOURCE], todo, links) ==
                MovePlace(Walk(Look(UnpackAll(es)), |Root(top)|, Root(top), todo, links), |Root(top)|, [SOURCE])
  {
    hide Normalize, UnpackAll, Walk, Moved, SingleTop, TopsTellApart, AllClear, AllAlike, NoDetours, LinksInside, Follow;
    top := AcceptedHasOneTop(lossy, es, t);
    StagingPreservesTheTreeIff(utf8, es, top);
    if AllClear(es, top) {
      AllClearIsAlike(es, top);
    }
    if LinksInside(top, es) && NoDetours(es) {
      StagingPreservesTheTree(utf8, es, top);
    }
    if AllAlike(es, top) {
      forall todo, links: nat
        ensures Walk(Look(UnpackAll(Normalize(utf8, es).value)), 1, [SOURCE], todo, links) ==
                MovePlace(Walk(Look(UnpackAll(es)), |Root(top)|, Root(top), todo, links), |Root(top)|, [SOURCE])
      {
        LinksResolveAlike(utf8, es, top, todo, links);
      }
    }
  }
  // ---- the inputs that fail ------------------------------------------------------------

  lemma PiecesCons(n: Name, rest: Bytes)
    requires SlashFree(n)
    ensures Pieces(n + [SLASH] + rest) == [n] + Pieces(rest)
    ensures TopOf(n + [SLASH] + rest) == n && Retop(n + [SLASH] + rest, SOURCE) == SOURCE + [SLASH] + rest
  {
    var p := n + [SLASH] + rest;
    assert p == n + ([SLASH] + rest);
    FirstSlashAfter(n, [SLASH] + rest);
    assert p[|n| + 1..] == rest;
    assert SOURCE + ([SLASH] + rest) == SOURCE + [SLASH] + rest;
  }

  lemma CompsCons(n: Name, rest: Bytes)
    requires SlashFree(n) && n != [] && n != DOT
    ensures Comps(n + [SLASH] + rest) == [n] + Comps(rest)
  {
    PiecesCons(n, rest);
    assert ([n] + Pieces(rest))[1..] == Pieces(rest);
  }

  lemma CompsOne(n: Name)
    requires SlashFree(n) && n != [] && n != DOT
    ensures Pieces(n) == [n] && Comps(n) == [n]
  {
    OnePiece(n);
    assert [n][1..] == [] && Clean([]) == [];
  }

  const A: Name := [97]
  const B: Name := [98]
  const D: Name := [100]
  const E: Name := [101]

  function Join(n: Name, rest: Bytes): Bytes {
    n + [SLASH] + rest
  }

  function FileEntry(path: Bytes): Entry {
    Entry(Regular, path, None, None, None, 0, [])
  }

  function LinkEntry(kind: Kind, path: Bytes, target: Bytes): Entry {
    Entry(kind, path, Some(target), None, None, 0, [])
  }

  predicate Ascii(b: Bytes) {
    forall i | 0 <= i < |b| :: b[i] < 128
  }

  ghost predicate AcceptsAscii(utf8: Bytes -> bool) {
    forall b | Ascii(b) :: utf8(b)
  }

  lemma StagedFile(utf8: Bytes -> bool, top: Name, rest: Bytes)
    requires AcceptsAscii(utf8) && SlashFree(top) && DOTDOT !in Pieces(rest) && Ascii(rest)
    ensures StageEntry(utf8, FileEntry(Join(top, rest))) ==
            Some(Entry(Regular, Join(SOURCE, rest), None, Some(0x1A4), Some(0), BUILDER_UID, []))
  {
    hide Pieces, Retop;
    SourceIsPlain();
    PiecesCons(top, rest);
    PiecesCons(SOURCE, rest);
  }

  lemma StagedLink(utf8: Bytes -> bool, kind: Kind, top: Name, rest: Bytes, target: Bytes)
    requires AcceptsAscii(utf8) && SlashFree(top) && DOTDOT !in Pieces(rest) && Ascii(rest) && Ascii(target)
    ensures StageEntry(utf8, LinkEntry(kind, Join(top, rest), target)) ==
            Some(Entry(kind, Join(SOURCE, rest), Some(if kind.HardLink? then Retop(target, SOURCE) else target), Some(ModeOf(LinkEntry(kind, [], []))), Some(0), BUILDER_UID, []))
  {
    hide Pieces, Retop;
    SourceIsPlain();
    PiecesCons(top, rest);
    PiecesCons(SOURCE, rest);
  }

  lemma NormalizeTwo(utf8: Bytes -> bool, a: Entry, b: Entry)
    requires Counts(a) && Counts(b) && StageEntry(utf8, a).Some? && StageEntry(utf8, b).Some?
    ensures Normalize(utf8, [a, b]) == Some([StageEntry(utf8, a).value, StageEntry(utf8, b).value])
  {
    hide StageEntry, Normalize;
    assert [a, b][..1] == [a] && [a][..0] == [];
    NormalizeUnfold(utf8, []);
    NormalizeUnfold(utf8, [a]);
    NormalizeUnfold(utf8, [a, b]);
    var sa, sb := StageEntry(utf8, a).value, StageEntry(utf8, b).value;
    assert [] + [sa] == [sa] && [sa] + [sb] == [sa, sb];
  }

  lemma UnpackTwo(a: Entry, b: Entry)
    ensures UnpackAll([a, b]) == Unpack(Unpack(map[], a), b)
  {
    hide Unpack;
    assert [a, b][..1] == [a] && [a][..0] == [];
    assert UnpackAll([a]) == Unpack(map[], a);
  }

  lemma LandTwo(look: seq<Name> -> Option<Node>, t: Name, n: Name)
    requires t != DOTDOT && !IsLink(look([t]))
    ensures Landing(look, [t, n]) == Some([t, n])
  {
    assert [t, n][..1] == [t] && [t][1..] == [] && [] + [t] == [t] && [t] + [n] == [t, n];
    assert Follow(look, Spot(0, []), [t], LINK_LIMIT) == Follow(look, Spot(0, [t]), [], LINK_LIMIT);
  }

  /** A file at `t`/`n`, alone. */
  lemma FileUnpacks(e: Entry, t: Name, n: Name)
    requires e.kind.Regular? && Comps(e.path) == [t, n] && t != DOTDOT
    ensures Unpack(map[], e) == map[[t, n] := File(e.data, ModeOf(e))]
  {
    hide Landing, Comps;
    LandTwo(Look(map[]), t, n);
  }

  /** A hard link at `t`/`n` beside one file. */
  lemma HardLinkUnpacks(tree: Tree, f: seq<Name>, node: Node, e: Entry, t: Name, n: Name, q: seq<Name>)
    requires tree == map[f := node] && |f| == 2
    requires e.kind.HardLink? && e.link.Some? && Comps(e.path) == [t, n] && t != DOTDOT
    requires Lexical([], Comps(e.link.value)) == Some(q) && |q| == 2 && q[0] != DOTDOT
    ensures Unpack(tree, e) == if q == f then tree[[t, n] := node] else tree
  {
    hide Landing, Comps, Lexical;
    LandTwo(Look(tree), t, n);
    LandTwo(Look(tree), q[0], q[1]);
    assert q == [q[0], q[1]];
  }

  lemma LexicalPlain(t: Name, n: Name)
    requires t != DOTDOT && n != DOTDOT
    ensures Lexical([], [t, n]) == Some([t, n])
  {
    assert [t, n][1..] == [n] && [n][1..] == [] && [] + [t] == [t] && [t] + [n] == [t, n];
    assert Lexical([t, n], []) == Some([t, n]);
    assert Lexical([t], [n]) == Lexical([t, n], []);
  }

  lemma LexicalAround(s: Name, t: Name, n: Name)
    requires s != DOTDOT && t != DOTDOT && n != DOTDOT
    ensures Lexical([], [s] + ([DOTDOT] + [t, n])) == Some([t, n])
  {
    var todo := [s] + ([DOTDOT] + [t, n]);
    assert todo[1..] == [DOTDOT] + [t, n] && ([DOTDOT] + [t, n])[1..] == [t, n];
    assert [] + [s] == [s] && [s][..0] == [];
    assert Lexical([s], [DOTDOT] + [t, n]) == Lexical([], [t, n]);
    LexicalPlain(t, n);
  }

  /** The top of a hard link's target is replaced unread. So a hard link to another directory's file,
      which unpacks to nothing, is staged as a link to the file of that name in the source tree. */
  lemma HardLinkElsewhereIsCaptured(utf8: Bytes -> bool, top: Name, other: Name)
    requires AcceptsAscii(utf8) && Plain(top) && Plain(other) && top != other && Ascii(other)
    ensures var es := [FileEntry(Join(top, A)), LinkEntry(HardLink, Join(top, B), Join(other, A))];
            && [top, B] !in UnpackAll(es)
            && Normalize(utf8, es).Some?
            && [SOURCE, B] in UnpackAll(Normalize(utf8, es).value)
  {
    hide Unpack, UnpackAll, Normalize, StageEntry, Lexical, Comps, Pieces, AcceptsAscii;
    var a, b := FileEntry(Join(top, A)), LinkEntry(HardLink, Join(top, B), Join(other, A));
    NamesAre(top);
    NamesAre(other);
    NamesAre(SOURCE);
    SourceIsPlain();
    StagedFile(utf8, top, A);
    StagedLink(utf8, HardLink, top, B, Join(other, A));
    PiecesCons(other, A);
    var sa, sb := StageEntry(utf8, a).value, StageEntry(utf8, b).value;
    NormalizeTwo(utf8, a, b);
    UnpackTwo(a, b);
    UnpackTwo(sa, sb);
    FileUnpacks(a, top, A);
    FileUnpacks(sa, SOURCE, A);
    LexicalPlain(other, A);
    LexicalPlain(SOURCE, A);
    HardLinkUnpacks(Unpack(map[], a), [top, A], File([], ModeOf(a)), b, top, B, [other, A]);
    HardLinkUnpacks(Unpack(map[], sa), [SOURCE, A], File([], ModeOf(sa)), sb, SOURCE, B, [SOURCE, A]);
    assert [top, A][0] != [other, A][0] && [top, A][1] != [top, B][1];
  }

  /** What short paths under `t` consist of. */
  lemma NamesAre(t: Name)
    requires Plain(t)
    ensures Comps(Join(t, A)) == [t, A] && Comps(Join(t, B)) == [t, B] && Comps(Join(t, D)) == [t, D]
    ensures DOTDOT !in Pieces(A) && DOTDOT !in Pieces(B) && DOTDOT !in Pieces(D)
  {
    CompsOne(A);
    CompsOne(B);
    CompsOne(D);
    CompsCons(t, A);
    CompsCons(t, B);
    CompsCons(t, D);
  }

  /** A hard link whose target climbs out of the top directory and comes back by its old name: `top/b`
      is a link to `top/a` before staging, and to nothing after it. */
  lemma ClimbingHardLinkBreaks(utf8: Bytes -> bool, top: Name)
    requires AcceptsAscii(utf8) && Plain(top) && top != SOURCE && Ascii(top)
    ensures var es := [FileEntry(Join(top, A)), LinkEntry(HardLink, Join(top, B), Join(top, Join(DOTDOT, Join(top, A))))];
            && NodeAt(UnpackAll(es), [top, B]) == NodeAt(UnpackAll(es), [top, A]) == Some(File([], 0x1A4))
            && Normalize(utf8, es).Some?
            && NodeAt(UnpackAll(Normalize(utf8, es).value), [SOURCE, B]) == None
  {
    hide Unpack, UnpackAll, Normalize, StageEntry, Lexical, Comps, Pieces, AcceptsAscii;
    var target := Join(top, Join(DOTDOT, Join(top, A)));
    var a, b := FileEntry(Join(top, A)), LinkEntry(HardLink, Join(top, B), target);
    NamesAre(top);
    NamesAre(SOURCE);
    SourceIsPlain();
    StagedFile(utf8, top, A);
    StagedLink(utf8, HardLink, top, B, target);
    PiecesCons(top, Join(DOTDOT, Join(top, A)));
    CompsCons(DOTDOT, Join(top, A));
    CompsCons(top, Join(DOTDOT, Join(top, A)));
    CompsCons(SOURCE, Join(DOTDOT, Join(top, A)));
    var sa, sb := StageEntry(utf8, a).value, StageEntry(utf8, b).value;
    NormalizeTwo(utf8, a, b);
    UnpackTwo(a, b);
    UnpackTwo(sa, sb);
    FileUnpacks(a, top, A);
    FileUnpacks(sa, SOURCE, A);
    LexicalAround(top, top, A);
    LexicalAround(SOURCE, top, A);
    HardLinkUnpacks(Unpack(map[], a), [top, A], File([], ModeOf(a)), b, top, B, [top, A]);
    HardLinkUnpacks(Unpack(map[], sa), [SOURCE, A], File([], ModeOf(sa)), sb, SOURCE, B, [top, A]);
    assert [SOURCE, A][0] != [top, A][0] && [SOURCE, A][1] != [SOURCE, B][1] && [top, A][1] != [top, B][1];
  }

  /** A directory link at `t`/d to `../top/e`, alone. */
  lemma DirLinkUnpacks(e: Entry, t: Name, target: Bytes)
    requires e.kind.Symlink? && e.link == Some(target) && Comps(e.path) == [t, D] && t != DOTDOT
    ensures Unpack(map[], e) == map[[t, D] := LinkNode(target)]
  {
    hide Landing, Comps;
    LandTwo(Look(map[]), t, D);
  }

  /** Through that link, a file at `t`/d/a lands in `top`/e. */
  lemma ThroughTheLink(tree: Tree, t: Name, top: Name, absolute: bool)
    requires t != DOTDOT && top != DOTDOT && E != DOTDOT && D != E
    requires tree == map[[t, D] := Link(absolute, [DOTDOT] + [top, E])] && !absolute
    ensures Landing(Look(tree), [t, D] + [A]) == Some([top, E] + [A])
  {
    var look, to := Look(tree), [DOTDOT] + [top, E];
    assert ([t, D] + [A])[..2] == [t, D] && [t, D][1..] == [D] && [D][1..] == [];
    assert [] + [t] == [t] && [t] + [D] == [t, D];
    assert [t, D][1] != [top, E][1];
    assert Follow(look, Spot(0, []), [t, D], LINK_LIMIT) == Follow(look, Spot(0, [t]), [D], LINK_LIMIT);
    assert Follow(look, Spot(0, [t]), [D], LINK_LIMIT) == Follow(look, Spot(0, [t]), to + [], LINK_LIMIT - 1);
    assert to + [] == to && to[1..] == [top, E] && [t][..0] == [];
    assert Follow(look, Spot(0, [t]), to, LINK_LIMIT - 1) == Follow(look, Spot(0, []), [top, E], LINK_LIMIT - 1);
    assert [top, E][1..] == [E] && [] + [top] == [top] && [top] + [E] == [top, E] && [E][1..] == [];
    assert Follow(look, Spot(0, []), [top, E], LINK_LIMIT - 1) == Follow(look, Spot(0, [top]), [E], LINK_LIMIT - 1);
    assert Follow(look, Spot(0, [top]), [E], LINK_LIMIT - 1) == Follow(look, Spot(0, [top, E]), [], LINK_LIMIT - 1);
  }

  lemma FileThroughUnpacks(tree: Tree, e: Entry, t: Name, top: Name, node: Node)
    requires e.kind.Regular? && Comps(e.path) == [t, D] + [A] && t != DOTDOT && top != DOTDOT
    requires node == Link(false, [DOTDOT] + [top, E]) && tree == map[[t, D] := node]
    ensures Unpack(tree, e) == tree[[top, E] + [A] := File(e.data, ModeOf(e))]
  {
    hide Landing, Comps;
    ThroughTheLink(tree, t, top, false);
  }

  /** A path through a symbolic link that climbs out and comes back by the old name: `top/d` is a link to
      `../top/e`, and the file `top/d/a` unpacks to `top/e/a` before staging, and after it to the same
      place, outside the staged tree. */
  lemma ClimbingDirectoryLinkMisleads(utf8: Bytes -> bool, top: Name)
    requires AcceptsAscii(utf8) && Plain(top) && top != SOURCE && Ascii(top)
    ensures var es := [LinkEntry(Symlink, Join(top, D), Join(DOTDOT, Join(top, E))), FileEntry(Join(top, Join(D, A)))];
            && [top, E] + [A] in UnpackAll(es)
            && Normalize(utf8, es).Some?
            && [SOURCE, E] + [A] !in UnpackAll(Normalize(utf8, es).value)
            && [top, E] + [A] in UnpackAll(Normalize(utf8, es).value)
  {
    hide Unpack, UnpackAll, Normalize, StageEntry, Comps, Pieces, AcceptsAscii;
    var target := Join(DOTDOT, Join(top, E));
    var l, f := LinkEntry(Symlink, Join(top, D), target), FileEntry(Join(top, Join(D, A)));
    NamesAre(top);
    NamesAre(SOURCE);
    SourceIsPlain();
    CompsOne(A);
    CompsOne(E);
    PiecesCons(D, A);
    CompsCons(D, A);
    CompsCons(top, Join(D, A));
    CompsCons(SOURCE, Join(D, A));
    CompsCons(top, E);
    CompsCons(DOTDOT, Join(top, E));
    StagedLink(utf8, Symlink, top, D, target);
    StagedFile(utf8, top, Join(D, A));
    var sl, sf := StageEntry(utf8, l).value, StageEntry(utf8, f).value;
    NormalizeTwo(utf8, l, f);
    UnpackTwo(l, f);
    UnpackTwo(sl, sf);
    DirLinkUnpacks(l, top, target);
    DirLinkUnpacks(sl, SOURCE, target);
    assert [top] + ([D] + [A]) == [top, D] + [A] && [SOURCE] + ([D] + [A]) == [SOURCE, D] + [A];
    assert [top] + [E] == [top, E];
    FileThroughUnpacks(Unpack(map[], l), f, top, top, LinkNode(target));
    FileThroughUnpacks(Unpack(map[], sl), sf, SOURCE, top, LinkNode(target));
    assert ([SOURCE, E] + [A])[0] != ([top, E] + [A])[0];
    assert |[SOURCE, E] + [A]| != |[SOURCE, D]|;
  }

  // ---- targets that climb out and come back --------------------------------------------

  /** Reads a relative target off the text alone. */
  function Textual(s: Spot, todo: seq<Name>): Spot
    decreases todo
  {
    if todo == [] then s
    else if todo[0] == DOTDOT then
      Textual(if s.path == [] then s.(up := s.up + 1) else s.(path := s.path[..|s.path| - 1]), todo[1..])
    else Textual(s.(path := s.path + [todo[0]]), todo[1..])
  }

  /** Whether the target at some point stands above the top directory. */
  predicate Climbs(s: Spot, todo: seq<Name>)
    decreases todo
  {
    || s.path == []
    || (todo != [] &&
        Climbs(if todo[0] == DOTDOT then s.(path := s.path[..|s.path| - 1]) else s.(path := s.path + [todo[0]]), todo[1..]))
  }

  /** The staged name of a spot: what was in the top directory `a` is in `b`. */
  function MoveSpot(s: Spot, a: Name, b: Name): Spot {
    if s.up == 0 && s.path != [] && s.path[0] == a then s.(path := [b] + s.path[1..]) else s
  }

  lemma {:induction false} StayingInsideMoves(s: Spot, todo: seq<Name>, a: Name, b: Name)
    requires s.up == 0 && s.path != [] && s.path[0] == a && !Climbs(s, todo)
    ensures Textual(MoveSpot(s, a, b), todo) == MoveSpot(Textual(s, todo), a, b)
    ensures var r := Textual(s, todo); r.up == 0 && r.path != [] && r.path[0] == a
    decreases todo
  {
    if todo != [] {
      var n := |s.path| - 1;
      var m := MoveSpot(s, a, b);
      if todo[0] == DOTDOT {
        var t := s.(path := s.path[..n]);
        assert t.path != [];
        assert MoveSpot(t, a, b).path == m.path[..n];
        StayingInsideMoves(t, todo[1..], a, b);
      } else {
        var t := s.(path := s.path + [todo[0]]);
        assert MoveSpot(t, a, b).path == m.path + [todo[0]];
        StayingInsideMoves(t, todo[1..], a, b);
      }
    }
  }

  /** Once above the top directory its name is forgotten. */
  lemma {:induction false} ClimbingForgets(s: Spot, todo: seq<Name>, a: Name, b: Name)
    requires s.up == 0 && s.path != [] && s.path[0] == a && Climbs(s, todo)
    ensures Textual(MoveSpot(s, a, b), todo) == Textual(s, todo)
    decreases todo
  {
    var n := |s.path| - 1;
    var m := MoveSpot(s, a, b);
    if todo[0] == DOTDOT {
      var t := s.(path := s.path[..n]);
      if n == 0 {
        assert m.path[..n] == t.path == [];
      } else {
        assert MoveSpot(t, a, b).path == m.path[..n];
        ClimbingForgets(t, todo[1..], a, b);
      }
    } else {
      var t := s.(path := s.path + [todo[0]]);
      assert MoveSpot(t, a, b).path == m.path + [todo[0]];
      ClimbingForgets(t, todo[1..], a, b);
    }
  }

  /** A symbolic link's target is left as it is, and that is right exactly when the target never stands
      above the top directory, or ends somewhere that staging does not rename. One that climbs out and
      comes back in by the old name is broken, unless that name was the staging name already. */
  lemma SymlinkSurvivesIff(dir: seq<Name>, todo: seq<Name>, top: Name)
    ensures var s := Spot(0, [top] + dir);
            Textual(MoveSpot(s, top, SOURCE), todo) == MoveSpot(Textual(s, todo), top, SOURCE) <==>
              || !Climbs(s, todo)
              || top == SOURCE
              || var r := Textual(s, todo); !(r.up == 0 && r.path != [] && r.path[0] == top)
  {
    var s := Spot(0, [top] + dir);
    if Climbs(s, todo) {
      ClimbingForgets(s, todo, top, SOURCE);
      var r := Textual(s, todo);
      assert MoveSpot(r, top, SOURCE) == r <==> top == SOURCE || !(r.up == 0 && r.path != [] && r.path[0] == top) by {
        if r.up == 0 && r.path != [] && r.path[0] == top {
          assert r.path == [top] + r.path[1..];
          assert ([SOURCE] + r.path[1..])[0] == SOURCE;
        }
      }
    } else {
      StayingInsideMoves(s, todo, top, SOURCE);
    }
  }

  /** The broken case exists: from `top/l`, the target `../top/f` leads to `top/f` before staging, and
      after it still to `top/f`, which is no longer there. */
  lemma ClimbingBreaks(top: Name, f: Name)
    requires Plain(top) && Plain(f) && top != SOURCE
    ensures Textual(Spot(0, [top]), [DOTDOT, top, f]) == Spot(0, [top, f])
    ensures Textual(MoveSpot(Spot(0, [top]), top, SOURCE), [DOTDOT, top, f]) == Spot(0, [top, f])
    ensures MoveSpot(Spot(0, [top, f]), top, SOURCE) == Spot(0, [SOURCE, f])
  {
    assert [DOTDOT, top, f][1..] == [top, f] && [top, f][1..] == [f] && [f][1..] == [];
    assert [top][..0] == [] && [SOURCE][..0] == [];
    assert Textual(Spot(0, [top, f]), []) == Spot(0, [top, f]);
    assert [top] + [f] == [top, f];
    assert Spot(0, []).path + [top] == [top];
    assert Textual(Spot(0, [top]), [f]) == Spot(0, [top, f]);
    assert Textual(Spot(0, []), [top, f]) == Spot(0, [top, f]);
  }

  /** Under the dot, staging moves everything one directory down, and a target read off its text moves
      with it: inside to the same place below the staging name, and outside to the same place above the
      top directory. No target depends on an old name. */
  lemma {:induction false} DotTargetsShift(s: Spot, todo: seq<Name>)
    ensures Textual(Shifted(s), todo) == Shifted(Textual(s, todo))
    decreases todo
  {
    if todo != [] {
      var n := |s.path| - 1;
      if todo[0] == DOTDOT {
        var t := if s.path == [] then s.(up := s.up + 1) else s.(path := s.path[..n]);
        if s.up == 0 && s.path == [] {
          assert [SOURCE][..0] == [];
        } else if s.up == 0 {
          assert ([SOURCE] + s.path)[..n + 1] == [SOURCE] + s.path[..n];
        }
        DotTargetsShift(t, todo[1..]);
      } else {
        assert s.up == 0 ==> [SOURCE] + s.path + [todo[0]] == [SOURCE] + (s.path + [todo[0]]);
        DotTargetsShift(s.(path := s.path + [todo[0]]), todo[1..]);
      }
    }
  }

  /** The same spot once the unpacked tree sits in a directory of its own. */
  function Shifted(s: Spot): Spot {
    if s.up == 0 then Spot(0, [SOURCE] + s.path) else Spot(s.up - 1, s.path)
  }
}
