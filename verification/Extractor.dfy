/** Grouping attributes: the value an event has for one, the hash it contributes, and the comparison
    with a group's stored values.  The three are written separately and have to agree. */
module Extractor {
  import opened Options
  import opened Events

  /** One grouping attribute, as `parseAttribute` leaves it. */
  datatype AttrId = Plain(attr: Attr) | SearchFlag(bit: nat) | LogicalFileName | InputFileName

  datatype RawGroupAttribute = GroupAttribute(id: AttrId, isBucket: bool, bucketScale: nat)

  /** A bucket is only accepted for an attribute with a unit, all of which are numeric, and its size is not 0. */
  type GroupAttribute = g: RawGroupAttribute | g.isBucket ==> g.id.Plain? && IsNumeric(g.id.attr) && g.bucketScale > 0
    witness GroupAttribute(InputFileName, false, 1)

  /** Everything the extractor looks at: the event, the metadata if any, and the input file's path if any. */
  datatype Context = Context(event: Event, meta: Option<Meta>, inputPath: Option<string>)

  type Bytes = seq<nat>

  /** `fnv1a64Seeded(data, length, running)`, for whatever hash it computes. */
  type HashFn = (Bytes, nat) -> nat

  const INITIAL_HASH: nat := 0xcbf29ce484222325

  function TextBytes(s: string): Bytes {
    seq(|s|, i requires 0 <= i < |s| => s[i] as nat)
  }

  /** The eight bytes of a 64-bit number. */
  function NumberBytes(n: nat): Bytes {
    [n % 0x100, n / 0x100 % 0x100, n / 0x1_0000 % 0x100, n / 0x100_0000 % 0x100,
     n / 0x1_0000_0000 % 0x100, n / 0x100_0000_0000 % 0x100, n / 0x1_0000_0000_0000 % 0x100,
     n / 0x100_0000_0000_0000 % 0x100]
  }

  function TextHash(h: HashFn, s: string): nat {
    h(TextBytes(s), INITIAL_HASH)
  }

  function Bucket(g: GroupAttribute, n: nat): nat
    requires g.isBucket
  {
    n / g.bucketScale * g.bucketScale
  }

  function FlagText(b: bool): string {
    if b then "true" else "false"
  }

  predicate HasFlag(e: Event, bit: nat)
    requires SearchFlags in e.attrs
  {
    Num(e, SearchFlags) / Power2(bit) % 2 == 1
  }

  function Power2(n: nat): (p: nat)
    ensures p > 0
  {
    if n == 0 then 1 else 2 * Power2(n - 1)
  }

  /** A text attribute that is either recorded in the event or derived from the metadata; the empty
      text stands for the null pointer. */
  function ResolveText(a: Attr, c: Context): string
    requires a in {ServiceName, Path, Plane}
  {
    if a in c.event.attrs then TextOf(c.event, a)
    else if c.meta.None? then ""
    else if a == ServiceName && EventTraceId in c.event.attrs then
      ServiceOf(c.meta.value, TextOf(c.event, EventTraceId))
    else if a == Path && FileId in c.event.attrs then FilePath(c.meta.value, Num(c.event, FileId))
    else if a == Plane then PlaneOf(c.meta.value, c.event)
    else ""
  }

  function NodeKindText(kind: nat): Option<string> {
    if kind < |NODE_KIND_TEXT| then Some(NODE_KIND_TEXT[kind]) else None
  }

  /** `getValue`.  None stands for the exception raised for an unknown node kind. */
  function GetValue(g: GroupAttribute, c: Context): Option<string> {
    var e := c.event;
    match g.id
    case InputFileName => Some(if c.inputPath.Some? then BaseName(c.inputPath.value) else "")
    case SearchFlag(bit) => Some(if SearchFlags in e.attrs then FlagText(HasFlag(e, bit)) else "")
    case LogicalFileName => Some(if c.meta.Some? then LogicalNameOf(c.meta.value, e) else "")
    case Plain(a) =>
      if a == NodeKind then
        if a in e.attrs then NodeKindText(Num(e, a))
        else if e.kind.IndexPayload? then NodeKindText(LEAF_NODE)
        else Some("")
      else if a in {ServiceName, Path, Plane} then
        Some(ResolveText(a, c))
      else if a in e.attrs then
        if g.isBucket then Some(Decimal(Bucket(g, Num(e, a))))
        else if IsNumeric(a) then Some(Decimal(Num(e, a)))
        else if TypeOf(a) == Str then Some(TextOf(e, a))
        else assert Admits(a, e.attrs[a]); Some(FlagText(e.attrs[a].flag))
      else Some("")
  }

  /** `resolveMetaFnv`: the hash of a derived text, if there is one to hash. */
  function MetaHash(h: HashFn, a: Attr, c: Context): Option<nat>
    requires a in {ServiceName, Path, Plane}
  {
    if c.meta.None? then None
    else
      var m, e := c.meta.value, c.event;
      if a == ServiceName then
        if EventTraceId in e.attrs then
          // queryServiceNameHash
          var traceId := TextOf(e, EventTraceId);
          if traceId != "" && traceId in m.services then Some(TextHash(h, m.services[traceId])) else None
        else None
      else if a == Path then
        if FileId in e.attrs then
          // queryFilePathHash, else the hash of the fallback text
          var id := Num(e, FileId);
          if id in m.paths then Some(TextHash(h, m.paths[id])) else NonEmptyHash(h, FilePath(m, id))
        else None
      else
        var hashed := PlaneHash(h, m, e);
        if hashed.Some? then hashed else NonEmptyHash(h, PlaneOf(m, e))
  }

  /** `queryPlaneHash`: a name from the event counts only when it is not empty; one from the
      metadata counts as it is. */
  function PlaneHash(h: HashFn, m: Meta, e: Event): Option<nat> {
    if Plane in e.attrs then NonEmptyHash(h, TextOf(e, Plane))
    else if FileId !in e.attrs then None
    else if Num(e, FileId) in m.planes then Some(TextHash(h, m.planes[Num(e, FileId)]))
    else None
  }

  /** `hashResolvedValue` */
  function NonEmptyHash(h: HashFn, s: string): Option<nat> {
    if s == "" then None else Some(TextHash(h, s))
  }

  function Folded(hash: Option<nat>): Option<Bytes> {
    if hash.Some? then Some(NumberBytes(hash.value)) else None
  }

  /** What one attribute adds to the running hash in `getHash`; None when it adds nothing. */
  function HashPart(h: HashFn, g: GroupAttribute, c: Context): Option<Bytes> {
    var e := c.event;
    match g.id
    case SearchFlag(bit) =>
      Some(NumberBytes(if SearchFlags in e.attrs then 1 + (if HasFlag(e, bit) then 1 else 0) else 2))
    case LogicalFileName =>
      if c.meta.None? then None
      else
        // queryLogicalFileNameHash, else the hash of the fallback text
        var m := c.meta.value;
        if FileId in e.attrs && Num(e, FileId) in m.logicalNames && m.logicalNames[Num(e, FileId)] != "" then
          Folded(Some(TextHash(h, m.logicalNames[Num(e, FileId)])))
        else Folded(NonEmptyHash(h, LogicalNameOf(m, e)))
    case InputFileName => if c.inputPath.Some? then Folded(NonEmptyHash(h, BaseName(c.inputPath.value))) else None
    case Plain(a) =>
      if a == NodeKind then
        if a in e.attrs then Some(NumberBytes(Num(e, a)))
        else if e.kind.IndexPayload? then Some(NumberBytes(1))
        else None
      else if a in {ServiceName, Path, Plane} then
        if a in e.attrs then Folded(NonEmptyHash(h, TextOf(e, a)))
        else Folded(MetaHash(h, a, c))
      else if a in e.attrs then
        if g.isBucket then Some(NumberBytes(Bucket(g, Num(e, a))))
        else if IsNumeric(a) then Some(NumberBytes(Num(e, a)))
        else if TypeOf(a) == Str then
          if TextOf(e, a) == "" then None else Some(TextBytes(TextOf(e, a)))
        else assert Admits(a, e.attrs[a]); Some([if e.attrs[a].flag then 1 else 0])
      else None
  }

  /** One step of the comparison in `isEqual`; None stands for the exception. */
  function SameAsStored(g: GroupAttribute, c: Context, expected: string): Option<bool> {
    var e := c.event;
    match g.id
    case SearchFlag(bit) =>
      if SearchFlags !in e.attrs then Some(expected == "")
      else Some(expected == (if HasFlag(e, bit) then "true" else "false"))
    case LogicalFileName => Some(expected == (if c.meta.Some? then LogicalNameOf(c.meta.value, e) else ""))
    case InputFileName => Some(expected == (if c.inputPath.Some? then BaseName(c.inputPath.value) else ""))
    case Plain(a) =>
      if a == NodeKind then
        if a in e.attrs then
          var text := NodeKindText(Num(e, a));
          if text.Some? then Some(expected == text.value) else None
        else if e.kind.IndexPayload? then Some(expected == "leaf")
        else Some(expected == "")
      else if a in {ServiceName, Path, Plane} then Some(expected == ResolveText(a, c))
      else if a in e.attrs then
        if g.isBucket then Some(expected == Decimal(Bucket(g, Num(e, a))))
        else if IsNumeric(a) then Some(expected == Decimal(Num(e, a)))
        else if TypeOf(a) == Str then Some(expected == TextOf(e, a))
        else assert Admits(a, e.attrs[a]); Some(expected == (if e.attrs[a].flag then "true" else "false"))
      else Some(expected == "")
  }

  // ----- tuples -----------------------------------------------------------------------------------

  /** The values of a whole level, or None if computing one of them throws. */
  function Values(attrs: seq<GroupAttribute>, c: Context): (vs: Option<seq<string>>)
    ensures vs.Some? ==> |vs.value| == |attrs|
    ensures vs.Some? ==> forall i | 0 <= i < |attrs| :: GetValue(attrs[i], c) == Some(vs.value[i])
    ensures vs.None? ==> exists i | 0 <= i < |attrs| :: GetValue(attrs[i], c).None?
  {
    if attrs == [] then Some([])
    else
      var front := Values(attrs[..|attrs| - 1], c);
      var last := GetValue(attrs[|attrs| - 1], c);
      if front.Some? && last.Some? then Some(front.value + [last.value]) else None
  }

  /** The hash of a whole level. */
  function HashOf(h: HashFn, attrs: seq<GroupAttribute>, c: Context): nat {
    if attrs == [] then INITIAL_HASH
    else
      var running := HashOf(h, attrs[..|attrs| - 1], c);
      var part := HashPart(h, attrs[|attrs| - 1], c);
      if part.Some? then h(part.value, running) else running
  }

  /** `getHash` folds in one attribute at a time. */
  method GetHash(h: HashFn, attrs: seq<GroupAttribute>, c: Context) returns (hash: nat)
    ensures hash == HashOf(h, attrs, c)
  {
    hash := INITIAL_HASH;
    for i := 0 to |attrs|
      invariant hash == HashOf(h, attrs[..i], c)
    {
      var part := HashPart(h, attrs[i], c);
      if part.Some? { hash := h(part.value, hash); }
      assert attrs[..i + 1][..i] == attrs[..i];
    }
    assert attrs[..|attrs|] == attrs;
  }

  /** `getValue` agrees with the stored value exactly when `isEqual` says so, attribute by attribute. */
  lemma SameAsStoredIsGetValue(g: GroupAttribute, c: Context, expected: string)
    ensures SameAsStored(g, c, expected) ==
            (if GetValue(g, c).Some? then Some(expected == GetValue(g, c).value) else None)
  {
    if g.id.Plain? && g.id.attr in c.event.attrs { assert Admits(g.id.attr, c.event.attrs[g.id.attr]); }
  }

  /** `isEqual` accepts a stored tuple exactly when it is the tuple of `getValue` results, and throws
      only where computing that tuple would. */
  method IsEqual(attrs: seq<GroupAttribute>, c: Context, stored: seq<string>) returns (equal: Option<bool>)
    ensures equal == Some(true) <==> Values(attrs, c) == Some(stored)
    ensures equal == None ==> Values(attrs, c) == None
  {
    if |attrs| != |stored| { return Some(false); }
    for i := 0 to |attrs|
      invariant forall j | 0 <= j < i :: GetValue(attrs[j], c) == Some(stored[j])
    {
      SameAsStoredIsGetValue(attrs[i], c, stored[i]);
      var same := SameAsStored(attrs[i], c, stored[i]);
      if same != Some(true) {
        return same;
      }
    }
    if Values(attrs, c).Some? { assert Values(attrs, c).value == stored; }
    return Some(true);
  }

  // ----- the hash is a function of the values ---------------------------------------------------------

  /** The event's plane comes from the metadata, where it was recorded without a name. */
  predicate UnnamedPlane(c: Context) {
    && c.meta.Some? && Plane !in c.event.attrs && FileId in c.event.attrs
    && Num(c.event, FileId) in c.meta.value.planes
    && c.meta.value.planes[Num(c.event, FileId)] == ""
  }

  predicate GroupsByPlane(g: GroupAttribute) {
    g.id == Plain(Plane)
  }

  /** The hash contribution that a value alone accounts for. */
  ghost function PartOfValue(h: HashFn, g: GroupAttribute, value: string): Option<Bytes> {
    match g.id
    case SearchFlag(_) => Some(NumberBytes(if value == "false" then 1 else 2))
    case LogicalFileName => Folded(NonEmptyHash(h, value))
    case InputFileName => Folded(NonEmptyHash(h, value))
    case Plain(a) =>
      if a == NodeKind then
        if value == "" then None
        else Some(NumberBytes(if value == "branch" then 0 else if value == "leaf" then 1 else 2))
      else if a in {ServiceName, Path, Plane} then Folded(NonEmptyHash(h, value))
      else if value == "" then None
      else if IsNumeric(a) then
        if forall i | 0 <= i < |value| :: '0' <= value[i] <= '9' then Some(NumberBytes(Spelled(value))) else None
      else if TypeOf(a) == Str then Some(TextBytes(value))
      else Some([if value == "true" then 1 else 0])
  }

  /** A text found in the metadata is hashed as the text it resolves to. */
  lemma MetaHashOfServiceOrPath(h: HashFn, a: Attr, c: Context)
    requires a in {ServiceName, Path} && a !in c.event.attrs
    ensures MetaHash(h, a, c) == NonEmptyHash(h, ResolveText(a, c))
  {
    if c.meta.Some? {
      var m, e := c.meta.value, c.event;
      if a == Path {
        if FileId in e.attrs && Num(e, FileId) in m.paths { assert m.paths[Num(e, FileId)] in m.paths.Values; }
      } else {
        if EventTraceId in e.attrs && TextOf(e, EventTraceId) in m.services {
          assert m.services[TextOf(e, EventTraceId)] in m.services.Values;
        }
      }
    }
  }

  lemma MetaHashOfPlane(h: HashFn, c: Context)
    requires Plane !in c.event.attrs
    ensures MetaHash(h, Plane, c) == NonEmptyHash(h, ResolveText(Plane, c)) <==> !UnnamedPlane(c)
  {
  }

  lemma DerivedTextPart(h: HashFn, g: GroupAttribute, c: Context)
    requires g.id.Plain? && g.id.attr in {ServiceName, Path, Plane}
    ensures HashPart(h, g, c) == PartOfValue(h, g, ResolveText(g.id.attr, c))
            <==> !(GroupsByPlane(g) && UnnamedPlane(c))
  {
    var a := g.id.attr;
    if a !in c.event.attrs {
      if a == Plane { MetaHashOfPlane(h, c); } else { MetaHashOfServiceOrPath(h, a, c); }
      assert HashPart(h, g, c) == Folded(MetaHash(h, a, c));
      assert PartOfValue(h, g, ResolveText(a, c)) == Folded(NonEmptyHash(h, ResolveText(a, c)));
      if UnnamedPlane(c) && a == Plane { assert ResolveText(a, c) == ""; }
    }
  }

  lemma RecordedPart(h: HashFn, g: GroupAttribute, c: Context)
    requires g.id.Plain? && g.id.attr !in {NodeKind, ServiceName, Path, Plane}
    ensures GetValue(g, c).Some? && HashPart(h, g, c) == PartOfValue(h, g, GetValue(g, c).value)
  {
    var a, e := g.id.attr, c.event;
    if a in e.attrs {
      assert Admits(a, e.attrs[a]);
      if IsNumeric(a) { SpelledDecimal(if g.isBucket then Bucket(g, Num(e, a)) else Num(e, a)); }
    }
  }

  /** An attribute's hash contribution is a function of its value, unless the value is the empty name
      of a plane taken from the metadata, in which case it never is: that name is hashed, while the
      empty name of an event without a plane is not. */
  lemma HashPartIsOfValue(h: HashFn, g: GroupAttribute, c: Context)
    requires GetValue(g, c).Some?
    ensures HashPart(h, g, c) == PartOfValue(h, g, GetValue(g, c).value) <==> !(GroupsByPlane(g) && UnnamedPlane(c))
  {
    if g.id.Plain? && g.id.attr in {ServiceName, Path, Plane} {
      DerivedTextPart(h, g, c);
    } else if g.id.Plain? && g.id.attr != NodeKind {
      RecordedPart(h, g, c);
    }
  }

  /** No group is split: events with equal values at a level hash alike, unless they are grouped by a
      plane whose name is missing. */
  lemma {:induction false} EqualValuesEqualHash(h: HashFn, attrs: seq<GroupAttribute>, c: Context, d: Context)
    requires Values(attrs, c).Some? && Values(attrs, c) == Values(attrs, d)
    requires (exists g | g in attrs :: GroupsByPlane(g)) ==> !UnnamedPlane(c) && !UnnamedPlane(d)
    ensures HashOf(h, attrs, c) == HashOf(h, attrs, d)
  {
    if attrs != [] {
      var n := |attrs| - 1;
      var front, last := attrs[..n], attrs[n];
      assert Values(front, c).value == Values(attrs, c).value[..n] == Values(front, d).value;
      assert GetValue(last, c) == Some(Values(attrs, c).value[n]) == GetValue(last, d);
      HashPartIsOfValue(h, last, c);
      HashPartIsOfValue(h, last, d);
      assert last in attrs && forall g | g in front :: g in attrs;
      EqualValuesEqualHash(h, front, c, d);
    }
  }

  /** What an attribute with a value adds to the hash, when planes come with or without a name. */
  ghost function PartOf(h: HashFn, g: GroupAttribute, value: string, nameless: bool): Option<Bytes> {
    if nameless && GroupsByPlane(g) then Some(NumberBytes(TextHash(h, ""))) else PartOfValue(h, g, value)
  }

  /** The hash of a level, given its values and whether the plane is a nameless one from the metadata. */
  ghost function HashOfValues(h: HashFn, attrs: seq<GroupAttribute>, values: seq<string>, nameless: bool): nat
    requires |values| == |attrs|
  {
    if attrs == [] then INITIAL_HASH
    else
      var n := |attrs| - 1;
      var running := HashOfValues(h, attrs[..n], values[..n], nameless);
      var part := PartOf(h, attrs[n], values[n], nameless);
      if part.Some? then h(part.value, running) else running
  }

  lemma PartIsOfValue(h: HashFn, g: GroupAttribute, c: Context)
    requires GetValue(g, c).Some?
    ensures HashPart(h, g, c) == PartOf(h, g, GetValue(g, c).value, UnnamedPlane(c))
    ensures GroupsByPlane(g) && UnnamedPlane(c) ==> GetValue(g, c).value == ""
  {
    HashPartIsOfValue(h, g, c);
  }

  /** Nothing else of an event shows in the hash of a level. */
  lemma {:induction false} HashIsOfValues(h: HashFn, attrs: seq<GroupAttribute>, c: Context)
    requires Values(attrs, c).Some?
    ensures HashOf(h, attrs, c) == HashOfValues(h, attrs, Values(attrs, c).value, UnnamedPlane(c))
  {
    if attrs != [] {
      var n := |attrs| - 1;
      assert Values(attrs[..n], c).value == Values(attrs, c).value[..n];
      HashIsOfValues(h, attrs[..n], c);
      PartIsOfValue(h, attrs[n], c);
    }
  }

  /** A level's hash shows whether a group with these values has a nameless plane. */
  ghost predicate NamelessShows(h: HashFn, attrs: seq<GroupAttribute>, values: seq<string>) {
    |values| == |attrs| && HashOfValues(h, attrs, values, true) != HashOfValues(h, attrs, values, false)
  }

  /** Whatever the hash and the level, events with equal values have equal hashes exactly when both or
      neither takes a nameless plane from the metadata, or the hash does not show it. */
  lemma HashTellsUnnamedPlanes(h: HashFn, attrs: seq<GroupAttribute>, c: Context, d: Context)
    requires Values(attrs, c).Some? && Values(attrs, c) == Values(attrs, d)
    ensures HashOf(h, attrs, c) == HashOf(h, attrs, d)
            <==> UnnamedPlane(c) == UnnamedPlane(d) || !NamelessShows(h, attrs, Values(attrs, c).value)
  {
    HashIsOfValues(h, attrs, c);
    HashIsOfValues(h, attrs, d);
  }

  // ----- the exception is real ------------------------------------------------------------------------

  const FNV_PRIME: nat := 0x100000001b3

  /** Exclusive or, bit by bit. */
  function Xor(a: nat, b: nat): nat {
    if a == 0 && b == 0 then 0 else (a + b) % 2 + 2 * Xor(a / 2, b / 2)
  }

  /** FNV-1a over 64 bits. */
  function Fnv1a(data: Bytes, running: nat): nat
  {
    if data == [] then running
    else
      Fnv1a(data[1..], Xor(running, data[0]) * FNV_PRIME % TWO_64)
  }

  function Total(data: Bytes): nat {
    if data == [] then 0 else data[0] + Total(data[1..])
  }

  lemma XorParity(a: nat, b: nat)
    ensures Xor(a, b) % 2 == (a + b) % 2
  {
  }

  lemma SameParity(a: int, b: int, half: int)
    requires a == b + 2 * half
    ensures a % 2 == b % 2
  {
  }

  lemma OddProductParity(x: nat)
    ensures x * FNV_PRIME % TWO_64 % 2 == x % 2
  {
    var y, q := x * FNV_PRIME % TWO_64, x * FNV_PRIME / TWO_64;
    SameParity(y, x, x * 0x80000000d9 - q * 0x8000_0000_0000_0000);
  }

  lemma ParityStep(running: nat, byte: nat, mixed: nat, next: nat, rest: nat, result: nat)
    requires mixed % 2 == (running + byte) % 2 && next % 2 == mixed % 2 && result % 2 == (next + rest) % 2
    ensures result % 2 == (running + (byte + rest)) % 2
  {
  }

  /** The prime is odd, so the lowest bit of the hash is the parity of everything hashed. */
  lemma {:induction false} FnvParity(data: Bytes, running: nat)
    ensures Fnv1a(data, running) % 2 == (running + Total(data)) % 2
  {
    if data != [] {
      var mixed := Xor(running, data[0]);
      var next := mixed * FNV_PRIME % TWO_64;
      XorParity(running, data[0]);
      OddProductParity(mixed);
      FnvParity(data[1..], next);
      ParityStep(running, data[0], mixed, next, Total(data[1..]), Fnv1a(data[1..], next));
    }
  }

  lemma InitialHashBytes()
    ensures NumberBytes(INITIAL_HASH) == [0x25, 0x23, 0x22, 0x84, 0xe4, 0x9c, 0xf2, 0xcb]
  {
  }

  lemma TotalOfEight(a: nat, b: nat, c: nat, d: nat, e: nat, f: nat, g: nat, h: nat)
    ensures Total([a, b, c, d, e, f, g, h]) == a + b + c + d + e + f + g + h
  {
    assert Total([h]) == h;
    assert [g, h][1..] == [h];
    assert Total([g, h]) == g + h;
    assert [f, g, h][1..] == [g, h];
    assert Total([f, g, h]) == f + g + h;
    assert [e, f, g, h][1..] == [f, g, h];
    assert Total([e, f, g, h]) == e + f + g + h;
    assert [d, e, f, g, h][1..] == [e, f, g, h];
    assert Total([d, e, f, g, h]) == d + e + f + g + h;
    assert [c, d, e, f, g, h][1..] == [d, e, f, g, h];
    assert Total([c, d, e, f, g, h]) == c + d + e + f + g + h;
    assert [b, c, d, e, f, g, h][1..] == [c, d, e, f, g, h];
    assert Total([b, c, d, e, f, g, h]) == b + c + d + e + f + g + h;
    assert [a, b, c, d, e, f, g, h][1..] == [b, c, d, e, f, g, h];
    assert Total([a, b, c, d, e, f, g, h]) == a + b + c + d + e + f + g + h;
  }

  /** Hashing the empty name changes the running hash. */
  lemma EmptyNameIsHashed(b: Bytes)
    requires b == [0x25, 0x23, 0x22, 0x84, 0xe4, 0x9c, 0xf2, 0xcb]
    ensures Fnv1a(b, INITIAL_HASH) != INITIAL_HASH
  {
    TotalOfEight(0x25, 0x23, 0x22, 0x84, 0xe4, 0x9c, 0xf2, 0xcb);
    FnvParity(b, INITIAL_HASH);
  }

  /** The level groups by plane; a repeated attribute cancels itself out. */
  predicate OddPlanes(attrs: seq<GroupAttribute>) {
    attrs != [] && OddPlanes(attrs[..|attrs| - 1]) != GroupsByPlane(attrs[|attrs| - 1])
  }

  predicate Odd(n: nat) {
    if n < 2 then n == 1 else Odd(n - 2)
  }

  lemma {:induction false} OddIsParity(n: nat)
    ensures Odd(n) <==> n % 2 == 1
  {
    if n >= 2 { OddIsParity(n - 2); }
  }

  ghost predicate ParityAt(h: HashFn, data: Bytes, running: nat) {
    Odd(h(data, running)) == (Odd(running) != Odd(Total(data)))
  }

  /** A hash whose lowest bit is the parity of what is hashed, and that the empty name flips. */
  ghost predicate TellsEmptyNames(h: HashFn) {
    && (forall data: Bytes, running: nat :: ParityAt(h, data, running))
    && Odd(Total(NumberBytes(TextHash(h, ""))))
  }

  lemma FnvParityAt(data: Bytes, running: nat)
    ensures ParityAt(Fnv1a, data, running)
  {
    FnvParity(data, running);
    OddSum(Fnv1a(data, running), running, Total(data));
  }

  lemma OddSum(n: nat, a: nat, b: nat)
    requires n % 2 == (a + b) % 2
    ensures Odd(n) == (Odd(a) != Odd(b))
  {
    OddIsParity(n);
    OddIsParity(a);
    OddIsParity(b);
  }

  lemma FnvTellsEmptyNames()
    ensures TellsEmptyNames(Fnv1a)
  {
    forall data: Bytes, running: nat ensures ParityAt(Fnv1a, data, running) {
      FnvParityAt(data, running);
    }
    EmptyTextHash();
    InitialHashBytes();
    TotalOfEight(0x25, 0x23, 0x22, 0x84, 0xe4, 0x9c, 0xf2, 0xcb);
    OddIsParity(Total(NumberBytes(INITIAL_HASH)));
  }

  /** The values at the planes of a level are empty, as they are for a nameless plane. */
  predicate NoPlaneValues(attrs: seq<GroupAttribute>, values: seq<string>) {
    |values| == |attrs| && forall i | 0 <= i < |attrs| && GroupsByPlane(attrs[i]) :: values[i] == ""
  }

  /** The lowest bit of the level's hash tells how often the empty name has been hashed. */
  lemma {:induction false} UnnamedPlaneParity(h: HashFn, attrs: seq<GroupAttribute>, values: seq<string>)
    requires TellsEmptyNames(h) && NoPlaneValues(attrs, values)
    ensures Odd(HashOfValues(h, attrs, values, true)) ==
            (Odd(HashOfValues(h, attrs, values, false)) != OddPlanes(attrs))
  {
    if attrs != [] {
      var n := |attrs| - 1;
      UnnamedPlaneParity(h, attrs[..n], values[..n]);
      ParityOfPart(h, attrs[n], values[n], HashOfValues(h, attrs[..n], values[..n], true),
                   HashOfValues(h, attrs[..n], values[..n], false));
    }
  }

  function Continued(h: HashFn, part: Option<Bytes>, running: nat): nat {
    if part.Some? then h(part.value, running) else running
  }

  lemma ParityOfPart(h: HashFn, g: GroupAttribute, value: string, x: nat, y: nat)
    requires TellsEmptyNames(h) && (GroupsByPlane(g) ==> value == "")
    ensures (Odd(Continued(h, PartOf(h, g, value, true), x)) != Odd(Continued(h, PartOf(h, g, value, false), y)))
            == ((Odd(x) != Odd(y)) != GroupsByPlane(g))
  {
    var a, b := PartOf(h, g, value, true), PartOf(h, g, value, false);
    if a.Some? { assert ParityAt(h, a.value, x); }
    if b.Some? { assert ParityAt(h, b.value, y); }
  }

  /** A level that has plane an odd number of times shows it, with a hash such as FNV-1a. */
  lemma OddPlanesShow(h: HashFn, attrs: seq<GroupAttribute>, c: Context)
    requires TellsEmptyNames(h) && OddPlanes(attrs) && UnnamedPlane(c) && Values(attrs, c).Some?
    ensures NamelessShows(h, attrs, Values(attrs, c).value)
  {
    var values := Values(attrs, c).value;
    forall i | 0 <= i < |attrs| && GroupsByPlane(attrs[i]) ensures values[i] == "" { PartIsOfValue(h, attrs[i], c); }
    UnnamedPlaneParity(h, attrs, values);
  }

  /** A level without a plane never does. */
  lemma {:induction false} NoPlanesShowNothing(h: HashFn, attrs: seq<GroupAttribute>, values: seq<string>)
    requires |values| == |attrs| && forall g | g in attrs :: !GroupsByPlane(g)
    ensures HashOfValues(h, attrs, values, true) == HashOfValues(h, attrs, values, false)
  {
    if attrs != [] {
      var n := |attrs| - 1;
      assert attrs[n] in attrs && forall g | g in attrs[..n] :: g in attrs;
      NoPlanesShowNothing(h, attrs[..n], values[..n]);
    }
  }

  lemma HashOfOne(h: HashFn, g: GroupAttribute, c: Context)
    ensures HashOf(h, [g], c) ==
            (if HashPart(h, g, c).Some? then h(HashPart(h, g, c).value, INITIAL_HASH) else INITIAL_HASH)
    ensures Values([g], c) == if GetValue(g, c).Some? then Some([GetValue(g, c).value]) else None
  {
    var attrs: seq<GroupAttribute> := [g];
    assert attrs[..0] == [];
    assert Values(attrs[..0], c) == Some([]);
    var v := GetValue(attrs[0], c);
    if v.Some? { assert [] + [v.value] == [v.value]; }
  }

  lemma PlaneParts(h: HashFn, g: GroupAttribute, c: Context)
    requires GroupsByPlane(g) && !g.isBucket && Plane !in c.event.attrs
    ensures UnnamedPlane(c) ==> GetValue(g, c) == Some("") && HashPart(h, g, c) == Some(NumberBytes(TextHash(h, "")))
    ensures FileId !in c.event.attrs ==> GetValue(g, c) == Some("") && HashPart(h, g, c) == None
  {
  }

  /** With FNV-1a itself, an event whose plane was announced without a name and an event without a
      plane have the same value and different hashes: the group "" is split in two. */
  lemma UnnamedPlaneSplitsAGroup(c: Context, d: Context)
    requires UnnamedPlane(c) && Plane !in d.event.attrs && FileId !in d.event.attrs
    ensures var attrs := [GroupAttribute(Plain(Plane), false, 1)];
            Values(attrs, c) == Values(attrs, d) == Some([""]) && HashOf(Fnv1a, attrs, c) != HashOf(Fnv1a, attrs, d)
  {
    var g: GroupAttribute := GroupAttribute(Plain(Plane), false, 1);
    PlaneParts(Fnv1a, g, c);
    PlaneParts(Fnv1a, g, d);
    HashOfOne(Fnv1a, g, c);
    HashOfOne(Fnv1a, g, d);
    EmptyTextHash();
    InitialHashBytes();
    EmptyNameIsHashed(NumberBytes(INITIAL_HASH));
  }

  lemma EmptyTextHash()
    ensures TextHash(Fnv1a, "") == INITIAL_HASH
  {
  }
}
