/** How `CMetaInfoState` gathers metadata from the events of recorded files.  The numbers that several
    sources give to their files are replaced by numbers of its own, one for each path. */
module MetaState {
  import opened Options
  import opened Events
  import opened Extractor
  import opened GroupOrder

  datatype PlaneInfo = PlaneInfo(plane: string, path: string, striped: bool)

  /** `deriveLogicalFileName`, whatever name it derives from a path and the plane it lies on. */
  type DeriveFn = (string, Option<PlaneInfo>) -> string

  /** A number that `EvAttrFileId` can hold. */
  type FileNumber = n: nat | n < TWO_32

  /** How a source names a file: `makeSourceFileKey`. */
  datatype SourceKey = SourceKey(instance: nat, file: FileNumber, channel: nat, replica: nat)

  /** How many sources have been opened, the planes announced so far, in the order of their names, the
      number of each path, the number of each file of a source, and the mappings. */
  datatype Known = Known(sourceCount: nat, planes: seq<PlaneInfo>, files: map<string, FileNumber>,
                         sources: map<SourceKey, FileNumber>, meta: Meta)

  const NOTHING: Known := Known(0, [], map[], map[], Meta(map[], map[], map[], map[]))

  const UINT32_MAX: nat := 0xFFFF_FFFF

  predicate IsSeparator(c: char) {
    c == '/' || c == '\\'
  }

  /** The path lies on the plane. */
  predicate LiesOn(path: string, p: PlaneInfo) {
    && p.path != "" && p.path <= path
    && (IsSeparator(p.path[|p.path| - 1]) || |path| == |p.path| || IsSeparator(path[|p.path|]))
  }

  /** The longest plane that a path lies on, the first of them if there are several. */
  function BestPlane(planes: seq<PlaneInfo>, path: string): Option<PlaneInfo> {
    if planes == [] then None
    else
      var best, last := BestPlane(planes[..|planes| - 1], path), planes[|planes| - 1];
      if (best.None? || |last.path| > |best.value.path|) && LiesOn(path, last) then Some(last) else best
  }

  lemma {:induction false} BestPlaneIsLongest(planes: seq<PlaneInfo>, path: string)
    ensures var best := BestPlane(planes, path);
            && (best.None? <==> forall p | p in planes :: !LiesOn(path, p))
            && (best.Some? ==> best.value in planes && LiesOn(path, best.value))
            && (best.Some? ==> forall p | p in planes && LiesOn(path, p) :: |p.path| <= |best.value.path|)
  {
    if planes != [] {
      var n := |planes| - 1;
      BestPlaneIsLongest(planes[..n], path);
      assert planes == planes[..n] + [planes[n]];
    }
  }

  /** The loop of `findBestPlaneMatch`. */
  method FindBestPlane(planes: seq<PlaneInfo>, path: string) returns (best: Option<PlaneInfo>)
    ensures best == BestPlane(planes, path)
  {
    best := None;
    for i := 0 to |planes|
      invariant best == BestPlane(planes[..i], path)
    {
      assert planes[..i + 1][..i] == planes[..i];
      var plane := planes[i];
      if best.None? || |plane.path| > |best.value.path| {
        if LiesOn(path, plane) { best := Some(plane); }
      }
    }
    assert planes[..|planes|] == planes;
  }

  function PlaneOfEvent(e: Event): PlaneInfo {
    PlaneInfo(OptionalText(e, Plane), OptionalText(e, Path), IsStriped in e.attrs && e.attrs[IsStriped] == Flag(true))
  }

  /** The planes with one more, where its name belongs; one of the same name has to be the same. */
  function WithPlane(planes: seq<PlaneInfo>, p: PlaneInfo): Option<seq<PlaneInfo>> {
    if planes == [] || TextLess(p.plane, planes[0].plane) then Some([p] + planes)
    else if planes[0].plane == p.plane then if planes[0] == p then Some(planes) else None
    else
      var rest := WithPlane(planes[1..], p);
      if rest.None? then None else Some([planes[0]] + rest.value)
  }

  /** A file keeps the path it was announced with first, and gets the plane and name it has now. */
  function WithFile(derive: DeriveFn, k: Known, id: nat, path: string): Known
    requires path != ""
  {
    var best, m := BestPlane(k.planes, path), k.meta;
    var paths := if id in m.paths then m.paths else m.paths[id := path];
    assert forall i | i in paths :: paths[i] != "" by {
      assert forall i | i in m.paths :: m.paths[i] in m.paths.Values;
    }
    k.(meta := Meta(paths, if best.Some? then m.planes[id := best.value.plane] else m.planes,
                    m.logicalNames[id := derive(path, best)], m.services))
  }

  /** A trace keeps the service it was announced with first. */
  function WithService(k: Known, traceId: string, service: string): Known
    requires service != ""
  {
    var m := k.meta;
    var services := if traceId in m.services then m.services else m.services[traceId := service];
    assert forall t | t in services :: services[t] != "" by {
      assert forall t | t in m.services :: m.services[t] in m.services.Values;
    }
    k.(meta := Meta(m.paths, m.planes, m.logicalNames, services))
  }

  function KeyOf(e: Event): SourceKey {
    SourceKey(OptionalNum(e, InstanceId), OptionalNum(e, FileId), OptionalNum(e, ChannelId), OptionalNum(e, ReplicaId))
  }

  function Renumbered(e: Event, id: FileNumber): Event {
    e.(attrs := e.attrs[FileId := Number(id)])
  }

  /** `tryRemapFileId`, without its memory of the last event. */
  function Remapped(k: Known, e: Event): Event {
    if k.sourceCount <= 1 || FileId !in e.attrs || KeyOf(e) !in k.sources then e
    else Renumbered(e, k.sources[KeyOf(e)])
  }

  /** What is known after an event, and the event as it is passed on. */
  datatype Step = Step(known: Known, event: Event)

  /** The event gives a file a number and a path. */
  predicate AnnouncesFile(e: Event) {
    e.kind.FileInformation? && FileId in e.attrs && OptionalText(e, Path) != ""
  }

  /** The path gets a number if it has none, and with several sources so does the source's file. */
  function Registered(k: Known, e: Event): Known
    requires AnnouncesFile(e) && |k.files| < UINT32_MAX
  {
    var path := TextOf(e, Path);
    var files := if path in k.files then k.files else k.files[path := |k.files| + 1];
    k.(files := files,
       sources := if k.sourceCount > 1 && KeyOf(e) !in k.sources then k.sources[KeyOf(e) := files[path]] else k.sources)
  }

  /** The number under which a file is known. */
  function Target(k: Known, e: Event): FileNumber
    requires AnnouncesFile(e) && |k.files| < UINT32_MAX
  {
    if k.sourceCount > 1 then Registered(k, e).files[TextOf(e, Path)] else Num(e, FileId)
  }

  /** With one source every announcement is taken, with several only that of a new path. */
  function WithAnnounced(derive: DeriveFn, k: Known, e: Event): Known
    requires AnnouncesFile(e) && |k.files| < UINT32_MAX
  {
    if TextOf(e, Path) !in k.files || k.sourceCount <= 1 then
      WithFile(derive, Registered(k, e), Target(k, e), TextOf(e, Path))
    else Registered(k, e)
  }

  function FileStep(derive: DeriveFn, k: Known, e: Event): Option<Step>
    requires AnnouncesFile(e)
  {
    if |k.files| >= UINT32_MAX then None
    else Some(Step(WithAnnounced(derive, k, e), if k.sourceCount > 1 then Renumbered(e, Target(k, e)) else e))
  }

  /** One event; None where planes of one name conflict, or the numbers are used up. */
  function Next(derive: DeriveFn, k: Known, e: Event): Option<Step> {
    match e.kind
    case PlaneInformation =>
      var planes := WithPlane(k.planes, PlaneOfEvent(e));
      if planes.None? then None else Some(Step(k.(planes := planes.value), e))
    case FileInformation => if AnnouncesFile(e) then FileStep(derive, k, e) else Some(Step(k, e))
    case QueryStart =>
      if OptionalText(e, EventTraceId) != "" && OptionalText(e, ServiceName) != "" then
        Some(Step(WithService(k, TextOf(e, EventTraceId), TextOf(e, ServiceName)), e))
      else Some(Step(k, e))
    case _ => Some(Step(k, Remapped(k, e)))
  }

  /** What reaches the collector: a source is opened, or an event is seen. */
  datatype Item = Opened | Seen(event: Event)

  function NextKnown(derive: DeriveFn, k: Known, item: Item): Option<Known> {
    match item
    case Opened => Some(k.(sourceCount := k.sourceCount + 1))
    case Seen(e) => if Next(derive, k, e).Some? then Some(Next(derive, k, e).value.known) else None
  }

  function After(derive: DeriveFn, run: seq<Item>): Option<Known> {
    if run == [] then Some(NOTHING)
    else
      var front := After(derive, run[..|run| - 1]);
      if front.None? then None else NextKnown(derive, front.value, run[|run| - 1])
  }

  // ----- the collector ------------------------------------------------------------------------------

  class MetaInfoState {
    const derive: DeriveFn
    var sourceCount: nat
    var planes: seq<PlaneInfo>
    var indexFiles: map<string, FileNumber>
    var sourceToProps: map<SourceKey, FileNumber>
    var meta: Meta
    /** The last event that was given another number, and that number. */
    var lastRemap: Option<(SourceKey, FileNumber)>

    /** What is remembered of the last event is still so. */
    ghost predicate Valid()
      reads this
    {
      lastRemap.Some? ==> lastRemap.value.0 in sourceToProps && sourceToProps[lastRemap.value.0] == lastRemap.value.1
    }

    constructor (derive: DeriveFn)
      ensures Valid() && this.derive == derive && Shown() == NOTHING
    {
      this.derive, sourceCount, planes, lastRemap := derive, 0, [], None;
      indexFiles, sourceToProps, meta := map[], map[], Meta(map[], map[], map[], map[]);
    }

    function Shown(): Known
      reads this
    {
      Known(sourceCount, planes, indexFiles, sourceToProps, meta)
    }

    method OnFile()
      requires Valid()
      modifies this`sourceCount
      ensures Valid() && Shown() == old(Shown()).(sourceCount := old(sourceCount) + 1)
    {
      sourceCount := sourceCount + 1;
    }

    method TryRemapFileId(e: Event) returns (event: Event)
      requires Valid()
      modifies this`lastRemap
      ensures Valid() && event == Remapped(Shown(), e)
    {
      if sourceCount <= 1 || FileId !in e.attrs { return e; }
      var key := KeyOf(e);
      if lastRemap.Some? && lastRemap.value.0 == key { return Renumbered(e, lastRemap.value.1); }
      if key !in sourceToProps { return e; }
      lastRemap := Some((key, sourceToProps[key]));
      return Renumbered(e, sourceToProps[key]);
    }

    /** The part of `onEvent` for a file. */
    method OnFileInformation(e: Event) returns (ok: bool, event: Event)
      requires Valid() && AnnouncesFile(e)
      modifies this
      ensures Valid() && (ok <==> FileStep(derive, old(Shown()), e).Some?)
      ensures if ok then FileStep(derive, old(Shown()), e) == Some(Step(Shown(), event)) else Shown() == old(Shown())
    {
      if |indexFiles| >= UINT32_MAX { return false, e; }
      event := e;
      var path := TextOf(e, Path);
      var isNewPath := path !in indexFiles;
      if isNewPath { indexFiles := indexFiles[path := |indexFiles| + 1]; }
      var target := if sourceCount > 1 then indexFiles[path] else Num(e, FileId);
      if sourceCount > 1 {
        if KeyOf(e) !in sourceToProps { sourceToProps := sourceToProps[KeyOf(e) := indexFiles[path]]; }
        event := Renumbered(e, target);
      }
      if isNewPath || sourceCount <= 1 {
        var known := WithFile(derive, Shown(), target, path);
        meta := known.meta;
      }
      ok := true;
    }

    /** `onEvent`; an exception is reported as failure. */
    method OnEvent(e: Event) returns (ok: bool, event: Event)
      requires Valid()
      modifies this
      ensures Valid() && (ok <==> Next(derive, old(Shown()), e).Some?)
      ensures if ok then Next(derive, old(Shown()), e) == Some(Step(Shown(), event)) else Shown() == old(Shown())
    {
      ok, event := true, e;
      match e.kind
      case PlaneInformation =>
        var more := WithPlane(planes, PlaneOfEvent(e));
        if more.None? { return false, e; }
        planes := more.value;
      case FileInformation =>
        if FileId in e.attrs && Path in e.attrs && TextOf(e, Path) != "" { ok, event := OnFileInformation(e); }
      case QueryStart =>
        if EventTraceId in e.attrs && ServiceName in e.attrs && TextOf(e, EventTraceId) != ""
          && TextOf(e, ServiceName) != "" {
          var known := WithService(Shown(), TextOf(e, EventTraceId), TextOf(e, ServiceName));
          meta := known.meta;
        }
      case _ => event := TryRemapFileId(e);
    }
  }

  // ----- where a plane without a name comes from ----------------------------------------------------

  /** The event announces a plane without a name. */
  predicate AnnouncesNameless(e: Event) {
    e.kind.PlaneInformation? && OptionalText(e, Plane) == ""
  }

  ghost predicate PlanesNamed(k: Known) {
    (forall p | p in k.planes :: p.plane != "") && forall id | id in k.meta.planes :: k.meta.planes[id] != ""
  }

  lemma {:induction false} WithPlaneAdds(planes: seq<PlaneInfo>, p: PlaneInfo)
    requires WithPlane(planes, p).Some?
    ensures forall q :: q in WithPlane(planes, p).value <==> q in planes || q == p
  {
    if planes != [] && !TextLess(p.plane, planes[0].plane) && planes[0].plane != p.plane {
      WithPlaneAdds(planes[1..], p);
      assert planes == [planes[0]] + planes[1..];
    }
  }

  lemma FileStaysNamed(derive: DeriveFn, k: Known, e: Event)
    requires PlanesNamed(k) && AnnouncesFile(e) && FileStep(derive, k, e).Some?
    ensures PlanesNamed(FileStep(derive, k, e).value.known)
  {
    BestPlaneIsLongest(k.planes, TextOf(e, Path));
  }

  lemma StaysNamed(derive: DeriveFn, k: Known, e: Event)
    requires PlanesNamed(k) && !AnnouncesNameless(e) && Next(derive, k, e).Some?
    ensures PlanesNamed(Next(derive, k, e).value.known)
  {
    if e.kind.PlaneInformation? {
      WithPlaneAdds(k.planes, PlaneOfEvent(e));
    } else if AnnouncesFile(e) {
      FileStaysNamed(derive, k, e);
    }
  }

  /** While every plane is announced with a name, no file gets one without. */
  lemma {:induction false} NamedPlanesStayNamed(derive: DeriveFn, run: seq<Item>)
    requires After(derive, run).Some? && forall item | item in run && item.Seen? :: !AnnouncesNameless(item.event)
    ensures PlanesNamed(After(derive, run).value)
  {
    if run != [] {
      var front := run[..|run| - 1];
      NamedPlanesStayNamed(derive, front);
      var item := run[|run| - 1];
      if item.Seen? { StaysNamed(derive, After(derive, front).value, item.event); }
    }
  }

  lemma OneItemMore(derive: DeriveFn, run: seq<Item>, item: Item)
    ensures After(derive, run + [item]) ==
            if After(derive, run).None? then None else NextKnown(derive, After(derive, run).value, item)
  {
    assert (run + [item])[..|run|] == run;
  }

  /** A file that is announced on a nameless plane, alone or for the first time, is known to lie on it,
      and so is any event about the file. */
  lemma FileOnNameless(derive: DeriveFn, k: Known, file: Event, hit: Event)
    requires AnnouncesFile(file) && |k.files| < UINT32_MAX && (TextOf(file, Path) !in k.files || k.sourceCount <= 1)
    requires var best := BestPlane(k.planes, TextOf(file, Path)); best.Some? && best.value.plane == ""
    requires Plane !in hit.attrs && FileId in hit.attrs && Num(hit, FileId) == Target(k, file)
    ensures var next := Next(derive, k, file);
            next.Some? && UnnamedPlane(Context(hit, Some(next.value.known.meta), None))
  {
  }

  lemma HitOnNameless(derive: DeriveFn, plane: Event, file: Event, hit: Event) returns (run: seq<Item>, meta: Meta)
    requires plane == Event(PlaneInformation, map[Path := Text("/p")])
    requires AnnouncesFile(file) && TextOf(file, Path) == "/p/x"
    requires Plane !in hit.attrs && FileId in hit.attrs && Num(hit, FileId) == Num(file, FileId)
    ensures After(derive, run).Some? && After(derive, run).value.meta == meta
    ensures UnnamedPlane(Context(hit, Some(meta), None))
  {
    var known := FirstPlane(derive, plane);
    var front := [Opened] + [Seen(plane)];
    FileOnNameless(derive, known, file, hit);
    OneItemMore(derive, front, Seen(file));
    run, meta := front + [Seen(file)], Next(derive, known, file).value.known.meta;
  }

  /** A source, a plane and a file that leave the file with a nameless plane: any event about that file
      then has one. */
  lemma UnnamedPlaneArises(derive: DeriveFn) returns (run: seq<Item>, c: Context)
    ensures After(derive, run).Some? && c.meta == Some(After(derive, run).value.meta) && UnnamedPlane(c)
  {
    var plane: Event := Event(PlaneInformation, map[Path := Text("/p")]);
    var file: Event := Event(FileInformation, map[FileId := Number(1), Path := Text("/p/x")]);
    var hit: Event := Event(OtherEvent(0), map[FileId := Number(1)]);
    var meta;
    run, meta := HitOnNameless(derive, plane, file, hit);
    c := Context(hit, Some(meta), None);
  }

  lemma FirstPlane(derive: DeriveFn, plane: Event) returns (known: Known)
    requires plane == Event(PlaneInformation, map[Path := Text("/p")])
    ensures After(derive, [Opened] + [Seen(plane)]) == Some(known) && known.sourceCount == 1 && known.files == map[]
    ensures var best := BestPlane(known.planes, "/p/x"); best.Some? && best.value.plane == ""
  {
    var p := PlaneInfo("", "/p", false);
    OneItemMore(derive, [], Opened);
    assert [] + [Opened] == [Opened];
    OneItemMore(derive, [Opened], Seen(plane));
    assert PlaneOfEvent(plane) == p;
    assert [p] + [] == [p];
    assert WithPlane([], p) == Some([p]);
    known := NOTHING.(sourceCount := 1, planes := [p]);
    BestPlaneIsLongest([p], "/p/x");
    assert p in [p] && LiesOn("/p/x", p);
  }

  // ----- several sources ----------------------------------------------------------------------------

  /** Two sources have been opened before the first event. */
  predicate SeveralSources(run: seq<Item>) {
    |run| >= 2 && run[0].Opened? && run[1].Opened?
  }

  /** The path that a source's file was announced with first. */
  function Announced(run: seq<Item>, key: SourceKey): Option<string> {
    if run == [] then None
    else
      var front, last := Announced(run[..|run| - 1], key), run[|run| - 1];
      if front.None? && last.Seen? && AnnouncesFile(last.event) && KeyOf(last.event) == key then
        Some(TextOf(last.event, Path))
      else front
  }

  /** Some path has the number. */
  ghost predicate GivenOut(files: map<string, nat>, n: nat) {
    exists p :: p in files && files[p] == n
  }

  /** The numbers given out are 1 to the number of paths, one for each path. */
  ghost predicate Numbered(files: map<string, nat>) {
    && (forall p | p in files :: 1 <= files[p] <= |files|)
    && (forall p, q | p in files && q in files && files[p] == files[q] :: p == q)
    && (forall n | 1 <= n <= |files| :: GivenOut(files, n))
  }

  /** Every path is known under its number, and nothing else is. */
  ghost predicate Resolves(files: map<string, nat>, paths: map<nat, string>) {
    && (forall p | p in files :: files[p] in paths && paths[files[p]] == p)
    && (forall id | id in paths :: 1 <= id <= |files|)
  }

  /** Each announced file of a source has the number of its path, and no other file has one. */
  ghost predicate Mapped(files: map<string, nat>, sources: map<SourceKey, nat>, run: seq<Item>) {
    forall key ::
      && (key in sources <==> Announced(run, key).Some?)
      && (key in sources ==> Announced(run, key).value in files && sources[key] == files[Announced(run, key).value])
  }

  lemma OneNumberMore(files: map<string, nat>, path: string)
    requires Numbered(files) && path !in files
    ensures var more := files[path := |files| + 1]; Numbered(more) && |more| == |files| + 1
  {
    var more := files[path := |files| + 1];
    assert |more| == |files| + 1;
    forall n | 1 <= n <= |more| ensures GivenOut(more, n) {
      if n <= |files| {
        assert GivenOut(files, n);
        var p :| p in files && files[p] == n;
        assert p in more && more[p] == n;
      } else {
        assert path in more && more[path] == n;
      }
    }
  }

  lemma OnePathMore(files: map<string, nat>, paths: map<nat, string>, path: string)
    requires Numbered(files) && Resolves(files, paths) && path !in files
    ensures |files| + 1 !in paths
    ensures Resolves(files[path := |files| + 1], paths[|files| + 1 := path])
  {
    var more := files[path := |files| + 1];
    assert |more| == |files| + 1;
    forall p | p in more ensures more[p] in paths[|files| + 1 := path] && paths[|files| + 1 := path][more[p]] == p {
      if p != path { assert p in files && files[p] in paths; }
    }
  }

  lemma OneItemMapped(run: seq<Item>, item: Item, key: SourceKey)
    ensures Announced(run + [item], key) ==
            if Announced(run, key).None? && item.Seen? && AnnouncesFile(item.event) && KeyOf(item.event) == key then
              Some(TextOf(item.event, Path))
            else Announced(run, key)
  {
    assert (run + [item])[..|run|] == run;
  }

  predicate IsFileItem(item: Item) {
    item.Seen? && AnnouncesFile(item.event)
  }

  lemma MappedStill(files: map<string, nat>, sources: map<SourceKey, nat>, run: seq<Item>, item: Item)
    requires Mapped(files, sources, run) && !IsFileItem(item)
    ensures Mapped(files, sources, run + [item])
  {
    forall key ensures Announced(run + [item], key) == Announced(run, key) {
      OneItemMapped(run, item, key);
    }
  }

  lemma MappedMore(files: map<string, nat>, more: map<string, nat>, sources: map<SourceKey, nat>, run: seq<Item>,
                   item: Item)
    requires Mapped(files, sources, run) && IsFileItem(item) && TextOf(item.event, Path) in more
    requires forall p | p in files :: p in more && more[p] == files[p]
    ensures var key := KeyOf(item.event);
            Mapped(more, if key in sources then sources else sources[key := more[TextOf(item.event, Path)]],
                   run + [item])
  {
    var key := KeyOf(item.event);
    forall other ensures Announced(run + [item], other) ==
      if other == key && other !in sources then Some(TextOf(item.event, Path)) else Announced(run, other)
    {
      OneItemMapped(run, item, other);
    }
  }

  /** The tables that the numbers are taken from agree with one another. */
  ghost predicate Sorted(k: Known) {
    k.sourceCount > 1 && Numbered(k.files) && Resolves(k.files, k.meta.paths)
  }

  lemma NewFile(derive: DeriveFn, k: Known, id: nat, path: string)
    requires path != "" && id !in k.meta.paths
    ensures var known := WithFile(derive, k, id, path);
            && known.sourceCount == k.sourceCount && known.files == k.files && known.sources == k.sources
            && known.meta.paths == k.meta.paths[id := path]
  {
  }

  /** The numbers after one more path, which gets one if it has none. */
  function WithNumber(files: map<string, nat>, path: string): map<string, nat> {
    if path in files then files else files[path := |files| + 1]
  }

  lemma WithNumberIsSorted(files: map<string, nat>, paths: map<nat, string>, path: string)
    requires Numbered(files) && Resolves(files, paths)
    ensures Numbered(WithNumber(files, path))
    ensures Resolves(WithNumber(files, path), if path in files then paths else paths[|files| + 1 := path])
  {
    if path !in files {
      OneNumberMore(files, path);
      OnePathMore(files, paths, path);
    }
  }

  lemma RegisteredTables(k: Known, e: Event)
    requires k.sourceCount > 1 && AnnouncesFile(e) && |k.files| < UINT32_MAX
    ensures var next, path, key := Registered(k, e), TextOf(e, Path), KeyOf(e);
            && next.sourceCount == k.sourceCount && next.files == WithNumber(k.files, path)
            && next.sources == (if key in k.sources then k.sources else k.sources[key := next.files[path]])
            && next.meta == k.meta && Target(k, e) == next.files[path]
  {
  }

  /** What a file event leaves of the tables. */
  lemma FileTables(derive: DeriveFn, k: Known, e: Event)
    requires k.sourceCount > 1 && AnnouncesFile(e) && |k.files| < UINT32_MAX
    requires TextOf(e, Path) !in k.files ==> |k.files| + 1 !in k.meta.paths
    ensures var next, path, registered := WithAnnounced(derive, k, e), TextOf(e, Path), Registered(k, e);
            && next.sourceCount == k.sourceCount && next.files == registered.files
            && next.sources == registered.sources
            && next.meta.paths == if path in k.files then k.meta.paths else k.meta.paths[|k.files| + 1 := path]
  {
    RegisteredTables(k, e);
    if TextOf(e, Path) !in k.files { NewFile(derive, Registered(k, e), |k.files| + 1, TextOf(e, Path)); }
  }

  lemma FileStaysSorted(derive: DeriveFn, k: Known, run: seq<Item>, item: Item)
    requires Sorted(k) && Mapped(k.files, k.sources, run) && IsFileItem(item) && |k.files| < UINT32_MAX
    ensures var next := WithAnnounced(derive, k, item.event);
            Sorted(next) && Mapped(next.files, next.sources, run + [item])
  {
    var path := TextOf(item.event, Path);
    RegisteredTables(k, item.event);
    if path !in k.files { OnePathMore(k.files, k.meta.paths, path); }
    FileTables(derive, k, item.event);
    WithNumberIsSorted(k.files, k.meta.paths, path);
    MappedMore(k.files, WithNumber(k.files, path), k.sources, run, item);
  }

  lemma OtherTables(derive: DeriveFn, k: Known, item: Item)
    requires NextKnown(derive, k, item).Some? && !IsFileItem(item)
    ensures var next := NextKnown(derive, k, item).value;
            && next.sourceCount >= k.sourceCount && next.files == k.files && next.sources == k.sources
            && next.meta.paths == k.meta.paths
  {
  }

  lemma StaysSorted(derive: DeriveFn, k: Known, run: seq<Item>, item: Item)
    requires Sorted(k) && Mapped(k.files, k.sources, run) && NextKnown(derive, k, item).Some?
    ensures var next := NextKnown(derive, k, item).value;
            Sorted(next) && Mapped(next.files, next.sources, run + [item])
  {
    if IsFileItem(item) {
      FileStaysSorted(derive, k, run, item);
    } else {
      OtherTables(derive, k, item);
      MappedStill(k.files, k.sources, run, item);
    }
  }

  lemma {:induction false} RunIsSorted(derive: DeriveFn, run: seq<Item>)
    requires SeveralSources(run) && After(derive, run).Some?
    ensures var k := After(derive, run).value; Sorted(k) && Mapped(k.files, k.sources, run)
    decreases |run|
  {
    var n := |run| - 1;
    assert run == run[..n] + [run[n]];
    if |run| == 2 {
      TwoSources(derive, run);
    } else {
      RunIsSorted(derive, run[..n]);
      StaysSorted(derive, After(derive, run[..n]).value, run[..n], run[n]);
    }
  }

  lemma TwoSources(derive: DeriveFn, run: seq<Item>)
    requires SeveralSources(run) && |run| == 2
    ensures After(derive, run) == Some(NOTHING.(sourceCount := 2))
    ensures Sorted(NOTHING.(sourceCount := 2)) && Mapped(map[], map[], run)
  {
    assert run == [Opened] + [Opened];
    OneItemMore(derive, [], Opened);
    assert [] + [Opened] == [Opened];
    OneItemMore(derive, [Opened], Opened);
    forall key ensures Announced(run, key) == None {
      OneItemMapped([], Opened, key);
      OneItemMapped([Opened], Opened, key);
    }
  }

  lemma NumbersResolve(k: Known, run: seq<Item>, key: SourceKey)
    requires Sorted(k) && Mapped(k.files, k.sources, run)
    ensures key in k.sources <==> Announced(run, key).Some?
    ensures key in k.sources ==> FilePath(k.meta, k.sources[key]) == Announced(run, key).value
  {
  }

  lemma NumbersTaken(k: Known, id: nat)
    requires Sorted(k)
    ensures id in k.meta.paths <==> 1 <= id <= |k.files|
  {
    if 1 <= id <= |k.files| {
      assert GivenOut(k.files, id);
      var p :| p in k.files && k.files[p] == id;
      assert id in k.meta.paths;
    }
  }

  lemma RemappedNumber(k: Known, e: Event)
    requires k.sourceCount > 1 && FileId in e.attrs
    ensures KeyOf(e) !in k.sources ==> Remapped(k, e) == e
    ensures FileId in Remapped(k, e).attrs
    ensures KeyOf(e) in k.sources ==> Num(Remapped(k, e), FileId) == k.sources[KeyOf(e)]
  {
  }

  /** With several sources an event of an announced file is about the path that its source announced,
      whatever number the source gave it.  Any other event keeps its number, and is taken to be about a
      file that some source announced exactly when that number is one of those given out. */
  lemma EventsResolve(derive: DeriveFn, run: seq<Item>, e: Event)
    requires SeveralSources(run) && After(derive, run).Some? && FileId in e.attrs
    ensures FileId in Remapped(After(derive, run).value, e).attrs
    ensures var k := After(derive, run).value;
            var path, id := Announced(run, KeyOf(e)), Num(Remapped(k, e), FileId);
            && (path.Some? ==> FilePath(k.meta, id) == path.value)
            && (path.None? ==> Remapped(k, e) == e && (id in k.meta.paths <==> 1 <= id <= |k.files|))
  {
    RunIsSorted(derive, run);
    var k := After(derive, run).value;
    RemappedNumber(k, e);
    NumbersResolve(k, run, KeyOf(e));
    NumbersTaken(k, Num(Remapped(k, e), FileId));
  }

  /** Files of any sources get one number exactly when they were announced with one path. */
  lemma NumbersArePaths(derive: DeriveFn, run: seq<Item>, d: Event, e: Event)
    requires SeveralSources(run) && After(derive, run).Some? && FileId in d.attrs && FileId in e.attrs
    requires Announced(run, KeyOf(d)).Some? && Announced(run, KeyOf(e)).Some?
    ensures var k := After(derive, run).value;
            && FileId in Remapped(k, d).attrs && FileId in Remapped(k, e).attrs
            && (Num(Remapped(k, d), FileId) == Num(Remapped(k, e), FileId)
                <==> Announced(run, KeyOf(d)) == Announced(run, KeyOf(e)))
  {
    RunIsSorted(derive, run);
    var k := After(derive, run).value;
    RemappedNumber(k, d);
    RemappedNumber(k, e);
  }
}
