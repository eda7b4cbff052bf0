/** What the collector of metadata knows after a run, told from the run's events alone. */
module MetaMeaning {
  import opened Options
  import opened Events
  import opened GroupOrder
  import opened MetaState

  // ----- planes -------------------------------------------------------------------------------------

  /** A path lies on a plane if it is the plane's path or goes on from there, after a separator unless the
      plane's path ends in one. */
  lemma LiesOnMeans(path: string, p: PlaneInfo)
    ensures LiesOn(path, p) <==>
            && p.path != "" && |p.path| <= |path| && path[..|p.path|] == p.path
            && (path == p.path || path[|p.path|] in {'/', '\\'} || p.path[|p.path| - 1] in {'/', '\\'})
  {
    if |p.path| <= |path| && path[..|p.path|] == p.path && |path| == |p.path| { assert path[..|path|] == path; }
  }

  ghost predicate SortedPlanes(planes: seq<PlaneInfo>) {
    forall i, j | 0 <= i < j < |planes| :: TextLess(planes[i].plane, planes[j].plane)
  }

  lemma FirstIsLeast(planes: seq<PlaneInfo>, p: PlaneInfo)
    requires SortedPlanes(planes) && planes != [] && TextLess(p.plane, planes[0].plane)
    ensures SortedPlanes([p] + planes) && forall q | q in planes :: TextLess(p.plane, q.plane)
  {
    forall i | 0 <= i < |planes| ensures TextLess(p.plane, planes[i].plane) {
      if i > 0 { TextTransitive(p.plane, planes[0].plane, planes[i].plane); }
    }
  }

  lemma RestIsGreater(planes: seq<PlaneInfo>)
    requires SortedPlanes(planes) && planes != []
    ensures SortedPlanes(planes[1..])
    ensures forall q | q in planes[1..] :: TextLess(planes[0].plane, q.plane) && q.plane != planes[0].plane
  {
    forall q | q in planes[1..] ensures TextLess(planes[0].plane, q.plane) && q.plane != planes[0].plane {
      var i :| 0 <= i < |planes[1..]| && planes[1..][i] == q;
      assert planes[i + 1] == q;
      TextOrder(planes[0].plane, q.plane);
    }
  }

  lemma GoesBelow(first: PlaneInfo, rest: seq<PlaneInfo>)
    requires SortedPlanes(rest) && forall q | q in rest :: TextLess(first.plane, q.plane)
    ensures SortedPlanes([first] + rest)
  {
  }

  /** There is one plane of a name, and a plane is refused exactly if another has its name. */
  lemma {:induction false} PlaneInOrder(planes: seq<PlaneInfo>, p: PlaneInfo)
    requires SortedPlanes(planes)
    ensures var more := WithPlane(planes, p);
            && (more.None? <==> exists q | q in planes :: q.plane == p.plane && q != p)
            && (more.Some? ==> SortedPlanes(more.value))
  {
    if planes != [] {
      TextOrder(p.plane, planes[0].plane);
      RestIsGreater(planes);
      assert forall q :: q in planes <==> q == planes[0] || q in planes[1..];
      if TextLess(p.plane, planes[0].plane) {
        FirstIsLeast(planes, p);
        forall q | q in planes ensures q.plane != p.plane { TextOrder(p.plane, q.plane); }
      } else if planes[0].plane != p.plane {
        PlaneInOrder(planes[1..], p);
        if WithPlane(planes[1..], p).Some? {
          WithPlaneAdds(planes[1..], p);
          GoesBelow(planes[0], WithPlane(planes[1..], p).value);
        }
      }
    }
  }

  predicate AnnouncesPlane(item: Item, p: PlaneInfo) {
    item.Seen? && item.event.kind.PlaneInformation? && PlaneOfEvent(item.event) == p
  }

  /** A plane event gives its name, its path, and whether the plane is striped. */
  lemma PlaneIsRead(e: Event)
    ensures var p := PlaneOfEvent(e);
            && (if Plane in e.attrs then p.plane == TextOf(e, Plane) else p.plane == "")
            && (if Path in e.attrs then p.path == TextOf(e, Path) else p.path == "")
            && (p.striped <==> IsStriped in e.attrs && e.attrs[IsStriped] == Flag(true))
  {
  }

  lemma PlanesOfStep(derive: DeriveFn, k: Known, item: Item)
    requires NextKnown(derive, k, item).Some? && SortedPlanes(k.planes)
    ensures var next := NextKnown(derive, k, item).value;
            SortedPlanes(next.planes) && forall p :: p in next.planes <==> p in k.planes || AnnouncesPlane(item, p)
  {
    if item.Seen? && item.event.kind.PlaneInformation? {
      WithPlaneAdds(k.planes, PlaneOfEvent(item.event));
      PlaneInOrder(k.planes, PlaneOfEvent(item.event));
    }
  }

  /** The planes known after a run are those announced in it. */
  lemma {:induction false} PlanesAreAnnounced(derive: DeriveFn, run: seq<Item>)
    requires After(derive, run).Some?
    ensures SortedPlanes(After(derive, run).value.planes)
    ensures forall p :: p in After(derive, run).value.planes <==> exists item | item in run :: AnnouncesPlane(item, p)
  {
    if run != [] {
      var front, last := run[..|run| - 1], run[|run| - 1];
      PlanesAreAnnounced(derive, front);
      PlanesOfStep(derive, After(derive, front).value, last);
      assert forall item :: item in run <==> item in front || item == last;
    }
  }

  // ----- services -----------------------------------------------------------------------------------

  predicate AnnouncesService(item: Item, traceId: string) {
    item.Seen? && item.event.kind.QueryStart? && traceId != "" && OptionalText(item.event, EventTraceId) == traceId
    && OptionalText(item.event, ServiceName) != ""
  }

  /** The service that a trace was announced with first. */
  function FirstService(run: seq<Item>, traceId: string): Option<string> {
    if run == [] then None
    else
      var front, last := FirstService(run[..|run| - 1], traceId), run[|run| - 1];
      if front.None? && AnnouncesService(last, traceId) then Some(TextOf(last.event, ServiceName)) else front
  }

  /** The event announces the service of some trace. */
  predicate IsServiceItem(item: Item) {
    item.Seen? && item.event.kind.QueryStart? && OptionalText(item.event, EventTraceId) != ""
    && OptionalText(item.event, ServiceName) != ""
  }

  lemma ServiceItemStep(derive: DeriveFn, k: Known, item: Item)
    requires IsServiceItem(item)
    ensures NextKnown(derive, k, item) ==
            Some(WithService(k, TextOf(item.event, EventTraceId), TextOf(item.event, ServiceName)))
  {
  }

  lemma NoServiceStep(derive: DeriveFn, k: Known, item: Item)
    requires NextKnown(derive, k, item).Some? && !IsServiceItem(item)
    ensures NextKnown(derive, k, item).value.meta.services == k.meta.services
  {
    match item
    case Opened =>
    case Seen(e) =>
      match e.kind
      case PlaneInformation =>
      case FileInformation => if AnnouncesFile(e) { FileKeepsServices(derive, k, e); }
      case _ =>
  }

  lemma FileKeepsServices(derive: DeriveFn, k: Known, e: Event)
    requires AnnouncesFile(e) && FileStep(derive, k, e).Some?
    ensures FileStep(derive, k, e).value.known.meta.services == k.meta.services
  {
  }

  lemma ServicesOfStep(derive: DeriveFn, k: Known, item: Item, t: string)
    requires NextKnown(derive, k, item).Some?
    ensures var next := NextKnown(derive, k, item).value;
            && (t in next.meta.services <==> t in k.meta.services || AnnouncesService(item, t))
            && (t in k.meta.services ==> next.meta.services[t] == k.meta.services[t])
            && (t !in k.meta.services && AnnouncesService(item, t) ==>
                  next.meta.services[t] == TextOf(item.event, ServiceName))
  {
    if IsServiceItem(item) { ServiceItemStep(derive, k, item); } else { NoServiceStep(derive, k, item); }
  }

  /** The services known after a run are those that the traces were announced with first. */
  lemma {:induction false} ServicesAreAnnounced(derive: DeriveFn, run: seq<Item>, t: string)
    requires After(derive, run).Some?
    ensures var services := After(derive, run).value.meta.services;
            if t in services then FirstService(run, t) == Some(services[t]) else FirstService(run, t) == None
  {
    if run != [] {
      var front, last := run[..|run| - 1], run[|run| - 1];
      ServicesAreAnnounced(derive, front, t);
      ServicesOfStep(derive, After(derive, front).value, last, t);
    }
  }

  // ----- files of one source ------------------------------------------------------------------------

  predicate OneSource(run: seq<Item>) {
    forall i, j | 0 <= i < j < |run| :: !(run[i].Opened? && run[j].Opened?)
  }

  predicate AnnouncesId(item: Item, id: nat) {
    item.Seen? && AnnouncesFile(item.event) && Num(item.event, FileId) == id
  }

  /** The path that a file was announced with first. */
  function FirstPath(run: seq<Item>, id: nat): Option<string> {
    if run == [] then None
    else
      var front, last := FirstPath(run[..|run| - 1], id), run[|run| - 1];
      if front.None? && AnnouncesId(last, id) then Some(TextOf(last.event, Path)) else front
  }

  /** The path that a file was announced with last, and the plane that it lay on then. */
  ghost function LastPlace(derive: DeriveFn, run: seq<Item>, id: nat): Option<(string, Option<PlaneInfo>)> {
    if run == [] then None
    else
      var front, last := run[..|run| - 1], run[|run| - 1];
      if AnnouncesId(last, id) && After(derive, front).Some? then
        Some((TextOf(last.event, Path), BestPlane(After(derive, front).value.planes, TextOf(last.event, Path))))
      else LastPlace(derive, front, id)
  }

  function Opens(run: seq<Item>): nat {
    if run == [] then 0 else Opens(run[..|run| - 1]) + if run[|run| - 1].Opened? then 1 else 0
  }

  lemma {:induction false} SourcesCounted(derive: DeriveFn, run: seq<Item>)
    requires After(derive, run).Some?
    ensures After(derive, run).value.sourceCount == Opens(run)
  {
    if run != [] {
      SourcesCounted(derive, run[..|run| - 1]);
      SourceOfStep(derive, After(derive, run[..|run| - 1]).value, run[|run| - 1]);
    }
  }

  lemma SourceOfStep(derive: DeriveFn, k: Known, item: Item)
    requires NextKnown(derive, k, item).Some?
    ensures NextKnown(derive, k, item).value.sourceCount == k.sourceCount + if item.Opened? then 1 else 0
  {
    match item
    case Opened =>
    case Seen(e) =>
      match e.kind
      case PlaneInformation =>
      case FileInformation =>
      case _ =>
  }

  lemma {:induction false} FewOpens(run: seq<Item>)
    requires OneSource(run)
    ensures Opens(run) <= 1 && (Opens(run) == 1 ==> exists i | 0 <= i < |run| :: run[i].Opened?)
    ensures (forall i | 0 <= i < |run| :: !run[i].Opened?) ==> Opens(run) == 0
  {
    if run != [] {
      var n := |run| - 1;
      FewOpens(run[..n]);
      if run[n].Opened? { assert forall i | 0 <= i < n :: !run[i].Opened?; }
    }
  }

  lemma OtherItemStep(derive: DeriveFn, k: Known, item: Item)
    requires NextKnown(derive, k, item).Some? && !IsFileItem(item)
    ensures var next := NextKnown(derive, k, item).value.meta;
            next.paths == k.meta.paths && next.logicalNames == k.meta.logicalNames
  {
    match item
    case Opened =>
    case Seen(e) =>
      match e.kind
      case PlaneInformation =>
      case FileInformation =>
      case _ =>
  }

  /** With one source the file is known under its own number. */
  lemma OneSourceStep(derive: DeriveFn, k: Known, e: Event)
    requires AnnouncesFile(e) && |k.files| < UINT32_MAX && k.sourceCount <= 1
    ensures var known := WithAnnounced(derive, k, e);
            var registered := Registered(k, e);
            known == WithFile(derive, registered, Num(e, FileId), TextOf(e, Path))
            && registered.meta == k.meta && registered.planes == k.planes
  {
  }

  lemma FileItemStep(derive: DeriveFn, k: Known, item: Item)
    requires IsFileItem(item) && NextKnown(derive, k, item).Some?
    ensures |k.files| < UINT32_MAX && NextKnown(derive, k, item).value == WithAnnounced(derive, k, item.event)
  {
  }

  lemma AnnouncedFile(derive: DeriveFn, k: Known, id: nat, path: string)
    requires path != ""
    ensures var m, next := k.meta, WithFile(derive, k, id, path).meta;
            && next.paths == (if id in m.paths then m.paths else m.paths[id := path])
            && next.logicalNames == m.logicalNames[id := derive(path, BestPlane(k.planes, path))]
  {
  }

  lemma FileOfStep(derive: DeriveFn, k: Known, item: Item, id: nat)
    requires NextKnown(derive, k, item).Some? && k.sourceCount <= 1
    ensures var m, next := k.meta, NextKnown(derive, k, item).value.meta;
            && (id in next.paths <==> id in m.paths || AnnouncesId(item, id))
            && (id in m.paths ==> next.paths[id] == m.paths[id])
            && (id !in m.paths && AnnouncesId(item, id) ==> next.paths[id] == TextOf(item.event, Path))
  {
    if IsFileItem(item) {
      FileItemStep(derive, k, item);
      OneSourceStep(derive, k, item.event);
      AnnouncedFile(derive, Registered(k, item.event), Num(item.event, FileId), TextOf(item.event, Path));
    } else {
      OtherItemStep(derive, k, item);
    }
  }

  lemma NameOfStep(derive: DeriveFn, k: Known, item: Item, id: nat)
    requires NextKnown(derive, k, item).Some? && k.sourceCount <= 1
    ensures var m, next := k.meta, NextKnown(derive, k, item).value.meta;
            if AnnouncesId(item, id) then
              var path := TextOf(item.event, Path);
              id in next.logicalNames && next.logicalNames[id] == derive(path, BestPlane(k.planes, path))
            else (id in next.logicalNames <==> id in m.logicalNames)
                 && (id in m.logicalNames ==> next.logicalNames[id] == m.logicalNames[id])
  {
    if IsFileItem(item) {
      FileItemStep(derive, k, item);
      OneSourceStep(derive, k, item.event);
      AnnouncedFile(derive, Registered(k, item.event), Num(item.event, FileId), TextOf(item.event, Path));
    } else {
      OtherItemStep(derive, k, item);
    }
  }

  /** What is known of the files of one source: the path announced first, and the logical name derived from the
      path announced last and the plane that it lay on then. */
  lemma {:induction false} FilesAreAnnounced(derive: DeriveFn, run: seq<Item>, id: nat)
    requires After(derive, run).Some? && OneSource(run)
    ensures var m, last := After(derive, run).value.meta, LastPlace(derive, run, id);
            && (if id in m.paths then FirstPath(run, id) == Some(m.paths[id]) else FirstPath(run, id) == None)
            && (id in m.logicalNames <==> last.Some?)
            && (last.Some? ==> m.logicalNames[id] == derive(last.value.0, last.value.1))
  {
    if run != [] {
      var front, last := run[..|run| - 1], run[|run| - 1];
      FilesAreAnnounced(derive, front, id);
      SourcesCounted(derive, front);
      FewOpens(front);
      FileOfStep(derive, After(derive, front).value, last, id);
      NameOfStep(derive, After(derive, front).value, last, id);
    }
  }

  // ----- files of several sources -------------------------------------------------------------------

  /** Files of different sources, channels or replicas are told apart, and so are those of one by their number. */
  lemma KeysTellFiles(d: Event, e: Event)
    ensures KeyOf(d) == KeyOf(e) <==>
            && OptionalNum(d, InstanceId) == OptionalNum(e, InstanceId)
            && OptionalNum(d, FileId) == OptionalNum(e, FileId)
            && OptionalNum(d, ChannelId) == OptionalNum(e, ChannelId)
            && OptionalNum(d, ReplicaId) == OptionalNum(e, ReplicaId)
  {
  }
}
