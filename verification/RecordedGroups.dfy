/** How the events of recorded files are grouped when every plane is recorded with a name. */
module RecordedGroups {
  import opened Options
  import opened Events
  import opened Extractor
  import opened MetaState
  import opened Traversal
  import opened GroupTree
  import opened GroupBy
  import opened GroupRender

  /** The metadata is what is known after some part of the recording. */
  ghost predicate KnownFrom(derive: DeriveFn, recording: seq<Item>, meta: Meta) {
    exists j :: 0 <= j <= |recording| && KnownAt(derive, recording, j, meta)
  }

  ghost predicate KnownAt(derive: DeriveFn, recording: seq<Item>, j: nat, meta: Meta)
    requires j <= |recording|
  {
    After(derive, recording[..j]).Some? && After(derive, recording[..j]).value.meta == meta
  }

  lemma {:induction false} VisitsAreKnown(derive: DeriveFn, recording: seq<Item>, preScan: bool, n: nat,
                                          input: InputFn)
    requires n <= |recording| && After(derive, recording).Some? && After(derive, recording[..n]).Some?
    ensures forall v | v in Visits(derive, Scanned(derive, recording, preScan), recording[..n], input) ::
              KnownFrom(derive, recording, v.meta)
  {
    var scanned := Scanned(derive, recording, preScan);
    if n > 0 {
      assert recording[..n][..n - 1] == recording[..n - 1];
      VisitsAreKnown(derive, recording, preScan, n - 1, input);
      OneVisitMore(derive, scanned, recording, n - 1, input);
      assert recording[..|recording|] == recording;
      forall v | v in Visits(derive, scanned, recording[..n], input)
        ensures KnownFrom(derive, recording, v.meta)
      {
        if v !in Visits(derive, scanned, recording[..n - 1], input) {
          assert KnownAt(derive, recording, if preScan then |recording| else n, v.meta);
        }
      }
    }
  }

  ghost predicate AllPlanesNamed(recording: seq<Item>) {
    forall item | item in recording && item.Seen? :: !AnnouncesNameless(item.event)
  }

  /** The event, whatever it is, comes with metadata of the recording, or none. */
  ghost predicate ArrivesFrom(derive: DeriveFn, recording: seq<Item>, a: Arrival) {
    a.context.meta.Some? ==> KnownFrom(derive, recording, a.context.meta.value)
  }

  lemma RecordedPlanesAreNamed(derive: DeriveFn, recording: seq<Item>, a: Arrival, hier: Hierarchy)
    requires AllPlanesNamed(recording) && ArrivesFrom(derive, recording, a)
    ensures GroupBy.PlanesNamed(a, hier)
  {
    if a.context.meta.Some? {
      var meta := a.context.meta.value;
      var j :| 0 <= j <= |recording| && KnownAt(derive, recording, j, meta);
      NamedPlanesStayNamed(derive, recording[..j]);
    }
  }

  /** The groups of events from a recording whose planes all have names: no two siblings have the same
      values, at any level, and each group counts exactly the events that have its values. */
  lemma GroupsOfNamedPlanes(h: HashFn, derive: DeriveFn, recording: seq<Item>, run: seq<Arrival>,
                            hier: Hierarchy, p: GroupPath)
    requires AllPlanesNamed(recording) && forall a | a in run :: ArrivesFrom(derive, recording, a)
    requires |p| <= |hier| && Has(Built(Keys(h, hier), run, |hier|), p)
    ensures var keys := Keys(h, hier);
            var t := Built(keys, run, |hier|);
            && Unsplit(t, |hier|)
            && (|p| < |hier| ==> !Split(At(t, p).kids))
            && At(t, p).subTotal == MembersByValue(keys, run, |hier|, ValuesAlong(p))
  {
    forall a | a in run ensures GroupBy.PlanesNamed(a, hier) {
      RecordedPlanesAreNamed(derive, recording, a, hier);
    }
    NamedPlanesUnsplit(h, run, hier);
    GroupsAreByValue(h, run, hier, p);
    if |p| < |hier| { SiblingsDiffer(h, run, hier, p); }
  }
}
