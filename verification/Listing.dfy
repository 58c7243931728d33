/** The four listings: which rows of the target's answer they pick, and how they order them. */
module Listing {
  import opened Common
  import opened Names
  import opened Records
  import opened Sorting
  import opened Paging
  import opened Arrangement

  datatype SubsystemRow = SubsystemRow(nqn: string, serial: string, model: string)
  datatype ControllerRow = ControllerRow(subnqn: string, cntlid: int, name: string, kind: string, pciIndex: int)

  function PickSubsystem(r: SubsystemRow): Option<Subsystem> {
    Some(Subsystem("", r.nqn, r.serial, r.model, ""))
  }

  function PickNamespace(nsid: int): Option<Namespace> {
    Some(Namespace("", "", ToInt32(nsid), "", "", 0))
  }

  function PickVirtio(r: ControllerRow): Option<VirtioBlk> {
    if r.kind == "virtio_blk" then Some(VirtioBlk(VolumeName(r.name), ToInt32(r.pciIndex), "TBD", 0)) else None
  }

  function PickController(nqn: string): ControllerRow -> Option<Controller> {
    (r: ControllerRow) =>
      if r.subnqn == nqn && r.kind == "nvme" then Some(Controller("", 0, ToInt32(r.cntlid))) else None
  }

  predicate LessNqn(x: Subsystem, y: Subsystem) { StringLess(x.nqn, y.nqn) }
  predicate LessNsid(x: Namespace, y: Namespace) { x.nsid < y.nsid }
  predicate LessName(x: VirtioBlk, y: VirtioBlk) { StringLess(x.name, y.name) }
  predicate LessCntlid(x: Controller, y: Controller) { x.cntlid < y.cntlid }

  lemma OrdersAreOrders()
    ensures IsOrder(LessNqn) && IsOrder(LessNsid) && IsOrder(LessName) && IsOrder(LessCntlid)
  {
    StringLessIsOrder();
  }

  // ---------------------------------------------------------------- slots and their values

  function Values<T>(slots: seq<Option<T>>): seq<T> {
    if slots == [] then [] else Picked(slots[0]) + Values(slots[1..])
  }

  /** What is listed depends only on which slots there are, not on their order. */
  lemma {:induction false} ValuesCount<T>(slots: seq<Option<T>>, x: T)
    ensures multiset(Values(slots))[x] == multiset(slots)[Some(x)]
  {
    if slots != [] {
      ValuesCount(slots[1..], x);
      assert multiset(slots) == multiset{slots[0]} + multiset(slots[1..]) by {
        assert slots == [slots[0]] + slots[1..];
      }
      assert multiset(Values(slots)) == multiset(Picked(slots[0])) + multiset(Values(slots[1..]));
    }
  }

  lemma ValuesPermute<T(!new)>(s: seq<Option<T>>, t: seq<Option<T>>)
    requires multiset(s) == multiset(t)
    ensures multiset(Values(s)) == multiset(Values(t))
  {
    var x, y := multiset(Values(s)), multiset(Values(t));
    forall v ensures x[v] == y[v] {
      ValuesCount(s, v);
      ValuesCount(t, v);
    }
    assert x == y;
  }

  lemma {:induction false} ValuesOfSet<T>(slots: seq<Option<T>>)
    requires AllSet(slots, |slots|)
    ensures |Values(slots)| == |slots| && forall i :: 0 <= i < |slots| ==> Some(Values(slots)[i]) == slots[i]
  {
    if slots != [] { ValuesOfSet(slots[1..]); }
  }

  lemma {:induction false} ValuesOfPicks<R, T>(slots: seq<Option<T>>, pick: R -> Option<T>, rows: seq<R>)
    requires |slots| == |rows| && forall i :: 0 <= i < |rows| ==> slots[i] == pick(rows[i])
    ensures Values(slots) == FilterMap(pick, rows)
  {
    if rows != [] { ValuesOfPicks(slots[1..], pick, rows[1..]); }
  }

  lemma SortedValues<T>(slots: seq<Option<T>>, less: (T, T) -> bool)
    requires AllSet(slots, |slots|) && Ascending(slots, |slots|, -1, less)
    ensures Sorted(Values(slots), less)
  {
    ValuesOfSet(slots);
    forall i, j | 0 <= i < j < |slots| ensures !less(Values(slots)[j], Values(slots)[i]) {
      assert !Precedes(slots[j], slots[i], less);
    }
  }

  /** Sorting slots that are all set yields their values in order. */
  method SortedSlots<T(!new)>(slots: array<Option<T>>, less: (T, T) -> bool) returns (values: seq<T>)
    requires IsOrder(less) && AllSet(slots[..], slots.Length)
    modifies slots
    ensures Sorted(values, less) && multiset(values) == multiset(Values(old(slots[..])))
  {
    ghost var before := slots[..];
    var panicked := SortSlice(slots, less);
    assert None !in before && None !in multiset(before) && None !in multiset(slots[..]);
    forall p | 0 <= p < slots.Length ensures slots[..][p].Some? {
      assert slots[..][p] in multiset(slots[..]);
    }
    ValuesPermute(before, slots[..]);
    SortedValues(slots[..], less);
    values := Values(slots[..]);
  }

  // ---------------------------------------------------------------- what a page shows

  // Each listing shows every row it keeps as often as it is there, with the row's own fields, in
  // ascending order.

  ghost predicate DepictsSubsystems(rows: seq<SubsystemRow>, shown: seq<Subsystem>) {
    Depicts(rows, shown, (r: SubsystemRow) => true,
      (r: SubsystemRow) =>
        Subsystem(name := "", nqn := r.nqn, serial := r.serial, model := r.model, firmware := ""))
  }

  ghost predicate SubsystemsShown(page: seq<SubsystemRow>, values: seq<Subsystem>) {
    && DepictsSubsystems(page, values)
    && forall i, j :: 0 <= i < j < |values| ==> !ComesBefore(values[j].nqn, values[i].nqn)
  }

  ghost predicate DepictsNamespaces(rows: seq<int>, shown: seq<Namespace>) {
    Depicts(rows, shown, (nsid: int) => true,
      (nsid: int) =>
        Namespace(name := "", volume := "", nsid := ToInt32(nsid), uuid := "", nguid := "", eui64 := 0))
  }

  ghost predicate NamespacesShown(page: seq<int>, values: seq<Namespace>) {
    DepictsNamespaces(page, values) && forall i, j :: 0 <= i < j < |values| ==> values[i].nsid <= values[j].nsid
  }

  ghost predicate DepictsVirtioBlks(rows: seq<ControllerRow>, shown: seq<VirtioBlk>) {
    Depicts(rows, shown, (r: ControllerRow) => r.kind == "virtio_blk",
      (r: ControllerRow) =>
        VirtioBlk(name := "volumes/" + r.name, pfId := ToInt32(r.pciIndex), volume := "TBD", maxIoQps := 0))
  }

  ghost predicate VirtioBlksShown(page: seq<ControllerRow>, values: seq<VirtioBlk>) {
    && DepictsVirtioBlks(page, values)
    && forall i, j :: 0 <= i < j < |values| ==> !ComesBefore(values[j].name, values[i].name)
  }

  ghost predicate ControllersShown(page: seq<ControllerRow>, values: seq<Controller>) {
    && Depicts(page, values, (r: ControllerRow) => true,
         (r: ControllerRow) => Controller(name := "", pfId := 0, cntlid := ToInt32(r.cntlid)))
    && forall i, j :: 0 <= i < j < |values| ==> values[i].cntlid <= values[j].cntlid
  }

  lemma PicturedSubsystems(rows: seq<SubsystemRow>, shown: seq<Subsystem>)
    requires multiset(shown) == multiset(FilterMap(PickSubsystem, rows))
    ensures DepictsSubsystems(rows, shown)
  {
    RenderedDepicts(rows, shown, PickSubsystem, (r: SubsystemRow) => true,
      (r: SubsystemRow) => Subsystem("", r.nqn, r.serial, r.model, ""));
  }

  lemma PicturedNamespaces(rows: seq<int>, shown: seq<Namespace>)
    requires multiset(shown) == multiset(FilterMap(PickNamespace, rows))
    ensures DepictsNamespaces(rows, shown)
  {
    RenderedDepicts(rows, shown, PickNamespace, (nsid: int) => true,
      (nsid: int) => Namespace("", "", ToInt32(nsid), "", "", 0));
  }

  lemma PicturedVirtioBlks(rows: seq<ControllerRow>, shown: seq<VirtioBlk>)
    requires multiset(shown) == multiset(FilterMap(PickVirtio, rows))
    ensures DepictsVirtioBlks(rows, shown)
  {
    forall r | r in rows ensures VolumeName(r.name) == "volumes/" + r.name { NamesSpelled(r.name, ""); }
    RenderedDepicts(rows, shown, PickVirtio, (r: ControllerRow) => r.kind == "virtio_blk",
      (r: ControllerRow) => VirtioBlk("volumes/" + r.name, ToInt32(r.pciIndex), "TBD", 0));
  }

  lemma PicturedControllers(nqn: string, rows: seq<ControllerRow>, shown: seq<Controller>)
    requires AllOurs(nqn, rows) && multiset(shown) == multiset(FilterMap(PickController(nqn), rows))
    requires Sorted(shown, LessCntlid)
    ensures ControllersShown(rows, shown)
  {
    RenderedDepicts(rows, shown, PickController(nqn), (r: ControllerRow) => true,
      (r: ControllerRow) => Controller("", 0, ToInt32(r.cntlid)));
    forall i, j | 0 <= i < j < |shown| ensures shown[i].cntlid <= shown[j].cntlid {
      assert !LessCntlid(shown[j], shown[i]);
    }
  }

  lemma SubsystemPage(page: seq<SubsystemRow>, values: seq<Subsystem>)
    requires Rendered(page, values, PickSubsystem, LessNqn)
    ensures SubsystemsShown(page, values)
  {
    PicturedSubsystems(page, values);
    forall i, j | 0 <= i < j < |values| ensures !ComesBefore(values[j].nqn, values[i].nqn) {
      assert !LessNqn(values[j], values[i]);
      StringLessIsComesBefore(values[j].nqn, values[i].nqn);
    }
  }

  lemma NamespacePage(page: seq<int>, values: seq<Namespace>)
    requires Rendered(page, values, PickNamespace, LessNsid)
    ensures NamespacesShown(page, values)
  {
    PicturedNamespaces(page, values);
    forall i, j | 0 <= i < j < |values| ensures values[i].nsid <= values[j].nsid {
      assert !LessNsid(values[j], values[i]);
    }
  }

  lemma VirtioPage(page: seq<ControllerRow>, values: seq<VirtioBlk>)
    requires Rendered(page, values, PickVirtio, LessName)
    ensures VirtioBlksShown(page, values)
  {
    PicturedVirtioBlks(page, values);
    forall i, j | 0 <= i < j < |values| ensures !ComesBefore(values[j].name, values[i].name) {
      assert !LessName(values[j], values[i]);
      StringLessIsComesBefore(values[j].name, values[i].name);
    }
  }

  // ---------------------------------------------------------------- one page, filled and sorted

  // Each handler makes an array of unset slots, fills it from the rows of the page, and sorts it in
  // place; the virtio handler appends the rows it keeps instead.

  method RenderSubsystems(page: seq<SubsystemRow>) returns (values: seq<Subsystem>)
    ensures SubsystemsShown(page, values)
    ensures Rendered(page, values, PickSubsystem, LessNqn)
  {
    var blobs := new Option<Subsystem>[|page|](_ => None);
    var i := 0;
    while i < |page|
      invariant 0 <= i <= |page|
      invariant forall k :: 0 <= k < i ==> blobs[k] == PickSubsystem(page[k])
    {
      blobs[i] := Some(Subsystem("", page[i].nqn, page[i].serial, page[i].model, ""));
      i := i + 1;
    }
    ValuesOfPicks(blobs[..], PickSubsystem, page);
    OrdersAreOrders();
    values := SortedSlots(blobs, LessNqn);
    SubsystemPage(page, values);
  }

  method RenderNamespaces(page: seq<int>) returns (values: seq<Namespace>)
    ensures NamespacesShown(page, values)
    ensures Rendered(page, values, PickNamespace, LessNsid)
  {
    var blobs := new Option<Namespace>[|page|](_ => None);
    var i := 0;
    while i < |page|
      invariant 0 <= i <= |page|
      invariant forall k :: 0 <= k < i ==> blobs[k] == PickNamespace(page[k])
    {
      blobs[i] := Some(Namespace("", "", ToInt32(page[i]), "", "", 0));
      i := i + 1;
    }
    ValuesOfPicks(blobs[..], PickNamespace, page);
    OrdersAreOrders();
    values := SortedSlots(blobs, LessNsid);
    NamespacePage(page, values);
  }

  method RenderVirtioBlks(page: seq<ControllerRow>) returns (values: seq<VirtioBlk>)
    ensures VirtioBlksShown(page, values)
    ensures Rendered(page, values, PickVirtio, LessName)
  {
    var kept: seq<VirtioBlk> := [];
    var i := 0;
    while i < |page|
      invariant 0 <= i <= |page|
      invariant kept == FilterMap(PickVirtio, page[..i])
    {
      var r := page[i];
      assert page[..i + 1] == page[..i] + [r];
      FilterMapConcat(PickVirtio, page[..i], [r]);
      assert FilterMap(PickVirtio, [r]) == Picked(PickVirtio(r));
      if r.kind == "virtio_blk" {
        kept := kept + [VirtioBlk(VolumeName(r.name), ToInt32(r.pciIndex), "TBD", 0)];
      }
      i := i + 1;
    }
    assert page[..i] == page;
    var blobs := new Option<VirtioBlk>[|kept|](k requires 0 <= k < |kept| => Some(kept[k]));
    ValuesOfSet(blobs[..]);
    assert Values(blobs[..]) == kept;
    OrdersAreOrders();
    values := SortedSlots(blobs, LessName);
    VirtioPage(page, values);
  }

  /** Every row of the page is an nvme controller of the subsystem. */
  predicate AllOurs(nqn: string, page: seq<ControllerRow>) {
    forall i :: 0 <= i < |page| ==> page[i].subnqn == nqn && page[i].kind == "nvme"
  }

  /** The outcome of listing one page of controllers; a reply of [None] is a list with a nil entry. */
  ghost predicate ControllersListed(nqn: string, page: seq<ControllerRow>, reply: Reply<seq<Option<Controller>>>) {
    && (reply.Ok? <==> AllOurs(nqn, page) || |page| <= 1)
    && (reply.Err? ==> reply.error == NilDereference)
    && (AllOurs(nqn, page) ==> AllSet(reply.value, |reply.value|) && ControllersShown(page, Values(reply.value)))
    && (reply.Ok? && !AllOurs(nqn, page) ==> reply.value == [None])
  }

  lemma SortedControllers(filled: seq<Option<Controller>>, slots: seq<Option<Controller>>, panicked: bool)
    requires multiset(slots) == multiset(filled) && (panicked <==> |filled| > 1 && None in filled)
    requires !panicked ==> Ascending(slots, |slots|, -1, LessCntlid)
    ensures |slots| == |filled|
    ensures AllSet(filled, |filled|) ==>
              && !panicked && AllSet(slots, |slots|) && Sorted(Values(slots), LessCntlid)
              && multiset(Values(slots)) == multiset(Values(filled))
    ensures !AllSet(filled, |filled|) ==> None in filled && (!panicked ==> slots == [None])
  {
    assert |multiset(slots)| == |multiset(filled)|;
    if AllSet(filled, |filled|) {
      assert None !in filled && None !in multiset(filled) && None !in multiset(slots);
      forall p | 0 <= p < |slots| ensures slots[p].Some? { assert slots[p] in multiset(slots); }
      ValuesPermute(slots, filled);
      SortedValues(slots, LessCntlid);
    } else if !panicked {
      assert |filled| == 1 && filled == [None];
      assert slots[0] in multiset(slots) && slots[0] in multiset(filled);
    }
  }

  lemma ControllerPage(nqn: string, page: seq<ControllerRow>, filled: seq<Option<Controller>>,
                       slots: seq<Option<Controller>>, panicked: bool)
    requires |filled| == |page| && forall i :: 0 <= i < |page| ==> filled[i] == PickController(nqn)(page[i])
    requires multiset(slots) == multiset(filled) && (panicked <==> |filled| > 1 && None in filled)
    requires !panicked ==> Ascending(slots, |slots|, -1, LessCntlid)
    ensures ControllersListed(nqn, page, if panicked then Err(NilDereference) else Ok(slots))
  {
    ValuesOfPicks(filled, PickController(nqn), page);
    SortedControllers(filled, slots, panicked);
    assert AllOurs(nqn, page) <==> AllSet(filled, |filled|);
    if AllOurs(nqn, page) { PicturedControllers(nqn, page, Values(slots)); }
  }

  /**
   Fills only the slots of matching rows, then sorts all of them. The listing is well defined
   exactly when every row matches or the page has at most one row; otherwise the unfilled slots
   reach the comparison.
   */
  method RenderControllers(nqn: string, page: seq<ControllerRow>) returns (reply: Reply<seq<Option<Controller>>>)
    ensures ControllersListed(nqn, page, reply)
  {
    var blobs := new Option<Controller>[|page|](_ => None);
    var i := 0;
    while i < |page|
      invariant 0 <= i <= |page|
      invariant forall k :: 0 <= k < i ==> blobs[k] == PickController(nqn)(page[k])
      invariant forall k :: i <= k < |page| ==> blobs[k] == None
    {
      if page[i].subnqn == nqn && page[i].kind == "nvme" {
        blobs[i] := Some(Controller("", 0, ToInt32(page[i].cntlid)));
      }
      i := i + 1;
    }
    ghost var filled := blobs[..];
    OrdersAreOrders();
    var panicked := SortSlice(blobs, LessCntlid);
    ControllerPage(nqn, page, filled, blobs[..], panicked);
    if panicked { return Err(NilDereference); }
    reply := Ok(blobs[..]);
  }

  // ---------------------------------------------------------------- whole walks

  /** The pages of a virtio listing hold, all together, exactly the virtio rows of the whole list. */
  lemma VirtioWalk(visits: Visits<VirtioBlk>, pageSize: nat, rows: seq<ControllerRow>, default: PageSize)
    requires Walk(visits, "", 0, true, pageSize, rows, default, PickVirtio, LessName)
    ensures DepictsVirtioBlks(rows, Shown(visits))
  {
    WalkIsComplete(visits, "", 0, pageSize, rows, default, PickVirtio, LessName);
    assert rows[0..] == rows;
    PicturedVirtioBlks(rows, Shown(visits));
  }

  /** The pages of a namespace listing hold every row of the whole list, each as often as it occurs. */
  lemma NamespaceWalk(visits: Visits<Namespace>, pageSize: nat, rows: seq<int>, default: PageSize)
    requires Walk(visits, "", 0, true, pageSize, rows, default, PickNamespace, LessNsid)
    ensures DepictsNamespaces(rows, Shown(visits))
  {
    WalkIsComplete(visits, "", 0, pageSize, rows, default, PickNamespace, LessNsid);
    assert rows[0..] == rows;
    PicturedNamespaces(rows, Shown(visits));
  }

  /** And likewise those of a subsystem listing. */
  lemma SubsystemWalk(visits: Visits<Subsystem>, pageSize: nat, rows: seq<SubsystemRow>, default: PageSize)
    requires Walk(visits, "", 0, true, pageSize, rows, default, PickSubsystem, LessNqn)
    ensures DepictsSubsystems(rows, Shown(visits))
  {
    WalkIsComplete(visits, "", 0, pageSize, rows, default, PickSubsystem, LessNqn);
    assert rows[0..] == rows;
    PicturedSubsystems(rows, Shown(visits));
  }
}
