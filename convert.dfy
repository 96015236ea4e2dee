/**
  The transform pass of `main` (main.go:59-91): every contract's embedded list
  is decoded, each sub-parcel of a contract dated after the cutoff becomes one
  placemark, each other sub-parcel echoes the contract's date, and the first
  list that fails to decode aborts the run.

  The pass is specified in two layers: `Selecting` says which (contract,
  sub-parcel) pairs survive the filter and in which order, and `Render` turns
  the surviving pairs into placemarks.
 */
module Convert {

  import opened Wrappers
  import opened LexOrder
  import opened Records

  /** A sub-parcel together with the contract it belongs to. */
  datatype Pick = Pick(item: Item, sp: SubParcel)

  /**
    The outcome of the pass: the document to be marshalled with the dates
    echoed on the way, or an abort, after which nothing is written but the
    dates echoed before it have already been printed.
   */
  datatype Run = Completed(kml: Kml, echoed: seq<string>) | Aborted(echoed: seq<string>)

  /** The pairs surviving the filter so far and the dates echoed so far, or a failed decode. */
  datatype Selection = Selected(picks: seq<Pick>, echoed: seq<string>) | Failed(echoed: seq<string>)

  /** The pairs that the inner loop keeps from the list `subs` of `item`. */
  function Kept(item: Item, subs: seq<SubParcel>): seq<Pick>
  {
    if subs == [] then []
    else Kept(item, subs[..|subs| - 1]) + (if Passes(item.datumU) then [Pick(item, subs[|subs| - 1])] else [])
  }

  /** The dates the inner loop echoes for the list `subs` of `item`. */
  function Dropped(item: Item, subs: seq<SubParcel>): seq<string>
  {
    if subs == [] then []
    else Dropped(item, subs[..|subs| - 1]) + (if Passes(item.datumU) then [] else [item.datumU])
  }

  /** One turn of the outer loop: decode the contract's list, then run the inner loop over it. */
  function Step(lib: Library, sel: Selection, item: Item): Selection
  {
    match sel
    case Failed(_) => sel
    case Selected(picks, e) =>
      match lib.unmarshalN(item.n)
      case None => Failed(e)
      case Some(subs) => Selected(picks + Kept(item, subs), e + Dropped(item, subs))
  }

  /** The outer loop over `items`, one contract after another. */
  function Selecting(lib: Library, items: seq<Item>): Selection
  {
    if items == [] then Selected([], [])
    else Step(lib, Selecting(lib, items[..|items| - 1]), items[|items| - 1])
  }

  /** The placemarks built for `picks`, in order. */
  function Render(lib: Library, picks: seq<Pick>): seq<Placemark>
  {
    if picks == [] then []
    else
      var last := picks[|picks| - 1];
      Render(lib, picks[..|picks| - 1]) + [MakePlacemark(lib, last.item, last.sp)]
  }

  /** What the pass does with `items`. */
  function Conversion(lib: Library, items: seq<Item>): Run
  {
    match Selecting(lib, items)
    case Failed(e) => Aborted(e)
    case Selected(picks, e) => Completed(Kml(Document(Render(lib, picks))), e)
  }

  /** The decoded list of `item`, empty when it does not decode. */
  function SubsOf(lib: Library, item: Item): seq<SubParcel>
  {
    match lib.unmarshalN(item.n)
    case Some(subs) => subs
    case None => []
  }

  predicate AllDecode(lib: Library, items: seq<Item>)
  {
    forall i :: 0 <= i < |items| ==> lib.unmarshalN(items[i].n).Some?
  }

  /** The sum of the list lengths over the contracts that pass the filter. */
  function KeptCount(lib: Library, items: seq<Item>): nat
  {
    if items == [] then 0
    else
      var item := items[|items| - 1];
      KeptCount(lib, items[..|items| - 1]) + (if Passes(item.datumU) then |SubsOf(lib, item)| else 0)
  }

  /** The sum of the list lengths over the contracts that the filter drops. */
  function DroppedCount(lib: Library, items: seq<Item>): nat
  {
    if items == [] then 0
    else
      var item := items[|items| - 1];
      DroppedCount(lib, items[..|items| - 1]) + (if Passes(item.datumU) then 0 else |SubsOf(lib, item)|)
  }

  // ---------------------------------------------------------------------------
  // The loop itself

  /** The loop of main.go:60-91. */
  method Transform(lib: Library, input: Input) returns (run: Run)
    ensures run == Conversion(lib, input.items)
  {
    var items := input.items;
    var placemarks: seq<Placemark> := [];
    var echoed: seq<string> := [];
    ghost var picks: seq<Pick> := [];
    var i := 0;
    while i < |items|
      invariant 0 <= i <= |items|
      invariant Selecting(lib, items[..i]) == Selected(picks, echoed)
      invariant placemarks == Render(lib, picks)
    {
      var item := items[i];
      SelectingSnoc(lib, items, i);
      var decoded := lib.unmarshalN(item.n);
      if decoded.None? {
        // the placemarks built so far are dropped with the document
        FailurePersists(lib, items, i + 1);
        assert items[..|items|] == items;
        return Aborted(echoed);
      }
      placemarks, echoed, picks := AddSubParcels(lib, item, decoded.value, placemarks, echoed, picks);
      i := i + 1;
    }
    assert items[..i] == items;
    return Completed(Kml(Document(placemarks)), echoed);
  }

  /**
    The inner loop of main.go:76-90 over the decoded list `subs` of `item`:
    one placemark per sub-parcel when the contract passes the filter, one
    echo of its date per sub-parcel otherwise.
   */
  method AddSubParcels(lib: Library, item: Item, subs: seq<SubParcel>,
                       placemarks0: seq<Placemark>, echoed0: seq<string>, ghost picks0: seq<Pick>)
    returns (placemarks: seq<Placemark>, echoed: seq<string>, ghost picks: seq<Pick>)
    requires placemarks0 == Render(lib, picks0)
    ensures picks == picks0 + Kept(item, subs)
    ensures echoed == echoed0 + Dropped(item, subs)
    ensures placemarks == Render(lib, picks)
    ensures placemarks0 <= placemarks && echoed0 <= echoed
  {
    placemarks, echoed, picks := placemarks0, echoed0, picks0;
    var j := 0;
    while j < |subs|
      invariant 0 <= j <= |subs|
      invariant picks == picks0 + Kept(item, subs[..j])
      invariant echoed == echoed0 + Dropped(item, subs[..j])
      invariant placemarks == Render(lib, picks)
    {
      KeptAndDroppedSnoc(item, subs, j);
      if Greater(item.datumU, Cutoff) {
        var p := Pick(item, subs[j]);
        RenderSnoc(lib, picks, p);
        AppendAssoc(picks0, Kept(item, subs[..j]), [p]);
        placemarks := placemarks + [MakePlacemark(lib, item, subs[j])];
        picks := picks + [p];
      } else {
        AppendAssoc(echoed0, Dropped(item, subs[..j]), [item.datumU]);
        echoed := echoed + [item.datumU];
      }
      j := j + 1;
    }
    assert subs[..j] == subs;
    RenderPrefix(lib, picks0, picks);
  }

  lemma SelectingSnoc(lib: Library, items: seq<Item>, i: nat)
    requires i < |items|
    ensures Selecting(lib, items[..i + 1]) == Step(lib, Selecting(lib, items[..i]), items[i])
  {
    assert items[..i + 1][..i] == items[..i];
  }

  lemma AppendAssoc<T>(a: seq<T>, b: seq<T>, c: seq<T>)
    ensures a + b + c == a + (b + c)
  {
  }

  lemma KeptAndDroppedSnoc(item: Item, subs: seq<SubParcel>, j: nat)
    requires j < |subs|
    ensures Kept(item, subs[..j + 1]) == Kept(item, subs[..j]) + (if Passes(item.datumU) then [Pick(item, subs[j])] else [])
    ensures Dropped(item, subs[..j + 1]) == Dropped(item, subs[..j]) + (if Passes(item.datumU) then [] else [item.datumU])
  {
    assert subs[..j + 1][..j] == subs[..j];
  }

  lemma RenderSnoc(lib: Library, picks: seq<Pick>, p: Pick)
    ensures Render(lib, picks + [p]) == Render(lib, picks) + [MakePlacemark(lib, p.item, p.sp)]
  {
    assert (picks + [p])[..|picks|] == picks;
  }

  // ---------------------------------------------------------------------------
  // Rendering

  /** One placemark per pair, in the same order, each built from its pair. */
  lemma {:induction false} RenderAt(lib: Library, picks: seq<Pick>)
    ensures |Render(lib, picks)| == |picks|
    ensures forall k :: 0 <= k < |picks| ==>
      Render(lib, picks)[k] == MakePlacemark(lib, picks[k].item, picks[k].sp)
    decreases |picks|
  {
    if picks != [] {
      var init := picks[..|picks| - 1];
      RenderAt(lib, init);
      assert forall k :: 0 <= k < |init| ==> init[k] == picks[k];
    }
  }

  // ---------------------------------------------------------------------------
  // The inner loop over one list

  /** For a contract that passes, the inner loop keeps every sub-parcel, in order, and echoes nothing. */
  lemma {:induction false} KeptWhenPassing(item: Item, subs: seq<SubParcel>)
    requires Passes(item.datumU)
    ensures |Kept(item, subs)| == |subs| && Dropped(item, subs) == []
    ensures forall j :: 0 <= j < |subs| ==> Kept(item, subs)[j] == Pick(item, subs[j])
    decreases |subs|
  {
    if subs != [] {
      var init := subs[..|subs| - 1];
      KeptWhenPassing(item, init);
      assert forall j :: 0 <= j < |init| ==> init[j] == subs[j];
    }
  }

  /** For a contract the filter drops, the inner loop keeps nothing and echoes its date once per sub-parcel. */
  lemma {:induction false} EchoedWhenDropped(item: Item, subs: seq<SubParcel>)
    requires !Passes(item.datumU)
    ensures Kept(item, subs) == []
    ensures |Dropped(item, subs)| == |subs|
    ensures forall e :: e in Dropped(item, subs) ==> e == item.datumU
    decreases |subs|
  {
    if subs != [] {
      EchoedWhenDropped(item, subs[..|subs| - 1]);
    }
  }

  // ---------------------------------------------------------------------------
  // The outer loop

  /** Once a decode has failed, later contracts change nothing. */
  lemma {:induction false} FailurePersists(lib: Library, items: seq<Item>, k: nat)
    requires k <= |items| && Selecting(lib, items[..k]).Failed?
    ensures Selecting(lib, items) == Selecting(lib, items[..k])
    decreases |items|
  {
    if k < |items| {
      var init := items[..|items| - 1];
      assert init[..k] == items[..k];
      FailurePersists(lib, init, k);
    } else {
      assert items[..k] == items;
    }
  }

  /** A completed turn started from a completed selection, decoded the list and appended to both outputs. */
  lemma StepSelected(lib: Library, sel: Selection, item: Item)
    requires Step(lib, sel, item).Selected?
    ensures sel.Selected? && lib.unmarshalN(item.n).Some?
    ensures Step(lib, sel, item).picks == sel.picks + Kept(item, SubsOf(lib, item))
    ensures Step(lib, sel, item).echoed == sel.echoed + Dropped(item, SubsOf(lib, item))
  {
  }

  /**
    All or nothing: the pass completes exactly when every embedded list
    decodes, whatever the dates; a contract the filter would drop aborts the
    run just as well.
   */
  lemma {:induction false} CompletesIffAllDecode(lib: Library, items: seq<Item>)
    ensures Conversion(lib, items).Completed? <==> AllDecode(lib, items)
    ensures Selecting(lib, items).Selected? <==> AllDecode(lib, items)
    decreases |items|
  {
    if items != [] {
      var init := items[..|items| - 1];
      CompletesIffAllDecode(lib, init);
      assert forall i :: 0 <= i < |init| ==> init[i] == items[i];
    }
  }

  /**
    The first malformed list aborts the pass; no document is produced, and the
    dates echoed are those of the contracts before it.
   */
  lemma AbortsAtFirstBadPayload(lib: Library, items: seq<Item>, k: nat)
    requires k < |items| && lib.unmarshalN(items[k].n).None?
    requires AllDecode(lib, items[..k])
    ensures Conversion(lib, items) == Aborted(Selecting(lib, items[..k]).echoed)
  {
    CompletesIffAllDecode(lib, items[..k]);
    assert items[..k + 1][..k] == items[..k];
    FailurePersists(lib, items, k + 1);
  }

  /** The pass only appends: a completed selection extends the selection on every prefix of its input. */
  lemma {:induction false} Extends(lib: Library, items: seq<Item>, k: nat)
    requires k <= |items| && Selecting(lib, items).Selected?
    ensures Selecting(lib, items[..k]).Selected?
    ensures Selecting(lib, items[..k]).picks <= Selecting(lib, items).picks
    ensures Selecting(lib, items[..k]).echoed <= Selecting(lib, items).echoed
    decreases |items|
  {
    if k < |items| {
      var init := items[..|items| - 1];
      assert init[..k] == items[..k];
      Extends(lib, init, k);
    } else {
      assert items[..k] == items;
    }
  }

  /** Rendering keeps prefixes: earlier placemarks are never modified or removed. */
  lemma {:induction false} RenderPrefix(lib: Library, a: seq<Pick>, b: seq<Pick>)
    requires a <= b
    ensures Render(lib, a) <= Render(lib, b)
    decreases |b|
  {
    if |a| < |b| {
      var init := b[..|b| - 1];
      assert a <= init;
      RenderPrefix(lib, a, init);
    } else {
      assert a == b;
    }
  }

  /** The document and the echoes of a completed run extend those of every prefix of its input. */
  lemma PlacemarksOnlyGrow(lib: Library, items: seq<Item>, k: nat)
    requires k <= |items| && Conversion(lib, items).Completed?
    ensures Conversion(lib, items[..k]).Completed?
    ensures Conversion(lib, items[..k]).kml.document.placemarks <= Conversion(lib, items).kml.document.placemarks
    ensures Conversion(lib, items[..k]).echoed <= Conversion(lib, items).echoed
  {
    Extends(lib, items, k);
    RenderPrefix(lib, Selecting(lib, items[..k]).picks, Selecting(lib, items).picks);
  }

  /** One pair per sub-parcel of every passing contract, one echo per sub-parcel of every dropped one. */
  lemma {:induction false} SelectionCount(lib: Library, items: seq<Item>)
    requires Selecting(lib, items).Selected?
    ensures |Selecting(lib, items).picks| == KeptCount(lib, items)
    ensures |Selecting(lib, items).echoed| == DroppedCount(lib, items)
    decreases |items|
  {
    if items != [] {
      var item := items[|items| - 1];
      StepSelected(lib, Selecting(lib, items[..|items| - 1]), item);
      SelectionCount(lib, items[..|items| - 1]);
      if Passes(item.datumU) {
        KeptWhenPassing(item, SubsOf(lib, item));
      } else {
        EchoedWhenDropped(item, SubsOf(lib, item));
      }
    }
  }

  /** On success the document has one placemark per sub-parcel of every contract that passes. */
  lemma PlacemarkCount(lib: Library, items: seq<Item>)
    requires Conversion(lib, items).Completed?
    ensures |Conversion(lib, items).kml.document.placemarks| == KeptCount(lib, items)
    ensures |Conversion(lib, items).echoed| == DroppedCount(lib, items)
  {
    SelectionCount(lib, items);
    RenderAt(lib, Selecting(lib, items).picks);
  }

  /** Sub-parcel `j` of a passing contract `i` is the pair `j` places after those of the contracts before `i`. */
  lemma PickAt(lib: Library, items: seq<Item>, i: nat, j: nat)
    requires Selecting(lib, items).Selected?
    requires i < |items| && Passes(items[i].datumU) && j < |SubsOf(lib, items[i])|
    ensures KeptCount(lib, items[..i]) + j < |Selecting(lib, items).picks|
    ensures Selecting(lib, items).picks[KeptCount(lib, items[..i]) + j] == Pick(items[i], SubsOf(lib, items[i])[j])
  {
    var item := items[i];
    var upTo := items[..i + 1];
    assert upTo[..i] == items[..i] && upTo[i] == item;
    Extends(lib, items, i + 1);
    StepSelected(lib, Selecting(lib, items[..i]), item);
    SelectionCount(lib, items[..i]);
    KeptWhenPassing(item, SubsOf(lib, item));
    var before := Selecting(lib, items[..i]).picks;
    var kept := Kept(item, SubsOf(lib, item));
    assert (before + kept)[|before| + j] == kept[j];
  }

  /**
    Order and fan-out: sub-parcel `j` of a passing contract `i` gives the
    placemark at index `j` after those of the contracts before `i`.
   */
  lemma PlacemarkAt(lib: Library, items: seq<Item>, i: nat, j: nat)
    requires Conversion(lib, items).Completed?
    requires i < |items| && Passes(items[i].datumU) && j < |SubsOf(lib, items[i])|
    ensures KeptCount(lib, items[..i]) + j < |Conversion(lib, items).kml.document.placemarks|
    ensures Conversion(lib, items).kml.document.placemarks[KeptCount(lib, items[..i]) + j]
      == MakePlacemark(lib, items[i], SubsOf(lib, items[i])[j])
  {
    PickAt(lib, items, i, j);
    RenderAt(lib, Selecting(lib, items).picks);
  }

  /** Sub-parcel `j` of contract `i` passes the filter and lands at index `x`. */
  ghost predicate LandsAt(lib: Library, items: seq<Item>, x: nat, i: nat, j: nat)
  {
    i < |items| && Passes(items[i].datumU) && j < |SubsOf(lib, items[i])|
    && x == KeptCount(lib, items[..i]) + j
  }

  /** Every index below the count belongs to one sub-parcel of one passing contract. */
  lemma {:induction false} SomeOrigin(lib: Library, items: seq<Item>, x: nat)
    requires x < KeptCount(lib, items)
    ensures exists i: nat, j: nat :: LandsAt(lib, items, x, i, j)
    decreases |items|
  {
    var n := |items| - 1;
    var init := items[..n];
    if x < KeptCount(lib, init) {
      SomeOrigin(lib, init, x);
      var i: nat, j: nat :| LandsAt(lib, init, x, i, j);
      assert init[..i] == items[..i] && init[i] == items[i];
      assert LandsAt(lib, items, x, i, j);
    } else {
      assert LandsAt(lib, items, x, n, x - KeptCount(lib, init));
    }
  }

  /**
    Nothing else is produced: every placemark is sub-parcel `j` of some
    contract `i` that passes the filter.
   */
  lemma PlacemarkOrigin(lib: Library, items: seq<Item>, x: nat)
    requires Conversion(lib, items).Completed?
    requires x < |Conversion(lib, items).kml.document.placemarks|
    ensures exists i: nat, j: nat ::
      LandsAt(lib, items, x, i, j)
      && Conversion(lib, items).kml.document.placemarks[x] == MakePlacemark(lib, items[i], SubsOf(lib, items[i])[j])
  {
    var placemarks := Conversion(lib, items).kml.document.placemarks;
    PlacemarkCount(lib, items);
    SomeOrigin(lib, items, x);
    var i: nat, j: nat :| LandsAt(lib, items, x, i, j);
    var sp := SubsOf(lib, items[i])[j];
    assert x == KeptCount(lib, items[..i]) + j;
    PlacemarkAt(lib, items, i, j);
    assert placemarks[x] == MakePlacemark(lib, items[i], sp);
    assert LandsAt(lib, items, x, i, j) && placemarks[x] == MakePlacemark(lib, items[i], sp);
  }

  /** Every echoed line is the date of a contract that the filter dropped, whether or not the run completes. */
  lemma {:induction false} EchoesAreDroppedDates(lib: Library, items: seq<Item>)
    ensures forall e :: e in Conversion(lib, items).echoed ==>
      !Passes(e) && exists i :: 0 <= i < |items| && items[i].datumU == e
    decreases |items|
  {
    if items != [] {
      var init := items[..|items| - 1];
      var item := items[|items| - 1];
      EchoesAreDroppedDates(lib, init);
      if Passes(item.datumU) {
        KeptWhenPassing(item, SubsOf(lib, item));
      } else {
        EchoedWhenDropped(item, SubsOf(lib, item));
      }
      assert forall i :: 0 <= i < |init| ==> init[i] == items[i];
    }
  }

  /** A contract whose list is empty contributes nothing and causes no error. */
  lemma EmptyListIsNeutral(lib: Library, items: seq<Item>, k: nat)
    requires k < |items| && lib.unmarshalN(items[k].n) == Some([])
    ensures Conversion(lib, items[..k] + items[k + 1..]) == Conversion(lib, items)
  {
    SelectionNeutral(lib, items, k);
  }

  lemma {:induction false} SelectionNeutral(lib: Library, items: seq<Item>, k: nat)
    requires k < |items| && lib.unmarshalN(items[k].n) == Some([])
    ensures Selecting(lib, items[..k] + items[k + 1..]) == Selecting(lib, items)
    decreases |items|
  {
    var n := |items| - 1;
    var init := items[..n];
    if k == n {
      assert items[..k] + items[k + 1..] == init;
      var s := Selecting(lib, init);
      if s.Selected? {
        assert s.picks + [] == s.picks && s.echoed + [] == s.echoed;
      }
    } else {
      SelectionNeutral(lib, init, k);
      var shorter := items[..k] + items[k + 1..];
      assert shorter[..|shorter| - 1] == init[..k] + init[k + 1..];
      assert shorter[|shorter| - 1] == items[n];
    }
  }

  /** When no contract is dated after the cutoff, the document is empty and the run still succeeds. */
  lemma NothingAfterCutoff(lib: Library, items: seq<Item>)
    requires AllDecode(lib, items)
    requires forall i :: 0 <= i < |items| ==> !Passes(items[i].datumU)
    ensures Conversion(lib, items).Completed?
    ensures Conversion(lib, items).kml.document.placemarks == []
  {
    NothingSelected(lib, items);
  }

  lemma {:induction false} NothingSelected(lib: Library, items: seq<Item>)
    requires AllDecode(lib, items)
    requires forall i :: 0 <= i < |items| ==> !Passes(items[i].datumU)
    ensures Selecting(lib, items).Selected? && Selecting(lib, items).picks == []
    decreases |items|
  {
    if items != [] {
      var init := items[..|items| - 1];
      var item := items[|items| - 1];
      assert forall i :: 0 <= i < |init| ==> init[i] == items[i];
      NothingSelected(lib, init);
      EchoedWhenDropped(item, SubsOf(lib, item));
    }
  }
}
