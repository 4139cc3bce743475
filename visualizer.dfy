/**
 * The render page (`components/Visualizer.tsx`): an ordered list of slots,
 * each holding an uploaded slicer screenshot and the photorealistic render
 * made from it, plus a cached scene description shared by all renders.
 * Each handler runs as one step. The two service calls it makes,
 * `generateSceneDescription` and `generateRealisticView`, are oracles:
 * `describe` maps the images sent (in `Object.values` order) and the colour
 * option to a description or an error, and `render` maps one request to an
 * image or an error.
 */
module Visualizer {
  import opened Types
  import opened Strings
  import opened GeminiService

  datatype ColorOption = Single | Multi

  /**
   * `VisualizerImage`. The `id` stands for the `crypto.randomUUID()` string:
   * the page draws them from a counter, so fresh ids are distinct.
   */
  datatype Slot = Slot(id: nat, slicerImage: Option<string>, realisticImage: Option<string>)

  /** A slot with no images, as `addNewSlot` creates it. */
  function BlankSlot(id: nat): Slot {
    Slot(id, None, None)
  }

  /** No id is used by two slots. */
  predicate IdsDistinct(slots: seq<Slot>) {
    forall i, j :: 0 <= i < j < |slots| ==> slots[i].id != slots[j].id
  }

  /** Every id was handed out before `next`. */
  predicate IdsBelow(slots: seq<Slot>, next: nat) {
    forall i :: 0 <= i < |slots| ==> slots[i].id < next
  }

  /** `slots.findIndex(img => img.id === id)`: the first slot with that id, or -1. */
  function FindIndex(slots: seq<Slot>, id: nat): (r: int)
    ensures -1 <= r < |slots|
    ensures r >= 0 ==> slots[r].id == id && forall j :: 0 <= j < r ==> slots[j].id != id
    ensures r == -1 <==> forall j :: 0 <= j < |slots| ==> slots[j].id != id
  {
    if slots == [] then -1
    else if slots[0].id == id then 0
    else
      var k := FindIndex(slots[1..], id);
      assert forall j :: 1 <= j < |slots| ==> slots[j] == slots[1..][j - 1];
      if k == -1 then -1 else k + 1
  }

  /** With distinct ids, looking a slot's id up finds that slot. */
  lemma FindIndexOfDistinct(slots: seq<Slot>, i: nat)
    requires IdsDistinct(slots) && i < |slots|
    ensures FindIndex(slots, slots[i].id) == i
  {
  }

  // ---------------------------------------------------------------------
  // Filters over the slot list
  // ---------------------------------------------------------------------

  /** The `filter` conditions the page applies to its slots. */
  datatype Criterion =
    | NotId(id: nat)      // `img.id !== id`
    | NonNullSlicer       // `img.slicerImage !== null`
    | FilledSlicer        // `img.slicerImage` is truthy
    | AwaitingRender      // `img.slicerImage && !img.realisticImage`

  predicate Matches(c: Criterion, s: Slot) {
    match c
    case NotId(id) => s.id != id
    case NonNullSlicer => s.slicerImage.Some?
    case FilledSlicer => Truthy(s.slicerImage)
    case AwaitingRender => Truthy(s.slicerImage) && !Truthy(s.realisticImage)
  }

  /** `slots.filter(c)` */
  function Keep(slots: seq<Slot>, c: Criterion): seq<Slot>
    decreases |slots|
  {
    if slots == [] then []
    else
      var last := slots[|slots| - 1];
      Keep(slots[..|slots| - 1], c) + (if Matches(c, last) then [last] else [])
  }

  /** A filter keeps exactly the slots meeting its condition. */
  lemma {:induction false} KeepMembers(slots: seq<Slot>, c: Criterion, s: Slot)
    ensures s in Keep(slots, c) <==> s in slots && Matches(c, s)
    decreases |slots|
  {
    if slots != [] {
      var init := slots[..|slots| - 1];
      KeepMembers(init, c, s);
      assert slots == init + [slots[|slots| - 1]];
    }
  }

  /** A filter works piecewise, so the slots it keeps stay in their relative order. */
  lemma {:induction false} KeepAppend(a: seq<Slot>, b: seq<Slot>, c: Criterion)
    ensures Keep(a + b, c) == Keep(a, c) + Keep(b, c)
    decreases |b|
  {
    if b == [] {
      assert a + b == a;
    } else {
      var init := b[..|b| - 1];
      KeepAppend(a, init, c);
      assert (a + b)[..|a + b| - 1] == a + init;
    }
  }

  /** A filter of slots with distinct ids below `next` has the same two properties. */
  lemma {:induction false} KeepIds(slots: seq<Slot>, c: Criterion, next: nat)
    requires IdsDistinct(slots) && IdsBelow(slots, next)
    ensures IdsDistinct(Keep(slots, c)) && IdsBelow(Keep(slots, c), next)
    ensures |Keep(slots, c)| <= |slots|
    decreases |slots|
  {
    if slots != [] {
      var init := slots[..|slots| - 1];
      var last := slots[|slots| - 1];
      KeepIds(init, c, next);
      forall s | s in Keep(init, c) ensures s.id != last.id {
        KeepMembers(init, c, s);
      }
    }
  }

  /** `imagesToGenerateCount` */
  function ImagesToGenerateCount(slots: seq<Slot>): nat {
    |Keep(slots, AwaitingRender)|
  }

  /** The count is zero exactly when no slot has a slicer image without a render. */
  lemma NothingToGenerate(slots: seq<Slot>)
    ensures ImagesToGenerateCount(slots) == 0 <==> forall i :: 0 <= i < |slots| ==> !Matches(AwaitingRender, slots[i])
  {
    var kept := Keep(slots, AwaitingRender);
    if kept != [] {
      KeepMembers(slots, AwaitingRender, kept[0]);
    }
    forall i | 0 <= i < |slots| && Matches(AwaitingRender, slots[i]) ensures kept != [] {
      KeepMembers(slots, AwaitingRender, slots[i]);
    }
  }

  // ---------------------------------------------------------------------
  // Slot-list updates
  // ---------------------------------------------------------------------

  /**
   * Upload (`url` present) or clear (`url` null) on the slot with that id:
   * its slicer image becomes `url` and its render is dropped.
   */
  function SetSlicer(slots: seq<Slot>, id: nat, url: Option<string>): seq<Slot> {
    seq(|slots|, i requires 0 <= i < |slots| =>
      if slots[i].id == id then slots[i].(slicerImage := url, realisticImage := None) else slots[i])
  }

  /** The slot with that id gets the render `image`. */
  function SetRender(slots: seq<Slot>, id: nat, image: string): seq<Slot> {
    seq(|slots|, i requires 0 <= i < |slots| =>
      if slots[i].id == id then slots[i].(realisticImage := Some(image)) else slots[i])
  }

  /** Every slot with a slicer image loses its render. */
  function ClearRenders(slots: seq<Slot>): seq<Slot> {
    seq(|slots|, i requires 0 <= i < |slots| =>
      if Truthy(slots[i].slicerImage) then slots[i].(realisticImage := None) else slots[i])
  }

  /** One new slot per uploaded file, in file order, with ids `first`, `first + 1`, ... */
  function NewSlots(urls: seq<string>, first: nat): seq<Slot> {
    seq(|urls|, k requires 0 <= k < |urls| => Slot(first + k, Some(urls[k]), None))
  }

  /** `Promise.all` over the file reads: every data URL in order, or nothing when a read failed. */
  function ReadAll(results: seq<Outcome<string>>): (r: Option<seq<string>>)
    ensures r.Some? <==> forall k :: 0 <= k < |results| ==> results[k].Ok?
    ensures r.Some? ==> |r.value| == |results| && forall k :: 0 <= k < |results| ==> r.value[k] == results[k].value
    decreases |results|
  {
    if results == [] then Some([])
    else
      var init := results[..|results| - 1];
      var last := results[|results| - 1];
      var front := ReadAll(init);
      assert forall k :: 0 <= k < |init| ==> init[k] == results[k];
      if front.Some? && last.Ok? then Some(front.value + [last.value]) else None
  }

  /** A list whose ids are all below `next`, followed by fresh slots from `next` on, keeps its ids distinct. */
  lemma AppendFresh(kept: seq<Slot>, urls: seq<string>, next: nat)
    requires IdsDistinct(kept) && IdsBelow(kept, next)
    ensures IdsDistinct(kept + NewSlots(urls, next)) && IdsBelow(kept + NewSlots(urls, next), next + |urls|)
  {
  }

  /** Changing one slot's render, or dropping renders, leaves every id and slicer image in place. */
  predicate SameSlicers(a: seq<Slot>, b: seq<Slot>) {
    |a| == |b| && forall i :: 0 <= i < |a| ==> a[i].id == b[i].id && a[i].slicerImage == b[i].slicerImage
  }

  /** With distinct ids, a render update by id changes the one slot at that position. */
  lemma SetRenderAt(slots: seq<Slot>, base: seq<Slot>, i: nat, image: string)
    requires SameSlicers(slots, base) && IdsDistinct(base) && i < |base|
    ensures SetRender(slots, base[i].id, image) == slots[i := slots[i].(realisticImage := Some(image))]
  {
  }

  // ---------------------------------------------------------------------
  // The scene-description cache and its key
  // ---------------------------------------------------------------------

  /** `images.map(img => img.slicerImage)`, with `null` joined as the empty string. */
  function SlicerTexts(slots: seq<Slot>): seq<string> {
    seq(|slots|, i requires 0 <= i < |slots| => slots[i].slicerImage.GetOr(""))
  }

  /** `slicerImageUrls`: the value the cache-reset effect watches. */
  function SlicerImageUrls(slots: seq<Slot>): string {
    Join(SlicerTexts(slots), ',')
  }

  /** Render updates never touch the watched value, so they keep a cached description. */
  lemma SameSlicersSameKey(a: seq<Slot>, b: seq<Slot>)
    requires SameSlicers(a, b)
    ensures SlicerImageUrls(a) == SlicerImageUrls(b)
  {
    assert SlicerTexts(a) == SlicerTexts(b);
  }

  /**
   * Uploading a different image into a slot, or clearing a slot that held
   * one, always changes the watched value, whatever the images contain.
   */
  lemma SlicerChangeChangesKey(slots: seq<Slot>, id: nat, url: Option<string>, i: nat)
    requires IdsDistinct(slots) && i < |slots| && slots[i].id == id
    requires slots[i].slicerImage.GetOr("") != url.GetOr("")
    ensures SlicerImageUrls(SetSlicer(slots, id, url)) != SlicerImageUrls(slots)
  {
    var a := SlicerTexts(SetSlicer(slots, id, url));
    var b := SlicerTexts(slots);
    assert a[i] == url.GetOr("");
    JoinDistinguishesPiece(a, b, ',', i);
  }

  /** Adding a slot always changes the watched value: the join gains a separator. */
  lemma AddedSlotChangesKey(slots: seq<Slot>, id: nat)
    requires slots != []
    ensures SlicerImageUrls(slots + [BlankSlot(id)]) != SlicerImageUrls(slots)
  {
    assert SlicerTexts(slots + [BlankSlot(id)]) == SlicerTexts(slots) + [""];
    JoinSnoc(SlicerTexts(slots), "", ',');
  }

  /** The blank slot added to an empty list joins to the same empty value as the empty list. */
  lemma BlankSlotKeepsKey(id: nat)
    ensures SlicerImageUrls([BlankSlot(id)]) == SlicerImageUrls([]) == ""
  {
    assert SlicerTexts([BlankSlot(id)]) == [""];
  }

  // ---------------------------------------------------------------------
  // The scene-image records
  // ---------------------------------------------------------------------

  /** One entry `image_<key>: image` of a `Record<string, string>`. */
  datatype SceneEntry = SceneEntry(key: nat, image: string)

  /** `Object.values(record)`: the images, in insertion order. */
  function ImagesOf(record: seq<SceneEntry>): seq<string> {
    seq(|record|, k requires 0 <= k < |record| => record[k].image)
  }

  /** The record built by `handleGenerate`, `handleReRender` and `handleGenerateText`: keyed by position in the whole list. */
  function SceneRecord(slots: seq<Slot>): seq<SceneEntry>
    decreases |slots|
  {
    if slots == [] then []
    else
      var last := slots[|slots| - 1];
      SceneRecord(slots[..|slots| - 1])
        + (if Truthy(last.slicerImage) then [SceneEntry(|slots| - 1, last.slicerImage.value)] else [])
  }

  /** Every entry of the whole-list record is a slot with a slicer image, keyed by its position. */
  lemma {:induction false} SceneRecordSound(slots: seq<Slot>)
    ensures forall e :: e in SceneRecord(slots) ==>
              e.key < |slots| && Truthy(slots[e.key].slicerImage) && slots[e.key].slicerImage.value == e.image
    decreases |slots|
  {
    if slots != [] {
      var init := slots[..|slots| - 1];
      SceneRecordSound(init);
      forall e | e in SceneRecord(init) ensures init[e.key] == slots[e.key] { }
    }
  }

  /** Every slot with a slicer image has its entry in the whole-list record. */
  lemma {:induction false} SceneRecordComplete(slots: seq<Slot>)
    ensures forall i :: 0 <= i < |slots| && Truthy(slots[i].slicerImage) ==> SceneEntry(i, slots[i].slicerImage.value) in SceneRecord(slots)
    decreases |slots|
  {
    if slots != [] {
      var init := slots[..|slots| - 1];
      SceneRecordComplete(init);
      forall i | 0 <= i < |init| ensures init[i] == slots[i] { }
    }
  }

  /** The whole-list record lists its entries in slot order. */
  lemma {:induction false} SceneRecordOrdered(slots: seq<Slot>)
    ensures forall k, l :: 0 <= k < l < |SceneRecord(slots)| ==> SceneRecord(slots)[k].key < SceneRecord(slots)[l].key
    decreases |slots|
  {
    if slots != [] {
      var init := slots[..|slots| - 1];
      SceneRecordOrdered(init);
      SceneRecordSound(init);
      var r := SceneRecord(init);
      forall k | 0 <= k < |r| ensures r[k].key < |slots| - 1 {
        assert r[k] in r;
      }
    }
  }

  /** The whole-list record is empty exactly when no slot has a slicer image. */
  lemma SceneRecordEmpty(slots: seq<Slot>)
    ensures SceneRecord(slots) == [] <==> forall i :: 0 <= i < |slots| ==> !Truthy(slots[i].slicerImage)
  {
    SceneRecordSound(slots);
    SceneRecordComplete(slots);
    var r := SceneRecord(slots);
    if r != [] {
      assert r[0] in r;
    }
  }

  /** A slot with a slicer image makes the whole-list record non-empty. */
  lemma SceneRecordNonEmpty(slots: seq<Slot>, i: nat)
    requires i < |slots| && Truthy(slots[i].slicerImage)
    ensures SceneRecord(slots) != []
  {
    SceneRecordComplete(slots);
  }

  /**
   * A slot awaiting a render has a slicer image, so `handleGenerate` never
   * finds the whole-list record empty.
   */
  lemma GenerateHasSceneImages(slots: seq<Slot>)
    requires ImagesToGenerateCount(slots) > 0
    ensures SceneRecord(slots) != []
  {
    var pending := Keep(slots, AwaitingRender)[0];
    KeepMembers(slots, AwaitingRender, pending);
    var i :| 0 <= i < |slots| && slots[i] == pending;
    SceneRecordNonEmpty(slots, i);
  }

  /** The `forEach` that fills the whole-list record. */
  method CollectSceneImages(slots: seq<Slot>) returns (record: seq<SceneEntry>)
    ensures record == SceneRecord(slots)
  {
    record := [];
    for i := 0 to |slots|
      invariant record == SceneRecord(slots[..i])
    {
      assert slots[..i + 1][..i] == slots[..i];
      if Truthy(slots[i].slicerImage) {
        record := record + [SceneEntry(i, slots[i].slicerImage.value)];
      }
    }
    assert slots[..|slots|] == slots;
  }

  /** The record built by `handleRegenerateAll`: keyed by position among the filled slots only. */
  function NumberedRecord(filled: seq<Slot>): seq<SceneEntry> {
    seq(|filled|, k requires 0 <= k < |filled| => SceneEntry(k, filled[k].slicerImage.GetOr("")))
  }

  /** The `forEach` of `handleRegenerateAll` over the filled slots. */
  method NumberFilled(filled: seq<Slot>) returns (record: seq<SceneEntry>)
    ensures |record| == |filled|
    ensures forall k :: 0 <= k < |filled| ==> record[k].key == k && Some(record[k].image) == filled[k].slicerImage
    requires forall k :: 0 <= k < |filled| ==> filled[k].slicerImage.Some?
  {
    record := [];
    for k := 0 to |filled|
      invariant |record| == k
      invariant forall j :: 0 <= j < k ==> record[j] == SceneEntry(j, filled[j].slicerImage.value)
    {
      record := record + [SceneEntry(k, filled[k].slicerImage.value)];
    }
  }

  /**
   * The two keyings differ, but the service reads only `Object.values`:
   * both records send the same images in the same order.
   */
  lemma {:induction false} SceneImagesAgree(slots: seq<Slot>)
    ensures ImagesOf(SceneRecord(slots)) == ImagesOf(NumberedRecord(Keep(slots, FilledSlicer)))
    decreases |slots|
  {
    if slots != [] {
      var init := slots[..|slots| - 1];
      var last := slots[|slots| - 1];
      SceneImagesAgree(init);
      var kept := Keep(init, FilledSlicer);
      if Truthy(last.slicerImage) {
        assert ImagesOf(SceneRecord(slots)) == ImagesOf(SceneRecord(init)) + [last.slicerImage.value];
        assert ImagesOf(NumberedRecord(kept + [last])) == ImagesOf(NumberedRecord(kept)) + [last.slicerImage.value];
      } else {
        assert SceneRecord(slots) == SceneRecord(init);
      }
    }
  }

  // ---------------------------------------------------------------------
  // Renders
  // ---------------------------------------------------------------------

  /** The arguments of `generateRealisticView`; `angle` is `n` in the label `angle <n>`. */
  datatype RenderRequest = RenderRequest(slicerImage: string, sceneDescription: string, angle: nat, showLayerLines: bool)

  /** The request for the slot at position `i`: its angle label counts from 1. */
  function RequestAt(slots: seq<Slot>, i: nat, scene: string, showLayerLines: bool): RenderRequest
    requires i < |slots|
  {
    RenderRequest(slots[i].slicerImage.GetOr(""), scene, i + 1, showLayerLines)
  }

  /** Every selected slot whose render succeeds gets the image; every other slot is unchanged. */
  function Rendered(slots: seq<Slot>, c: Criterion, scene: string, showLayerLines: bool,
                    render: RenderRequest -> Outcome<string>): seq<Slot>
  {
    seq(|slots|, i requires 0 <= i < |slots| =>
      var outcome := render(RequestAt(slots, i, scene, showLayerLines));
      if Matches(c, slots[i]) && outcome.Ok? then slots[i].(realisticImage := Some(outcome.value)) else slots[i])
  }

  /** The message of the first selected slot, among the first `n`, whose render fails. */
  function FirstFailure(slots: seq<Slot>, c: Criterion, scene: string, showLayerLines: bool,
                        render: RenderRequest -> Outcome<string>, n: nat): Option<string>
    requires n <= |slots|
  {
    if n == 0 then None
    else
      var earlier := FirstFailure(slots, c, scene, showLayerLines, render, n - 1);
      var outcome := render(RequestAt(slots, n - 1, scene, showLayerLines));
      if earlier.Some? then earlier
      else if Matches(c, slots[n - 1]) && outcome.Err? then Some(outcome.message)
      else None
  }

  /**
   * A failure is reported exactly when some selected render fails, and it
   * is the message of the first one.
   */
  lemma {:induction false} FirstFailureSpec(slots: seq<Slot>, c: Criterion, scene: string, showLayerLines: bool,
                                            render: RenderRequest -> Outcome<string>, n: nat)
    requires n <= |slots|
    ensures FirstFailure(slots, c, scene, showLayerLines, render, n).None? <==>
              forall i :: 0 <= i < n && Matches(c, slots[i]) ==> render(RequestAt(slots, i, scene, showLayerLines)).Ok?
    ensures FirstFailure(slots, c, scene, showLayerLines, render, n).Some? ==>
              exists i :: 0 <= i < n && Matches(c, slots[i]) && render(RequestAt(slots, i, scene, showLayerLines)).Err?
                && FirstFailure(slots, c, scene, showLayerLines, render, n).value == render(RequestAt(slots, i, scene, showLayerLines)).message
                && forall j :: 0 <= j < i && Matches(c, slots[j]) ==> render(RequestAt(slots, j, scene, showLayerLines)).Ok?
    decreases n
  {
    if n > 0 {
      FirstFailureSpec(slots, c, scene, showLayerLines, render, n - 1);
    }
  }

  /** Renders keep every id and slicer image. */
  lemma RenderedKeepsSlicers(slots: seq<Slot>, c: Criterion, scene: string, showLayerLines: bool,
                             render: RenderRequest -> Outcome<string>)
    ensures SameSlicers(Rendered(slots, c, scene, showLayerLines, render), slots)
  {
  }

  /**
   * The renders of one handler, one selected slot after another, each
   * looked up by id (`findIndex`) for its angle label and written back by
   * id. A failed render does not stop the others; the first failure is
   * what the handler reports.
   */
  method RenderEach(slots: seq<Slot>, c: Criterion, scene: string, showLayerLines: bool,
                    render: RenderRequest -> Outcome<string>) returns (rendered: seq<Slot>, failure: Option<string>)
    requires IdsDistinct(slots)
    ensures rendered == Rendered(slots, c, scene, showLayerLines, render)
    ensures failure == FirstFailure(slots, c, scene, showLayerLines, render, |slots|)
  {
    ghost var target := Rendered(slots, c, scene, showLayerLines, render);
    rendered := slots;
    failure := None;
    for i := 0 to |slots|
      invariant RenderedUpTo(rendered, slots, target, i)
      invariant failure == FirstFailure(slots, c, scene, showLayerLines, render, i)
    {
      var slot := slots[i];
      if Matches(c, slot) {
        var angleIndex := FindIndex(slots, slot.id);
        FindIndexOfDistinct(slots, i);
        var outcome := render(RenderRequest(slot.slicerImage.GetOr(""), scene, angleIndex + 1, showLayerLines));
        assert outcome == render(RequestAt(slots, i, scene, showLayerLines));
        if outcome.Ok? {
          RenderedStep(rendered, slots, c, scene, showLayerLines, render, i);
          rendered := SetRender(rendered, slot.id, outcome.value);
        } else if failure.None? {
          failure := Some(outcome.message);
        }
      }
    }
  }

  /** The first `i` slots are as in `target`, the rest as in `slots`. */
  ghost predicate RenderedUpTo(rendered: seq<Slot>, slots: seq<Slot>, target: seq<Slot>, i: nat) {
    && |rendered| == |slots| == |target| && i <= |slots|
    && (forall k :: 0 <= k < i ==> rendered[k] == target[k])
    && (forall k :: i <= k < |slots| ==> rendered[k] == slots[k])
  }

  /** Storing a successful render of slot `i` under its id advances `RenderedUpTo` by one slot. */
  lemma RenderedStep(rendered: seq<Slot>, slots: seq<Slot>, c: Criterion, scene: string, showLayerLines: bool,
                     render: RenderRequest -> Outcome<string>, i: nat)
    requires IdsDistinct(slots) && i < |slots|
    requires RenderedUpTo(rendered, slots, Rendered(slots, c, scene, showLayerLines, render), i)
    requires Matches(c, slots[i]) && render(RequestAt(slots, i, scene, showLayerLines)).Ok?
    ensures RenderedUpTo(SetRender(rendered, slots[i].id, render(RequestAt(slots, i, scene, showLayerLines)).value),
                         slots, Rendered(slots, c, scene, showLayerLines, render), i + 1)
  {
    var image := render(RequestAt(slots, i, scene, showLayerLines)).value;
    assert SameSlicers(rendered, slots);
    SetRenderAt(rendered, slots, i, image);
  }

  // ---------------------------------------------------------------------
  // The page
  // ---------------------------------------------------------------------

  const BatchUploadFailure := "An error occurred while reading the uploaded files. Please ensure they are valid image files and try again."
  const NoSceneImagesForText := "Upload at least one slicer image to generate text."
  const CopyTagFailure := "Failed to copy tag to clipboard."

  /** No tag is listed twice. */
  predicate NoRepeats(tags: seq<string>) {
    forall i, j :: 0 <= i < j < |tags| ==> tags[i] != tags[j]
  }

  class VisualizerPage {
    var images: seq<Slot>
    var sceneDescription: Option<string>
    var isLoading: bool
    var reRenderingId: Option<nat>
    var error: Option<string>
    var showLayerLines: bool
    var colorOption: ColorOption
    var makerWorldContent: Option<MakerWorldContent>
    var isGeneratingText: bool
    var copiedTitle: bool
    var copiedDescription: bool
    var copiedTags: seq<string>
    /** The next id `crypto.randomUUID()` hands out. */
    var nextId: nat

    /** Ids are distinct and fresh. */
    ghost predicate SlotsValid()
      reads this`images, this`nextId
    {
      IdsDistinct(images) && IdsBelow(images, nextId)
    }

    /** No tag is marked as copied twice. */
    ghost predicate TagsValid()
      reads this`copiedTags
    {
      NoRepeats(copiedTags)
    }

    /** The state between two handlers: the effects have left at least one slot. */
    ghost predicate Valid()
      reads this`images, this`nextId, this`copiedTags
    {
      SlotsValid() && TagsValid() && images != []
    }

    /** The first render and its effects: one blank slot and no cached description. */
    constructor()
      ensures Valid()
      ensures images == [BlankSlot(0)] && sceneDescription == None && error == None
      ensures !isLoading && reRenderingId == None && showLayerLines && colorOption == Single
      ensures makerWorldContent == None && !isGeneratingText && !copiedTitle && !copiedDescription && copiedTags == []
    {
      images := [BlankSlot(0)];
      nextId := 1;
      sceneDescription := None;
      isLoading := false;
      reRenderingId := None;
      error := None;
      showLayerLines := true;
      colorOption := Single;
      makerWorldContent := None;
      isGeneratingText := false;
      copiedTitle := false;
      copiedDescription := false;
      copiedTags := [];
    }

    /**
     * The effects after a change, given the dependencies
     * `[slicerImageUrls, colorOption]` of the render before it: the
     * description is dropped when either differs now, and an emptied list
     * gets one blank slot. The render that slot causes watches the same
     * empty value as the empty list did, so the effect does not fire again.
     */
    method RunEffects(previousUrls: string, previousColor: ColorOption)
      requires SlotsValid() && TagsValid()
      modifies this`images, this`nextId, this`sceneDescription
      ensures Valid()
      ensures old(images) != [] ==> images == old(images) && nextId == old(nextId)
      ensures old(images) == [] ==> images == [BlankSlot(old(nextId))] && nextId == old(nextId) + 1
      ensures SlicerImageUrls(images) == SlicerImageUrls(old(images))
      ensures sceneDescription ==
                if SlicerImageUrls(old(images)) != previousUrls || colorOption != previousColor then None
                else old(sceneDescription)
    {
      if SlicerImageUrls(images) != previousUrls || colorOption != previousColor {
        sceneDescription := None;
      }
      if images == [] {
        BlankSlotKeepsKey(nextId);
        images := [BlankSlot(nextId)];
        nextId := nextId + 1;
      }
    }

    /** `addNewSlot`: a blank slot at the end, which always drops the cached description. */
    method AddNewSlot()
      requires Valid()
      modifies this`images, this`nextId, this`sceneDescription
      ensures Valid()
      ensures images == old(images) + [BlankSlot(old(nextId))]
      ensures sceneDescription == None
    {
      var previousUrls := SlicerImageUrls(images);
      AddedSlotChangesKey(images, nextId);
      images := images + [BlankSlot(nextId)];
      nextId := nextId + 1;
      RunEffects(previousUrls, colorOption);
    }

    /**
     * Upload (`url` present) and clear (`url` null): only the slot with
     * that id changes, and only its two images; a changed slicer image
     * drops the cached description.
     */
    method SetSlotImage(id: nat, url: Option<string>)
      requires Valid()
      modifies this`images, this`nextId, this`sceneDescription
      ensures Valid()
      ensures images == SetSlicer(old(images), id, url) && nextId == old(nextId)
      ensures |images| == |old(images)|
      ensures forall i :: 0 <= i < |images| ==> images[i].id == old(images)[i].id
      ensures forall i :: 0 <= i < |images| && images[i].id == id ==> images[i].slicerImage == url && images[i].realisticImage == None
      ensures forall i :: 0 <= i < |images| && images[i].id != id ==> images[i] == old(images)[i]
      ensures sceneDescription == if SlicerImageUrls(images) != SlicerImageUrls(old(images)) then None else old(sceneDescription)
      ensures forall i :: 0 <= i < |images| && old(images)[i].id == id && old(images)[i].slicerImage.GetOr("") != url.GetOr("")
                ==> sceneDescription == None
    {
      var previousUrls := SlicerImageUrls(images);
      forall i | 0 <= i < |images| && images[i].id == id && images[i].slicerImage.GetOr("") != url.GetOr("")
        ensures SlicerImageUrls(SetSlicer(images, id, url)) != previousUrls
      {
        SlicerChangeChangesKey(images, id, url, i);
      }
      images := SetSlicer(images, id, url);
      RunEffects(previousUrls, colorOption);
    }

    /** `handleImageUpload`: nothing happens unless the file was read as a string. */
    method HandleImageUpload(id: nat, read: Option<string>)
      requires Valid()
      modifies this`images, this`nextId, this`sceneDescription
      ensures Valid()
      ensures nextId == old(nextId)
      ensures read.None? ==> images == old(images) && sceneDescription == old(sceneDescription)
      ensures read.Some? ==> images == SetSlicer(old(images), id, read)
      ensures read.Some? ==>
                sceneDescription == if SlicerImageUrls(images) != SlicerImageUrls(old(images)) then None else old(sceneDescription)
      ensures read.Some? ==>
                forall i :: 0 <= i < |old(images)| && old(images)[i].id == id && old(images)[i].slicerImage.GetOr("") != read.value
                  ==> sceneDescription == None
    {
      if read.Some? {
        SetSlotImage(id, read);
      }
    }

    /** `handleImageClear` */
    method HandleImageClear(id: nat)
      requires Valid()
      modifies this`images, this`nextId, this`sceneDescription
      ensures Valid()
      ensures images == SetSlicer(old(images), id, None) && nextId == old(nextId)
      ensures sceneDescription == if SlicerImageUrls(images) != SlicerImageUrls(old(images)) then None else old(sceneDescription)
      ensures forall i :: 0 <= i < |old(images)| && old(images)[i].id == id && old(images)[i].slicerImage.GetOr("") != ""
                ==> sceneDescription == None
    {
      SetSlotImage(id, None);
    }

    /**
     * `handleSlotRemove`: exactly the slots with that id go, the rest keep
     * their order; an emptied list gets one blank slot back.
     */
    method HandleSlotRemove(id: nat)
      requires Valid()
      modifies this`images, this`nextId, this`sceneDescription
      ensures Valid()
      ensures Keep(old(images), NotId(id)) != [] ==> images == Keep(old(images), NotId(id))
      ensures Keep(old(images), NotId(id)) == [] ==> images == [BlankSlot(old(nextId))]
      ensures sceneDescription == if SlicerImageUrls(images) != SlicerImageUrls(old(images)) then None else old(sceneDescription)
    {
      var previousUrls := SlicerImageUrls(images);
      KeepIds(images, NotId(id), nextId);
      images := Keep(images, NotId(id));
      RunEffects(previousUrls, colorOption);
    }

    /**
     * `handleBatchUpload`: no files, no change; a failed read sets the
     * error and leaves the slots; otherwise the slots with a slicer image
     * stay, in order, followed by one new slot per file.
     */
    method HandleBatchUpload(results: seq<Outcome<string>>)
      requires Valid()
      modifies this`images, this`nextId, this`sceneDescription, this`error
      ensures Valid()
      ensures results == [] ==> images == old(images) && error == old(error) && sceneDescription == old(sceneDescription)
      ensures results != [] && ReadAll(results).None? ==>
                images == old(images) && error == Some(BatchUploadFailure) && sceneDescription == old(sceneDescription)
      ensures results != [] && ReadAll(results).Some? ==>
                && images == Keep(old(images), NonNullSlicer) + NewSlots(ReadAll(results).value, old(nextId))
                && error == old(error)
                && sceneDescription == if SlicerImageUrls(images) != SlicerImageUrls(old(images)) then None else old(sceneDescription)
    {
      if results == [] {
        return;
      }
      var urls := ReadAll(results);
      if urls.None? {
        error := Some(BatchUploadFailure);
        return;
      }
      var previousUrls := SlicerImageUrls(images);
      KeepIds(images, NonNullSlicer, nextId);
      AppendFresh(Keep(images, NonNullSlicer), urls.value, nextId);
      images := Keep(images, NonNullSlicer) + NewSlots(urls.value, nextId);
      nextId := nextId + |urls.value|;
      RunEffects(previousUrls, colorOption);
    }

    /** The colour selector: a different option drops the cached description. */
    method SetColorOption(option: ColorOption)
      requires Valid()
      modifies this`images, this`nextId, this`sceneDescription, this`colorOption
      ensures Valid()
      ensures colorOption == option && images == old(images)
      ensures sceneDescription == if option != old(colorOption) then None else old(sceneDescription)
    {
      var previousColor := colorOption;
      colorOption := option;
      RunEffects(SlicerImageUrls(images), previousColor);
    }

    /**
     * `handleGenerate`: nothing to do when no slot awaits a render.
     * Otherwise a cached description is reused and a missing one is
     * requested from the whole-list record; every slot awaiting a render is
     * then rendered with it, and the first failure is the error.
     */
    method HandleGenerate(describe: seq<string> -> ColorOption -> Outcome<string>,
                          render: RenderRequest -> Outcome<string>)
      requires Valid()
      modifies this`images, this`sceneDescription, this`isLoading, this`error
      ensures Valid()
      ensures SlicerImageUrls(images) == SlicerImageUrls(old(images))
      ensures ImagesToGenerateCount(old(images)) == 0 ==>
                images == old(images) && sceneDescription == old(sceneDescription) && error == old(error) && isLoading == old(isLoading)
      ensures ImagesToGenerateCount(old(images)) > 0 ==>
                var described := if Truthy(old(sceneDescription)) then Ok(old(sceneDescription).value)
                                 else describe(ImagesOf(SceneRecord(old(images))))(colorOption);
                && !isLoading
                && (described.Err? ==> images == old(images) && sceneDescription == old(sceneDescription) && error == Some(described.message))
                && (described.Ok? ==>
                      && sceneDescription == Some(described.value)
                      && images == Rendered(old(images), AwaitingRender, described.value, showLayerLines, render)
                      && error == FirstFailure(old(images), AwaitingRender, described.value, showLayerLines, render, |old(images)|))
    {
      if ImagesToGenerateCount(images) == 0 {
        return;
      }
      isLoading := true;
      error := None;
      var scene := sceneDescription;
      if !Truthy(scene) {
        var record := CollectSceneImages(images);
        // the throw for an empty record cannot fire here: a slot awaits a render
        GenerateHasSceneImages(images);
        scene := DescribeScene(ImagesOf(record), describe);
        if scene.None? {
          isLoading := false;
          return;
        }
      }
      RenderPending(AwaitingRender, scene.value, render);
      isLoading := false;
    }

    /** The renders of a handler, written back into the slot list. */
    method RenderPending(c: Criterion, scene: string, render: RenderRequest -> Outcome<string>)
      requires Valid()
      modifies this`images, this`error
      ensures Valid()
      ensures SlicerImageUrls(images) == SlicerImageUrls(old(images))
      ensures images == Rendered(old(images), c, scene, showLayerLines, render)
      ensures error == if FirstFailure(old(images), c, scene, showLayerLines, render, |old(images)|).Some?
                       then FirstFailure(old(images), c, scene, showLayerLines, render, |old(images)|)
                       else old(error)
    {
      var rendered, failure := RenderEach(images, c, scene, showLayerLines, render);
      RenderedKeepsSlicers(images, c, scene, showLayerLines, render);
      SameSlicersSameKey(rendered, images);
      images := rendered;
      if failure.Some? {
        error := failure;
      }
    }

    /**
     * `handleReRender`: nothing happens unless the slot exists and has a
     * slicer image. Otherwise a fresh description is always requested from
     * the whole-list record and that one slot is rendered with it.
     */
    method HandleReRender(id: nat, describe: seq<string> -> ColorOption -> Outcome<string>,
                          render: RenderRequest -> Outcome<string>)
      requires Valid()
      modifies this`images, this`sceneDescription, this`reRenderingId, this`error
      ensures Valid()
      ensures SlicerImageUrls(images) == SlicerImageUrls(old(images))
      ensures var k := FindIndex(old(images), id);
              k < 0 || !Truthy(old(images)[k].slicerImage) ==>
                images == old(images) && sceneDescription == old(sceneDescription) && error == old(error)
                && reRenderingId == old(reRenderingId)
      ensures var k := FindIndex(old(images), id);
              k >= 0 && Truthy(old(images)[k].slicerImage) ==>
                var described := describe(ImagesOf(SceneRecord(old(images))))(colorOption);
                && reRenderingId == None
                && (described.Err? ==> images == old(images) && sceneDescription == old(sceneDescription) && error == Some(described.message))
                && (described.Ok? ==>
                      var outcome := render(RequestAt(old(images), k, described.value, showLayerLines));
                      && sceneDescription == Some(described.value)
                      && (outcome.Ok? ==> images == old(images)[k := old(images)[k].(realisticImage := Some(outcome.value))] && error == None)
                      && (outcome.Err? ==> images == old(images) && error == Some(outcome.message)))
    {
      var k := FindIndex(images, id);
      if k < 0 || !Truthy(images[k].slicerImage) {
        return;
      }
      reRenderingId := Some(id);
      error := None;
      var record := CollectSceneImages(images);
      // the throw for an empty record cannot fire here: slot k has a slicer image
      SceneRecordNonEmpty(images, k);
      var scene := DescribeScene(ImagesOf(record), describe);
      if scene.Some? {
        RenderSlot(k, scene.value, render);
      }
      reRenderingId := None;
    }

    /**
     * A `generateSceneDescription` request: a description is stored as the
     * cached one, an error becomes the page's error.
     */
    method DescribeScene(sent: seq<string>, describe: seq<string> -> ColorOption -> Outcome<string>)
      returns (scene: Option<string>)
      modifies this`sceneDescription, this`error
      ensures var described := describe(sent)(colorOption);
              && (described.Err? ==> scene == None && sceneDescription == old(sceneDescription) && error == Some(described.message))
              && (described.Ok? ==> scene == Some(described.value) && sceneDescription == scene && error == old(error))
    {
      var described := describe(sent)(colorOption);
      if described.Err? {
        error := Some(described.message);
        scene := None;
      } else {
        scene := Some(described.value);
        sceneDescription := scene;
      }
    }

    /** The one render of `handleReRender`: the slot is looked up by id for its angle label and written back by id. */
    method RenderSlot(k: nat, scene: string, render: RenderRequest -> Outcome<string>)
      requires Valid() && k < |images| && Truthy(images[k].slicerImage)
      modifies this`images, this`error
      ensures Valid()
      ensures SlicerImageUrls(images) == SlicerImageUrls(old(images))
      ensures var outcome := render(RequestAt(old(images), k, scene, showLayerLines));
              && (outcome.Ok? ==> images == old(images)[k := old(images)[k].(realisticImage := Some(outcome.value))] && error == old(error))
              && (outcome.Err? ==> images == old(images) && error == Some(outcome.message))
    {
      var id := images[k].id;
      var angleIndex := FindIndex(images, id);
      FindIndexOfDistinct(images, k);
      var outcome := render(RenderRequest(images[k].slicerImage.value, scene, angleIndex + 1, showLayerLines));
      assert outcome == render(RequestAt(images, k, scene, showLayerLines));
      if outcome.Ok? {
        SetRenderAt(images, images, k, outcome.value);
        var rendered := SetRender(images, id, outcome.value);
        assert rendered == images[k := images[k].(realisticImage := Some(outcome.value))];
        assert SameSlicers(rendered, images);
        SameSlicersSameKey(rendered, images);
        images := rendered;
      } else {
        error := Some(outcome.message);
      }
    }

    /**
     * `handleRegenerateAll`: nothing happens without a filled slot.
     * Otherwise every filled slot loses its render, a new description is
     * requested from the record numbered among the filled slots, and every
     * filled slot is rendered again with it.
     */
    method HandleRegenerateAll(describe: seq<string> -> ColorOption -> Outcome<string>,
                               render: RenderRequest -> Outcome<string>)
      requires Valid()
      modifies this`images, this`sceneDescription, this`isLoading, this`error
      ensures Valid()
      ensures SlicerImageUrls(images) == SlicerImageUrls(old(images))
      ensures Keep(old(images), FilledSlicer) == [] ==>
                images == old(images) && sceneDescription == old(sceneDescription) && error == old(error) && isLoading == old(isLoading)
      ensures Keep(old(images), FilledSlicer) != [] ==>
                var described := describe(ImagesOf(NumberedRecord(Keep(old(images), FilledSlicer))))(colorOption);
                var cleared := ClearRenders(old(images));
                && !isLoading
                && (described.Err? ==> images == cleared && sceneDescription == old(sceneDescription) && error == Some(described.message))
                && (described.Ok? ==>
                      && sceneDescription == Some(described.value)
                      && images == Rendered(cleared, FilledSlicer, described.value, showLayerLines, render)
                      && error == FirstFailure(cleared, FilledSlicer, described.value, showLayerLines, render, |cleared|))
    {
      var filled := Keep(images, FilledSlicer);
      if filled == [] {
        return;
      }
      isLoading := true;
      error := None;
      ClearFilledRenders();
      forall k | 0 <= k < |filled| ensures filled[k].slicerImage.Some? {
        KeepMembers(old(images), FilledSlicer, filled[k]);
      }
      var record := NumberFilled(filled);
      assert record == NumberedRecord(filled);
      var scene := DescribeScene(ImagesOf(record), describe);
      if scene.Some? {
        RenderPending(FilledSlicer, scene.value, render);
      }
      isLoading := false;
    }

    /** Every filled slot loses its render, to show it is being redone. */
    method ClearFilledRenders()
      requires Valid()
      modifies this`images
      ensures Valid()
      ensures SlicerImageUrls(images) == SlicerImageUrls(old(images))
      ensures images == ClearRenders(old(images))
    {
      var cleared := ClearRenders(images);
      assert SameSlicers(cleared, images);
      SameSlicersSameKey(cleared, images);
      images := cleared;
    }

    /**
     * `handleGenerateText`: the copy marks and the previous content are
     * reset; without a filled slot the error says so, otherwise the service
     * is asked with the whole-list record.
     */
    method HandleGenerateText(api: nat -> Outcome<string>, parse: string -> Option<Json>)
      requires Valid()
      modifies this`makerWorldContent, this`isGeneratingText, this`copiedTitle, this`copiedDescription, this`copiedTags, this`error
      ensures Valid()
      ensures !isGeneratingText && !copiedTitle && !copiedDescription && copiedTags == []
      ensures SceneRecord(images) == [] ==> makerWorldContent == None && error == Some(NoSceneImagesForText)
      ensures SceneRecord(images) != [] ==>
                var result := GenerateMakerWorldContent(ImagesOf(SceneRecord(images)), api, parse);
                && (result.Ok? ==> makerWorldContent == Some(result.value) && error == None)
                && (result.Err? ==> makerWorldContent == None && error == Some(result.message))
    {
      isGeneratingText := true;
      error := None;
      makerWorldContent := None;
      copiedTitle := false;
      copiedDescription := false;
      copiedTags := [];
      var record := CollectSceneImages(images);
      if record == [] {
        error := Some(NoSceneImagesForText);
      } else {
        var result := GenerateMakerWorldContent(ImagesOf(record), api, parse);
        if result.Ok? {
          makerWorldContent := Some(result.value);
        } else {
          error := Some(result.message);
        }
      }
      isGeneratingText := false;
    }

    /**
     * `handleCopyTag`: a tag already marked is left alone; otherwise a
     * successful clipboard write marks it and a failed one sets the error.
     */
    method HandleCopyTag(tag: string, written: bool)
      requires Valid()
      modifies this`copiedTags, this`error
      ensures Valid()
      ensures tag in old(copiedTags) ==> copiedTags == old(copiedTags) && error == old(error)
      ensures tag !in old(copiedTags) && written ==> copiedTags == old(copiedTags) + [tag] && error == old(error)
      ensures tag !in old(copiedTags) && !written ==> copiedTags == old(copiedTags) && error == Some(CopyTagFailure)
    {
      if tag in copiedTags {
        return;
      }
      if written {
        copiedTags := copiedTags + [tag];
      } else {
        error := Some(CopyTagFailure);
      }
    }
  }
}
