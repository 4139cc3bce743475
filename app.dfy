/**
 * The generator page (`App.tsx`): the state the page keeps between clicks,
 * and the handlers that move it. Each handler runs as one step; the API
 * calls inside it are the oracles of `GeminiService`, and `localStorage`
 * is the field `storage`.
 */
module App {
  import opened Types
  import opened Strings
  import opened GeminiService

  // ---------------------------------------------------------------------
  // Session ideas: `[...new Set([...prev, ...newIdeas])]`
  // ---------------------------------------------------------------------

  /**
   * A `Set` compares primitives by value and objects and arrays by identity.
   * Every object or array coming out of `JSON.parse` is a new identity, so
   * only primitives can be found again.
   */
  predicate ByValue(j: Json) {
    !j.JArray? && !j.JObject?
  }

  /** No primitive value occurs twice. */
  predicate NoValueRepeats(s: seq<Json>) {
    forall i, j :: 0 <= i < j < |s| && s[i] == s[j] ==> !ByValue(s[i])
  }

  /** `[...new Set(s)]`: the first occurrence of every value, in order. */
  function Dedup(s: seq<Json>): (r: seq<Json>)
    ensures forall x :: x in r <==> x in s
    ensures NoValueRepeats(r)
    ensures |r| <= |s|
    decreases |s|
  {
    if s == [] then []
    else
      var d := Dedup(s[..|s| - 1]);
      var x := s[|s| - 1];
      assert forall y :: y in s <==> y in s[..|s| - 1] || y == x by {
        assert s == s[..|s| - 1] + [x];
      }
      if ByValue(x) && x in d then d else d + [x]
  }

  /** A list without repeated values comes through unchanged. */
  lemma {:induction false} DedupOfDistinct(s: seq<Json>)
    requires NoValueRepeats(s)
    ensures Dedup(s) == s
    decreases |s|
  {
    if s != [] {
      var init := s[..|s| - 1];
      assert NoValueRepeats(init);
      DedupOfDistinct(init);
      var x := s[|s| - 1];
      forall i | 0 <= i < |init| ensures ByValue(x) ==> init[i] != x {
        assert init[i] == s[i];
      }
      assert init + [x] == s;
    }
  }

  /** Adding ideas never reorders or drops the ones already collected: they stay a prefix. */
  lemma {:induction false} DedupExtends(a: seq<Json>, b: seq<Json>)
    ensures |Dedup(a)| <= |Dedup(a + b)|
    ensures Dedup(a + b)[..|Dedup(a)|] == Dedup(a)
    decreases |b|
  {
    if b == [] {
      assert a + b == a;
    } else {
      var b' := b[..|b| - 1];
      DedupExtends(a, b');
      assert (a + b)[..|a + b| - 1] == a + b';
    }
  }

  /** The ideas of a session after a batch: the earlier ones in order, then the new values not seen before. */
  lemma SessionIdeasGrow(prev: seq<Json>, batch: seq<Json>)
    requires NoValueRepeats(prev)
    ensures |prev| <= |Dedup(prev + batch)|
    ensures Dedup(prev + batch)[..|prev|] == prev
    ensures forall x :: x in Dedup(prev + batch) <==> x in prev || x in batch
  {
    DedupOfDistinct(prev);
    DedupExtends(prev, batch);
  }

  // ---------------------------------------------------------------------
  // Saved models
  // ---------------------------------------------------------------------

  /** What `localStorage` holds under `saved3DModels`: nothing (or an empty string), text `JSON.parse` rejects, or a list. */
  datatype Stored = Absent | Malformed | Holds(models: seq<SavedModel>)

  predicate HasId(models: seq<SavedModel>, id: string) {
    exists i :: 0 <= i < |models| && models[i].id == id
  }

  /** `models.filter(m => m.id !== id)` */
  function WithoutId(models: seq<SavedModel>, id: string): (r: seq<SavedModel>)
    ensures !HasId(r, id)
    ensures |r| <= |models|
  {
    if models == [] then []
    else
      var rest := WithoutId(models[1..], id);
      if models[0].id == id then rest else [models[0]] + rest
  }

  /** Deleting keeps every other entry, and only those. */
  lemma {:induction false} WithoutIdMembers(models: seq<SavedModel>, id: string, m: SavedModel)
    ensures m in WithoutId(models, id) <==> m in models && m.id != id
    decreases |models|
  {
    if models != [] {
      WithoutIdMembers(models[1..], id, m);
      assert models == [models[0]] + models[1..];
    }
  }

  /** Deleting works entry by entry, so the entries kept stay in their order. */
  lemma {:induction false} WithoutIdAppend(a: seq<SavedModel>, b: seq<SavedModel>, id: string)
    ensures WithoutId(a + b, id) == WithoutId(a, id) + WithoutId(b, id)
    decreases |a|
  {
    if a == [] {
      assert a + b == b;
    } else {
      assert (a + b)[0] == a[0] && (a + b)[1..] == a[1..] + b;
      WithoutIdAppend(a[1..], b, id);
    }
  }

  /** A list without the id is left as it is. */
  lemma {:induction false} WithoutAbsentId(models: seq<SavedModel>, id: string)
    requires !HasId(models, id)
    ensures WithoutId(models, id) == models
    decreases |models|
  {
    if models != [] {
      assert !HasId(models[1..], id) by {
        forall i | 0 <= i < |models[1..]| ensures models[1..][i].id != id {
          assert models[1..][i] == models[i + 1];
        }
      }
      WithoutAbsentId(models[1..], id);
      assert models[0].id != id;
    }
  }

  /** After deleting `id`, exactly the other ids are still present. */
  lemma WithoutIdHasId(models: seq<SavedModel>, id: string, key: string)
    ensures HasId(WithoutId(models, id), key) <==> key != id && HasId(models, key)
  {
    var r := WithoutId(models, id);
    if key != id && HasId(models, key) {
      var i :| 0 <= i < |models| && models[i].id == key;
      WithoutIdMembers(models, id, models[i]);
      var j :| 0 <= j < |r| && r[j] == models[i];
    }
    if HasId(r, key) {
      var j :| 0 <= j < |r| && r[j].id == key;
      WithoutIdMembers(models, id, r[j]);
      var i :| 0 <= i < |models| && models[i] == r[j];
    }
  }

  // ---------------------------------------------------------------------
  // Download file names
  // ---------------------------------------------------------------------

  predicate IsAsciiAlnum(c: char) {
    'a' <= c <= 'z' || 'A' <= c <= 'Z' || '0' <= c <= '9'
  }

  /**
   * One UTF-16 code unit after `.replace(/[^a-z0-9]/gi, '_').toLowerCase()`.
   * Without the `u` flag the pattern runs over code units, and its
   * case-insensitive `a-z` matches only the ASCII letters (no non-ASCII unit
   * canonicalises to an ASCII one), so an ASCII letter or digit is kept,
   * lowered, and every other unit becomes `_`.
   */
  function SanitizeUnit(u: int): (c: char)
    ensures 'a' <= c <= 'z' || '0' <= c <= '9' || c == '_'
    ensures c == '_' <==> !(0 <= u < 0x80 && IsAsciiAlnum(u as char))
  {
    if 'A' as int <= u <= 'Z' as int then (u + 32) as char
    else if 'a' as int <= u <= 'z' as int || '0' as int <= u <= '9' as int then u as char
    else '_'
  }

  function SanitizeUnits(units: seq<int>): string {
    seq(|units|, i requires 0 <= i < |units| => SanitizeUnit(units[i]))
  }

  /** `idea.replace(/[^a-z0-9]/gi, '_').toLowerCase()`, one character per UTF-16 unit of the idea. */
  function SanitizeIdea(idea: string): (r: string)
    ensures |r| == |Utf16(idea)|
  {
    SanitizeUnits(Utf16(idea))
  }

  /** Lowering an ASCII capital first does not change how its units sanitise. */
  lemma {:induction false} SanitizeLowerUnits(idea: string)
    ensures SanitizeUnits(Utf16(Lower(idea))) == SanitizeUnits(Utf16(idea))
  {
    if idea != [] {
      var c := idea[0];
      assert Lower(idea) == [LowerChar(c)] + Lower(idea[1..]);
      SanitizeLowerUnits(idea[1..]);
      assert SanitizeUnits(Utf16Char(LowerChar(c))) == SanitizeUnits(Utf16Char(c));
      assert forall a: seq<int>, b: seq<int> :: SanitizeUnits(a + b) == SanitizeUnits(a) + SanitizeUnits(b);
    }
  }

  /**
   * A sanitised idea holds only `a-z`, `0-9` and `_`, is unchanged by
   * sanitising again and does not depend on ASCII case; a character outside
   * the Basic Multilingual Plane, two units in JavaScript, becomes `__`.
   */
  lemma SanitizeIdeaProperties(idea: string)
    ensures forall i :: 0 <= i < |SanitizeIdea(idea)| ==>
              var c := SanitizeIdea(idea)[i]; 'a' <= c <= 'z' || '0' <= c <= '9' || c == '_'
    ensures SanitizeIdea(SanitizeIdea(idea)) == SanitizeIdea(idea)
    ensures SanitizeIdea(Lower(idea)) == SanitizeIdea(idea)
    ensures forall c: char :: c as int >= 0x1_0000 ==> SanitizeIdea([c]) == "__"
  {
    var s := SanitizeIdea(idea);
    Utf16OfNarrow(s);
    assert SanitizeIdea(s) == s;
    SanitizeLowerUnits(idea);
    forall c: char | c as int >= 0x1_0000 ensures SanitizeIdea([c]) == "__" {
      assert Utf16([c]) == Utf16Char(c) + Utf16([]);
    }
  }

  const DefaultExtension := "png"

  /** `src.split(';')[0].split('/')[1] || 'png'` */
  function Extension(src: string): (ext: string)
    ensures ext != ""
    ensures ';' !in ext && '/' !in ext
  {
    var head := Split(src, ';')[0];
    var pieces := Split(head, '/');
    if |pieces| >= 2 && pieces[1] != "" then
      assert ';' !in pieces[1] by {
        assert forall c :: c in pieces[1] ==> c in Join(pieces, '/') by {
          assert Join(pieces, '/') == pieces[0] + ['/'] + Join(pieces[1..], '/');
          JoinStartsWithFirst(pieces[1..], '/');
        }
      }
      pieces[1]
    else DefaultExtension
  }

  lemma JoinStartsWithFirst(parts: seq<string>, sep: char)
    requires |parts| >= 1
    ensures StartsWith(Join(parts, sep), parts[0])
  {
    if |parts| > 1 {
      assert Join(parts, sep) == parts[0] + ([sep] + Join(parts[1..], sep));
    }
  }

  /** The extension of a data URL is the subtype of its MIME type. */
  lemma ExtensionOfDataUrl(mediaType: string, subtype: string, data: string)
    requires '/' !in mediaType && ';' !in mediaType && ',' !in mediaType
    requires subtype != "" && '/' !in subtype && ';' !in subtype
    ensures Extension(ImageDataUrl(mediaType + "/" + subtype, data)) == subtype
  {
    var src := ImageDataUrl(mediaType + "/" + subtype, data);
    var head := "data:" + mediaType + "/" + subtype;
    assert ';' !in head;
    assert src == head + [';'] + ("base64," + data);
    SplitAfterPiece(head, ';', "base64," + data);
    assert '/' !in "data:" + mediaType;
    assert head == ("data:" + mediaType) + ['/'] + subtype;
    SplitAfterPiece("data:" + mediaType, '/', subtype);
    SplitWithoutSeparator(subtype, '/');
  }

  /** Without a `/` before the first `;` the extension falls back to `png`. */
  lemma ExtensionFallback(head: string, rest: string)
    requires '/' !in head && ';' !in head
    ensures Extension(head + ";" + rest) == DefaultExtension
  {
    assert head + ";" + rest == head + [';'] + rest;
    SplitAfterPiece(head, ';', rest);
    SplitWithoutSeparator(head, '/');
  }

  /** `${sanitizedIdea}_${view}.${extension}` */
  function DownloadName(idea: string, view: View, src: string): string {
    SanitizeIdea(idea) + "_" + ViewName(view) + "." + Extension(src)
  }

  /**
   * A download name is the sanitised idea, `_`, the view's name, `.` and
   * the extension; since neither the sanitised idea nor the view name
   * holds a `.`, the text after the last `.` is the extension.
   */
  lemma DownloadNameShape(idea: string, view: View, src: string)
    ensures var name := DownloadName(idea, view, src);
            && |name| == |Utf16(idea)| + |ViewName(view)| + |Extension(src)| + 2
            && StartsWith(name, SanitizeIdea(idea) + "_" + ViewName(view) + ".")
            && name[|name| - |Extension(src)|..] == Extension(src)
            && name[|name| - |Extension(src)| - 1] == '.'
            && forall i :: 0 <= i < |name| - |Extension(src)| - 1 ==> name[i] != '.'
  {
    var san, vn, ext := SanitizeIdea(idea), ViewName(view), Extension(src);
    var stem := san + "_" + vn + ".";
    var name := DownloadName(idea, view, src);
    assert name == stem + ext;
    assert name[..|stem|] == stem;
    assert '.' !in vn by {
      match view
      case Front =>
      case Left =>
      case Right =>
      case Back =>
    }
    forall i | 0 <= i < |stem| - 1 ensures name[i] != '.' {
      assert name[i] == stem[i];
      if i < |san| {
        assert stem[i] == SanitizeUnit(Utf16(idea)[i]);
      } else if i > |san| {
        assert stem[i] == vn[i - |san| - 1];
      }
    }
  }

  /** One anchor `handleDownloadAll` clicks. */
  datatype Download = Download(view: View, fileName: string, href: string)

  /** The anchors clicked for the views `views` of a model, in that order: one per view whose image is set. */
  function Downloads(m: GeneratedModel, views: seq<View>): seq<Download> {
    if views == [] then [] else Downloads(m, views[..|views| - 1]) + DownloadOf(m, views[|views| - 1])
  }

  /** The anchor for view `v` of a model: none when its image is not set. */
  function DownloadOf(m: GeneratedModel, v: View): seq<Download> {
    var src := m.images.Get(v);
    if Truthy(src) then [Download(v, DownloadName(m.idea, v, src.value), src.value)] else []
  }

  /** Views listed in `MODEL_VIEWS` order. */
  predicate InViewOrder(views: seq<View>) {
    forall i, j :: 0 <= i < j < |views| ==> ViewIndex(views[i]) < ViewIndex(views[j])
  }

  /** The anchor of one view: present exactly when its image is set, linking that image under the view's download name. */
  lemma DownloadOfSpec(m: GeneratedModel, v: View)
    ensures |DownloadOf(m, v)| == if Truthy(m.images.Get(v)) then 1 else 0
    ensures forall d :: d in DownloadOf(m, v) ==>
              && d.view == v && Truthy(m.images.Get(v)) && d.href == m.images.Get(v).value
              && d.fileName == DownloadName(m.idea, v, d.href)
  {
  }

  /**
   * Every download is of a listed view whose image is set, links that
   * image and is named after the idea, the view and the image's extension.
   */
  lemma {:induction false} DownloadsOfSetViews(m: GeneratedModel, views: seq<View>)
    ensures forall d :: d in Downloads(m, views) ==>
              && d.view in views && Truthy(m.images.Get(d.view))
              && d.href == m.images.Get(d.view).value
              && d.fileName == DownloadName(m.idea, d.view, d.href)
    decreases |views|
  {
    if views != [] {
      var init := views[..|views| - 1];
      var v := views[|views| - 1];
      DownloadsOfSetViews(m, init);
      DownloadOfSpec(m, v);
      assert views == init + [v];
      assert forall d :: d in Downloads(m, views) <==> d in Downloads(m, init) || d in DownloadOf(m, v);
    }
  }

  /** Every listed view whose image is set is downloaded. */
  lemma {:induction false} DownloadsCoverSetViews(m: GeneratedModel, views: seq<View>)
    ensures forall v :: v in views && Truthy(m.images.Get(v)) ==> exists d :: d in Downloads(m, views) && d.view == v
    decreases |views|
  {
    if views != [] {
      var init := views[..|views| - 1];
      var v := views[|views| - 1];
      DownloadsCoverSetViews(m, init);
      DownloadOfSpec(m, v);
      assert views == init + [v];
      assert forall d :: d in Downloads(m, views) <==> d in Downloads(m, init) || d in DownloadOf(m, v);
      if Truthy(m.images.Get(v)) {
        assert DownloadOf(m, v)[0] in DownloadOf(m, v);
      }
    }
  }

  /** The downloads keep the order of the views, none coming after the last listed view. */
  lemma {:induction false} DownloadsInViewOrder(m: GeneratedModel, views: seq<View>)
    requires InViewOrder(views)
    ensures views != [] ==>
              forall i :: 0 <= i < |Downloads(m, views)| ==> ViewIndex(Downloads(m, views)[i].view) <= ViewIndex(views[|views| - 1])
    ensures forall i, j :: 0 <= i < j < |Downloads(m, views)| ==>
              ViewIndex(Downloads(m, views)[i].view) < ViewIndex(Downloads(m, views)[j].view)
    decreases |views|
  {
    if views != [] {
      var init := views[..|views| - 1];
      var v := views[|views| - 1];
      assert InViewOrder(init);
      DownloadsInViewOrder(m, init);
      var d := Downloads(m, views);
      var di := Downloads(m, init);
      var last := DownloadOf(m, v);
      assert d == di + last;
      assert |last| <= 1 && forall i :: 0 <= i < |last| ==> last[i].view == v;
      assert init != [] ==> ViewIndex(init[|init| - 1]) < ViewIndex(v);
      if init != [] {
        forall i | 0 <= i < |di| ensures ViewIndex(di[i].view) < ViewIndex(v) {
          assert ViewIndex(di[i].view) <= ViewIndex(init[|init| - 1]);
        }
      } else {
        assert di == [];
      }
      forall i | 0 <= i < |d| ensures ViewIndex(d[i].view) <= ViewIndex(v) {
        if i < |di| {
          assert d[i] == di[i];
        } else {
          assert d[i] == last[i - |di|];
        }
      }
      forall i, j | 0 <= i < j < |d| ensures ViewIndex(d[i].view) < ViewIndex(d[j].view) {
        assert d[i] == di[i];
        if j < |di| {
          assert d[j] == di[j];
        } else {
          assert d[j] == last[j - |di|];
        }
      }
    }
  }

  // ---------------------------------------------------------------------
  // The session
  // ---------------------------------------------------------------------

  /** `generatedModels[url]?.images.back` is truthy. */
  predicate HasBackView(models: map<string, GeneratedModel>, url: string) {
    url in models && Truthy(models[url].images.back)
  }

  /** `record[key]` is truthy. */
  predicate IsSet(flags: map<string, bool>, key: string) {
    key in flags && flags[key]
  }

  /** The images a model ends with once every other view was delivered. */
  function AllViews(url: string, api: View -> nat -> Outcome<Option<InlineImage>>): ImageState
    requires forall v :: v in OtherViews ==> ViewSucceeds(api, v)
  {
    ImageState(Some(url), Some(DeliveredUrl(api, Left)), Some(DeliveredUrl(api, Right)), Some(DeliveredUrl(api, Back)))
  }

  /** The images after the deliveries `ds`, applied in order. */
  function Applied(images: ImageState, ds: seq<Delivery>): ImageState {
    if ds == [] then images
    else Applied(images, ds[..|ds| - 1]).Set(ds[|ds| - 1].view, Some(ds[|ds| - 1].url))
  }

  /** Applying every other view's delivery to a fresh model gives the model with all four views. */
  lemma DeliveriesComplete(url: string, api: View -> nat -> Outcome<Option<InlineImage>>, ds: seq<Delivery>)
    requires |ds| == |OtherViews|
    requires forall i :: 0 <= i < |ds| ==> DeliveredView(api, OtherViews[i], ds[i])
    ensures forall v :: v in OtherViews ==> ViewSucceeds(api, v)
    ensures Applied(FrontOnly(url), ds) == AllViews(url, api)
  {
    assert DeliveredView(api, OtherViews[0], ds[0]) && DeliveredView(api, OtherViews[1], ds[1]) && DeliveredView(api, OtherViews[2], ds[2]);
    forall v | v in OtherViews ensures ViewSucceeds(api, v) {
      assert v == OtherViews[0] || v == OtherViews[1] || v == OtherViews[2];
    }
    var front := FrontOnly(url);
    assert ds[..0] == [];
    var withLeft := front.(left := Some(DeliveredUrl(api, Left)));
    assert Applied(front, ds[..1]) == withLeft;
    assert ds[..2][..1] == ds[..1];
    assert Applied(front, ds[..2]) == withLeft.(right := Some(DeliveredUrl(api, Right)));
    assert ds[..3][..2] == ds[..2] && ds[..3] == ds;
  }

  lemma UpdateTwice<K, V>(m: map<K, V>, k: K, a: V, b: V)
    ensures m[k := a][k := b] == m[k := b]
  {
  }

  lemma RemoveUpdated<K, V>(m: map<K, V>, k: K, a: V)
    ensures m[k := a] - {k} == m - {k}
  {
  }

  /** Every generated model is keyed by its own front view. */
  predicate KeyedByFront(models: map<string, GeneratedModel>) {
    forall url :: url in models ==> models[url].images.front == Some(url)
  }

  /** A generated model is flagged saved exactly when a saved model has its key as id. */
  predicate SavedFlagsAgree(models: map<string, GeneratedModel>, saved: seq<SavedModel>) {
    forall url :: url in models ==> (models[url].isSaved <==> HasId(saved, url))
  }

  /** The saved list is what `localStorage` holds once it holds a list, and empty before. */
  predicate Mirrors(storage: Stored, saved: seq<SavedModel>) {
    if storage.Holds? then saved == storage.models else saved == []
  }

  class GeneratorSession {
    var ideas: seq<Json>
    var sessionIdeas: seq<Json>
    var frontViewVariations: map<string, seq<string>>
    var generatedModels: map<string, GeneratedModel>
    var savedModels: seq<SavedModel>
    var isGeneratingIdeas: bool
    var isGeneratingVariations: map<string, bool>
    var generatingStatus: map<string, bool>
    var error: Option<string>
    var storage: Stored

    /**
     * Every model is keyed by its own front view; its `isSaved` flag says
     * whether a saved model has its key as id; the session's ideas hold no
     * value twice; and the in-memory saved list mirrors `localStorage` once
     * that has been written (before that, it is empty unless loaded).
     */
    ghost predicate Valid()
      reads this
    {
      && NoValueRepeats(sessionIdeas)
      && KeyedByFront(generatedModels)
      && SavedFlagsAgree(generatedModels, savedModels)
      && Mirrors(storage, savedModels)
    }

    /** The initial state, then the mount-time load: a readable stored list is taken over, anything else leaves the list empty. */
    constructor(stored: Stored)
      ensures Valid()
      ensures storage == stored
      ensures savedModels == if stored.Holds? then stored.models else []
      ensures ideas == [] && sessionIdeas == [] && frontViewVariations == map[] && generatedModels == map[]
      ensures !isGeneratingIdeas && isGeneratingVariations == map[] && generatingStatus == map[] && error == None
    {
      ideas := [];
      sessionIdeas := [];
      frontViewVariations := map[];
      generatedModels := map[];
      isGeneratingIdeas := false;
      isGeneratingVariations := map[];
      generatingStatus := map[];
      error := None;
      storage := stored;
      savedModels := if stored.Holds? then stored.models else [];
    }

    /** `resetForNewIdeas`: clears everything derived from the current ideas, and the error. */
    method ResetForNewIdeas()
      requires Valid()
      modifies this
      ensures Valid()
      ensures ideas == [] && frontViewVariations == map[] && generatedModels == map[]
      ensures isGeneratingVariations == map[] && generatingStatus == map[] && error == None
      ensures sessionIdeas == old(sessionIdeas) && savedModels == old(savedModels) && storage == old(storage)
      ensures isGeneratingIdeas == old(isGeneratingIdeas)
    {
      ideas := [];
      frontViewVariations := map[];
      generatedModels := map[];
      isGeneratingVariations := map[];
      generatingStatus := map[];
      error := None;
    }

    /** The `try`/`catch` of `handleGenerateIdeas`: new ideas replace the shown ones and join the session's ideas; a failure sets the error. */
    method AcceptIdeas(newIdeas: Outcome<seq<Json>>)
      requires Valid()
      modifies this
      ensures Valid()
      ensures newIdeas.Ok? ==>
                && ideas == newIdeas.value && error == old(error)
                && sessionIdeas == Dedup(old(sessionIdeas) + newIdeas.value)
                && |old(sessionIdeas)| <= |sessionIdeas| && sessionIdeas[..|old(sessionIdeas)|] == old(sessionIdeas)
      ensures newIdeas.Err? ==> ideas == old(ideas) && sessionIdeas == old(sessionIdeas) && error == Some(newIdeas.message)
      ensures frontViewVariations == old(frontViewVariations) && generatedModels == old(generatedModels)
      ensures savedModels == old(savedModels) && storage == old(storage) && isGeneratingIdeas == old(isGeneratingIdeas)
      ensures isGeneratingVariations == old(isGeneratingVariations) && generatingStatus == old(generatingStatus)
    {
      if newIdeas.Ok? {
        SessionIdeasGrow(sessionIdeas, newIdeas.value);
        ideas := newIdeas.value;
        sessionIdeas := Dedup(sessionIdeas + newIdeas.value);
      } else {
        error := Some(newIdeas.message);
      }
    }

    /**
     * `handleGenerateIdeas` as written: `generateModelIdeas(sessionIdeas)`
     * passes no keyword list, so reading its `length` throws inside the
     * service and every click ends with the service's failure message.
     */
    method HandleGenerateIdeasAsWritten(api: nat -> Outcome<string>, parse: string -> Option<Json>)
      requires Valid()
      modifies this
      ensures Valid()
      ensures error == Some(IdeasFailure) && ideas == []
      ensures sessionIdeas == old(sessionIdeas) && !isGeneratingIdeas
      ensures frontViewVariations == map[] && generatedModels == map[]
      ensures isGeneratingVariations == map[] && generatingStatus == map[]
      ensures savedModels == old(savedModels) && storage == old(storage)
    {
      isGeneratingIdeas := true;
      ResetForNewIdeas();
      var newIdeas := GenerateModelIdeas(sessionIdeas, None, None, [], api, parse);
      AcceptIdeas(newIdeas);
      isGeneratingIdeas := false;
    }

    /**
     * `handleGenerateIdeas` with an empty keyword list passed: after the
     * reset, a successful answer becomes the ideas and is added to the
     * session's ideas without repeats; a failure only sets the error.
     */
    method HandleGenerateIdeas(api: nat -> Outcome<string>, parse: string -> Option<Json>)
      requires Valid()
      modifies this
      ensures Valid()
      ensures var answer := CheckIdeas(ParsedText(Retried(api), parse));
              if answer.Some? then
                && ideas == answer.value && error == None
                && sessionIdeas == Dedup(old(sessionIdeas) + answer.value)
                && |old(sessionIdeas)| <= |sessionIdeas| && sessionIdeas[..|old(sessionIdeas)|] == old(sessionIdeas)
              else
                ideas == [] && error == Some(IdeasFailure) && sessionIdeas == old(sessionIdeas)
      ensures !isGeneratingIdeas
      ensures frontViewVariations == map[] && generatedModels == map[]
      ensures isGeneratingVariations == map[] && generatingStatus == map[]
      ensures savedModels == old(savedModels) && storage == old(storage)
    {
      isGeneratingIdeas := true;
      ResetForNewIdeas();
      var newIdeas := GenerateModelIdeas(sessionIdeas, Some([]), None, [], api, parse);
      AcceptIdeas(newIdeas);
      isGeneratingIdeas := false;
    }

    /** The first half of `handleVisualizeIdea`: the idea is marked in flight and its variations emptied. */
    method BeginVisualizeIdea(idea: string)
      requires Valid()
      modifies this
      ensures Valid()
      ensures isGeneratingVariations == old(isGeneratingVariations)[idea := true]
      ensures frontViewVariations == old(frontViewVariations)[idea := []]
      ensures error == None
      ensures ideas == old(ideas) && sessionIdeas == old(sessionIdeas) && generatedModels == old(generatedModels)
      ensures savedModels == old(savedModels) && storage == old(storage)
      ensures isGeneratingIdeas == old(isGeneratingIdeas) && generatingStatus == old(generatingStatus)
    {
      isGeneratingVariations := isGeneratingVariations[idea := true];
      error := None;
      frontViewVariations := frontViewVariations[idea := []];
    }

    /** The second half: the variations are stored, or the idea's entry is removed and the error set; the flag is cleared. */
    method FinishVisualizeIdea(idea: string, variations: Outcome<seq<string>>)
      requires Valid()
      modifies this
      ensures Valid()
      ensures variations.Ok? ==> frontViewVariations == old(frontViewVariations)[idea := variations.value] && error == old(error)
      ensures variations.Err? ==> frontViewVariations == old(frontViewVariations) - {idea} && error == Some(variations.message)
      ensures isGeneratingVariations == old(isGeneratingVariations)[idea := false]
      ensures ideas == old(ideas) && sessionIdeas == old(sessionIdeas) && generatedModels == old(generatedModels)
      ensures savedModels == old(savedModels) && storage == old(storage)
      ensures isGeneratingIdeas == old(isGeneratingIdeas) && generatingStatus == old(generatingStatus)
    {
      if variations.Ok? {
        frontViewVariations := frontViewVariations[idea := variations.value];
      } else {
        error := Some(variations.message);
        frontViewVariations := frontViewVariations - {idea};
      }
      isGeneratingVariations := isGeneratingVariations[idea := false];
    }

    /**
     * `handleVisualizeIdea`: only the idea's own entry changes. It ends with
     * the generated variations, or is gone after a failure; the idea is no
     * longer in flight either way.
     */
    method HandleVisualizeIdea(idea: string, api: string -> nat -> Outcome<Option<seq<string>>>)
      requires Valid()
      modifies this
      ensures Valid()
      ensures var variations := GenerateFrontViewVariations(idea, api);
              && (variations.Ok? ==> frontViewVariations == old(frontViewVariations)[idea := variations.value] && error == None)
              && (variations.Err? ==> frontViewVariations == old(frontViewVariations) - {idea} && error == Some(VariationsFailure))
      ensures forall other :: other != idea ==>
                (other in frontViewVariations <==> other in old(frontViewVariations)) &&
                (other in frontViewVariations ==> frontViewVariations[other] == old(frontViewVariations)[other])
      ensures isGeneratingVariations == old(isGeneratingVariations)[idea := false]
      ensures ideas == old(ideas) && sessionIdeas == old(sessionIdeas) && generatedModels == old(generatedModels)
      ensures savedModels == old(savedModels) && storage == old(storage)
      ensures isGeneratingIdeas == old(isGeneratingIdeas) && generatingStatus == old(generatingStatus)
    {
      BeginVisualizeIdea(idea);
      var variations := GenerateFrontViewVariations(idea, api);
      FinishVisualizeIdea(idea, variations);
      UpdateTwice(old(isGeneratingVariations), idea, true, false);
      if variations.Ok? {
        UpdateTwice(old(frontViewVariations), idea, [], variations.value);
      } else {
        RemoveUpdated(old(frontViewVariations), idea, []);
      }
    }

    /** `onImageGenerated`: sets one non-front view of the model keyed `url`, if that model still exists. */
    method OnImageGenerated(url: string, view: View, image: string)
      requires Valid() && view != Front
      modifies this`generatedModels
      ensures Valid()
      ensures url in old(generatedModels) ==>
                var m := old(generatedModels)[url];
                generatedModels == old(generatedModels)[url := m.(images := m.images.Set(view, Some(image)))]
      ensures url !in old(generatedModels) ==> generatedModels == old(generatedModels)
    {
      if url in generatedModels {
        var m := generatedModels[url];
        generatedModels := generatedModels[url := m.(images := m.images.Set(view, Some(image)))];
      }
    }

    /** The first half of `handleGenerateAllViews` past its guard: the model is created with only its front view and marked in flight. */
    method StartModel(url: string, idea: string)
      requires Valid()
      modifies this
      ensures Valid()
      ensures generatedModels == old(generatedModels)[url := GeneratedModel(idea, FrontOnly(url), HasId(savedModels, url))]
      ensures generatingStatus == old(generatingStatus)[url := true] && error == None
      ensures ideas == old(ideas) && sessionIdeas == old(sessionIdeas) && frontViewVariations == old(frontViewVariations)
      ensures savedModels == old(savedModels) && storage == old(storage)
      ensures isGeneratingIdeas == old(isGeneratingIdeas) && isGeneratingVariations == old(isGeneratingVariations)
    {
      error := None;
      generatingStatus := generatingStatus[url := true];
      var isSaved := HasId(savedModels, url);
      generatedModels := generatedModels[url := GeneratedModel(idea, FrontOnly(url), isSaved)];
    }

    /** The deliveries, handed to `onImageGenerated` one after the other. */
    method ApplyDeliveries(url: string, ds: seq<Delivery>)
      requires Valid() && url in generatedModels
      requires forall i :: 0 <= i < |ds| ==> ds[i].view != Front
      modifies this`generatedModels
      ensures Valid()
      ensures var m := old(generatedModels)[url];
              generatedModels == old(generatedModels)[url := m.(images := Applied(m.images, ds))]
    {
      ghost var m := generatedModels[url];
      for i := 0 to |ds|
        invariant Valid()
        invariant generatedModels == old(generatedModels)[url := m.(images := Applied(m.images, ds[..i]))]
      {
        assert ds[..i + 1][..i] == ds[..i];
        OnImageGenerated(url, ds[i].view, ds[i].url);
      }
      assert ds[..|ds|] == ds;
    }

    /** The `catch` of `handleGenerateAllViews`: the error is shown and the model removed. */
    method DiscardModel(url: string, message: string)
      requires Valid()
      modifies this
      ensures Valid()
      ensures generatedModels == old(generatedModels) - {url} && error == Some(message)
      ensures ideas == old(ideas) && sessionIdeas == old(sessionIdeas) && frontViewVariations == old(frontViewVariations)
      ensures savedModels == old(savedModels) && storage == old(storage)
      ensures isGeneratingIdeas == old(isGeneratingIdeas) && isGeneratingVariations == old(isGeneratingVariations)
      ensures generatingStatus == old(generatingStatus)
    {
      error := Some(message);
      generatedModels := generatedModels - {url};
    }

    /** The `finally` of `handleGenerateAllViews`: the model is no longer in flight. */
    method EndGeneration(url: string)
      requires Valid()
      modifies this
      ensures Valid()
      ensures generatingStatus == old(generatingStatus)[url := false]
      ensures ideas == old(ideas) && sessionIdeas == old(sessionIdeas) && frontViewVariations == old(frontViewVariations)
      ensures savedModels == old(savedModels) && storage == old(storage) && error == old(error)
      ensures isGeneratingIdeas == old(isGeneratingIdeas) && isGeneratingVariations == old(isGeneratingVariations)
      ensures generatedModels == old(generatedModels)
    {
      generatingStatus := generatingStatus[url := false];
    }

    /**
     * The rest of `handleGenerateAllViews` once `generateOtherViews` has
     * settled: the deliveries are applied, then the model is kept with all
     * its views or, on failure, removed, and it is no longer in flight.
     */
    method FinishModel(url: string, api: View -> nat -> Outcome<Option<InlineImage>>, delivered: seq<Delivery>, outcome: Outcome<()>)
      requires Valid() && url in generatedModels && generatedModels[url].images == FrontOnly(url)
      requires |delivered| <= |OtherViews|
      requires forall i :: 0 <= i < |delivered| ==> DeliveredView(api, OtherViews[i], delivered[i])
      requires outcome.Ok? <==> |delivered| == |OtherViews|
      requires outcome.Ok? <==> ViewsGenerated(url, api)
      requires outcome.Err? ==> outcome.message == OtherViewsFailure
      modifies this
      ensures Valid()
      ensures generatingStatus == old(generatingStatus)[url := false]
      ensures if ViewsGenerated(url, api) then
                && generatedModels == old(generatedModels)[url := old(generatedModels)[url].(images := AllViews(url, api))]
                && error == old(error)
              else
                && generatedModels == old(generatedModels) - {url}
                && error == Some(OtherViewsFailure)
      ensures ideas == old(ideas) && sessionIdeas == old(sessionIdeas) && frontViewVariations == old(frontViewVariations)
      ensures savedModels == old(savedModels) && storage == old(storage)
      ensures isGeneratingIdeas == old(isGeneratingIdeas) && isGeneratingVariations == old(isGeneratingVariations)
    {
      ghost var created := generatedModels[url];
      ApplyDeliveries(url, delivered);
      ghost var completed := created.(images := Applied(FrontOnly(url), delivered));
      if outcome.Err? {
        RemoveUpdated(old(generatedModels), url, completed);
        DiscardModel(url, outcome.message);
      } else {
        DeliveriesComplete(url, api, delivered);
      }
      EndGeneration(url);
    }

    /**
     * `handleGenerateAllViews`. Nothing happens while the model is being
     * generated or once it has a back view. Otherwise the model is created
     * with only its front view, marked saved iff a saved model has its URL
     * as id; the other views arrive one by one; on failure the model is
     * removed altogether. The model is not in flight afterwards.
     */
    method HandleGenerateAllViews(url: string, idea: string, api: View -> nat -> Outcome<Option<InlineImage>>)
      requires Valid()
      modifies this
      ensures Valid()
      ensures IsSet(old(generatingStatus), url) || HasBackView(old(generatedModels), url) ==>
                && generatedModels == old(generatedModels) && generatingStatus == old(generatingStatus)
                && error == old(error)
      ensures !IsSet(old(generatingStatus), url) && !HasBackView(old(generatedModels), url) ==>
                && generatingStatus == old(generatingStatus)[url := false]
                && if ViewsGenerated(url, api) then
                     && generatedModels == old(generatedModels)[url := GeneratedModel(idea, AllViews(url, api), HasId(savedModels, url))]
                     && error == None
                   else
                     && generatedModels == old(generatedModels) - {url}
                     && error == Some(OtherViewsFailure)
      ensures ideas == old(ideas) && sessionIdeas == old(sessionIdeas) && frontViewVariations == old(frontViewVariations)
      ensures savedModels == old(savedModels) && storage == old(storage)
      ensures isGeneratingIdeas == old(isGeneratingIdeas) && isGeneratingVariations == old(isGeneratingVariations)
    {
      if IsSet(generatingStatus, url) || HasBackView(generatedModels, url) {
        return;
      }
      StartModel(url, idea);
      var delivered, outcome := GenerateOtherViews(url, api);
      FinishModel(url, api, delivered, outcome);
      ghost var created := GeneratedModel(idea, FrontOnly(url), HasId(savedModels, url));
      UpdateTwice(old(generatingStatus), url, true, false);
      if ViewsGenerated(url, api) {
        UpdateTwice(old(generatedModels), url, created, created.(images := AllViews(url, api)));
      } else {
        RemoveUpdated(old(generatedModels), url, created);
      }
    }

    /**
     * `handleSaveModel`: an absent or already saved model is left alone.
     * Otherwise exactly one entry is appended, carrying the model's idea,
     * its front-view prompt and its images, the store is written with the
     * new list, and the model is marked saved.
     */
    method HandleSaveModel(url: string, now: int)
      requires Valid()
      modifies this
      ensures Valid()
      ensures url !in old(generatedModels) || old(generatedModels)[url].isSaved ==>
                savedModels == old(savedModels) && storage == old(storage) && generatedModels == old(generatedModels)
      ensures url in old(generatedModels) && !old(generatedModels)[url].isSaved ==>
                var m := old(generatedModels)[url];
                && savedModels == old(savedModels) + [SavedModel(url, m.idea, FrontViewPrompt(m.idea), m.images, now)]
                && storage == Holds(savedModels)
                && generatedModels == old(generatedModels)[url := m.(isSaved := true)]
      ensures ideas == old(ideas) && sessionIdeas == old(sessionIdeas) && frontViewVariations == old(frontViewVariations)
      ensures error == old(error) && isGeneratingIdeas == old(isGeneratingIdeas)
      ensures isGeneratingVariations == old(isGeneratingVariations) && generatingStatus == old(generatingStatus)
    {
      if url !in generatedModels || generatedModels[url].isSaved {
        return;
      }
      var m := generatedModels[url];
      var entry := SavedModel(url, m.idea, FrontViewPrompt(m.idea), m.images, now);
      ghost var previous := savedModels;
      savedModels := savedModels + [entry];
      storage := Holds(savedModels);
      generatedModels := generatedModels[url := m.(isSaved := true)];
      assert savedModels[|previous|] == entry;
      forall key | key in generatedModels ensures generatedModels[key].isSaved <==> HasId(savedModels, key) {
        if HasId(savedModels, key) && key != url {
          var i :| 0 <= i < |savedModels| && savedModels[i].id == key;
          assert i < |previous| && previous[i] == savedModels[i];
        }
        if HasId(previous, key) {
          var i :| 0 <= i < |previous| && previous[i].id == key;
          assert savedModels[i] == previous[i];
        }
      }
    }

    /**
     * `handleDeleteModel`: every saved entry with the id goes, the others
     * stay in order, the store is written with the new list, and a
     * generated model with that key, if any, is marked unsaved.
     */
    method HandleDeleteModel(id: string)
      requires Valid()
      modifies this
      ensures Valid()
      ensures savedModels == WithoutId(old(savedModels), id) && storage == Holds(savedModels)
      ensures id in old(generatedModels) ==> generatedModels == old(generatedModels)[id := old(generatedModels)[id].(isSaved := false)]
      ensures id !in old(generatedModels) ==> generatedModels == old(generatedModels)
      ensures ideas == old(ideas) && sessionIdeas == old(sessionIdeas) && frontViewVariations == old(frontViewVariations)
      ensures error == old(error) && isGeneratingIdeas == old(isGeneratingIdeas)
      ensures isGeneratingVariations == old(isGeneratingVariations) && generatingStatus == old(generatingStatus)
    {
      ghost var previous := savedModels;
      savedModels := WithoutId(savedModels, id);
      storage := Holds(savedModels);
      if id in generatedModels {
        generatedModels := generatedModels[id := generatedModels[id].(isSaved := false)];
      }
      forall key | key in generatedModels ensures generatedModels[key].isSaved <==> HasId(savedModels, key) {
        WithoutIdHasId(previous, id, key);
      }
    }

    /**
     * `handleDownloadAll`: the downloads of the model keyed `url`, view by
     * view in the order of `MODEL_VIEWS`; nothing for an unknown model.
     */
    method HandleDownloadAll(url: string) returns (downloads: seq<Download>)
      ensures downloads == if url in generatedModels then Downloads(generatedModels[url], ModelViews) else []
    {
      if url !in generatedModels {
        return [];
      }
      var m := generatedModels[url];
      downloads := [];
      for k := 0 to |ModelViews|
        invariant downloads == Downloads(m, ModelViews[..k])
      {
        assert ModelViews[..k + 1][..k] == ModelViews[..k];
        var view := ModelViews[k];
        var src := m.images.Get(view);
        if Truthy(src) {
          downloads := downloads + [Download(view, DownloadName(m.idea, view, src.value), src.value)];
        }
        assert downloads == Downloads(m, ModelViews[..k]) + DownloadOf(m, view);
      }
      assert ModelViews[..|ModelViews|] == ModelViews;
    }
  }
}
