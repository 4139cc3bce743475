/**
 * Shared vocabulary of the generator: the four fixed camera views, the
 * per-view image slots of a model, generated and saved models, and the
 * value-or-error shape every asynchronous call settles to.
 */
module Types {

  datatype Option<+T> = None | Some(value: T) {
    function GetOr(default: T): T {
      match this
      case Some(v) => v
      case None => default
    }
  }

  /** A settled promise: a value, or a thrown `Error` with its message. */
  datatype Outcome<+T> = Ok(value: T) | Err(message: string)

  /** JavaScript truthiness of a `string | null`: present and non-empty. */
  predicate Truthy(s: Option<string>) {
    s.Some? && s.value != ""
  }

  /** `ModelView`: exactly the four names of `MODEL_VIEWS`. */
  datatype View = Front | Left | Right | Back

  /** `MODEL_VIEWS`, in its declared order. */
  const ModelViews: seq<View> := [Front, Left, Right, Back]

  /** The views other than the front one, in the order they are generated. */
  const OtherViews: seq<View> := [Left, Right, Back]

  function ViewName(v: View): string {
    match v
    case Front => "front"
    case Left => "left"
    case Right => "right"
    case Back => "back"
  }

  /** Position of a view in `MODEL_VIEWS`. */
  function ViewIndex(v: View): nat {
    match v
    case Front => 0
    case Left => 1
    case Right => 2
    case Back => 3
  }

  /** `MODEL_VIEWS` lists every view exactly once, front first and back last. */
  lemma ModelViewsEnumerateViews()
    ensures |ModelViews| == 4 && ModelViews[0] == Front && ModelViews[3] == Back
    ensures forall v: View :: v in ModelViews
    ensures forall i, j :: 0 <= i < j < |ModelViews| ==> ModelViews[i] != ModelViews[j]
  {
    forall v: View ensures v in ModelViews {
      ViewIndexLocates(v);
    }
  }

  /** `ViewIndex` gives each view's position in `MODEL_VIEWS`. */
  lemma ViewIndexLocates(v: View)
    ensures ViewIndex(v) < |ModelViews| && ModelViews[ViewIndex(v)] == v
  {
  }

  /** The view names are pairwise distinct, so they can serve as record keys. */
  lemma ViewNamesDistinct(a: View, b: View)
    ensures ViewName(a) == ViewName(b) <==> a == b
  {
  }

  /** `ImageState`: one slot per view, each an image data URL or null. */
  datatype ImageState = ImageState(front: Option<string>, left: Option<string>, right: Option<string>, back: Option<string>)
  {
    function Get(v: View): Option<string> {
      match v
      case Front => front
      case Left => left
      case Right => right
      case Back => back
    }

    /** `{ ...images, [v]: url }` */
    function Set(v: View, url: Option<string>): (r: ImageState)
      ensures r.Get(v) == url
      ensures forall w :: w != v ==> r.Get(w) == Get(w)
    {
      match v
      case Front => this.(front := url)
      case Left => this.(left := url)
      case Right => this.(right := url)
      case Back => this.(back := url)
    }
  }

  /** The slots of a model whose front view is `url` and nothing else yet. */
  function FrontOnly(url: string): ImageState {
    ImageState(Some(url), None, None, None)
  }

  datatype GeneratedModel = GeneratedModel(idea: string, images: ImageState, isSaved: bool)

  /** A saved model; its `id` is the front-view URL it was generated from. */
  datatype SavedModel = SavedModel(id: string, idea: string, frontViewPrompt: string, images: ImageState, timestamp: int)
}
