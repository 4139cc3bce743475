/**
 * The service layer of the generator (`services/geminiService.ts`): the
 * retry wrapper around the generation API, the data-URL splitter, the
 * structure of the prompts, and the checks applied to what the API returns.
 *
 * Every call to the generation API is an oracle: a function from the attempt
 * number (0 for the first call, 1 for the first retry, ...) to the outcome of
 * that attempt. `JSON.parse` is the parameter `parse`, which returns `None`
 * where the real parser throws.
 */
module GeminiService {
  import opened Types
  import opened Strings

  // ---------------------------------------------------------------------
  // retryWithBackoff
  // ---------------------------------------------------------------------

  function Pow2(n: nat): (r: nat)
    ensures r >= 1
  {
    if n == 0 then 1 else 2 * Pow2(n - 1)
  }

  lemma DoubleDelay(delay: nat, i: nat)
    requires i >= 1
    ensures (delay * 2) * Pow2(i - 1) == delay * Pow2(i)
  {
    var p := Pow2(i - 1);
    assert Pow2(i) == 2 * p;
    assert (delay * 2) * p == delay * (2 * p);
  }

  /** The waits before the first `n` retries: `delay`, `2 * delay`, `4 * delay`, ... */
  function Backoff(delay: nat, n: nat): (w: seq<nat>)
    ensures |w| == n
    ensures forall i :: 0 <= i < n ==> w[i] == delay * Pow2(i)
    decreases n
  {
    if n == 0 then []
    else
      var w := [delay] + Backoff(delay * 2, n - 1);
      assert forall i :: 1 <= i < n ==> w[i] == delay * Pow2(i) by {
        forall i | 1 <= i < n ensures w[i] == delay * Pow2(i) {
          DoubleDelay(delay, i);
        }
      }
      w
  }

  /** An error whose message mentions `503`: the only kind that is retried. */
  predicate IsOverload<T>(o: Outcome<T>) {
    o.Err? && Contains(o.message, "503")
  }

  /** What one retried call did: how often it called the API, the waits between calls (in ms), and what it returned. */
  datatype Trace<T> = Trace(calls: nat, waits: seq<nat>, result: Outcome<T>)

  const DefaultRetries: nat := 3
  const DefaultDelay: nat := 1000

  /**
   * `retryWithBackoff(fn, retries, delay)`, where `attempt` calls of `fn`
   * were made before this one. The call stops at the first attempt that
   * succeeds, fails with an error other than an overload, or exhausts the
   * budget, and returns that attempt's outcome unchanged.
   */
  function RetryWithBackoff<T>(fn: nat -> Outcome<T>, attempt: nat, retries: nat, delay: nat): (t: Trace<T>)
    ensures 1 <= t.calls <= retries + 1 && |t.waits| == t.calls - 1
    decreases retries
  {
    var outcome := fn(attempt);
    if outcome.Err? && retries > 0 && Contains(outcome.message, "503") then
      var rest := RetryWithBackoff(fn, attempt + 1, retries - 1, delay * 2);
      Trace(rest.calls + 1, [delay] + rest.waits, rest.result)
    else
      Trace(1, [], outcome)
  }

  /** `retryWithBackoff(fn)` with its default budget of three retries starting at 1000 ms. */
  function Retried<T>(fn: nat -> Outcome<T>): Outcome<T> {
    RetryWithBackoff(fn, 0, DefaultRetries, DefaultDelay).result
  }

  /**
   * The outcome returned is the last attempt's; every earlier attempt was an
   * overload; and an overload is returned only once the budget is spent.
   */
  lemma {:induction false} RetryWithBackoffSpec<T>(fn: nat -> Outcome<T>, attempt: nat, retries: nat, delay: nat)
    ensures var t := RetryWithBackoff(fn, attempt, retries, delay);
            && t.result == fn(attempt + t.calls - 1)
            && (forall i :: attempt <= i < attempt + t.calls - 1 ==> IsOverload(fn(i)))
            && (t.calls <= retries ==> !IsOverload(t.result))
    decreases retries
  {
    var outcome := fn(attempt);
    if outcome.Err? && retries > 0 && Contains(outcome.message, "503") {
      RetryWithBackoffSpec(fn, attempt + 1, retries - 1, delay * 2);
    }
  }

  /** The waits between attempts double from `delay` on. */
  lemma {:induction false} RetryWaitsDouble<T>(fn: nat -> Outcome<T>, attempt: nat, retries: nat, delay: nat)
    ensures var t := RetryWithBackoff(fn, attempt, retries, delay);
            t.waits == Backoff(delay, t.calls - 1)
    decreases retries
  {
    var outcome := fn(attempt);
    if outcome.Err? && retries > 0 && Contains(outcome.message, "503") {
      RetryWaitsDouble(fn, attempt + 1, retries - 1, delay * 2);
      var rest := RetryWithBackoff(fn, attempt + 1, retries - 1, delay * 2);
      assert Backoff(delay, rest.calls) == [delay] + Backoff(delay * 2, rest.calls - 1);
    }
  }

  /**
   * With the default budget, a service that is always overloaded is called
   * four times, with waits of 1000, 2000 and 4000 ms, and its last error is
   * passed on.
   */
  lemma AlwaysOverloaded<T>(fn: nat -> Outcome<T>)
    requires forall i :: IsOverload(fn(i))
    ensures var t := RetryWithBackoff(fn, 0, DefaultRetries, DefaultDelay);
            t.calls == 4 && t.result == fn(3) && t.waits == [1000, 2000, 4000]
  {
    RetryWithBackoffSpec(fn, 0, DefaultRetries, DefaultDelay);
    RetryWaitsDouble(fn, 0, DefaultRetries, DefaultDelay);
    var t := RetryWithBackoff(fn, 0, DefaultRetries, DefaultDelay);
    assert IsOverload(fn(t.calls - 1));
    assert Pow2(1) == 2 && Pow2(2) == 4;
  }

  // ---------------------------------------------------------------------
  // dataUrlToParts
  // ---------------------------------------------------------------------

  datatype DataParts = DataParts(mimeType: string, data: string)

  const DefaultMime := "image/jpeg"
  const InvalidDataUrl := "Invalid data URL"

  /** Between `i` and `q` there is neither a `;` nor a line terminator (which `.` does not match). */
  ghost predicate NoStopBetween(s: string, i: nat, q: nat) {
    forall k :: i <= k < q && k < |s| ==> s[k] != ';' && !IsLineTerminator(s[k])
  }

  /** `/:(.*?);/` matches `s[p..q + 1]`: the lazy group stops at the first `;`. */
  ghost predicate MimeMatch(s: string, p: nat, q: nat) {
    p < q < |s| && s[p] == ':' && s[q] == ';' && NoStopBetween(s, p + 1, q)
  }

  /** The first `;` from `i` on, unless a line terminator comes before it. */
  function CloseFrom(s: string, i: nat): (r: Option<nat>)
    requires i <= |s|
    ensures r.Some? ==> i <= r.value < |s| && s[r.value] == ';' && NoStopBetween(s, i, r.value)
    ensures r.None? ==> forall q :: i <= q < |s| && s[q] == ';' ==> !NoStopBetween(s, i, q)
    decreases |s| - i
  {
    if i == |s| then None
    else if s[i] == ';' then Some(i)
    else if IsLineTerminator(s[i]) then
      assert forall q :: i < q < |s| ==> !NoStopBetween(s, i, q);
      None
    else
      CloseFrom(s, i + 1)
  }

  /** The leftmost match of `/:(.*?);/` that starts at or after `p`. */
  function MimeFrom(s: string, p: nat): (r: Option<(nat, nat)>)
    requires p <= |s|
    ensures r.Some? ==> p <= r.value.0 && MimeMatch(s, r.value.0, r.value.1)
    ensures r.Some? ==> forall p', q' :: p <= p' < r.value.0 ==> !MimeMatch(s, p', q')
    ensures r.None? ==> forall p', q' :: p <= p' ==> !MimeMatch(s, p', q')
    decreases |s| - p
  {
    if p == |s| then None
    else if s[p] == ':' then
      match CloseFrom(s, p + 1)
      case Some(q) => Some((p, q))
      case None => MimeFrom(s, p + 1)
    else
      MimeFrom(s, p + 1)
  }

  /**
   * `head.match(/:(.*?);/)?.[1] || 'image/jpeg'`: the captured text, or the
   * default when nothing matches or the capture is empty.
   */
  function MimeOf(head: string): (m: string)
    ensures m != ""
    ensures forall i :: 0 <= i < |m| ==> m[i] != ';' && !IsLineTerminator(m[i])
  {
    match MimeFrom(head, 0)
    case Some((p, q)) =>
      if q == p + 1 then DefaultMime
      else
        assert forall k :: p + 1 <= k < q ==> head[p + 1..q][k - p - 1] == head[k];
        head[p + 1..q]
    case None => DefaultMime
  }

  /**
   * `dataUrlToParts`: the MIME type from the text before the first comma,
   * and the data between the first and the second comma. A URL without a
   * comma, or with nothing after its first comma, is rejected.
   */
  function DataUrlToParts(url: string): (r: Outcome<DataParts>)
    ensures r.Ok? ==> r.value.mimeType != "" && r.value.data != "" && ',' !in r.value.data
    ensures r.Err? ==> r.message == InvalidDataUrl
  {
    var pieces := Split(url, ',');
    var mimeType := MimeOf(pieces[0]);
    if |pieces| < 2 || pieces[1] == "" then Err(InvalidDataUrl)
    else Ok(DataParts(mimeType, pieces[1]))
  }

  /** The data URL of an inline image, `data:<mime>;base64,<data>`. */
  function ImageDataUrl(mimeType: string, data: string): string {
    "data:" + mimeType + ";base64," + data
  }

  /** A MIME type that can sit between `data:` and `;base64,` and be read back. */
  predicate IsMimeToken(m: string) {
    m != "" && forall i :: 0 <= i < |m| ==> m[i] != ',' && m[i] != ';' && !IsLineTerminator(m[i])
  }

  /** `dataUrlToParts` reads back the MIME type and the data a data URL was built from. */
  lemma DataUrlRoundTrip(mimeType: string, data: string)
    requires IsMimeToken(mimeType) && data != "" && ',' !in data
    ensures DataUrlToParts(ImageDataUrl(mimeType, data)) == Ok(DataParts(mimeType, data))
  {
    var head := "data:" + mimeType + ";base64";
    assert ImageDataUrl(mimeType, data) == Join([head, data], ',');
    assert forall i :: 0 <= i < |head| ==> head[i] != ',' by {
      forall i | 0 <= i < |head| ensures head[i] != ',' {
        if 5 <= i < 5 + |mimeType| {
          assert head[i] == mimeType[i - 5];
        }
      }
    }
    SplitJoin([head, data], ',');
    MimeOfHeader(mimeType);
  }

  /** The text before the comma of a built data URL yields its MIME type. */
  lemma MimeOfHeader(mimeType: string)
    requires IsMimeToken(mimeType)
    ensures MimeOf("data:" + mimeType + ";base64") == mimeType
  {
    var head := "data:" + mimeType + ";base64";
    var close := 5 + |mimeType|;
    assert head[4] == ':' && head[close] == ';';
    assert NoStopBetween(head, 5, close) by {
      forall k | 5 <= k < close
        ensures head[k] != ';' && !IsLineTerminator(head[k])
      {
        assert head[k] == mimeType[k - 5];
      }
    }
    assert MimeMatch(head, 4, close);
    var m := MimeFrom(head, 0);
    assert m.Some?;
    var p, q := m.value.0, m.value.1;
    assert p == 4 by {
      assert head[..4] == "data";
    }
    forall q' | 5 <= q' < close ensures head[q'] != ';' {
      assert head[q'] == mimeType[q' - 5];
    }
    forall q' | close < q' ensures !NoStopBetween(head, 5, q') {
      assert head[close] == ';';
    }
    assert head[5..close] == mimeType;
  }

  /** A URL without a comma, or with no data after its first comma, is rejected. */
  lemma DataUrlWithoutData(prefix: string, rest: string)
    requires ',' !in prefix
    ensures DataUrlToParts(prefix).Err?
    ensures DataUrlToParts(prefix + ",").Err?
    ensures DataUrlToParts(prefix + ",," + rest).Err?
  {
    SplitWithoutSeparator(prefix, ',');
    SplitAfterPiece(prefix, ',', "");
    assert prefix + "," == prefix + [','] + "";
    SplitAfterPiece(prefix, ',', "," + rest);
    assert prefix + ",," + rest == prefix + [','] + ("," + rest);
    SplitAfterPiece("", ',', rest);
    assert "," + rest == "" + [','] + rest;
  }

  // ---------------------------------------------------------------------
  // Prompts
  // ---------------------------------------------------------------------

  const SubjectOpen := "**Subject:** A 3D model of a \""
  const SubjectClose := "\"."
  /** The fixed directives after the subject line, represented by their headings. */
  const FrontViewDirectives := "\n**Purpose:**\n**Style:**\n**Color:**\n**Background:**\n**Composition:**\n**Lighting:**\n**Constraints for 3D Printing:**\n**Crucial instruction:**"

  /** `getFrontViewPrompt`: the idea appears verbatim, in quotes, on the subject line that opens the prompt. */
  function FrontViewPrompt(idea: string): (p: string)
    ensures StartsWith(p, SubjectOpen + idea + SubjectClose)
    ensures |p| == |SubjectOpen| + |idea| + |SubjectClose| + |FrontViewDirectives|
    ensures p[|SubjectOpen|..|SubjectOpen| + |idea|] == idea
  {
    var p := SubjectOpen + idea + SubjectClose + FrontViewDirectives;
    assert p[..|SubjectOpen + idea + SubjectClose|] == SubjectOpen + idea + SubjectClose;
    p
  }

  /** Distinct ideas get distinct front-view prompts, so the prompt saved with a model identifies its idea. */
  lemma FrontViewPromptInjective(a: string, b: string)
    requires FrontViewPrompt(a) == FrontViewPrompt(b)
    ensures a == b
  {
    var n := |SubjectOpen|;
    assert a == FrontViewPrompt(a)[n..n + |a|];
  }

  /** A section of the idea prompt. Its prose is not modelled, only what it embeds. */
  datatype Section =
    | Instructions(existingIdeas: seq<Json>)
    | FocusedInspiration(keywords: seq<string>)
    | InspirationSources(sources: seq<Source>)
    | ResponseFormat

  datatype Source = WordCloudImage | InspirationKeywords(keywords: seq<string>)

  /** One part of a request: an inline image, or the text prompt made of sections. */
  datatype Part = InlineData(image: DataParts) | Text(sections: seq<Section>)

  predicate HasSourcesSection(sections: seq<Section>) {
    exists i :: 0 <= i < |sections| && sections[i].InspirationSources?
  }

  /** The message of the `TypeError` raised by reading `length` of `undefined`. */
  const UndefinedLength := "Cannot read properties of undefined (reading 'length')"

  /**
   * The request `generateModelIdeas` sends: the inline image (when one is
   * given) first, then the single text part. The text always opens with the
   * instructions embedding the ideas already seen and closes with the response
   * format; the focused section is present iff focused keywords are given,
   * and the sources section iff an image or a keyword is given.
   * An undefined keyword list makes `inspirationKeywords.length` throw.
   */
  method BuildIdeaRequest(existingIdeas: seq<Json>, inspirationKeywords: Option<seq<string>>,
                          inspirationImage: Option<string>, focusedKeywords: seq<string>)
    returns (r: Outcome<seq<Part>>)
    ensures r.Ok? <==> inspirationKeywords.Some? &&
                       (Truthy(inspirationImage) ==> DataUrlToParts(inspirationImage.value).Ok?)
    ensures r.Ok? ==>
              var parts := r.value;
              && |parts| == (if Truthy(inspirationImage) then 2 else 1)
              && (Truthy(inspirationImage) ==> parts[0] == InlineData(DataUrlToParts(inspirationImage.value).value))
              && parts[|parts| - 1].Text?
    ensures r.Ok? ==>
              var sections := r.value[|r.value| - 1].sections;
              && |sections| >= 2
              && sections[0] == Instructions(existingIdeas)
              && sections[|sections| - 1] == ResponseFormat
              && (FocusedInspiration(focusedKeywords) in sections <==> |focusedKeywords| > 0)
              && (HasSourcesSection(sections) <==> Truthy(inspirationImage) || |inspirationKeywords.value| > 0)
    ensures r.Ok? ==>
              var sections := r.value[|r.value| - 1].sections;
              forall i :: 0 <= i < |sections| && sections[i].InspirationSources? ==>
                && (WordCloudImage in sections[i].sources <==> Truthy(inspirationImage))
                && (InspirationKeywords(inspirationKeywords.value) in sections[i].sources <==> |inspirationKeywords.value| > 0)
  {
    var parts: seq<Part> := [];
    var sources: seq<Source> := [];
    if Truthy(inspirationImage) {
      var image := DataUrlToParts(inspirationImage.value);
      if image.Err? {
        return Err(image.message);
      }
      parts := parts + [InlineData(image.value)];
      sources := sources + [WordCloudImage];
    }
    if inspirationKeywords.None? {
      return Err(UndefinedLength);
    }
    if |inspirationKeywords.value| > 0 {
      sources := sources + [InspirationKeywords(inspirationKeywords.value)];
    }
    var focused := if |focusedKeywords| > 0 then [FocusedInspiration(focusedKeywords)] else [];
    var sourcesSection := if |sources| > 0 then [InspirationSources(sources)] else [];
    var sections := [Instructions(existingIdeas)] + focused + sourcesSection + [ResponseFormat];
    assert forall i :: 0 <= i < |sections| && sections[i].InspirationSources? ==>
      |sources| > 0 && i == 1 + |focused| && sections[i].sources == sources;
    if |sources| > 0 {
      assert sections[1 + |focused|].InspirationSources?;
    }
    parts := parts + [Text(sections)];
    return Ok(parts);
  }

  // ---------------------------------------------------------------------
  // Parsed responses
  // ---------------------------------------------------------------------

  /**
   * A value produced by `JSON.parse`. A number is kept as the decimal it was
   * written as, `mantissa` times ten to the `exponent`.
   */
  datatype Json =
    | JNull
    | JBool(b: bool)
    | JNumber(mantissa: int, exponent: int)
    | JString(str: string)
    | JArray(items: seq<Json>)
    | JObject(fields: map<string, Json>)

  /** JavaScript truthiness of a property read: `undefined`, `null`, `false`, `0` and `""` are falsy. */
  predicate IsTruthy(j: Option<Json>) {
    match j
    case None => false
    case Some(JNull) => false
    case Some(JBool(b)) => b
    case Some(JNumber(m, _)) => m != 0
    case Some(JString(s)) => s != ""
    case Some(_) => true
  }

  /** `value[key]` on an object; `undefined` on anything else. */
  function Property(j: Json, key: string): Option<Json> {
    if j.JObject? && key in j.fields then Some(j.fields[key]) else None
  }

  /** The text of a response, parsed; a failed call or a parser error is `None`. */
  function ParsedText(response: Outcome<string>, parse: string -> Option<Json>): Option<Json> {
    if response.Ok? then parse(response.value) else None
  }

  const IdeasFailure := "Failed to generate model ideas. The model might be temporarily unavailable. Please try again later."

  /** The check in `generateModelIdeas`: any non-empty array passes. */
  function CheckIdeas(parsed: Option<Json>): (r: Option<seq<Json>>)
    ensures r.Some? <==> parsed.Some? && parsed.value.JArray? && |parsed.value.items| > 0
    ensures r.Some? ==> r.value == parsed.value.items
  {
    match parsed
    case Some(JArray(items)) => if |items| > 0 then Some(items) else None
    case _ => None
  }

  /** The check counts neither the ideas nor their uniqueness: one repeated idea passes. */
  lemma CheckIdeasAcceptsRepeats(idea: string)
    ensures CheckIdeas(Some(JArray([JString(idea), JString(idea)]))) == Some([JString(idea), JString(idea)])
  {
  }

  /**
   * `generateModelIdeas`: builds the request, calls the API with retries and
   * checks the parsed answer. Every failure, whatever its cause, surfaces as
   * the one fixed message.
   */
  method GenerateModelIdeas(existingIdeas: seq<Json>, inspirationKeywords: Option<seq<string>>,
                            inspirationImage: Option<string>, focusedKeywords: seq<string>,
                            api: nat -> Outcome<string>, parse: string -> Option<Json>)
    returns (r: Outcome<seq<Json>>)
    ensures r.Err? ==> r.message == IdeasFailure
    ensures inspirationKeywords.None? ==> r.Err?
    ensures r.Ok? <==>
              && inspirationKeywords.Some?
              && (Truthy(inspirationImage) ==> DataUrlToParts(inspirationImage.value).Ok?)
              && CheckIdeas(ParsedText(Retried(api), parse)).Some?
    ensures r.Ok? ==> (|r.value| > 0 &&
              r.value == ParsedText(Retried(api), parse).value.items)
  {
    var request := BuildIdeaRequest(existingIdeas, inspirationKeywords, inspirationImage, focusedKeywords);
    if request.Err? {
      return Err(IdeasFailure);
    }
    var response := Retried(api);
    var ideas := CheckIdeas(ParsedText(response, parse));
    if ideas.None? {
      return Err(IdeasFailure);
    }
    return Ok(ideas.value);
  }

  // ---------------------------------------------------------------------
  // extractKeywordsFromImage
  // ---------------------------------------------------------------------

  const KeywordsFailure := "Failed to extract keywords from the image. The model might be temporarily unavailable or the image could not be processed. Please try again."

  /** `xs.map(f).filter(Boolean)` on strings: the non-empty images under `f`, in order. */
  function MapNonEmpty(f: string -> string, xs: seq<string>): (r: seq<string>)
    ensures |r| <= |xs|
    ensures forall i :: 0 <= i < |r| ==> r[i] != ""
  {
    if xs == [] then []
    else
      var head := if f(xs[0]) == "" then [] else [f(xs[0])];
      var rest := MapNonEmpty(f, xs[1..]);
      assert forall i :: 0 <= i < |head + rest| ==> (head + rest)[i] == if i < |head| then head[i] else rest[i - |head|];
      head + rest
  }

  /** Mapping and filtering is element-wise: it distributes over concatenation, so order is kept and nothing is merged. */
  lemma {:induction false} MapNonEmptyAppend(f: string -> string, a: seq<string>, b: seq<string>)
    ensures MapNonEmpty(f, a + b) == MapNonEmpty(f, a) + MapNonEmpty(f, b)
    decreases |a|
  {
    if a == [] {
      assert a + b == b;
    } else {
      var ab := a + b;
      assert ab[0] == a[0] && ab[1..] == a[1..] + b;
      MapNonEmptyAppend(f, a[1..], b);
      var head := if f(a[0]) == "" then [] else [f(a[0])];
      var x, y := MapNonEmpty(f, a[1..]), MapNonEmpty(f, b);
      assert MapNonEmpty(f, ab) == head + (x + y);
      assert MapNonEmpty(f, a) == head + x;
      assert head + (x + y) == (head + x) + y;
    }
  }

  /** A string is kept iff it is a non-empty image of some input. */
  lemma {:induction false} MapNonEmptyMembers(f: string -> string, xs: seq<string>, x: string)
    ensures x in MapNonEmpty(f, xs) <==> x != "" && exists i :: 0 <= i < |xs| && f(xs[i]) == x
    decreases |xs|
  {
    if xs != [] {
      MapNonEmptyMembers(f, xs[1..], x);
      if x in MapNonEmpty(f, xs[1..]) {
        var i :| 0 <= i < |xs[1..]| && f(xs[1..][i]) == x;
        assert f(xs[i + 1]) == x;
      }
      if x != "" && (exists i :: 0 <= i < |xs| && f(xs[i]) == x) {
        var i :| 0 <= i < |xs| && f(xs[i]) == x;
        if i > 0 {
          assert f(xs[1..][i - 1]) == x;
        }
      }
    }
  }

  /** When `f` leaves its non-empty results alone, mapping and filtering twice is the same as once. */
  lemma {:induction false} MapNonEmptyIdempotent(f: string -> string, xs: seq<string>)
    requires forall x :: f(x) != "" ==> f(f(x)) == f(x)
    ensures MapNonEmpty(f, MapNonEmpty(f, xs)) == MapNonEmpty(f, xs)
    decreases |xs|
  {
    if xs != [] {
      var rest := MapNonEmpty(f, xs[1..]);
      MapNonEmptyIdempotent(f, xs[1..]);
      var y := f(xs[0]);
      if y != "" {
        assert MapNonEmpty(f, [y]) == [y];
        MapNonEmptyAppend(f, [y], rest);
      } else {
        assert MapNonEmpty(f, xs) == rest;
      }
    }
  }

  /** `kw.toLowerCase().trim()` */
  function NormalizeKeyword(kw: string): string {
    Trim(Lower(kw))
  }

  /** A keyword as it leaves normalisation: non-empty, lowercase, and without surrounding whitespace. */
  ghost predicate IsCleanKeyword(k: string) {
    k != "" && IsLowerCase(k) && Trim(k) == k
  }

  lemma NormalizedKeywordIsClean(kw: string)
    ensures NormalizeKeyword(kw) != "" ==> IsCleanKeyword(NormalizeKeyword(kw))
  {
    var l := Lower(kw);
    var t := Trim(l);
    assert IsLowerCase(t) by {
      var a := TrimStart(l);
      LowerCaseSlice(l, |l| - |a|, |l|);
      assert a == l[|l| - |a|..|l|];
      LowerCaseSlice(a, 0, |t|);
      assert t == a[0..|t|];
    }
    assert Trim(t) == t by {
      TrimIsTrimmed(l);
    }
  }

  lemma CleanKeywordIsNormal(k: string)
    requires IsCleanKeyword(k)
    ensures NormalizeKeyword(k) == k
  {
    assert Lower(k) == k;
  }

  /** The keyword list `extractKeywordsFromImage` returns for the strings it was given. */
  function NormalizeKeywords(kws: seq<string>): (r: seq<string>)
    ensures |r| <= |kws|
  {
    MapNonEmpty(NormalizeKeyword, kws)
  }

  /** A keyword is kept iff it is non-empty once lowercased and trimmed, and every kept keyword is clean. */
  lemma NormalizeKeywordsMembers(kws: seq<string>, x: string)
    ensures x in NormalizeKeywords(kws) <==> x != "" && exists i :: 0 <= i < |kws| && NormalizeKeyword(kws[i]) == x
    ensures x in NormalizeKeywords(kws) ==> IsCleanKeyword(x)
  {
    MapNonEmptyMembers(NormalizeKeyword, kws, x);
    if x in NormalizeKeywords(kws) {
      var i :| 0 <= i < |kws| && NormalizeKeyword(kws[i]) == x;
      NormalizedKeywordIsClean(kws[i]);
    }
  }

  /** Every normalised keyword is clean. */
  lemma NormalizedKeywordsAreClean(kws: seq<string>)
    ensures forall i :: 0 <= i < |NormalizeKeywords(kws)| ==> IsCleanKeyword(NormalizeKeywords(kws)[i])
  {
    forall i | 0 <= i < |NormalizeKeywords(kws)| ensures IsCleanKeyword(NormalizeKeywords(kws)[i]) {
      NormalizeKeywordsMembers(kws, NormalizeKeywords(kws)[i]);
    }
  }

  /** Normalised keywords are already normal: normalising twice changes nothing. */
  lemma NormalizeKeywordsIdempotent(kws: seq<string>)
    ensures NormalizeKeywords(NormalizeKeywords(kws)) == NormalizeKeywords(kws)
  {
    forall x | NormalizeKeyword(x) != "" ensures NormalizeKeyword(NormalizeKeyword(x)) == NormalizeKeyword(x) {
      NormalizedKeywordIsClean(x);
      CleanKeywordIsNormal(NormalizeKeyword(x));
    }
    MapNonEmptyIdempotent(NormalizeKeyword, kws);
  }

  /** The strings of an array, or `None` when one item is not a string (`toLowerCase` would throw). */
  function StringItems(items: seq<Json>): (r: Option<seq<string>>)
    ensures r.Some? <==> forall i :: 0 <= i < |items| ==> items[i].JString?
    ensures r.Some? ==> |r.value| == |items| && forall i :: 0 <= i < |items| ==> r.value[i] == items[i].str
  {
    if items == [] then Some([])
    else if !items[0].JString? then None
    else match StringItems(items[1..])
      case None => None
      case Some(rest) => Some([items[0].str] + rest)
  }

  /**
   * `extractKeywordsFromImage`: the keywords of a non-array answer are
   * rejected; otherwise each is lowercased and trimmed and the empty ones are
   * dropped. Every failure surfaces as the one fixed message.
   */
  function ExtractKeywordsFromImage(imageDataUrl: string, api: nat -> Outcome<string>, parse: string -> Option<Json>)
    : (r: Outcome<seq<string>>)
    ensures r.Err? ==> r.message == KeywordsFailure
    ensures DataUrlToParts(imageDataUrl).Err? ==> r.Err?
    ensures r.Ok? ==>
              var parsed := ParsedText(Retried(api), parse);
              && parsed.Some? && parsed.value.JArray?
              && StringItems(parsed.value.items).Some?
              && r.value == NormalizeKeywords(StringItems(parsed.value.items).value)
    ensures (var parsed := ParsedText(Retried(api), parse);
             && DataUrlToParts(imageDataUrl).Ok?
             && parsed.Some? && parsed.value.JArray?
             && StringItems(parsed.value.items).Some?) ==> r.Ok?
    ensures r.Ok? ==> forall i :: 0 <= i < |r.value| ==> IsCleanKeyword(r.value[i])
  {
    if DataUrlToParts(imageDataUrl).Err? then Err(KeywordsFailure)
    else
      match ParsedText(Retried(api), parse)
      case Some(JArray(items)) =>
        (match StringItems(items)
         case Some(keywords) =>
           NormalizedKeywordsAreClean(keywords);
           Ok(NormalizeKeywords(keywords))
         case None => Err(KeywordsFailure))
      case _ => Err(KeywordsFailure)
  }

  // ---------------------------------------------------------------------
  // generateFrontViewVariations
  // ---------------------------------------------------------------------

  const VariationsFailure := "Failed to generate front view variations. The model might be temporarily unavailable. Please try again later."
  const PngMime := "image/png"

  /**
   * `generateFrontViewVariations`: the API is asked with the idea's
   * front-view prompt; its answer carries the bytes of the generated images,
   * or nothing (`generatedImages` missing). Each image becomes a PNG data URL,
   * in the order given; an empty or missing list is a failure.
   */
  function GenerateFrontViewVariations(idea: string, api: string -> nat -> Outcome<Option<seq<string>>>)
    : (r: Outcome<seq<string>>)
    ensures r.Err? ==> r.message == VariationsFailure
    ensures r.Ok? ==>
              var response := Retried(api(FrontViewPrompt(idea)));
              && response.Ok? && response.value.Some?
              && |r.value| == |response.value.value| > 0
              && forall i :: 0 <= i < |r.value| ==> r.value[i] == ImageDataUrl(PngMime, response.value.value[i])
    ensures (var response := Retried(api(FrontViewPrompt(idea)));
             response.Ok? && response.value.Some? && |response.value.value| > 0) ==> r.Ok?
  {
    var response := Retried(api(FrontViewPrompt(idea)));
    if response.Err? || response.value.None? || |response.value.value| == 0 then Err(VariationsFailure)
    else
      var bytes := response.value.value;
      Ok(seq(|bytes|, i requires 0 <= i < |bytes| => ImageDataUrl(PngMime, bytes[i])))
  }

  /** Each variation URL reads back, through `dataUrlToParts`, as a PNG holding the bytes it was made from. */
  lemma VariationUrlsRoundTrip(bytes: string)
    requires bytes != "" && ',' !in bytes
    ensures DataUrlToParts(ImageDataUrl(PngMime, bytes)) == Ok(DataParts(PngMime, bytes))
  {
    assert IsMimeToken(PngMime);
    DataUrlRoundTrip(PngMime, bytes);
  }

  // ---------------------------------------------------------------------
  // generateOtherViews
  // ---------------------------------------------------------------------

  const OtherViewsFailure := "A failure occurred during generation of other views. The model might be temporarily unavailable. Please try again later."

  /** The first inline-data part of a response. */
  datatype InlineImage = InlineImage(mimeType: string, data: string)

  /** One call of the `onImageGenerated` callback. */
  datatype Delivery = Delivery(view: View, url: string)

  /** The retried API call for one view: its first inline image, if any. */
  function ViewResponse(api: View -> nat -> Outcome<Option<InlineImage>>, v: View): Outcome<Option<InlineImage>> {
    Retried(api(v))
  }

  predicate ViewSucceeds(api: View -> nat -> Outcome<Option<InlineImage>>, v: View) {
    ViewResponse(api, v).Ok? && ViewResponse(api, v).value.Some?
  }

  /** The URL delivered for view `v`: `data:<mime>;base64,<bytes>` of the image returned for it. */
  function DeliveredUrl(api: View -> nat -> Outcome<Option<InlineImage>>, v: View): string
    requires ViewSucceeds(api, v)
  {
    var image := ViewResponse(api, v).value.value;
    ImageDataUrl(image.mimeType, image.data)
  }

  /** `d` is the delivery of view `v`. */
  predicate DeliveredView(api: View -> nat -> Outcome<Option<InlineImage>>, v: View, d: Delivery) {
    ViewSucceeds(api, v) && d == Delivery(v, DeliveredUrl(api, v))
  }

  /** The front image is readable and every other view's response carries an image. */
  predicate ViewsGenerated(frontImageDataUrl: string, api: View -> nat -> Outcome<Option<InlineImage>>) {
    DataUrlToParts(frontImageDataUrl).Ok? && forall v :: v in OtherViews ==> ViewSucceeds(api, v)
  }

  /**
   * `generateOtherViews`: left, right and back are requested one after the
   * other and each is delivered as soon as it arrives. The deliveries are
   * the longest run of views, in that order, whose responses carry an image:
   * the first view without one aborts the rest. An unreadable front image
   * aborts before any request.
   */
  method GenerateOtherViews(frontImageDataUrl: string, api: View -> nat -> Outcome<Option<InlineImage>>)
    returns (delivered: seq<Delivery>, r: Outcome<()>)
    ensures |delivered| <= |OtherViews|
    ensures forall i :: 0 <= i < |delivered| ==> DeliveredView(api, OtherViews[i], delivered[i])
    ensures r.Ok? <==> |delivered| == |OtherViews|
    ensures r.Ok? <==> ViewsGenerated(frontImageDataUrl, api)
    ensures r.Err? ==> r.message == OtherViewsFailure
    ensures r.Err? && DataUrlToParts(frontImageDataUrl).Ok? ==> !ViewSucceeds(api, OtherViews[|delivered|])
    ensures DataUrlToParts(frontImageDataUrl).Err? ==> delivered == [] && r.Err?
    ensures forall i :: 0 <= i < |delivered| && delivered[i].view == Back ==>
              i == 2 && delivered[0].view == Left && delivered[1].view == Right
  {
    var front := DataUrlToParts(frontImageDataUrl);
    if front.Err? {
      return [], Err(OtherViewsFailure);
    }
    delivered := [];
    for i := 0 to |OtherViews|
      invariant |delivered| == i
      invariant forall j :: 0 <= j < i ==> DeliveredView(api, OtherViews[j], delivered[j])
    {
      var view := OtherViews[i];
      var response := ViewResponse(api, view);
      if response.Err? || response.value.None? {
        assert view in OtherViews;
        return delivered, Err(OtherViewsFailure);
      }
      var image := response.value.value;
      delivered := delivered + [Delivery(view, ImageDataUrl(image.mimeType, image.data))];
    }
    forall v | v in OtherViews ensures ViewSucceeds(api, v) {
      assert DeliveredView(api, OtherViews[0], delivered[0]) && DeliveredView(api, OtherViews[1], delivered[1]);
      assert DeliveredView(api, OtherViews[2], delivered[2]);
    }
    return delivered, Ok(());
  }

  // ---------------------------------------------------------------------
  // generateMakerWorldContent
  // ---------------------------------------------------------------------

  const MakerWorldFailure := "Failed to generate title, description, and tags. The model might be temporarily unavailable. Please try again later."

  /** Three backticks start at `i`. */
  predicate FenceAt(s: string, i: nat) {
    i + 3 <= |s| && s[i] == '`' && s[i + 1] == '`' && s[i + 2] == '`'
  }

  /** The first fence at or after `from`. */
  function FirstFence(s: string, from: nat): (r: Option<nat>)
    ensures r.Some? ==> from <= r.value && FenceAt(s, r.value)
    ensures r.Some? ==> forall k :: from <= k < r.value ==> !FenceAt(s, k)
    ensures r.None? ==> forall k :: from <= k ==> !FenceAt(s, k)
    decreases |s| - from
  {
    if from + 3 > |s| then None
    else if FenceAt(s, from) then Some(from)
    else FirstFence(s, from + 1)
  }

  /** The end of the run of `\s` characters starting at `i`. */
  function SkipSpace(s: string, i: nat): (j: nat)
    requires i <= |s|
    ensures i <= j <= |s|
    ensures forall k :: i <= k < j ==> IsWhiteSpace(s[k])
    ensures j < |s| ==> !IsWhiteSpace(s[j])
    decreases |s| - i
  {
    if i < |s| && IsWhiteSpace(s[i]) then SkipSpace(s, i + 1) else i
  }

  lemma SkipSpaceAt(s: string, j: nat)
    requires j < |s|
    ensures SkipSpace(s, j) == if IsWhiteSpace(s[j]) then SkipSpace(s, j + 1) else j
  {
  }

  /** Where the lazy group `([\s\S]*?)` stops: the first `e` from which `\s*` then a fence follows. */
  function CaptureEnd(s: string, start: nat): (r: Option<nat>)
    requires start <= |s|
    ensures r.Some? ==> start <= r.value <= |s| && FenceAt(s, SkipSpace(s, r.value))
    ensures r.Some? ==> forall e :: start <= e < r.value ==> !FenceAt(s, SkipSpace(s, e))
    ensures r.None? ==> forall e :: start <= e <= |s| ==> !FenceAt(s, SkipSpace(s, e))
    decreases |s| - start
  {
    if FenceAt(s, SkipSpace(s, start)) then Some(start)
    else if start == |s| then None
    else CaptureEnd(s, start + 1)
  }

  /** The text right after an opening fence at `p`: an optional `json` tag, then `\s*`. */
  function CaptureStart(s: string, p: nat): (start: nat)
    requires p + 3 <= |s|
    ensures p + 3 <= start <= |s|
    ensures forall k :: p + 3 <= k < start ==> s[k] != '`'
    ensures start < |s| ==> !IsWhiteSpace(s[start])
  {
    var a := p + 3;
    var b := if a + 4 <= |s| && s[a..a + 4] == "json" then a + 4 else a;
    assert forall k :: a <= k < b ==> s[k] == "json"[k - a];
    SkipSpace(s, b)
  }

  /** The lazy capture `s[start..e]` holds no fence and does not end in whitespace. */
  lemma CaptureIsClean(s: string, start: nat, e: nat)
    requires start <= e <= |s|
    requires forall e' :: start <= e' < e ==> !FenceAt(s, SkipSpace(s, e'))
    requires FenceAt(s, SkipSpace(s, e))
    ensures forall k :: 0 <= k < e - start ==> !FenceAt(s[start..e], k)
    ensures start < e ==> !IsWhiteSpace(s[e - 1])
  {
    var c := s[start..e];
    forall k | 0 <= k < |c| ensures !FenceAt(c, k) {
      SkipSpaceAt(s, start + k);
      assert !FenceAt(s, start + k);
      assert c[k] == s[start + k];
    }
    if start < e {
      SkipSpaceAt(s, e - 1);
    }
  }

  /**
   * Group 2 of `/```(json)?\s*([\s\S]*?)\s*```/`: the text between the first
   * fence and the next one, without a leading `json` tag and without the
   * whitespace around it; `None` when there are no two fences.
   */
  function ExtractFence(s: string): (r: Option<string>)
    ensures r.Some? ==> forall k :: 0 <= k < |r.value| ==> !FenceAt(r.value, k)
    ensures r.Some? && r.value != "" ==> !IsWhiteSpace(r.value[0]) && !IsWhiteSpace(r.value[|r.value| - 1])
  {
    match FirstFence(s, 0)
    case None => None
    case Some(p) =>
      var start := CaptureStart(s, p);
      match CaptureEnd(s, start)
      case None => None
      case Some(e) =>
        CaptureIsClean(s, start, e);
        assert e > start ==> s[start..e][0] == s[start] && s[start..e][e - start - 1] == s[e - 1];
        Some(s[start..e])
  }

  /** The text `JSON.parse` is given: a non-empty fenced block if there is one, else the whole answer, trimmed. */
  function JsonPayload(text: string): string {
    match ExtractFence(text)
    case Some(c) => if c != "" then Trim(c) else Trim(text)
    case None => Trim(text)
  }

  /** The lazy group stops at `end` when the text there is a newline and a fence, and no fence starts earlier. */
  lemma CaptureStopsAt(s: string, start: nat, end: nat)
    requires start < end && end + 4 <= |s|
    requires forall k :: start <= k && k + 3 <= end ==> !FenceAt(s, k)
    requires !IsWhiteSpace(s[end - 1]) && s[end] == '\n' && FenceAt(s, end + 1)
    ensures CaptureEnd(s, start) == Some(end)
  {
    forall j | start <= j < end ensures !FenceAt(s, j) {
      if j + 3 > end {
        assert s[end] == '\n';
      }
    }
    forall e | start <= e < end ensures !FenceAt(s, SkipSpace(s, e)) {
      assert SkipSpace(s, e) < end by {
        assert !IsWhiteSpace(s[end - 1]);
      }
    }
    SkipSpaceAt(s, end);
    SkipSpaceAt(s, end + 1);
    assert FenceAt(s, SkipSpace(s, end));
  }

  /** A text whose first fence, at `p`, opens `json` and a newline, followed by `body`, a newline and a fence. */
  ghost predicate FencedAt(s: string, p: nat, body: string) {
    var e := p + 8 + |body|;
    && e + 4 <= |s|
    && (forall k :: 0 <= k < p ==> s[k] != '`')
    && s[p] == '`' && s[p + 1] == '`' && s[p + 2] == '`'
    && s[p + 3] == 'j' && s[p + 4] == 's' && s[p + 5] == 'o' && s[p + 6] == 'n' && s[p + 7] == '\n'
    && (forall k :: 0 <= k < |body| ==> s[p + 8 + k] == body[k])
    && s[e] == '\n' && s[e + 1] == '`' && s[e + 2] == '`' && s[e + 3] == '`'
  }

  lemma FencedLayout(prefix: string, body: string, suffix: string)
    requires '`' !in prefix
    ensures FencedAt(prefix + "```json\n" + body + "\n```" + suffix, |prefix|, body)
  {
    var s := prefix + "```json\n" + body + "\n```" + suffix;
    var p := |prefix|;
    forall k | 0 <= k < p ensures s[k] != '`' {
      assert s[k] == prefix[k];
    }
    forall k | 0 <= k < |body| ensures s[p + 8 + k] == body[k] {
      assert s == (prefix + "```json\n") + body + ("\n```" + suffix);
    }
  }

  lemma FencedOpening(s: string, p: nat, body: string)
    requires FencedAt(s, p, body) && body != "" && !IsWhiteSpace(body[0])
    ensures FirstFence(s, 0) == Some(p)
    ensures CaptureStart(s, p) == p + 8
  {
    assert FenceAt(s, p);
    assert s[p + 3..p + 7] == "json";
    assert s[p + 8] == body[0];
    SkipSpaceAt(s, p + 7);
    SkipSpaceAt(s, p + 8);
  }

  lemma FencedClosing(s: string, p: nat, body: string)
    requires FencedAt(s, p, body)
    requires body != "" && !IsWhiteSpace(body[|body| - 1])
    requires forall k :: 0 <= k < |body| ==> !FenceAt(body, k)
    ensures CaptureEnd(s, p + 8) == Some(p + 8 + |body|)
    ensures s[p + 8..p + 8 + |body|] == body
  {
    var start := p + 8;
    var end := start + |body|;
    forall k | start <= k && k + 3 <= end ensures !FenceAt(s, k) {
      assert !FenceAt(body, k - start);
      assert s[k] == body[k - start] && s[k + 1] == body[k + 1 - start] && s[k + 2] == body[k + 2 - start];
    }
    assert s[end - 1] == body[|body| - 1];
    CaptureStopsAt(s, start, end);
  }

  lemma FencedExtracts(s: string, p: nat, body: string)
    requires FencedAt(s, p, body)
    requires body != "" && !IsWhiteSpace(body[0]) && !IsWhiteSpace(body[|body| - 1])
    requires forall k :: 0 <= k < |body| ==> !FenceAt(body, k)
    ensures ExtractFence(s) == Some(body)
  {
    FencedOpening(s, p, body);
    FencedClosing(s, p, body);
  }

  /** A body wrapped in a `json` fence, after any text without backticks, is extracted exactly. */
  lemma FenceRoundTrip(prefix: string, body: string, suffix: string)
    requires '`' !in prefix
    requires body != "" && !IsWhiteSpace(body[0]) && !IsWhiteSpace(body[|body| - 1])
    requires forall k :: 0 <= k < |body| ==> !FenceAt(body, k)
    ensures ExtractFence(prefix + "```json\n" + body + "\n```" + suffix) == Some(body)
    ensures JsonPayload(prefix + "```json\n" + body + "\n```" + suffix) == body
  {
    FencedLayout(prefix, body, suffix);
    FencedExtracts(prefix + "```json\n" + body + "\n```" + suffix, |prefix|, body);
    assert TrimStart(body) == body;
    assert TrimEnd(body) == body;
  }

  /**
   * The checked answer: its `title`, `description` and `tags` values. The
   * source returns the whole parsed object, so any other properties it has
   * are dropped here; nothing downstream reads them.
   */
  datatype MakerWorldContent = MakerWorldContent(title: Json, description: Json, tags: seq<Json>)

  /** The check in `generateMakerWorldContent`: truthy `title` and `description`, and an array `tags`. */
  function CheckMakerWorld(parsed: Option<Json>): (r: Option<MakerWorldContent>)
    ensures r.Some? <==>
              && parsed.Some?
              && IsTruthy(Property(parsed.value, "title"))
              && IsTruthy(Property(parsed.value, "description"))
              && Property(parsed.value, "tags").Some? && Property(parsed.value, "tags").value.JArray?
    ensures r.Some? ==>
              && Some(r.value.title) == Property(parsed.value, "title")
              && Some(r.value.description) == Property(parsed.value, "description")
              && Some(JArray(r.value.tags)) == Property(parsed.value, "tags")
  {
    if parsed.None? then None
    else
      var title := Property(parsed.value, "title");
      var description := Property(parsed.value, "description");
      var tags := Property(parsed.value, "tags");
      if IsTruthy(title) && IsTruthy(description) && tags.Some? && tags.value.JArray? then
        Some(MakerWorldContent(title.value, description.value, tags.value.items))
      else None
  }

  /**
   * `generateMakerWorldContent`: only the first image is sent; the answer is
   * read from its first fenced block when it has a non-empty one. A missing
   * first image, and every other failure, surfaces as the one fixed message.
   */
  function GenerateMakerWorldContent(images: seq<string>, api: nat -> Outcome<string>, parse: string -> Option<Json>)
    : (r: Outcome<MakerWorldContent>)
    ensures r.Err? ==> r.message == MakerWorldFailure
    ensures images == [] || images[0] == "" ==> r.Err?
    ensures r.Ok? ==>
              var response := Retried(api);
              && DataUrlToParts(images[0]).Ok?
              && response.Ok?
              && CheckMakerWorld(parse(JsonPayload(response.value))) == Some(r.value)
    ensures (var response := Retried(api);
             && images != [] && images[0] != "" && DataUrlToParts(images[0]).Ok?
             && response.Ok? && CheckMakerWorld(parse(JsonPayload(response.value))).Some?) ==> r.Ok?
    ensures r.Ok? ==> IsTruthy(Some(r.value.title)) && IsTruthy(Some(r.value.description))
  {
    if images == [] || images[0] == "" || DataUrlToParts(images[0]).Err? then Err(MakerWorldFailure)
    else
      var response := Retried(api);
      if response.Err? then Err(MakerWorldFailure)
      else
        match CheckMakerWorld(parse(JsonPayload(response.value)))
        case Some(content) => Ok(content)
        case None => Err(MakerWorldFailure)
  }
}
