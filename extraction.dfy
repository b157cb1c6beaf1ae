/** How image results are pulled out of an image-search provider's reply
    (`extract_images_from_client_response`). A JSON reply is walked along
    the configured dotted paths; an HTML reply is scanned, tag event by tag
    event, for elements nested along a chain of CSS classes. The JSON
    decoder and the HTML tokenizer are libraries: the model starts from
    what they produce, the decoded value (none when decoding fails) and
    the stream of start- and end-tag events. */
module ImageExtraction {
  import opened Models
  import opened PyStr

  /** A value `json.loads` produces. */
  datatype Json =
    | JNull
    | JBool(b: bool)
    | JNumber(n: real)
    | JString(s: string)
    | JArray(elems: seq<Json>)
    | JObject(fields: map<string, Json>)

  /** The keys of the provider's extraction settings; a key that is
      missing reads as `None`. */
  datatype ExtractionConfig = ExtractionConfig(
    jsonListPath: Option<string>,
    jsonPreviewPath: Option<string>,
    jsonLargePath: Option<string>,
    imageSelector: Option<string>,
    imageAttribute: Option<string>)

  /** One `{"id", "previewURL", "largeImageURL"}` entry of the answer. */
  datatype ImageResult = ImageResult(id: nat, previewUrl: string, largeImageUrl: string)

  // ---- JSON replies ----

  /** One step of a walk: a dict is replaced by its value under `key`, or
      by `missing` when it has no such key; any other value is kept. */
  function Step(v: Json, key: string, missing: Json): (r: Json)
    ensures v.JObject? && key in v.fields ==> r == v.fields[key]
    ensures v.JObject? && key !in v.fields ==> r == missing
    ensures !v.JObject? ==> r == v
  {
    match v
    case JObject(fields) => if key in fields then fields[key] else missing
    case _ => v
  }

  /** A walk along the parts of a path, one step per part, in order. */
  function Walk(v: Json, parts: seq<string>, missing: Json): Json {
    if |parts| == 0 then v
    else Step(Walk(v, parts[..|parts| - 1], missing), parts[|parts| - 1], missing)
  }

  /** Walking a path is walking its first part, then the rest. */
  lemma {:induction false} WalkAppend(v: Json, p: seq<string>, q: seq<string>, missing: Json)
    ensures Walk(v, p + q, missing) == Walk(Walk(v, p, missing), q, missing)
    decreases |q|
  {
    if |q| == 0 {
      assert p + q == p;
    } else {
      var q' := q[..|q| - 1];
      assert (p + q)[..|p + q| - 1] == p + q';
      assert (p + q)[|p + q| - 1] == q[|q| - 1];
      WalkAppend(v, p, q', missing);
    }
  }

  /** A walk that meets anything but a dict stays there. */
  lemma {:induction false} WalkStaysOffObjects(v: Json, parts: seq<string>, missing: Json)
    requires !v.JObject?
    ensures Walk(v, parts, missing) == v
  {
    if |parts| > 0 {
      WalkStaysOffObjects(v, parts[..|parts| - 1], missing);
    }
  }

  /** The parts of a configured path; a missing or empty path has none,
      so the walk leaves its value alone. */
  function PathParts(path: Option<string>): (r: seq<string>)
    ensures path.None? || path.value == "" ==> r == []
    ensures path.Some? && path.value != "" ==> |r| >= 1 && JoinWith(r, '.') == path.value
  {
    if path.Some? && path.value != "" then
      JoinSplitOn(path.value, '.');
      SplitOn(path.value, '.')
    else []
  }

  /** The `for part in path.split('.')` loop. */
  method WalkPath(v: Json, path: Option<string>, missing: Json) returns (r: Json)
    ensures r == Walk(v, PathParts(path), missing)
  {
    r := v;
    if path.Some? && path.value != "" {
      var parts := SplitOn(path.value, '.');
      var i := 0;
      while i < |parts|
        invariant 0 <= i <= |parts|
        invariant r == Walk(v, parts[..i], missing)
      {
        assert parts[..i + 1][..i] == parts[..i];
        if r.JObject? {
          r := if parts[i] in r.fields then r.fields[parts[i]] else missing;
        }
        i := i + 1;
      }
      assert parts[..|parts|] == parts;
    }
  }

  /** A value usable as a URL: a non-empty `str`. */
  predicate IsUrl(v: Json) {
    v.JString? && v.s != ""
  }

  /** The entry an item yields at position `idx`: a dict whose preview and
      large paths both lead to URLs, the walks stopping at `None` where a
      key is missing. */
  function EntryFor(item: Json, idx: nat, config: ExtractionConfig): (r: Option<ImageResult>)
    ensures r.Some? <==> item.JObject? && IsUrl(Walk(item, PathParts(config.jsonPreviewPath), JNull))
                         && IsUrl(Walk(item, PathParts(config.jsonLargePath), JNull))
    ensures r.Some? ==> && r.value.id == idx
                        && Walk(item, PathParts(config.jsonPreviewPath), JNull) == JString(r.value.previewUrl)
                        && Walk(item, PathParts(config.jsonLargePath), JNull) == JString(r.value.largeImageUrl)
  {
    if !item.JObject? then None
    else
      var preview := Walk(item, PathParts(config.jsonPreviewPath), JNull);
      var large := Walk(item, PathParts(config.jsonLargePath), JNull);
      if IsUrl(preview) && IsUrl(large) then Some(ImageResult(idx, preview.s, large.s)) else None
  }

  /** The entries of a list of items, in order, each carrying the item's
      own position. */
  function JsonEntries(items: seq<Json>, config: ExtractionConfig): (r: seq<ImageResult>)
    ensures forall k :: 0 <= k < |r| ==> r[k].id < |items| && EntryFor(items[r[k].id], r[k].id, config) == Some(r[k])
    ensures forall k, m :: 0 <= k < m < |r| ==> r[k].id < r[m].id
  {
    if |items| == 0 then []
    else
      var n := |items| - 1;
      var before := JsonEntries(items[..n], config);
      assert forall idx :: 0 <= idx < n ==> items[..n][idx] == items[idx];
      match EntryFor(items[n], n, config)
      case None => before
      case Some(e) => before + [e]
  }

  /** No item that yields an entry is skipped. */
  lemma {:induction false} JsonEntriesComplete(items: seq<Json>, config: ExtractionConfig)
    ensures forall idx :: 0 <= idx < |items| && EntryFor(items[idx], idx, config).Some? ==>
              EntryFor(items[idx], idx, config).value in JsonEntries(items, config)
  {
    if |items| > 0 {
      var n := |items| - 1;
      JsonEntriesComplete(items[..n], config);
      forall idx | 0 <= idx < n
        ensures EntryFor(items[..n][idx], idx, config) == EntryFor(items[idx], idx, config)
      {
        assert items[..n][idx] == items[idx];
      }
    }
  }

  /** Every entry carries two non-empty URLs. */
  lemma JsonEntriesHaveUrls(items: seq<Json>, config: ExtractionConfig)
    ensures forall k :: 0 <= k < |JsonEntries(items, config)| ==>
              JsonEntries(items, config)[k].previewUrl != "" && JsonEntries(items, config)[k].largeImageUrl != ""
  {
    var r := JsonEntries(items, config);
    forall k | 0 <= k < |r| ensures r[k].previewUrl != "" && r[k].largeImageUrl != "" {
      assert EntryFor(items[r[k].id], r[k].id, config) == Some(r[k]);
    }
  }

  /** The list to scan: the decoded value walked along the list path, a
      missing key reading as an empty list. */
  function JsonItems(parsed: Json, config: ExtractionConfig): Json {
    Walk(parsed, PathParts(config.jsonListPath), JArray([]))
  }

  /** The answer to a JSON reply: nothing when it does not decode or when
      the list path does not lead to a list. */
  function JsonExtraction(parsed: Option<Json>, config: ExtractionConfig): (r: seq<ImageResult>)
    ensures parsed.None? ==> r == []
    ensures parsed.Some? && !JsonItems(parsed.value, config).JArray? ==> r == []
    ensures parsed.Some? && JsonItems(parsed.value, config).JArray? ==>
              r == JsonEntries(JsonItems(parsed.value, config).elems, config)
  {
    if parsed.None? then []
    else
      var items := JsonItems(parsed.value, config);
      if items.JArray? then JsonEntries(items.elems, config) else []
  }

  /** A reply whose decoded value is not a dict, with a list path, is
      scanned as it is. */
  lemma ListPathIgnoredOffObjects(parsed: Json, config: ExtractionConfig)
    requires !parsed.JObject?
    ensures JsonExtraction(Some(parsed), config) ==
            if parsed.JArray? then JsonEntries(parsed.elems, config) else []
  {
    WalkStaysOffObjects(parsed, PathParts(config.jsonListPath), JArray([]));
  }

  /** Scans a decoded reply item by item. */
  method ExtractFromJson(parsed: Option<Json>, config: ExtractionConfig) returns (r: seq<ImageResult>)
    ensures r == JsonExtraction(parsed, config)
  {
    if parsed.None? {
      return [];
    }
    var items := WalkPath(parsed.value, config.jsonListPath, JArray([]));
    if !items.JArray? {
      return [];
    }
    r := [];
    var idx := 0;
    while idx < |items.elems|
      invariant 0 <= idx <= |items.elems|
      invariant r == JsonEntries(items.elems[..idx], config)
    {
      var item := items.elems[idx];
      assert items.elems[..idx + 1][..idx] == items.elems[..idx];
      if item.JObject? {
        var preview := WalkPath(item, config.jsonPreviewPath, JNull);
        var large := WalkPath(item, config.jsonLargePath, JNull);
        if IsUrl(preview) && IsUrl(large) {
          r := r + [ImageResult(idx, preview.s, large.s)];
        }
      }
      idx := idx + 1;
    }
    assert items.elems[..|items.elems|] == items.elems;
  }

  // ---- HTML replies ----

  /** What the tokenizer reports: a start tag with its attributes in
      source order (a valueless attribute has no value), or an end tag. */
  datatype TagEvent =
    | StartTag(tag: string, attrs: seq<(string, Option<string>)>)
    | EndTag(tag: string)

  /** `dict(attrs)` looked up at `name`: none when no attribute has that
      name, otherwise the value of the last one that has. */
  function AttrValue(attrs: seq<(string, Option<string>)>, name: string): (r: Option<Option<string>>)
    ensures r.None? <==> forall i :: 0 <= i < |attrs| ==> attrs[i].0 != name
  {
    if |attrs| == 0 then None
    else if attrs[|attrs| - 1].0 == name then Some(attrs[|attrs| - 1].1)
    else
      assert forall i :: 0 <= i < |attrs| - 1 ==> attrs[..|attrs| - 1][i] == attrs[i];
      AttrValue(attrs[..|attrs| - 1], name)
  }

  /** When several attributes share the name, the last one wins. */
  lemma {:induction false} AttrValueIsLast(attrs: seq<(string, Option<string>)>, name: string)
    requires AttrValue(attrs, name).Some?
    ensures exists i :: 0 <= i < |attrs| && attrs[i] == (name, AttrValue(attrs, name).value)
                        && forall j :: i < j < |attrs| ==> attrs[j].0 != name
  {
    var n := |attrs| - 1;
    if attrs[n].0 == name {
      assert attrs[n] == (name, AttrValue(attrs, name).value);
    } else {
      var init := attrs[..n];
      AttrValueIsLast(init, name);
      var i :| 0 <= i < |init| && init[i] == (name, AttrValue(init, name).value)
               && forall j :: i < j < |init| ==> init[j].0 != name;
      assert attrs[i] == init[i];
      forall j | i < j < |attrs| ensures attrs[j].0 != name {
        if j < n {
          assert attrs[j] == init[j];
        }
      }
    }
  }

  /** The class chain of a selector string: its whitespace-separated
      pieces, dots stripped from both ends. */
  function Selectors(selectorStr: string): (r: seq<string>)
    ensures |r| <= |Words(selectorStr)|
  {
    KeptSelectors(Words(selectorStr))
  }

  function KeptSelectors(pieces: seq<string>): (r: seq<string>)
    ensures |r| <= |pieces|
  {
    if |pieces| == 0 then []
    else
      var rest := KeptSelectors(pieces[1..]);
      if Strip(pieces[0]) != "" then [Undotted(pieces[0])] + rest else rest
  }

  /** `s.strip('.')` */
  function Undotted(s: string): string {
    StripChars(s, AnyOf({'.'}))
  }

  /** No piece of `s.split()` is blank, so the `if s.strip()` filter keeps
      every one: there is one selector per piece. */
  lemma {:induction false} SelectorPerPiece(pieces: seq<string>)
    requires forall i :: 0 <= i < |pieces| ==> |pieces[i]| > 0 && !IsSpace(pieces[i][0])
    ensures KeptSelectors(pieces) == AllUndotted(pieces)
  {
    if |pieces| > 0 {
      var tail := pieces[1..];
      forall i | 0 <= i < |tail| ensures |tail[i]| > 0 && !IsSpace(tail[i][0]) {
        assert tail[i] == pieces[i + 1];
      }
      SelectorPerPiece(tail);
      KeptSelectorsCons(pieces);
    }
  }

  /** Every piece with dots stripped, in order. */
  function AllUndotted(pieces: seq<string>): (r: seq<string>)
    ensures |r| == |pieces|
    ensures forall i :: 0 <= i < |pieces| ==> r[i] == Undotted(pieces[i])
  {
    if |pieces| == 0 then [] else [Undotted(pieces[0])] + AllUndotted(pieces[1..])
  }

  /** A first piece starting with a non-space is kept. */
  lemma KeptSelectorsCons(pieces: seq<string>)
    requires |pieces| > 0 && |pieces[0]| > 0 && !IsSpace(pieces[0][0])
    ensures KeptSelectors(pieces) == [Undotted(pieces[0])] + KeptSelectors(pieces[1..])
  {
    NotBlank(pieces[0]);
  }

  /** A string that starts with a non-space is not blank. */
  lemma NotBlank(p: string)
    requires |p| > 0 && !IsSpace(p[0])
    ensures Strip(p) != ""
  {
    assert LStrip(p, Spaces) == p;
  }

  /** Every whitespace-separated piece of the selector string yields one
      selector. */
  lemma SelectorsOfWords(selectorStr: string)
    ensures |Selectors(selectorStr)| == |Words(selectorStr)|
  {
    var w := Words(selectorStr);
    SelectorPerPiece(w);
  }

  /** A recorded value: non-empty, neither starting nor ending with a
      single quote. */
  predicate CleanUrl(u: string) {
    u != "" && u[0] != '\'' && u[|u| - 1] != '\''
  }

  /** `val.strip().strip('"').strip("'")` */
  function Clean(v: string): (r: string)
    ensures |r| <= |v|
    ensures |r| > 0 ==> r[0] != '\'' && r[|r| - 1] != '\''
  {
    StripChars(StripChars(Strip(v), AnyOf({'"'})), AnyOf({'\''}))
  }

  /** A start tag whose class attribute is present without a value makes
      `None.split()` raise. */
  datatype ParseFailure = ValuelessClass(tag: string)

  /** The classes of a start tag, or the failure a valueless class
      attribute causes. */
  function ClassesOf(tag: string, attrs: seq<(string, Option<string>)>): (r: Result<seq<string>, ParseFailure>)
    ensures r.Failure? <==> AttrValue(attrs, "class") == Some(None)
    ensures AttrValue(attrs, "class").None? ==> r == Success([])
    ensures AttrValue(attrs, "class").Some? && AttrValue(attrs, "class").value.Some? ==>
              r == Success(Words(AttrValue(attrs, "class").value.value))
    ensures r.Failure? ==> r.error == ValuelessClass(tag)
  {
    match AttrValue(attrs, "class")
    case None => Success([])
    case Some(None) => Failure(ValuelessClass(tag))
    case Some(Some(v)) => Success(Words(v))
  }

  /** A truthy attribute value as the parser reads it: a `style` value
      holding `url(` is rewritten by `styleUrl`, which stands for
      unescaping the value and taking the group the `url(...)` pattern
      captures (the unescaped value itself when the pattern does not
      match); any other value is kept. */
  function Rewritten(v: string, attr: string, styleUrl: string -> string): string {
    if attr == "style" && Contains(v, "url(") then styleUrl(v) else v
  }

  /** The value recorded for a start tag met at full depth, if any: the
      truthy value of the configured attribute, rewritten and cleaned;
      nothing if that leaves it empty. */
  function Recorded(attrs: seq<(string, Option<string>)>, attr: string, styleUrl: string -> string)
    : (r: Option<string>)
    ensures r.Some? ==> CleanUrl(r.value)
    ensures r.Some? <==> AttrValue(attrs, attr).Some? && AttrValue(attrs, attr).value.Some?
                         && Clean(Rewritten(AttrValue(attrs, attr).value.value, attr, styleUrl)) != ""
    ensures r.Some? ==> r.value == Clean(Rewritten(AttrValue(attrs, attr).value.value, attr, styleUrl))
  {
    RecordedValue(AttrValue(attrs, attr), attr, styleUrl)
  }

  function RecordedValue(v: Option<Option<string>>, attr: string, styleUrl: string -> string): (r: Option<string>)
    ensures r.Some? ==> CleanUrl(r.value)
    ensures r.Some? <==> v.Some? && v.value.Some? && Clean(Rewritten(v.value.value, attr, styleUrl)) != ""
    ensures r.Some? ==> v.value.value != "" && r.value == Clean(Rewritten(v.value.value, attr, styleUrl))
  {
    if v.None? || v.value.None? || v.value.value == "" then None
    else
      var cleaned := Clean(Rewritten(v.value.value, attr, styleUrl));
      if cleaned == "" then None else Some(cleaned)
  }

  /** What the parser keeps between events. */
  datatype ParserState = ParserState(stack: seq<string>, results: seq<string>)

  /** The stack after a start tag with these classes: the tag is pushed
      when the classes hold the selector at the current depth. */
  function Pushed(selectors: seq<string>, stack: seq<string>, tag: string, classes: seq<string>): (r: seq<string>)
    ensures |stack| < |selectors| && selectors[|stack|] in classes ==> r == stack + [tag]
    ensures !(|stack| < |selectors| && selectors[|stack|] in classes) ==> r == stack
    ensures |stack| <= |selectors| ==> |r| <= |selectors|
  {
    if |stack| < |selectors| && selectors[|stack|] in classes then stack + [tag] else stack
  }

  /** The state after a start tag: the stack as `Pushed` leaves it, and a
      value recorded when the stack then has one entry per selector. */
  function StartStep(selectors: seq<string>, attr: string, styleUrl: string -> string, st: ParserState,
                     tag: string, attrs: seq<(string, Option<string>)>): (r: Result<ParserState, ParseFailure>)
    ensures r.Failure? <==> AttrValue(attrs, "class") == Some(None)
    ensures r.Success? ==> r.value.stack == Pushed(selectors, st.stack, tag, ClassesOf(tag, attrs).value)
    ensures r.Success? && |r.value.stack| == |selectors| && Recorded(attrs, attr, styleUrl).Some? ==>
              r.value.results == st.results + [Recorded(attrs, attr, styleUrl).value]
    ensures r.Success? && !(|r.value.stack| == |selectors| && Recorded(attrs, attr, styleUrl).Some?) ==>
              r.value.results == st.results
  {
    match ClassesOf(tag, attrs)
    case Failure(e) => Failure(e)
    case Success(classes) =>
      var stack := Pushed(selectors, st.stack, tag, classes);
      if |stack| == |selectors| && Recorded(attrs, attr, styleUrl).Some? then
        Success(ParserState(stack, st.results + [Recorded(attrs, attr, styleUrl).value]))
      else Success(ParserState(stack, st.results))
  }

  /** The stack after an end tag: popped when the tag is the one on top. */
  function EndStep(stack: seq<string>, tag: string): (r: seq<string>)
    ensures |stack| > 0 && stack[|stack| - 1] == tag ==> r == stack[..|stack| - 1]
    ensures !(|stack| > 0 && stack[|stack| - 1] == tag) ==> r == stack
  {
    if |stack| > 0 && stack[|stack| - 1] == tag then stack[..|stack| - 1] else stack
  }

  /** The invariant the parser keeps: never deeper than the selector chain,
      and every recorded value a non-empty cleaned string. */
  predicate GoodState(selectors: seq<string>, st: ParserState) {
    && |st.stack| <= |selectors|
    && forall i :: 0 <= i < |st.results| ==> CleanUrl(st.results[i])
  }

  /** A start tag whose class attribute has no value. */
  predicate ValuelessClassTag(e: TagEvent) {
    e.StartTag? && AttrValue(e.attrs, "class") == Some(None)
  }

  /** The state after a whole event stream, or the failure that stops it:
      the stream fails exactly when one of its start tags has a valueless
      class attribute. */
  function FeedAll(selectors: seq<string>, attr: string, styleUrl: string -> string, st: ParserState,
                   events: seq<TagEvent>): (r: Result<ParserState, ParseFailure>)
    ensures r.Failure? <==> exists i :: 0 <= i < |events| && ValuelessClassTag(events[i])
    decreases |events|
  {
    if |events| == 0 then Success(st)
    else match events[0]
      case EndTag(tag) => FeedAll(selectors, attr, styleUrl, ParserState(EndStep(st.stack, tag), st.results), events[1..])
      case StartTag(tag, attrs) =>
        match StartStep(selectors, attr, styleUrl, st, tag, attrs)
        case Failure(e) => Failure(e)
        case Success(next) => FeedAll(selectors, attr, styleUrl, next, events[1..])
  }

  /** A start tag keeps the invariant. */
  lemma StartStepKeepsGoodState(selectors: seq<string>, attr: string, styleUrl: string -> string, st: ParserState,
                                tag: string, attrs: seq<(string, Option<string>)>)
    requires GoodState(selectors, st)
    ensures StartStep(selectors, attr, styleUrl, st, tag, attrs).Success? ==>
              GoodState(selectors, StartStep(selectors, attr, styleUrl, st, tag, attrs).value)
  {
    var step := StartStep(selectors, attr, styleUrl, st, tag, attrs);
    if step.Success? && step.value.results != st.results {
      var v := Recorded(attrs, attr, styleUrl).value;
      AppendKeepsClean(st.results, v);
    }
  }

  lemma AppendKeepsClean(results: seq<string>, v: string)
    requires forall i :: 0 <= i < |results| ==> CleanUrl(results[i])
    requires CleanUrl(v)
    ensures forall i :: 0 <= i < |results + [v]| ==> CleanUrl((results + [v])[i])
  {
  }

  /** Every event keeps the invariant, so a whole stream does. */
  lemma {:induction false} FeedAllKeepsGoodState(selectors: seq<string>, attr: string, styleUrl: string -> string,
                                                 st: ParserState, events: seq<TagEvent>)
    requires GoodState(selectors, st)
    ensures FeedAll(selectors, attr, styleUrl, st, events).Success? ==>
              GoodState(selectors, FeedAll(selectors, attr, styleUrl, st, events).value)
    decreases |events|
  {
    if |events| > 0 {
      match events[0]
      case EndTag(tag) =>
        FeedAllKeepsGoodState(selectors, attr, styleUrl, ParserState(EndStep(st.stack, tag), st.results), events[1..]);
      case StartTag(tag, attrs) =>
        var step := StartStep(selectors, attr, styleUrl, st, tag, attrs);
        if step.Success? {
          StartStepKeepsGoodState(selectors, attr, styleUrl, st, tag, attrs);
          FeedAllKeepsGoodState(selectors, attr, styleUrl, step.value, events[1..]);
        }
    }
  }

  /** Results are only ever added to: a stream's results extend the ones
      it started from. */
  lemma {:induction false} FeedAllExtendsResults(selectors: seq<string>, attr: string, styleUrl: string -> string,
                                                 st: ParserState, events: seq<TagEvent>)
    ensures FeedAll(selectors, attr, styleUrl, st, events).Success? ==>
              st.results <= FeedAll(selectors, attr, styleUrl, st, events).value.results
    decreases |events|
  {
    if |events| > 0 {
      match events[0]
      case EndTag(tag) =>
        FeedAllExtendsResults(selectors, attr, styleUrl, ParserState(EndStep(st.stack, tag), st.results), events[1..]);
      case StartTag(tag, attrs) =>
        var step := StartStep(selectors, attr, styleUrl, st, tag, attrs);
        if step.Success? {
          FeedAllExtendsResults(selectors, attr, styleUrl, step.value, events[1..]);
        }
    }
  }

  /** A class name as `split()` yields it: non-empty, without whitespace. */
  predicate IsWord(w: string) {
    |w| > 0 && forall j :: 0 <= j < |w| ==> !IsSpace(w[j])
  }

  /** Matching goes by tag name only: an element that did not match, closed
      inside one that did, closes the match of the outer one when the two
      share a tag name. With the chain `outer inner`, an element of class
      `inner` that sits inside the `outer` element, after a closed sibling
      of the same tag name, is missed. */
  lemma SameNamedChildEndsMatch(outer: string, sibling: string, inner: string, tag: string,
                                imgTag: string, attr: string, url: string, styleUrl: string -> string)
    requires IsWord(outer) && IsWord(sibling) && IsWord(inner)
    requires sibling != inner && attr != "class"
    ensures var events := [
              StartTag(tag, [("class", Some(outer))]),
              StartTag(tag, [("class", Some(sibling))]),
              EndTag(tag),
              StartTag(imgTag, [("class", Some(inner)), (attr, Some(url))])];
            var r := FeedAll([outer, inner], attr, styleUrl, ParserState([], []), events);
            r.Success? && r.value.results == []
  {
    var sel := [outer, inner];
    var card := [("class", Some(outer))];
    var meta := [("class", Some(sibling))];
    var img := [("class", Some(inner)), (attr, Some(url))];
    var e0, e1, e2, e3 := StartTag(tag, card), StartTag(tag, meta), EndTag(tag), StartTag(imgTag, img);
    var s0 := ParserState([], []);
    var s1 := ParserState([tag], []);
    var s3 := ParserState(Pushed(sel, [], imgTag, [inner]), []);
    SameNamedSteps(outer, sibling, inner, tag, imgTag, attr, url, styleUrl);
    assert FeedAll(sel, attr, styleUrl, s0, [e3]) == Success(s3) by {
      FeedFirst(sel, attr, styleUrl, s0, e3, []);
      assert [e3] + [] == [e3];
    }
    assert FeedAll(sel, attr, styleUrl, s1, [e2, e3]) == Success(s3) by {
      FeedFirst(sel, attr, styleUrl, s1, e2, [e3]);
      assert [e2] + [e3] == [e2, e3];
    }
    assert FeedAll(sel, attr, styleUrl, s1, [e1, e2, e3]) == Success(s3) by {
      FeedFirst(sel, attr, styleUrl, s1, e1, [e2, e3]);
      assert [e1] + [e2, e3] == [e1, e2, e3];
    }
    FeedFirst(sel, attr, styleUrl, s0, e0, [e1, e2, e3]);
    assert [e0] + [e1, e2, e3] == [e0, e1, e2, e3];
  }

  /** The three start tags of the stream above, one at a time. */
  lemma SameNamedSteps(outer: string, sibling: string, inner: string, tag: string,
                       imgTag: string, attr: string, url: string, styleUrl: string -> string)
    requires IsWord(outer) && IsWord(sibling) && IsWord(inner)
    requires sibling != inner && attr != "class"
    ensures var sel, s0, s1 := [outer, inner], ParserState([], []), ParserState([tag], []);
            && StartStep(sel, attr, styleUrl, s0, tag, [("class", Some(outer))]) == Success(s1)
            && StartStep(sel, attr, styleUrl, s1, tag, [("class", Some(sibling))]) == Success(s1)
            && StartStep(sel, attr, styleUrl, s0, imgTag, [("class", Some(inner)), (attr, Some(url))])
                 == Success(ParserState(Pushed(sel, [], imgTag, [inner]), []))
  {
    var sel := [outer, inner];
    var card := [("class", Some(outer))];
    var meta := [("class", Some(sibling))];
    var img := [("class", Some(inner)), (attr, Some(url))];
    var s0 := ParserState([], []);
    var s1 := ParserState([tag], []);
    var s3 := ParserState(Pushed(sel, [], imgTag, [inner]), []);
    assert StartStep(sel, attr, styleUrl, s0, tag, card) == Success(s1) by {
      assert outer in [outer];
      OneClassStep(sel, attr, styleUrl, s0, tag, card, outer, [tag]);
    }
    assert StartStep(sel, attr, styleUrl, s1, tag, meta) == Success(s1) by {
      OneClassStep(sel, attr, styleUrl, s1, tag, meta, sibling, [tag]);
    }
    assert StartStep(sel, attr, styleUrl, s0, imgTag, img) == Success(s3) by {
      assert AttrValue(img, "class") == Some(Some(inner)) by {
        assert img[..1] == [("class", Some(inner))];
      }
      OneClassStep(sel, attr, styleUrl, s0, imgTag, img, inner, s3.stack);
    }
  }

  /** A start tag with a single class, on a stack that stays short of the
      chain, records nothing and pushes the tag only when the class is
      the selector at the current depth. */
  lemma OneClassStep(selectors: seq<string>, attr: string, styleUrl: string -> string, st: ParserState,
                     tag: string, attrs: seq<(string, Option<string>)>, cls: string, stack: seq<string>)
    requires AttrValue(attrs, "class") == Some(Some(cls))
    requires IsWord(cls)
    requires stack == Pushed(selectors, st.stack, tag, [cls])
    requires |stack| < |selectors|
    ensures StartStep(selectors, attr, styleUrl, st, tag, attrs) == Success(ParserState(stack, st.results))
  {
    WordsOfJoined([cls]);
    assert ClassesOf(tag, attrs) == Success([cls]);
  }

  /** Feeding a stream is feeding its first event, then the rest. */
  lemma FeedFirst(selectors: seq<string>, attr: string, styleUrl: string -> string, st: ParserState,
                  e: TagEvent, rest: seq<TagEvent>)
    ensures e.EndTag? ==>
              FeedAll(selectors, attr, styleUrl, st, [e] + rest)
                == FeedAll(selectors, attr, styleUrl, ParserState(EndStep(st.stack, e.tag), st.results), rest)
    ensures e.StartTag? && StartStep(selectors, attr, styleUrl, st, e.tag, e.attrs).Success? ==>
              FeedAll(selectors, attr, styleUrl, st, [e] + rest)
                == FeedAll(selectors, attr, styleUrl, StartStep(selectors, attr, styleUrl, st, e.tag, e.attrs).value, rest)
  {
    assert ([e] + rest)[0] == e && ([e] + rest)[1..] == rest;
  }

  /** The HTML parser subclass: the selector chain and the attribute to
      read are fixed at construction; the results and the stack of matched
      tag names change with each event. */
  class ImageTagParser {
    const selectors: seq<string>
    const attr: string
    const styleUrl: string -> string
    var results: seq<string>
    var matchingStack: seq<string>

    function State(): ParserState
      reads this
    {
      ParserState(matchingStack, results)
    }

    constructor (selectorStr: string, attr: string, styleUrl: string -> string)
      ensures selectors == Selectors(selectorStr) && this.attr == attr && this.styleUrl == styleUrl
      ensures results == [] && matchingStack == []
      ensures GoodState(selectors, State())
    {
      this.selectors := Selectors(selectorStr);
      this.attr := attr;
      this.styleUrl := styleUrl;
      results := [];
      matchingStack := [];
    }

    method HandleStartTag(tag: string, attrs: seq<(string, Option<string>)>) returns (r: Result<(), ParseFailure>)
      modifies this`results, this`matchingStack
      ensures var step := StartStep(selectors, attr, styleUrl, old(State()), tag, attrs);
              && (step.Failure? ==> r == Failure(step.error) && State() == old(State()))
              && (step.Success? ==> r == Success(()) && State() == step.value)
    {
      var classes := ClassesOf(tag, attrs);
      if classes.Failure? {
        return Failure(classes.error);
      }
      var targetIdx := |matchingStack|;
      if targetIdx < |selectors| && selectors[targetIdx] in classes.value {
        matchingStack := matchingStack + [tag];
      }
      if |matchingStack| == |selectors| {
        var val := Recorded(attrs, attr, styleUrl);
        if val.Some? {
          results := results + [val.value];
        }
      }
      r := Success(());
    }

    method HandleEndTag(tag: string)
      modifies this`matchingStack
      ensures matchingStack == EndStep(old(matchingStack), tag)
      ensures results == old(results)
    {
      if |matchingStack| > 0 && matchingStack[|matchingStack| - 1] == tag {
        matchingStack := matchingStack[..|matchingStack| - 1];
      }
    }

    /** Hands the events over one by one; a failing start tag stops the
        feed, and what was recorded before it stays. */
    method Feed(events: seq<TagEvent>) returns (r: Result<(), ParseFailure>)
      modifies this`results, this`matchingStack
      ensures var all := FeedAll(selectors, attr, styleUrl, old(State()), events);
              && (all.Failure? ==> r == Failure(all.error))
              && (all.Success? ==> r == Success(()) && State() == all.value)
    {
      var i := 0;
      while i < |events|
        invariant 0 <= i <= |events|
        invariant FeedAll(selectors, attr, styleUrl, old(State()), events)
                  == FeedAll(selectors, attr, styleUrl, State(), events[i..])
        decreases |events| - i
      {
        assert events[i..][1..] == events[i + 1..];
        match events[i] {
          case EndTag(tag) =>
            HandleEndTag(tag);
          case StartTag(tag, attrs) =>
            var step := HandleStartTag(tag, attrs);
            if step.Failure? {
              return step;
            }
        }
        i := i + 1;
      }
      r := Success(());
    }
  }

  /** The answer built from the parser's results: the first thirty, each
      its own preview and large image, numbered from 0. */
  function HtmlEntries(results: seq<string>): (r: seq<ImageResult>)
    ensures |r| == if |results| < 30 then |results| else 30
    ensures forall i :: 0 <= i < |r| ==> r[i] == ImageResult(i, results[i], results[i])
  {
    var kept := if |results| < 30 then results else results[..30];
    seq(|kept|, i requires 0 <= i < |kept| => ImageResult(i, kept[i], kept[i]))
  }

  /** The selector string and the attribute name the parser is built with:
      empty or missing settings fall back to no selectors and `src`. */
  function SelectorSetting(config: ExtractionConfig): (r: string)
    ensures config.imageSelector.Some? ==> r == config.imageSelector.value
    ensures config.imageSelector.None? ==> r == ""
  {
    if config.imageSelector.Some? && config.imageSelector.value != "" then config.imageSelector.value else ""
  }

  function AttributeSetting(config: ExtractionConfig): (r: string)
    ensures r != ""
    ensures config.imageAttribute.Some? && config.imageAttribute.value != "" ==> r == config.imageAttribute.value
    ensures config.imageAttribute.None? || config.imageAttribute.value == "" ==> r == "src"
  {
    if config.imageAttribute.Some? && config.imageAttribute.value != "" then config.imageAttribute.value else "src"
  }

  /** The answer to a provider's reply: the JSON scan when the provider
      answers in JSON, the HTML scan otherwise. `parsed` is what decoding
      the reply as JSON gives and `events` what tokenizing it as HTML
      gives; only the one the response type selects is used. */
  method ExtractImagesFromClientResponse(responseType: string, parsed: Option<Json>, events: seq<TagEvent>,
                                         config: ExtractionConfig, styleUrl: string -> string)
    returns (r: Result<seq<ImageResult>, ParseFailure>)
    ensures responseType == "json" ==> r == Success(JsonExtraction(parsed, config))
    ensures responseType != "json" ==>
              var all := FeedAll(Selectors(SelectorSetting(config)), AttributeSetting(config), styleUrl,
                                 ParserState([], []), events);
              && (all.Failure? ==> r == Failure(all.error))
              && (all.Success? ==> r == Success(HtmlEntries(all.value.results)))
    ensures r.Success? ==> |r.value| <= 30 || responseType == "json"
  {
    if responseType == "json" {
      var entries := ExtractFromJson(parsed, config);
      return Success(entries);
    }
    var parser := new ImageTagParser(SelectorSetting(config), AttributeSetting(config), styleUrl);
    var fed := parser.Feed(events);
    if fed.Failure? {
      return Failure(fed.error);
    }
    r := Success(HtmlEntries(parser.results));
  }

  /** Every entry of an HTML answer has equal, non-empty preview and large
      URLs, none starting or ending with a single quote. */
  lemma HtmlEntriesAreCleanUrls(config: ExtractionConfig, styleUrl: string -> string, events: seq<TagEvent>)
    ensures var all := FeedAll(Selectors(SelectorSetting(config)), AttributeSetting(config), styleUrl,
                               ParserState([], []), events);
            all.Success? ==>
              forall e :: e in HtmlEntries(all.value.results) ==>
                e.previewUrl == e.largeImageUrl && e.previewUrl != ""
                && CleanUrl(e.previewUrl)
  {
    var selectors := Selectors(SelectorSetting(config));
    FeedAllKeepsGoodState(selectors, AttributeSetting(config), styleUrl, ParserState([], []), events);
  }
}
