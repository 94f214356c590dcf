/**
 * The hidden data block kept in the issue body between runs: a JSON document
 * after the marker `botsData` inside an HTML comment, recording the id of the
 * last size-report comment. JSON text is produced and read by `stringify`
 * and `parse`, which are parameters of this model.
 */
module HiddenData {
  import opened Wrappers
  import opened JsStrings

  /** The JSON values `JSON.parse` produces; an object keeps its keys in property order. */
  datatype Json =
    | JNull
    | JBool(b: bool)
    | JNumber(n: int)
    | JString(s: string)
    | JArray(items: seq<Json>)
    | JObject(fields: seq<(string, Json)>)

  /** What the codec can throw: a `SyntaxError` from `JSON.parse`, or a `TypeError` from a property write. */
  datatype HiddenDataError = SyntaxError(text: string) | TypeError

  /** `JSON.parse`: the value a text denotes, or `None` when it throws. */
  type Parse = string -> Option<Json>

  /** `JSON.stringify`. */
  type Stringify = Json -> string

  const Marker: string := "botsData"
  const CloseComment: string := "-->"
  const Warning: string := "\n<!-- WARNING: Don't delete the content inside botData -->"
  /** What `updateCommentId` writes before the JSON text: `\n\n<!--botsData\n`. */
  const BlockOpening: string := "\n\n<!--" + Marker + "\n"
  /** What `updateCommentId` writes after the JSON text: `\n-->` and the warning comment. */
  const BlockClosing: string := "\n" + CloseComment + Warning

  /** The value used when the body holds no hidden block: `{ sizeReport: {} }`. */
  const DefaultHiddenData: Json := JObject([("sizeReport", JObject([]))])

  /** The value of the first property named `key` (a JavaScript object has at most one). */
  function Lookup(fields: seq<(string, Json)>, key: string): (r: Option<Json>)
    ensures r.None? <==> forall i :: 0 <= i < |fields| ==> fields[i].0 != key
    ensures r.Some? ==> exists i :: 0 <= i < |fields| && fields[i] == (key, r.value)
  {
    if fields == [] then None
    else if fields[0].0 == key then Some(fields[0].1)
    else
      var r := Lookup(fields[1..], key);
      assert forall i :: 1 <= i < |fields| ==> fields[i] == fields[1..][i - 1];
      r
  }

  /**
   * `obj[key] = value`: an existing property keeps its position and takes the
   * new value; a new property is added after all others.
   */
  function Assign(fields: seq<(string, Json)>, key: string, value: Json): (r: seq<(string, Json)>)
    ensures Lookup(r, key) == Some(value)
    ensures forall k :: k != key ==> Lookup(r, k) == Lookup(fields, k)
    ensures |r| == if Lookup(fields, key).Some? then |fields| else |fields| + 1
    ensures Lookup(fields, key).Some? ==> forall i :: 0 <= i < |fields| ==> r[i].0 == fields[i].0
    ensures forall i :: 0 <= i < |fields| && fields[i].0 != key ==> r[i] == fields[i]
    ensures Lookup(fields, key).None? ==> r == fields + [(key, value)]
  {
    if fields == [] then [(key, value)]
    else if fields[0].0 == key then [(key, value)] + fields[1..]
    else [fields[0]] + Assign(fields[1..], key, value)
  }

  /** The slice `getHiddenData` hands to `JSON.parse`, or `None` when the marker is absent. */
  function HiddenJsonText(str: string): (r: Option<string>)
    ensures r.None? <==> !Contains(str, Marker)
  {
    var markerIndex := IndexOf(str, Marker);
    if markerIndex == -1 then None
    else
      var startIndex := markerIndex + |Marker|;
      var remaining := SubstringFrom(str, startIndex);
      var endIndex := IndexOf(remaining, CloseComment);
      Some(Substring(str, startIndex, startIndex + endIndex))
  }

  /** `getHiddenData(str)`. */
  function GetHiddenData(str: string, parse: Parse): (r: Result<Json, HiddenDataError>)
    ensures !Contains(str, Marker) ==> r == Success(DefaultHiddenData)
    ensures Contains(str, Marker) ==> (r.Success? <==> parse(HiddenJsonText(str).value).Some?)
    ensures Contains(str, Marker) && r.Success? ==> Some(r.value) == parse(HiddenJsonText(str).value)
    ensures Contains(str, Marker) && r.Failure? ==> r.error == SyntaxError(HiddenJsonText(str).value)
  {
    match HiddenJsonText(str)
    case None => Success(DefaultHiddenData)
    case Some(text) =>
      match parse(text)
      case None => Failure(SyntaxError(text))
      case Some(j) => Success(j)
  }

  /**
   * With the marker present the slice is the text from just after its first
   * occurrence up to the first `-->` after that; when no `-->` follows,
   * `substring` receives an end one before its start, swaps them, and the
   * slice is the last character of the marker.
   */
  lemma HiddenJsonTextBounds(str: string)
    requires Contains(str, Marker)
    ensures var start := IndexOf(str, Marker) + |Marker|;
      && start <= |str|
      && var endIndex := IndexOf(str[start..], CloseComment);
      && (endIndex != -1 ==> HiddenJsonText(str) == Some(str[start..start + endIndex]))
      && (endIndex == -1 ==> HiddenJsonText(str) == Some("a"))
  {
    var m := IndexOf(str, Marker);
    MarkerEnd(str, m);
    var start := m + |Marker|;
    var endIndex := IndexOf(str[start..], CloseComment);
    HiddenJsonTextOf(str, start, str[start..], endIndex);
    if endIndex == -1 {
      SwappedBoundsSlice(str, start);
    }
  }

  /** `substring(start, start - 1)` swaps its bounds and yields the one character before `start`. */
  lemma SwappedBoundsSlice(str: string, start: nat)
    requires 1 <= start <= |str| && str[start - 1] == 'a'
    ensures Substring(str, start, start - 1) == "a"
  {
    assert Substring(str, start, start - 1) == str[start - 1..start];
  }

  /** The text read after a marker ending at `start`, in terms of the `-->` search after it. */
  lemma HiddenJsonTextOf(str: string, start: nat, remaining: string, endIndex: int)
    requires |Marker| <= start <= |str| && IndexOf(str, Marker) == start - |Marker|
    requires str[start..] == remaining && IndexOf(remaining, CloseComment) == endIndex
    ensures HiddenJsonText(str) == Some(Substring(str, start, start + endIndex))
  {
    var markerIndex := IndexOf(str, Marker);
    assert markerIndex != -1 && markerIndex + |Marker| == start;
    assert SubstringFrom(str, start) == remaining;
  }

  /** A marker found at `m` ends inside the string, with its last letter `a`. */
  lemma MarkerEnd(str: string, m: int)
    requires Contains(str, Marker) && IndexOf(str, Marker) == m
    ensures 0 <= m && m + |Marker| <= |str| && str[m + |Marker| - 1] == 'a'
  {
    assert OccursAt(str, Marker, m);
    assert str[m..m + |Marker|][|Marker| - 1] == 'a';
  }

  /** `hiddenData.sizeReport`, or `None` when `hiddenData` is not an object or lacks it. */
  function SizeReport(hidden: Json): Option<Json>
  {
    if hidden.JObject? then Lookup(hidden.fields, "sizeReport") else None
  }

  /** `hiddenData.sizeReport.lastCommentId` as read back by the next run. */
  function LastCommentId(hidden: Json): Option<Json>
  {
    match hidden
    case JObject(fields) =>
      (match Lookup(fields, "sizeReport")
       case Some(JObject(inner)) => Lookup(inner, "lastCommentId")
       case _ => None)
    case _ => None
  }

  /**
   * `hiddenData.sizeReport.lastCommentId = commentId` in strict mode: a
   * missing or null `sizeReport`, a `hiddenData` that is not an object and a
   * primitive `sizeReport` throw a `TypeError`; on an array the property is
   * set but `JSON.stringify` does not write it, so the value stays as it was.
   */
  function SetLastCommentId(hidden: Json, commentId: Json): (r: Result<Json, HiddenDataError>)
    ensures r.Success? <==> SizeReport(hidden).Some? && (SizeReport(hidden).value.JObject? || SizeReport(hidden).value.JArray?)
    ensures r.Success? && SizeReport(hidden).value.JObject? ==> LastCommentId(r.value) == Some(commentId)
    ensures r.Success? && SizeReport(hidden).value.JArray? ==> r.value == hidden
    ensures r.Success? && SizeReport(hidden).value.JObject? ==>
      && r.value.JObject?
      && |r.value.fields| == |hidden.fields|
      && (forall k :: k != "sizeReport" ==> Lookup(r.value.fields, k) == Lookup(hidden.fields, k))
      && SizeReport(r.value).Some? && SizeReport(r.value).value.JObject?
      && (forall k :: k != "lastCommentId" ==>
            Lookup(SizeReport(r.value).value.fields, k) == Lookup(SizeReport(hidden).value.fields, k))
  {
    match hidden
    case JObject(fields) =>
      (match Lookup(fields, "sizeReport")
       case Some(JObject(inner)) =>
         Success(JObject(Assign(fields, "sizeReport", JObject(Assign(inner, "lastCommentId", commentId)))))
       case Some(JArray(_)) => Success(hidden)
       case _ => Failure(TypeError))
    case _ => Failure(TypeError)
  }

  /** The issue text `updateCommentId` keeps: everything before the first `<!--botsData`, right-trimmed. */
  function KeptText(issueBody: string): (text: string)
    ensures |text| <= |issueBody| && text == issueBody[..|text|]
    ensures text == [] || !IsJsWhitespace(text[|text| - 1])
    ensures var markerIndex := IndexOf(issueBody, "<!--" + Marker);
      var textEndIndex := if markerIndex == -1 then |issueBody| else markerIndex;
      && |text| <= textEndIndex
      && forall i :: |text| <= i < textEndIndex ==> IsJsWhitespace(issueBody[i])
  {
    var markerIndex := IndexOf(issueBody, "<!--" + Marker);
    var textEndIndex := if markerIndex == -1 then |issueBody| else markerIndex;
    TrimEnd(Substring(issueBody, 0, textEndIndex))
  }

  /** `updateCommentId`: the new issue body and the updated hidden data. */
  function UpdateCommentId(issueBody: string, hidden: Json, commentId: Json, stringify: Stringify)
    : (r: Result<(string, Json), HiddenDataError>)
    ensures r.Success? <==> SetLastCommentId(hidden, commentId).Success?
    ensures r.Success? ==> r.value.1 == SetLastCommentId(hidden, commentId).value
    ensures r.Success? ==> r.value.0 == KeptText(issueBody) + BlockOpening + stringify(r.value.1) + BlockClosing
  {
    var text := KeptText(issueBody);
    match SetLastCommentId(hidden, commentId)
    case Failure(e) => Failure(e)
    case Success(h) => Success((text + BlockOpening + stringify(h) + BlockClosing, h))
  }

  /** The marker `botsData` is found four characters into `<!--botsData`. */
  lemma MarkerInOpening(rest: string)
    ensures IndexOf("<!--" + Marker + rest, Marker) == 4
  {
    var opening := "<!--" + Marker + rest;
    assert OccursAt(opening, Marker, 4) by { assert opening[4..4 + |Marker|] == Marker; }
    forall i: nat | i < 4 ensures !OccursAt(opening, Marker, i) {
      if i + |Marker| <= |opening| { assert opening[i..i + |Marker|][0] == opening[i] != 'b'; }
    }
  }

  /** A leading newline shifts the first occurrence of a pattern without newlines by one. */
  lemma AfterNewline(s: string, pat: string)
    requires pat != [] && '\n' !in pat
    ensures IndexOf(['\n'] + s, pat) == if IndexOf(s, pat) == -1 then -1 else IndexOf(s, pat) + 1
  {
    assert !Contains([], pat);
    assert ['\n'] + s == [] + ['\n'] + s;
    IndexOfAfterSeparator([], '\n', s, pat);
  }

  /** In a body ending with a fresh block, the first `botsData` is the one the block opens with. */
  lemma MarkerFoundInBlock(text: string, rest: string)
    requires !Contains(text, Marker)
    ensures IndexOf(text + "\n\n<!--" + Marker + rest, Marker) == |text| + 6
  {
    var opening := "<!--" + Marker + rest;
    var body := text + "\n\n<!--" + Marker + rest;
    assert body == text + ['\n'] + (['\n'] + opening);
    MarkerInOpening(rest);
    AfterNewline(opening, Marker);
    IndexOfAfterSeparator(text, '\n', ['\n'] + opening, Marker);
  }

  /** After the marker, the first `-->` is the one closing the block, when the JSON text holds none. */
  lemma {:induction false} CloseFoundAfterJson(json: string, rest: string)
    requires !Contains(json, CloseComment)
    ensures IndexOf("\n" + json + "\n" + CloseComment + rest, CloseComment) == |json| + 2
  {
    var closing := CloseComment + rest;
    FoundAtStart(CloseComment, rest);
    IndexOfAfterSeparator(json, '\n', closing, CloseComment);
    AfterNewline(json + ['\n'] + closing, CloseComment);
    BetweenNewlines(json, CloseComment, rest);
  }

  /** A text that starts with a pattern has its first occurrence at 0. */
  lemma FoundAtStart(pat: string, rest: string)
    ensures IndexOf(pat + rest, pat) == 0
  {
    assert OccursAt(pat + rest, pat, 0) by { assert (pat + rest)[..|pat|] == pat; }
  }

  /** Regrouping of a text between two newlines followed by more. */
  lemma BetweenNewlines(json: string, close: string, rest: string)
    ensures "\n" + json + "\n" + close + rest == ['\n'] + (json + ['\n'] + (close + rest))
  {
  }

  /** `getHiddenData` slices from the end of the first marker to the first `-->` after it. */
  lemma HiddenJsonTextAt(body: string, start: nat, slice: string, tail: string)
    requires |Marker| <= start <= |body| && IndexOf(body, Marker) == start - |Marker|
    requires body[start..] == slice + tail && IndexOf(slice + tail, CloseComment) == |slice|
    ensures HiddenJsonText(body) == Some(slice)
  {
    HiddenJsonTextOf(body, start, slice + tail, |slice|);
    SlicePrefix(body, start, slice, tail);
  }

  /** The first characters of a suffix that splits as `slice + tail` are `slice`. */
  lemma SlicePrefix(body: string, start: nat, slice: string, tail: string)
    requires start <= |body| && body[start..] == slice + tail
    ensures start + |slice| <= |body| && Substring(body, start, start + |slice|) == slice
  {
    assert body[start..start + |slice|] == (slice + tail)[..|slice|];
  }

  /**
   * The block `updateCommentId` writes is the block `getHiddenData` reads:
   * provided the kept text holds no `botsData` and the JSON text no `-->`,
   * the slice read back is the written JSON between two newlines.
   */
  lemma {:induction false} HiddenBlockRoundTrip(text: string, json: string)
    requires !Contains(text, Marker) && !Contains(json, CloseComment)
    ensures HiddenJsonText(text + BlockOpening + json + BlockClosing) == Some("\n" + json + "\n")
  {
    var slice := "\n" + json + "\n";
    var body := text + BlockOpening + json + BlockClosing;
    BlockLayout(text, json);
    MarkerFoundInBlock(text, slice + (CloseComment + Warning));
    CloseFoundAfterJson(json, Warning);
    HiddenJsonTextAt(body, |text| + 6 + |Marker|, slice, CloseComment + Warning);
  }

  /** How a written block splits: the text, the opening comment, the JSON between newlines, the closing. */
  lemma BlockLayout(text: string, json: string)
    ensures var body := text + BlockOpening + json + BlockClosing;
      var remaining := "\n" + json + "\n" + (CloseComment + Warning);
      && body == text + "\n\n<!--" + Marker + remaining
      && |text| + 6 + |Marker| <= |body|
      && body[|text| + 6 + |Marker|..] == remaining
      && "\n" + json + "\n" + CloseComment + Warning == remaining
  {
    var remaining := "\n" + json + "\n" + (CloseComment + Warning);
    var body := text + BlockOpening + json + BlockClosing;
    assert body == text + "\n\n<!--" + Marker + remaining;
    assert body[|text| + 6 + |Marker|..] == remaining;
  }

  /**
   * The comment id a run stores is the one the next run reads: when the JSON
   * written for the updated hidden data holds no `-->` and `parse` reads it
   * back, `getHiddenData` on the updated body yields the updated hidden data,
   * whose `lastCommentId` is the new id.
   */
  lemma CommentIdRoundTrip(issueBody: string, hidden: Json, commentId: Json, stringify: Stringify, parse: Parse)
    requires SizeReport(hidden).Some? && SizeReport(hidden).value.JObject?
    requires !Contains(KeptText(issueBody), Marker)
    requires var h := SetLastCommentId(hidden, commentId).value;
      !Contains(stringify(h), CloseComment) && parse("\n" + stringify(h) + "\n") == Some(h)
    ensures UpdateCommentId(issueBody, hidden, commentId, stringify).Success?
    ensures var (newBody, h) := UpdateCommentId(issueBody, hidden, commentId, stringify).value;
      GetHiddenData(newBody, parse) == Success(h) && LastCommentId(h) == Some(commentId)
  {
    var (newBody, h) := UpdateCommentId(issueBody, hidden, commentId, stringify).value;
    HiddenBlockRoundTrip(KeptText(issueBody), stringify(h));
  }
}
