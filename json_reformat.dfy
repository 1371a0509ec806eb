/**
 * The reformatter of the TCP server: `WriteFormattedJson` copies a parsed JSON tree, rewriting
 * every object property named "Timestamp" (case ignored) whose value is a date string, and
 * `FormatJson` chains parsing, that copy, serialisation and `DecodeUnicodeEscape`, falling back
 * to the raw input whenever one of them throws.
 *
 * The JSON library itself is not modelled: parsing, serialisation and date handling are the
 * three functions of a `JsonLibrary` value.
 */
module JsonReformat {
  import opened Wrappers
  import UnicodeEscape

  /**
   * A parsed JSON value. Object properties keep their order and duplicates, as
   * `EnumerateObject` does; `JRaw` holds a number, `true`, `false` or `null` verbatim.
   */
  datatype Json =
    | JObject(properties: seq<Property>)
    | JArray(items: seq<Json>)
    | JString(text: string)
    | JRaw(literal: string)

  datatype Property = Property(name: string, value: Json)

  /**
   * The library calls the reformatter depends on. `parse` is `JsonDocument.Parse` (`None`: it
   * throws), `write` is serialisation through the default `Utf8JsonWriter` (`None`: it throws),
   * and `parseDate` is `DateTime.TryParse` followed by `ToLocalTime` and the
   * "yyyy-MM-dd HH:mm:ss" format (`None`: the parse fails).
   */
  datatype JsonLibrary = JsonLibrary(
    parse: string -> Option<Json>,
    write: Json -> Option<string>,
    parseDate: string -> Option<string>)

  function ToLowerAscii(c: char): char {
    if 'A' <= c <= 'Z' then (c as int - 'A' as int + 'a' as int) as char else c
  }

  /** `s` with every ASCII capital folded to lower case. */
  function LowerAscii(s: string): (l: string)
    ensures |l| == |s| && forall i :: 0 <= i < |s| ==> l[i] == ToLowerAscii(s[i])
  {
    seq(|s|, i requires 0 <= i < |s| => ToLowerAscii(s[i]))
  }

  /** `name.Equals("Timestamp", StringComparison.OrdinalIgnoreCase)`, with ASCII case folding. */
  predicate IsTimestampName(name: string)
    ensures IsTimestampName(name) <==> LowerAscii(name) == "timestamp"
  {
    assert LowerAscii(name) == "timestamp" ==> forall i :: 0 <= i < 9 ==> LowerAscii(name)[i] == "timestamp"[i];
    |name| == 9 && forall i :: 0 <= i < 9 ==> ToLowerAscii(name[i]) == "timestamp"[i]
  }

  /** The formatted date that replaces the value of `p`, if the rewriting rule applies to it. */
  function TimestampReplacement(p: Property, parseDate: string -> Option<string>): (r: Option<string>)
    ensures r.Some? <==> IsTimestampName(p.name) && p.value.JString? && parseDate(p.value.text).Some?
    ensures r.Some? ==> r == parseDate(p.value.text)
  {
    if IsTimestampName(p.name) && p.value.JString? then parseDate(p.value.text) else None
  }

  /**
   * `WriteFormattedJson`: the tree it writes. Reformatting keeps the shape: an object stays an object with the same
   * property names in the same order (duplicates included), an array keeps its length and order,
   * and any other value is copied verbatim.
   */
  function Reformat(j: Json, parseDate: string -> Option<string>): (r: Json)
    ensures j.JObject? <==> r.JObject?
    ensures j.JArray? <==> r.JArray?
    ensures j.JObject? ==>
      && |r.properties| == |j.properties|
      && forall i :: 0 <= i < |j.properties| ==> r.properties[i].name == j.properties[i].name
    ensures j.JArray? ==>
      && |r.items| == |j.items|
      && forall i :: 0 <= i < |j.items| ==> r.items[i] == Reformat(j.items[i], parseDate)
    ensures !j.JObject? && !j.JArray? ==> r == j
  {
    match j
    case JObject(props) =>
      JObject(seq(|props|, i requires 0 <= i < |props| =>
        Property(props[i].name,
          match TimestampReplacement(props[i], parseDate)
          case Some(formatted) => JString(formatted)
          case None => Reformat(props[i].value, parseDate))))
    case JArray(items) =>
      JArray(seq(|items|, i requires 0 <= i < |items| => Reformat(items[i], parseDate)))
    case _ => j
  }

  /**
   * The rewriting rule for the property at index `i` of an object: the value becomes the
   * formatted date exactly when the name is "Timestamp" ignoring case, the value is a string
   * and the date parse succeeds; otherwise the value is itself reformatted.
   */
  lemma ReformatPropertyRule(j: Json, parseDate: string -> Option<string>, i: nat)
    requires j.JObject? && i < |j.properties|
    ensures var p, q := j.properties[i], Reformat(j, parseDate).properties[i];
      && q.name == p.name
      && (IsTimestampName(p.name) && p.value.JString? && parseDate(p.value.text).Some? ==>
            q.value == JString(parseDate(p.value.text).value))
      && (!IsTimestampName(p.name) || !p.value.JString? || parseDate(p.value.text).None? ==>
            q.value == Reformat(p.value, parseDate))
  {
  }

  /** `j` holds, at any depth, a property that the rewriting rule applies to. */
  predicate HasParsableTimestamp(j: Json, parseDate: string -> Option<string>) {
    match j
    case JObject(props) =>
      exists i :: 0 <= i < |props| &&
        (TimestampReplacement(props[i], parseDate).Some? || HasParsableTimestamp(props[i].value, parseDate))
    case JArray(items) =>
      exists i :: 0 <= i < |items| && HasParsableTimestamp(items[i], parseDate)
    case _ => false
  }

  /** Without a parsable Timestamp property anywhere, reformatting changes nothing. */
  lemma {:induction false} ReformatWithoutTimestampIsIdentity(j: Json, parseDate: string -> Option<string>)
    requires !HasParsableTimestamp(j, parseDate)
    ensures Reformat(j, parseDate) == j
  {
    match j
    case JObject(props) =>
      var r := Reformat(j, parseDate).properties;
      forall i | 0 <= i < |props| ensures r[i] == props[i] {
        assert TimestampReplacement(props[i], parseDate).None?;
        ReformatWithoutTimestampIsIdentity(props[i].value, parseDate);
      }
      assert r == props;
    case JArray(items) =>
      var r := Reformat(j, parseDate).items;
      forall i | 0 <= i < |items| ensures r[i] == items[i] {
        ReformatWithoutTimestampIsIdentity(items[i], parseDate);
      }
      assert r == items;
    case _ =>
  }

  /** `j` with the value of every Timestamp property holding a string blanked out. */
  function EraseTimestamps(j: Json): Json {
    match j
    case JObject(props) =>
      JObject(seq(|props|, i requires 0 <= i < |props| =>
        Property(props[i].name,
          if IsTimestampName(props[i].name) && props[i].value.JString? then JString("")
          else EraseTimestamps(props[i].value))))
    case JArray(items) =>
      JArray(seq(|items|, i requires 0 <= i < |items| => EraseTimestamps(items[i])))
    case _ => j
  }

  /**
   * Nothing but Timestamp strings changes: once those are blanked out, the reformatted tree and
   * the original are equal, at every depth.
   */
  lemma {:induction false} ReformatChangesOnlyTimestamps(j: Json, parseDate: string -> Option<string>)
    ensures EraseTimestamps(Reformat(j, parseDate)) == EraseTimestamps(j)
  {
    match j
    case JObject(props) =>
      var r := Reformat(j, parseDate).properties;
      var a, b := EraseTimestamps(Reformat(j, parseDate)).properties, EraseTimestamps(j).properties;
      assert |a| == |b|;
      forall i | 0 <= i < |props| ensures a[i] == b[i] {
        if !(IsTimestampName(props[i].name) && props[i].value.JString?) {
          assert TimestampReplacement(props[i], parseDate).None?;
          ReformatChangesOnlyTimestamps(props[i].value, parseDate);
        } else {
          match TimestampReplacement(props[i], parseDate)
          case Some(formatted) =>
            assert r[i] == Property(props[i].name, JString(formatted));
          case None =>
            assert r[i] == Property(props[i].name, Reformat(props[i].value, parseDate));
            assert Reformat(props[i].value, parseDate) == props[i].value;
        }
      }
      assert a == b;
    case JArray(items) =>
      var a, b := EraseTimestamps(Reformat(j, parseDate)).items, EraseTimestamps(j).items;
      forall i | 0 <= i < |items| ensures a[i] == b[i] {
        ReformatChangesOnlyTimestamps(items[i], parseDate);
      }
      assert a == b;
    case _ =>
  }

  /** The value reached from `j` by following object-property and array-item indices. */
  function Subtree(j: Json, path: seq<nat>): Option<Json>
    decreases |path|
  {
    if path == [] then Some(j)
    else match j
      case JObject(props) => if path[0] < |props| then Subtree(props[path[0]].value, path[1..]) else None
      case JArray(items) => if path[0] < |items| then Subtree(items[path[0]], path[1..]) else None
      case _ => None
  }

  predicate IsContainer(j: Json) {
    j.JObject? || j.JArray?
  }

  /** Only a container has a subtree below it. */
  lemma SubtreeBelowLeaf(j: Json, path: seq<nat>)
    requires path != [] && !IsContainer(j)
    ensures Subtree(j, path) == None
  {
  }

  /**
   * Reformatting is applied at every depth: the object or array found at some path of `j` is
   * found, reformatted, at the same path of the reformatted tree.
   */
  lemma {:induction false} ReformatAtEveryDepth(j: Json, path: seq<nat>, parseDate: string -> Option<string>)
    requires Subtree(j, path).Some? && IsContainer(Subtree(j, path).value)
    ensures Subtree(Reformat(j, parseDate), path) == Some(Reformat(Subtree(j, path).value, parseDate))
    decreases |path|
  {
    if path != [] {
      var k, rest := path[0], path[1..];
      match j
      case JObject(props) =>
        var v := props[k].value;
        if !IsContainer(v) {
          if rest != [] { SubtreeBelowLeaf(v, rest); }
        }
        assert TimestampReplacement(props[k], parseDate).None?;
        ReformatAtEveryDepth(v, rest, parseDate);
      case JArray(items) =>
        ReformatAtEveryDepth(items[k], rest, parseDate);
      case _ =>
        SubtreeBelowLeaf(j, path);
    }
  }

  /**
   * The rule holds in nested objects too: a Timestamp string that parses, inside an object at
   * any path, is replaced by its formatted date at the same place of the reformatted tree.
   */
  lemma NestedTimestampIsRewritten(j: Json, path: seq<nat>, i: nat, parseDate: string -> Option<string>)
    requires Subtree(j, path).Some? && Subtree(j, path).value.JObject?
    requires i < |Subtree(j, path).value.properties|
    requires TimestampReplacement(Subtree(j, path).value.properties[i], parseDate).Some?
    ensures var r := Subtree(Reformat(j, parseDate), path);
      && r.Some? && r.value.JObject? && i < |r.value.properties|
      && r.value.properties[i] ==
           Property(Subtree(j, path).value.properties[i].name,
             JString(TimestampReplacement(Subtree(j, path).value.properties[i], parseDate).value))
  {
    ReformatAtEveryDepth(j, path, parseDate);
  }

  /**
   * The result of the `try` block of `FormatJson`: parse, reformat, serialise and decode the
   * escapes; `None` when one of the steps throws.
   */
  function FormatPipeline(json: string, lib: JsonLibrary): (r: Option<string>)
    ensures r.Some? <==>
      (lib.parse(json).Some? && lib.write(Reformat(lib.parse(json).value, lib.parseDate)).Some? &&
       UnicodeEscape.DecodeUnicodeEscape(lib.write(Reformat(lib.parse(json).value, lib.parseDate)).value).Some?)
    ensures r.Some? ==>
      r == UnicodeEscape.DecodeUnicodeEscape(lib.write(Reformat(lib.parse(json).value, lib.parseDate)).value)
  {
    match lib.parse(json)
    case None => None
    case Some(doc) =>
      match lib.write(Reformat(doc, lib.parseDate))
      case None => None
      case Some(text) => UnicodeEscape.DecodeUnicodeEscape(text)
  }

  /**
   * `FormatJson`: the output differs from the input only when every step succeeded, and once
   * every step succeeded it is the serialised, reformatted document with its escapes decoded.
   */
  function FormatJson(json: string, lib: JsonLibrary): (r: string)
    ensures r == json ||
      (lib.parse(json).Some? &&
       lib.write(Reformat(lib.parse(json).value, lib.parseDate)).Some? &&
       UnicodeEscape.DecodeUnicodeEscape(lib.write(Reformat(lib.parse(json).value, lib.parseDate)).value) == Some(r))
    ensures forall doc, text, decoded ::
      (lib.parse(json) == Some(doc) && lib.write(Reformat(doc, lib.parseDate)) == Some(text) &&
       UnicodeEscape.DecodeUnicodeEscape(text) == Some(decoded)) ==> r == decoded
  {
    FormatPipeline(json, lib).GetOr(json)
  }

  /** The input is returned whenever parsing, writing or escape decoding throws. */
  lemma FormatJsonFallsBack(json: string, lib: JsonLibrary)
    ensures lib.parse(json).None? ==> FormatJson(json, lib) == json
    ensures forall doc ::
      (lib.parse(json) == Some(doc) && lib.write(Reformat(doc, lib.parseDate)).None?) ==> FormatJson(json, lib) == json
    ensures forall doc, text ::
      (lib.parse(json) == Some(doc) && lib.write(Reformat(doc, lib.parseDate)) == Some(text) &&
       UnicodeEscape.DecodeUnicodeEscape(text).None?) ==> FormatJson(json, lib) == json
  {
  }

  /** Serialised text without escapes is returned as written. */
  lemma FormatJsonKeepsPlainOutput(json: string, lib: JsonLibrary, doc: Json, text: string)
    requires lib.parse(json) == Some(doc) && lib.write(Reformat(doc, lib.parseDate)) == Some(text)
    requires UnicodeEscape.NoEscapes(text)
    ensures FormatJson(json, lib) == text
  {
    UnicodeEscape.DecodeWithoutEscapes(text);
  }

  /**
   * Characters the writer escaped come out literally: when the serialised text is some text
   * `t` with the characters `escape` selects written as `\uXXXX`, and no unescaped backslash of
   * `t` is followed by a `u`, the result is `t` itself.
   */
  lemma FormatJsonDecodesWriterEscapes(json: string, lib: JsonLibrary, doc: Json, t: string, escape: char -> bool)
    requires UnicodeEscape.PlainBackslashes(t, escape)
    requires forall i :: 0 <= i < |t| && escape(t[i]) ==> t[i] as int < 0x1_0000
    requires lib.parse(json) == Some(doc)
    requires lib.write(Reformat(doc, lib.parseDate)) == Some(UnicodeEscape.EscapeText(t, escape))
    ensures FormatJson(json, lib) == t
  {
    UnicodeEscape.DecodeUndoesEscaping(t, escape);
  }

  /**
   * A surrogate escape (as a writer produces for a character outside the Basic Multilingual
   * Plane) that the scan reaches makes `FormatJson` return its input unformatted.
   */
  lemma FormatJsonFallsBackOnSurrogate(json: string, lib: JsonLibrary, doc: Json, prefix: string, rest: string)
    requires forall i :: 0 <= i < |prefix| ==> prefix[i] != '\\'
    requires UnicodeEscape.EscapeAt(rest, 0) && UnicodeEscape.IsSurrogate(UnicodeEscape.CodeAt(rest, 0))
    requires lib.parse(json) == Some(doc)
    requires lib.write(Reformat(doc, lib.parseDate)) == Some(prefix + rest)
    ensures FormatJson(json, lib) == json
  {
    UnicodeEscape.DecodeFailsOnSurrogateAfterPlainText(prefix, rest);
  }
}
