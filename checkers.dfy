/**
 * The attribute checkers. Each maps (document, attribute name) to a
 * diagnostic, "" meaning valid. A checker first compares the reflected type
 * name of the value with the one it expects, and only looks at the format
 * once the type matches.
 */
module Checkers {
  import opened Text
  import opened Json
  import opened Formats

  /** The closed set of checkers an attribute rule can name. */
  datatype CheckerKind = StringCheck | UriCheck | TimestampCheck | EncodingCheck | MediaTypeCheck | MapCheck

  /**
   * The checkers are only defined on a present, non-null value: Go would panic
   * on reflect.TypeOf(nil).String(). The validation engine never calls them otherwise.
   */
  predicate Present(j: Document, v: string) {
    v in j && !j[v].Null?
  }

  // ---------------------------------------------------------------- Diagnostics (exact texts)

  function NotOfType(v: string, t: string, c: string): string {
    "Attribute `" + v + "` is not of type " + t + " (is currently of type " + c + ")"
  }

  function EmptyString(v: string): string {
    "Attribute `" + v + "` cannot be an empty string\n"
  }

  function NotUriType(v: string, c: string): string {
    "Attribute `" + v + "` is not of type URI (is currently of type " + c + ")\n"
  }

  function EmptyUri(v: string): string {
    "Attribute `" + v + "` cannot be empty\n"
  }

  function IllegalUriChar(v: string, ch: char): string {
    "Attribute `" + v + "` is not a valid URI (contains illegal character '" + [ch] + "')"
  }

  function NotTimestampType(v: string, c: string): string {
    "Attribute `" + v + "` is not of type Timestamp (is currently of type " + c + ")\n"
  }

  function BadTimestamp(v: string): string {
    "Attribute `" + v + "` is not a valid Timestamp"
  }

  function BadEncoding(v: string): string {
    "Attribute `" + v + "` is not a valid encoding type"
  }

  function BadMediaType(v: string): string {
    "Attribute `" + v + "` is not a valid media type\n"
  }

  function EmptyMap(v: string): string {
    "Attribute `" + v + "` must contain at least one entry\n"
  }

  // ---------------------------------------------------------------- The checkers

  /** The type gate: "" exactly when the reflected type name is t; otherwise the observed type is reported. */
  function CheckVar(j: Document, v: string, t: string): (r: string)
    requires Present(j, v)
    ensures r == "" <==> TypeName(j[v]) == t
    ensures r != "" ==> r == NotOfType(v, t, TypeName(j[v]))
  {
    var c := TypeName(j[v]);
    if c != t then NotOfType(v, t, c) else ""
  }

  function CheckString(j: Document, v: string): (r: string)
    requires Present(j, v)
    ensures r == "" <==> j[v].Str? && j[v].s != ""
    ensures !j[v].Str? ==> r == NotOfType(v, "string", TypeName(j[v]))
    ensures j[v] == Str("") ==> r == EmptyString(v)
  {
    var res := CheckVar(j, v, "string");
    if res == "" && |j[v].s| == 0 then EmptyString(v) else res
  }

  /** What the URI scan reports; CheckURI is the loop that computes it. */
  function UriDiagnostic(j: Document, v: string): (r: string)
    requires Present(j, v)
    ensures r == "" <==> j[v].Str? && j[v].s != "" && AllUriChars(j[v].s)
    ensures !j[v].Str? ==> r == NotUriType(v, TypeName(j[v]))
    ensures j[v] == Str("") ==> r == EmptyUri(v)
    ensures j[v].Str? && j[v].s != "" && !AllUriChars(j[v].s) ==>
              exists i :: 0 <= i < |j[v].s| && !IsUriChar(j[v].s[i])
                       && (forall k :: 0 <= k < i ==> IsUriChar(j[v].s[k]))
                       && r == IllegalUriChar(v, j[v].s[i])
  {
    var t := TypeName(j[v]);
    if t != "string" then NotUriType(v, t)
    else if |j[v].s| == 0 then EmptyUri(v)
    else
      var n := FirstIllegalFrom(j[v].s, 0);
      if n == |j[v].s| then "" else IllegalUriChar(v, j[v].s[n])
  }

  /** The scan of CheckURI: the index of the first illegal character, |uri| if there is none. */
  method ScanUri(uri: string) returns (n: nat)
    ensures n == FirstIllegalFrom(uri, 0)
  {
    var i := 0;
    while i < |uri|
      invariant 0 <= i <= |uri|
      invariant forall k :: 0 <= k < i ==> IsUriChar(uri[k])
    {
      if !IsUriChar(uri[i]) {
        assert FirstIllegalFrom(uri, 0) == i;
        return i;
      }
      i := i + 1;
    }
    assert FirstIllegalFrom(uri, 0) == |uri|;
    return |uri|;
  }

  method CheckURI(j: Document, v: string) returns (r: string)
    requires Present(j, v)
    ensures r == UriDiagnostic(j, v)
  {
    var t := TypeName(j[v]);
    if t != "string" {
      return NotUriType(v, t);
    }
    if |j[v].s| == 0 {
      return EmptyUri(v);
    }
    var n := ScanUri(j[v].s);
    if n < |j[v].s| {
      return IllegalUriChar(v, j[v].s[n]);
    }
    return "";
  }

  function CheckTimestamp(j: Document, v: string): (r: string)
    requires Present(j, v)
    ensures r == "" <==> j[v].Str? && MatchesTimestamp(j[v].s)
    ensures !j[v].Str? ==> r == NotTimestampType(v, TypeName(j[v]))
    ensures j[v].Str? && !MatchesTimestamp(j[v].s) ==> r == BadTimestamp(v)
  {
    var t := TypeName(j[v]);
    if t != "string" then NotTimestampType(v, t)
    else
      IsTimestampIff(j[v].s);
      if !IsTimestamp(j[v].s) then BadTimestamp(v) else ""
  }

  function CheckEncoding(j: Document, v: string): (r: string)
    requires Present(j, v)
    ensures r == "" <==> j[v].Str? && j[v].s != "" && ContainsEncodingToken(j[v].s)
    ensures !j[v].Str? || j[v].s == "" ==> r == CheckString(j, v)
    ensures j[v].Str? && j[v].s != "" && !ContainsEncodingToken(j[v].s) ==> r == BadEncoding(v)
  {
    var res := CheckString(j, v);
    if res == "" && !EncodingFrom(j[v].s, 0) then BadEncoding(v) else res
  }

  function CheckMediaType(j: Document, v: string): (r: string)
    requires Present(j, v)
    ensures r == "" <==> j[v].Str? && j[v].s != "" && ContainsMediaType(j[v].s)
    ensures !j[v].Str? || j[v].s == "" ==> r == CheckString(j, v)
    ensures j[v].Str? && j[v].s != "" && !ContainsMediaType(j[v].s) ==> r == BadMediaType(v)
  {
    var res := CheckString(j, v);
    if res == "" && !MediaTypeFrom(j[v].s, 0) then BadMediaType(v) else res
  }

  function CheckMap(j: Document, v: string): (r: string)
    requires Present(j, v)
    ensures r == "" <==> j[v].Obj? && |j[v].fields| > 0
    ensures !j[v].Obj? ==> r == NotOfType(v, "map[string]interface {}", TypeName(j[v]))
    ensures j[v] == Obj(map[]) ==> r == EmptyMap(v)
  {
    var res := CheckVar(j, v, "map[string]interface {}");
    if res == "" && |j[v].fields| == 0 then EmptyMap(v) else res
  }

  // ---------------------------------------------------------------- Dispatch

  /** What each checker accepts, stated on the value alone. */
  ghost predicate Accepts(kind: CheckerKind, x: Value) {
    match kind
    case StringCheck => x.Str? && x.s != ""
    case UriCheck => x.Str? && x.s != "" && AllUriChars(x.s)
    case TimestampCheck => x.Str? && MatchesTimestamp(x.s)
    case EncodingCheck => x.Str? && x.s != "" && ContainsEncodingToken(x.s)
    case MediaTypeCheck => x.Str? && x.s != "" && ContainsMediaType(x.s)
    case MapCheck => x.Obj? && |x.fields| > 0
  }

  /** The checker a rule names, applied to the document. */
  function Check(kind: CheckerKind, j: Document, v: string): (r: string)
    requires Present(j, v)
    ensures r == "" <==> Accepts(kind, j[v])
  {
    match kind
    case StringCheck => CheckString(j, v)
    case UriCheck => UriDiagnostic(j, v)
    case TimestampCheck => CheckTimestamp(j, v)
    case EncodingCheck => CheckEncoding(j, v)
    case MediaTypeCheck => CheckMediaType(j, v)
    case MapCheck => CheckMap(j, v)
  }

  /** Calls the checker a rule names (the URI one is a loop). */
  method RunCheck(kind: CheckerKind, j: Document, v: string) returns (r: string)
    requires Present(j, v)
    ensures r == Check(kind, j, v)
  {
    match kind {
      case StringCheck => r := CheckString(j, v);
      case UriCheck => r := CheckURI(j, v);
      case TimestampCheck => r := CheckTimestamp(j, v);
      case EncodingCheck => r := CheckEncoding(j, v);
      case MediaTypeCheck => r := CheckMediaType(j, v);
      case MapCheck => r := CheckMap(j, v);
    }
  }
}

/** The attribute rule table of the event format this validator implements. */
module Schema {
  import opened Checkers

  datatype Attribute = Attribute(name: string, required: bool, check: CheckerKind)

  const Attributes: seq<Attribute> := [
    Attribute("id", true, StringCheck),
    Attribute("source", true, UriCheck),
    Attribute("specversion", true, StringCheck),
    Attribute("type", true, StringCheck),
    Attribute("datacontentencoding", false, EncodingCheck),
    Attribute("datacontenttype", false, MediaTypeCheck),
    Attribute("schemaurl", false, UriCheck),
    Attribute("subject", false, StringCheck),
    Attribute("time", false, TimestampCheck)
  ]
}
