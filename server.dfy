/**
 * The HTTP front end. A POST carries an event either in structured mode (the
 * Content-Type starts with "application/cloudevents" and the body is the JSON
 * event) or in binary mode (the attributes travel as "ce-" headers and the
 * body is the data). Every other request gets the help page.
 */
module Server {
  import opened Wrappers
  import opened Text
  import opened Json
  import opened Formats
  import opened Validation

  const StatusOK := 200
  const StatusBadRequest := 400

  const NoContentType := "The header 'Content-Type' must be defined"
  const BadHeader := "Bad CloudEvent header.\n"
  const StructuredPrefix := "application/cloudevents"

  /** What is written back: a text, or the static help page (its HTML is not modelled). */
  datatype Body = Plain(text: string) | HelpPage

  datatype Response = Response(status: int, body: Body)

  /** The outcome of decoding a structured-mode body as a JSON object. */
  datatype Decoded = Parsed(doc: Document) | DecodeError(message: string)

  /**
   * An incoming request. verb is the HTTP method; contentType is what Header.Get("Content-Type")
   * returns ("" when absent); body is None when reading it failed; decoded is
   * what the JSON decoder makes of the body.
   */
  datatype Request = Request(
    verb: string,
    contentType: string,
    body: Option<string>,
    headers: map<string, seq<string>>,
    decoded: Decoded)

  // ---------------------------------------------------------------- Binary mode

  /** The attribute a header names: the rest of a "ce-" header (any case), lowered; None for other headers. */
  function CeSuffix(h: string): (r: Option<string>)
    ensures r.Some? <==> HasPrefix(Lower(h), "ce-")
    ensures r.Some? ==> Lower(h) == "ce-" + r.value
  {
    if HasPrefix(Lower(h), "ce-") then
      assert Lower(h) == Lower(h[..3]) + Lower(h[3..]) by { assert h == h[..3] + h[3..]; LowerAppend(h[..3], h[3..]); }
      Some(Lower(h[3..]))
    else None
  }

  /**
   * Only ASCII characters lower to 'c', 'e' and '-', so a "ce-" prefix is three
   * bytes and Go's byte slice h[3:] starts where the model's suffix does.
   */
  lemma CePrefixIsAscii(h: string)
    requires CeSuffix(h).Some?
    ensures h[0] in "cC" && h[1] in "eE" && h[2] == '-'
  {
    assert Lower(h)[..3] == "ce-";
    assert LowerChar(h[0]) == 'c' && LowerChar(h[1]) == 'e' && LowerChar(h[2]) == '-';
  }

  /** The header pass's two products: the document and the bad-header lines. */
  datatype Folded = Folded(doc: Document, bad: string)

  /** Every visited header has a value (Go indexes the first one). */
  predicate HasValues(headers: map<string, seq<string>>, order: seq<string>) {
    forall i :: 0 <= i < |order| ==> order[i] in headers && |headers[order[i]]| > 0
  }

  /**
   * The header pass over the headers in the given order: a bare "ce-" header
   * adds a bad-header line, any other "ce-" header writes its first value
   * under its lowered suffix, and other headers are ignored.
   */
  function FoldHeaders(j: Document, headers: map<string, seq<string>>, order: seq<string>): Folded
    requires HasValues(headers, order)
  {
    if order == [] then Folded(j, "")
    else
      var f := FoldHeaders(j, headers, order[..|order| - 1]);
      var h := order[|order| - 1];
      match CeSuffix(h)
      case None => f
      case Some(n) =>
        if n == "" then Folded(f.doc, f.bad + BadHeader)
        else Folded(f.doc[n := Str(headers[h][0])], f.bad)
  }

  /** The document binary mode starts from: the lowered Content-Type, and the body when it could be read. */
  function BinaryBase(req: Request): (j: Document)
    ensures j.Keys == {"datacontenttype"} + (if req.body.Some? then {"data"} else {})
    ensures j["datacontenttype"] == Str(Lower(req.contentType))
    ensures req.body.Some? ==> j["data"] == Str(req.body.value)
  {
    var j := map["datacontenttype" := Str(Lower(req.contentType))];
    if req.body.Some? then j["data" := Str(req.body.value)] else j
  }

  function BinaryFold(req: Request, order: seq<string>): Folded
    requires HasValues(req.headers, order)
  {
    FoldHeaders(BinaryBase(req), req.headers, order)
  }

  /** A header whose name is "ce-" in any case. */
  predicate IsBare(h: string) {
    CeSuffix(h) == Some("")
  }

  function BadLine(h: string): string {
    if IsBare(h) then BadHeader else ""
  }

  /** Header h writes attribute name (a bare "ce-" header writes nothing). */
  predicate Writes(h: string, name: string) {
    CeSuffix(h) == Some(name) && name != ""
  }

  /** Different "ce-" headers name different attributes (true of canonicalised header names). */
  ghost predicate SuffixesDistinct(headers: map<string, seq<string>>) {
    forall h1, h2 :: h1 in headers && h2 in headers && CeSuffix(h1).Some? && CeSuffix(h1) == CeSuffix(h2) ==> h1 == h2
  }

  lemma FoldPrefix(j: Document, headers: map<string, seq<string>>, order: seq<string>)
    requires HasValues(headers, order) && order != []
    ensures HasValues(headers, order[..|order| - 1])
  {
    assert forall i :: 0 <= i < |order| - 1 ==> order[..|order| - 1][i] == order[i];
  }

  /** One header step adds that header's bad-header line, if any. */
  lemma FoldBadStep(j: Document, headers: map<string, seq<string>>, order: seq<string>)
    requires HasValues(headers, order) && order != []
    ensures HasValues(headers, order[..|order| - 1])
    ensures FoldHeaders(j, headers, order).bad ==
              FoldHeaders(j, headers, order[..|order| - 1]).bad + BadLine(order[|order| - 1])
  {
    FoldPrefix(j, headers, order);
  }

  /** The bad-header lines are one line per bare "ce-" header, in visiting order. */
  lemma {:induction false} FoldBadLines(j: Document, headers: map<string, seq<string>>, order: seq<string>)
    requires HasValues(headers, order)
    ensures FoldHeaders(j, headers, order).bad == Concat(MapSeq(BadLine, order))
  {
    if order != [] {
      var n := |order| - 1;
      FoldBadStep(j, headers, order);
      FoldBadLines(j, headers, order[..n]);
      assert order == order[..n] + [order[n]];
      MapSeqAppend(BadLine, order[..n], [order[n]]);
      ConcatSnoc(MapSeq(BadLine, order[..n]), BadLine(order[n]));
    }
  }

  /** A header that names attribute n leaves its first value under n (when it is the only one naming n). */
  lemma {:induction false} FoldWrites(j: Document, headers: map<string, seq<string>>, order: seq<string>, h: string)
    requires HasValues(headers, order) && SuffixesDistinct(headers)
    requires h in order && CeSuffix(h).Some? && CeSuffix(h).value != ""
    ensures var f := FoldHeaders(j, headers, order);
            CeSuffix(h).value in f.doc && f.doc[CeSuffix(h).value] == Str(headers[h][0])
  {
    var n := |order| - 1;
    var name := CeSuffix(h).value;
    FoldPrefix(j, headers, order);
    if order[n] != h {
      assert h in order[..n] by {
        var i :| 0 <= i < |order| && order[i] == h;
        assert order[..n][i] == h;
      }
      FoldWrites(j, headers, order[..n], h);
      assert order[n] in headers;
      assert CeSuffix(order[n]) != CeSuffix(h);
    }
  }

  /** An attribute no visited header names keeps the value (or absence) it had. */
  lemma {:induction false} FoldKeeps(j: Document, headers: map<string, seq<string>>, order: seq<string>, name: string)
    requires HasValues(headers, order)
    requires forall i :: 0 <= i < |order| ==> !Writes(order[i], name)
    ensures var f := FoldHeaders(j, headers, order);
            (name in f.doc <==> name in j) && (name in j ==> f.doc[name] == j[name])
  {
    if order != [] {
      var n := |order| - 1;
      FoldPrefix(j, headers, order);
      assert forall i :: 0 <= i < n ==> order[..n][i] == order[i];
      FoldKeeps(j, headers, order[..n], name);
    }
  }

  /** Header names only ever add keys: the document holds the base keys and the named attributes. */
  lemma {:induction false} FoldKeys(j: Document, headers: map<string, seq<string>>, order: seq<string>, name: string)
    requires HasValues(headers, order)
    ensures name in FoldHeaders(j, headers, order).doc <==>
              name in j || exists i :: 0 <= i < |order| && Writes(order[i], name)
  {
    if order != [] {
      var n := |order| - 1;
      FoldPrefix(j, headers, order);
      FoldKeys(j, headers, order[..n], name);
      assert forall i :: 0 <= i < n ==> order[..n][i] == order[i];
      if exists i :: 0 <= i < |order| && Writes(order[i], name) {
        var i :| 0 <= i < |order| && Writes(order[i], name);
        if i < n {
          assert order[..n][i] == order[i];
        }
      }
    }
  }

  /** With distinct suffixes the document does not depend on the order the headers are visited in. */
  lemma FoldDocOrderIndependent(j: Document, headers: map<string, seq<string>>, o1: seq<string>, o2: seq<string>)
    requires IsEnumeration(o1, headers.Keys) && IsEnumeration(o2, headers.Keys)
    requires HasValues(headers, o1) && HasValues(headers, o2)
    requires SuffixesDistinct(headers)
    ensures FoldHeaders(j, headers, o1).doc == FoldHeaders(j, headers, o2).doc
  {
    var d1, d2 := FoldHeaders(j, headers, o1).doc, FoldHeaders(j, headers, o2).doc;
    forall name | name in d1 || name in d2
      ensures name in d1 && name in d2 && d1[name] == d2[name]
    {
      if h :| h in headers && Writes(h, name) {
        EnumerationMembers(o1, headers.Keys, h);
        EnumerationMembers(o2, headers.Keys, h);
        FoldWrites(j, headers, o1, h);
        FoldWrites(j, headers, o2, h);
      } else {
        forall i | 0 <= i < |o1| ensures !Writes(o1[i], name) {
          EnumerationMembers(o1, headers.Keys, o1[i]);
        }
        forall i | 0 <= i < |o2| ensures !Writes(o2[i], name) {
          EnumerationMembers(o2, headers.Keys, o2[i]);
        }
        FoldKeys(j, headers, o1, name);
        FoldKeeps(j, headers, o1, name);
        FoldKeeps(j, headers, o2, name);
      }
    }
  }

  /** The bad-header lines are copies of one line, as many as there are bare headers, in any order. */
  lemma BadLinesCount(j: Document, headers: map<string, seq<string>>, o1: seq<string>, o2: seq<string>)
    requires IsEnumeration(o1, headers.Keys) && IsEnumeration(o2, headers.Keys)
    requires HasValues(headers, o1) && HasValues(headers, o2)
    ensures FoldHeaders(j, headers, o1).bad == Repeat(BadHeader, multiset(MapSeq(BadLine, o1))[BadHeader])
    ensures FoldHeaders(j, headers, o1).bad == FoldHeaders(j, headers, o2).bad
  {
    FoldBadLines(j, headers, o1);
    FoldBadLines(j, headers, o2);
    ConcatOfCopies(MapSeq(BadLine, o1), BadHeader);
    ConcatOfCopies(MapSeq(BadLine, o2), BadHeader);
    MapSeqPermutation(BadLine, o1, o2);
  }

  /** There are bad-header lines exactly when some header is a bare "ce-". */
  lemma BadLinesEmpty(j: Document, headers: map<string, seq<string>>, order: seq<string>)
    requires IsEnumeration(order, headers.Keys) && HasValues(headers, order)
    ensures FoldHeaders(j, headers, order).bad == "" <==> forall h :: h in headers ==> !IsBare(h)
  {
    FoldBadLines(j, headers, order);
    ConcatEmpty(MapSeq(BadLine, order));
    forall h | h in headers ensures (exists i :: 0 <= i < |order| && order[i] == h) {
      EnumerationMembers(order, headers.Keys, h);
    }
    forall i | 0 <= i < |order| ensures order[i] in headers {
      EnumerationMembers(order, headers.Keys, order[i]);
    }
  }

  /** Builds the binary-mode document, visiting the headers in Go's unspecified map order. */
  method BuildBinaryDocument(req: Request) returns (j: Document, bad: string)
    requires forall h :: h in req.headers ==> |req.headers[h]| > 0
    ensures exists order :: IsEnumeration(order, req.headers.Keys) && HasValues(req.headers, order)
                         && Folded(j, bad) == BinaryFold(req, order)
  {
    j := map["datacontenttype" := Str(Lower(req.contentType))];
    if req.body.Some? {
      j := j["data" := Str(req.body.value)];
    }
    bad := "";
    ghost var visited: seq<string> := [];
    var remaining := req.headers.Keys;
    while remaining != {}
      invariant remaining <= req.headers.Keys
      invariant multiset(visited) + multiset(remaining) == multiset(req.headers.Keys)
      invariant HasValues(req.headers, visited)
      invariant Folded(j, bad) == BinaryFold(req, visited)
      decreases remaining
    {
      var h :| h in remaining;
      if HasPrefix(Lower(h), "ce-") {
        var n := Lower(h[3..]);
        if |n| == 0 {
          bad := bad + BadHeader;
        } else {
          j := j[n := Str(req.headers[h][0])];
        }
      }
      assert (visited + [h])[..|visited|] == visited;
      assert multiset(remaining) == multiset(remaining - {h}) + multiset{h};
      visited := visited + [h];
      remaining := remaining - {h};
    }
  }

  // ---------------------------------------------------------------- The handler

  /** The status follows the reason: 400 with a reason, 200 (Go's default) without one. */
  function Finish(reason: string): (r: Response)
    ensures r.body == Plain(reason)
    ensures r.status == StatusOK <==> reason == ""
    ensures r.status == StatusOK || r.status == StatusBadRequest
  {
    Response(if reason != "" then StatusBadRequest else StatusOK, Plain(reason))
  }

  predicate IsStructured(req: Request) {
    HasPrefix(Lower(req.contentType), StructuredPrefix)
  }

  /** The document that gets validated: the decoded body in structured mode, the folded headers in binary mode. */
  function ValidatedDoc(req: Request, hOrder: seq<string>): Document
    requires HasValues(req.headers, hOrder)
  {
    if IsStructured(req) then
      (if req.body.Some? && req.decoded.Parsed? then req.decoded.doc else map[])
    else BinaryFold(req, hOrder).doc
  }

  /** A possible visiting order of the headers and of the validated document's keys. */
  ghost predicate Admissible(req: Request, hOrder: seq<string>, kOrder: seq<string>) {
    && IsEnumeration(hOrder, req.headers.Keys)
    && HasValues(req.headers, hOrder)
    && IsEnumeration(kOrder, ValidatedDoc(req, hOrder).Keys)
  }

  /**
   * The response to a request when the headers are visited in hOrder and the
   * validated document's keys in kOrder.
   */
  function Respond(req: Request, hOrder: seq<string>, kOrder: seq<string>): Response
    requires HasValues(req.headers, hOrder)
  {
    if req.verb != "POST" then Response(StatusOK, HelpPage)
    else if Lower(req.contentType) == "" then Response(StatusBadRequest, Plain(NoContentType))
    else if IsStructured(req) then
      if req.body.Some? && req.decoded.DecodeError? then Response(StatusBadRequest, Plain(req.decoded.message))
      else Finish(Report(ValidatedDoc(req, hOrder), kOrder))
    else
      var f := BinaryFold(req, hOrder);
      Finish(f.bad + ReplaceWord(Report(f.doc, kOrder)))
  }

  lemma EnumerationExists(s: set<string>)
    ensures exists o :: IsEnumeration(o, s)
    decreases s
  {
    if s == {} {
      assert IsEnumeration([], s);
    } else {
      var x :| x in s;
      EnumerationExists(s - {x});
      var o :| IsEnumeration(o, s - {x});
      assert multiset(s) == multiset(s - {x}) + multiset{x};
      assert IsEnumeration(o + [x], s);
    }
  }

  method HandleServer(req: Request) returns (resp: Response)
    requires forall h :: h in req.headers ==> |req.headers[h]| > 0
    ensures exists hOrder, kOrder :: Admissible(req, hOrder, kOrder) && resp == Respond(req, hOrder, kOrder)
  {
    // Any header order serves the branches that do not fold the headers.
    EnumerationExists(req.headers.Keys);
    ghost var h0 :| IsEnumeration(h0, req.headers.Keys);
    assert HasValues(req.headers, h0) by {
      forall i | 0 <= i < |h0| ensures h0[i] in req.headers {
        EnumerationMembers(h0, req.headers.Keys, h0[i]);
      }
    }
    EnumerationExists(ValidatedDoc(req, h0).Keys);
    ghost var k0 :| IsEnumeration(k0, ValidatedDoc(req, h0).Keys);
    if req.verb != "POST" {
      resp := Response(StatusOK, HelpPage);
      assert Admissible(req, h0, k0) && resp == Respond(req, h0, k0);
      return;
    }
    var t := Lower(req.contentType);
    if t == "" {
      resp := Response(StatusBadRequest, Plain(NoContentType));
      assert Admissible(req, h0, k0) && resp == Respond(req, h0, k0);
      return;
    }
    if HasPrefix(t, StructuredPrefix) {
      var j: Document := map[];
      if req.body.Some? {
        match req.decoded {
          case DecodeError(msg) =>
            resp := Response(StatusBadRequest, Plain(msg));
            assert Admissible(req, h0, k0) && resp == Respond(req, h0, k0);
            return;
          case Parsed(d) =>
            j := d;
        }
      }
      var reason := VerifyJSON(j);
      ghost var k :| IsEnumeration(k, j.Keys) && reason == Report(j, k);
      resp := Finish(reason);
      assert Admissible(req, h0, k) && resp == Respond(req, h0, k);
    } else {
      var j, bad := BuildBinaryDocument(req);
      ghost var h :| IsEnumeration(h, req.headers.Keys) && HasValues(req.headers, h)
                     && Folded(j, bad) == BinaryFold(req, h);
      var report := VerifyJSON(j);
      ghost var k :| IsEnumeration(k, j.Keys) && report == Report(j, k);
      var reason := bad + ReplaceWord(report);
      resp := Finish(reason);
      assert Admissible(req, h, k) && resp == Respond(req, h, k);
    }
  }

  // ---------------------------------------------------------------- What the handler promises

  /** When the handler answers 200: always off POST, otherwise exactly for a valid event with well-formed headers. */
  ghost predicate Accepted(req: Request, hOrder: seq<string>)
    requires HasValues(req.headers, hOrder)
  {
    || req.verb != "POST"
    || (&& Lower(req.contentType) != ""
        && (if IsStructured(req) then !(req.body.Some? && req.decoded.DecodeError?)
            else forall h :: h in req.headers ==> !IsBare(h))
        && ValidEvent(ValidatedDoc(req, hOrder)))
  }

  /**
   * The status is 200 exactly for accepted requests; it is otherwise 400, and
   * a 200 carries the help page or an empty text.
   */
  lemma RespondStatus(req: Request, hOrder: seq<string>, kOrder: seq<string>)
    requires Admissible(req, hOrder, kOrder)
    ensures var r := Respond(req, hOrder, kOrder);
            && (r.status == StatusOK <==> Accepted(req, hOrder))
            && (r.status == StatusOK || r.status == StatusBadRequest)
            && (r.status == StatusOK ==> r.body == HelpPage || r.body == Plain(""))
  {
    if req.verb == "POST" && Lower(req.contentType) != "" {
      var j := ValidatedDoc(req, hOrder);
      ReportEmptyIff(j, kOrder);
      if !IsStructured(req) {
        BadLinesEmpty(BinaryBase(req), req.headers, hOrder);
        ReplaceWordEmpty(Report(j, kOrder));
      }
    }
  }

  /** Whatever order Go visits the headers and keys in, the status is the same. */
  lemma RespondStatusOrderIndependent(req: Request, h1: seq<string>, k1: seq<string>, h2: seq<string>, k2: seq<string>)
    requires Admissible(req, h1, k1) && Admissible(req, h2, k2)
    requires SuffixesDistinct(req.headers)
    ensures Respond(req, h1, k1).status == Respond(req, h2, k2).status
  {
    FoldDocOrderIndependent(BinaryBase(req), req.headers, h1, h2);
    assert ValidatedDoc(req, h1) == ValidatedDoc(req, h2);
    RespondStatus(req, h1, k1);
    RespondStatus(req, h2, k2);
  }

  /** A required attribute absent in binary mode is reported as a missing HTTP header. */
  lemma MissingHeaderLine(name: string)
    ensures ReplaceWord(Missing(name)) == "HTTP header `" + ReplaceWord(name) + "` is missing.\n"
  {
    NoRNoWord("` is missing.\n");
    RewriteDiagnostic(name, "` is missing.\n");
  }

  /** A null attribute in binary mode is reported as a null HTTP header. */
  lemma NullHeaderLine(name: string)
    ensures ReplaceWord(CannotBeNull(name)) == "HTTP header `" + ReplaceWord(name) + "` cannot be null.\n"
  {
    NoRNoWord("` cannot be null.\n");
    RewriteDiagnostic(name, "` cannot be null.\n");
  }
}
