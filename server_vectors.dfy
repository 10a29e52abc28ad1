/**
 * The request of the repository's server test: a binary-mode POST whose
 * attributes travel as "ce-" headers. Whatever order Go visits the headers
 * and the document's keys in, the handler answers 200.
 */
module ServerVectors {
  import opened Wrappers
  import opened Text
  import opened Json
  import opened Formats
  import opened Checkers
  import opened Schema
  import opened Validation
  import opened Server
  import opened CheckerVectors
  import opened EngineVectors

  /**
   * The test's headers as the handler sees them. Go stores them under
   * canonical names ("Ce-Specversion"); the handler lowers every name, and
   * CeSuffix depends on the lowered name only, so they are written lowered.
   * Long literals are written in parts ("text" + "/" + "json") so that the
   * verifier does not unfold them.
   */
  const TestHeaders: map<string, seq<string>> := map[
    "content-type" := ["text" + "/" + "json"],
    "ce-" + "specversion" := ["0.4"],
    "ce-" + "type" := ["com.example.someevent"],
    "ce-" + "id" := ["A234-1234-1234"],
    "ce-" + "source" := ["/mycontext"],
    "ce-" + "time" := ["2018" + "-04-05T17:31:00" + "Z"],
    "ce-" + "someextension" := ["5"]
  ]

  /** The test request has no body, which reads as the empty string. */
  const TestRequest: Request := Request("POST", "text" + "/" + "json", Some(""), TestHeaders, Parsed(map[]))

  /** CeSuffix looks at the lowered name only. */
  lemma CeSuffixIgnoresCase(h1: string, h2: string)
    requires Lower(h1) == Lower(h2)
    ensures CeSuffix(h1) == CeSuffix(h2)
  {
    if HasPrefix(Lower(h1), "ce-") {
      assert Lower(h1[3..]) == Lower(h1)[3..];
      assert Lower(h2[3..]) == Lower(h2)[3..];
    }
  }

  /** s is its own lowering. */
  predicate NoUpper(s: string) {
    forall c :: c in s ==> LowerChar(c) == c
  }

  lemma LowerUnchanged(s: string)
    requires NoUpper(s)
    ensures Lower(s) == s
  {
    assert forall i :: 0 <= i < |s| ==> s[i] in s;
  }

  /** A name of lowercase letters is its own lowering. */
  lemma LettersNoUpper(s: string)
    requires forall i :: 0 <= i < |s| ==> 'a' <= s[i] <= 'z'
    ensures NoUpper(s)
  {
    forall c | c in s ensures LowerChar(c) == c {
      var i :| 0 <= i < |s| && s[i] == c;
    }
  }

  /** A lowered "ce-" header names the rest of its name. */
  lemma CeSuffixOf(name: string)
    requires NoUpper(name)
    ensures CeSuffix("ce-" + name) == Some(name)
  {
    var h := "ce-" + name;
    assert forall c :: c in h ==> c in "ce-" || c in name;
    LowerUnchanged(h);
    assert h[..3] == "ce-";
    assert h[3..] == name;
    LowerUnchanged(name);
  }

  /** Lowering keeps lowercase parts and turns U+0130 into 'i'. */
  lemma LowerAroundDottedI(a: string, c: string, rest: string)
    requires NoUpper(a) && NoUpper(c)
    ensures Lower(a + "\U{0130}" + c + rest) == a + "i" + c + Lower(rest)
  {
    LowerAppend(a + "\U{0130}" + c, rest);
    LowerAppend(a + "\U{0130}", c);
    LowerAppend(a, "\U{0130}");
    LowerUnchanged(a);
    LowerUnchanged(c);
    assert Lower("\U{0130}") == "i";
  }

  lemma StructuredSpelling()
    ensures "appl" + "i" + "cation/cloudevents" == StructuredPrefix
  {
  }

  lemma StructuredParts()
    ensures NoUpper("appl") && NoUpper("cation/cloudevents")
  {
  }

  /**
   * strings.ToLower maps U+0130 to 'i', so a Content-Type spelled with it still
   * selects structured mode.
   */
  lemma DottedCapitalIStructured(rest: string)
    ensures HasPrefix(Lower("appl" + "\U{0130}" + "cation/cloudevents" + rest), StructuredPrefix)
  {
    StructuredParts();
    LowerAroundDottedI("appl", "cation/cloudevents", rest);
    StructuredSpelling();
    var t := "appl" + "i" + "cation/cloudevents";
    assert (t + Lower(rest))[..|t|] == t;
  }

  /** A name whose second letter is not an 'e' (in any case) is not a "ce-" header. */
  lemma NotCeHeader(h: string)
    requires |h| >= 2 && LowerChar(h[1]) != 'e'
    ensures CeSuffix(h) == None
  {
    assert Lower(h)[1] == LowerChar(h[1]);
  }

  lemma ContentTypeIsNotCe()
    ensures CeSuffix("content-type") == None
  {
    NotCeHeader("content-type");
  }

  /** What each of the test's headers names. */
  lemma TestSuffixes()
    ensures CeSuffix("content-type") == None
    ensures CeSuffix("ce-" + "specversion") == Some("specversion")
    ensures CeSuffix("ce-" + "type") == Some("type")
    ensures CeSuffix("ce-" + "id") == Some("id")
    ensures CeSuffix("ce-" + "source") == Some("source")
    ensures CeSuffix("ce-" + "time") == Some("time")
    ensures CeSuffix("ce-" + "someextension") == Some("someextension")
  {
    ContentTypeIsNotCe();
    LettersNoUpper("specversion");
    CeSuffixOf("specversion");
    LettersNoUpper("type");
    CeSuffixOf("type");
    LettersNoUpper("id");
    CeSuffixOf("id");
    LettersNoUpper("source");
    CeSuffixOf("source");
    LettersNoUpper("time");
    CeSuffixOf("time");
    LettersNoUpper("someextension");
    CeSuffixOf("someextension");
  }

  /** The names the headers write. */
  const Written: seq<string> := ["specversion", "type", "id", "source", "time", "someextension"]

  lemma TestHeaderSuffix(h: string)
    requires h in TestHeaders
    ensures h == "content-type" ==> CeSuffix(h) == None
    ensures h != "content-type" ==> CeSuffix(h) == Some(h[3..]) && h[3..] in Written && h == "ce-" + h[3..]
  {
    TestSuffixes();
  }

  lemma TestSuffixesDistinct()
    ensures SuffixesDistinct(TestHeaders)
  {
    forall h1, h2 | h1 in TestHeaders && h2 in TestHeaders && CeSuffix(h1).Some? && CeSuffix(h1) == CeSuffix(h2)
      ensures h1 == h2
    {
      TestHeaderSuffix(h1);
      TestHeaderSuffix(h2);
    }
  }

  /** A visiting order of the test's headers. */
  predicate HeaderOrder(order: seq<string>) {
    IsEnumeration(order, TestHeaders.Keys) && HasValues(TestHeaders, order)
  }

  /** The document the header pass builds for the test request. */
  function TestDoc(order: seq<string>): Document
    requires HeaderOrder(order)
  {
    BinaryFold(TestRequest, order).doc
  }

  lemma TestBase()
    ensures BinaryBase(TestRequest).Keys == {"datacontenttype", "data"}
    ensures BinaryBase(TestRequest)["datacontenttype"] == Str("text" + "/" + "json")
    ensures BinaryBase(TestRequest)["data"] == Str("")
  {
    LowerUnchanged("text" + "/" + "json");
  }

  /** The header "ce-" + name is the only one that writes name. */
  lemma TestWrite(order: seq<string>, name: string)
    requires HeaderOrder(order) && name != "" && NoUpper(name) && "ce-" + name in TestHeaders
    ensures name in TestDoc(order) && TestDoc(order)[name] == Str(TestHeaders["ce-" + name][0])
  {
    var h := "ce-" + name;
    CeSuffixOf(name);
    EnumerationMembers(order, TestHeaders.Keys, h);
    TestSuffixesDistinct();
    FoldWrites(BinaryBase(TestRequest), TestHeaders, order, h);
  }

  /** No header writes a name outside Written. */
  lemma TestNoWriter(order: seq<string>, name: string)
    requires HeaderOrder(order) && name !in Written
    ensures forall i :: 0 <= i < |order| ==> !Writes(order[i], name)
  {
    forall i | 0 <= i < |order| ensures !Writes(order[i], name) {
      EnumerationMembers(order, TestHeaders.Keys, order[i]);
      TestHeaderSuffix(order[i]);
    }
  }

  lemma TestUnwritten(order: seq<string>, name: string)
    requires HeaderOrder(order) && name !in Written
    ensures name in TestDoc(order) <==> name in BinaryBase(TestRequest)
    ensures name in TestDoc(order) ==> TestDoc(order)[name] == BinaryBase(TestRequest)[name]
  {
    TestNoWriter(order, name);
    FoldKeeps(BinaryBase(TestRequest), TestHeaders, order, name);
  }

  lemma TestValues()
    ensures TestHeaders["ce-" + "specversion"][0] == "0.4"
    ensures TestHeaders["ce-" + "id"][0] == "A234-1234-1234"
    ensures TestHeaders["ce-" + "source"][0] == "/mycontext"
  {
    assert |"ce-" + "specversion"| == 14;
    assert |"ce-" + "id"| == 5;
    assert |"ce-" + "source"| == 9;
  }

  /** "ce-type" and "ce-time" have the same length and differ at their fifth character. */
  lemma TypeAndTimeValues()
    ensures TestHeaders["ce-" + "type"][0] == "com.example.someevent"
    ensures TestHeaders["ce-" + "time"][0] == "2018" + "-04-05T17:31:00" + "Z"
  {
    assert |"ce-" + "type"| == |"ce-" + "time"| == 7;
    assert ("ce-" + "type")[4] == 'y';
    assert ("ce-" + "time")[4] == 'i';
  }

  lemma TestIdValue(order: seq<string>)
    requires HeaderOrder(order)
    ensures "id" in TestDoc(order) && TestDoc(order)["id"] == Str("A234-1234-1234")
  {
    TestValues();
    assert "ce-" + "id" in TestHeaders;
    TestWrite(order, "id");
  }

  lemma TestSourceValue(order: seq<string>)
    requires HeaderOrder(order)
    ensures "source" in TestDoc(order) && TestDoc(order)["source"] == Str("/mycontext")
  {
    TestValues();
    assert "ce-" + "source" in TestHeaders;
    TestWrite(order, "source");
  }

  lemma TestSpecversionValue(order: seq<string>)
    requires HeaderOrder(order)
    ensures "specversion" in TestDoc(order) && TestDoc(order)["specversion"] == Str("0.4")
  {
    TestValues();
    assert "ce-" + "specversion" in TestHeaders;
    TestWrite(order, "specversion");
  }

  lemma TestTypeValue(order: seq<string>)
    requires HeaderOrder(order)
    ensures "type" in TestDoc(order) && TestDoc(order)["type"] == Str("com.example.someevent")
  {
    TypeAndTimeValues();
    assert "ce-" + "type" in TestHeaders;
    TestWrite(order, "type");
  }

  lemma TestTimeValue(order: seq<string>)
    requires HeaderOrder(order)
    ensures "time" in TestDoc(order) && TestDoc(order)["time"] == Str("2018" + "-04-05T17:31:00" + "Z")
  {
    TypeAndTimeValues();
    assert "ce-" + "time" in TestHeaders;
    TestWrite(order, "time");
  }

  /** The attributes the headers carry. */
  lemma TestPresent(order: seq<string>)
    requires HeaderOrder(order)
    ensures var d := TestDoc(order);
            && "id" in d && d["id"] == Str("A234-1234-1234")
            && "source" in d && d["source"] == Str("/mycontext")
            && "specversion" in d && d["specversion"] == Str("0.4")
            && "type" in d && d["type"] == Str("com.example.someevent")
            && "time" in d && d["time"] == Str("2018" + "-04-05T17:31:00" + "Z")
  {
    TestIdValue(order);
    TestSourceValue(order);
    TestSpecversionValue(order);
    TestTypeValue(order);
    TestTimeValue(order);
  }

  /** The optional attributes no header carries are absent. */
  lemma TestAbsent(order: seq<string>)
    requires HeaderOrder(order)
    ensures var d := TestDoc(order);
            "datacontentencoding" !in d && "schemaurl" !in d && "subject" !in d
  {
    TestBase();
    TestUnwritten(order, "datacontentencoding");
    TestUnwritten(order, "schemaurl");
    TestUnwritten(order, "subject");
  }

  /** The content type comes from the base document: no header overwrites it. */
  lemma TestContentTypeValue(order: seq<string>)
    requires HeaderOrder(order)
    ensures var d := TestDoc(order);
            "datacontenttype" in d && d["datacontenttype"] == Str("text" + "/" + "json")
  {
    TestBase();
    TestUnwritten(order, "datacontenttype");
  }

  lemma TestSource()
    ensures Accepts(UriCheck, Str("/mycontext"))
  {
    UriCharsOf("/mycontext");
  }

  lemma TestTime()
    ensures Accepts(TimestampCheck, Str("2018" + "-04-05T17:31:00" + "Z"))
  {
    TimestampOfFields("2018", "-04-05T17:31:00", "Z");
  }

  lemma TestContentType()
    ensures Accepts(MediaTypeCheck, Str("text" + "/" + "json"))
  {
    MediaTypeOf(8, "json");
  }

  lemma TestRules(order: seq<string>)
    requires HeaderOrder(order)
    ensures RulesHold(Attributes, TestDoc(order))
  {
    var d := TestDoc(order);
    TestPresent(order);
    TestAbsent(order);
    TestContentTypeValue(order);
    TestSource();
    TestTime();
    TestContentType();
    TableConditionsIff(d);
  }

  lemma TestKeys(order: seq<string>)
    requires HeaderOrder(order)
    ensures forall k :: k in TestDoc(order) ==> AllLowerAlnum(k)
  {
    TestBase();
    forall k | k in TestDoc(order) ensures AllLowerAlnum(k) {
      FoldKeys(BinaryBase(TestRequest), TestHeaders, order, k);
      if k !in BinaryBase(TestRequest) {
        var i :| 0 <= i < |order| && Writes(order[i], k);
        EnumerationMembers(order, TestHeaders.Keys, order[i]);
        TestHeaderSuffix(order[i]);
      }
      WrittenNames();
      LowerAlnumOf("datacontenttype");
      LowerAlnumOf("data");
    }
  }

  lemma WrittenNames()
    ensures forall n :: n in Written ==> AllLowerAlnum(n)
  {
    LowerAlnumOf("specversion");
    LowerAlnumOf("type");
    LowerAlnumOf("id");
    LowerAlnumOf("source");
    LowerAlnumOf("time");
    LowerAlnumOf("someextension");
  }

  /** No header of the test is a bare "ce-". */
  lemma TestNoBare()
    ensures forall h :: h in TestHeaders ==> !IsBare(h)
  {
    forall h | h in TestHeaders ensures !IsBare(h) {
      TestHeaderSuffix(h);
    }
  }

  /** The test request is one the handler accepts, in every header order. */
  lemma TestAccepted(hOrder: seq<string>)
    requires HeaderOrder(hOrder)
    ensures Accepted(TestRequest, hOrder)
  {
    TestRules(hOrder);
    TestKeys(hOrder);
    TestNoBare();
    assert !IsStructured(TestRequest) by {
      assert |Lower(TestRequest.contentType)| == 9;
    }
  }

  /** The server test: the handler answers 200 to the test request, whatever order it visits headers and keys in. */
  lemma TestRequestAccepted(hOrder: seq<string>, kOrder: seq<string>)
    requires Admissible(TestRequest, hOrder, kOrder)
    ensures Respond(TestRequest, hOrder, kOrder).status == StatusOK
  {
    TestAccepted(hOrder);
    RespondStatus(TestRequest, hOrder, kOrder);
  }
}
