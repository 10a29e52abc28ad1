/**
 * The event the repository's engine test is built around, and what the model
 * says about it: it is valid, it stays valid without any one optional
 * attribute, and it becomes invalid without any one required attribute.
 */
module EngineVectors {
  import opened Json
  import opened Formats
  import opened Checkers
  import opened Schema
  import opened Validation
  import opened CheckerVectors

  /**
   * The test's base event. Literals with a fixed structure are written in their
   * parts ("text" + "/" + "xml") so that the verifier does not unfold them.
   */
  const BaseEvent: Document := map[
    "specversion" := Str("0.4-wip"),
    "type" := Str("com.github.pull.create"),
    "source" := Str("https://github.com/cloudevents/spec/pull"),
    "subject" := Str("123"),
    "id" := Str("A234-1234-1234"),
    "time" := Str("2018" + "-04-05T17:31:00" + "Z"),
    "comexampleextension1" := Str("value"),
    "comexampleextension2" := Obj(map["othervalue" := Num(5.0)]),
    "datacontenttype" := Str("text" + "/" + "xml"),
    "data" := Str("<much wow=\"xml\"/>")
  ]

  /** A text whose characters are all URI characters. */
  lemma UriCharsOf(s: string)
    requires forall c :: c in s ==> IsUriChar(c)
    ensures AllUriChars(s)
  {
    assert forall i :: 0 <= i < |s| ==> s[i] in s;
  }

  lemma LowerAlnumOf(s: string)
    requires forall c :: c in s ==> IsLowerAlnum(c)
    ensures AllLowerAlnum(s)
  {
    assert forall i :: 0 <= i < |s| ==> s[i] in s;
  }

  lemma SourceChars()
    ensures AllUriChars("https://github.com/cloudevents/spec/pull")
  {
    UriCharsOf("https://github.com/cloudevents/spec/pull");
  }

  lemma SourceValue()
    ensures BaseEvent["source"] == Str("https://github.com/cloudevents/spec/pull")
  {
  }

  lemma BaseSource()
    ensures Accepts(UriCheck, BaseEvent["source"])
  {
    SourceValue();
    SourceChars();
  }

  lemma TimeValue()
    ensures BaseEvent["time"] == Str("2018" + "-04-05T17:31:00" + "Z")
  {
  }

  lemma BaseTime()
    ensures Accepts(TimestampCheck, BaseEvent["time"])
  {
    TimeValue();
    TimestampOfFields("2018", "-04-05T17:31:00", "Z");
  }

  lemma BaseContentType()
    ensures Accepts(MediaTypeCheck, BaseEvent["datacontenttype"])
  {
    MediaTypeOf(8, "xml");
  }

  lemma BaseStrings()
    ensures Accepts(StringCheck, BaseEvent["id"])
    ensures Accepts(StringCheck, BaseEvent["specversion"])
    ensures Accepts(StringCheck, BaseEvent["type"])
    ensures Accepts(StringCheck, BaseEvent["subject"])
  {
  }

  lemma BaseAbsent()
    ensures "datacontentencoding" !in BaseEvent && "schemaurl" !in BaseEvent
  {
  }

  lemma BaseRules()
    ensures RulesHold(Attributes, BaseEvent)
  {
    BaseSource();
    BaseTime();
    BaseContentType();
    BaseStrings();
    BaseAbsent();
    TableConditionsIff(BaseEvent);
  }

  lemma ExtensionNames()
    ensures AllLowerAlnum("comexampleextension1") && AllLowerAlnum("comexampleextension2") && AllLowerAlnum("data")
  {
    LowerAlnumOf("comexampleextension1");
    LowerAlnumOf("comexampleextension2");
    LowerAlnumOf("data");
  }

  lemma BaseKeySet()
    ensures forall k :: k in BaseEvent ==>
              k in ["comexampleextension1", "comexampleextension2", "data"]
              || k in ["id", "source", "specversion", "type", "datacontentencoding",
                       "datacontenttype", "schemaurl", "subject", "time"]
  {
  }

  lemma BaseKeys()
    ensures forall k :: k in BaseEvent ==> AllLowerAlnum(k)
  {
    BaseKeySet();
    ExtensionNames();
    forall k | k in BaseEvent ensures AllLowerAlnum(k) {
      if k !in ["comexampleextension1", "comexampleextension2", "data"] {
        NameConforms(k);
      }
    }
  }

  lemma BaseEventValid()
    ensures ValidEvent(BaseEvent)
  {
    BaseRules();
    BaseKeys();
  }

  /**
   * Taking one table attribute out of the base event leaves it valid exactly
   * when the attribute is optional, whatever order the keys are scanned in.
   */
  lemma BaseEventRemoval(i: nat, order: seq<string>)
    requires i < |Attributes|
    requires IsEnumeration(order, (BaseEvent - {Attributes[i].name}).Keys)
    ensures Report(BaseEvent - {Attributes[i].name}, order) == "" <==> !Attributes[i].required
  {
    BaseEventValid();
    ReportEmptyIff(BaseEvent - {Attributes[i].name}, order);
    if Attributes[i].required {
      RemoveRequired(BaseEvent, i);
    } else {
      forall m | 0 <= m < |Attributes| && Attributes[m].required ensures Attributes[m].name != Attributes[i].name {
        TableNamesDistinct(i, m);
      }
      RemoveUnrequired(BaseEvent, Attributes[i].name);
    }
  }

  /**
   * The test's per-attribute cases put one value x under one attribute of
   * the base event: the event is then valid exactly when x is not null and
   * the attribute's checker accepts it, so the checker cases carry over.
   */
  lemma BaseEventWith(i: nat, x: Value)
    requires i < |Attributes|
    ensures ValidEvent(BaseEvent[Attributes[i].name := x]) <==> !x.Null? && Accepts(Attributes[i].check, x)
  {
    BaseEventValid();
    UpdateAttribute(BaseEvent, i, x);
  }
}
