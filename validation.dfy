/**
 * The validation engine: a pass over the attribute table in order, then a
 * pass over every key of the document enforcing the lowercase-alphanumeric
 * key rule. The report is the concatenation of all diagnostics; "" means the
 * event is valid.
 */
module Validation {
  import opened Text
  import opened Json
  import opened Formats
  import opened Checkers
  import opened Schema

  function Missing(n: string): string {
    "Attribute `" + n + "` is missing.\n"
  }

  function CannotBeNull(n: string): string {
    "Attribute `" + n + "` cannot be null.\n"
  }

  function BadKey(k: string): string {
    "Attribute `" + k + "` does not contain only lowercase and 0-9 characters.\n"
  }

  /**
   * What one rule adds to the report. The missing test treats an absent and a
   * null value alike, while the null test needs the key to be present, so a
   * required null attribute gets both lines; the checker only sees non-null values.
   */
  function Contribution(a: Attribute, j: Document): string {
    (if a.required && (a.name !in j || j[a.name].Null?) then Missing(a.name) else "")
    + (if a.name in j then
         (if j[a.name].Null? then CannotBeNull(a.name) else Check(a.check, j, a.name))
       else "")
  }

  /** The table pass: every rule's contribution, in table order. */
  function TablePass(rules: seq<Attribute>, j: Document): string {
    if rules == [] then "" else TablePass(rules[..|rules| - 1], j) + Contribution(rules[|rules| - 1], j)
  }

  lemma TablePassSnoc(rules: seq<Attribute>, a: Attribute, j: Document)
    ensures TablePass(rules + [a], j) == TablePass(rules, j) + Contribution(a, j)
  {
    assert (rules + [a])[..|rules|] == rules;
  }

  function KeyDiagnostic(k: string): string {
    if KeyOk(k) then "" else BadKey(k)
  }

  /** One entry per key, in the order the keys are visited ("" for a conforming key). */
  function KeyLines(order: seq<string>): seq<string> {
    MapSeq(KeyDiagnostic, order)
  }

  function KeyScan(order: seq<string>): string {
    Concat(KeyLines(order))
  }

  lemma KeyScanSnoc(order: seq<string>, k: string)
    ensures KeyScan(order + [k]) == KeyScan(order) + KeyDiagnostic(k)
  {
    assert KeyLines(order + [k]) == KeyLines(order) + [KeyDiagnostic(k)];
    assert (KeyLines(order) + [KeyDiagnostic(k)])[..|order|] == KeyLines(order);
  }

  /** A visiting order of a map's keys: each key exactly once. */
  predicate IsEnumeration(order: seq<string>, keys: set<string>) {
    multiset(order) == multiset(keys)
  }

  /** The report for document j when its keys are visited in the given order. */
  function Report(j: Document, order: seq<string>): string {
    TablePass(Attributes, j) + KeyScan(order)
  }

  // ---------------------------------------------------------------- What a valid event is

  /** A rule holds when a required attribute is there and not null, and a present one is non-null and accepted. */
  ghost predicate RuleHolds(a: Attribute, j: Document) {
    && (a.required ==> Present(j, a.name))
    && (a.name in j ==> Present(j, a.name) && Accepts(a.check, j[a.name]))
  }

  ghost predicate ValidEvent(j: Document) {
    && (forall i :: 0 <= i < |Attributes| ==> RuleHolds(Attributes[i], j))
    && (forall k :: k in j ==> AllLowerAlnum(k))
  }

  lemma ContributionEmpty(a: Attribute, j: Document)
    ensures Contribution(a, j) == "" <==> RuleHolds(a, j)
  {
  }

  lemma {:induction false} TablePassEmpty(rules: seq<Attribute>, j: Document)
    ensures TablePass(rules, j) == "" <==> forall i :: 0 <= i < |rules| ==> RuleHolds(rules[i], j)
  {
    TablePassIsConcat(rules, j);
    ConcatEmpty(Contributions(rules, j));
    forall i | 0 <= i < |rules| {
      ContributionEmpty(rules[i], j);
    }
  }

  lemma EnumerationMembers(order: seq<string>, keys: set<string>, k: string)
    requires IsEnumeration(order, keys)
    ensures k in order <==> k in keys
  {
    assert k in order <==> k in multiset(order);
    assert k in keys <==> k in multiset(keys);
  }

  lemma KeyScanEmpty(order: seq<string>)
    ensures KeyScan(order) == "" <==> forall i :: 0 <= i < |order| ==> AllLowerAlnum(order[i])
  {
    ConcatEmpty(KeyLines(order));
    forall i | 0 <= i < |order| {
      KeyOkIff(order[i]);
    }
  }

  /** The report is empty exactly for valid events, whatever order the keys are visited in. */
  lemma ReportEmptyIff(j: Document, order: seq<string>)
    requires IsEnumeration(order, j.Keys)
    ensures Report(j, order) == "" <==> ValidEvent(j)
  {
    TablePassEmpty(Attributes, j);
    KeyScanEmpty(order);
    forall k {
      EnumerationMembers(order, j.Keys, k);
    }
  }

  lemma BadKeyInjective(k1: string, k2: string)
    requires BadKey(k1) == BadKey(k2)
    ensures k1 == k2
  {
    var tail := "` does not contain only lowercase and 0-9 characters.\n";
    assert BadKey(k1) == "Attribute `" + k1 + tail;
    assert k1 == BadKey(k1)[11..|BadKey(k1)| - |tail|];
    assert k2 == BadKey(k2)[11..|BadKey(k2)| - |tail|];
  }

  /** The key scan flags a key of the document exactly when it has a character outside [a-z0-9]. */
  lemma KeyScanFlags(j: Document, order: seq<string>, k: string)
    requires IsEnumeration(order, j.Keys)
    requires k in j
    ensures BadKey(k) in KeyLines(order) <==> !AllLowerAlnum(k)
  {
    EnumerationMembers(order, j.Keys, k);
    KeyOkIff(k);
    var i :| 0 <= i < |order| && order[i] == k;
    assert KeyLines(order)[i] == KeyDiagnostic(k);
    if BadKey(k) in KeyLines(order) {
      var m :| 0 <= m < |order| && KeyLines(order)[m] == BadKey(k);
      assert KeyDiagnostic(order[m]) == BadKey(k);
      BadKeyInjective(order[m], k);
    }
  }

  /**
   * Two visiting orders give permutations of the same key diagnostics, and
   * the verdict does not depend on the order.
   */
  lemma ReportOrderIndependent(j: Document, o1: seq<string>, o2: seq<string>)
    requires IsEnumeration(o1, j.Keys) && IsEnumeration(o2, j.Keys)
    ensures multiset(KeyLines(o1)) == multiset(KeyLines(o2))
    ensures (Report(j, o1) == "") == (Report(j, o2) == "")
  {
    MapSeqPermutation(KeyDiagnostic, o1, o2);
    ReportEmptyIff(j, o1);
    ReportEmptyIff(j, o2);
  }

  lemma NameConforms(n: string)
    requires n in ["id", "source", "specversion", "type", "datacontentencoding",
                   "datacontenttype", "schemaurl", "subject", "time"]
    ensures AllLowerAlnum(n)
  {
  }

  /** None of the table's own names breaks the key rule. */
  lemma TableNamesConform()
    ensures forall i :: 0 <= i < |Attributes| ==> AllLowerAlnum(Attributes[i].name)
  {
    forall i | 0 <= i < |Attributes| ensures AllLowerAlnum(Attributes[i].name) {
      NameConforms(Attributes[i].name);
    }
  }

  // ---------------------------------------------------------------- How the report is put together

  /** What each rule contributes, one entry per rule in table order. */
  function Contributions(rules: seq<Attribute>, j: Document): seq<string> {
    MapSeq((a: Attribute) => Contribution(a, j), rules)
  }

  /** The table pass evaluates every rule, none stopping the others, and concatenates their lines in order. */
  lemma {:induction false} TablePassIsConcat(rules: seq<Attribute>, j: Document)
    ensures TablePass(rules, j) == Concat(Contributions(rules, j))
  {
    if rules != [] {
      var n := |rules| - 1;
      var pre, a := rules[..n], rules[n];
      TablePassIsConcat(pre, j);
      assert rules == pre + [a];
      TablePassSnoc(pre, a, j);
      MapSeqAppend((a: Attribute) => Contribution(a, j), pre, [a]);
      ConcatSnoc(Contributions(pre, j), Contribution(a, j));
    }
  }

  /**
   * One rule's lines: an absent optional attribute adds nothing and an absent
   * required one the missing line; a null adds the null line and never reaches
   * the checker, after the missing line when the attribute is required.
   */
  lemma ContributionCases(a: Attribute, j: Document)
    ensures a.name !in j ==> Contribution(a, j) == (if a.required then Missing(a.name) else "")
    ensures a.name in j && j[a.name].Null? && a.required ==> Contribution(a, j) == Missing(a.name) + CannotBeNull(a.name)
    ensures a.name in j && j[a.name].Null? && !a.required ==> Contribution(a, j) == CannotBeNull(a.name)
    ensures Present(j, a.name) ==> Contribution(a, j) == Check(a.check, j, a.name)
  {
  }

  // ---------------------------------------------------------------- Editing a valid event

  /** Every rule of rules holds for j. */
  ghost predicate RulesHold(rules: seq<Attribute>, j: Document) {
    forall i :: 0 <= i < |rules| ==> RuleHolds(rules[i], j)
  }

  /** The table spelled out, attribute by attribute: four required attributes and five optional ones. */
  ghost predicate TableConditions(d: Document) {
    && "id" in d && Accepts(StringCheck, d["id"])
    && "source" in d && Accepts(UriCheck, d["source"])
    && "specversion" in d && Accepts(StringCheck, d["specversion"])
    && "type" in d && Accepts(StringCheck, d["type"])
    && ("datacontentencoding" in d ==> Accepts(EncodingCheck, d["datacontentencoding"]))
    && ("datacontenttype" in d ==> Accepts(MediaTypeCheck, d["datacontenttype"]))
    && ("schemaurl" in d ==> Accepts(UriCheck, d["schemaurl"]))
    && ("subject" in d ==> Accepts(StringCheck, d["subject"]))
    && ("time" in d ==> Accepts(TimestampCheck, d["time"]))
  }

  /** Every checker rejects null, so a rule holds when the attribute is there if required and accepted if there. */
  lemma RuleHoldsIff(a: Attribute, d: Document)
    ensures RuleHolds(a, d) <==> (a.required ==> a.name in d) && (a.name in d ==> Accepts(a.check, d[a.name]))
  {
  }

  lemma TableConditionsIff(d: Document)
    ensures RulesHold(Attributes, d) <==> TableConditions(d)
  {
    forall i | 0 <= i < |Attributes| {
      RuleHoldsIff(Attributes[i], d);
    }
    if TableConditions(d) {
      forall i | 0 <= i < |Attributes| ensures RuleHolds(Attributes[i], d) {
        assert i == 0 || i == 1 || i == 2 || i == 3 || i == 4 || i == 5 || i == 6 || i == 7 || i == 8;
      }
    }
    if RulesHold(Attributes, d) {
      assert RuleHolds(Attributes[0], d) && RuleHolds(Attributes[1], d) && RuleHolds(Attributes[2], d);
      assert RuleHolds(Attributes[3], d) && RuleHolds(Attributes[4], d) && RuleHolds(Attributes[5], d);
      assert RuleHolds(Attributes[6], d) && RuleHolds(Attributes[7], d) && RuleHolds(Attributes[8], d);
    }
  }

  lemma RulesHoldRemove(rules: seq<Attribute>, j: Document, name: string)
    requires RulesHold(rules, j)
    requires forall i :: 0 <= i < |rules| && rules[i].required ==> rules[i].name != name
    ensures RulesHold(rules, j - {name})
  {
    forall i | 0 <= i < |rules| ensures RuleHolds(rules[i], j - {name}) {
      assert RuleHolds(rules[i], j);
    }
  }

  /** Removing a key that no required rule names keeps a valid event valid (an optional attribute or an extension). */
  lemma RemoveUnrequired(j: Document, name: string)
    requires ValidEvent(j)
    requires forall i :: 0 <= i < |Attributes| && Attributes[i].required ==> Attributes[i].name != name
    ensures ValidEvent(j - {name})
  {
    RulesHoldRemove(Attributes, j, name);
  }

  /** Removing a required attribute makes any event invalid. */
  lemma RemoveRequired(j: Document, i: nat)
    requires i < |Attributes| && Attributes[i].required
    ensures !ValidEvent(j - {Attributes[i].name})
  {
    assert !RuleHolds(Attributes[i], j - {Attributes[i].name});
  }

  lemma RulesHoldUpdate(rules: seq<Attribute>, j: Document, i: nat, x: Value)
    requires RulesHold(rules, j) && i < |rules|
    requires forall m :: 0 <= m < |rules| && m != i ==> rules[m].name != rules[i].name
    ensures RulesHold(rules, j[rules[i].name := x]) <==> !x.Null? && Accepts(rules[i].check, x)
  {
    var j' := j[rules[i].name := x];
    forall m | 0 <= m < |rules| && m != i ensures RuleHolds(rules[m], j') {
      assert RuleHolds(rules[m], j);
      assert rules[m].name in j' <==> rules[m].name in j;
    }
    assert RuleHolds(rules[i], j') <==> !x.Null? && Accepts(rules[i].check, x);
  }

  /** The table names nine different attributes. */
  lemma TableNamesDistinct(i: nat, m: nat)
    requires i < |Attributes| && m < |Attributes| && m != i
    ensures Attributes[m].name != Attributes[i].name
  {
    assert i == 0 || i == 1 || i == 2 || i == 3 || i == 4 || i == 5 || i == 6 || i == 7 || i == 8;
    assert m == 0 || m == 1 || m == 2 || m == 3 || m == 4 || m == 5 || m == 6 || m == 7 || m == 8;
  }

  /**
   * Setting one attribute of a valid event to x keeps it valid exactly when x
   * is not null and the attribute's checker accepts it.
   */
  lemma UpdateAttribute(j: Document, i: nat, x: Value)
    requires ValidEvent(j) && i < |Attributes|
    ensures ValidEvent(j[Attributes[i].name := x]) <==> !x.Null? && Accepts(Attributes[i].check, x)
  {
    forall m | 0 <= m < |Attributes| && m != i ensures Attributes[m].name != Attributes[i].name {
      TableNamesDistinct(i, m);
    }
    RulesHoldUpdate(Attributes, j, i, x);
    TableNamesConform();
  }

  // ---------------------------------------------------------------- The engine

  /** Applies one rule of the table: the missing test, then the null test or the checker. */
  method ApplyRule(e: Attribute, j: Document) returns (r: string)
    ensures r == Contribution(e, j)
  {
    r := "";
    if e.required && (e.name !in j || j[e.name].Null?) {
      r := r + Missing(e.name);
    }
    if e.name in j {
      if j[e.name].Null? {
        r := r + CannotBeNull(e.name);
      } else {
        var c := RunCheck(e.check, j, e.name);
        r := r + c;
      }
    }
  }

  /** The table pass, rule by rule in table order; no rule stops the pass. */
  method RunTable(rules: seq<Attribute>, j: Document) returns (reason: string)
    ensures reason == TablePass(rules, j)
  {
    reason := "";
    var i := 0;
    while i < |rules|
      invariant 0 <= i <= |rules|
      invariant reason == TablePass(rules[..i], j)
    {
      var r := ApplyRule(rules[i], j);
      TablePassSnoc(rules[..i], rules[i], j);
      assert rules[..i + 1] == rules[..i] + [rules[i]];
      reason := reason + r;
      i := i + 1;
    }
    assert rules[..i] == rules;
  }

  /**
   * The key pass. Go ranges over the document's keys in an unspecified
   * order; the loop picks any remaining key, and the postcondition says the
   * result is the key scan for some visiting order.
   */
  method ScanKeys(j: Document) returns (lines: string)
    ensures exists order :: IsEnumeration(order, j.Keys) && lines == KeyScan(order)
  {
    lines := "";
    ghost var visited: seq<string> := [];
    var remaining := j.Keys;
    while remaining != {}
      invariant remaining <= j.Keys
      invariant multiset(visited) + multiset(remaining) == multiset(j.Keys)
      invariant lines == KeyScan(visited)
      decreases remaining
    {
      var k :| k in remaining;
      if !KeyOk(k) {
        lines := lines + BadKey(k);
      }
      KeyScanSnoc(visited, k);
      assert multiset(remaining) == multiset(remaining - {k}) + multiset{k};
      visited := visited + [k];
      remaining := remaining - {k};
    }
    assert IsEnumeration(visited, j.Keys);
  }

  /** The whole validation: the table pass, then the key pass. */
  method VerifyJSON(j: Document) returns (reason: string)
    ensures exists order :: IsEnumeration(order, j.Keys) && reason == Report(j, order)
  {
    var t := RunTable(Attributes, j);
    var k := ScanKeys(j);
    reason := t + k;
  }
}
