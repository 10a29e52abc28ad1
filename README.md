# CEVerify validation core, modelled in Dafny

CEVerify checks CloudEvents (version 0.x) against the attribute rules of the event format.
Its core is one Go file, `main.go`. This project models that core and proves properties of the model:

- **The rule table** (`Schema.Attributes`). There are nine attributes: four required (`id`, `source`,
  `specversion`, `type`) and five optional (`datacontentencoding`, `datacontenttype`, `schemaurl`,
  `subject`, `time`). Each attribute names one checker.
- **The checkers** (`Checkers`). There are six: string, URI, timestamp, encoding, media type and map.
  - Each checker first compares the reflected Go type name of the value, then its format.
  - Each returns `""` or its exact diagnostic text.
  - Four diagnostics have no trailing newline, as in the code: the type mismatch of `CheckVar`, the
    illegal URI character, the bad timestamp and the bad encoding.
  - The three regular expressions are written as predicates stating the language each pattern denotes
    (`MatchesTimestamp`, `ContainsEncodingToken`, `ContainsMediaType`). Each has a scanner proved to
    decide exactly that language.
  - The timestamp pattern's sign class `[\+|\-]` also admits `|`. Its year is `[0-9]+` of any length.
    Both quirks are kept and shown by lemmas.
- **The validation engine** (`Validation`). It makes a pass over the table in order, then a pass over
  every key of the event enforcing the `[a-z0-9]` key rule.
  - The report is the concatenation of all diagnostics. An empty report means the event is valid.
  - A required attribute that is present but null gets both the "missing" and the "cannot be null" line.
    The reason is that the missing test at main.go:166 treats absent and null alike.
- **The HTTP handler** (`Server`). A non-POST request gets the help page, and a missing Content-Type gets
  400. Then there are two modes:
  - Structured mode takes the JSON body as the event.
  - Binary mode builds the event from the lowered Content-Type, the body, and every `ce-` header. A bare
    `ce-` header adds a bad-header line. The engine's report then has every case-insensitive
    "attribute" replaced by "HTTP header".
  - The status is 400 exactly when some reason text is produced.

Go's map iteration order is unspecified. The key pass and the header pass are therefore methods that
visit keys in an arbitrary order. Their postconditions say the result equals the specification
function for *some* visiting order. Lemmas show which results do not depend on that order.

Three modules restate the repository's own tests as lemmas: `CheckerVectors`, `EngineVectors` and
`ServerVectors` (main_test.go).

## Model

| member | source | states |
|---|---|---|
| Text.Lower | main.go:230 | lowering keeps the length and lowers each character: the ASCII capitals, U+0130 to 'i' and U+212A to 'k' (the part of strings.ToLower that yields ASCII) |
| Text.AsciiLower | main.go:266 | the ASCII-only fold of `(?i)`: keeps the length and lowers each character by ASCII rules |
| Schema.Attributes | main.go:22-68 | the rule table: nine attributes in source order, each with its required flag and checker (properties in Validation.TableNamesConform, TableNamesDistinct and TableConditionsIff) |
| Json.TypeName | main.go:71 | the reflected type name is "string" exactly for strings and "map[string]interface {}" exactly for objects |
| Checkers.CheckVar | main.go:70-75 | "" exactly when the type name equals t; otherwise the not-of-type text naming the observed type |
| Checkers.CheckString | main.go:77-85 | "" exactly for a non-empty string; a non-string gets the type diagnostic, the empty string the empty-string diagnostic |
| Formats.FirstIllegalFrom | main.go:97-103 | the index of the first character outside the URI set (|s| if none): all before it are legal, it is not |
| Checkers.UriDiagnostic | main.go:87-106 | "" exactly for a non-empty string of URI characters; the type, empty and illegal-character diagnostics, the last naming the first illegal character |
| Checkers.ScanUri | main.go:99-103 | the scanning loop returns the index of the first illegal character, or the length |
| Checkers.CheckURI | main.go:87-106 | the method with the loop computes the URI diagnostic |
| Formats.MatchesTimestamp | main.go:113 | the language of the anchored timestamp pattern, written as year, fields, optional fraction and zone (decided by IsTimestamp, see IsTimestampIff) |
| Formats.IsTimestamp | main.go:113 | the scanner for the timestamp pattern (its soundness and completeness in IsTimestampSound, IsTimestampComplete and IsTimestampIff) |
| Formats.IsTimestampSound | main.go:113 | every string the scanner accepts is in the pattern's language |
| Formats.IsTimestampComplete | main.go:113 | every string split as year, fields, fraction and zone is accepted by the scanner |
| Formats.IsTimestampIff | main.go:113 | the scanner accepts exactly the language of the anchored timestamp pattern |
| Checkers.CheckTimestamp | main.go:108-120 | "" exactly for a string matching the timestamp pattern; the type diagnostic (with newline) or the bad-timestamp one (without) |
| Formats.EncodingFrom | main.go:126-128 | the scan succeeds exactly when one of the five encoding tokens occurs at or after i |
| Checkers.CheckEncoding | main.go:122-134 | "" exactly for a non-empty string containing an encoding token; the string checker's text first; else the bad-encoding line |
| Formats.MediaTypeFrom | main.go:140-142 | the scan succeeds exactly when a top-level type, '/', and a non-space character occur at or after i |
| Checkers.CheckMediaType | main.go:136-148 | "" exactly for a non-empty string containing a media type; the string checker's text first; else the bad-media-type line |
| Checkers.CheckMap | main.go:150-160 | "" exactly for a non-empty object; the type diagnostic for non-objects, the empty-map line for an empty one |
| Checkers.Check | main.go:174 | the checker a rule names returns "" exactly when it accepts the value |
| Checkers.RunCheck | main.go:174 | the dispatch calls the named checker and returns its diagnostic |
| Formats.LeftmostMatch | main.go:180 | the leftmost match of `([a-z]|[0-9])+` (FindString, "" when there is none): a run of [a-z0-9] characters, empty exactly when the key has none |
| Formats.KeyOk | main.go:180 | the key test: the leftmost match is as long as the key (characterised by KeyOkIff) |
| Formats.FirstLowerAlnum | main.go:180 | the leftmost match starts at the first [a-z0-9] character at or after i |
| Formats.LowerAlnumRun | main.go:180 | the match extends over the longest [a-z0-9] run |
| Formats.KeyOkIff | main.go:180 | the leftmost match is as long as the key exactly when the key is all [a-z0-9] (the empty key included) |
| Validation.Contribution | main.go:166-176 | one rule's lines: the missing test, then the null test or the checker (its cases in ContributionCases and ContributionEmpty) |
| Validation.TablePass | main.go:165-177 | the pass over the table in order (TablePassIsConcat, TablePassEmpty) |
| Validation.KeyScan | main.go:179-183 | the pass over the keys in a visiting order (KeyScanEmpty, KeyScanFlags) |
| Validation.Report | main.go:162-186 | the table pass followed by the key pass (ReportEmptyIff, ReportOrderIndependent) |
| Validation.ContributionCases | main.go:166-176 | absent optional adds nothing, absent required the missing line, required null both lines, optional null the null line, present values the checker's text |
| Validation.ContributionEmpty | main.go:166-176 | one rule adds nothing exactly when the attribute is there if required, and is non-null and accepted if present |
| Validation.TablePassIsConcat | main.go:165-177 | the table pass concatenates every rule's lines in table order; no rule stops the others |
| Validation.TablePassEmpty | main.go:165-177 | the table pass is empty exactly when every rule holds |
| Validation.KeyScanEmpty | main.go:179-183 | the key pass is empty exactly when every key is all [a-z0-9] |
| Validation.BadKeyInjective | main.go:181 | the bad-key line determines the key it names |
| Validation.KeyScanFlags | main.go:179-183 | a key of the event gets a bad-key line exactly when it has a character outside [a-z0-9] |
| Validation.ReportEmptyIff | main.go:162-186 | the report is empty exactly for valid events, for every visiting order of the keys |
| Validation.ReportOrderIndependent | main.go:179-183 | two visiting orders give permuted key lines and the same verdict (the table prefix is the same by the definition of Report) |
| Validation.TableNamesConform | main.go:22-68 | every table name itself satisfies the key rule |
| Validation.TableNamesDistinct | main.go:22-68 | the nine table names are pairwise different |
| Validation.TableConditionsIff | main.go:22-68 | all rules hold exactly when the four required attributes are present and accepted and each present optional one is accepted |
| Validation.RuleHoldsIff | main.go:166-176 | every checker rejects null, so a rule holds exactly when a required attribute is there and a present one is accepted |
| Validation.RemoveUnrequired | main_test.go:105-112 | removing a key no required rule names keeps a valid event valid |
| Validation.RemoveRequired | main_test.go:105-109 | removing a required attribute makes any event invalid |
| Validation.UpdateAttribute | main_test.go:115-126 | setting one table attribute of a valid event keeps it valid exactly when the value is non-null and accepted |
| Validation.ApplyRule | main.go:166-176 | one rule's missing test, then the null test or the checker, gives that rule's contribution |
| Validation.RunTable | main.go:165-177 | the loop over the table computes the table pass |
| Validation.ScanKeys | main.go:179-183 | the loop over the keys computes the key scan for some enumeration of the keys |
| Validation.VerifyJSON | main.go:162-186 | the result is the report for some enumeration of the event's keys |
| Formats.ReplaceWord | main.go:266 | ReplaceAllString of `(?i)attribute` by "HTTP header": leftmost first, without overlap, ASCII case folding (its properties in the ReplaceWord lemmas below) |
| Formats.ReplaceWordEmpty | main.go:266 | the rewrite is empty exactly for the empty text |
| Formats.ReplaceWordNoWord | main.go:266 | a text without "attribute" in any case is left unchanged |
| Formats.ReplaceWordAppend | main.go:266 | rewriting a concatenation rewrites each part when no occurrence straddles the seam |
| Formats.ReplaceWordHit | main.go:266 | a leading occurrence is replaced by "HTTP header" |
| Formats.RewriteOpening | main.go:266 | an opening "Attribute `" becomes "HTTP header `" |
| Formats.RewriteDiagnostic | main.go:266 | a diagnostic "Attribute `name" + tail keeps its tail and rewrites only the opening and the name |
| Server.CeSuffix | main.go:257-258 | a header is a "ce-" header exactly when its lowered name starts with "ce-"; the attribute is the lowered rest |
| Server.CePrefixIsAscii | main.go:257-258 | a "ce-" header starts with three ASCII characters, so Go's byte slice h[3:] and the model's suffix agree |
| Server.FoldHeaders | main.go:256-264 | the pass over the headers in a visiting order: the folded event and the bad-header text (FoldWrites, FoldKeeps, FoldKeys, FoldBadLines, FoldDocOrderIndependent) |
| Server.BinaryBase | main.go:249-254 | binary mode starts with the lowered Content-Type as datacontenttype and, when the body could be read, the body as data |
| Server.FoldBadLines | main.go:256-264 | the bad-header text is one line per bare "ce-" header in visiting order |
| Server.FoldWrites | main.go:256-264 | a header naming an attribute leaves its first value under that name |
| Server.FoldKeeps | main.go:256-264 | an attribute no header names keeps its base value or absence |
| Server.FoldKeys | main.go:256-264 | the folded event holds the base keys and exactly the names some header writes |
| Server.FoldDocOrderIndependent | main.go:256-264 | with distinct suffixes the folded event does not depend on the header order |
| Server.BadLinesCount | main.go:259 | the bad-header text is one line repeated once per bare header, the same for every order |
| Server.BadLinesEmpty | main.go:257-259 | there is no bad-header text exactly when no header is a bare "ce-" |
| Server.BuildBinaryDocument | main.go:249-264 | the loop builds the binary fold for some enumeration of the headers |
| Server.Finish | main.go:269-272 | the status is 200 exactly for an empty reason, 400 otherwise, and the reason is the body |
| Server.HandleServer | main.go:226-290 | the response is the specified one for some admissible header and key order |
| Server.Respond | main.go:229-276 | the handler's response for given header and key orders (RespondStatus, RespondStatusOrderIndependent, HandleServer) |
| Server.RespondStatus | main.go:229-276 | 200 exactly for accepted requests: non-POST, or a valid event with a Content-Type, no decode error and no bare header; otherwise 400 |
| Server.RespondStatusOrderIndependent | main.go:256-272 | every admissible order gives the same status |
| Server.MissingHeaderLine | main.go:266 | a missing attribute in binary mode reads "HTTP header `name` is missing." |
| Server.NullHeaderLine | main.go:266 | a null attribute in binary mode reads "HTTP header `name` cannot be null." |
| CheckerVectors.UriAccepted | main_test.go:36 | "www.google.com" is a valid URI |
| CheckerVectors.UriRejectsAt | main.go:99-103 | any illegal character makes a URI invalid |
| CheckerVectors.UriRejectsSpace | main_test.go:37 | "www. google .com" is rejected |
| CheckerVectors.UriRejectsCaret | main_test.go:38 | "www.^^google^^.com" is rejected |
| CheckerVectors.UriRejectsEmpty | main_test.go:35 | the empty URI is rejected |
| CheckerVectors.ScanWithFraction | main.go:113 | a timestamp with a fraction matches exactly when its fields, a non-empty fraction and its zone are valid |
| CheckerVectors.ScanWithoutFraction | main.go:113 | a timestamp without a fraction matches exactly when its fields and zone are valid |
| CheckerVectors.TimestampOfParts | main.go:113 | a year, valid fields, a fraction and a zone form an accepted timestamp |
| CheckerVectors.TimestampOfFields | main.go:113 | a year, valid fields and a zone form an accepted timestamp |
| CheckerVectors.TimestampVector1 | main_test.go:48 | 1985-04-12T23:20:50.52Z is accepted |
| CheckerVectors.TimestampVector2 | main_test.go:49 | 1996-12-19T16:39:57-08:00 is accepted |
| CheckerVectors.TimestampVector3 | main_test.go:50 | the leap second 1990-12-31T23:59:60Z is accepted |
| CheckerVectors.TimestampVector4 | main_test.go:51 | 1990-12-31T15:59:60-08:00 is accepted |
| CheckerVectors.TimestampVector5 | main_test.go:52 | 1937-01-01T12:00:27.87+00:20 is accepted |
| CheckerVectors.TimestampVector6 | main_test.go:53 | a trailing '+' is rejected |
| CheckerVectors.TimestampVector7 | main_test.go:54 | the five-digit-year case of the test is rejected (for its trailing '+') |
| CheckerVectors.TimestampVector8 | main_test.go:55 | a three-digit hour is rejected |
| CheckerVectors.TimestampEmpty | main_test.go:47 | the empty timestamp is rejected |
| CheckerVectors.TimestampBarSign | main.go:113 | '|' is accepted as a zone sign |
| CheckerVectors.TimestampLongYear | main.go:113 | a five-digit year is accepted |
| CheckerVectors.EncodingTokenStart | main.go:126 | every encoding token starts with '7', '8', 'b' or 'q' |
| CheckerVectors.EncodingNeedsStart | main.go:126 | a text with an encoding token contains one of those characters |
| CheckerVectors.Encoding7bit | main_test.go:61 | "7bit" is accepted |
| CheckerVectors.EncodingBase64 | main_test.go:62 | "base64" is accepted |
| CheckerVectors.EncodingRejectsAsdf | main_test.go:60 | "asdf" is rejected |
| CheckerVectors.EncodingRejectsEmpty | main_test.go:59 | the empty encoding is rejected |
| CheckerVectors.MediaTypeSlash | main.go:140 | a media-type match has the top-level token, then '/', then a further character |
| CheckerVectors.MediaNeedsSlash | main.go:140 | a text with a media type has a '/' before its last character |
| CheckerVectors.MediaTypeOf | main.go:140 | every top-level type, '/', and a text starting with a non-space character is accepted |
| CheckerVectors.MediaRejectsAsdf | main_test.go:67 | "asdf" is rejected |
| CheckerVectors.MediaRejectsUnknownTopLevel | main_test.go:68 | "asdf/asdf" is rejected |
| CheckerVectors.MediaRejectsBareTopLevel | main_test.go:70 | "application/" is rejected |
| CheckerVectors.MediaRejectsEmpty | main_test.go:66 | the empty media type is rejected |
| CheckerVectors.MediaApplication | main_test.go:71 | application/1d-interleaved-parityfec is accepted |
| CheckerVectors.MediaAudio | main_test.go:72 | audio/3gpp is accepted |
| CheckerVectors.MediaFont | main_test.go:73 | font/collection is accepted |
| CheckerVectors.MediaImage | main_test.go:74 | image/aces is accepted |
| CheckerVectors.MediaMessage | main_test.go:75 | message/CPIM is accepted |
| CheckerVectors.MediaModel | main_test.go:76 | model/3mf is accepted |
| CheckerVectors.MediaMultipart | main_test.go:77 | multipart/appledouble is accepted |
| CheckerVectors.MediaText | main_test.go:78 | text/dns is accepted |
| CheckerVectors.MediaVideo | main_test.go:79 | video/ogg is accepted |
| EngineVectors.BaseRules | main_test.go:84-97 | every table rule holds for the test's base event |
| EngineVectors.BaseKeys | main_test.go:84-97 | every key of the base event is all [a-z0-9] |
| EngineVectors.BaseEventValid | main_test.go:84-97 | the base event is valid |
| EngineVectors.BaseEventRemoval | main_test.go:99-113 | without one table attribute the report is empty exactly when that attribute is optional |
| EngineVectors.BaseEventWith | main_test.go:115-127 | the base event with one attribute set to x is valid exactly when x is non-null and accepted by that attribute's checker |
| ServerVectors.CeSuffixIgnoresCase | main.go:257-258 | header names that lower alike name the same attribute |
| ServerVectors.CeSuffixOf | main.go:257-258 | "ce-" followed by a lowercase name names that attribute |
| ServerVectors.DottedCapitalIStructured | main.go:230-234 | a Content-Type spelled with U+0130 for the 'i' of "application" still selects structured mode, as strings.ToLower does |
| ServerVectors.TestSuffixesDistinct | main_test.go:134-140 | the test's headers name different attributes |
| ServerVectors.TestBase | main_test.go:132-134 | the test request's base event is its content type and an empty body |
| ServerVectors.TestRules | main_test.go:134-140 | every table rule holds for the event the test's headers build, in any header order |
| ServerVectors.TestKeys | main_test.go:134-140 | every key of that event is all [a-z0-9] |
| ServerVectors.TestNoBare | main_test.go:134-140 | none of the test's headers is a bare "ce-" |
| ServerVectors.TestAccepted | main_test.go:132-140 | the test request is accepted (a valid event, a Content-Type, binary mode, no bare header) in every header order |
| ServerVectors.TestRequestAccepted | main_test.go:131-149 | the test's binary-mode request gets status 200 in every admissible order |

## Left out

- HandleFile and main (main.go:188-224 and the rest of the file): command-line parsing, reading files or
  stdin, printing and the exit code are I/O. The validation they call is `Validation.VerifyJSON`.
- JSON decoding: the structured-mode body is given as its decoding result (`Request.decoded`), either a
  document or a decode error with its message. json.Number, float64 and duplicate keys are not
  modelled; numbers are `Json.Num(real)`.
- Reading the body: a read failure is `Request.body == None`. In structured mode the event then stays
  empty; in binary mode `data` is not set.
- HTTP mechanics: `Response` is the status and the written body. The help page is the constant
  `HelpPage`; its HTML is not modelled. Deferred closing of the body is not modelled.
- Header names: Go canonicalises names when they are added. The model takes the header map as given.
  Order independence of the folded event needs `Server.SuffixesDistinct`, which canonicalised names
  satisfy. The test request's headers are written in lower case, and `ServerVectors.CeSuffixIgnoresCase`
  shows the case does not change what a header names.
- Server.HandleServer: requires every header to have at least one value. Go indexes the first value at
  main.go:261, and the HTTP server never hands over a header with no values.
- Checkers: every checker requires a present, non-null value. Go would panic at
  `reflect.TypeOf(nil).String()`, and the engine never calls a checker otherwise.
- Text.Lower: lowers the ASCII capitals, U+0130 (to 'i') and U+212A (to 'k'), the only characters whose
  lower case under strings.ToLower is ASCII. Other non-ASCII capitals (such as 'É') are kept. In the
  Content-Type this changes only the stored datacontenttype value, never the mode or a verdict.
  The `(?i)` fold of main.go:266 is ASCII only and is `Text.AsciiLower`.
- Server.CeSuffix: a header name with another non-ASCII capital keeps that capital in its attribute
  name ("ce-É" names "É" where main.go:257-258 gives "é"). The folded event then holds that key, and the
  bad-key line of main.go:181 names it as written. Two names differing only in such capitals stay two
  keys where Go makes them one. For ASCII header names the model and Go agree. The net/http server
  rejects header names that are not tokens, so only a handler called directly, as the test does with
  Header.Add, can receive such names.
- Checkers.CheckURI and Checkers.UriDiagnostic: work on characters where Go works on bytes. The verdict
  is the same, since every allowed character is ASCII. For a non-ASCII character the diagnostic names
  the character, where Go names its first byte.
- Regular expressions in general: only the five patterns of the core are modelled. The timestamp,
  encoding and media-type patterns (main.go:113, 126, 140) each have a language and a scanner. The key
  pattern (main.go:180) is `Formats.LeftmostMatch`. The `(?i)attribute` pattern (main.go:266) is the
  rewriting function `Formats.ReplaceWord`.
- Map iteration order: it is an explicit order parameter of the specification functions. The methods
  pick keys arbitrarily, and their postconditions quantify over the order.
- CheckMap is modelled although no rule in the table uses it.
