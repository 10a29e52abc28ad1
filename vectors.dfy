/**
 * The checker cases of the repository's unit tests, stated as lemmas about the
 * model: each says whether a checker accepts one value. Long literals are
 * assembled from parts by small lemmas, so that no single proof has to take a
 * long literal apart.
 */
module CheckerVectors {
  import opened Text
  import opened Json
  import opened Formats
  import opened Checkers

  // ---------------------------------------------------------------- URI

  /** Letters are URI characters. */
  lemma LettersAreUri(w: string)
    requires forall i :: 0 <= i < |w| ==> 'a' <= w[i] <= 'z'
    ensures AllUriChars(w)
  {
  }

  lemma AllUriCharsAppend(a: string, b: string)
    requires AllUriChars(a) && AllUriChars(b)
    ensures AllUriChars(a + b)
  {
    assert forall i :: |a| <= i < |a + b| ==> (a + b)[i] == b[i - |a|];
  }

  lemma UriAccepted()
    ensures Accepts(UriCheck, Str("www" + "." + "google" + "." + "com"))
  {
    LettersAreUri("www");
    LettersAreUri("google");
    LettersAreUri("com");
    assert AllUriChars(".");
    AllUriCharsAppend("www", ".");
    AllUriCharsAppend("www" + ".", "google");
    AllUriCharsAppend("www" + "." + "google", ".");
    AllUriCharsAppend("www" + "." + "google" + ".", "com");
  }

  /** One character outside the URI class rejects the whole value. */
  lemma UriRejectsAt(s: string, i: nat)
    requires i < |s| && !IsUriChar(s[i])
    ensures !Accepts(UriCheck, Str(s))
  {
  }

  lemma SpaceIsNotUri()
    ensures !IsUriChar(' ')
  {
  }

  lemma CaretIsNotUri()
    ensures !IsUriChar('^')
  {
  }

  lemma UriRejectsSpace()
    ensures !Accepts(UriCheck, Str("www. google .com"))
  {
    var s := "www. google .com";
    assert s[4] == ' ';
    SpaceIsNotUri();
    UriRejectsAt(s, 4);
  }

  lemma UriRejectsCaret()
    ensures !Accepts(UriCheck, Str("www.^^google^^.com"))
  {
    var s := "www.^^google^^.com";
    assert s[4] == '^';
    CaretIsNotUri();
    UriRejectsAt(s, 4);
  }

  lemma UriRejectsEmpty()
    ensures !Accepts(UriCheck, Str(""))
  {
  }

  // ---------------------------------------------------------------- Timestamp

  /**
   * With the year and the fractional digits located, the timestamp language
   * comes down to the fixed fields and the zone.
   */
  lemma ScanWithFraction(s: string, y: nat, d: nat)
    requires 1 <= y && y + 16 + d <= |s| && DigitsIn(s, 0, y) && !IsDigit(s[y])
    requires s[y + 15] == '.' && DigitsIn(s, y + 16, y + 16 + d) && (y + 16 + d == |s| || !IsDigit(s[y + 16 + d]))
    ensures MatchesTimestamp(s) <==> DateTimeAt(s, y) && d >= 1 && ZoneAt(s, y + 16 + d)
  {
    DigitRunUnique(s, 0, y);
    DigitRunUnique(s, y + 16, d);
    IsTimestampIff(s);
  }

  /** The same without fractional seconds. */
  lemma ScanWithoutFraction(s: string, y: nat)
    requires 1 <= y && y + 15 <= |s| && DigitsIn(s, 0, y) && !IsDigit(s[y])
    requires y + 15 == |s| || s[y + 15] != '.'
    ensures MatchesTimestamp(s) <==> DateTimeAt(s, y) && ZoneAt(s, y + 15)
  {
    DigitRunUnique(s, 0, y);
    IsTimestampIff(s);
  }

  /** A timestamp assembled from a year, the fixed fields, a fraction and a zone, each checked on its own. */
  lemma TimestampOfParts(year: string, fields: string, frac: string, zone: string)
    requires 1 <= |year| && DigitsIn(year, 0, |year|)
    requires |fields| == 15 && DateTimeAt(fields, 0)
    requires FractionAt(frac, 0, |frac|)
    requires ZoneAt(zone, 0)
    ensures Accepts(TimestampCheck, Str(year + fields + frac + zone))
  {
    var s := year + fields + frac + zone;
    var y, f := |year|, |frac|;
    assert forall i :: 0 <= i < y ==> s[i] == year[i];
    assert forall i :: 0 <= i < 15 ==> s[y + i] == fields[i];
    assert forall i :: 0 <= i < f ==> s[y + 15 + i] == frac[i];
    assert s[y + 15 + f..] == zone;
    assert TimestampSplit(s, y, f);
  }

  /** The same without fractional seconds. */
  lemma TimestampOfFields(year: string, fields: string, zone: string)
    requires 1 <= |year| && DigitsIn(year, 0, |year|)
    requires |fields| == 15 && DateTimeAt(fields, 0)
    requires ZoneAt(zone, 0)
    ensures Accepts(TimestampCheck, Str(year + fields + zone))
  {
    TimestampOfParts(year, fields, "", zone);
    assert year + fields + "" + zone == year + fields + zone;
  }

  lemma TimestampVector1()
    ensures Accepts(TimestampCheck, Str("1985" + "-04-12T23:20:50" + ".52" + "Z"))
  {
    TimestampOfParts("1985", "-04-12T23:20:50", ".52", "Z");
  }

  lemma TimestampVector2()
    ensures Accepts(TimestampCheck, Str("1996" + "-12-19T16:39:57" + "-08:00"))
  {
    TimestampOfFields("1996", "-12-19T16:39:57", "-08:00");
  }

  /** A leap second is a valid second. */
  lemma TimestampVector3()
    ensures Accepts(TimestampCheck, Str("1990" + "-12-31T23:59:60" + "Z"))
  {
    TimestampOfFields("1990", "-12-31T23:59:60", "Z");
  }

  lemma TimestampVector4()
    ensures Accepts(TimestampCheck, Str("1990" + "-12-31T15:59:60" + "-08:00"))
  {
    TimestampOfFields("1990", "-12-31T15:59:60", "-08:00");
  }

  lemma TimestampVector5()
    ensures Accepts(TimestampCheck, Str("1937" + "-01-01T12:00:27" + ".87" + "+00:20"))
  {
    TimestampOfParts("1937", "-01-01T12:00:27", ".87", "+00:20");
  }

  /** Trailing text after the zone is rejected: the pattern is anchored at the end. */
  lemma TimestampVector6()
    ensures !Accepts(TimestampCheck, Str("1937-01-01T12:00:27.87+00:20+"))
  {
    var s := "1937-01-01T12:00:27.87+00:20+";
    ScanWithFraction(s, 4, 2);
  }

  lemma TimestampVector7()
    ensures !Accepts(TimestampCheck, Str("19370-01-01T12:00:27.87+00:20+"))
  {
    var s := "19370-01-01T12:00:27.87+00:20+";
    ScanWithFraction(s, 5, 2);
  }

  /** A three-digit hour breaks the fixed fields. */
  lemma TimestampVector8()
    ensures !Accepts(TimestampCheck, Str("19370-01-01T120:00:27.87+00:20+"))
  {
    var s := "19370-01-01T120:00:27.87+00:20+";
    ScanWithoutFraction(s, 5);
    assert s[14] != ':';
  }

  lemma TimestampEmpty()
    ensures !Accepts(TimestampCheck, Str(""))
  {
    IsTimestampIff("");
  }

  /** The pattern's sign class `[\+|\-]` lets '|' through as a zone sign. */
  lemma TimestampBarSign()
    ensures Accepts(TimestampCheck, Str("1937" + "-01-01T12:00:27" + "|00:20"))
  {
    TimestampOfFields("1937", "-01-01T12:00:27", "|00:20");
  }

  /** `[0-9]+` puts no bound on the year's length. */
  lemma TimestampLongYear()
    ensures Accepts(TimestampCheck, Str("19370" + "-01-01T12:00:27" + "Z"))
  {
    TimestampOfFields("19370", "-01-01T12:00:27", "Z");
  }

  // ---------------------------------------------------------------- Encoding

  /** Every encoding token starts with one of '7', '8', 'b' or 'q'. */
  lemma EncodingTokenStart(s: string, p: nat, k: nat)
    requires k < |EncodingTokens| && TokenAt(s, p, EncodingTokens[k])
    ensures p < |s| && s[p] in "78bq"
  {
    var t := EncodingTokens[k];
    assert s[p..p + |t|][0] == s[p];
  }

  /** So a text holding an encoding token holds one of those characters. */
  lemma EncodingNeedsStart(s: string)
    ensures ContainsEncodingToken(s) ==> exists i :: 0 <= i < |s| && s[i] in "78bq"
  {
    if ContainsEncodingToken(s) {
      var p: nat, k: nat :| k < |EncodingTokens| && TokenAt(s, p, EncodingTokens[k]);
      EncodingTokenStart(s, p, k);
    }
  }

  lemma Encoding7bit()
    ensures Accepts(EncodingCheck, Str("7bit"))
  {
    assert TokenAt("7bit", 0, EncodingTokens[0]);
  }

  lemma EncodingBase64()
    ensures Accepts(EncodingCheck, Str("base64"))
  {
    assert TokenAt("base64", 0, EncodingTokens[4]);
  }

  lemma EncodingRejectsAsdf()
    ensures !Accepts(EncodingCheck, Str("asdf"))
  {
    EncodingNeedsStart("asdf");
  }

  lemma EncodingRejectsEmpty()
    ensures !Accepts(EncodingCheck, Str(""))
  {
  }

  // ---------------------------------------------------------------- Media type

  /** A media type at p puts a '/' right after the top-level token, and a character after that. */
  lemma MediaTypeSlash(s: string, p: nat, t: string)
    requires MediaTypeAt(s, p, t)
    ensures p + |t| + 1 < |s| && s[p + |t|] == '/' && s[p..p + |t|] == t
  {
  }

  /** So a text holding a media type has a '/' somewhere before its last character. */
  lemma MediaNeedsSlash(s: string)
    ensures ContainsMediaType(s) ==> exists i :: 0 <= i < |s| - 1 && s[i] == '/'
  {
    if ContainsMediaType(s) {
      var p: nat, k: nat :| k < |MediaTopLevels| && MediaTypeAt(s, p, MediaTopLevels[k]);
      MediaTypeSlash(s, p, MediaTopLevels[k]);
    }
  }

  lemma MediaTypeOf(k: nat, rest: string)
    requires k < |MediaTopLevels| && |rest| >= 1 && !IsSpace(rest[0])
    ensures Accepts(MediaTypeCheck, Str(MediaTopLevels[k] + "/" + rest))
  {
    var s := MediaTopLevels[k] + "/" + rest;
    assert s[..|MediaTopLevels[k]|] == MediaTopLevels[k];
    assert MediaTypeAt(s, 0, MediaTopLevels[k]);
  }

  lemma MediaRejectsAsdf()
    ensures !Accepts(MediaTypeCheck, Str("asdf"))
  {
    MediaNeedsSlash("asdf");
  }

  /** The only '/' of "application/" is its last character. */
  lemma MediaRejectsBareTopLevel()
    ensures !Accepts(MediaTypeCheck, Str("application/"))
  {
    MediaNeedsSlash("application/");
  }

  lemma SlashOfAsdfAsdf()
    ensures forall i :: 0 <= i < 9 && "asdf/asdf"[i] == '/' ==> i == 4
  {
  }

  /** The top-level types that are not longer than "asdf". */
  lemma ShortTopLevels(k: nat)
    requires k < |MediaTopLevels|
    ensures |MediaTopLevels[k]| > 4 || MediaTopLevels[k] == "font" || MediaTopLevels[k] == "text"
  {
    assert k == 0 || k == 1 || k == 2 || k == 3 || k == 4 || k == 5 || k == 6 || k == 7 || k == 8 || k == 9;
  }

  /** "asdf" is not a top-level type, and no suffix of it is one either. */
  lemma MediaRejectsUnknownTopLevel()
    ensures !Accepts(MediaTypeCheck, Str("asdf/asdf"))
  {
    var s := "asdf/asdf";
    SlashOfAsdfAsdf();
    assert s[0..4] == "asdf";
    forall p: nat, k: nat | k < |MediaTopLevels| ensures !MediaTypeAt(s, p, MediaTopLevels[k]) {
      var t := MediaTopLevels[k];
      ShortTopLevels(k);
      assert MediaTypeAt(s, p, t) ==> p + |t| == 4;
    }
  }

  lemma MediaRejectsEmpty()
    ensures !Accepts(MediaTypeCheck, Str(""))
  {
  }

  lemma MediaApplication()
    ensures Accepts(MediaTypeCheck, Str("application" + "/" + "1d-interleaved-parityfec"))
  {
    MediaTypeOf(0, "1d-interleaved-parityfec");
  }

  lemma MediaAudio()
    ensures Accepts(MediaTypeCheck, Str("audio" + "/" + "3gpp"))
  {
    MediaTypeOf(1, "3gpp");
  }

  lemma MediaFont()
    ensures Accepts(MediaTypeCheck, Str("font" + "/" + "collection"))
  {
    MediaTypeOf(2, "collection");
  }

  lemma MediaImage()
    ensures Accepts(MediaTypeCheck, Str("image" + "/" + "aces"))
  {
    MediaTypeOf(4, "aces");
  }

  lemma MediaMessage()
    ensures Accepts(MediaTypeCheck, Str("message" + "/" + "CPIM"))
  {
    MediaTypeOf(5, "CPIM");
  }

  lemma MediaModel()
    ensures Accepts(MediaTypeCheck, Str("model" + "/" + "3mf"))
  {
    MediaTypeOf(6, "3mf");
  }

  lemma MediaMultipart()
    ensures Accepts(MediaTypeCheck, Str("multipart" + "/" + "appledouble"))
  {
    MediaTypeOf(7, "appledouble");
  }

  lemma MediaText()
    ensures Accepts(MediaTypeCheck, Str("text" + "/" + "dns"))
  {
    MediaTypeOf(8, "dns");
  }

  lemma MediaVideo()
    ensures Accepts(MediaTypeCheck, Str("video" + "/" + "ogg"))
  {
    MediaTypeOf(9, "ogg");
  }
}
