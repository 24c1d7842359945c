/**
 * What parsing a BCP 47 language tag yields, step by step over the capture
 * groups of the tag regular expression: look up the language, extlangs,
 * script, region and variants, refuse reserved and long language subtags and
 * extensions, take private use, then check every extlang and variant
 * against the "Prefix" records of the registry. Each registry prefix is a
 * tag parsed the same way, so parsing recurses through the registry; the
 * depth is bounded by fuel.
 */
module Bcp47Parse {

  import opened Wrappers
  import opened Bcp47Text
  import opened Bcp47Tag

  /** Whether parsing goes on after a step, and the tag so far. */
  datatype Step = Step(ok: bool, tag: Tag)

  /** The ISO 639-1 code when the language has one, its ISO 639-2 code otherwise. */
  function PreferredCode(e: Iso639Entry): string
  {
    if e.alpha2 != "" then e.alpha2 else e.alpha3
  }

  function LanguageStep(reg: Registry, t: Tag, code: string): Step
  {
    match reg.iso639(code)
    case None => Step(false, t.(error := UnknownLanguage(code)))
    case Some(e) => Step(true, t.(language := PreferredCode(e)))
  }

  function ScriptStep(reg: Registry, t: Tag, code: string): Step
  {
    match reg.iso15924(code)
    case None => Step(false, t.(error := UnknownScript(code)))
    case Some(script) => Step(true, t.(script := script))
  }

  /** The number a region code stands for; 0 when it is not a decimal number. */
  function RegionNumber(code: string): nat
  {
    match ParseDecimal(NormalizeRegionNumber(code))
    case Some(n) => n
    case None => 0
  }

  /**
   * Two characters are an ISO 3166-1 alpha-2 code; anything else is a UN
   * M.49 number, stored as its alpha-2 code when it has one and as three
   * zero-padded digits otherwise.
   */
  function RegionStep(reg: Registry, t: Tag, code: string): Step
  {
    if |code| == 2 then
      match reg.iso3166Alpha2(code)
      case None => Step(false, t.(error := UnknownRegion(code)))
      case Some(r) => Step(true, t.(region := r.alpha2))
    else
      match reg.iso3166Number(RegionNumber(code))
      case None => Step(false, t.(error := UnknownRegionNumber(code)))
      case Some(r) => Step(true, t.(region := if r.alpha2 == "" then Pad3(r.number) else r.alpha2))
  }

  /** The extlangs or the variants of a tag. */
  function Subtags(t: Tag, isExtlang: bool): seq<string>
  {
    if isExtlang then t.extlangs else t.variants
  }

  function LookUpSubtag(reg: Registry, code: string, isExtlang: bool): Option<SubtagEntry>
  {
    if isExtlang then reg.extlang(code) else reg.variant(code)
  }

  /**
   * Looks the codes up one by one, appending each registry record's own
   * code (not the text looked up); the first unknown code stops the step
   * with an error naming it, keeping the codes appended so far.
   */
  function SubtagsFrom(reg: Registry, t: Tag, codes: seq<string>, isExtlang: bool): (s: Step)
    ensures s.ok ==> s.tag.error == t.error
    ensures !s.ok ==> if isExtlang then s.tag.error.UnknownExtlang? else s.tag.error.UnknownVariant?
    ensures s.tag.(extlangs := t.extlangs, variants := t.variants, error := t.error) == t
    ensures isExtlang ==> s.tag.variants == t.variants && t.extlangs <= s.tag.extlangs
    ensures !isExtlang ==> s.tag.extlangs == t.extlangs && t.variants <= s.tag.variants
    ensures s.ok ==> |Subtags(s.tag, isExtlang)| == |Subtags(t, isExtlang)| + |codes|
    decreases |codes|
  {
    if codes == [] then Step(true, t)
    else
      match LookUpSubtag(reg, codes[0], isExtlang)
      case None =>
        Step(false, t.(error := if isExtlang then UnknownExtlang(codes[0]) else UnknownVariant(codes[0])))
      case Some(entry) =>
        var t' := if isExtlang then t.(extlangs := t.extlangs + [entry.code])
                  else t.(variants := t.variants + [entry.code]);
        SubtagsFrom(reg, t', codes[1..], isExtlang)
  }

  /** The registry records' codes for the leading codes the registry knows, up to the first unknown one. */
  function KnownCodes(reg: Registry, codes: seq<string>, isExtlang: bool): (known: seq<string>)
    ensures |known| <= |codes|
    decreases |codes|
  {
    if codes == [] then []
    else
      match LookUpSubtag(reg, codes[0], isExtlang)
      case None => []
      case Some(entry) => [entry.code] + KnownCodes(reg, codes[1..], isExtlang)
  }

  /** Each known code is the registry record's code for the code at its place, and the code after them is unknown. */
  lemma {:induction false} KnownCodesMeans(reg: Registry, codes: seq<string>, isExtlang: bool)
    ensures var known := KnownCodes(reg, codes, isExtlang);
      && (forall i :: 0 <= i < |known| ==>
            LookUpSubtag(reg, codes[i], isExtlang).Some? && known[i] == LookUpSubtag(reg, codes[i], isExtlang).value.code)
      && (|known| < |codes| ==> LookUpSubtag(reg, codes[|known|], isExtlang).None?)
    decreases |codes|
  {
    if codes != [] && LookUpSubtag(reg, codes[0], isExtlang).Some? {
      var known := KnownCodes(reg, codes, isExtlang);
      var rest := KnownCodes(reg, codes[1..], isExtlang);
      KnownCodesMeans(reg, codes[1..], isExtlang);
      assert known == [LookUpSubtag(reg, codes[0], isExtlang).value.code] + rest;
      forall i | 1 <= i < |known|
        ensures LookUpSubtag(reg, codes[i], isExtlang).Some? && known[i] == LookUpSubtag(reg, codes[i], isExtlang).value.code
      {
        assert known[i] == rest[i - 1] && codes[i] == codes[1..][i - 1];
      }
      if |known| < |codes| {
        assert codes[|known|] == codes[1..][|rest|];
      }
    }
  }

  /**
   * The lookups append exactly the known codes' registry records' codes, in
   * order; the step passes exactly when every code is known, and otherwise
   * fails naming the first unknown code.
   */
  lemma {:induction false} SubtagsFromAppends(reg: Registry, t: Tag, codes: seq<string>, isExtlang: bool)
    ensures var s := SubtagsFrom(reg, t, codes, isExtlang);
      var known := KnownCodes(reg, codes, isExtlang);
      && Subtags(s.tag, isExtlang) == Subtags(t, isExtlang) + known
      && (s.ok <==> |known| == |codes|)
      && (!s.ok ==> s.tag.error == if isExtlang then UnknownExtlang(codes[|known|]) else UnknownVariant(codes[|known|]))
    decreases |codes|
  {
    if codes != [] {
      match LookUpSubtag(reg, codes[0], isExtlang)
      case None =>
      case Some(entry) =>
        var t' := if isExtlang then t.(extlangs := t.extlangs + [entry.code])
                  else t.(variants := t.variants + [entry.code]);
        assert SubtagsFrom(reg, t, codes, isExtlang) == SubtagsFrom(reg, t', codes[1..], isExtlang);
        SubtagsFromAppends(reg, t', codes[1..], isExtlang);
        var rest := KnownCodes(reg, codes[1..], isExtlang);
        assert KnownCodes(reg, codes, isExtlang) == [entry.code] + rest;
        assert Subtags(t', isExtlang) == Subtags(t, isExtlang) + [entry.code];
        assert Subtags(t', isExtlang) + rest == Subtags(t, isExtlang) + ([entry.code] + rest);
        if |rest| < |codes[1..]| {
          assert codes[1 + |rest|] == codes[1..][|rest|];
        }
    }
  }

  /** A captured run of "-"-prefixed subtags. */
  function SubtagsStep(reg: Registry, t: Tag, captured: string, isExtlang: bool): Step
    requires captured != ""
  {
    SubtagsFrom(reg, t, Split(captured[1..]), isExtlang)
  }

  /** The registry prefixes parsed one by one. */
  function ParseAll(reg: Registry, prefixes: seq<string>, fuel: nat): (tags: seq<Tag>)
    ensures |tags| == |prefixes|
    decreases fuel, 6, |prefixes|
  {
    if prefixes == [] then []
    else
      var n := |prefixes| - 1;
      ParseAll(reg, prefixes[..n], fuel) + [ParseSpec(reg, prefixes[n], fuel)]
  }

  /** The i-th parsed prefix is the parse of the i-th prefix string. */
  lemma {:induction false} ParseAllAt(reg: Registry, prefixes: seq<string>, fuel: nat, i: nat)
    requires i < |prefixes|
    ensures ParseAll(reg, prefixes, fuel)[i] == ParseSpec(reg, prefixes[i], fuel)
    decreases |prefixes|
  {
    var n := |prefixes| - 1;
    var init := ParseAll(reg, prefixes[..n], fuel);
    assert ParseAll(reg, prefixes, fuel) == init + [ParseSpec(reg, prefixes[n], fuel)];
    if i < n {
      ParseAllAt(reg, prefixes[..n], fuel, i);
      assert prefixes[..n][i] == prefixes[i];
    }
  }

  /**
   * Checks one extlang or variant against its registry record: fine without
   * prefixes; otherwise some parsed prefix must match, and a mismatch
   * records the subtag and its prefixes as the error. Only the error changes.
   */
  function ValidOneSpec(reg: Registry, t: Tag, index: nat, isExtlang: bool, fuel: nat): (s: Step)
    requires index < |Subtags(t, isExtlang)|
    ensures s.tag == t.(error := s.tag.error)
    ensures s.ok ==> s.tag == t
    decreases fuel, 1
  {
    var code := Subtags(t, isExtlang)[index];
    match LookUpSubtag(reg, code, isExtlang)
    case None => Step(false, t)
    case Some(entry) =>
      if entry.prefixes == [] then Step(true, t)
      else CheckPrefixes(reg, t, index, isExtlang, code, entry.prefixes, fuel)
  }

  /**
   * The prefixes of a registry record parsed and tried in turn; a mismatch
   * records the subtag and the prefixes as the error. Without fuel left the
   * prefixes cannot be parsed and the check fails.
   */
  function CheckPrefixes(reg: Registry, t: Tag, index: nat, isExtlang: bool, code: string, prefixes: seq<string>, fuel: nat): (s: Step)
    ensures s.tag == t.(error := s.tag.error)
    ensures s.ok ==> s.tag == t
    decreases fuel, 0
  {
    if fuel == 0 then Step(false, t.(error := PrefixDepthExhausted))
    else CheckParsed(t, index, isExtlang, code, prefixes, ParseAll(reg, prefixes, fuel - 1))
  }

  /** The tag against the parsed prefixes of a record: some prefix must match. */
  function CheckParsed(t: Tag, index: nat, isExtlang: bool, code: string, prefixes: seq<string>, parsed: seq<Tag>): (s: Step)
    ensures s.tag == t.(error := s.tag.error)
    ensures s.ok ==> s.tag == t
  {
    if SomePrefixMatches(t, parsed, index, isExtlang, RestrictionsOf(parsed)) then Step(true, t)
    else Step(false, t.(error := PrefixMismatch(isExtlang, code, prefixes)))
  }

  /**
   * The check passes exactly when some parsed prefix matches, under the
   * restrictions all the prefixes impose together; otherwise the error names
   * the subtag and the record's prefixes.
   */
  lemma CheckParsedMeans(t: Tag, index: nat, isExtlang: bool, code: string, prefixes: seq<string>, parsed: seq<Tag>)
    ensures var s := CheckParsed(t, index, isExtlang, code, prefixes, parsed);
      && (s.ok <==> exists k :: 0 <= k < |parsed| && MatchesPrefix(t, parsed[k], index, isExtlang, RestrictionsOf(parsed)))
      && (!s.ok ==> s.tag == t.(error := PrefixMismatch(isExtlang, code, prefixes)))
  {
    SomePrefixMatchesMeans(t, parsed, index, isExtlang, RestrictionsOf(parsed));
  }

  /** Tries the parsed prefixes in order until one matches. */
  predicate SomePrefixMatches(t: Tag, parsed: seq<Tag>, index: nat, isExtlang: bool, r: Restrictions)
    decreases |parsed|
  {
    |parsed| > 0 && (MatchesPrefix(t, parsed[0], index, isExtlang, r) || SomePrefixMatches(t, parsed[1..], index, isExtlang, r))
  }

  /** Trying the prefixes in order finds a match exactly when some prefix matches. */
  lemma {:induction false} SomePrefixMatchesMeans(t: Tag, parsed: seq<Tag>, index: nat, isExtlang: bool, r: Restrictions)
    ensures SomePrefixMatches(t, parsed, index, isExtlang, r) <==>
      exists k :: 0 <= k < |parsed| && MatchesPrefix(t, parsed[k], index, isExtlang, r)
    decreases |parsed|
  {
    if |parsed| > 0 {
      assert SomePrefixMatches(t, parsed, index, isExtlang, r) <==>
        MatchesPrefix(t, parsed[0], index, isExtlang, r) || SomePrefixMatches(t, parsed[1..], index, isExtlang, r);
      SomePrefixMatchesMeans(t, parsed[1..], index, isExtlang, r);
      if SomePrefixMatches(t, parsed[1..], index, isExtlang, r) {
        var k :| 0 <= k < |parsed[1..]| && MatchesPrefix(t, parsed[1..][k], index, isExtlang, r);
        assert parsed[1..][k] == parsed[k + 1];
      }
      if k :| 0 <= k < |parsed| && MatchesPrefix(t, parsed[k], index, isExtlang, r) {
        if k > 0 {
          assert parsed[1..][k - 1] == parsed[k];
        }
      }
    }
  }

  /** Checks the extlangs (or variants) from idx on, stopping at the first failure. */
  function ValidAllSpec(reg: Registry, t: Tag, isExtlang: bool, idx: nat, fuel: nat): (s: Step)
    requires idx <= |Subtags(t, isExtlang)|
    ensures s.tag == t.(error := s.tag.error)
    ensures s.ok ==> s.tag == t
    decreases fuel, 2, |Subtags(t, isExtlang)| - idx
  {
    if idx == |Subtags(t, isExtlang)| then Step(true, t)
    else
      var s := ValidOneSpec(reg, t, idx, isExtlang, fuel);
      if !s.ok then s else ValidAllSpec(reg, s.tag, isExtlang, idx + 1, fuel)
  }

  /**
   * The language and extlang captures looked up; a reserved four-letter or a
   * five- to eight-letter language subtag then stops the parse.
   */
  function LanguageSteps(reg: Registry, c: Captures): (s: Step)
    ensures !s.tag.valid
    ensures s.ok <==> s.tag.error == NoError
    ensures c.reservedLanguage != "" || c.longLanguage != "" ==> !s.ok
    ensures s.ok ==>
      if c.language == "" then s.tag.language == ""
      else reg.iso639(c.language).Some? && s.tag.language == PreferredCode(reg.iso639(c.language).value)
  {
    var s1 := if c.language != "" then LanguageStep(reg, EmptyTag, c.language) else Step(true, EmptyTag);
    if !s1.ok then s1
    else
      var s2 := if c.extlangs != "" then SubtagsStep(reg, s1.tag, c.extlangs, true) else s1;
      if !s2.ok then s2
      else if c.reservedLanguage != "" then Step(false, s2.tag.(error := FourLetterLanguage))
      else if c.longLanguage != "" then Step(false, s2.tag.(error := LongLanguage))
      else s2
  }

  /**
   * The script, region and variant captures looked up; extensions then stop
   * the parse; the private-use capture is taken as it is.
   */
  function SubtagSteps(reg: Registry, c: Captures, t: Tag): (s: Step)
    ensures s.tag.valid == t.valid && s.tag.language == t.language
    ensures s.ok ==> s.tag.error == t.error
    ensures !s.ok ==> s.tag.error != NoError
    ensures c.extensions != "" ==> !s.ok
  {
    var s3 := if c.script != "" then ScriptStep(reg, t, c.script) else Step(true, t);
    if !s3.ok then s3
    else
      var s4 := if c.region != "" then RegionStep(reg, s3.tag, c.region) else s3;
      if !s4.ok then s4
      else
        var s5 := if c.variants != "" then SubtagsStep(reg, s4.tag, c.variants, false) else s4;
        if !s5.ok then s5
        else if c.extensions != "" then Step(false, s5.tag.(error := ExtensionsUnsupported))
        else if c.privateUse != "" then Step(true, s5.tag.(privateUse := Split(c.privateUse[1..])))
        else s5
  }

  /** The extlang checks, then the variant checks; the tag becomes valid only if both pass. */
  function ValidationSteps(reg: Registry, t: Tag, fuel: nat): (r: Tag)
    requires !t.valid
    ensures r == t.(valid := r.valid, error := r.error)
    ensures r.valid ==> r.error == t.error
    ensures r.valid <==> ValidAllSpec(reg, t, true, 0, fuel).ok && ValidAllSpec(reg, t, false, 0, fuel).ok
    decreases fuel, 3
  {
    var s7 := ValidAllSpec(reg, t, true, 0, fuel);
    if !s7.ok then s7.tag
    else
      var s8 := ValidAllSpec(reg, s7.tag, false, 0, fuel);
      if !s8.ok then s8.tag else s8.tag.(valid := true)
  }

  /** The tag parsed from the captures of a match without global private use. */
  function ParseCaptures(reg: Registry, c: Captures, fuel: nat): Tag
    decreases fuel, 4
  {
    var s := LanguageSteps(reg, c);
    if !s.ok then s.tag
    else
      var s' := SubtagSteps(reg, c, s.tag);
      if !s'.ok then s'.tag
      else ValidationSteps(reg, s'.tag, fuel)
  }

  /** The tag parsed from a string (matched in lower case). */
  function ParseSpec(reg: Registry, text: string, fuel: nat): Tag
    decreases fuel, 5
  {
    match reg.matchTag(ToLower(text))
    case None => EmptyTag.(error := NotBcp47Structure)
    case Some(c) =>
      if c.globalPrivateUse != "" then EmptyTag.(privateUse := Split(c.globalPrivateUse[1..]), valid := true)
      else ParseCaptures(reg, c, fuel)
  }

  // ---------------------------------------------------------------------
  // Properties of the parse

  /** The outcome of checking one extlang or variant, by the registry record found for it. */
  lemma ValidOneByRecord(reg: Registry, t: Tag, index: nat, isExtlang: bool, fuel: nat)
    requires index < |Subtags(t, isExtlang)|
    ensures var code := Subtags(t, isExtlang)[index];
      ValidOneSpec(reg, t, index, isExtlang, fuel) ==
        match LookUpSubtag(reg, code, isExtlang)
        case None => Step(false, t)
        case Some(entry) =>
          if entry.prefixes == [] then Step(true, t)
          else CheckPrefixes(reg, t, index, isExtlang, code, entry.prefixes, fuel)
  {
  }

  /** The prefix check by the fuel left: exhausted, or the parsed prefixes decide. */
  lemma CheckPrefixesByFuel(reg: Registry, t: Tag, index: nat, isExtlang: bool, code: string, prefixes: seq<string>, fuel: nat, parsed: seq<Tag>)
    requires fuel > 0 ==> parsed == ParseAll(reg, prefixes, fuel - 1)
    ensures fuel == 0 ==> CheckPrefixes(reg, t, index, isExtlang, code, prefixes, fuel) == Step(false, t.(error := PrefixDepthExhausted))
    ensures fuel > 0 ==> CheckPrefixes(reg, t, index, isExtlang, code, prefixes, fuel) == CheckParsed(t, index, isExtlang, code, prefixes, parsed)
  {
  }

  /** A match with global private use is a valid tag holding nothing but private use. */
  lemma ParseGlobalPrivateUse(reg: Registry, text: string, fuel: nat)
    requires reg.matchTag(ToLower(text)).Some?
    requires reg.matchTag(ToLower(text)).value.globalPrivateUse != ""
    ensures var t := ParseSpec(reg, text, fuel);
      t.valid && t.error == NoError && t.privateUse == Split(reg.matchTag(ToLower(text)).value.globalPrivateUse[1..])
      && t.language == "" && t.extlangs == [] && t.script == "" && t.region == "" && t.variants == [] && t.extensions == []
  {
  }

  /**
   * Reserved four-letter and long language subtags and extensions make the
   * tag invalid, with an error recorded.
   */
  lemma ParseRefusesUnsupported(reg: Registry, text: string, fuel: nat)
    requires reg.matchTag(ToLower(text)).Some?
    requires var c := reg.matchTag(ToLower(text)).value;
      c.globalPrivateUse == "" && (c.reservedLanguage != "" || c.longLanguage != "" || c.extensions != "")
    ensures !ParseSpec(reg, text, fuel).valid && ParseSpec(reg, text, fuel).error != NoError
  {
  }

  /**
   * A parse is valid only when both the extlang and the variant checks pass
   * on its components (the tag as it was before it was marked valid)
   * (or the whole tag is private use), and then no error is recorded.
   */
  lemma ParseValidMeansValidated(reg: Registry, text: string, fuel: nat)
    ensures var t := ParseSpec(reg, text, fuel);
      t.valid ==>
        && t.error == NoError
        && reg.matchTag(ToLower(text)).Some?
        && (reg.matchTag(ToLower(text)).value.globalPrivateUse != ""
            || (ValidAllSpec(reg, t.(valid := false), true, 0, fuel).ok && ValidAllSpec(reg, t.(valid := false), false, 0, fuel).ok))
  {
    match reg.matchTag(ToLower(text))
    case None =>
    case Some(c) =>
      if c.globalPrivateUse == "" {
        var s := LanguageSteps(reg, c);
        if s.ok {
          var s' := SubtagSteps(reg, c, s.tag);
          if s'.ok {
            var t := ValidationSteps(reg, s'.tag, fuel);
            if t.valid {
              assert t.(valid := false) == s'.tag;
            }
          }
        }
      }
  }

  /**
   * A parsed tag has a valid ISO 639 code exactly when the parse is valid
   * and the match had a language subtag that the ISO 639 table knows with a
   * non-empty code; the code stored is the table's preferred code.
   */
  lemma ParsedIso639Code(reg: Registry, text: string, fuel: nat)
    ensures var t := ParseSpec(reg, text, fuel);
      HasValidIso639Code(t) <==>
        && t.valid
        && reg.matchTag(ToLower(text)).Some?
        && var c := reg.matchTag(ToLower(text)).value;
           c.globalPrivateUse == "" && c.language != "" && reg.iso639(c.language).Some?
           && PreferredCode(reg.iso639(c.language).value) != ""
    ensures var t := ParseSpec(reg, text, fuel);
      HasValidIso639Code(t) ==> t.language == PreferredCode(reg.iso639(reg.matchTag(ToLower(text)).value.language).value)
  {
  }

  // ---------------------------------------------------------------------
  // Enough fuel. The source recurses into the registry's prefixes without
  // a bound; the model's parse agrees with it whenever no nested prefix
  // parse runs out of fuel, and then more fuel changes nothing.

  /** Parsing `text` with `fuel` never reaches a prefix check without fuel. */
  ghost predicate FuelSuffices(reg: Registry, text: string, fuel: nat)
    decreases fuel, 5
  {
    match reg.matchTag(ToLower(text))
    case None => true
    case Some(c) => c.globalPrivateUse != "" || CapturesFuelSuffices(reg, c, fuel)
  }

  ghost predicate CapturesFuelSuffices(reg: Registry, c: Captures, fuel: nat)
    decreases fuel, 4
  {
    var s := LanguageSteps(reg, c);
    s.ok ==> var s' := SubtagSteps(reg, c, s.tag);
      s'.ok ==> ValidationFuelSuffices(reg, s'.tag, fuel)
  }

  ghost predicate ValidationFuelSuffices(reg: Registry, t: Tag, fuel: nat)
    decreases fuel, 3
  {
    && AllFuelSuffices(reg, t, true, 0, fuel)
    && var s7 := ValidAllSpec(reg, t, true, 0, fuel);
       s7.ok ==> AllFuelSuffices(reg, s7.tag, false, 0, fuel)
  }

  ghost predicate AllFuelSuffices(reg: Registry, t: Tag, isExtlang: bool, idx: nat, fuel: nat)
    requires idx <= |Subtags(t, isExtlang)|
    decreases fuel, 2, |Subtags(t, isExtlang)| - idx
  {
    idx == |Subtags(t, isExtlang)| ||
      (&& OneFuelSuffices(reg, t, idx, isExtlang, fuel)
       && var s := ValidOneSpec(reg, t, idx, isExtlang, fuel);
          s.ok ==> AllFuelSuffices(reg, s.tag, isExtlang, idx + 1, fuel))
  }

  ghost predicate OneFuelSuffices(reg: Registry, t: Tag, index: nat, isExtlang: bool, fuel: nat)
    requires index < |Subtags(t, isExtlang)|
    decreases fuel, 1
  {
    match LookUpSubtag(reg, Subtags(t, isExtlang)[index], isExtlang)
    case None => true
    case Some(entry) => entry.prefixes == [] || PrefixesFuelSuffice(reg, entry.prefixes, fuel)
  }

  ghost predicate PrefixesFuelSuffice(reg: Registry, prefixes: seq<string>, fuel: nat)
    decreases fuel, 0
  {
    fuel > 0 && forall i :: 0 <= i < |prefixes| ==> FuelSuffices(reg, prefixes[i], fuel - 1)
  }

  /**
   * Once the fuel suffices, one more unit of it gives the same tag and
   * still suffices: the parse is then the unbounded one.
   */
  lemma {:induction false} MoreFuelSameParse(reg: Registry, text: string, fuel: nat)
    requires FuelSuffices(reg, text, fuel)
    ensures ParseSpec(reg, text, fuel + 1) == ParseSpec(reg, text, fuel)
    ensures FuelSuffices(reg, text, fuel + 1)
    decreases fuel, 5
  {
    match reg.matchTag(ToLower(text))
    case None =>
    case Some(c) =>
      if c.globalPrivateUse == "" {
        MoreFuelSameCaptures(reg, c, fuel);
      }
  }

  /** Once the fuel suffices, any larger fuel gives the same tag. */
  lemma {:induction false} AnyMoreFuelSameParse(reg: Registry, text: string, fuel: nat, more: nat)
    requires FuelSuffices(reg, text, fuel) && fuel <= more
    ensures ParseSpec(reg, text, more) == ParseSpec(reg, text, fuel)
    decreases more - fuel
  {
    if fuel < more {
      MoreFuelSameParse(reg, text, fuel);
      AnyMoreFuelSameParse(reg, text, fuel + 1, more);
    }
  }

  lemma {:induction false} MoreFuelSameCaptures(reg: Registry, c: Captures, fuel: nat)
    requires CapturesFuelSuffices(reg, c, fuel)
    ensures ParseCaptures(reg, c, fuel + 1) == ParseCaptures(reg, c, fuel)
    ensures CapturesFuelSuffices(reg, c, fuel + 1)
    decreases fuel, 4
  {
    var s := LanguageSteps(reg, c);
    if s.ok {
      var s' := SubtagSteps(reg, c, s.tag);
      if s'.ok {
        MoreFuelSameValidation(reg, s'.tag, fuel);
      }
    }
  }

  lemma {:induction false} MoreFuelSameValidation(reg: Registry, t: Tag, fuel: nat)
    requires !t.valid && ValidationFuelSuffices(reg, t, fuel)
    ensures ValidationSteps(reg, t, fuel + 1) == ValidationSteps(reg, t, fuel)
    ensures ValidationFuelSuffices(reg, t, fuel + 1)
    decreases fuel, 3
  {
    MoreFuelSameAll(reg, t, true, 0, fuel);
    var s7 := ValidAllSpec(reg, t, true, 0, fuel);
    if s7.ok {
      MoreFuelSameAll(reg, s7.tag, false, 0, fuel);
    }
  }

  lemma {:induction false} MoreFuelSameAll(reg: Registry, t: Tag, isExtlang: bool, idx: nat, fuel: nat)
    requires idx <= |Subtags(t, isExtlang)| && AllFuelSuffices(reg, t, isExtlang, idx, fuel)
    ensures ValidAllSpec(reg, t, isExtlang, idx, fuel + 1) == ValidAllSpec(reg, t, isExtlang, idx, fuel)
    ensures AllFuelSuffices(reg, t, isExtlang, idx, fuel + 1)
    decreases fuel, 2, |Subtags(t, isExtlang)| - idx
  {
    if idx < |Subtags(t, isExtlang)| {
      MoreFuelSameOne(reg, t, idx, isExtlang, fuel);
      var s := ValidOneSpec(reg, t, idx, isExtlang, fuel);
      assert ValidOneSpec(reg, t, idx, isExtlang, fuel + 1) == s;
      if s.ok {
        assert s.tag == t;
        MoreFuelSameAll(reg, t, isExtlang, idx + 1, fuel);
        assert ValidAllSpec(reg, t, isExtlang, idx, fuel + 1) == ValidAllSpec(reg, t, isExtlang, idx + 1, fuel + 1);
        assert ValidAllSpec(reg, t, isExtlang, idx, fuel) == ValidAllSpec(reg, t, isExtlang, idx + 1, fuel);
      }
    }
  }

  lemma {:induction false} MoreFuelSameOne(reg: Registry, t: Tag, index: nat, isExtlang: bool, fuel: nat)
    requires index < |Subtags(t, isExtlang)| && OneFuelSuffices(reg, t, index, isExtlang, fuel)
    ensures ValidOneSpec(reg, t, index, isExtlang, fuel + 1) == ValidOneSpec(reg, t, index, isExtlang, fuel)
    ensures OneFuelSuffices(reg, t, index, isExtlang, fuel + 1)
    decreases fuel, 1
  {
    var code := Subtags(t, isExtlang)[index];
    match LookUpSubtag(reg, code, isExtlang)
    case None =>
    case Some(entry) =>
      if entry.prefixes != [] {
        MoreFuelSamePrefixes(reg, t, index, isExtlang, code, entry.prefixes, fuel);
      }
  }

  lemma {:induction false} MoreFuelSamePrefixes(reg: Registry, t: Tag, index: nat, isExtlang: bool, code: string, prefixes: seq<string>, fuel: nat)
    requires PrefixesFuelSuffice(reg, prefixes, fuel)
    ensures CheckPrefixes(reg, t, index, isExtlang, code, prefixes, fuel + 1) == CheckPrefixes(reg, t, index, isExtlang, code, prefixes, fuel)
    ensures PrefixesFuelSuffice(reg, prefixes, fuel + 1)
    decreases fuel, 0
  {
    MoreFuelSameParseAll(reg, prefixes, fuel - 1);
  }

  lemma {:induction false} MoreFuelSameParseAll(reg: Registry, prefixes: seq<string>, fuel: nat)
    requires forall i :: 0 <= i < |prefixes| ==> FuelSuffices(reg, prefixes[i], fuel)
    ensures ParseAll(reg, prefixes, fuel + 1) == ParseAll(reg, prefixes, fuel)
    ensures forall i :: 0 <= i < |prefixes| ==> FuelSuffices(reg, prefixes[i], fuel + 1)
    decreases fuel, 6, |prefixes|
  {
    if prefixes != [] {
      var n := |prefixes| - 1;
      var init := prefixes[..n];
      assert forall i :: 0 <= i < n ==> init[i] == prefixes[i];
      MoreFuelSameParseAll(reg, init, fuel);
      MoreFuelSameParse(reg, prefixes[n], fuel);
      assert ParseAll(reg, prefixes, fuel + 1) == ParseAll(reg, init, fuel + 1) + [ParseSpec(reg, prefixes[n], fuel + 1)];
      assert ParseAll(reg, prefixes, fuel) == ParseAll(reg, init, fuel) + [ParseSpec(reg, prefixes[n], fuel)];
      SufficesSnoc(reg, prefixes, init, fuel + 1);
    }
  }

  lemma SufficesSnoc(reg: Registry, prefixes: seq<string>, init: seq<string>, fuel: nat)
    requires prefixes != [] && init == prefixes[..|prefixes| - 1]
    requires forall i :: 0 <= i < |init| ==> FuelSuffices(reg, init[i], fuel)
    requires FuelSuffices(reg, prefixes[|prefixes| - 1], fuel)
    ensures forall i :: 0 <= i < |prefixes| ==> FuelSuffices(reg, prefixes[i], fuel)
  {
    forall i | 0 <= i < |init|
      ensures FuelSuffices(reg, prefixes[i], fuel)
    {
      assert init[i] == prefixes[i];
    }
  }
}
