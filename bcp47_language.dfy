/**
 * The BCP 47 language tag object: its components, the error of the last
 * parse, and the cached canonical string that every setter invalidates.
 * Parsing fills a fresh object step by step; validating an extlang or a
 * variant parses each registry prefix into an object of its own.
 */
module Bcp47Language {

  import opened Wrappers
  import opened Bcp47Text
  import opened Bcp47Tag
  import opened Bcp47Parse

  class Language {
    var valid: bool
    var language: string
    var extlangs: seq<string>
    var script: string
    var region: string
    var variants: seq<string>
    var extensions: seq<string>
    var privateUse: seq<string>
    var parserError: ParserError
    var formatted: string
    var formattedUpToDate: bool

    /** The components as a value. */
    function Snapshot(): Tag
      reads this
    {
      Tag(valid, language, extlangs, script, region, variants, extensions, privateUse, parserError)
    }

    /** A cache marked up to date holds the canonical string of the current components. */
    ghost predicate CacheCoherent()
      reads this
    {
      formattedUpToDate ==> formatted == FormatTag(Snapshot(), false)
    }

    constructor()
      ensures Snapshot() == EmptyTag && !formattedUpToDate && CacheCoherent()
    {
      valid := false;
      language := "";
      extlangs := [];
      script := "";
      region := "";
      variants := [];
      extensions := [];
      privateUse := [];
      parserError := NoError;
      formatted := "";
      formattedUpToDate := false;
    }

    /**
     * The canonical string. Forced formatting ignores validity and bypasses
     * the cache; otherwise the cache is filled when it is stale and used
     * as it is when it is up to date.
     */
    method Format(force: bool) returns (r: string)
      requires CacheCoherent()
      modifies this
      ensures r == FormatTag(Snapshot(), force)
      ensures Snapshot() == old(Snapshot()) && CacheCoherent()
      ensures force ==> unchanged(this)
      ensures !force ==> formattedUpToDate && formatted == r
      ensures !force && old(formattedUpToDate) ==> unchanged(this)
    {
      if force {
        return FormatTag(Snapshot(), true);
      }
      if !formattedUpToDate {
        formatted := FormatTag(Snapshot(), false);
        formattedUpToDate := true;
      }
      return formatted;
    }

    method SetValid(v: bool)
      modifies this
      ensures Snapshot() == old(Snapshot()).(valid := v)
      ensures !formattedUpToDate && CacheCoherent()
    {
      valid := v;
      formattedUpToDate := false;
    }

    method SetLanguage(s: string)
      modifies this
      ensures Snapshot() == old(Snapshot()).(language := ToLower(s))
      ensures !formattedUpToDate && CacheCoherent()
    {
      language := ToLower(s);
      formattedUpToDate := false;
    }

    method SetExtendedLanguageSubtags(ss: seq<string>)
      modifies this
      ensures Snapshot() == old(Snapshot()).(extlangs := LowerAll(ss))
      ensures !formattedUpToDate && CacheCoherent()
    {
      extlangs := LowerAll(ss);
      formattedUpToDate := false;
    }

    /** The script is stored as given; formatting title-cases it. */
    method SetScript(s: string)
      modifies this
      ensures Snapshot() == old(Snapshot()).(script := s)
      ensures !formattedUpToDate && CacheCoherent()
    {
      script := s;
      formattedUpToDate := false;
    }

    /** The region is stored as given; formatting upper-cases it. */
    method SetRegion(s: string)
      modifies this
      ensures Snapshot() == old(Snapshot()).(region := s)
      ensures !formattedUpToDate && CacheCoherent()
    {
      region := s;
      formattedUpToDate := false;
    }

    method SetVariants(ss: seq<string>)
      modifies this
      ensures Snapshot() == old(Snapshot()).(variants := LowerAll(ss))
      ensures !formattedUpToDate && CacheCoherent()
    {
      variants := LowerAll(ss);
      formattedUpToDate := false;
    }

    method SetExtensions(ss: seq<string>)
      modifies this
      ensures Snapshot() == old(Snapshot()).(extensions := LowerAll(ss))
      ensures !formattedUpToDate && CacheCoherent()
    {
      extensions := LowerAll(ss);
      formattedUpToDate := false;
    }

    method SetPrivateUse(ss: seq<string>)
      modifies this
      ensures Snapshot() == old(Snapshot()).(privateUse := LowerAll(ss))
      ensures !formattedUpToDate && CacheCoherent()
    {
      privateUse := LowerAll(ss);
      formattedUpToDate := false;
    }

    /** Equality of two tags is equality of their (cached) canonical strings. */
    method Equals(other: Language) returns (b: bool)
      requires CacheCoherent() && other.CacheCoherent()
      modifies this, other
      ensures b <==> FormatTag(old(Snapshot()), false) == FormatTag(old(other.Snapshot()), false)
      ensures Snapshot() == old(Snapshot()) && other.Snapshot() == old(other.Snapshot())
      ensures CacheCoherent() && other.CacheCoherent()
    {
      var mine := Format(false);
      var theirs := other.Format(false);
      b := mine == theirs;
    }

    method NotEquals(other: Language) returns (b: bool)
      requires CacheCoherent() && other.CacheCoherent()
      modifies this, other
      ensures b <==> FormatTag(old(Snapshot()), false) != FormatTag(old(other.Snapshot()), false)
      ensures Snapshot() == old(Snapshot()) && other.Snapshot() == old(other.Snapshot())
      ensures CacheCoherent() && other.CacheCoherent()
    {
      var mine := Format(false);
      var theirs := other.Format(false);
      b := mine != theirs;
    }

    // -------------------------------------------------------------------
    // Parsing steps. A tag under construction has a stale cache, which the
    // steps leave stale.

    method ParseLanguage(reg: Registry, code: string) returns (ok: bool)
      requires !formattedUpToDate
      modifies this
      ensures Step(ok, Snapshot()) == LanguageStep(reg, old(Snapshot()), code)
      ensures !formattedUpToDate
    {
      match reg.iso639(code)
      case None =>
        parserError := UnknownLanguage(code);
        return false;
      case Some(e) =>
        language := if e.alpha2 != "" then e.alpha2 else e.alpha3;
        return true;
    }

    method ParseScript(reg: Registry, code: string) returns (ok: bool)
      requires !formattedUpToDate
      modifies this
      ensures Step(ok, Snapshot()) == ScriptStep(reg, old(Snapshot()), code)
      ensures !formattedUpToDate
    {
      match reg.iso15924(code)
      case None =>
        parserError := UnknownScript(code);
        return false;
      case Some(s) =>
        script := s;
        return true;
    }

    method ParseRegion(reg: Registry, code: string) returns (ok: bool)
      requires !formattedUpToDate
      modifies this
      ensures Step(ok, Snapshot()) == RegionStep(reg, old(Snapshot()), code)
      ensures !formattedUpToDate
    {
      if |code| == 2 {
        match reg.iso3166Alpha2(code)
        case None =>
          parserError := UnknownRegion(code);
          return false;
        case Some(r) =>
          region := r.alpha2;
          return true;
      }
      var number := RegionNumberOf(code);
      match reg.iso3166Number(number)
      case None =>
        parserError := UnknownRegionNumber(code);
        return false;
      case Some(r) =>
        region := if r.alpha2 == "" then Pad3(r.number) else r.alpha2;
        return true;
    }

    /** The UN M.49 number a region code spells, 0 when it spells none. */
    static method RegionNumberOf(code: string) returns (number: nat)
      ensures number == RegionNumber(code)
    {
      var normalized := NormalizeRegionNumber(code);
      number := 0;
      var decimal := ParseDecimal(normalized);
      if decimal.Some? {
        number := decimal.value;
      }
    }

    /** Looks up every "-"-separated code after the leading "-" and appends the registry's code. */
    method ParseExtlangsOrVariants(reg: Registry, captured: string, isExtlang: bool) returns (ok: bool)
      requires captured != "" && !formattedUpToDate
      modifies this
      ensures Step(ok, Snapshot()) == SubtagsStep(reg, old(Snapshot()), captured, isExtlang)
      ensures !formattedUpToDate
    {
      ghost var goal := SubtagsStep(reg, Snapshot(), captured, isExtlang);
      var codes := Split(captured[1..]);
      var i := 0;
      while i < |codes|
        invariant 0 <= i <= |codes| && !formattedUpToDate
        invariant SubtagsFrom(reg, Snapshot(), codes[i..], isExtlang) == goal
      {
        assert codes[i..][0] == codes[i] && codes[i..][1..] == codes[i + 1..];
        var found := LookUpSubtag(reg, codes[i], isExtlang);
        if found.None? {
          parserError := if isExtlang then UnknownExtlang(codes[i]) else UnknownVariant(codes[i]);
          return false;
        }
        if isExtlang {
          extlangs := extlangs + [found.value.code];
        } else {
          variants := variants + [found.value.code];
        }
        i := i + 1;
      }
      return true;
    }

    /**
     * Whether this tag fits one parsed registry prefix. Formatting the
     * prefix fills its cache.
     */
    method MatchesPrefix(prefix: Language, index: nat, isExtlang: bool, r: Restrictions) returns (b: bool)
      requires prefix.CacheCoherent()
      modifies prefix
      ensures b == Bcp47Tag.MatchesPrefix(Snapshot(), prefix.Snapshot(), index, isExtlang, r)
      ensures prefix.Snapshot() == old(prefix.Snapshot()) && prefix.CacheCoherent()
      ensures Snapshot() == old(Snapshot())
    {
      if IndexBeyondPrefix(Snapshot(), prefix.Snapshot(), index, isExtlang) {
        return false;
      }
      if Restricted(Snapshot(), prefix.Snapshot(), r) {
        return false;
      }
      var relevant := Join(RelevantParts(Snapshot(), prefix.Snapshot()));
      var prefixFormatted := prefix.Format(false);
      prefixFormatted := prefixFormatted + "-";
      if |relevant| < |prefixFormatted| {
        return false;
      }
      relevant := relevant[..|prefixFormatted|];
      return EqualIgnoringCase(prefixFormatted, relevant);
    }

    /**
     * Checks one extlang or variant against the "Prefix" records of its
     * registry entry, recording a mismatch as the error.
     */
    method ValidateOne(reg: Registry, index: nat, isExtlang: bool, fuel: nat) returns (ok: bool)
      requires index < |Subtags(Snapshot(), isExtlang)| && !formattedUpToDate
      modifies this
      ensures Step(ok, Snapshot()) == ValidOneSpec(reg, old(Snapshot()), index, isExtlang, fuel)
      ensures !formattedUpToDate
      decreases fuel, 1
    {
      ValidOneByRecord(reg, Snapshot(), index, isExtlang, fuel);
      var code := if isExtlang then extlangs[index] else variants[index];
      var found := LookUpSubtag(reg, code, isExtlang);
      if found.None? {
        return false;
      }
      if found.value.prefixes == [] {
        return true;
      }
      ghost var t := Snapshot();
      var parsed;
      ok, parsed := CheckPrefixesOf(reg, index, isExtlang, code, found.value.prefixes, fuel);
      CheckPrefixesByFuel(reg, t, index, isExtlang, code, found.value.prefixes, fuel, parsed);
    }

    /**
     * Tries the parsed prefixes of a record, recording a mismatch as the
     * error; without fuel left the check fails.
     */
    method CheckPrefixesOf(reg: Registry, index: nat, isExtlang: bool, code: string, prefixes: seq<string>, fuel: nat)
      returns (ok: bool, parsed: seq<Tag>)
      modifies this`parserError
      ensures fuel == 0 ==> !ok && Snapshot() == old(Snapshot()).(error := PrefixDepthExhausted)
      ensures fuel > 0 ==> parsed == ParseAll(reg, prefixes, fuel - 1)
      ensures fuel > 0 ==> Step(ok, Snapshot()) == CheckParsed(old(Snapshot()), index, isExtlang, code, prefixes, parsed)
      decreases fuel, 0
    {
      if fuel == 0 {
        parserError := PrefixDepthExhausted;
        return false, [];
      }
      var restrictions;
      parsed, restrictions := ParsePrefixes(reg, prefixes, fuel - 1);
      ok := MatchParsed(parsed, index, isExtlang, code, prefixes, restrictions);
    }

    /** Tries the parsed prefixes in turn, recording a mismatch as the error. */
    method MatchParsed(parsed: seq<Tag>, index: nat, isExtlang: bool, code: string, prefixes: seq<string>, restrictions: Restrictions)
      returns (ok: bool)
      requires restrictions == RestrictionsOf(parsed)
      modifies this`parserError
      ensures Step(ok, Snapshot()) == CheckParsed(old(Snapshot()), index, isExtlang, code, prefixes, parsed)
    {
      var matched := AnyPrefixMatches(parsed, index, isExtlang, restrictions);
      if matched {
        return true;
      }
      parserError := PrefixMismatch(isExtlang, code, prefixes);
      return false;
    }

    /**
     * Parses every registry prefix, keeping a copy of each result, and notes
     * which components the prefixes restrict.
     */
    static method ParsePrefixes(reg: Registry, prefixes: seq<string>, fuel: nat) returns (parsed: seq<Tag>, restrictions: Restrictions)
      ensures parsed == ParseAll(reg, prefixes, fuel)
      ensures restrictions == RestrictionsOf(parsed)
      decreases fuel, 6
    {
      parsed := [];
      restrictions := NoRestrictions;
      var i := 0;
      while i < |prefixes|
        invariant 0 <= i <= |prefixes|
        invariant parsed == ParseAll(reg, prefixes[..i], fuel)
        invariant restrictions == RestrictionsOf(parsed)
      {
        var tag := Parse(reg, prefixes[i], fuel);
        assert prefixes[..i + 1][..i] == prefixes[..i];
        parsed := parsed + [tag.Snapshot()];
        assert parsed[..i] == ParseAll(reg, prefixes[..i], fuel);
        restrictions := Account(restrictions, tag.Snapshot());
        i := i + 1;
      }
      assert prefixes[..i] == prefixes;
    }

    /** Whether this tag fits some parsed prefix, trying them in order. */
    method AnyPrefixMatches(parsed: seq<Tag>, index: nat, isExtlang: bool, r: Restrictions) returns (b: bool)
      ensures b == SomePrefixMatches(Snapshot(), parsed, index, isExtlang, r)
    {
      var t := Snapshot();
      var k := 0;
      while k < |parsed|
        invariant 0 <= k <= |parsed|
        invariant SomePrefixMatches(t, parsed[k..], index, isExtlang, r) == SomePrefixMatches(t, parsed, index, isExtlang, r)
      {
        assert parsed[k..][0] == parsed[k] && parsed[k..][1..] == parsed[k + 1..];
        if Bcp47Tag.MatchesPrefix(t, parsed[k], index, isExtlang, r) {
          return true;
        }
        k := k + 1;
      }
      return false;
    }

    /** Checks the extlangs (or the variants) in order, stopping at the first failure. */
    method ValidateExtlangsOrVariants(reg: Registry, isExtlang: bool, fuel: nat) returns (ok: bool)
      requires !formattedUpToDate
      modifies this
      ensures Step(ok, Snapshot()) == ValidAllSpec(reg, old(Snapshot()), isExtlang, 0, fuel)
      ensures !formattedUpToDate
      decreases fuel, 2
    {
      ghost var t := Snapshot();
      var count := if isExtlang then |extlangs| else |variants|;
      var idx := 0;
      while idx < count
        invariant 0 <= idx <= count == |Subtags(t, isExtlang)|
        invariant Snapshot() == t && !formattedUpToDate
        invariant ValidAllSpec(reg, t, isExtlang, idx, fuel) == ValidAllSpec(reg, t, isExtlang, 0, fuel)
      {
        var one := ValidateOne(reg, idx, isExtlang, fuel);
        if !one {
          return false;
        }
        idx := idx + 1;
      }
      return true;
    }

    /** Parses a tag into a fresh object; the text is matched in lower case. */
    static method Parse(reg: Registry, text: string, fuel: nat) returns (l: Language)
      ensures fresh(l) && l.Snapshot() == ParseSpec(reg, text, fuel)
      ensures !l.formattedUpToDate && l.CacheCoherent()
      decreases fuel, 5
    {
      l := new Language();
      var m := reg.matchTag(ToLower(text));
      if m.None? {
        l.parserError := NotBcp47Structure;
        return;
      }
      var c := m.value;
      if c.globalPrivateUse != "" {
        l.privateUse := Split(c.globalPrivateUse[1..]);
        l.valid := true;
        return;
      }
      assert ParseSpec(reg, text, fuel) == ParseCaptures(reg, c, fuel);
      var ok := l.ParseLanguageSteps(reg, c);
      if !ok {
        return;
      }
      ok := l.ParseSubtagSteps(reg, c);
      if !ok {
        return;
      }
      ok := l.ValidateExtlangsOrVariants(reg, true, fuel);
      if !ok {
        return;
      }
      ok := l.ValidateExtlangsOrVariants(reg, false, fuel);
      if !ok {
        return;
      }
      l.valid := true;
    }

    /** The capture groups 1 to 4 taken in order, up to the first failure. */
    method ParseLanguageSteps(reg: Registry, c: Captures) returns (ok: bool)
      requires Snapshot() == EmptyTag && !formattedUpToDate
      modifies this
      ensures Step(ok, Snapshot()) == LanguageSteps(reg, c)
      ensures !formattedUpToDate
    {
      ok := true;
      if c.language != "" {
        ok := ParseLanguage(reg, c.language);
        if !ok {
          return;
        }
      }
      if c.extlangs != "" {
        ok := ParseExtlangsOrVariants(reg, c.extlangs, true);
        if !ok {
          return;
        }
      }
      if c.reservedLanguage != "" {
        parserError := FourLetterLanguage;
        return false;
      }
      if c.longLanguage != "" {
        parserError := LongLanguage;
        return false;
      }
    }

    /** The capture groups 5 to 9 taken in order, up to the first failure. */
    method ParseSubtagSteps(reg: Registry, c: Captures) returns (ok: bool)
      requires !formattedUpToDate
      modifies this
      ensures Step(ok, Snapshot()) == SubtagSteps(reg, c, old(Snapshot()))
      ensures !formattedUpToDate
    {
      ok := true;
      if c.script != "" {
        ok := ParseScript(reg, c.script);
        if !ok {
          return;
        }
      }
      if c.region != "" {
        ok := ParseRegion(reg, c.region);
        if !ok {
          return;
        }
      }
      if c.variants != "" {
        ok := ParseExtlangsOrVariants(reg, c.variants, false);
        if !ok {
          return;
        }
      }
      if c.extensions != "" {
        parserError := ExtensionsUnsupported;
        return false;
      }
      if c.privateUse != "" {
        privateUse := Split(c.privateUse[1..]);
      }
    }
  }
}
