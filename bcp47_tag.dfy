/**
 * BCP 47 language tags (RFC 5646) as values: the canonical formatting with
 * the case conventions of section 2.1.1 of RFC 5646, the case-insensitive
 * matching of extlang and variant "Prefix" records of section 3.1.8, and
 * the control flow of the parser over the capture groups of the tag regular
 * expression.
 *
 * The regular expression, the ISO 639, ISO 15924 and ISO 3166 tables and
 * the IANA Language Subtag Registry are not modelled: they are the fields of
 * a Registry value, and every property below holds whatever they answer.
 */
module Bcp47Tag {

  import opened Wrappers
  import opened Bcp47Text

  /** The reason a parse failed; the translated message texts are not modelled. */
  datatype ParserError =
    | NoError
    | NotBcp47Structure
    | UnknownLanguage(code: string)
    | UnknownScript(code: string)
    | UnknownRegion(code: string)
    | UnknownRegionNumber(code: string)
    | UnknownExtlang(code: string)
    | UnknownVariant(code: string)
    | FourLetterLanguage
    | LongLanguage
    | ExtensionsUnsupported
    | PrefixMismatch(isExtlang: bool, code: string, prefixes: seq<string>)
    | PrefixDepthExhausted

  /** The components of a language tag, in tag order, with validity and error. */
  datatype Tag = Tag(
    valid: bool,
    language: string,
    extlangs: seq<string>,
    script: string,
    region: string,
    variants: seq<string>,
    extensions: seq<string>,
    privateUse: seq<string>,
    error: ParserError)

  /** A default-constructed tag: invalid and empty. */
  const EmptyTag := Tag(false, "", [], "", "", [], [], [], NoError)

  /** A tag that is valid and has a language subtag. */
  predicate HasValidIso639Code(t: Tag)
  {
    t.valid && t.language != ""
  }

  // ---------------------------------------------------------------------
  // Formatting

  /** A subtag present only when its field is non-empty, in its cased form. */
  function OptionalPart(field: string, cased: string): seq<string>
  {
    if field == "" then [] else [cased]
  }

  /** The subtags after the language and before private use, cased for output. */
  function MainTail(t: Tag): seq<string>
  {
    LowerAll(t.extlangs)
    + OptionalPart(t.script, TitleCase(t.script))
    + OptionalPart(t.region, ToUpper(t.region))
    + LowerAll(t.variants)
    + LowerAll(t.extensions)
  }

  /** "x" and the private-use subtags, when there are any. */
  function PrivatePart(t: Tag): seq<string>
  {
    if t.privateUse == [] then [] else ["x"] + LowerAll(t.privateUse)
  }

  /**
   * The subtags of the canonical form, in order: language, extlangs and
   * variants, extensions and private use lower-cased, script title-cased,
   * region upper-cased, empty optional fields dropped.
   */
  function CasedParts(t: Tag): seq<string>
  {
    OptionalPart(t.language, ToLower(t.language)) + MainTail(t) + PrivatePart(t)
  }

  /**
   * The canonical string of a tag, built subtag by subtag; an invalid tag
   * formats as "" unless forced. Private use is introduced by "x", with a
   * "-" before it only when something precedes it.
   */
  function FormatTag(t: Tag, force: bool): (r: string)
    ensures !t.valid && !force ==> r == ""
  {
    if !t.valid && !force then ""
    else
      var output :=
        ToLower(t.language)
        + Dashed(LowerAll(t.extlangs))
        + (if t.script != "" then "-" + TitleCase(t.script) else "")
        + (if t.region != "" then "-" + ToUpper(t.region) else "")
        + Dashed(LowerAll(t.variants))
        + Dashed(LowerAll(t.extensions));
      if t.privateUse == [] then output
      else output + (if output != "" then "-" else "") + "x" + Dashed(LowerAll(t.privateUse))
  }

  /**
   * The layout the formatter expects: a language subtag, or nothing but
   * private use. (Without a language, any other subtag makes the output
   * start with "-".)
   */
  predicate HasLeadingLanguage(t: Tag)
  {
    t.language != "" || MainTail(t) == []
  }

  lemma DashedOptional(field: string, cased: string)
    ensures Dashed(OptionalPart(field, cased)) == if field != "" then "-" + cased else ""
  {
  }

  lemma DashedAppend5(a: seq<string>, b: seq<string>, c: seq<string>, d: seq<string>, e: seq<string>)
    ensures Dashed(a + b + c + d + e) == Dashed(a) + Dashed(b) + Dashed(c) + Dashed(d) + Dashed(e)
  {
    DashedAppend(a + b + c + d, e);
    DashedAppend(a + b + c, d);
    DashedAppend(a + b, c);
    DashedAppend(a, b);
  }

  lemma FormatHead(t: Tag)
    ensures ToLower(t.language)
        + Dashed(LowerAll(t.extlangs))
        + (if t.script != "" then "-" + TitleCase(t.script) else "")
        + (if t.region != "" then "-" + ToUpper(t.region) else "")
        + Dashed(LowerAll(t.variants))
        + Dashed(LowerAll(t.extensions))
      == ToLower(t.language) + Dashed(MainTail(t))
  {
    var a, b, c, d, e := LowerAll(t.extlangs), OptionalPart(t.script, TitleCase(t.script)),
      OptionalPart(t.region, ToUpper(t.region)), LowerAll(t.variants), LowerAll(t.extensions);
    DashedOptional(t.script, TitleCase(t.script));
    DashedOptional(t.region, ToUpper(t.region));
    DashedAppend5(a, b, c, d, e);
    assert MainTail(t) == a + b + c + d + e;
    Regroup6(ToLower(t.language), Dashed(a), Dashed(b), Dashed(c), Dashed(d), Dashed(e));
  }

  lemma Regroup6(l: string, a: string, b: string, c: string, d: string, e: string)
    ensures l + a + b + c + d + e == l + (a + b + c + d + e)
  {
  }

  lemma JoinCons(l: string, rest: seq<string>)
    ensures Join([l] + rest) == l + Dashed(rest)
  {
    assert ([l] + rest)[1..] == rest;
  }

  lemma DashedCons(l: string, rest: seq<string>)
    ensures Dashed([l] + rest) == "-" + l + Dashed(rest)
  {
    assert ([l] + rest)[1..] == rest;
  }

  /** The formatter's output before private use, as language and dashed tail. */
  lemma FormatShape(t: Tag, force: bool)
    requires t.valid || force
    ensures var head := ToLower(t.language) + Dashed(MainTail(t));
      FormatTag(t, force) ==
        if t.privateUse == [] then head
        else head + (if head != "" then "-" else "") + "x" + Dashed(LowerAll(t.privateUse))
  {
    FormatHead(t);
  }

  /** The canonical string is the "-"-join of the cased subtags. */
  lemma FormatIsJoin(t: Tag, force: bool)
    requires t.valid || force
    requires HasLeadingLanguage(t)
    ensures FormatTag(t, force) == Join(CasedParts(t))
  {
    FormatShape(t, force);
    var head := ToLower(t.language) + Dashed(MainTail(t));
    if t.language != "" {
      assert |head| >= |ToLower(t.language)| > 0;
      JoinWithLanguage(t);
    } else {
      assert head == "";
      assert CasedParts(t) == PrivatePart(t);
      if t.privateUse != [] {
        var x := "x" + Dashed(LowerAll(t.privateUse));
        assert FormatTag(t, force) == head + "" + x;
        assert head + "" + x == x;
        JoinCons("x", LowerAll(t.privateUse));
      }
    }
  }

  lemma JoinWithLanguage(t: Tag)
    requires t.language != ""
    ensures var head := ToLower(t.language) + Dashed(MainTail(t));
      Join(CasedParts(t)) ==
        if t.privateUse == [] then head
        else head + "-" + "x" + Dashed(LowerAll(t.privateUse))
  {
    var l, m, p := ToLower(t.language), MainTail(t), PrivatePart(t);
    assert CasedParts(t) == [l] + m + p;
    JoinOfParts(l, m, LowerAll(t.privateUse), p);
  }

  lemma JoinOfParts(l: string, m: seq<string>, private: seq<string>, p: seq<string>)
    requires p == if private == [] then [] else ["x"] + private
    ensures Join([l] + m + p) ==
      if private == [] then l + Dashed(m) else l + Dashed(m) + "-" + "x" + Dashed(private)
  {
    JoinThreeParts(l, m, p);
    var dm := Dashed(m);
    if private == [] {
      assert l + (dm + Dashed(p)) == l + dm;
    } else {
      DashedCons("x", private);
      var dx := Dashed(private);
      assert l + (dm + ("-" + "x" + dx)) == l + dm + "-" + "x" + dx;
    }
  }

  lemma JoinThreeParts(l: string, m: seq<string>, p: seq<string>)
    ensures Join([l] + m + p) == l + (Dashed(m) + Dashed(p))
  {
    assert [l] + m + p == [l] + (m + p);
    JoinCons(l, m + p);
    DashedAppend(m, p);
  }

  /** Every component free of '-'. */
  predicate TagDashFree(t: Tag)
  {
    && DashFree(t.language) && AllDashFree(t.extlangs) && DashFree(t.script)
    && DashFree(t.region) && AllDashFree(t.variants) && AllDashFree(t.extensions)
    && AllDashFree(t.privateUse)
  }

  lemma CasedDashFree(s: string)
    ensures DashFree(s) ==> DashFree(ToLower(s)) && DashFree(ToUpper(s)) && DashFree(TitleCase(s))
  {
    ToLowerDashFree(s);
    if DashFree(s) {
      forall i | 0 <= i < |s| ensures ToUpper(s)[i] != '-' && TitleCase(s)[i] != '-' {
        DashIsCaseless(s[i]);
      }
    }
  }

  lemma LowerAllDashFree(ss: seq<string>)
    requires AllDashFree(ss)
    ensures AllDashFree(LowerAll(ss))
  {
    forall i | 0 <= i < |ss| ensures DashFree(LowerAll(ss)[i]) {
      ToLowerDashFree(ss[i]);
    }
  }

  lemma AllDashFreeAppend(a: seq<string>, b: seq<string>)
    requires AllDashFree(a) && AllDashFree(b)
    ensures AllDashFree(a + b)
  {
    assert forall i :: 0 <= i < |a + b| ==> (a + b)[i] == if i < |a| then a[i] else b[i - |a|];
  }

  lemma CasedPartsDashFree(t: Tag)
    requires TagDashFree(t)
    ensures AllDashFree(CasedParts(t))
  {
    CasedDashFree(t.language);
    LowerAllDashFree(t.privateUse);
    MainTailDashFree(t);
    var l := OptionalPart(t.language, ToLower(t.language));
    AllDashFreeAppend(l, MainTail(t));
    assert AllDashFree(["x"]);
    AllDashFreeAppend(["x"], LowerAll(t.privateUse));
    AllDashFreeAppend(l + MainTail(t), PrivatePart(t));
  }

  lemma MainTailDashFree(t: Tag)
    requires TagDashFree(t)
    ensures AllDashFree(MainTail(t))
  {
    CasedDashFree(t.script);
    CasedDashFree(t.region);
    LowerAllDashFree(t.extlangs);
    LowerAllDashFree(t.variants);
    LowerAllDashFree(t.extensions);
    var a, b, c, d, e := LowerAll(t.extlangs),
      OptionalPart(t.script, TitleCase(t.script)), OptionalPart(t.region, ToUpper(t.region)),
      LowerAll(t.variants), LowerAll(t.extensions);
    AllDashFreeAppend(a, b);
    AllDashFreeAppend(a + b, c);
    AllDashFreeAppend(a + b + c, d);
    AllDashFreeAppend(a + b + c + d, e);
  }

  /**
   * Splitting the canonical string on '-' gives back the cased subtags, so
   * each component is recoverable from the output.
   */
  lemma SplitFormat(t: Tag, force: bool)
    requires t.valid || force
    requires HasLeadingLanguage(t) && TagDashFree(t) && CasedParts(t) != []
    ensures Split(FormatTag(t, force)) == CasedParts(t)
  {
    FormatIsJoin(t, force);
    CasedPartsDashFree(t);
    SplitJoin(CasedParts(t));
  }

  /** Two tags whose components agree up to ASCII case. */
  predicate SameUpToCase(t: Tag, u: Tag)
  {
    && t.valid == u.valid
    && EqualIgnoringCase(t.language, u.language)
    && LowerAll(t.extlangs) == LowerAll(u.extlangs)
    && EqualIgnoringCase(t.script, u.script)
    && EqualIgnoringCase(t.region, u.region)
    && LowerAll(t.variants) == LowerAll(u.variants)
    && LowerAll(t.extensions) == LowerAll(u.extensions)
    && LowerAll(t.privateUse) == LowerAll(u.privateUse)
  }

  /** The canonical form does not depend on the case the components are stored in. */
  lemma FormatIgnoresCase(t: Tag, u: Tag, force: bool)
    requires SameUpToCase(t, u)
    ensures FormatTag(t, force) == FormatTag(u, force)
  {
    CaseMappingsOfEqualIgnoringCase(t.script, u.script);
    CaseMappingsOfEqualIgnoringCase(t.region, u.region);
    assert |t.privateUse| == |LowerAll(t.privateUse)| == |u.privateUse|;
  }

  // ---------------------------------------------------------------------
  // Prefix records of extlangs and variants

  /** Which components some prefix of a registry record has. */
  datatype Restrictions = Restrictions(language: bool, extlangs: bool, script: bool, region: bool, variants: bool)

  const NoRestrictions := Restrictions(false, false, false, false, false)

  /** Marks every component that the prefix tag has. */
  function Account(r: Restrictions, prefix: Tag): Restrictions
  {
    Restrictions(
      r.language || prefix.language != "",
      r.extlangs || prefix.extlangs != [],
      r.script || prefix.script != "",
      r.region || prefix.region != "",
      r.variants || prefix.variants != [])
  }

  /** The restrictions accumulated over a list of parsed prefixes. */
  function RestrictionsOf(prefixes: seq<Tag>): Restrictions
  {
    if prefixes == [] then NoRestrictions
    else
      var n := |prefixes| - 1;
      Account(RestrictionsOf(prefixes[..n]), prefixes[n])
  }

  /** The components a prefix can restrict. */
  datatype Component = LanguageComponent | ExtlangsComponent | ScriptComponent | RegionComponent | VariantsComponent

  predicate HasComponent(p: Tag, c: Component)
  {
    match c
    case LanguageComponent => p.language != ""
    case ExtlangsComponent => p.extlangs != []
    case ScriptComponent => p.script != ""
    case RegionComponent => p.region != ""
    case VariantsComponent => p.variants != []
  }

  predicate Restricts(r: Restrictions, c: Component)
  {
    match c
    case LanguageComponent => r.language
    case ExtlangsComponent => r.extlangs
    case ScriptComponent => r.script
    case RegionComponent => r.region
    case VariantsComponent => r.variants
  }

  /** A component is restricted exactly when some prefix has it. */
  lemma {:induction false} RestrictionsOfMeans(prefixes: seq<Tag>, c: Component)
    ensures Restricts(RestrictionsOf(prefixes), c) <==> exists i :: 0 <= i < |prefixes| && HasComponent(prefixes[i], c)
    decreases |prefixes|
  {
    if prefixes != [] {
      var n := |prefixes| - 1;
      var init := prefixes[..n];
      RestrictionsOfMeans(init, c);
      assert Restricts(RestrictionsOf(prefixes), c) <==> Restricts(RestrictionsOf(init), c) || HasComponent(prefixes[n], c);
      if i :| 0 <= i < |init| && HasComponent(init[i], c) {
        assert init[i] == prefixes[i];
      }
      if i :| 0 <= i < n && HasComponent(prefixes[i], c) {
        assert init[i] == prefixes[i];
      }
    }
  }

  /** A component this tag has but every prefix of the record lacks, where some prefix has it. */
  predicate Restricted(t: Tag, prefix: Tag, r: Restrictions)
  {
    || (r.language && prefix.language == "" && t.language != "")
    || (r.extlangs && prefix.extlangs == [] && t.extlangs != [])
    || (r.script && prefix.script == "" && t.script != "")
    || (r.region && prefix.region == "" && t.region != "")
    || (r.variants && prefix.variants == [] && t.variants != [])
  }

  /** The subtag under validation lies beyond what the prefix could cover. */
  predicate IndexBeyondPrefix(t: Tag, prefix: Tag, index: nat, isExtlang: bool)
  {
    || (isExtlang && t.extlangs != [] && index > |prefix.extlangs|)
    || (!isExtlang && t.variants != [] && index > |prefix.variants|)
  }

  /**
   * This tag's components that take part in the comparison: the language,
   * script and region only where the prefix has them; all extlangs and
   * variants.
   */
  function RelevantParts(t: Tag, prefix: Tag): seq<string>
  {
    (if prefix.language != "" then [t.language] else [])
    + t.extlangs
    + (if prefix.script != "" then [t.script] else [])
    + (if prefix.region != "" then [t.region] else [])
    + t.variants
  }

  /**
   * Whether the tag fits one prefix record: the prefix's canonical string
   * followed by "-" must match, ignoring case, the head of the relevant
   * components joined by "-".
   */
  function MatchesPrefix(t: Tag, prefix: Tag, index: nat, isExtlang: bool, r: Restrictions): (b: bool)
    ensures IndexBeyondPrefix(t, prefix, index, isExtlang) || Restricted(t, prefix, r) ==> !b
    ensures |Join(RelevantParts(t, prefix))| < |FormatTag(prefix, false)| + 1 ==> !b
  {
    if IndexBeyondPrefix(t, prefix, index, isExtlang) then false
    else if Restricted(t, prefix, r) then false
    else
      var relevant := Join(RelevantParts(t, prefix));
      var prefixFormatted := FormatTag(prefix, false) + "-";
      if |relevant| < |prefixFormatted| then false
      else EqualIgnoringCase(prefixFormatted, relevant[..|prefixFormatted|])
  }

  /**
   * Matching works subtag by subtag: when neither guard applies and the
   * prefix is a well-formed valid tag, the tag matches exactly when the
   * prefix's subtags, ignoring case, are a proper leading run of its
   * relevant components. A subtag can never match half of another.
   */
  lemma MatchesPrefixBySubtags(t: Tag, prefix: Tag, index: nat, isExtlang: bool, r: Restrictions)
    requires !IndexBeyondPrefix(t, prefix, index, isExtlang) && !Restricted(t, prefix, r)
    requires prefix.valid && HasLeadingLanguage(prefix) && CasedParts(prefix) != []
    requires TagDashFree(t) && TagDashFree(prefix)
    ensures MatchesPrefix(t, prefix, index, isExtlang, r) <==>
      var ps, qs := RelevantParts(t, prefix), CasedParts(prefix);
      |qs| < |ps| && LowerAll(ps)[..|qs|] == LowerAll(qs)
  {
    var ps, qs := RelevantParts(t, prefix), CasedParts(prefix);
    var relevant, prefixFormatted := Join(ps), FormatTag(prefix, false) + "-";
    assert MatchesPrefix(t, prefix, index, isExtlang, r) <==>
      |prefixFormatted| <= |relevant| && EqualIgnoringCase(prefixFormatted, relevant[..|prefixFormatted|]);
    EqualIgnoringCaseHead(prefixFormatted, relevant);
    FormatIsJoin(prefix, false);
    assert prefixFormatted == Join(qs) + "-";
    CasedPartsDashFree(prefix);
    RelevantPartsDashFree(t, prefix);
    JoinedPrefixIgnoringCase(ps, qs);
  }

  lemma RelevantPartsDashFree(t: Tag, prefix: Tag)
    requires TagDashFree(t)
    ensures AllDashFree(RelevantParts(t, prefix))
  {
    var l := if prefix.language != "" then [t.language] else [];
    var sc := if prefix.script != "" then [t.script] else [];
    var g := if prefix.region != "" then [t.region] else [];
    assert AllDashFree(l) && AllDashFree(sc) && AllDashFree(g);
    AllDashFreeAppend(l, t.extlangs);
    AllDashFreeAppend(l + t.extlangs, sc);
    AllDashFreeAppend(l + t.extlangs + sc, g);
    AllDashFreeAppend(l + t.extlangs + sc + g, t.variants);
  }

  /** Matching does not depend on the case this tag's components are stored in. */
  lemma MatchesPrefixIgnoresCase(t: Tag, u: Tag, prefix: Tag, index: nat, isExtlang: bool, r: Restrictions)
    requires SameUpToCase(t, u) && |t.extlangs| == |u.extlangs| && |t.variants| == |u.variants|
    ensures MatchesPrefix(t, prefix, index, isExtlang, r) == MatchesPrefix(u, prefix, index, isExtlang, r)
  {
    var pt, pu := RelevantParts(t, prefix), RelevantParts(u, prefix);
    assert LowerAll(pt) == LowerAll(pu) by {
      LowerAllAppendCase(t, u, prefix);
    }
    LowerJoin(pt);
    LowerJoin(pu);
    var n := |FormatTag(prefix, false) + "-"|;
    if n <= |Join(pt)| {
      ToLowerTake(Join(pt), n);
      ToLowerTake(Join(pu), n);
    }
  }

  lemma LowerAllAppend(a: seq<string>, b: seq<string>)
    ensures LowerAll(a + b) == LowerAll(a) + LowerAll(b)
  {
  }

  lemma LowerAllAppendCase(t: Tag, u: Tag, prefix: Tag)
    requires SameUpToCase(t, u)
    ensures LowerAll(RelevantParts(t, prefix)) == LowerAll(RelevantParts(u, prefix))
  {
    var l := if prefix.language != "" then [t.language] else [];
    var s := if prefix.script != "" then [t.script] else [];
    var g := if prefix.region != "" then [t.region] else [];
    var l', s', g' := if prefix.language != "" then [u.language] else [],
      if prefix.script != "" then [u.script] else [], if prefix.region != "" then [u.region] else [];
    LowerAllAppend(l + t.extlangs + s + g, t.variants);
    LowerAllAppend(l + t.extlangs + s, g);
    LowerAllAppend(l + t.extlangs, s);
    LowerAllAppend(l, t.extlangs);
    LowerAllAppend(l' + u.extlangs + s' + g', u.variants);
    LowerAllAppend(l' + u.extlangs + s', g');
    LowerAllAppend(l' + u.extlangs, s');
    LowerAllAppend(l', u.extlangs);
  }

  // ---------------------------------------------------------------------
  // The oracles

  datatype Iso639Entry = Iso639Entry(alpha2: string, alpha3: string)
  datatype RegionEntry = RegionEntry(alpha2: string, number: nat)
  datatype SubtagEntry = SubtagEntry(code: string, prefixes: seq<string>)

  /** The captured texts of groups 1 to 10 of the tag regular expression; "" when a group did not take part. */
  datatype Captures = Captures(
    language: string,
    extlangs: string,
    reservedLanguage: string,
    longLanguage: string,
    script: string,
    region: string,
    variants: string,
    extensions: string,
    privateUse: string,
    globalPrivateUse: string)

  datatype Registry = Registry(
    matchTag: string -> Option<Captures>,
    iso639: string -> Option<Iso639Entry>,
    iso15924: string -> Option<string>,
    iso3166Alpha2: string -> Option<RegionEntry>,
    iso3166Number: nat -> Option<RegionEntry>,
    extlang: string -> Option<SubtagEntry>,
    variant: string -> Option<SubtagEntry>)

  // ---------------------------------------------------------------------
  // Decimal region codes

  predicate IsDigit(c: char)
  {
    '0' <= c <= '9'
  }

  function DigitValue(c: char): nat
    requires IsDigit(c)
  {
    c as int - '0' as int
  }

  /** The value of a string of decimal digits. */
  function DecimalValue(s: string): nat
    requires forall i :: 0 <= i < |s| ==> IsDigit(s[i])
  {
    if s == [] then 0 else DecimalValue(s[..|s| - 1]) * 10 + DigitValue(s[|s| - 1])
  }

  /** Whole-string decimal parsing; None for an empty string or a non-digit. */
  function ParseDecimal(s: string): (r: Option<nat>)
    ensures r.Some? <==> s != [] && forall i :: 0 <= i < |s| ==> IsDigit(s[i])
  {
    if s != [] && forall i :: 0 <= i < |s| ==> IsDigit(s[i]) then Some(DecimalValue(s)) else None
  }

  /** The shortest decimal representation of n. */
  function DecimalString(n: nat): (s: string)
    ensures 1 <= |s| && forall i :: 0 <= i < |s| ==> IsDigit(s[i])
  {
    if n < 10 then [('0' as int + n) as char]
    else DecimalString(n / 10) + [('0' as int + n % 10) as char]
  }

  function Zeros(k: nat): (s: string)
    ensures |s| == k && forall i :: 0 <= i < k ==> s[i] == '0'
  {
    if k == 0 then "" else "0" + Zeros(k - 1)
  }

  /** The number with at least three digits, zero-padded on the left. */
  function Pad3(n: nat): string
  {
    var digits := DecimalString(n);
    (if |digits| < 3 then Zeros(3 - |digits|) else "") + digits
  }

  /** The leading '0' characters removed. */
  function StripLeadingZeros(s: string): (r: string)
    ensures |r| <= |s| && r == s[|s| - |r|..]
    ensures forall i :: 0 <= i < |s| - |r| ==> s[i] == '0'
    ensures r == [] || r[0] != '0'
  {
    if s != [] && s[0] == '0' then StripLeadingZeros(s[1..]) else s
  }

  /** A region number as looked up: leading zeros dropped, and "0" if nothing is left. */
  function NormalizeRegionNumber(s: string): (r: string)
    ensures r != []
  {
    var stripped := StripLeadingZeros(s);
    if stripped == "" then "0" else stripped
  }

  lemma {:induction false} DecimalValueOfString(n: nat)
    ensures DecimalValue(DecimalString(n)) == n
  {
    if n >= 10 {
      DecimalValueOfString(n / 10);
      var s := DecimalString(n);
      assert s[..|s| - 1] == DecimalString(n / 10);
    }
  }

  lemma ZerosSnoc(k: nat)
    requires k > 0
    ensures Zeros(k) == Zeros(k - 1) + "0"
  {
  }

  lemma {:induction false} ZerosValue(k: nat)
    ensures DecimalValue(Zeros(k)) == 0
  {
    if k > 0 {
      ZerosValue(k - 1);
      ZerosSnoc(k);
      assert Zeros(k)[..k - 1] == Zeros(k - 1);
    }
  }

  lemma {:induction false} DecimalValueSkipsZeros(k: nat, s: string)
    requires forall i :: 0 <= i < |s| ==> IsDigit(s[i])
    ensures forall i :: 0 <= i < |Zeros(k) + s| ==> IsDigit((Zeros(k) + s)[i])
    ensures DecimalValue(Zeros(k) + s) == DecimalValue(s)
    decreases |s|
  {
    var z := Zeros(k) + s;
    if s == [] {
      assert z == Zeros(k);
      ZerosValue(k);
    } else {
      DecimalValueSkipsZeros(k, s[..|s| - 1]);
      assert z[..|z| - 1] == Zeros(k) + s[..|s| - 1];
    }
  }

  /** Any run of leading zeros can be dropped without changing the value. */
  lemma DropLeadingZeros(s: string, j: nat)
    requires forall i :: 0 <= i < |s| ==> IsDigit(s[i])
    requires j <= |s| && forall i :: 0 <= i < j ==> s[i] == '0'
    ensures forall i :: 0 <= i < |s| - j ==> IsDigit(s[j..][i])
    ensures DecimalValue(s[j..]) == DecimalValue(s)
  {
    assert s == Zeros(j) + s[j..];
    DecimalValueSkipsZeros(j, s[j..]);
  }

  lemma DecimalLength(n: nat)
    ensures n < 10 ==> |DecimalString(n)| == 1
    ensures 10 <= n < 100 ==> |DecimalString(n)| == 2
    ensures 100 <= n < 1000 ==> |DecimalString(n)| == 3
  {
  }

  /**
   * A region number below 1000, written back as three zero-padded digits,
   * is looked up again as the same number.
   */
  lemma Pad3RoundTrip(n: nat)
    requires n < 1000
    ensures |Pad3(n)| == 3
    ensures ParseDecimal(NormalizeRegionNumber(Pad3(n))) == Some(n)
  {
    var digits := DecimalString(n);
    DecimalLength(n);
    var padded := Pad3(n);
    var k := if |digits| < 3 then 3 - |digits| else 0;
    assert padded == Zeros(k) + digits;
    DecimalValueSkipsZeros(k, digits);
    DecimalValueOfString(n);
    var stripped := StripLeadingZeros(padded);
    var j := |padded| - |stripped|;
    DropLeadingZeros(padded, j);
    if stripped == "" {
      assert DecimalValue(padded) == DecimalValue("") == 0;
      assert DecimalValue("0") == 0;
    }
  }
}
