/**
 * ASCII case mapping and the "-"-separated subtag lists that language tags
 * are made of: joining subtags, splitting a tag back into subtags, and
 * case-insensitive comparison.
 */
module Bcp47Text {

  function LowerChar(c: char): char
  {
    if 'A' <= c <= 'Z' then (c as int + 32) as char else c
  }

  function UpperChar(c: char): char
  {
    if 'a' <= c <= 'z' then (c as int - 32) as char else c
  }

  /** Characters that agree up to case agree after either mapping. */
  lemma CaseMappingsAgree(c: char, d: char)
    requires LowerChar(c) == LowerChar(d)
    ensures UpperChar(c) == UpperChar(d)
  {
  }

  /** Only '-' itself maps to '-', in either direction. */
  lemma DashIsCaseless(c: char)
    ensures LowerChar(c) == '-' <==> c == '-'
    ensures UpperChar(c) == '-' <==> c == '-'
  {
  }

  function ToLower(s: string): (r: string)
    ensures |r| == |s|
    ensures forall i :: 0 <= i < |s| ==> r[i] == LowerChar(s[i])
  {
    if s == [] then [] else [LowerChar(s[0])] + ToLower(s[1..])
  }

  function ToUpper(s: string): (r: string)
    ensures |r| == |s|
    ensures forall i :: 0 <= i < |s| ==> r[i] == UpperChar(s[i])
  {
    if s == [] then [] else [UpperChar(s[0])] + ToUpper(s[1..])
  }

  /** The first character upper-cased and the rest lower-cased. */
  function TitleCase(s: string): (r: string)
    ensures |r| == |s|
    ensures |s| > 0 ==> r[0] == UpperChar(s[0])
    ensures forall i :: 1 <= i < |s| ==> r[i] == LowerChar(s[i])
  {
    ToUpper(s[..if s == [] then 0 else 1]) + ToLower(s[if s == [] then 0 else 1..])
  }

  function LowerAll(ss: seq<string>): (r: seq<string>)
    ensures |r| == |ss|
    ensures forall i :: 0 <= i < |ss| ==> r[i] == ToLower(ss[i])
  {
    if ss == [] then [] else [ToLower(ss[0])] + LowerAll(ss[1..])
  }

  /** Case-insensitive equality, as a comparison of lower-cased strings. */
  predicate EqualIgnoringCase(a: string, b: string)
  {
    ToLower(a) == ToLower(b)
  }

  lemma ToLowerAppend(a: string, b: string)
    ensures ToLower(a + b) == ToLower(a) + ToLower(b)
  {
    assert forall i :: 0 <= i < |a + b| ==> ToLower(a + b)[i] == (ToLower(a) + ToLower(b))[i];
  }

  lemma ToLowerTake(s: string, n: nat)
    requires n <= |s|
    ensures ToLower(s[..n]) == ToLower(s)[..n]
  {
  }

  /** a is, ignoring case, the head of s exactly when lower-cased a is a prefix of lower-cased s. */
  lemma EqualIgnoringCaseHead(a: string, s: string)
    ensures (|a| <= |s| && EqualIgnoringCase(a, s[..|a|])) <==> ToLower(a) <= ToLower(s)
  {
    if |a| <= |s| {
      ToLowerTake(s, |a|);
    }
  }

  lemma ToLowerIdempotent(s: string)
    ensures ToLower(ToLower(s)) == ToLower(s)
  {
  }

  /** Strings equal up to case are equal after upper-casing or title-casing too. */
  lemma CaseMappingsOfEqualIgnoringCase(a: string, b: string)
    requires EqualIgnoringCase(a, b)
    ensures |a| == |b|
    ensures ToUpper(a) == ToUpper(b)
    ensures TitleCase(a) == TitleCase(b)
  {
    assert |ToLower(a)| == |ToLower(b)|;
    forall i | 0 <= i < |a|
      ensures UpperChar(a[i]) == UpperChar(b[i])
    {
      assert ToLower(a)[i] == ToLower(b)[i];
      CaseMappingsAgree(a[i], b[i]);
    }
  }

  predicate DashFree(s: string)
  {
    '-' !in s
  }

  predicate AllDashFree(ss: seq<string>)
  {
    forall i :: 0 <= i < |ss| ==> DashFree(ss[i])
  }

  lemma ToLowerDashFree(s: string)
    ensures DashFree(ToLower(s)) <==> DashFree(s)
  {
    if !DashFree(s) {
      var i :| 0 <= i < |s| && s[i] == '-';
      assert ToLower(s)[i] == '-';
    }
    if !DashFree(ToLower(s)) {
      var i :| 0 <= i < |s| && ToLower(s)[i] == '-';
      DashIsCaseless(s[i]);
    }
  }

  // ---------------------------------------------------------------------
  // Joining and splitting on '-'

  /** Each subtag preceded by "-". */
  function Dashed(ss: seq<string>): string
  {
    if ss == [] then "" else "-" + ss[0] + Dashed(ss[1..])
  }

  /** The subtags separated by "-"; no subtags give "". */
  function Join(ss: seq<string>): string
  {
    if ss == [] then "" else ss[0] + Dashed(ss[1..])
  }

  lemma {:induction false} DashedAppend(a: seq<string>, b: seq<string>)
    ensures Dashed(a + b) == Dashed(a) + Dashed(b)
  {
    if a != [] {
      DashedAppend(a[1..], b);
      assert (a + b)[1..] == a[1..] + b;
    } else {
      assert a + b == b;
    }
  }

  lemma JoinAppend(a: seq<string>, b: seq<string>)
    requires a != []
    ensures Join(a + b) == Join(a) + Dashed(b)
  {
    assert (a + b)[0] == a[0] && (a + b)[1..] == a[1..] + b;
    DashedAppend(a[1..], b);
  }

  lemma {:induction false} LowerDashed(ss: seq<string>)
    ensures ToLower(Dashed(ss)) == Dashed(LowerAll(ss))
  {
    if ss != [] {
      LowerDashed(ss[1..]);
      ToLowerAppend("-" + ss[0], Dashed(ss[1..]));
      ToLowerAppend("-", ss[0]);
      assert ToLower("-") == "-";
      assert LowerAll(ss)[1..] == LowerAll(ss[1..]);
    }
  }

  /** Lower-casing a joined tag lower-cases each subtag. */
  lemma LowerJoin(ss: seq<string>)
    ensures ToLower(Join(ss)) == Join(LowerAll(ss))
  {
    if ss != [] {
      ToLowerAppend(ss[0], Dashed(ss[1..]));
      LowerDashed(ss[1..]);
      assert LowerAll(ss)[1..] == LowerAll(ss[1..]);
    }
  }

  /** Splits on every '-'; the empty string is one empty subtag. */
  function Split(s: string): (parts: seq<string>)
    ensures |parts| >= 1
    ensures AllDashFree(parts)
  {
    if s == [] then [""]
    else
      var rest := Split(s[1..]);
      if s[0] == '-' then [""] + rest
      else [[s[0]] + rest[0]] + rest[1..]
  }

  /** Joining the pieces of a split restores the string. */
  lemma {:induction false} JoinSplit(s: string)
    ensures Join(Split(s)) == s
  {
    if s != [] {
      var rest := Split(s[1..]);
      JoinSplit(s[1..]);
      assert Join(rest) == rest[0] + Dashed(rest[1..]);
      if s[0] == '-' {
        assert Split(s) == [""] + rest;
        assert Join(Split(s)) == "" + Dashed(rest);
        assert Dashed(rest) == "-" + rest[0] + Dashed(rest[1..]);
        assert s == [s[0]] + s[1..];
      } else {
        var parts := [[s[0]] + rest[0]] + rest[1..];
        assert Split(s) == parts;
        assert parts[1..] == rest[1..];
        assert Join(parts) == [s[0]] + rest[0] + Dashed(rest[1..]);
        assert s == [s[0]] + s[1..];
      }
    }
  }

  lemma {:induction false} SplitDashFree(p: string)
    requires DashFree(p)
    ensures Split(p) == [p]
  {
    if p != [] {
      assert DashFree(p[1..]) by {
        assert forall i :: 0 <= i < |p[1..]| ==> p[1..][i] == p[i + 1];
      }
      SplitDashFree(p[1..]);
      assert [p[0]] + p[1..] == p;
    }
  }

  lemma {:induction false} SplitAfterSubtag(p: string, x: string)
    requires DashFree(p)
    ensures Split(p + "-" + x) == [p] + Split(x)
  {
    if p == [] {
      assert p + "-" + x == "-" + x;
      assert ("-" + x)[1..] == x;
    } else {
      var s := p + "-" + x;
      assert s[0] == p[0] && s[1..] == p[1..] + "-" + x;
      assert DashFree(p[1..]) by {
        assert forall i :: 0 <= i < |p[1..]| ==> p[1..][i] == p[i + 1];
      }
      SplitAfterSubtag(p[1..], x);
      assert [p[0]] + p[1..] == p;
    }
  }

  lemma {:induction false} SplitDashed(p: string, ss: seq<string>)
    requires DashFree(p) && AllDashFree(ss)
    ensures Split(p + Dashed(ss)) == [p] + ss
    decreases |ss|
  {
    if ss == [] {
      assert p + Dashed(ss) == p;
      SplitDashFree(p);
    } else {
      assert p + Dashed(ss) == p + "-" + (ss[0] + Dashed(ss[1..]));
      SplitAfterSubtag(p, ss[0] + Dashed(ss[1..]));
      SplitDashed(ss[0], ss[1..]);
      assert [ss[0]] + ss[1..] == ss;
    }
  }

  /** Splitting a join of dash-free subtags gives the subtags back. */
  lemma SplitJoin(ss: seq<string>)
    requires ss != [] && AllDashFree(ss)
    ensures Split(Join(ss)) == ss
  {
    SplitDashed(ss[0], ss[1..]);
    assert [ss[0]] + ss[1..] == ss;
  }

  // ---------------------------------------------------------------------
  // Prefixes of joined subtag lists

  lemma ShorterSubtagNoPrefix(q: string, x: string, p: string, y: string)
    requires DashFree(p) && |q| < |p|
    ensures !(q + "-" + x <= p + y)
  {
    assert (q + "-" + x)[|q|] == '-';
    assert (p + y)[|q|] == p[|q|];
  }

  lemma LongerSubtagNoPrefix(q: string, x: string, p: string, y: string)
    requires DashFree(q) && |q| > |p| && (y == [] || y[0] == '-')
    ensures !(q + "-" + x <= p + y)
  {
    assert (q + "-" + x)[|p|] == q[|p|];
    if y != [] {
      assert (p + y)[|p|] == '-';
    }
  }

  /** A dash-free subtag followed by '-' starts a string only where that string's first subtag is the same. */
  lemma SubtagBoundary(q: string, p: string, x: string, y: string)
    requires DashFree(q) && DashFree(p) && (y == [] || y[0] == '-')
    ensures q + "-" + x <= p + y <==> q == p && "-" + x <= y
  {
    var a := q + "-" + x;
    if a <= p + y {
      if |q| < |p| {
        ShorterSubtagNoPrefix(q, x, p, y);
        assert false;
      } else if |q| > |p| {
        LongerSubtagNoPrefix(q, x, p, y);
        assert false;
      } else {
        assert q == a[..|q|] == (p + y)[..|p|] == p;
        assert "-" + x == a[|q|..];
        assert y == (p + y)[|p|..];
      }
    }
    if q == p && "-" + x <= y {
      assert a == p + ("-" + x);
    }
  }

  lemma PrefixAfterCommonHead(c: string, x: string, y: string)
    ensures c + x <= c + y <==> x <= y
  {
    if c + x <= c + y {
      assert x == (c + x)[|c|..] && y == (c + y)[|c|..];
    }
    if x <= y {
      assert c + y == c + x + y[|x|..];
    }
  }

  /** A proper leading run of a non-empty list is its head followed by a proper leading run of its tail. */
  lemma LeadingRunCons(ps: seq<string>, qs: seq<string>)
    requires ps != [] && qs != []
    ensures (|qs| < |ps| && ps[..|qs|] == qs) <==>
      (qs[0] == ps[0] && |qs[1..]| < |ps[1..]| && ps[1..][..|qs[1..]|] == qs[1..])
  {
    if |qs| < |ps| && ps[..|qs|] == qs {
      assert ps[1..][..|qs[1..]|] == ps[..|qs|][1..];
    }
    if qs[0] == ps[0] && |qs[1..]| < |ps[1..]| && ps[1..][..|qs[1..]|] == qs[1..] {
      assert ps[..|qs|] == [ps[0]] + ps[1..][..|qs[1..]|];
      assert qs == [qs[0]] + qs[1..];
    }
  }

  /** The joined list as its first subtag followed by the dashed rest. */
  lemma JoinHead(ps: seq<string>)
    requires ps != []
    ensures Join(ps) == ps[0] + Dashed(ps[1..])
    ensures Dashed(ps[1..]) == [] || Dashed(ps[1..])[0] == '-'
    ensures ps[1..] != [] ==> Dashed(ps[1..]) == "-" + Join(ps[1..])
  {
  }

  /** The one-subtag case of JoinedPrefix. */
  lemma JoinedPrefixOne(ps: seq<string>, q: string)
    requires AllDashFree(ps) && DashFree(q)
    ensures Join([q]) + "-" <= Join(ps) <==> 1 < |ps| && ps[..1] == [q]
  {
    if ps == [] {
      assert |Join([q]) + "-"| > 0 == |Join(ps)|;
    } else {
      var p, y := ps[0], Dashed(ps[1..]);
      JoinHead(ps);
      assert Join([q]) + "-" == q + "-" + "";
      SubtagBoundary(q, p, "", y);
      if ps[1..] != [] {
        assert "-" + "" <= y;
      }
      assert ps[..1] == [p];
    }
  }

  /**
   * For dash-free subtags, "the head of the joined list starts with the
   * joined prefix list followed by '-'" means "the prefix list is a proper
   * leading sublist": matching on strings respects subtag boundaries.
   */
  lemma {:induction false} JoinedPrefix(ps: seq<string>, qs: seq<string>)
    requires AllDashFree(ps) && AllDashFree(qs) && qs != []
    ensures Join(qs) + "-" <= Join(ps) <==> |qs| < |ps| && ps[..|qs|] == qs
  {
    if |qs| == 1 {
      assert qs == [qs[0]];
      JoinedPrefixOne(ps, qs[0]);
    } else if ps == [] {
      assert |Join(qs) + "-"| > 0 == |Join(ps)|;
    } else {
      var q, p := qs[0], ps[0];
      var qr, pr := qs[1..], ps[1..];
      var y := Dashed(pr);
      JoinHead(ps);
      JoinHead(qs);
      assert Join(qs) + "-" == q + "-" + (Join(qr) + "-");
      SubtagBoundary(q, p, Join(qr) + "-", y);
      assert AllDashFree(qr) && AllDashFree(pr);
      LeadingRunCons(ps, qs);
      if pr != [] {
        JoinedPrefix(pr, qr);
        PrefixAfterCommonHead("-", Join(qr) + "-", Join(pr));
      }
    }
  }

  /** Case-insensitive form of JoinedPrefix. */
  lemma JoinedPrefixIgnoringCase(ps: seq<string>, qs: seq<string>)
    requires AllDashFree(ps) && AllDashFree(qs) && qs != []
    ensures ToLower(Join(qs) + "-") <= ToLower(Join(ps))
      <==> |qs| < |ps| && LowerAll(ps)[..|qs|] == LowerAll(qs)
  {
    LowerJoin(ps);
    LowerJoin(qs);
    ToLowerAppend(Join(qs), "-");
    assert ToLower("-") == "-";
    forall i | 0 <= i < |ps| ensures DashFree(LowerAll(ps)[i]) {
      ToLowerDashFree(ps[i]);
    }
    forall i | 0 <= i < |qs| ensures DashFree(LowerAll(qs)[i]) {
      ToLowerDashFree(qs[i]);
    }
    JoinedPrefix(LowerAll(ps), LowerAll(qs));
  }
}
