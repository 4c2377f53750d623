/** Content negotiation: choosing a renderer for the media ranges of an Accept header. */
module Negotiation {

  datatype MediaType = MediaType(mainType: string, subType: string, params: map<string, string>)

  datatype Renderer = Renderer(media: MediaType, format: string)

  datatype Selection =
    | Selected(renderer: Renderer, accepted: MediaType)
    | NotAcceptable
    | NotFound

  predicate ParamsMatch(m: MediaType, other: MediaType) {
    forall key :: key in m.params && key != "q" ==> key in other.params && other.params[key] == m.params[key]
  }

  predicate PartMatch(a: string, b: string) {
    a == "*" || b == "*" || a == b
  }

  /** Whether a media type satisfies a media range. */
  predicate Matches(m: MediaType, other: MediaType) {
    ParamsMatch(m, other) && PartMatch(m.subType, other.subType) && PartMatch(m.mainType, other.mainType)
  }

  /** How specific a media range is; a `q` alone does not count. */
  function Precedence(m: MediaType): (p: nat)
    ensures p <= 3
  {
    if m.mainType == "*" then 0
    else if m.subType == "*" then 1
    else if m.params.Keys <= {"q"} then 2
    else 3
  }

  // ---- what the ranking means ---------------------------------------------------------------------------------

  /** The meaning of a media range for a type and subtype, by section 14.1 of RFC 2616. */
  ghost predicate Admits(range: MediaType, mainType: string, subType: string) {
    (range.mainType == "*" || range.mainType == mainType) && (range.subType == "*" || range.subType == subType)
  }

  ghost predicate Concrete(m: MediaType) {
    m.mainType != "*" && m.subType != "*"
  }

  /** A media type without wildcards satisfies a range if and only if the range admits its type and subtype and has each of
      its parameters, apart from `q`, with the same value. */
  lemma MatchMeaning(m: MediaType, range: MediaType)
    requires Concrete(m)
    ensures Matches(m, range) <==>
              && Admits(range, m.mainType, m.subType)
              && forall key :: key in m.params.Keys - {"q"} ==> key in range.params && range.params[key] == m.params[key]
  {
    if Matches(m, range) {
      forall key | key in m.params.Keys - {"q"} ensures key in range.params && range.params[key] == m.params[key] {
      }
    } else if ParamsMatch(m, range) {
    } else {
      var key :| key in m.params && key != "q" && !(key in range.params && range.params[key] == m.params[key]);
      assert key in m.params.Keys - {"q"};
    }
  }

  /** Every type that the narrow range admits is admitted by the wide one. */
  ghost predicate Covers(wide: MediaType, narrow: MediaType) {
    forall mainType, subType :: mainType != "*" && subType != "*" && Admits(narrow, mainType, subType) ==> Admits(wide, mainType, subType)
  }

  ghost predicate StrictlyCovers(wide: MediaType, narrow: MediaType) {
    Covers(wide, narrow) && !Covers(narrow, wide)
  }

  /** Covering, read off the two ranges. */
  lemma CoversExactly(wide: MediaType, narrow: MediaType)
    ensures Covers(wide, narrow) <==>
              && (wide.mainType == "*" || wide.mainType == narrow.mainType)
              && (wide.subType == "*" || wide.subType == narrow.subType)
  {
    if Covers(wide, narrow) {
      // A type that is in the narrow range and, where that has a wildcard, is not named by the wide one.
      var mainType := if narrow.mainType == "*" then wide.mainType + "x" else narrow.mainType;
      var subType := if narrow.subType == "*" then wide.subType + "x" else narrow.subType;
      NotStar(wide.mainType);
      NotStar(wide.subType);
      assert Admits(narrow, mainType, subType);
      assert Admits(wide, mainType, subType);
    }
  }

  lemma NotStar(s: string)
    ensures s + "x" != "*" && s + "x" != s
  {
    assert |s + "x"| == |s| + 1;
    assert (s + "x")[|s|] == 'x';
  }

  /** The more a range covers, the lower it ranks: a range that strictly covers another ranks below it, if and only if the other
      one has a main type. */
  lemma WiderRanksLower(wide: MediaType, narrow: MediaType)
    requires StrictlyCovers(wide, narrow)
    ensures Precedence(wide) < Precedence(narrow) <==> narrow.mainType != "*"
  {
    CoversExactly(wide, narrow);
    CoversExactly(narrow, wide);
  }

  /** The range that shows why: `*` with a subtype is strictly covered by `*` with a wildcard and ranks no higher. */
  lemma SubtypeOfAnything()
    ensures var wide, narrow := MediaType("*", "*", map[]), MediaType("*", "json", map[]);
            StrictlyCovers(wide, narrow) && Precedence(wide) == Precedence(narrow)
  {
    CoversExactly(MediaType("*", "*", map[]), MediaType("*", "json", map[]));
    CoversExactly(MediaType("*", "json", map[]), MediaType("*", "*", map[]));
  }

  ghost predicate HasParameter(m: MediaType) {
    exists key :: key in m.params && key != "q"
  }

  /** Without wildcards a parameter other than `q` makes the difference. */
  lemma ParameterRanksHigher(plain: MediaType, special: MediaType)
    requires Concrete(plain) && Concrete(special) && !HasParameter(plain) && HasParameter(special)
    ensures Precedence(plain) < Precedence(special)
  {
    var key :| key in special.params && key != "q";
    assert key in special.params.Keys;
  }

  /** A range is more specific if it has a main type and is strictly covered, or has no wildcards and a parameter where the other
      one has neither. */
  ghost predicate MoreSpecific(n: MediaType, m: MediaType) {
    || (n.mainType != "*" && StrictlyCovers(m, n))
    || (Concrete(n) && Concrete(m) && HasParameter(n) && !HasParameter(m))
  }

  lemma MoreSpecificRanksHigher(n: MediaType, m: MediaType)
    requires MoreSpecific(n, m)
    ensures Precedence(m) < Precedence(n)
  {
    if n.mainType != "*" && StrictlyCovers(m, n) {
      WiderRanksLower(m, n);
    } else {
      ParameterRanksHigher(m, n);
    }
  }

  // ---- ordering --------------------------------------------------------------------------------------------

  /** `order_by_precedence`, with the empty sets left in: the most specific ranges first. */
  method OrderByPrecedence(accepts: seq<MediaType>) returns (r: seq<set<MediaType>>)
    ensures |r| == 4 && forall k, m :: 0 <= k < 4 ==> (m in r[k] <==> m in accepts && Precedence(m) == 3 - k)
  {
    r := [{}, {}, {}, {}];
    var i := 0;
    while i < |accepts|
      invariant 0 <= i <= |accepts| && |r| == 4
      invariant forall k, m :: 0 <= k < 4 ==> (m in r[k] <==> m in accepts[..i] && Precedence(m) == 3 - k)
    {
      var p := Precedence(accepts[i]);
      r := r[3 - p := r[3 - p] + {accepts[i]}];
      assert accepts[..i + 1] == accepts[..i] + [accepts[i]];
      i := i + 1;
    }
    assert accepts[..i] == accepts;
  }

  /** The renderers of a format. */
  function OfFormat(renderers: seq<Renderer>, format: string): (r: seq<Renderer>) {
    if renderers == [] then []
    else OfFormat(renderers[..|renderers| - 1], format)
         + if renderers[|renderers| - 1].format == format then [renderers[|renderers| - 1]] else []
  }

  lemma {:induction false} OfFormatMembers(renderers: seq<Renderer>, format: string)
    ensures forall r :: r in OfFormat(renderers, format) <==> r in renderers && r.format == format
  {
    if renderers != [] {
      OfFormatMembers(renderers[..|renderers| - 1], format);
      assert renderers == renderers[..|renderers| - 1] + [renderers[|renderers| - 1]];
    }
  }

  /** ... in their order. */
  lemma {:induction false} OfFormatConcat(a: seq<Renderer>, b: seq<Renderer>, format: string)
    ensures OfFormat(a + b, format) == OfFormat(a, format) + OfFormat(b, format)
  {
    if b == [] {
      assert a + b == a;
    } else {
      var t, x := b[..|b| - 1], b[|b| - 1];
      OfFormatConcat(a, t, format);
      assert (a + b)[..|a + b| - 1] == a + t && (a + b)[|a + b| - 1] == x;
    }
  }

  /** The renderers a request is negotiated against: an empty suffix leaves all. */
  function Candidates(renderers: seq<Renderer>, suffix: string): (r: seq<Renderer>) {
    if suffix == "" then renderers else OfFormat(renderers, suffix)
  }

  /** The media type that is reported as accepted: the more specific of the two, with the parameters of the request. */
  function Accepted(media: MediaType, range: MediaType): (r: MediaType) {
    if Precedence(media) > Precedence(range)
    then MediaType(media.mainType, media.subType, media.params + range.params)
    else range
  }

  /** What is reported is at least as specific as what was asked for and as what the renderer makes. */
  lemma AcceptedIsSpecific(media: MediaType, range: MediaType)
    ensures Precedence(Accepted(media, range)) >= Precedence(media) && Precedence(Accepted(media, range)) >= Precedence(range)
  {
    var r := Accepted(media, range);
    if Precedence(media) > Precedence(range) {
      assert media.params.Keys <= r.params.Keys;
    }
  }

  /** A client that accepts anything is told the type of the renderer, with the parameters it asked for. */
  lemma AnythingAccepted(media: MediaType, range: MediaType)
    requires Concrete(media) && range.mainType == "*" && range.subType == "*"
    ensures var r := Accepted(media, range);
            && r.mainType == media.mainType && r.subType == media.subType && r.params.Keys == media.params.Keys + range.params.Keys
            && (forall key :: key in range.params ==> r.params[key] == range.params[key])
            && (forall key :: key in media.params && key !in range.params ==> r.params[key] == media.params[key])
  {
  }

  /** The renderer satisfies the media type that is reported as accepted. */
  lemma AcceptedIsSatisfied(media: MediaType, range: MediaType)
    requires Matches(media, range)
    ensures Matches(media, Accepted(media, range))
  {
  }

  ghost predicate Acceptable(rs: seq<Renderer>, accepts: seq<MediaType>) {
    exists j, m :: 0 <= j < |rs| && m in accepts && Matches(rs[j].media, m)
  }

  /** The renderer at `i` for the range `m` is the choice: no range of higher precedence is satisfied by any candidate, and
      none of the same precedence by an earlier one. */
  ghost predicate Best(rs: seq<Renderer>, accepts: seq<MediaType>, i: nat, m: MediaType) {
    && i < |rs| && m in accepts && Matches(rs[i].media, m)
    && (forall j, n :: 0 <= j < |rs| && n in accepts && Matches(rs[j].media, n) ==> Precedence(n) <= Precedence(m))
    && (forall j, n :: 0 <= j < i && n in accepts && Matches(rs[j].media, n) ==> Precedence(n) < Precedence(m))
  }

  /** One renderer against one set of ranges, in any order of the set. */
  method FirstMatch(media: MediaType, ranges: set<MediaType>) returns (found: bool, m: MediaType)
    ensures found ==> m in ranges && Matches(media, m)
    ensures !found ==> forall n :: n in ranges ==> !Matches(media, n)
  {
    found, m := false, media;
    var todo := ranges;
    while todo != {}
      invariant todo <= ranges && forall n :: n in ranges && n !in todo ==> !Matches(media, n)
      decreases todo
    {
      var n :| n in todo;
      if Matches(media, n) {
        return true, n;
      }
      todo := todo - {n};
    }
  }

  lemma BestIsSpecific(rs: seq<Renderer>, accepts: seq<MediaType>, i: nat, m: MediaType)
    requires Best(rs, accepts, i, m)
    ensures forall j, n :: 0 <= j < |rs| && n in accepts && Matches(rs[j].media, n) ==> !MoreSpecific(n, m)
  {
    hide Matches, MoreSpecific, Precedence;
    forall j, n | 0 <= j < |rs| && n in accepts && Matches(rs[j].media, n) ensures !MoreSpecific(n, m) {
      if MoreSpecific(n, m) {
        MoreSpecificRanksHigher(n, m);
      }
    }
  }

  /** `select_renderer`. */
  method SelectRenderer(renderers: seq<Renderer>, accepts: seq<MediaType>, suffix: string) returns (s: Selection, ghost at: nat, ghost range: MediaType)
    ensures s.NotFound? <==> suffix != "" && forall r :: r in renderers ==> r.format != suffix
    ensures s.NotAcceptable? <==> !s.NotFound? && !Acceptable(Candidates(renderers, suffix), accepts)
    ensures s.Selected? ==>
              var rs := Candidates(renderers, suffix);
              Best(rs, accepts, at, range) && s.renderer == rs[at] && s.accepted == Accepted(rs[at].media, range)
    // no candidate satisfies a more specific range
    ensures s.Selected? ==>
              var rs := Candidates(renderers, suffix);
              forall j, n :: 0 <= j < |rs| && n in accepts && Matches(rs[j].media, n) ==> !MoreSpecific(n, range)
  {
    hide MoreSpecific, Matches, Precedence, Accepted, OfFormat;
    at, range := 0, MediaType("", "", map[]);
    var rs := renderers;
    OfFormatMembers(renderers, suffix);
    if suffix != "" {
      rs := OfFormat(renderers, suffix);
      if rs == [] {
        s := NotFound;
        return;
      }
      assert rs[0] in rs;
    }
    var sets := OrderByPrecedence(accepts);
    var k := 0;
    while k < 4
      invariant 0 <= k <= 4
      invariant forall j, n :: 0 <= j < |rs| && n in accepts && Matches(rs[j].media, n) ==> Precedence(n) <= 3 - k
    {
      var i := 0;
      while i < |rs|
        invariant 0 <= i <= |rs|
        invariant forall j, n :: 0 <= j < i && n in accepts && Matches(rs[j].media, n) ==> Precedence(n) < 3 - k
      {
        var found, m := FirstMatch(rs[i].media, sets[k]);
        if found {
          at, range := i, m;
          assert m in accepts && Acceptable(rs, accepts);
          s := Selected(rs[i], Accepted(rs[i].media, m));
          BestIsSpecific(rs, accepts, i, m);
          return;
        }
        i := i + 1;
      }
      k := k + 1;
    }
    s := NotAcceptable;
  }

  /** The renderer and the precedence do not depend on the order of the accepted ranges. */
  lemma PrecedenceIsUnique(rs: seq<Renderer>, accepts: seq<MediaType>, accepts': seq<MediaType>, i: nat, m: MediaType, i': nat, m': MediaType)
    requires multiset(accepts) == multiset(accepts') && Best(rs, accepts, i, m) && Best(rs, accepts', i', m')
    ensures i == i' && Precedence(m) == Precedence(m')
  {
    hide Matches, Precedence;
    assert forall n :: n in accepts <==> n in multiset(accepts);
    assert forall n :: n in accepts' <==> n in multiset(accepts');
    assert m in accepts' && m' in accepts;
  }
}
