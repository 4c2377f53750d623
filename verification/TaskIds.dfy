/** Task IDs: user ID, task type, owner ID, task group and datacenter ID written without separators, followed by a
    24-character suffix from a UUID. */
module TaskIds {
  import opened Options
  import opened Strings

  const SUFFIX: nat := 24

  /** Task types and groups. */
  const TT := {"d", "e", "a", "m", "i", "f"}
  const TG := {"d", "u"}

  predicate IsLetter(c: char) {
    'a' <= c <= 'z' || 'A' <= c <= 'Z'
  }

  /** Python's `str.isdigit`. */
  predicate IsDigits(s: string) {
    s != "" && forall i :: 0 <= i < |s| ==> '0' <= s[i] <= '9'
  }

  // ---- pieces --------------------------------------------------------------------------------------------

  /** The length of the leading run of letters, or of other characters. */
  function Span(s: string, letters: bool): (n: nat)
    ensures n <= |s|
  {
    if s == "" || IsLetter(s[0]) != letters then 0 else 1 + Span(s[1..], letters)
  }

  /** `re.split` on `([a-zA-Z]+)`: runs of other characters and of letters in turn, beginning and ending with a run,
      perhaps empty, of other characters. */
  function Pieces(s: string): (r: seq<string>)
    decreases |s|
  {
    var n := Span(s, false);
    if n == |s| then [s]
    else
      var rest := s[n..];
      var m := Span(rest, true);
      if m == 0 then [s] else [s[..n], rest[..m]] + Pieces(rest[m..])
  }

  function Concat(parts: seq<string>): (r: string) {
    if parts == [] then "" else parts[0] + Concat(parts[1..])
  }

  lemma ConcatTwo(a: string, b: string, parts: seq<string>)
    ensures Concat([a, b] + parts) == a + (b + Concat(parts))
  {
    var l := [a, b] + parts;
    assert l[1..] == [b] + parts && l[1..][1..] == parts;
  }

  lemma ConcatOne(a: string)
    ensures Concat([a]) == a
  {
    assert Concat([a]) == a + Concat([]);
  }

  lemma {:induction false} ConcatPieces(s: string)
    ensures Concat(Pieces(s)) == s
    decreases |s|
  {
    hide Concat, Span;
    ConcatOne(s);
    var n := Span(s, false);
    if n < |s| {
      var rest := s[n..];
      var m := Span(rest, true);
      if m > 0 {
        ConcatPieces(rest[m..]);
        ConcatTwo(s[..n], rest[..m], Pieces(rest[m..]));
        assert s == s[..n] + (rest[..m] + rest[m..]);
      }
    }
  }

  lemma {:induction false} SpanIs(a: string, rest: string, letters: bool)
    requires forall i :: 0 <= i < |a| ==> IsLetter(a[i]) == letters
    requires rest == "" || IsLetter(rest[0]) != letters
    ensures Span(a + rest, letters) == |a|
  {
    if a == "" {
      assert a + rest == rest;
    } else {
      SpanIs(a[1..], rest, letters);
      assert (a + rest)[1..] == a[1..] + rest;
    }
  }

  lemma PiecesStep(a: string, b: string, rest: string)
    requires forall i :: 0 <= i < |a| ==> !IsLetter(a[i])
    requires b != "" && forall i :: 0 <= i < |b| ==> IsLetter(b[i])
    requires rest == "" || !IsLetter(rest[0])
    ensures Pieces(a + b + rest) == [a, b] + Pieces(rest)
  {
    var s := a + b + rest;
    assert s == a + (b + rest);
    SpanIs(a, b + rest, false);
    SpanIs(b, rest, true);
    assert s[|a|..] == b + rest && (b + rest)[|b|..] == rest && s[..|a|] == a && (b + rest)[..|b|] == b;
  }

  lemma PiecesLast(a: string)
    requires forall i :: 0 <= i < |a| ==> !IsLetter(a[i])
    ensures Pieces(a) == [a]
  {
    SpanIs(a, "", false);
    assert a + "" == a;
  }

  // ---- the codec -------------------------------------------------------------------------------------------

  /** The five fields of a task ID. */
  datatype Fields = Fields(user: string, tt: string, owner: string, tg: string, dc: string)

  predicate Legal(f: Fields) {
    IsDigits(f.user) && f.tt in TT && IsDigits(f.owner) && f.tg in TG && IsDigits(f.dc)
  }

  function Prefix(f: Fields): (r: string) {
    f.user + f.tt + f.owner + f.tg + f.dc
  }

  /** A UUID as text: hexadecimal digits in groups of 8, 4, 4, 4 and 12. */
  ghost predicate IsUuid(x: string) {
    |x| == 36 && forall i :: 0 <= i < 36 ==> (x[i] == '-' <==> i in {8, 13, 18, 23})
  }

  ghost predicate IsDigest(h: string) {
    |h| == 32 && '-' !in h
  }

  /** `task_id_from_string` with the UUID and, for dummy tasks, the digest of the user ID. */
  function MakeId(prefix: string, uuid: string, dummy: Option<string>): (r: string)
    requires |uuid| == 36 && (dummy.Some? ==> |dummy.value| == 32)
  {
    if dummy.Some? then prefix + "-" + dummy.value[24..] + uuid[8..23] else prefix + "-" + uuid[..23]
  }

  /** `task_id[:-24]` and `task_id[-24:]`. */
  function Head(id: string): (r: string) {
    if |id| >= SUFFIX then id[..|id| - SUFFIX] else ""
  }

  function Suffix(id: string): (r: string) {
    if |id| >= SUFFIX then id[|id| - SUFFIX..] else id
  }

  const DEFAULTS := ["", "e", "1", "d", "1"]

  /** `task_prefix_from_task_id`: missing fields take their defaults. */
  function ParseId(id: string): (r: seq<string>)
    ensures |r| >= 5
  {
    var tp := Pieces(Head(id));
    if |tp| < 5 then tp + DEFAULTS[|tp|..] else tp
  }

  /** An ID with nothing but a user ID before its suffix is that of an ordinary task in the default datacenter. */
  lemma DefaultsFill(user: string, suffix: string)
    requires IsDigits(user) && |suffix| == SUFFIX
    ensures ParseId(user + suffix) == [user, "e", "1", "d", "1"]
  {
    DigitsApart(user);
    PiecesLast(user);
    assert Head(user + suffix) == user;
  }

  function FieldList(f: Fields): (r: seq<string>) {
    [f.user, f.tt, f.owner, f.tg, f.dc]
  }

  predicate ValidId(id: string) {
    var parts := Split(id, '-');
    && |parts| == 5 && |parts[1]| == 8 && |parts[2]| == 4 && |parts[3]| == 4 && |parts[4]| == 4
    && var tp := Pieces(parts[0]);
       |tp| == 5 && IsDigits(tp[0]) && IsDigits(tp[2]) && IsDigits(tp[4]) && tp[1] in TT && tp[3] in TG
  }

  /** A suffix of the right shape. */
  ghost predicate IsSuffix(s: string) {
    |s| == SUFFIX && forall i :: 0 <= i < SUFFIX ==> (s[i] == '-' <==> i in {0, 9, 14, 19})
  }

  lemma DigitsApart(s: string)
    requires IsDigits(s)
    ensures s != "" && '-' !in s && forall i :: 0 <= i < |s| ==> !IsLetter(s[i])
  {
  }

  lemma CodeIsLetter(s: string)
    requires s in TT || s in TG
    ensures |s| == 1 && '-' !in s && IsLetter(s[0])
  {
  }

  lemma PrefixPieces(f: Fields)
    requires Legal(f)
    ensures Pieces(Prefix(f)) == FieldList(f) && '-' !in Prefix(f)
  {
    hide Pieces, IsDigits, IsLetter;
    DigitsApart(f.user);
    DigitsApart(f.owner);
    DigitsApart(f.dc);
    CodeIsLetter(f.tt);
    CodeIsLetter(f.tg);
    var tail := f.owner + f.tg + f.dc;
    assert Prefix(f) == f.user + f.tt + tail;
    PiecesStep(f.user, f.tt, tail) by {
      assert forall i :: 0 <= i < |f.tt| ==> IsLetter(f.tt[i]);
      assert tail[0] == f.owner[0];
    }
    PiecesStep(f.owner, f.tg, f.dc);
    PiecesLast(f.dc);
    assert [f.user, f.tt] + ([f.owner, f.tg] + [f.dc]) == FieldList(f);
  }

  lemma SuffixSplits(p: string, s: string)
    requires '-' !in p && IsSuffix(s)
    ensures Split(p + s, '-') == [p, s[1..9], s[10..14], s[15..19], s[20..24]]
  {
    hide Split;
    var t := s[1..];
    assert p + s == p + "-" + t;
    SplitFirst(p, t, '-');
    assert t == s[1..9] + "-" + s[10..];
    SplitFirst(s[1..9], s[10..], '-');
    assert s[10..] == s[10..14] + "-" + s[15..];
    SplitFirst(s[10..14], s[15..], '-');
    assert s[15..] == s[15..19] + "-" + s[20..];
    SplitFirst(s[15..19], s[20..], '-');
    SplitNone(s[20..], '-');
    assert s[20..] == s[20..24];
  }

  /** The suffix of a made ID. */
  function SuffixOf(uuid: string, dummy: Option<string>): (r: string)
    requires |uuid| == 36 && (dummy.Some? ==> |dummy.value| == 32)
  {
    if dummy.Some? then "-" + dummy.value[24..] + uuid[8..23] else "-" + uuid[..23]
  }

  lemma SuffixChars(uuid: string, dummy: Option<string>)
    requires IsUuid(uuid) && (dummy.Some? ==> IsDigest(dummy.value))
    ensures IsSuffix(SuffixOf(uuid, dummy))
    ensures SuffixOf(uuid, dummy)[1..9] == if dummy.Some? then dummy.value[24..] else uuid[..8]
  {
    var suffix := SuffixOf(uuid, dummy);
    forall i | 0 <= i < SUFFIX ensures suffix[i] == '-' <==> i in {0, 9, 14, 19} {
      if i > 0 {
        if dummy.Some? && i < 9 {
          assert suffix[i] == dummy.value[23 + i];
        } else {
          assert suffix[i] == uuid[i - 1];
        }
      }
    }
    assert suffix[1..9] == if dummy.Some? then dummy.value[24..] else uuid[..8];
  }

  lemma MadeSuffix(prefix: string, uuid: string, dummy: Option<string>)
    requires IsUuid(uuid) && (dummy.Some? ==> IsDigest(dummy.value))
    ensures var id := MakeId(prefix, uuid, dummy);
            Head(id) == prefix && IsSuffix(Suffix(id)) && id == prefix + Suffix(id) && Suffix(id) == SuffixOf(uuid, dummy)
            && Suffix(id)[1..9] == (if dummy.Some? then dummy.value[24..] else uuid[..8])
  {
    hide IsSuffix;
    SuffixChars(uuid, dummy);
    var suffix := SuffixOf(uuid, dummy);
    SuffixLength(suffix);
    HeadOf(prefix, suffix);
    assert MakeId(prefix, uuid, dummy) == prefix + suffix;
  }

  /** Parsing a made ID, normal or dummy, gives back its five fields, and the ID is valid. */
  lemma ParseMade(f: Fields, uuid: string, dummy: Option<string>)
    requires Legal(f) && IsUuid(uuid) && (dummy.Some? ==> IsDigest(dummy.value))
    ensures ParseId(MakeId(Prefix(f), uuid, dummy)) == FieldList(f)
    ensures ValidId(MakeId(Prefix(f), uuid, dummy))
  {
    MadeSuffix(Prefix(f), uuid, dummy);
    PrefixPieces(f);
    ValidParts(f, Suffix(MakeId(Prefix(f), uuid, dummy)));
  }

  lemma ValidParts(f: Fields, s: string)
    requires Legal(f) && IsSuffix(s)
    ensures ValidId(Prefix(f) + s) && Head(Prefix(f) + s) == Prefix(f) && Suffix(Prefix(f) + s) == s
  {
    hide Split, Pieces, Prefix, IsSuffix;
    PrefixPieces(f);
    SuffixSplits(Prefix(f), s);
    SuffixLength(s);
    HeadOf(Prefix(f), s);
  }

  lemma SuffixLength(s: string)
    requires IsSuffix(s)
    ensures |s| == SUFFIX
  {
  }

  lemma HeadOf(p: string, s: string)
    requires |s| == SUFFIX
    ensures Head(p + s) == p && Suffix(p + s) == s
  {
  }

  /** Every valid ID consists of its five fields, all legal, and its 24-character suffix. */
  lemma ValidDecomposes(id: string) returns (f: Fields)
    requires ValidId(id)
    ensures ParseId(id) == FieldList(f) && Legal(f) && id == Prefix(f) + Suffix(id) && IsSuffix(Suffix(id)) && Head(id) == Prefix(f)
  {
    hide Split, Join, IsSuffix, Concat, IsDigits, Span;
    var parts := Split(id, '-');
    JoinSplit(id, '-');
    JoinFive(parts, '-');
    var p := parts[0];
    var s := "-" + parts[1] + "-" + parts[2] + "-" + parts[3] + "-" + parts[4];
    assert id == p + s && |s| == SUFFIX;
    assert Head(id) == p && Suffix(id) == s;
    SplitClean(id, '-');
    SuffixShape(parts[1], parts[2], parts[3], parts[4]);
    ConcatPieces(p);
    var tp := Pieces(p);
    f := Fields(tp[0], tp[1], tp[2], tp[3], tp[4]);
    assert tp == FieldList(f);
    ConcatFive(f);
  }

  lemma SuffixShape(a: string, b: string, c: string, d: string)
    requires |a| == 8 && |b| == 4 && |c| == 4 && |d| == 4 && '-' !in a && '-' !in b && '-' !in c && '-' !in d
    ensures IsSuffix("-" + a + "-" + b + "-" + c + "-" + d)
  {
    var s := "-" + a + "-" + b + "-" + c + "-" + d;
    assert s[1..9] == a && s[10..14] == b && s[15..19] == c && s[20..24] == d;
    forall i | 0 <= i < SUFFIX ensures s[i] == '-' <==> i in {0, 9, 14, 19} {
      if 1 <= i < 9 { assert s[i] == a[i - 1]; }
      else if 10 <= i < 14 { assert s[i] == b[i - 10]; }
      else if 15 <= i < 19 { assert s[i] == c[i - 15]; }
      else if 20 <= i { assert s[i] == d[i - 20]; }
    }
  }

  lemma JoinFive(parts: seq<string>, c: char)
    requires |parts| == 5
    ensures Join(parts, c) == parts[0] + ([c] + parts[1] + [c] + parts[2] + [c] + parts[3] + [c] + parts[4])
  {
    var p4 := parts[1..][1..][1..][1..];
    assert p4 == [parts[4]];
    assert Join(parts[1..][1..][1..], c) == parts[3] + [c] + parts[4];
    assert Join(parts[1..][1..], c) == parts[2] + [c] + (parts[3] + [c] + parts[4]);
    assert Join(parts[1..], c) == parts[1] + [c] + (parts[2] + [c] + (parts[3] + [c] + parts[4]));
  }

  lemma ConcatFive(f: Fields)
    ensures Concat(FieldList(f)) == Prefix(f)
  {
    var l := FieldList(f);
    assert l[1..] == [f.tt, f.owner, f.tg, f.dc] && l[1..][1..] == [f.owner, f.tg, f.dc] && l[1..][1..][1..] == [f.tg, f.dc];
    assert Concat([f.dc]) == f.dc + Concat([]);
    assert Concat([f.tg, f.dc]) == f.tg + f.dc;
    assert Concat([f.owner, f.tg, f.dc]) == f.owner + (f.tg + f.dc);
    assert Concat([f.tt, f.owner, f.tg, f.dc]) == f.tt + (f.owner + (f.tg + f.dc));
  }

  // ---- rewriting -------------------------------------------------------------------------------------------

  function FieldsOf(id: string): (r: Fields) {
    var p := ParseId(id);
    Fields(p[0], p[1], p[2], p[3], p[4])
  }

  /** New values for some fields; an empty one changes nothing. */
  predicate Fits(n: Fields) {
    (n.user == "" || IsDigits(n.user)) && (n.tt == "" || n.tt in TT) && (n.owner == "" || IsDigits(n.owner))
    && (n.tg == "" || n.tg in TG) && (n.dc == "" || IsDigits(n.dc))
  }

  function Pick(new_: string, old_: string): (r: string) {
    if new_ != "" then new_ else old_
  }

  function Replaced(f: Fields, n: Fields): (r: Fields) {
    Fields(Pick(n.user, f.user), Pick(n.tt, f.tt), Pick(n.owner, f.owner), Pick(n.tg, f.tg), Pick(n.dc, f.dc))
  }

  /** The assignments to single fields. */
  method ReplaceFields(parsed: seq<string>, n: Fields) returns (parts: seq<string>)
    requires |parsed| >= 5
    ensures parts == FieldList(Replaced(Fields(parsed[0], parsed[1], parsed[2], parsed[3], parsed[4]), n)) + parsed[5..]
  {
    parts := parsed;
    if n.user != "" { parts := parts[0 := n.user]; }
    if n.tt != "" { parts := parts[1 := n.tt]; }
    if n.owner != "" { parts := parts[2 := n.owner]; }
    if n.tg != "" { parts := parts[3 := n.tg]; }
    if n.dc != "" { parts := parts[4 := n.dc]; }
  }

  /** Rewriting fields of a valid ID changes exactly those fields, and the result is valid; the suffix is kept if asked for. */
  method TaskIdFromTaskId(id: string, n: Fields, keepSuffix: bool, uuid: string) returns (r: string)
    requires IsUuid(uuid)
    ensures ValidId(id) && Fits(n) ==> ValidId(r) && FieldsOf(r) == Replaced(FieldsOf(id), n) && |ParseId(r)| == 5
    ensures ValidId(id) && Fits(n) && keepSuffix ==> Suffix(r) == Suffix(id)
    ensures !keepSuffix ==> Suffix(r) == "-" + uuid[..23]
    ensures ValidId(id) && keepSuffix && n == Fields("", "", "", "", "") ==> r == id
  {
    hide *;
    var prefix;
    UuidLength(uuid);
    if n.user != "" || n.owner != "" || n.tt != "" || n.tg != "" || n.dc != "" {
      var parts := ReplaceFields(ParseId(id), n);
      prefix := Concat(parts);
    } else {
      prefix := Head(id);
    }
    r := if keepSuffix then prefix + Suffix(id) else MakeId(prefix, uuid, None);
    MadeSuffix(prefix, uuid, None);
    NormalSuffix(uuid);
    if ValidId(id) {
      var f := ValidDecomposes(id);
      FieldsAre(id, f);
      ConcatFive(Replaced(f, n));
      NothingReplaced(f, n);
      assert FieldList(Replaced(f, n)) + ParseId(id)[5..] == FieldList(Replaced(f, n));
      if Fits(n) {
        RewrittenIsSound(f, n, Suffix(id), uuid);
        FieldsAre(r, Replaced(f, n));
      }
    }
  }

  lemma NormalSuffix(uuid: string)
    requires |uuid| == 36
    ensures SuffixOf(uuid, None) == "-" + uuid[..23]
  {
  }

  lemma UuidLength(uuid: string)
    requires IsUuid(uuid)
    ensures |uuid| == 36
  {
  }

  lemma FieldsAre(id: string, f: Fields)
    requires ParseId(id) == FieldList(f)
    ensures FieldsOf(id) == f && |ParseId(id)| == 5
    ensures Fields(ParseId(id)[0], ParseId(id)[1], ParseId(id)[2], ParseId(id)[3], ParseId(id)[4]) == f
  {
    hide ParseId;
  }

  lemma NothingReplaced(f: Fields, n: Fields)
    ensures n == Fields("", "", "", "", "") ==> Replaced(f, n) == f
  {
  }

  lemma RewrittenIsSound(f: Fields, n: Fields, suffix: string, uuid: string)
    requires Legal(f) && Fits(n) && IsSuffix(suffix) && IsUuid(uuid)
    ensures var g := Replaced(f, n);
            && ValidId(Prefix(g) + suffix) && ParseId(Prefix(g) + suffix) == FieldList(g) && Suffix(Prefix(g) + suffix) == suffix
            && ValidId(MakeId(Prefix(g), uuid, None)) && ParseId(MakeId(Prefix(g), uuid, None)) == FieldList(g)
  {
    var g := Replaced(f, n);
    ValidParts(g, suffix);
    PrefixPieces(g);
    ParseMade(g, uuid, None);
  }

  // ---- dummy tasks -----------------------------------------------------------------------------------------

  /** `is_dummy_task`, with the digest function: the second part of the ID is the end of the digest of the user ID. */
  predicate IsDummy(id: string, md5: string -> string)
  {
    var user := ParseId(id)[0];
    var parts := Split(id, '-');
    |parts| >= 2 && |md5(user)| >= 8 && parts[1] == md5(user)[|md5(user)| - 8..]
  }

  /** Dummy IDs are recognised, and a normal ID is taken for one exactly if its UUID begins with the end of the digest. */
  lemma DummyRecognised(f: Fields, uuid: string, dummy: bool, md5: string -> string)
    requires Legal(f) && IsUuid(uuid) && IsDigest(md5(f.user))
    ensures var id := MakeId(Prefix(f), uuid, if dummy then Some(md5(f.user)) else None);
            IsDummy(id, md5) <==> dummy || uuid[..8] == md5(f.user)[24..]
  {
    hide Pieces, Split, ValidId, Span, Concat;
    var digest := if dummy then Some(md5(f.user)) else None;
    var id := MakeId(Prefix(f), uuid, digest);
    ParseMade(f, uuid, digest);
    MadeSuffix(Prefix(f), uuid, digest);
    PrefixPieces(f);
    SuffixSplits(Prefix(f), Suffix(id));
  }
}
