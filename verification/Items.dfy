/** The text form of item lists in the web forms: printing a list into an input field and parsing it back. */
module Items {
  import opened Strings

  predicate IsSpace(c: char) {
    c in {' ', '\t', '\n', '\r', '\U{0b}', '\U{0c}'}
  }

  /** Python's `strip`. */
  function Strip(s: string): (r: string)
    decreases |s|
  {
    if s == "" then ""
    else if IsSpace(s[0]) then Strip(s[1..])
    else if IsSpace(s[|s| - 1]) then Strip(s[..|s| - 1])
    else s
  }

  /** The word that a part of a text stands for, if any. */
  function Word(part: string): (r: seq<string>) {
    if Strip(part) == "" then [] else [Strip(part)]
  }

  function Stripped(parts: seq<string>): (r: seq<string>) {
    if parts == [] then [] else Word(parts[0]) + Stripped(parts[1..])
  }

  /** taggit's `split_strip` with a comma. */
  function SplitStrip(text: string): (r: seq<string>) {
    Stripped(Split(text, ','))
  }

  function SplitAll(chunks: seq<string>): (r: seq<string>) {
    if chunks == [] then [] else SplitAll(chunks[..|chunks| - 1]) + SplitStrip(chunks[|chunks| - 1])
  }

  lemma Associative<T>(a: seq<T>, b: seq<T>, c: seq<T>)
    ensures (a + b) + c == a + (b + c)
  {
  }

  lemma {:induction false} StrippedConcat(a: seq<string>, b: seq<string>)
    ensures Stripped(a + b) == Stripped(a) + Stripped(b)
  {
    hide Word;
    if a == [] {
      assert a + b == b;
    } else {
      StrippedConcat(a[1..], b);
      assert (a + b)[1..] == a[1..] + b;
      Associative(Word(a[0]), Stripped(a[1..]), Stripped(b));
    }
  }

  /** Text on both sides of a comma is split on its own. */
  lemma SplitStripBoth(a: string, b: string)
    ensures SplitStrip(a + "," + b) == SplitStrip(a) + SplitStrip(b)
  {
    SplitBoth(a, b, ',');
    StrippedConcat(Split(a, ','), Split(b, ','));
  }

  lemma SplitStripEmpty()
    ensures SplitStrip("") == []
  {
    assert Split("", ',') == [""];
    assert Stripped([""]) == Word("") + Stripped([]);
  }

  // ---- parsing -----------------------------------------------------------------------------------------------

  /** The state of the parser between two characters. */
  datatype Scan = Scan(words: seq<string>, chunks: seq<string>, buf: string, quoted: bool)

  function Flush(chunks: seq<string>, buf: string): (r: seq<string>) {
    if buf == "" then chunks else chunks + [buf]
  }

  function AddWord(words: seq<string>, buf: string): (r: seq<string>) {
    words + Word(buf)
  }

  function Next(st: Scan, c: char): (r: Scan) {
    if c != '"' then st.(buf := st.buf + [c])
    else if st.quoted then Scan(AddWord(st.words, st.buf), st.chunks, "", false)
    else Scan(st.words, Flush(st.chunks, st.buf), "", true)
  }

  function ScanAll(st: Scan, s: string): (r: Scan) {
    if s == "" then st else Next(ScanAll(st, s[..|s| - 1]), s[|s| - 1])
  }

  const START := Scan([], [], "", false)

  /** Quoted words first, then the words of the unquoted text; an open quote counts as unquoted. */
  function Parsed(s: string): (r: seq<string>) {
    var st := ScanAll(START, s);
    st.words + SplitAll(Flush(st.chunks, st.buf))
  }

  lemma ScanNext(st: Scan, s: string, c: char)
    ensures ScanAll(st, s + [c]) == Next(ScanAll(st, s), c)
  {
    assert (s + [c])[..|s|] == s;
  }

  lemma {:induction false} ScanConcat(st: Scan, a: string, b: string)
    ensures ScanAll(st, a + b) == ScanAll(ScanAll(st, a), b)
  {
    if b == "" {
      assert a + b == a;
    } else {
      var t, c := b[..|b| - 1], b[|b| - 1];
      ScanConcat(st, a, t);
      assert a + b == (a + t) + [c] && b == t + [c];
      ScanNext(st, a + t, c);
      ScanNext(ScanAll(st, a), t, c);
    }
  }

  lemma {:induction false} ScanPlain(st: Scan, s: string)
    requires '"' !in s
    ensures ScanAll(st, s) == st.(buf := st.buf + s)
  {
    if s == "" {
      assert st.buf + s == st.buf;
    } else {
      var t, c := s[..|s| - 1], s[|s| - 1];
      assert c in s && s == t + [c];
      ScanPlain(st, t);
      assert st.buf + s == (st.buf + t) + [c];
    }
  }

  /** The loop of `parse_items`: the words in quotes and the pieces of unquoted text. */
  method ScanItems(s: string) returns (words: seq<string>, chunks: seq<string>)
    ensures words == ScanAll(START, s).words && chunks == Flush(ScanAll(START, s).chunks, ScanAll(START, s).buf)
  {
    hide ScanAll, Strip;
    words, chunks := [], [];
    var buf := "";
    var i := 0;
    ScanNothing(START);
    while i < |s|
      invariant 0 <= i <= |s| && ScanAll(START, s[..i]) == Scan(words, chunks, buf, false)
    {
      var c := s[i];
      ScanNext(START, s[..i], c);
      assert s[..i + 1] == s[..i] + [c];
      i := i + 1;
      if c == '"' {
        if buf != "" {
          chunks, buf := chunks + [buf], "";
        }
        while i < |s| && s[i] != '"'
          invariant 0 < i <= |s| && ScanAll(START, s[..i]) == Scan(words, chunks, buf, true)
        {
          ScanNext(START, s[..i], s[i]);
          assert s[..i + 1] == s[..i] + [s[i]];
          buf := buf + [s[i]];
          i := i + 1;
        }
        if i == |s| {
          break;
        }
        ScanNext(START, s[..i], s[i]);
        assert s[..i + 1] == s[..i] + [s[i]];
        i := i + 1;
        if buf != "" {
          var word := Strip(buf);
          if word != "" {
            words := words + [word];
          }
          buf := "";
        } else {
          StripNothing();
        }
      } else {
        buf := buf + [c];
      }
    }
    assert s[..i] == s;
    if buf != "" {
      chunks := chunks + [buf];
    }
  }

  lemma ScanNothing(st: Scan)
    ensures ScanAll(st, "") == st
  {
  }

  lemma StripNothing()
    ensures Strip("") == ""
  {
  }

  // ---- printing ----------------------------------------------------------------------------------------------

  /** One entry of the printed list. */
  datatype Token = Token(item: string, quoted: bool)

  function Text(t: Token): (r: string) {
    if t.quoted then "\"" + t.item + "\"" else t.item
  }

  function Texts(tokens: seq<Token>): (r: seq<string>) {
    seq(|tokens|, i requires 0 <= i < |tokens| => Text(tokens[i]))
  }

  function Printed(tokens: seq<Token>): (r: string) {
    Join(Texts(tokens), ',')
  }

  /** An item with a space is printed in quotes, and then once more: in quotes if it has a comma, without them if not. */
  function TokensOf(item: string, escapeSpace: bool, escapeComma: bool): (r: seq<Token>) {
    (if escapeSpace && ' ' in item then [Token(item, true)] else []) + [Token(item, escapeComma && ',' in item)]
  }

  function AllTokens(items: seq<string>, escapeSpace: bool, escapeComma: bool): (r: seq<Token>) {
    if items == [] then []
    else AllTokens(items[..|items| - 1], escapeSpace, escapeComma) + TokensOf(items[|items| - 1], escapeSpace, escapeComma)
  }

  function QuotedItems(tokens: seq<Token>): (r: seq<string>) {
    if tokens == [] then []
    else QuotedItems(tokens[..|tokens| - 1]) + if tokens[|tokens| - 1].quoted then [tokens[|tokens| - 1].item] else []
  }

  function PlainItems(tokens: seq<Token>): (r: seq<string>) {
    if tokens == [] then []
    else PlainItems(tokens[..|tokens| - 1]) + if tokens[|tokens| - 1].quoted then [] else [tokens[|tokens| - 1].item]
  }

  /** Non-empty, without spaces around it, and without quotes. */
  ghost predicate Clean(item: string) {
    item != "" && Strip(item) == item && '"' !in item
  }

  ghost predicate Readable(t: Token) {
    Clean(t.item) && (t.quoted || ',' !in t.item)
  }

  // ---- parsing what was printed --------------------------------------------------------------------------------

  lemma CleanWord(item: string)
    requires Clean(item)
    ensures Word(item) == [item] && (',' !in item ==> SplitStrip(item) == [item])
  {
    if ',' !in item {
      SplitNone(item, ',');
      assert Stripped([item]) == Word(item) + Stripped([]);
    }
  }

  lemma {:induction false} JoinSnoc(parts: seq<string>, last: string, c: char)
    ensures Join(parts + [last], c) == if parts == [] then last else Join(parts, c) + [c] + last
  {
    if |parts| == 1 {
      assert (parts + [last])[1..] == [last];
    } else if |parts| > 1 {
      JoinSnoc(parts[1..], last, c);
      assert (parts + [last])[1..] == parts[1..] + [last];
    }
  }

  lemma PrintedSnoc(tokens: seq<Token>, t: Token)
    ensures Printed(tokens + [t]) == if tokens == [] then Text(t) else Printed(tokens) + "," + Text(t)
  {
    JoinSnoc(Texts(tokens), Text(t), ',');
    assert Texts(tokens + [t]) == Texts(tokens) + [Text(t)];
  }

  /** What the unquoted text read so far amounts to. */
  function Plain(st: Scan): (r: seq<string>) {
    SplitAll(st.chunks) + SplitStrip(st.buf)
  }

  lemma FlushAll(chunks: seq<string>, buf: string)
    ensures SplitAll(Flush(chunks, buf)) == SplitAll(chunks) + SplitStrip(buf)
  {
    if buf == "" {
      SplitStripEmpty();
    } else {
      assert (chunks + [buf])[..|chunks|] == chunks;
    }
  }

  /** Reading a separator: it changes nothing in what was read. */
  lemma CommaRead(st: Scan)
    requires !st.quoted
    ensures ScanAll(st, ",") == st.(buf := st.buf + ",") && Plain(ScanAll(st, ",")) == Plain(st)
  {
    ScanPlain(st, ",");
    SplitStripBoth(st.buf, "");
    SplitStripEmpty();
    assert st.buf + "," + "" == st.buf + ",";
  }

  lemma QuotedRead(st: Scan, item: string)
    requires !st.quoted && Clean(item)
    ensures var r := ScanAll(st, "\"" + item + "\"");
            !r.quoted && r.buf == "" && r.words == st.words + [item] && Plain(r) == Plain(st)
  {
    hide Plain, Strip, ScanAll, SplitAll, SplitStrip;
    var s0 := Next(st, '"');
    ScanNext(st, "", '"');
    ScanNothing(st);
    assert "" + ['"'] == "\"";
    ScanConcat(st, "\"", item);
    ScanPlain(s0, item);
    ScanNext(st, "\"" + item, '"');
    CleanWord(item);
    PlainFlushed(st, st.words + [item]);
    assert "" + item == item;
  }

  lemma PlainFlushed(st: Scan, words: seq<string>)
    ensures Plain(Scan(words, Flush(st.chunks, st.buf), "", false)) == Plain(st)
  {
    FlushAll(st.chunks, st.buf);
    SplitStripEmpty();
  }

  lemma PlainRead(st: Scan, item: string)
    requires !st.quoted && Clean(item) && ',' !in item
    ensures var r := ScanAll(st, "," + item);
            !r.quoted && r.words == st.words && Plain(r) == Plain(st) + [item]
  {
    hide Strip, ScanAll, SplitStrip;
    ScanPlain(st, "," + item);
    SplitStripBoth(st.buf, item);
    CleanWord(item);
    assert st.buf + ("," + item) == st.buf + "," + item;
  }

  lemma FirstRead(item: string)
    requires Clean(item) && ',' !in item
    ensures var r := ScanAll(START, item);
            !r.quoted && r.words == [] && Plain(r) == [item]
  {
    ScanPlain(START, item);
    CleanWord(item);
    assert "" + item == item;
  }

  ghost predicate Read(st: Scan, tokens: seq<Token>) {
    !st.quoted && st.words == QuotedItems(tokens) && Plain(st) == PlainItems(tokens)
  }

  lemma ReadFirst(t: Token)
    requires Readable(t)
    ensures Read(ScanAll(START, Text(t)), [t])
  {
    hide Strip, ScanAll, SplitStrip;
    OneItem(t);
    if t.quoted {
      QuotedRead(START, t.item);
      StartIsEmpty();
    } else {
      FirstRead(t.item);
    }
  }

  lemma OneItem(t: Token)
    ensures QuotedItems([t]) == (if t.quoted then [t.item] else []) && PlainItems([t]) == (if t.quoted then [] else [t.item])
  {
    assert [t][..0] == [];
  }

  lemma StartIsEmpty()
    ensures Plain(START) == []
  {
    SplitStripEmpty();
  }

  lemma ReadNext(st: Scan, tokens: seq<Token>, t: Token)
    requires Read(st, tokens) && Readable(t)
    ensures Read(ScanAll(st, "," + Text(t)), tokens + [t])
  {
    hide Strip, ScanAll, SplitStrip, Plain, QuotedItems, PlainItems;
    ItemsSnoc(tokens, t);
    if t.quoted {
      CommaRead(st);
      ScanConcat(st, ",", Text(t));
      QuotedRead(ScanAll(st, ","), t.item);
    } else {
      PlainRead(st, t.item);
    }
  }

  lemma ItemsSnoc(tokens: seq<Token>, t: Token)
    ensures QuotedItems(tokens + [t]) == QuotedItems(tokens) + (if t.quoted then [t.item] else [])
    ensures PlainItems(tokens + [t]) == PlainItems(tokens) + (if t.quoted then [] else [t.item])
  {
    assert (tokens + [t])[..|tokens|] == tokens;
  }

  lemma {:induction false} ReadAll(tokens: seq<Token>)
    requires forall i :: 0 <= i < |tokens| ==> Readable(tokens[i])
    ensures Read(ScanAll(START, Printed(tokens)), tokens)
  {
    hide Strip, ScanAll, SplitStrip, Plain, Readable, Read, Printed;
    if tokens == [] {
      ReadNone();
    } else {
      var front, t := tokens[..|tokens| - 1], tokens[|tokens| - 1];
      assert tokens == front + [t];
      PrintedSnoc(front, t);
      if front == [] {
        ReadFirst(t);
      } else {
        ReadAll(front);
        ScanConcat(START, Printed(front), "," + Text(t));
        assert Printed(front) + "," + Text(t) == Printed(front) + ("," + Text(t));
        ReadNext(ScanAll(START, Printed(front)), front, t);
      }
    }
  }

  lemma ReadNone()
    ensures Read(ScanAll(START, Printed([])), [])
  {
    assert Texts([]) == [];
    StartIsEmpty();
  }

  /** The exact result of parsing a printed list: first what was printed in quotes, then the rest, each in its order. */
  lemma ParsePrinted(tokens: seq<Token>)
    requires forall i :: 0 <= i < |tokens| ==> Readable(tokens[i])
    ensures Parsed(Printed(tokens)) == QuotedItems(tokens) + PlainItems(tokens)
  {
    hide ScanAll, SplitStrip, Readable, QuotedItems, PlainItems;
    ReadAll(tokens);
    var st := ScanAll(START, Printed(tokens));
    FlushAll(st.chunks, st.buf);
  }

  // ---- order ---------------------------------------------------------------------------------------------------

  /** The order of strings by code points. */
  predicate Less(a: string, b: string) {
    b != "" && (a == "" || a[0] < b[0] || (a[0] == b[0] && Less(a[1..], b[1..])))
  }

  lemma {:induction false} LessTotal(a: string, b: string)
    ensures a == b || Less(a, b) || Less(b, a)
    ensures !(Less(a, b) && Less(b, a)) && !Less(a, a)
  {
    if a != "" {
      LessTotal(a[1..], if b == "" then "" else b[1..]);
      if b != "" && a[0] == b[0] && a[1..] == b[1..] {
        assert a == [a[0]] + a[1..] && b == [b[0]] + b[1..];
      }
    }
  }

  lemma {:induction false} LessTransitive(a: string, b: string, c: string)
    requires Less(a, b) && Less(b, c)
    ensures Less(a, c)
  {
    if a != "" && a[0] == b[0] && b[0] == c[0] {
      LessTransitive(a[1..], b[1..], c[1..]);
    }
  }

  ghost predicate Ascending(s: seq<string>) {
    forall i, j :: 0 <= i < j < |s| ==> Less(s[i], s[j])
  }

  function Insert(w: string, s: seq<string>): (r: seq<string>) {
    if s == [] then [w] else if w == s[0] then s else if Less(w, s[0]) then [w] + s else [s[0]] + Insert(w, s[1..])
  }

  /** `sorted(set(words))`. */
  function SortedSet(words: seq<string>): (r: seq<string>) {
    if words == [] then [] else Insert(words[|words| - 1], SortedSet(words[..|words| - 1]))
  }

  lemma {:induction false} InsertKeeps(w: string, s: seq<string>)
    requires Ascending(s)
    ensures Ascending(Insert(w, s)) && forall x :: x in Insert(w, s) <==> x in s || x == w
  {
    hide Less;
    if s != [] {
      assert s == [s[0]] + s[1..];
      if w == s[0] {
      } else if Less(w, s[0]) {
        forall j | 0 < j < |s| ensures Less(w, s[j]) {
          LessTransitive(w, s[0], s[j]);
        }
      } else {
        InsertKeeps(w, s[1..]);
        LessTotal(w, s[0]);
        var t := Insert(w, s[1..]);
        forall x | x in t ensures Less(s[0], x) {
          if x != w {
            var j :| 0 <= j < |s[1..]| && s[1..][j] == x;
            assert s[j + 1] == x;
          }
        }
        AscendingCons(s[0], t);
      }
    }
  }

  lemma AscendingCons(x: string, t: seq<string>)
    requires Ascending(t) && forall y :: y in t ==> Less(x, y)
    ensures Ascending([x] + t)
  {
    hide Less;
    var s := [x] + t;
    forall i, j | 0 <= i < j < |s| ensures Less(s[i], s[j]) {
      assert s[j] == t[j - 1];
      assert i > 0 ==> s[i] == t[i - 1];
    }
  }

  lemma {:induction false} SortedSetIs(words: seq<string>)
    ensures Ascending(SortedSet(words)) && forall x :: x in SortedSet(words) <==> x in words
  {
    hide Insert;
    if words != [] {
      var front, w := words[..|words| - 1], words[|words| - 1];
      assert words == front + [w];
      SortedSetIs(front);
      InsertKeeps(w, SortedSet(front));
    }
  }

  /** There is only one ascending list of a set of strings. */
  lemma {:induction false} AscendingUnique(a: seq<string>, b: seq<string>)
    requires Ascending(a) && Ascending(b) && forall x :: x in a <==> x in b
    ensures a == b
  {
    hide Less;
    EmptyTogether(a, b);
    if a != [] {
      assert a[0] in b && b[0] in a;
      LessTotal(a[0], b[0]);
      FirstIsLeast(a, b[0]);
      FirstIsLeast(b, a[0]);
      forall x ensures x in a[1..] <==> x in b[1..] {
        TailMembers(a, x);
        TailMembers(b, x);
      }
      AscendingUnique(a[1..], b[1..]);
      assert a == [a[0]] + a[1..] && b == [b[0]] + b[1..];
    }
  }

  lemma EmptyTogether(a: seq<string>, b: seq<string>)
    requires forall x :: x in a <==> x in b
    ensures a == [] <==> b == []
  {
    if |a| > 0 { assert a[0] in b; }
    if |b| > 0 { assert b[0] in a; }
  }

  lemma FirstIsLeast(a: seq<string>, x: string)
    requires Ascending(a) && x in a
    ensures a[0] == x || Less(a[0], x)
  {
  }

  lemma TailMembers(a: seq<string>, x: string)
    requires Ascending(a) && a != []
    ensures x in a[1..] <==> x in a && x != a[0]
  {
    LessTotal(a[0], a[0]);
    assert a == [a[0]] + a[1..];
    if x in a[1..] {
      var j :| 0 <= j < |a[1..]| && a[1..][j] == x;
      assert Less(a[0], a[j + 1]);
    }
  }

  // ---- the two functions of the forms ------------------------------------------------------------------------------

  /** `parse_items`. */
  method ParseItems(s: string, sort: bool) returns (words: seq<string>)
    ensures !sort ==> words == Parsed(s)
    ensures sort ==> Ascending(words) && forall x :: x in words <==> x in Parsed(s)
  {
    hide ScanAll, Strip, SplitStrip, Less;
    ParsedNothing();
    SortedSetIs([]);
    if s == "" {
      return [];
    }
    var chunks;
    words, chunks := ScanItems(s);
    var i := 0;
    ghost var quoted := words;
    assert chunks[..0] == [];
    while i < |chunks|
      invariant 0 <= i <= |chunks| && words == quoted + SplitAll(chunks[..i])
    {
      assert chunks[..i + 1][..i] == chunks[..i];
      Associative(quoted, SplitAll(chunks[..i]), SplitStrip(chunks[i]));
      words := words + SplitStrip(chunks[i]);
      i := i + 1;
    }
    assert chunks[..i] == chunks;
    if sort {
      SortedSetIs(words);
      words := SortedSet(words);
    }
  }

  lemma ParsedNothing()
    ensures Parsed("") == [] && SortedSet([]) == []
  {
  }

  function InsertToken(t: Token, ts: seq<Token>): (r: seq<Token>) {
    if ts == [] then [t] else if Less(Text(ts[0]), Text(t)) then [ts[0]] + InsertToken(t, ts[1..]) else [t] + ts
  }

  /** The printed entries in the order of their texts. */
  function SortTokens(ts: seq<Token>): (r: seq<Token>) {
    if ts == [] then [] else InsertToken(ts[|ts| - 1], SortTokens(ts[..|ts| - 1]))
  }

  lemma {:induction false} InsertTokenKeeps(t: Token, ts: seq<Token>)
    ensures multiset(InsertToken(t, ts)) == multiset(ts) + multiset{t}
  {
    hide Less, Text;
    if ts != [] {
      InsertTokenKeeps(t, ts[1..]);
      assert ts == [ts[0]] + ts[1..];
    }
  }

  lemma {:induction false} SortTokensKeeps(ts: seq<Token>)
    ensures multiset(SortTokens(ts)) == multiset(ts)
  {
    hide InsertToken, Less, Text;
    if ts != [] {
      var front, t := ts[..|ts| - 1], ts[|ts| - 1];
      SortTokensKeeps(front);
      InsertTokenKeeps(t, SortTokens(front));
      SnocCounts(ts, front, t);
    }
  }

  lemma SnocCounts(ts: seq<Token>, front: seq<Token>, t: Token)
    requires ts == front + [t]
    ensures multiset(ts) == multiset(front) + multiset{t}
  {
  }

  /** The entries of a printed list. */
  function Entries(items: seq<string>, escapeSpace: bool, escapeComma: bool, sort: bool): (r: seq<Token>)
  {
    var ts := AllTokens(items, escapeSpace, escapeComma);
    if sort then SortTokens(ts) else ts
  }

  ghost predicate InTextOrder(ts: seq<Token>) {
    forall i, j :: 0 <= i < j < |ts| ==> !Less(Text(ts[j]), Text(ts[i]))
  }

  lemma {:induction false} InsertTokenOrder(t: Token, ts: seq<Token>)
    requires InTextOrder(ts)
    ensures InTextOrder(InsertToken(t, ts))
  {
    hide Less, Text;
    if ts != [] {
      var r := InsertToken(t, ts);
      if Less(Text(ts[0]), Text(t)) {
        InsertTokenOrder(t, ts[1..]);
        InsertTokenKeeps(t, ts[1..]);
        var rest := InsertToken(t, ts[1..]);
        forall x | x in rest ensures !Less(Text(x), Text(ts[0])) {
          assert x in multiset(rest);
          LessTotal(Text(ts[0]), Text(t));
          if x in ts[1..] {
            var k :| 0 <= k < |ts[1..]| && ts[1..][k] == x;
            assert ts[k + 1] == x;
          }
        }
        OrderCons(ts[0], rest);
      } else {
        forall x | x in ts ensures !Less(Text(x), Text(t)) {
          var k :| 0 <= k < |ts| && ts[k] == x;
          NotLess(Text(t), Text(ts[0]), Text(x));
        }
        OrderCons(t, ts);
      }
    }
  }

  lemma NotLess(a: string, b: string, c: string)
    requires !Less(b, a) && (b == c || !Less(c, b))
    ensures !Less(c, a)
  {
    LessTotal(a, b);
    LessTotal(b, c);
    LessTotal(c, a);
    if Less(c, a) && Less(a, b) { LessTransitive(c, a, b); }
    if Less(b, c) && Less(c, a) { LessTransitive(b, c, a); }
  }

  lemma OrderCons(t: Token, ts: seq<Token>)
    requires InTextOrder(ts) && forall x :: x in ts ==> !Less(Text(x), Text(t))
    ensures InTextOrder([t] + ts)
  {
    hide Less, Text;
    var s := [t] + ts;
    forall i, j | 0 <= i < j < |s| ensures !Less(Text(s[j]), Text(s[i])) {
      assert s[j] == ts[j - 1];
      assert i > 0 ==> s[i] == ts[i - 1];
    }
  }

  /** With sorting, the same entries in the order of their texts. */
  lemma {:induction false} SortTokensOrder(ts: seq<Token>)
    ensures InTextOrder(SortTokens(ts)) && multiset(SortTokens(ts)) == multiset(ts)
  {
    hide InsertToken, Less;
    SortTokensKeeps(ts);
    if ts != [] {
      SortTokensOrder(ts[..|ts| - 1]);
      InsertTokenOrder(ts[|ts| - 1], SortTokens(ts[..|ts| - 1]));
    }
  }

  /** `edit_string_for_items`. */
  method EditString(items: seq<string>, escapeSpace: bool, escapeComma: bool, sort: bool) returns (s: string)
    ensures s == Printed(Entries(items, escapeSpace, escapeComma, sort))
  {
    hide Printed, Less;
    var ts: seq<Token> := [];
    var i := 0;
    while i < |items|
      invariant 0 <= i <= |items| && ts == AllTokens(items[..i], escapeSpace, escapeComma)
    {
      var item := items[i];
      assert items[..i + 1][..i] == items[..i];
      Associative(ts, if escapeSpace && ' ' in item then [Token(item, true)] else [], [Token(item, escapeComma && ',' in item)]);
      if escapeSpace && ' ' in item {
        ts := ts + [Token(item, true)];
      }
      if escapeComma && ',' in item {
        ts := ts + [Token(item, true)];
      } else {
        ts := ts + [Token(item, false)];
      }
      i := i + 1;
    }
    assert items[..i] == items;
    if sort {
      ts := SortTokens(ts);
    }
    s := Printed(ts);
  }

  // ---- round trips -------------------------------------------------------------------------------------------------

  lemma {:induction false} ItemsMembers(tokens: seq<Token>, x: string)
    ensures x in QuotedItems(tokens) + PlainItems(tokens) <==> exists t :: t in tokens && t.item == x
  {
    if tokens != [] {
      var front, last := tokens[..|tokens| - 1], tokens[|tokens| - 1];
      assert tokens == front + [last];
      ItemsMembers(front, x);
      ItemsSnoc(front, last);
    }
  }

  lemma {:induction false} TokensMembers(items: seq<string>, t: Token)
    ensures t in AllTokens(items, true, true) ==> t.item in items && (t.quoted || ',' !in t.item)
    ensures t.item in items ==> Token(t.item, ',' in t.item) in AllTokens(items, true, true)
  {
    if items != [] {
      var front, last := items[..|items| - 1], items[|items| - 1];
      assert items == front + [last];
      TokensMembers(front, t);
    }
  }

  /** A printed list of clean items, in any order of its entries, is read back as the same set of items. */
  lemma SameItems(items: seq<string>, tokens: seq<Token>)
    requires forall i :: 0 <= i < |items| ==> Clean(items[i])
    requires multiset(tokens) == multiset(AllTokens(items, true, true))
    ensures forall x :: x in Parsed(Printed(tokens)) <==> x in items
  {
    hide Strip, Parsed, Printed;
    forall t ensures t in tokens <==> t in AllTokens(items, true, true) {
      assert t in tokens <==> t in multiset(tokens);
    }
    forall i | 0 <= i < |tokens| ensures Readable(tokens[i]) {
      assert tokens[i] in tokens;
      TokensMembers(items, tokens[i]);
    }
    ParsePrinted(tokens);
    forall x ensures x in Parsed(Printed(tokens)) <==> x in items {
      ItemsMembers(tokens, x);
      TokensMembers(items, Token(x, ',' in x));
      forall t | t in tokens && t.item == x ensures x in items {
        TokensMembers(items, t);
      }
    }
  }

  /** Printing and parsing with sorting gives the ascending list of the items, each once. */
  method RoundTrip(items: seq<string>, sortPrinted: bool, sortParsed: bool) returns (words: seq<string>)
    requires forall i :: 0 <= i < |items| ==> Clean(items[i])
    ensures forall x :: x in words <==> x in items
    ensures sortParsed ==> words == SortedSet(items)
  {
    hide Parsed, Printed, Less, Strip, AllTokens;
    var s := EditString(items, true, true, sortPrinted);
    SortTokensOrder(AllTokens(items, true, true));
    SameItems(items, Entries(items, true, true, sortPrinted));
    words := ParseItems(s, sortParsed);
    SortedSetIs(items);
    if sortParsed {
      AscendingUnique(words, SortedSet(items));
    }
  }

  /** How many items are printed twice. */
  ghost function Spaced(items: seq<string>): (n: nat) {
    if items == [] then 0 else Spaced(items[..|items| - 1]) + if ' ' in items[|items| - 1] then 1 else 0
  }

  /** Items with commas come before those without. */
  ghost predicate CommasFirst(items: seq<string>) {
    forall i, j :: 0 <= i < j < |items| && ',' in items[j] ==> ',' in items[i]
  }

  lemma {:induction false} QuotedConcat(a: seq<Token>, b: seq<Token>)
    ensures QuotedItems(a + b) == QuotedItems(a) + QuotedItems(b) && PlainItems(a + b) == PlainItems(a) + PlainItems(b)
  {
    hide QuotedItems, PlainItems;
    if b == [] {
      assert a + b == a;
      NoItems();
    } else {
      var t, x := b[..|b| - 1], b[|b| - 1];
      QuotedConcat(a, t);
      assert b == t + [x];
      Associative(a, t, [x]);
      ItemsSnoc(a + t, x);
      ItemsSnoc(t, x);
      Associative(QuotedItems(a), QuotedItems(t), if x.quoted then [x.item] else []);
      Associative(PlainItems(a), PlainItems(t), if x.quoted then [] else [x.item]);
    }
  }

  lemma NoItems()
    ensures QuotedItems([]) == [] && PlainItems([]) == []
  {
  }

  lemma TokensOfOne(item: string)
    ensures QuotedItems(TokensOf(item, true, true)) == (if ' ' in item then [item] else []) + (if ',' in item then [item] else [])
    ensures PlainItems(TokensOf(item, true, true)) == if ',' in item then [] else [item]
  {
    var a := if ' ' in item then [Token(item, true)] else [];
    QuotedConcat(a, [Token(item, ',' in item)]);
    OneItem(Token(item, ',' in item));
    OneItem(Token(item, true));
  }

  lemma TokensSnoc(items: seq<string>, x: string)
    ensures var ts, more := AllTokens(items, true, true), AllTokens(items + [x], true, true);
            && QuotedItems(more) == QuotedItems(ts) + ((if ' ' in x then [x] else []) + (if ',' in x then [x] else []))
            && PlainItems(more) == PlainItems(ts) + if ',' in x then [] else [x]
  {
    assert (items + [x])[..|items|] == items;
    QuotedConcat(AllTokens(items, true, true), TokensOf(x, true, true));
    TokensOfOne(x);
  }

  lemma NoTokens()
    ensures QuotedItems(AllTokens([], true, true)) == [] && PlainItems(AllTokens([], true, true)) == []
  {
  }

  lemma {:induction false} ResultShape(items: seq<string>)
    ensures var ts := AllTokens(items, true, true);
            && |QuotedItems(ts)| + |PlainItems(ts)| == |items| + Spaced(items)
            && (forall x :: x in PlainItems(ts) ==> ',' !in x)
            && (Spaced(items) == 0 ==> forall x :: x in QuotedItems(ts) ==> ',' in x)
  {
    hide QuotedItems, PlainItems, AllTokens;
    if items != [] {
      var front, x := items[..|items| - 1], items[|items| - 1];
      assert items == front + [x];
      ResultShape(front);
      TokensSnoc(front, x);
    } else {
      NoTokens();
    }
  }

  lemma {:induction false} CommasFirstRead(items: seq<string>)
    requires Spaced(items) == 0 && CommasFirst(items)
    ensures QuotedItems(AllTokens(items, true, true)) + PlainItems(AllTokens(items, true, true)) == items
  {
    hide QuotedItems, PlainItems, AllTokens;
    if items != [] {
      var front, x := items[..|items| - 1], items[|items| - 1];
      var ts := AllTokens(front, true, true);
      assert items == front + [x];
      CommasFirstRead(front);
      TokensSnoc(front, x);
      if ',' in x {
        AllCommas(front);
        assert QuotedItems(ts) + [] == QuotedItems(ts);
      } else {
        Associative(QuotedItems(ts), PlainItems(ts), [x]);
      }
    } else {
      NoTokens();
    }
  }

  lemma {:induction false} AllCommas(items: seq<string>)
    requires forall i :: 0 <= i < |items| ==> ',' in items[i]
    ensures PlainItems(AllTokens(items, true, true)) == []
  {
    if items != [] {
      var front, x := items[..|items| - 1], items[|items| - 1];
      AllCommas(front);
      assert items == front + [x];
      TokensSnoc(front, x);
    }
  }

  lemma {:induction false} NoSpaced(items: seq<string>)
    ensures Spaced(items) == 0 <==> forall i :: 0 <= i < |items| ==> ' ' !in items[i]
  {
    if items != [] {
      NoSpaced(items[..|items| - 1]);
      assert items == items[..|items| - 1] + [items[|items| - 1]];
    }
  }

  /** The list itself comes back, in its order, if and only if no item has a space and all items with commas come first. */
  lemma SameListExactly(items: seq<string>)
    requires forall i :: 0 <= i < |items| ==> Clean(items[i])
    ensures Parsed(Printed(AllTokens(items, true, true))) == items
            <==> (forall i :: 0 <= i < |items| ==> ' ' !in items[i]) && CommasFirst(items)
  {
    hide Parsed, Printed, Clean, Readable, AllTokens, QuotedItems, PlainItems, Spaced;
    var ts := AllTokens(items, true, true);
    forall i | 0 <= i < |ts| ensures Readable(ts[i]) {
      TokensReadable(items, ts[i]);
    }
    ParsePrinted(ts);
    NoSpaced(items);
    var q, p := QuotedItems(ts), PlainItems(ts);
    ResultShape(items);
    if Spaced(items) == 0 && CommasFirst(items) {
      CommasFirstRead(items);
    }
    if q + p == items {
      forall i, j | 0 <= i < j < |items| && ',' in items[j] ensures ',' in items[i] {
        PartAt(q, p, j);
        PartAt(q, p, i);
      }
    }
  }

  lemma PartAt(q: seq<string>, p: seq<string>, k: nat)
    requires k < |q + p|
    ensures if k < |q| then (q + p)[k] in q else (q + p)[k] in p
  {
  }

  lemma TokensReadable(items: seq<string>, t: Token)
    requires t in AllTokens(items, true, true) && forall i :: 0 <= i < |items| ==> Clean(items[i])
    ensures Readable(t)
  {
    TokensMembers(items, t);
  }

  // ---- what stripping, ordering and quoting mean ---------------------------------------------------------------------

  ghost predicate AllSpace(s: string) {
    forall i :: 0 <= i < |s| ==> IsSpace(s[i])
  }

  /** Stripping takes away the white space on both sides and nothing else. */
  lemma {:induction false} StripMeaning(s: string) returns (l: string, r: string)
    ensures s == l + Strip(s) + r && AllSpace(l) && AllSpace(r)
    ensures Strip(s) != "" ==> !IsSpace(Strip(s)[0]) && !IsSpace(Strip(s)[|Strip(s)| - 1])
    decreases |s|
  {
    hide IsSpace;
    if s == "" {
      l, r := "", "";
    } else if IsSpace(s[0]) {
      l, r := StripMeaning(s[1..]);
      assert s == [s[0]] + s[1..];
      l := [s[0]] + l;
    } else if IsSpace(s[|s| - 1]) {
      l, r := StripMeaning(s[..|s| - 1]);
      assert s == s[..|s| - 1] + [s[|s| - 1]];
      r := r + [s[|s| - 1]];
    } else {
      l, r := "", "";
      assert s == "" + s + "";
    }
  }

  /** The order of strings is that of their first different characters, and a proper prefix comes first. */
  lemma {:induction false} LessMeaning(a: string, b: string, c: string)
    ensures b != "" ==> Less(a, a + b)
    ensures b != "" && c != "" && b[0] < c[0] ==> Less(a + b, a + c)
  {
    if a == "" {
      assert a + b == b && a + c == c;
    } else {
      LessMeaning(a[1..], b, c);
      assert (a + b)[1..] == a[1..] + b && (a + c)[1..] == a[1..] + c;
    }
  }

  /** A quoted part is a word of its own, commas included, and comes before the words around it. */
  lemma QuotedText(a: string, b: string, c: string)
    requires '"' !in a && '"' !in b && '"' !in c
    ensures Parsed(a + "\"" + b + "\"" + c) == Word(b) + (SplitStrip(a) + SplitStrip(c))
  {
    hide SplitStrip, Strip, ScanAll, Word, SplitAll;
    var s := a + "\"";
    ScanPlain(START, a);
    assert "" + a == a && "" + b == b && "" + c == c;
    ScanNext(START, a, '"');
    ScanConcat(START, s, b);
    ScanPlain(ScanAll(START, s), b);
    ScanNext(START, s + b, '"');
    ScanConcat(START, s + b + "\"", c);
    ScanPlain(ScanAll(START, s + b + "\""), c);
    FlushAll([], a);
    FlushAll(Flush([], a), c);
    NoChunks();
    assert [] + Word(b) == Word(b) && [] + SplitStrip(a) == SplitStrip(a);
    assert s + b + "\"" + c == a + "\"" + b + "\"" + c;
  }

  /** A quote that is never closed only separates. */
  lemma OpenQuote(a: string, b: string)
    requires '"' !in a && '"' !in b
    ensures Parsed(a + "\"" + b) == SplitStrip(a) + SplitStrip(b)
  {
    hide SplitStrip, Strip, ScanAll, SplitAll;
    var s := a + "\"";
    ScanPlain(START, a);
    assert "" + a == a && "" + b == b;
    ScanNext(START, a, '"');
    ScanConcat(START, s, b);
    ScanPlain(ScanAll(START, s), b);
    FlushAll([], a);
    FlushAll(Flush([], a), b);
    NoChunks();
    assert [] + SplitStrip(a) == SplitStrip(a) && [] + (SplitStrip(a) + SplitStrip(b)) == SplitStrip(a) + SplitStrip(b);
  }

  lemma NoChunks()
    ensures SplitAll([]) == []
  {
  }

  /** Without escaping the items are printed as they are. */
  lemma {:induction false} NoEscapes(items: seq<string>)
    ensures QuotedItems(AllTokens(items, false, false)) == [] && PlainItems(AllTokens(items, false, false)) == items
  {
    if items != [] {
      var front, x := items[..|items| - 1], items[|items| - 1];
      NoEscapes(front);
      assert AllTokens(items, false, false) == AllTokens(front, false, false) + [Token(x, false)];
      ItemsSnoc(AllTokens(front, false, false), Token(x, false));
    }
  }
}
