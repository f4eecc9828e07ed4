/** The response parsers of tools/tds340.py: fields outside quotes and compound headers, each
    against the printer that it undoes. */
module Responses {
  // ---- Fields outside quotes ----------------------------------------------------------

  const QUOTE: char := '"'

  function Toggled(quoted: bool, ch: char): bool {
    if ch == QUOTE then !quoted else quoted
  }

  function SplitFrom(text: string, separator: char, current: string, quoted: bool): (fields: seq<string>)
    ensures |fields| > 0
    decreases |text|
  {
    if text == "" then [current]
    else
      var q := Toggled(quoted, text[0]);
      if text[0] == separator && !q then [current] + SplitFrom(text[1..], separator, "", q)
      else SplitFrom(text[1..], separator, current + [text[0]], q)
  }

  /** split_outside_quotes */
  method SplitOutsideQuotes(text: string, separator: char) returns (fields: seq<string>)
    ensures fields == SplitFrom(text, separator, "", false)
  {
    var current, quoted := "", false;
    fields := [];
    assert text[0..] == text;
    for i := 0 to |text|
      invariant fields + SplitFrom(text[i..], separator, current, quoted) == SplitFrom(text, separator, "", false)
    {
      var ch := text[i];
      ghost var rest := text[i + 1..];
      assert text[i..][0] == ch && text[i..][1..] == rest;
      if ch == QUOTE {
        quoted := !quoted;
      }
      if ch == separator && !quoted {
        assert fields + ([current] + SplitFrom(rest, separator, "", quoted))
            == (fields + [current]) + SplitFrom(rest, separator, "", quoted);
        fields := fields + [current];
        current := "";
      } else {
        current := current + [ch];
      }
    }
    fields := fields + [current];
  }

  function Join(fields: seq<string>, separator: char): string
    decreases |fields|
  {
    if fields == [] then "" else if |fields| == 1 then fields[0]
    else fields[0] + [separator] + Join(fields[1..], separator)
  }

  /** Joining the fields with the separator restores the text, whatever it is. */
  lemma {:induction false} JoinRestores(text: string, separator: char, current: string, quoted: bool)
    ensures Join(SplitFrom(text, separator, current, quoted), separator) == current + text
    decreases |text|
  {
    if text == "" {
      assert current + text == current;
    } else {
      var q := Toggled(quoted, text[0]);
      if text[0] == separator && !q {
        var rest := SplitFrom(text[1..], separator, "", q);
        JoinRestores(text[1..], separator, "", q);
        assert ([current] + rest)[1..] == rest;
        assert current + [separator] + ("" + text[1..]) == current + text;
      } else {
        JoinRestores(text[1..], separator, current + [text[0]], q);
        assert current + [text[0]] + text[1..] == current + text;
      }
    }
  }

  function QuotedAfter(text: string, quoted: bool): bool
    decreases |text|
  {
    if text == "" then quoted else QuotedAfter(text[1..], Toggled(quoted, text[0]))
  }

  /** No separator stands outside quotes. */
  predicate Uncut(text: string, separator: char, quoted: bool)
    decreases |text|
  {
    text == "" || (var q := Toggled(quoted, text[0]);
                   !(text[0] == separator && !q) && Uncut(text[1..], separator, q))
  }

  /** Quotes are closed and no separator stands outside them. */
  predicate IsField(text: string, separator: char) {
    Uncut(text, separator, false) && !QuotedAfter(text, false)
  }

  lemma {:induction false} SplitPasses(text: string, rest: string, separator: char, current: string, quoted: bool)
    requires Uncut(text, separator, quoted)
    ensures SplitFrom(text + rest, separator, current, quoted)
         == SplitFrom(rest, separator, current + text, QuotedAfter(text, quoted))
    decreases |text|
  {
    if text == "" {
      assert text + rest == rest && current + text == current;
    } else {
      assert (text + rest)[0] == text[0] && (text + rest)[1..] == text[1..] + rest;
      SplitPasses(text[1..], rest, separator, current + [text[0]], Toggled(quoted, text[0]));
      assert current + [text[0]] + text[1..] == current + text;
    }
  }

  /** What a split may yield: fields, the last of which may leave a quote open. */
  predicate Fields(fields: seq<string>, separator: char) {
    && fields != [] && Uncut(fields[|fields| - 1], separator, false)
    && forall i :: 0 <= i < |fields| - 1 ==> IsField(fields[i], separator)
  }

  lemma {:induction false} SplitOfJoin(fields: seq<string>, separator: char)
    requires separator != QUOTE && Fields(fields, separator)
    ensures SplitFrom(Join(fields, separator), separator, "", false) == fields
    decreases |fields|
  {
    var f := fields[0];
    assert "" + f == f;
    if |fields| == 1 {
      SplitPasses(f, "", separator, "", false);
      assert f + "" == f;
    } else {
      assert IsField(f, separator);
      var rest := Join(fields[1..], separator);
      SplitPasses(f, [separator] + rest, separator, "", false);
      assert Join(fields, separator) == f + ([separator] + rest);
      assert ([separator] + rest)[1..] == rest;
      SplitOfJoin(fields[1..], separator);
    }
  }

  lemma {:induction false} SplitYieldsFields(text: string, separator: char, current: string, quoted: bool)
    requires separator != QUOTE
    requires Uncut(current, separator, false) && QuotedAfter(current, false) == quoted
    ensures Fields(SplitFrom(text, separator, current, quoted), separator)
    decreases |text|
  {
    if text != "" {
      var ch, q := text[0], Toggled(quoted, text[0]);
      if ch == separator && !q {
        var rest := SplitFrom(text[1..], separator, "", q);
        SplitYieldsFields(text[1..], separator, "", q);
        assert forall i :: 1 <= i < |rest| ==> ([current] + rest)[i] == rest[i - 1];
      } else {
        assert [ch][1..] == "";
        UncutConcat(current, [ch], separator, false);
        SplitYieldsFields(text[1..], separator, current + [ch], q);
      }
    }
  }

  /** And splitting what was joined restores exactly the lists that a split can yield. */
  lemma {:induction false} SplitRestores(fields: seq<string>, separator: char)
    requires separator != QUOTE
    ensures SplitFrom(Join(fields, separator), separator, "", false) == fields <==> Fields(fields, separator)
  {
    hide SplitFrom, Join, Fields;
    if Fields(fields, separator) {
      SplitOfJoin(fields, separator);
    }
    NothingOpen(separator);
    SplitYieldsFields(Join(fields, separator), separator, "", false);
  }

  lemma NothingOpen(separator: char)
    ensures Uncut("", separator, false) && !QuotedAfter("", false)
  {
  }

  // ---- Compound headers ---------------------------------------------------------------

  /** White space, as str.strip takes it. */
  predicate IsSpace(c: char) {
    '\t' <= c <= '\r' || '\U{1c}' <= c <= ' ' || c == '\U{85}' || c == '\U{a0}' || c == '\U{1680}' ||
    '\U{2000}' <= c <= '\U{200a}' || c == '\U{2028}' || c == '\U{2029}' || c == '\U{202f}' || c == '\U{205f}' ||
    c == '\U{3000}'
  }

  function StripLeft(s: string): (r: string)
    ensures |r| <= |s|
    decreases |s|
  {
    if s != "" && IsSpace(s[0]) then StripLeft(s[1..]) else s
  }

  function StripRight(s: string): (r: string)
    ensures |r| <= |s|
    decreases |s|
  {
    if s != "" && IsSpace(s[|s| - 1]) then StripRight(s[..|s| - 1]) else s
  }

  function Strip(s: string): string {
    StripRight(StripLeft(s))
  }

  /** Upper case, for ASCII letters. */
  function Upper(c: char): char {
    if 'a' <= c <= 'z' then ((c as int) - 32) as char else c
  }

  /** The text up to the first blank, as str.partition cuts it. */
  function BeforeBlank(s: string): (r: string)
    ensures |r| <= |s| && r == s[..|r|]
    decreases |s|
  {
    if s == "" || s[0] == ' ' then "" else [s[0]] + BeforeBlank(s[1..])
  }

  function AfterBlank(s: string): string {
    var n := |BeforeBlank(s)|;
    if n < |s| then s[n + 1..] else ""
  }

  function OneIfAny(m: string): seq<string> {
    if m == "" then [] else [m]
  }

  /** The non-empty parts of a header between colons, in upper case. */
  function Mnemonics(header: string, current: string): seq<string>
    decreases |header|
  {
    if header == "" then OneIfAny(current)
    else if header[0] == ':' then OneIfAny(current) + Mnemonics(header[1..], "")
    else Mnemonics(header[1..], current + [Upper(header[0])])
  }

  /** What the parser carries from item to item. */
  datatype State = State(result: map<string, string>, prefix: seq<string>)

  /** One item of a response. Relative headers continue the path of the item before. */
  function ParseItem(raw: string, st: State): State {
    var item := Strip(raw);
    if item == "" then st
    else
      var header := BeforeBlank(item);
      var mnemonics := Mnemonics(header, "");
      if mnemonics == [] then st
      else
        var path := if header != "" && header[0] == ':' then mnemonics else st.prefix + mnemonics;
        State(st.result[Join(path, ':') := Strip(AfterBlank(item))], path[..|path| - 1])
  }

  function ParseItems(items: seq<string>, st: State): State
    decreases |items|
  {
    if items == [] then st else ParseItems(items[1..], ParseItem(items[0], st))
  }

  /** parse_headered */
  method ParseHeadered(response: string) returns (result: map<string, string>)
    ensures result == ParseItems(SplitFrom(Strip(response), ';', "", false), State(map[], [])).result
  {
    hide SplitFrom, Strip, Join, Mnemonics, BeforeBlank, AfterBlank;
    result := map[];
    var prefix: seq<string> := [];
    var items := SplitOutsideQuotes(Strip(response), ';');
    assert items[0..] == items;
    for i := 0 to |items|
      invariant ParseItems(items[i..], State(result, prefix)) == ParseItems(items, State(map[], []))
    {
      assert items[i..][0] == items[i] && items[i..][1..] == items[i + 1..];
      var item := Strip(items[i]);
      if item == "" {
        continue;
      }
      var header, value := BeforeBlank(item), AfterBlank(item);
      var mnemonics := Mnemonics(header, "");
      if mnemonics == [] {
        continue;
      }
      var path := if header != "" && header[0] == ':' then mnemonics else prefix + mnemonics;
      prefix := path[..|path| - 1];
      result := result[Join(path, ':') := Strip(value)];
    }
  }

  // ---- The printer --------------------------------------------------------------------

  /** A header path with its value, to be printed in full or relative to the entry before. */
  datatype Entry = Entry(path: seq<string>, value: string, relative: bool)

  predicate IsMnemonic(m: string) {
    m != "" && forall i :: 0 <= i < |m| ==>
      m[i] < '\U{80}' && !IsSpace(m[i]) && m[i] != ':' && m[i] != ';' && m[i] != QUOTE && !('a' <= m[i] <= 'z')
  }

  predicate IsPath(path: seq<string>) {
    path != [] && forall i :: 0 <= i < |path| ==> IsMnemonic(path[i])
  }

  /** A value with no white space at its ends and no semicolon outside quotes. */
  predicate IsValue(v: string) {
    IsField(v, ';') && (v != "" ==> !IsSpace(v[0]) && !IsSpace(v[|v| - 1]))
  }

  /** The entry may be printed after one with the given parent path: a relative header leaves out
      that path, so it must be the beginning of its own. */
  predicate Fits(e: Entry, prefix: seq<string>) {
    && IsPath(e.path) && IsValue(e.value)
    && (e.relative ==> |prefix| < |e.path| && e.path[..|prefix|] == prefix)
  }

  function Header(e: Entry, prefix: seq<string>): string
    requires Fits(e, prefix)
  {
    if e.relative then Join(e.path[|prefix|..], ':') else ":" + Join(e.path, ':')
  }

  function Item(e: Entry, prefix: seq<string>): string
    requires Fits(e, prefix)
  {
    if e.value == "" then Header(e, prefix) else Header(e, prefix) + " " + e.value
  }

  function Parent(e: Entry): seq<string> {
    if e.path == [] then [] else e.path[..|e.path| - 1]
  }

  predicate Printable(entries: seq<Entry>, prefix: seq<string>)
    decreases |entries|
  {
    entries == [] || (Fits(entries[0], prefix) && Printable(entries[1..], Parent(entries[0])))
  }

  function Items(entries: seq<Entry>, prefix: seq<string>): seq<string>
    requires Printable(entries, prefix)
    decreases |entries|
  {
    if entries == [] then [] else [Item(entries[0], prefix)] + Items(entries[1..], Parent(entries[0]))
  }

  /** The entries as a table; a later value of a path replaces an earlier one. */
  function Table(entries: seq<Entry>, so: map<string, string>): map<string, string>
    decreases |entries|
  {
    if entries == [] then so else Table(entries[1..], so[Join(entries[0].path, ':') := entries[0].value])
  }

  // ---- Printing and parsing -----------------------------------------------------------

  lemma {:induction false} StripKeeps(s: string)
    requires s != "" ==> !IsSpace(s[0]) && !IsSpace(s[|s| - 1])
    ensures Strip(s) == s
  {
  }

  predicate PlainHeader(h: string) {
    forall i :: 0 <= i < |h| ==> !IsSpace(h[i]) && h[i] != ';' && h[i] != QUOTE
  }

  lemma {:induction false} JoinIsPlain(path: seq<string>)
    requires IsPath(path)
    ensures Join(path, ':') != "" && PlainHeader(Join(path, ':')) && Join(path, ':')[0] != ':'
    decreases |path|
  {
    assert IsMnemonic(path[0]);
    if |path| > 1 {
      assert IsPath(path[1..]) by {
        assert forall i :: 0 <= i < |path| - 1 ==> path[1..][i] == path[i + 1];
      }
      JoinIsPlain(path[1..]);
    }
  }

  lemma {:induction false} BlankFound(h: string, v: string)
    requires PlainHeader(h)
    ensures BeforeBlank(h + " " + v) == h && AfterBlank(h + " " + v) == v
    ensures BeforeBlank(h) == h && AfterBlank(h) == ""
    decreases |h|
  {
    if h != "" {
      assert (h + " " + v)[0] == h[0] && (h + " " + v)[1..] == h[1..] + " " + v;
      BlankFound(h[1..], v);
    } else {
      assert (h + " " + v)[0] == ' ' && (h + " " + v)[1..] == v;
    }
  }

  lemma {:induction false} MnemonicPasses(m: string, rest: string, current: string)
    requires forall i :: 0 <= i < |m| ==> m[i] != ':' && !('a' <= m[i] <= 'z')
    ensures Mnemonics(m + rest, current) == Mnemonics(rest, current + m)
    decreases |m|
  {
    if m == "" {
      assert m + rest == rest && current + m == current;
    } else {
      assert (m + rest)[0] == m[0] && (m + rest)[1..] == m[1..] + rest;
      MnemonicPasses(m[1..], rest, current + [m[0]]);
      assert current + [m[0]] + m[1..] == current + m;
    }
  }

  lemma {:induction false} MnemonicsReadBack(path: seq<string>)
    requires IsPath(path)
    ensures Mnemonics(Join(path, ':'), "") == path
    decreases |path|
  {
    var m := path[0];
    assert IsMnemonic(m) && "" + m == m;
    if |path| == 1 {
      MnemonicPasses(m, "", "");
      assert m + "" == m;
    } else {
      assert IsPath(path[1..]) by {
        assert forall i :: 0 <= i < |path| - 1 ==> path[1..][i] == path[i + 1];
      }
      var rest := Join(path[1..], ':');
      MnemonicPasses(m, [':'] + rest, "");
      assert Join(path, ':') == m + ([':'] + rest) && ([':'] + rest)[1..] == rest;
      MnemonicsReadBack(path[1..]);
    }
  }

  lemma HeaderReadsBack(e: Entry, prefix: seq<string>)
    requires Fits(e, prefix)
    ensures PlainHeader(Header(e, prefix)) && Header(e, prefix) != ""
    ensures Header(e, prefix)[0] == ':' <==> !e.relative
    ensures Mnemonics(Header(e, prefix), "") == if e.relative then e.path[|prefix|..] else e.path
  {
    var part := if e.relative then e.path[|prefix|..] else e.path;
    assert IsPath(part) by {
      assert forall i :: 0 <= i < |part| ==> part[i] == e.path[|e.path| - |part| + i];
    }
    JoinIsPlain(part);
    MnemonicsReadBack(part);
    if !e.relative {
      var h := Join(e.path, ':');
      assert (":" + h)[1..] == h;
      assert [] + Mnemonics(h, "") == Mnemonics(h, "");
    }
  }

  lemma ItemIsStripped(e: Entry, prefix: seq<string>)
    requires Fits(e, prefix)
    ensures var i := Item(e, prefix); i != "" && !IsSpace(i[0]) && !IsSpace(i[|i| - 1])
  {
    HeaderReadsBack(e, prefix);
  }

  lemma {:induction false} ItemParses(e: Entry, st: State)
    requires Fits(e, st.prefix)
    ensures ParseItem(Item(e, st.prefix), st) == State(st.result[Join(e.path, ':') := e.value], Parent(e))
  {
    hide Mnemonics, Join, BeforeBlank, AfterBlank, Header, Strip, IsField;
    var h := Header(e, st.prefix);
    HeaderReadsBack(e, st.prefix);
    ItemIsStripped(e, st.prefix);
    StripKeeps(Item(e, st.prefix));
    BlankFound(h, e.value);
    StripKeeps(e.value);
    if e.relative {
      assert e.path[..|st.prefix|] + e.path[|st.prefix|..] == e.path;
    }
  }

  lemma {:induction false} ItemsParse(entries: seq<Entry>, st: State)
    requires Printable(entries, st.prefix)
    ensures ParseItems(Items(entries, st.prefix), st).result == Table(entries, st.result)
    decreases |entries|
  {
    hide ParseItem, Item, Fits, Join;
    if entries != [] {
      var e := entries[0];
      ItemParses(e, st);
      var rest := Items(entries[1..], Parent(e));
      assert ([Item(e, st.prefix)] + rest)[1..] == rest;
      ItemsParse(entries[1..], State(st.result[Join(e.path, ':') := e.value], Parent(e)));
    }
  }

  lemma {:induction false} PlainIsUncut(h: string, quoted: bool)
    requires PlainHeader(h)
    ensures Uncut(h, ';', quoted) && QuotedAfter(h, quoted) == quoted
    decreases |h|
  {
    if h != "" {
      PlainIsUncut(h[1..], quoted);
    }
  }

  lemma {:induction false} UncutConcat(a: string, b: string, separator: char, quoted: bool)
    requires Uncut(a, separator, quoted) && Uncut(b, separator, QuotedAfter(a, quoted))
    ensures Uncut(a + b, separator, quoted) && QuotedAfter(a + b, quoted) == QuotedAfter(b, QuotedAfter(a, quoted))
    decreases |a|
  {
    if a == "" {
      assert a + b == b;
    } else {
      assert (a + b)[0] == a[0] && (a + b)[1..] == a[1..] + b;
      UncutConcat(a[1..], b, separator, Toggled(quoted, a[0]));
    }
  }

  lemma ItemIsField(e: Entry, prefix: seq<string>)
    requires Fits(e, prefix)
    ensures IsField(Item(e, prefix), ';')
  {
    var h := Header(e, prefix);
    HeaderReadsBack(e, prefix);
    PlainIsUncut(h, false);
    if e.value != "" {
      assert Uncut(" ", ';', false) && QuotedAfter(" ", false) == false by {
        assert " "[1..] == "";
      }
      UncutConcat(h, " ", ';', false);
      UncutConcat(h + " ", e.value, ';', false);
    }
  }

  /** A header may be written in either case. */
  lemma {:induction false} CaseDoesNotMatter(h: string, upper: string, current: string)
    requires |h| == |upper|
    requires forall i: nat :: i < |h| ==>
               upper[i] == if 'a' <= h[i] <= 'z' then h[i] - 'a' + 'A' else h[i]
    ensures Mnemonics(h, current) == Mnemonics(upper, current)
    decreases |h|
  {
    if h != "" {
      var c := h[0];
      assert (upper[0] == ':' <==> c == ':') && Upper(upper[0]) == Upper(c);
      if c == ':' {
        CaseDoesNotMatter(h[1..], upper[1..], "");
      } else {
        CaseDoesNotMatter(h[1..], upper[1..], current + [Upper(c)]);
      }
    }
  }

  predicate AllBlanks(s: string) {
    forall i: nat :: i < |s| ==> s[i] in " \t\n\r"
  }

  /** White space around an item does not matter, nor around the whole response. */
  lemma {:induction false} BlanksDoNotMatter(a: string, s: string, b: string)
    requires AllBlanks(a) && AllBlanks(b) && (s != "" ==> !IsSpace(s[0]) && !IsSpace(s[|s| - 1]))
    ensures Strip(a + s + b) == s
  {
    hide IsSpace;
    if s == "" {
      assert a + s + b == a + b && AllBlanks(a + b);
      assert a + b + "" == a + b;
      BlanksLeft(a + b, "");
    } else {
      assert a + s + b == a + (s + b);
      BlanksLeft(a, s + b);
      BlanksRight(s, b);
    }
  }

  lemma {:induction false} BlanksLeft(a: string, t: string)
    requires AllBlanks(a) && (t != "" ==> !IsSpace(t[0]))
    ensures StripLeft(a + t) == t
    decreases |a|
  {
    if a == "" {
      assert a + t == t;
    } else {
      assert (a + t)[0] == a[0] && (a + t)[1..] == a[1..] + t;
      BlanksLeft(a[1..], t);
    }
  }

  lemma {:induction false} BlanksRight(t: string, b: string)
    requires AllBlanks(b) && (t != "" ==> !IsSpace(t[|t| - 1]))
    ensures StripRight(t + b) == t
    decreases |b|
  {
    if b == "" {
      assert t + b == t;
    } else {
      var n := |b| - 1;
      assert (t + b)[..|t| + n] == t + b[..n];
      BlanksRight(t, b[..n]);
    }
  }

  /** Nor does white space between a header and its value, beyond the one blank. */
  lemma {:induction false} ItemBlanks(a: string, h: string, b: string, v: string, c: string, st: State)
    requires AllBlanks(a) && AllBlanks(b) && AllBlanks(c) && PlainHeader(h) && h != ""
    requires v != "" && !IsSpace(v[0]) && !IsSpace(v[|v| - 1])
    ensures ParseItem(a + (h + " " + b + v) + c, st) == ParseItem(h + " " + v, st)
  {
    hide IsSpace, Mnemonics, Strip, BeforeBlank, AfterBlank;
    var item := h + " " + b + v;
    assert !IsSpace(h[0]) && item[0] == h[0] && item[|item| - 1] == v[|v| - 1];
    BlanksDoNotMatter(a, item, c);
    assert item == h + " " + (b + v);
    BlankFound(h, b + v);
    BlankFound(h, v);
    StripKeeps(h + " " + v);
    StripKeeps(v);
    BlanksDoNotMatter(b, v, "");
    assert b + v + "" == b + v;
  }

  /** A header of colons alone names nothing, and neither does an empty item: both are ignored. */
  lemma {:induction false} NamelessIsIgnored(raw: string, st: State)
    requires var item := Strip(raw); forall i: nat :: i < |BeforeBlank(item)| ==> item[i] == ':'
    ensures ParseItem(raw, st) == st
  {
    hide Mnemonics, BeforeBlank, AfterBlank, Strip, Join;
    var item := Strip(raw);
    if item != "" {
      NoNames(BeforeBlank(item));
    }
  }

  lemma {:induction false} NoNames(h: string)
    requires forall i: nat :: i < |h| ==> h[i] == ':'
    ensures Mnemonics(h, "") == []
    decreases |h|
  {
    if h != "" {
      NoNames(h[1..]);
    }
  }

  /** Doubled colons count once. */
  lemma {:induction false} DoubledColon(x: string, y: string, current: string)
    ensures Mnemonics(x + "::" + y, current) == Mnemonics(x + ":" + y, current)
    decreases |x|
  {
    if x == "" {
      assert "" + "::" + y == ":" + (":" + y) && "" + ":" + y == ":" + y;
      assert (":" + (":" + y))[1..] == ":" + y && (":" + y)[1..] == y;
      assert Mnemonics(":" + y, "") == [] + Mnemonics(y, "");
    } else {
      assert (x + "::" + y)[1..] == x[1..] + "::" + y && (x + ":" + y)[1..] == x[1..] + ":" + y;
      if x[0] == ':' {
        DoubledColon(x[1..], y, "");
      } else {
        DoubledColon(x[1..], y, current + [Upper(x[0])]);
      }
    }
  }

  /** Items print without white space at either end of the response, and are its fields. */
  lemma {:induction false} ItemsPrint(entries: seq<Entry>, prefix: seq<string>)
    requires entries != [] && Printable(entries, prefix)
    ensures var items := Items(entries, prefix);
            var text := Join(items, ';');
            && items != [] && text != "" && !IsSpace(text[0]) && !IsSpace(text[|text| - 1])
            && forall i :: 0 <= i < |items| ==> IsField(items[i], ';')
    decreases |entries|
  {
    hide Item, Fits, IsField, IsSpace;
    var e := entries[0];
    ItemIsField(e, prefix);
    ItemIsStripped(e, prefix);
    var rest := Items(entries[1..], Parent(e));
    assert Items(entries, prefix) == [Item(e, prefix)] + rest;
    if |entries| == 1 {
      assert rest == [];
    } else {
      ItemsPrint(entries[1..], Parent(e));
      assert ([Item(e, prefix)] + rest)[1..] == rest;
      assert Join([Item(e, prefix)] + rest, ';') == Item(e, prefix) + [';'] + Join(rest, ';');
    }
  }

  /** Printing with absolute headers, or with relative ones wherever the parent path is that of
      the entry before, parses back to the table, quoted semicolons and all. */
  lemma {:induction false} PrintedParsesBack(entries: seq<Entry>)
    requires Printable(entries, [])
    ensures ParseItems(SplitFrom(Strip(Join(Items(entries, []), ';')), ';', "", false), State(map[], [])).result
         == Table(entries, map[])
  {
    hide ParseItem, ParseItems, SplitFrom, Strip, Table, Items, Join;
    ItemsParse(entries, State(map[], []));
    if entries == [] {
      EmptyResponse();
    } else {
      ItemsPrint(entries, []);
      StripKeeps(Join(Items(entries, []), ';'));
      SplitRestores(Items(entries, []), ';');
    }
  }

  lemma EmptyResponse()
    ensures Items([], []) == [] && Join([], ';') == "" && Strip("") == ""
    ensures ParseItems(SplitFrom("", ';', "", false), State(map[], [])).result == map[]
    ensures Table([], map[]) == map[]
  {
    assert Strip("") == "";
    assert SplitFrom("", ';', "", false) == [""];
    assert ParseItem("", State(map[], [])) == State(map[], []);
    assert [""][1..] == [];
  }
}
