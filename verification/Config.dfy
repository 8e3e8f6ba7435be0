/** The configuration file: a parser for a two-level subset of YAML and the printer that goes with it. */
module Configs {
  import opened Basics

  type Store = map<string, string>

  // ----- Text

  predicate IsSpace(c: char) {
    c == ' ' || c == '\t' || c == '\r' || c == '\n'
  }

  function TrimLeft(s: string): string
    decreases |s|
  {
    if s != [] && IsSpace(s[0]) then TrimLeft(s[1..]) else s
  }

  function TrimRight(s: string): string
    decreases |s|
  {
    if s != [] && IsSpace(s[|s| - 1]) then TrimRight(s[..|s| - 1]) else s
  }

  function Trim(s: string): string {
    TrimRight(TrimLeft(s))
  }

  /** The position of the first c, or the length. */
  function Find(s: string, c: char): (i: nat)
    ensures i <= |s| && (i < |s| ==> s[i] == c) && forall j :: 0 <= j < i ==> s[j] != c
    decreases |s|
  {
    if s == [] || s[0] == c then 0 else 1 + Find(s[1..], c)
  }

  /** How many blanks a line starts with. */
  function Indent(s: string): (i: nat)
    ensures i <= |s|
    decreases |s|
  {
    if s != [] && s[0] == ' ' then 1 + Indent(s[1..]) else 0
  }

  predicate Quoted(v: string) {
    |v| >= 2 && ((v[0] == '"' && v[|v| - 1] == '"') || (v[0] == '\'' && v[|v| - 1] == '\''))
  }

  function Unquote(v: string): string {
    if Quoted(v) then v[1..|v| - 1] else v
  }

  // ----- The parser

  /** One line changes the section, the store, or neither. */
  function ParseLine(section: string, store: Store, raw: string): (string, Store) {
    var line := raw[..Find(raw, '#')];
    if Trim(line) == "" then (section, store)
    else
      var indent := Indent(line);
      var content := line[indent..];
      var colon := Find(content, ':');
      if colon == |content| then (section, store)
      else
        var key, value := Trim(content[..colon]), Trim(content[colon + 1..]);
        if value == "" then (if indent == 0 then key else section, store)
        else
          var flat := if indent > 0 && section != "" then section + "." + key else key;
          (section, store[flat := Unquote(value)])
  }

  function ParseFrom(section: string, store: Store, text: string): Store
    decreases |text|
  {
    if text == "" then store
    else
      var end := Find(text, '\n');
      var r := ParseLine(section, store, text[..end]);
      ParseFrom(r.0, r.1, if end < |text| then text[end + 1..] else "")
  }

  function ParseText(text: string): Store {
    ParseFrom("", map[], text)
  }

  // ----- The printer

  function DumpEntry(k: string, v: string): string {
    var dot := Find(k, '.');
    if dot == |k| then k + ": " + v + "\n"
    else k[..dot] + ":\n" + ("  " + k[dot + 1..] + ": " + v + "\n")
  }

  function DumpText(entries: seq<(string, string)>): string
    decreases |entries|
  {
    if entries == [] then "" else DumpEntry(entries[0].0, entries[0].1) + DumpText(entries[1..])
  }

  /** The entries are the store's, each key once, in whatever order its iteration has. */
  ghost predicate Lists(entries: seq<(string, string)>, store: Store) {
    && (forall i, j :: 0 <= i < j < |entries| ==> entries[i].0 != entries[j].0)
    && (forall i :: 0 <= i < |entries| ==> entries[i].0 in store && store[entries[i].0] == entries[i].1)
    && (forall k :: k in store ==> HasKey(entries, k))
  }

  ghost predicate HasKey(entries: seq<(string, string)>, k: string) {
    exists i :: 0 <= i < |entries| && entries[i].0 == k
  }

  lemma HasKeyMore(entries: seq<(string, string)>, k: string, v: string)
    ensures forall j :: HasKey(entries + [(k, v)], j) <==> HasKey(entries, j) || j == k
  {
    var more := entries + [(k, v)];
    assert more[|entries|].0 == k;
    forall j ensures HasKey(more, j) <==> HasKey(entries, j) || j == k {
      if HasKey(entries, j) {
        var i :| 0 <= i < |entries| && entries[i].0 == j;
        assert more[i].0 == j;
      }
    }
  }

  // ----- What survives the round trip

  predicate Trimmed(s: string) {
    Trim(s) == s
  }

  predicate CleanKey(k: string) {
    var dot := Find(k, '.');
    && ':' !in k && '#' !in k && '\n' !in k
    && if dot == |k| then Trimmed(k) else dot > 0 && Trimmed(k[..dot]) && Trimmed(k[dot + 1..])
  }

  predicate CleanValue(v: string) {
    v != "" && Trimmed(v) && '#' !in v && '\n' !in v && !Quoted(v)
  }

  // ----- Facts about text

  lemma {:induction false} FindIs(s: string, c: char, i: nat)
    requires i <= |s| && (i < |s| ==> s[i] == c) && forall j :: 0 <= j < i ==> s[j] != c
    ensures Find(s, c) == i
    decreases |s|
  {
    if i > 0 {
      FindIs(s[1..], c, i - 1);
    }
  }

  lemma {:induction false} IndentIs(s: string, i: nat)
    requires i < |s| && s[i] != ' ' && forall j :: 0 <= j < i ==> s[j] == ' '
    ensures Indent(s) == i
    decreases |s|
  {
    if i > 0 {
      IndentIs(s[1..], i - 1);
    }
  }

  lemma {:induction false} TrimLeftShrinks(s: string)
    ensures |TrimLeft(s)| <= |s|
    ensures TrimLeft(s) != [] ==> !IsSpace(TrimLeft(s)[0])
    decreases |s|
  {
    if s != [] && IsSpace(s[0]) { TrimLeftShrinks(s[1..]); }
  }

  lemma {:induction false} TrimRightShrinks(s: string)
    ensures |TrimRight(s)| <= |s| && (|TrimRight(s)| == |s| ==> TrimRight(s) == s)
    ensures s != [] && !IsSpace(s[0]) ==> TrimRight(s) != [] && TrimRight(s)[0] == s[0]
    decreases |s|
  {
    if s != [] && IsSpace(s[|s| - 1]) { TrimRightShrinks(s[..|s| - 1]); }
  }

  /** Trimming never lengthens, and keeps the length only of what is trimmed. */
  lemma TrimShrinks(s: string)
    ensures |Trim(s)| <= |s|
    ensures |Trim(s)| == |s| ==> Trim(s) == s
    ensures |Trim(s)| == |s| > 0 ==> !IsSpace(s[0])
  {
    TrimLeftShrinks(s);
    TrimRightShrinks(TrimLeft(s));
    TrimLeftWhole(s);
  }

  lemma {:induction false} TrimLeftWhole(s: string)
    ensures |TrimLeft(s)| == |s| ==> TrimLeft(s) == s
  {
    if s != [] && IsSpace(s[0]) { TrimLeftShrinks(s[1..]); }
  }

  ghost predicate Blank(s: string) {
    forall i :: 0 <= i < |s| ==> s[i] == ' ' || s[i] == '\t' || s[i] == '\r' || s[i] == '\n'
  }

  lemma {:induction false} TrimLeftIs(s: string) returns (a: string)
    ensures Blank(a) && s == a + TrimLeft(s)
    decreases |s|
  {
    a := "";
    if s != [] && IsSpace(s[0]) {
      a := TrimLeftIs(s[1..]);
      a := [s[0]] + a;
      assert s == [s[0]] + s[1..];
    }
  }

  lemma {:induction false} TrimRightIs(s: string) returns (b: string)
    ensures Blank(b) && s == TrimRight(s) + b
    decreases |s|
  {
    b := "";
    if s != [] && IsSpace(s[|s| - 1]) {
      b := TrimRightIs(s[..|s| - 1]);
      b := b + [s[|s| - 1]];
      assert s == s[..|s| - 1] + [s[|s| - 1]];
    }
  }

  /** Trimming takes blanks, tabs, carriage returns and newlines off both ends, all of them and nothing else. */
  lemma TrimIs(s: string) returns (a: string, b: string)
    ensures Blank(a) && Blank(b) && s == a + Trim(s) + b
    ensures var t := Trim(s); t != "" ==> !Blank([t[0]]) && !Blank([t[|t| - 1]])
  {
    hide TrimLeft, TrimRight;
    a := TrimLeftIs(s);
    b := TrimRightIs(TrimLeft(s));
    assert s == a + Trim(s) + b;
    TrimEnds(s);
    var t := Trim(s);
    if t != "" {
      BlankIs(t[0]);
      BlankIs(t[|t| - 1]);
    }
  }

  lemma BlankIs(c: char)
    ensures Blank([c]) <==> IsSpace(c)
  {
    assert [c][0] == c;
  }

  /** One pair of double or single quotes around a value comes off; any other value stays. */
  lemma UnquoteIs(v: string)
    ensures Unquote("\"" + v + "\"") == v && Unquote("'" + v + "'") == v
    ensures |v| < 2 || v[0] != v[|v| - 1] || (v[0] != '"' && v[0] != '\'') ==> Unquote(v) == v
  {}

  lemma TrimBlankFirst(v: string)
    ensures Trim(" " + v) == Trim(v)
  {
    assert (" " + v)[1..] == v;
  }

  /** A line with a character that is not white space is not blank. */
  lemma {:induction false} NotBlank(s: string, i: nat)
    requires i < |s| && !IsSpace(s[i])
    ensures Trim(s) != ""
    decreases |s|
  {
    TrimLeftKeeps(s, i);
    TrimRightShrinks(TrimLeft(s));
    TrimLeftShrinks(s);
  }

  lemma {:induction false} TrimLeftKeeps(s: string, i: nat)
    requires i < |s| && !IsSpace(s[i])
    ensures TrimLeft(s) != ""
    decreases |s|
  {
    if IsSpace(s[0]) { TrimLeftKeeps(s[1..], i - 1); }
  }

  lemma TrimmedStart(s: string)
    requires Trimmed(s) && s != ""
    ensures !IsSpace(s[0])
  {
    TrimShrinks(s);
  }

  function Blanks(n: nat): (s: string)
    ensures |s| == n && forall i :: 0 <= i < n ==> s[i] == ' '
  {
    seq(n, _ => ' ')
  }

  /** The text before a comment. */
  function Uncommented(s: string): string {
    s[..Find(s, '#')]
  }

  // ----- How the parser reads a printed line

  lemma CutLine(head: string, tail: string)
    requires '#' !in head
    ensures Uncommented(head + tail) == head + Uncommented(tail)
  {
    var i := Find(tail, '#');
    FindIs(head + tail, '#', |head| + i);
    assert (head + tail)[..|head| + i] == head + tail[..i];
  }

  lemma LineParts(pad: nat, key: string, tail: string)
    requires ':' !in key && (key != "" ==> key[0] != ' ')
    ensures var line := Blanks(pad) + key + ":" + tail;
            var content := line[pad..];
            && Indent(line) == pad && Trim(line) != ""
            && Find(content, ':') == |key| < |content| && content[..|key|] == key && content[|key| + 1..] == tail
  {
    var line := Blanks(pad) + key + ":" + tail;
    assert line[pad..] == key + ":" + tail;
    assert line[pad + |key|] == ':';
    IndentIs(line, pad);
    NotBlank(line, pad + |key|);
    FindIs(line[pad..], ':', |key|);
  }

  /** A line of blanks, key, colon and the rest sets the section or one entry of the store. */
  lemma LineParses(section: string, store: Store, pad: nat, key: string, tail: string)
    requires ':' !in key && '#' !in key && (key != "" ==> key[0] != ' ')
    ensures var value := Trim(Uncommented(tail));
            ParseLine(section, store, Blanks(pad) + key + ":" + tail) ==
              if value == "" then (if pad == 0 then Trim(key) else section, store)
              else (section, store[(if pad > 0 && section != "" then section + "." + Trim(key) else Trim(key)) := Unquote(value)])
  {
    hide Trim, Find, Indent, Unquote, Uncommented;
    var head := Blanks(pad) + key + ":";
    CutLine(head, tail);
    assert Uncommented(head + tail) == (head + tail)[..Find(head + tail, '#')] by { UncommentedIs(head + tail); }
    LineParts(pad, key, Uncommented(tail));
  }

  lemma UncommentedIs(s: string)
    ensures Uncommented(s) == s[..Find(s, '#')]
  {}

  lemma KeyStart(key: string)
    requires Trimmed(key)
    ensures key != "" ==> key[0] != ' '
  {
    if key != "" { TrimmedStart(key); }
  }

  lemma TakesLine(section: string, store: Store, line: string, rest: string)
    requires '\n' !in line
    ensures var r := ParseLine(section, store, line);
            ParseFrom(section, store, line + "\n" + rest) == ParseFrom(r.0, r.1, rest)
  {
    hide ParseLine;
    var text := line + "\n" + rest;
    FindIs(text, '\n', |line|);
    assert text[..|line|] == line && text[|line| + 1..] == rest;
  }

  /** What reading an entry back does to the store: the value loses its comment, its outer white space
      and its quotes, and a blank value sets nothing. */
  function ReadBack(store: Store, k: string, v: string): Store {
    var value := Trim(Uncommented(v));
    if value == "" then store else store[k := Unquote(value)]
  }

  lemma BlankBefore(v: string)
    ensures Trim(Uncommented(" " + v)) == Trim(Uncommented(v))
  {
    hide Trim, Uncommented;
    CutLine(" ", v);
    TrimBlankFirst(Uncommented(v));
  }

  lemma NothingAfter()
    ensures Trim(Uncommented("")) == ""
  {}

  /** Without the characters that end a key, a comment or a line, and without outer white space. */
  predicate KeyLike(k: string) {
    ':' !in k && '#' !in k && '\n' !in k && Trimmed(k)
  }

  /** The key under which a printed entry reads back: its parts lose their outer white space, and an
      empty section is no section. */
  function FlatKey(k: string): string {
    var dot := Find(k, '.');
    if dot == |k| then Trim(k)
    else
      var head, tail := Trim(k[..dot]), Trim(k[dot + 1..]);
      if head == "" then tail else head + "." + tail
  }

  /** The section after an entry: that of its key, and a plain key with a blank value reads as a header. */
  function SectionAfter(section: string, k: string, v: string): string {
    var dot := Find(k, '.');
    if dot < |k| then Trim(k[..dot]) else if Trim(Uncommented(v)) == "" then Trim(k) else section
  }

  lemma PlainEntryParses(section: string, store: Store, k: string, v: string, rest: string)
    requires KeyLike(k) && Find(k, '.') == |k| && '\n' !in v
    ensures ParseFrom(section, store, DumpEntry(k, v) + rest) ==
              ParseFrom(SectionAfter(section, k, v), ReadBack(store, FlatKey(k), v), rest)
  {
    hide Trim, Unquote, Uncommented, ParseLine, ParseFrom, Find, Trimmed;
    var line := Blanks(0) + k + ":" + (" " + v);
    assert DumpEntry(k, v) + rest == line + "\n" + rest;
    TakesLine(section, store, line, rest);
    KeyStart(k);
    LineParses(section, store, 0, k, " " + v);
    BlankBefore(v);
  }

  lemma PartOf(k: string, i: nat, c: char)
    requires i < |k| && c !in k
    ensures c !in k[..i] && c !in k[i + 1..]
  {}

  /** The two parts of a key with a section; the second may start with blanks. */
  lemma KeyParts(k: string, dot: nat) returns (n: nat, rest: string)
    requires KeyLike(k) && dot < |k|
    ensures var head := k[..dot];
            ':' !in head && '#' !in head && '\n' !in head && (head != "" ==> head[0] != ' ')
    ensures k[dot + 1..] == Blanks(n) + rest && Trim(rest) == Trim(k[dot + 1..])
    ensures ':' !in rest && '#' !in rest && '\n' !in rest && (rest != "" ==> rest[0] != ' ')
  {
    KeyStart(k);
    hide Trimmed, Trim, Indent;
    PartOf(k, dot, ':');
    PartOf(k, dot, '#');
    PartOf(k, dot, '\n');
    n := Indent(k[dot + 1..]);
    rest := k[dot + 1..][n..];
    BlanksFirst(k[dot + 1..]);
    TrimSkipsBlanks(k[dot + 1..]);
  }

  lemma {:induction false} BlanksFirst(s: string)
    ensures s == Blanks(Indent(s)) + s[Indent(s)..]
    ensures Indent(s) < |s| ==> s[Indent(s)] != ' '
    decreases |s|
  {
    hide Blanks;
    if s != "" && s[0] == ' ' {
      var n, tail := Indent(s[1..]), s[Indent(s)..];
      BlanksFirst(s[1..]);
      assert s[1..][n..] == tail;
      assert s == Blanks(1) + (Blanks(n) + tail);
      BlanksMore(1, n, tail);
    } else {
      assert s == Blanks(0) + s;
    }
  }

  lemma {:induction false} TrimSkipsBlanks(s: string)
    ensures Trim(s[Indent(s)..]) == Trim(s)
    decreases |s|
  {
    if s != "" && s[0] == ' ' {
      TrimSkipsBlanks(s[1..]);
      assert s[1..][Indent(s[1..])..] == s[Indent(s)..];
    }
  }

  lemma SectionEntryParses(section: string, store: Store, k: string, v: string, rest: string)
    requires KeyLike(k) && Find(k, '.') < |k| && '\n' !in v
    ensures ParseFrom(section, store, DumpEntry(k, v) + rest) ==
              ParseFrom(SectionAfter(section, k, v), ReadBack(store, FlatKey(k), v), rest)
  {
    hide Trim, Unquote, Uncommented, ParseLine, ParseFrom, Find, KeyLike;
    var dot := Find(k, '.');
    var n, tail := KeyParts(k, dot);
    var head := k[..dot];
    var first, second := Blanks(0) + head + ":" + "", Blanks(2 + n) + tail + ":" + (" " + v);
    TwoLines(k, v, rest, dot, n, tail);
    TakesLine(section, store, first, second + "\n" + rest);
    LineParses(section, store, 0, head, "");
    NothingAfter();
    TakesLine(Trim(head), store, second, rest);
    LineParses(Trim(head), store, 2 + n, tail, " " + v);
    BlankBefore(v);
  }

  lemma BlanksMore(k: nat, n: nat, tail: string)
    ensures Blanks(k) + (Blanks(n) + tail) == Blanks(k + n) + tail
  {
    assert Blanks(k) + Blanks(n) == Blanks(k + n);
    assert Blanks(k) + (Blanks(n) + tail) == (Blanks(k) + Blanks(n)) + tail;
  }

  lemma FirstLine(head: string, more: string, rest: string)
    ensures (head + ":\n" + more) + rest == (Blanks(0) + head + ":" + "") + "\n" + (more + rest)
  {
    var line := Blanks(0) + head + ":" + "";
    assert Blanks(0) == "";
    assert line == head + ":";
    assert line + "\n" == head + ":\n";
    Regroup(head + ":\n", more, rest);
  }

  lemma Regroup(a: string, b: string, c: string)
    ensures (a + b) + c == a + (b + c)
  {}

  lemma SecondLine(part: string, v: string, rest: string)
    ensures (part + ": " + v + "\n") + rest == (part + ":" + (" " + v)) + "\n" + rest
  {
    assert ": " == ":" + " ";
    Regroup(part, ":", " ");
    Regroup(part + ":", " ", v);
  }

  lemma TwoLines(k: string, v: string, rest: string, dot: nat, n: nat, tail: string)
    requires dot == Find(k, '.') < |k| && k[dot + 1..] == Blanks(n) + tail
    ensures DumpEntry(k, v) + rest ==
              (Blanks(0) + k[..dot] + ":" + "") + "\n" + ((Blanks(2 + n) + tail + ":" + (" " + v)) + "\n" + rest)
  {
    hide Find, Blanks;
    var head, part := k[..dot], Blanks(2 + n) + tail;
    assert "  " + k[dot + 1..] == part by {
      assert "  " == Blanks(2);
      BlanksMore(2, n, tail);
    }
    FirstLine(head, part + ": " + v + "\n", rest);
    SecondLine(part, v, rest);
  }

  /** Reading back never lengthens a key, and keeps the length exactly of clean keys, which stay as they are. */
  lemma FlatKeyShrinks(k: string)
    requires KeyLike(k)
    ensures |FlatKey(k)| <= |k|
    ensures |FlatKey(k)| == |k| <==> CleanKey(k)
    ensures CleanKey(k) ==> FlatKey(k) == k
  {
    hide Trim;
    var dot := Find(k, '.');
    if dot < |k| {
      var head, tail := k[..dot], k[dot + 1..];
      TrimShrinks(head);
      TrimShrinks(tail);
      assert k == head + "." + tail;
    }
  }

  // ----- The round trip

  function ReadBackAll(store: Store, entries: seq<(string, string)>): Store
    decreases |entries|
  {
    if entries == [] then store else ReadBackAll(ReadBack(store, entries[0].0, entries[0].1), entries[1..])
  }

  function Flattened(entries: seq<(string, string)>): (r: seq<(string, string)>)
    ensures |r| == |entries| && forall i :: 0 <= i < |r| ==> r[i] == (FlatKey(entries[i].0), entries[i].1)
  {
    seq(|entries|, i requires 0 <= i < |entries| => (FlatKey(entries[i].0), entries[i].1))
  }

  lemma {:induction false} DumpParses(section: string, store: Store, entries: seq<(string, string)>)
    requires forall i :: 0 <= i < |entries| ==> KeyLike(entries[i].0) && '\n' !in entries[i].1
    ensures ParseFrom(section, store, DumpText(entries)) == ReadBackAll(store, Flattened(entries))
    decreases |entries|
  {
    hide KeyLike, ReadBack, DumpEntry, SectionAfter, Find, FlatKey;
    if entries == [] {
    } else {
      hide ParseFrom;
      var k, v := entries[0].0, entries[0].1;
      if Find(k, '.') == |k| {
        PlainEntryParses(section, store, k, v, DumpText(entries[1..]));
      } else {
        SectionEntryParses(section, store, k, v, DumpText(entries[1..]));
      }
      DumpParses(SectionAfter(section, k, v), ReadBack(store, FlatKey(k), v), entries[1..]);
      assert Flattened(entries)[1..] == Flattened(entries[1..]);
    }
  }

  /** A value comes back as it was exactly when it is clean. */
  lemma ValueSurvives(store: Store, k: string, v: string)
    requires '\n' !in v && k !in store
    ensures k in ReadBack(store, k, v) && ReadBack(store, k, v)[k] == v <==> CleanValue(v)
  {
    hide Trim, Find;
    var u := Uncommented(v);
    TrimShrinks(u);
    if '#' !in v {
      FindIs(v, '#', |v|);
      assert v[..|v|] == v;
    } else {
      assert Find(v, '#') < |v|;
    }
  }

  lemma ReadBackOthers(store: Store, k: string, v: string, other: string)
    requires other != k
    ensures other in ReadBack(store, k, v) <==> other in store
    ensures other in store ==> ReadBack(store, k, v)[other] == store[other]
  {}

  /** Entries with other keys leave an entry alone. */
  lemma {:induction false} ReadBackKeeps(store: Store, entries: seq<(string, string)>, k: string)
    requires forall i :: 0 <= i < |entries| ==> entries[i].0 != k
    ensures k in ReadBackAll(store, entries) <==> k in store
    ensures k in store ==> ReadBackAll(store, entries)[k] == store[k]
    decreases |entries|
  {
    hide ReadBack;
    if entries != [] {
      ReadBackOthers(store, entries[0].0, entries[0].1, k);
      ReadBackKeeps(ReadBack(store, entries[0].0, entries[0].1), entries[1..], k);
    }
  }

  ghost predicate Distinct(entries: seq<(string, string)>) {
    forall i, j :: 0 <= i < j < |entries| ==> entries[i].0 != entries[j].0
  }

  /** Each entry of a dump comes back exactly when its value is clean. */
  lemma {:induction false} EntrySurvives(store: Store, entries: seq<(string, string)>, i: nat)
    requires Distinct(entries) && i < |entries| && '\n' !in entries[i].1 && entries[i].0 !in store
    ensures var r := ReadBackAll(store, entries);
            entries[i].0 in r && r[entries[i].0] == entries[i].1 <==> CleanValue(entries[i].1)
    decreases |entries|
  {
    hide ReadBack, CleanValue;
    var k, v := entries[0].0, entries[0].1;
    var store1 := ReadBack(store, k, v);
    if i == 0 {
      ValueSurvives(store, k, v);
      ReadBackKeeps(store1, entries[1..], k);
    } else {
      ReadBackOthers(store, k, v, entries[i].0);
      EntrySurvives(store1, entries[1..], i - 1);
    }
  }

  ghost predicate NoNewlines(store: Store) {
    forall k :: k in store ==> '\n' !in store[k]
  }

  /** No parsed value contains a newline. */
  lemma {:induction false} ParsedValuesAreLines(section: string, store: Store, text: string)
    requires NoNewlines(store)
    ensures NoNewlines(ParseFrom(section, store, text))
    decreases |text|
  {
    hide ParseLine, NoNewlines, Find;
    if text != "" {
      var end := Find(text, '\n');
      FirstLineIsLine(text);
      LineKeepsNoNewlines(section, store, text[..end]);
      var r := ParseLine(section, store, text[..end]);
      ParsedValuesAreLines(r.0, r.1, if end < |text| then text[end + 1..] else "");
    }
  }

  lemma FirstLineIsLine(text: string)
    ensures '\n' !in text[..Find(text, '\n')]
  {}

  lemma LineKeepsNoNewlines(section: string, store: Store, line: string)
    requires NoNewlines(store) && '\n' !in line
    ensures NoNewlines(ParseLine(section, store, line).1)
  {
    hide TrimLeft, TrimRight, Find, Indent;
    var content := line[..Find(line, '#')];
    var after := content[Indent(content)..];
    var colon := Find(after, ':');
    if colon < |after| {
      TrimIsPart(after[colon + 1..], '\n');
    }
  }

  lemma TrimIsPart(s: string, c: char)
    requires c !in s
    ensures c !in Trim(s)
  {
    TrimLeftPart(s, c);
    TrimRightPart(TrimLeft(s), c);
  }

  lemma {:induction false} TrimLeftPart(s: string, c: char)
    requires c !in s
    ensures c !in TrimLeft(s)
    decreases |s|
  {
    if s != [] { TrimLeftPart(s[1..], c); }
  }

  lemma {:induction false} TrimRightPart(s: string, c: char)
    requires c !in s
    ensures c !in TrimRight(s)
    decreases |s|
  {
    if s != [] { TrimRightPart(s[..|s| - 1], c); }
  }

  // ----- No parsed key contains what a key cannot

  ghost predicate KeysLike(store: Store) {
    forall k :: k in store ==> KeyLike(k)
  }

  lemma {:induction false} ParsedKeysAreKeyLike(section: string, store: Store, text: string)
    requires KeysLike(store) && KeyLike(section)
    ensures KeysLike(ParseFrom(section, store, text))
    decreases |text|
  {
    hide ParseLine, KeyLike, KeysLike, Find;
    if text != "" {
      var end := Find(text, '\n');
      FirstLineIsLine(text);
      LineKeepsKeysLike(section, store, text[..end]);
      var r := ParseLine(section, store, text[..end]);
      ParsedKeysAreKeyLike(r.0, r.1, if end < |text| then text[end + 1..] else "");
    }
  }

  lemma LineKeepsKeysLike(section: string, store: Store, line: string)
    requires KeysLike(store) && KeyLike(section) && '\n' !in line
    ensures KeyLike(ParseLine(section, store, line).0) && KeysLike(ParseLine(section, store, line).1)
  {
    hide Trim, Find, Indent, KeyLike, Unquote;
    var uncommented := line[..Find(line, '#')];
    var content := uncommented[Indent(uncommented)..];
    var key := content[..Find(content, ':')];
    assert ':' !in key && '#' !in key && '\n' !in key;
    TrimIsKeyLike(key);
    JoinIsKeyLike(section, Trim(key));
  }

  lemma TrimIsKeyLike(s: string)
    requires ':' !in s && '#' !in s && '\n' !in s
    ensures KeyLike(Trim(s))
  {
    TrimIsPart(s, ':');
    TrimIsPart(s, '#');
    TrimIsPart(s, '\n');
    TrimEnds(s);
    EndsAreTrimmed(Trim(s));
  }

  lemma JoinIsKeyLike(section: string, key: string)
    requires KeyLike(section) && KeyLike(key)
    ensures section != "" ==> KeyLike(section + "." + key)
  {
    if section != "" {
      TrimmedStart(section);
      if key != "" { TrimEnds(key); }
      EndsAreTrimmed(section + "." + key);
    }
  }

  /** What is trimmed neither starts nor ends with white space. */
  lemma TrimEnds(s: string)
    ensures var t := Trim(s); t != "" ==> !IsSpace(t[0]) && !IsSpace(t[|t| - 1])
  {
    TrimLeftShrinks(s);
    TrimRightEnds(TrimLeft(s));
    TrimRightShrinks(TrimLeft(s));
  }

  lemma {:induction false} TrimRightEnds(s: string)
    ensures TrimRight(s) != "" ==> !IsSpace(TrimRight(s)[|TrimRight(s)| - 1])
    decreases |s|
  {
    if s != [] && IsSpace(s[|s| - 1]) { TrimRightEnds(s[..|s| - 1]); }
  }

  lemma EndsAreTrimmed(s: string)
    requires s != "" ==> !IsSpace(s[0]) && !IsSpace(s[|s| - 1])
    ensures Trimmed(s)
  {}

  // ----- Exactly when a dump restores its store

  lemma {:induction false} FlattenedClean(entries: seq<(string, string)>)
    requires forall i :: 0 <= i < |entries| ==> CleanKey(entries[i].0)
    ensures forall i :: 0 <= i < |entries| ==> KeyLike(entries[i].0)
    ensures Flattened(entries) == entries
  {
    hide KeyLike, CleanKey, FlatKey;
    forall i | 0 <= i < |entries| ensures KeyLike(entries[i].0) && FlatKey(entries[i].0) == entries[i].0 {
      CleanIsKeyLike(entries[i].0);
      FlatKeyShrinks(entries[i].0);
    }
    assert forall i :: 0 <= i < |entries| ==> entries[i] == (entries[i].0, entries[i].1);
  }

  lemma CleanIsKeyLike(k: string)
    requires CleanKey(k)
    ensures KeyLike(k)
  {
    var dot := Find(k, '.');
    if dot < |k| {
      var head, tail := k[..dot], k[dot + 1..];
      TrimEnds(head);
      TrimEnds(tail);
      EndsAreTrimmed(k);
    }
  }

  function Longest(entries: seq<(string, string)>): (n: nat)
    ensures forall i :: 0 <= i < |entries| ==> |entries[i].0| <= n
    decreases |entries|
  {
    if entries == [] then 0
    else
      var n := Longest(entries[1..]);
      assert forall i :: 1 <= i < |entries| ==> entries[i] == entries[1..][i - 1];
      if |entries[0].0| > n then |entries[0].0| else n
  }

  /** If every key is some key read back, none is longer than what it came from, so from the longest down
      every key is clean. */
  lemma {:induction false} KeyIsClean(entries: seq<(string, string)>, i: nat)
    requires i < |entries| && forall j :: 0 <= j < |entries| ==> KeyLike(entries[j].0)
    requires forall j :: 0 <= j < |entries| ==> HasKey(Flattened(entries), entries[j].0)
    ensures CleanKey(entries[i].0)
    decreases Longest(entries) - |entries[i].0|
  {
    hide KeyLike, CleanKey, FlatKey, Longest;
    var k := entries[i].0;
    assert HasKey(Flattened(entries), k);
    var j :| 0 <= j < |entries| && Flattened(entries)[j].0 == k;
    FlatKeyShrinks(entries[j].0);
    if |entries[j].0| > |k| {
      KeyIsClean(entries, j);
    }
  }

  lemma {:induction false} ReadBackKeysAreFlat(store: Store, entries: seq<(string, string)>, k: string)
    requires k in ReadBackAll(store, entries) && k !in store
    ensures HasKey(entries, k)
  {
    hide ReadBackAll;
    if !HasKey(entries, k) {
      ReadBackKeeps(store, entries, k);
    }
  }

  /** In any iteration order, parsing a dump restores the store exactly when every key and every value is clean.
      A key: no colon, comment sign or newline, trimmed, and if it has a dot, trimmed parts with a first part that is
      not empty. A value: not empty, trimmed, on one line, no comment sign, no enclosing quotes. */
  lemma DumpThenParse(entries: seq<(string, string)>, store: Store)
    requires Lists(entries, store)
    ensures ParseText(DumpText(entries)) == store <==>
              forall i :: 0 <= i < |entries| ==> CleanKey(entries[i].0) && CleanValue(entries[i].1)
  {
    hide CleanKey, CleanValue, ReadBackAll, DumpText, ParseFrom, Lists;
    if ParseText(DumpText(entries)) == store {
      RestoredIsClean(entries, store);
    }
    if forall i :: 0 <= i < |entries| ==> CleanKey(entries[i].0) && CleanValue(entries[i].1) {
      forall i | 0 <= i < |entries| ensures '\n' !in entries[i].1 { CleanValueIsLine(entries[i].1); }
      FlattenedClean(entries);
      DumpParses("", map[], entries);
      SurvivesAll(entries, store);
    }
  }

  lemma CleanValueIsLine(v: string)
    requires CleanValue(v)
    ensures '\n' !in v
  {}

  lemma RestoredIsClean(entries: seq<(string, string)>, store: Store)
    requires Lists(entries, store) && ParseText(DumpText(entries)) == store
    ensures forall i :: 0 <= i < |entries| ==> CleanKey(entries[i].0) && CleanValue(entries[i].1)
  {
    hide CleanKey, CleanValue, ReadBackAll, DumpText, ParseFrom, KeyLike, FlatKey;
    ParsedValuesAreLines("", map[], DumpText(entries));
    NothingIsKeyLike();
    ParsedKeysAreKeyLike("", map[], DumpText(entries));
    DumpParses("", map[], entries);
    forall j | 0 <= j < |entries| ensures HasKey(Flattened(entries), entries[j].0) {
      ReadBackKeysAreFlat(map[], Flattened(entries), entries[j].0);
    }
    forall i | 0 <= i < |entries| ensures CleanKey(entries[i].0) {
      KeyIsClean(entries, i);
    }
    FlattenedClean(entries);
    SurvivesAll(entries, store);
  }

  lemma NothingIsKeyLike()
    ensures KeyLike("")
  {}

  lemma SurvivesAll(entries: seq<(string, string)>, store: Store)
    requires Lists(entries, store) && forall i :: 0 <= i < |entries| ==> '\n' !in entries[i].1
    ensures ReadBackAll(map[], entries) == store <==> forall i :: 0 <= i < |entries| ==> CleanValue(entries[i].1)
  {
    hide CleanValue, ReadBackAll;
    var r := ReadBackAll(map[], entries);
    forall i | 0 <= i < |entries|
      ensures entries[i].0 in r && r[entries[i].0] == entries[i].1 <==> CleanValue(entries[i].1)
    {
      EntrySurvives(map[], entries, i);
    }
    forall k | k in r ensures k in store {
      if forall i :: 0 <= i < |entries| ==> entries[i].0 != k {
        ReadBackKeeps(map[], entries, k);
      }
    }
  }

  class Config {
    var store: Store

    constructor ()
      ensures store == map[]
    {
      store := map[];
    }

    method Parse(text: string) returns (ok: bool)
      modifies this
      ensures ok && store == ParseText(text)
    {
      hide ParseLine;
      store := map[];
      var section := "";
      var rest := text;
      while rest != ""
        invariant ParseFrom(section, store, rest) == ParseText(text)
        decreases |rest|
      {
        var end := Find(rest, '\n');
        var r := ParseLine(section, store, rest[..end]);
        section, store := r.0, r.1;
        rest := if end < |rest| then rest[end + 1..] else "";
      }
      return true;
    }

    /** The text of the entries in the map's own iteration order. */
    method Dump() returns (text: string)
      ensures exists entries :: Lists(entries, store) && text == DumpText(entries)
    {
      hide DumpEntry, HasKey;
      text := "";
      ghost var entries: seq<(string, string)> := [];
      var left := store.Keys;
      while left != {}
        invariant left <= store.Keys && text == DumpText(entries) && Distinct(entries)
        invariant forall i :: 0 <= i < |entries| ==>
                    entries[i].0 in store && entries[i].0 !in left && store[entries[i].0] == entries[i].1
        invariant forall k :: k in store && k !in left ==> HasKey(entries, k)
        decreases |left|
      {
        var k :| k in left;
        DumpMore(entries, k, store[k]);
        HasKeyMore(entries, k, store[k]);
        text := text + DumpEntry(k, store[k]);
        entries := entries + [(k, store[k])];
        left := left - {k};
      }
      assert Lists(entries, store);
    }
  }

  lemma {:induction false} DumpMore(entries: seq<(string, string)>, k: string, v: string)
    ensures DumpText(entries + [(k, v)]) == DumpText(entries) + DumpEntry(k, v)
    decreases |entries|
  {
    hide DumpEntry;
    if entries == [] {
      assert [(k, v)][1..] == [];
      assert DumpText([]) == "";
      assert [] + [(k, v)] == [(k, v)];
    } else {
      assert (entries + [(k, v)])[1..] == entries[1..] + [(k, v)];
      DumpMore(entries[1..], k, v);
    }
  }
}
