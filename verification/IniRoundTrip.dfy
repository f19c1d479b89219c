/** Printing a configuration and loading it back. */
module IniRoundTrip {
  import opened Options
  import opened IniSyntax

  function PrintHeader(name: string): string {
    "[" + name + "]"
  }

  function Quoted(value: string): string {
    "\"" + value + "\""
  }

  function PrintPair(key: string, value: string): string {
    key + ("=" + Quoted(value))
  }

  /** Neither space nor tab. */
  predicate Inked(c: char) {
    c != ' ' && c != '\t'
  }

  predicate GoodName(name: string) {
    && name != "" && Lacks(name, NUL)
    && Inked(name[0]) && Inked(name[|name| - 1])
    && Lacks(name[1..], ']')
  }

  predicate GoodKey(key: string) {
    && Lacks(key, NUL) && Lacks(key, '=')
    && (key != "" ==> Inked(key[0]) && Inked(key[|key| - 1]) && key[0] != ';' && key[0] != '#' && key[0] != '[')
  }

  predicate GoodValue(value: string) {
    Lacks(value, NUL) && Lacks(value, '\"')
  }

  // ----- what the parser can return -----

  predicate Ready(s: string) {
    Lacks(s, NUL) && (s != "" ==> !Blank(s[0]))
  }

  lemma TrimmedIsReady(line: string)
    ensures Ready(Trimmed(line))
  {
    assert Lacks(CStr(line), NUL);
    assert Lacks(StripCR(CStr(line)), NUL);
  }

  lemma NameIsGood(n: string)
    requires Ready(n) && n != ""
    ensures GoodName(HeaderName(n))
  {
    var f := Find(n, ']', 1);
    assert n[..f][0] == n[0];
    var name := HeaderName(n);
    assert forall k :: 1 <= k < |name| ==> name[k] == n[k] && name[1..][k - 1] == name[k];
  }

  lemma KeyIsGood(s: string)
    requires Ready(s) && s != "" && !CommentMark(s[0]) && s[0] != '['
    ensures GoodKey(Key(s))
  {
  }

  lemma ValueIsClean(v: string)
    requires Lacks(v, NUL)
    ensures Lacks(Value(v), NUL)
  {
  }

  // ----- one line, both ways -----

  /** A printed section name is read back exactly when it is a good name. */
  lemma HeaderRoundTrip(name: string)
    ensures ParseLine(PrintHeader(name)) == Header(name) <==> GoodName(name)
  {
    var line := PrintHeader(name);
    if GoodName(name) {
      GoodNameReads(name);
    } else {
      BadNameReads(name);
    }
  }

  lemma BadNameReads(name: string)
    requires !GoodName(name)
    ensures ParseLine(PrintHeader(name)) != Header(name)
  {
    TrimmedIsReady(PrintHeader(name));
    ReadNamesAreGood(Trimmed(PrintHeader(name)));
  }

  lemma ReadNamesAreGood(s: string)
    requires Ready(s)
    ensures ParseTrimmed(s).Header? ==> GoodName(ParseTrimmed(s).name)
  {
    if s != "" {
      var n := TrimL(s[1..]);
      assert Ready(n);
      if n != "" {
        NameIsGood(n);
      }
    }
  }

  /** A printed line is nothing but its own trimmed text. */
  lemma PrintedIsTrimmed(line: string)
    requires line != "" && Lacks(line, NUL) && line[|line| - 1] != '\r' && !Blank(line[0])
    ensures Trimmed(line) == line
  {
    CStrClean(line);
    TrimLKeeps(line);
  }

  lemma NameInBrackets(name: string)
    requires GoodName(name)
    ensures TrimL(name + "]") == name + "]" && HeaderName(name + "]") == name
  {
    var n := name + "]";
    TrimLKeeps(n);
    assert forall q :: 1 <= q < |name| ==> n[q] == name[1..][q - 1];
    FindIs(n, ']', 1, |name|);
    assert n[..|name|] == name;
    TrimRKeeps(name);
  }

  lemma GoodNameReads(name: string)
    requires GoodName(name)
    ensures ParseLine(PrintHeader(name)) == Header(name)
  {
    var line := PrintHeader(name);
    PrintedIsTrimmed(line);
    NameInBrackets(name);
    assert line[1..] == name + "]";
  }

  lemma SplitAtEquals(k: string, v: string)
    requires Lacks(k, '=')
    ensures Key(k + ("=" + v)) == TrimR(k) && ValueText(k + ("=" + v)) == TrimL(v)
  {
    EqualsAt(k, v);
  }

  lemma KeyBeforeEquals(key: string, v: string)
    requires GoodKey(key) && v != "" && !Blank(v[0])
    ensures Key(key + ("=" + v)) == key && ValueText(key + ("=" + v)) == v
  {
    SplitAtEquals(key, v);
    TrimRKeeps(key);
    TrimLKeeps(v);
  }

  lemma EqualsAt(key: string, v: string)
    requires Lacks(key, '=')
    ensures var line := key + ("=" + v);
            Find(line, '=', 0) == |key| && line[..|key|] == key && line[|key| + 1..] == v
  {
    FindIs(key + ("=" + v), '=', 0, |key|);
  }

  lemma PrintedPairTrimmed(key: string, value: string)
    requires GoodKey(key) && Lacks(value, NUL)
    ensures var line := PrintPair(key, value);
            Trimmed(line) == line && !CommentMark(line[0]) && line[0] != '['
  {
    var line := PrintPair(key, value);
    assert line[0] == if key == "" then '=' else key[0];
    assert Lacks("=" + Quoted(value), NUL);
    PrintedIsTrimmed(line);
  }

  /** A line printed with a good key is read up to the first quote in its value. */
  lemma PrintedPairReads(key: string, value: string)
    requires GoodKey(key) && Lacks(value, NUL)
    ensures ParseLine(PrintPair(key, value)) == Pair(key, value[..Find(value, '\"', 0)])
  {
    PrintedPairTrimmed(key, value);
    KeyBeforeEquals(key, Quoted(value));
    QuotedValue(value);
  }

  lemma QuotedValue(value: string)
    ensures Value(Quoted(value)) == value[..Find(value, '\"', 0)]
  {
    var v, c := Quoted(value), Find(value, '\"', 0);
    FindIs(v, '\"', 1, c + 1);
    assert v[1..c + 1] == value[..c];
  }

  /** A printed pair is read back exactly when key and value are good. */
  lemma PairRoundTrip(key: string, value: string)
    ensures ParseLine(PrintPair(key, value)) == Pair(key, value) <==> GoodKey(key) && GoodValue(value)
  {
    if GoodKey(key) && Lacks(value, NUL) {
      PrintedPairReads(key, value);
      if Lacks(value, '\"') {
        FindNone(value, '\"', 0);
      }
    } else {
      BadPairReads(key, value);
    }
  }

  lemma BadPairReads(key: string, value: string)
    requires !(GoodKey(key) && Lacks(value, NUL))
    ensures ParseLine(PrintPair(key, value)) != Pair(key, value)
  {
    var s := Trimmed(PrintPair(key, value));
    TrimmedIsReady(PrintPair(key, value));
    if s != "" && !CommentMark(s[0]) && s[0] != '[' {
      KeyIsGood(s);
      ValueOfReady(s);
    }
  }

  lemma ValueOfReady(s: string)
    requires Ready(s)
    ensures Lacks(Value(ValueText(s)), NUL)
  {
    assert Lacks(ValueText(s), NUL);
    ValueIsClean(ValueText(s));
  }

  // ----- a whole file -----

  /** A section as it is printed, its pairs in any order. */
  datatype Block = Block(name: string, pairs: seq<(string, string)>)

  function PairLines(pairs: seq<(string, string)>): seq<string> {
    if pairs == [] then []
    else
      var p := pairs[|pairs| - 1];
      PairLines(pairs[..|pairs| - 1]) + [PrintPair(p.0, p.1)]
  }

  function FileLines(blocks: seq<Block>): seq<string> {
    if blocks == [] then []
    else
      var b := blocks[|blocks| - 1];
      FileLines(blocks[..|blocks| - 1]) + ([PrintHeader(b.name)] + PairLines(b.pairs))
  }

  function Text(lines: seq<string>): string {
    if lines == [] then "" else lines[0] + ("\n" + Text(lines[1..]))
  }

  function Print(blocks: seq<Block>): string {
    Text(FileLines(blocks))
  }

  function PairsMap(pairs: seq<(string, string)>): Section {
    if pairs == [] then map[]
    else PairsMap(pairs[..|pairs| - 1])[pairs[|pairs| - 1].0 := pairs[|pairs| - 1].1]
  }

  function FileMap(blocks: seq<Block>): map<string, Section> {
    if blocks == [] then map[]
    else FileMap(blocks[..|blocks| - 1])[blocks[|blocks| - 1].name := PairsMap(blocks[|blocks| - 1].pairs)]
  }

  predicate GoodPair(key: string, value: string) {
    GoodKey(key) && GoodValue(value) && Lacks(key, '\n') && Lacks(value, '\n')
  }

  /** Good pairs under distinct keys. */
  predicate GoodPairs(pairs: seq<(string, string)>) {
    pairs == [] ||
    var front, p := pairs[..|pairs| - 1], pairs[|pairs| - 1];
    GoodPairs(front) && GoodPair(p.0, p.1) && p.0 !in PairsMap(front)
  }

  /** Good sections under distinct names. */
  predicate GoodFile(blocks: seq<Block>) {
    blocks == [] ||
    var front, b := blocks[..|blocks| - 1], blocks[|blocks| - 1];
    GoodFile(front) && GoodName(b.name) && Lacks(b.name, '\n') && GoodPairs(b.pairs) && b.name !in FileMap(front)
  }

  predicate SingleLines(lines: seq<string>) {
    forall i :: 0 <= i < |lines| ==> Lacks(lines[i], '\n')
  }

  lemma {:induction false} LinesOfText(lines: seq<string>)
    requires SingleLines(lines)
    ensures Lines(Text(lines)) == lines
    decreases |lines|
  {
    if lines != [] {
      var l, rest := lines[0], Text(lines[1..]);
      var s := l + ("\n" + rest);
      FindIs(s, '\n', 0, |l|);
      assert s[..|l|] == l && s[|l| + 1..] == rest;
      LinesOfText(lines[1..]);
    }
  }

  lemma {:induction false} ParseAppend(a: seq<string>, b: seq<string>)
    ensures ParseAll(a + b) == ParseAll(a) + ParseAll(b)
  {
    if a == [] {
      assert a + b == b;
    } else {
      assert (a + b)[1..] == a[1..] + b;
      ParseAppend(a[1..], b);
    }
  }

  lemma {:induction false} FeedAppend(st: Loading, a: seq<Line>, b: seq<Line>)
    requires WellSited(st)
    ensures FeedAll(st, a + b) == FeedAll(FeedAll(st, a), b)
    decreases |a|
  {
    if a == [] {
      assert a + b == b;
    } else {
      assert (a + b)[1..] == a[1..] + b;
      FeedAppend(Feed(st, a[0]), a[1..], b);
    }
  }

  lemma FeedOne(st: Loading, l: Line)
    requires WellSited(st)
    ensures FeedAll(st, [l]) == Feed(st, l)
  {
  }

  lemma ParseOne(line: string)
    ensures ParseAll([line]) == [ParseLine(line)]
  {
  }

  lemma {:induction false} PrintsSingleLines(pairs: seq<(string, string)>)
    requires GoodPairs(pairs)
    ensures SingleLines(PairLines(pairs))
  {
    if pairs != [] {
      PrintsSingleLines(pairs[..|pairs| - 1]);
    }
  }

  lemma {:induction false} FileIsSingleLines(blocks: seq<Block>)
    requires GoodFile(blocks)
    ensures SingleLines(FileLines(blocks))
  {
    if blocks != [] {
      FileIsSingleLines(blocks[..|blocks| - 1]);
      PrintsSingleLines(blocks[|blocks| - 1].pairs);
    }
  }

  lemma PairFeeds(sections: map<string, Section>, name: string, data: Section, key: string, value: string)
    requires key !in data
    ensures Feed(Loading(sections[name := data], Some(name)), Pair(key, value))
         == Loading(sections[name := data[key := value]], Some(name))
  {
    assert sections[name := data][name := data[key := value]] == sections[name := data[key := value]];
  }

  lemma LastPairParses(pairs: seq<(string, string)>)
    requires GoodPairs(pairs) && pairs != []
    ensures var front, p := pairs[..|pairs| - 1], pairs[|pairs| - 1];
            ParseAll(PairLines(pairs)) == ParseAll(PairLines(front)) + [Pair(p.0, p.1)]
  {
    var p := pairs[|pairs| - 1];
    ParseAppend(PairLines(pairs[..|pairs| - 1]), [PrintPair(p.0, p.1)]);
    ParseOne(PrintPair(p.0, p.1));
    PairRoundTrip(p.0, p.1);
  }

  /** Printed pairs fill the section that was just opened. */
  lemma {:induction false} PairsLoad(sections: map<string, Section>, name: string, pairs: seq<(string, string)>)
    requires GoodPairs(pairs)
    ensures FeedAll(Loading(sections[name := map[]], Some(name)), ParseAll(PairLines(pairs)))
         == Loading(sections[name := PairsMap(pairs)], Some(name))
  {
    if pairs != [] {
      var front, p := pairs[..|pairs| - 1], pairs[|pairs| - 1];
      PairsLoad(sections, name, front);
      LastPairParses(pairs);
      FeedAppend(Loading(sections[name := map[]], Some(name)), ParseAll(PairLines(front)), [Pair(p.0, p.1)]);
      FeedOne(Loading(sections[name := PairsMap(front)], Some(name)), Pair(p.0, p.1));
      PairFeeds(sections, name, PairsMap(front), p.0, p.1);
    }
  }

  /** Printed sections add up to the map they stand for. */
  lemma {:induction false} FileLoads(blocks: seq<Block>)
    requires GoodFile(blocks)
    ensures FeedAll(EMPTY, ParseAll(FileLines(blocks)))
         == Loading(FileMap(blocks), if blocks == [] then None else Some(blocks[|blocks| - 1].name))
  {
    if blocks != [] {
      var front, b := blocks[..|blocks| - 1], blocks[|blocks| - 1];
      var head, pairs := PrintHeader(b.name), PairLines(b.pairs);
      FileLoads(front);
      var st := FeedAll(EMPTY, ParseAll(FileLines(front)));
      ParseAppend(FileLines(front), [head] + pairs);
      FeedAppend(EMPTY, ParseAll(FileLines(front)), ParseAll([head] + pairs));
      HeaderRoundTrip(b.name);
      ParseCons(head, pairs);
      FeedAppend(st, [Header(b.name)], ParseAll(pairs));
      FeedOne(st, Header(b.name));
      PairsLoad(st.sections, b.name, b.pairs);
    }
  }

  /** Loading a printed configuration gives it back, with either kind of line end. */
  lemma RoundTrip(blocks: seq<Block>)
    requires GoodFile(blocks)
    ensures LoadText(Print(blocks)) == FileMap(blocks)
    ensures LoadText(Crlf(Print(blocks))) == FileMap(blocks)
  {
    FileIsSingleLines(blocks);
    LinesOfText(FileLines(blocks));
    FileLoads(blocks);
    LoadIgnoresCrlf(Print(blocks));
  }

  // ----- every good map can be printed -----

  ghost predicate GoodSection(data: Section) {
    forall key :: key in data ==> GoodPair(key, data[key])
  }

  ghost predicate GoodMap(m: map<string, Section>) {
    forall name :: name in m ==> GoodName(name) && Lacks(name, '\n') && GoodSection(m[name])
  }

  lemma {:induction false} ListPairs(data: Section) returns (pairs: seq<(string, string)>)
    requires GoodSection(data)
    ensures GoodPairs(pairs) && PairsMap(pairs) == data
    decreases data.Keys
  {
    if data.Keys == {} {
      pairs := [];
      assert data == map[];
    } else {
      var key :| key in data.Keys;
      var front := ListPairs(data - {key});
      pairs := front + [(key, data[key])];
      assert pairs[..|pairs| - 1] == front;
    }
  }

  lemma {:induction false} ListBlocks(m: map<string, Section>) returns (blocks: seq<Block>)
    requires GoodMap(m)
    ensures GoodFile(blocks) && FileMap(blocks) == m
    decreases m.Keys
  {
    if m.Keys == {} {
      blocks := [];
      assert m == map[];
    } else {
      var name :| name in m.Keys;
      var front := ListBlocks(m - {name});
      var pairs := ListPairs(m[name]);
      blocks := front + [Block(name, pairs)];
      assert blocks[..|blocks| - 1] == front;
    }
  }

  /** Every section map with good names, keys and values is printed in some order, and loads back from it. */
  lemma EveryGoodMapPrints(m: map<string, Section>) returns (blocks: seq<Block>)
    requires GoodMap(m)
    ensures GoodFile(blocks) && FileMap(blocks) == m && LoadText(Print(blocks)) == m
  {
    blocks := ListBlocks(m);
    RoundTrip(blocks);
  }
}
