/** What a configuration file means: a line parser and loader on values, and a printer. */
module IniSyntax {
  import opened Options

  type Section = map<string, string>

  const NUL: char := '\0'

  predicate Lacks(s: string, c: char) {
    forall k :: 0 <= k < |s| ==> s[k] != c
  }

  predicate Blank(c: char) {
    c == ' ' || c == '\t'
  }

  /** Index of the first c at or after i, or |s|. */
  function Find(s: string, c: char, i: nat): (p: nat)
    requires i <= |s|
    ensures i <= p <= |s| && (p < |s| ==> s[p] == c)
    ensures forall q :: i <= q < p ==> s[q] != c
    decreases |s| - i
  {
    if i == |s| || s[i] == c then i else Find(s, c, i + 1)
  }

  function CStr(s: string): string {
    s[..Find(s, NUL, 0)]
  }

  function StripCR(s: string): (r: string)
    ensures r <= s && (r != "" ==> r[|r| - 1] != '\r')
  {
    if s != "" && s[|s| - 1] == '\r' then StripCR(s[..|s| - 1]) else s
  }

  function TrimL(s: string): (r: string)
    ensures |r| <= |s| && r == s[|s| - |r|..] && (r != "" ==> !Blank(r[0]))
  {
    if s != "" && Blank(s[0]) then TrimL(s[1..]) else s
  }

  function TrimR(s: string): (r: string)
    ensures r <= s && (r != "" ==> !Blank(r[|r| - 1])) && (s != "" && !Blank(s[0]) ==> r != "")
  {
    if s != "" && Blank(s[|s| - 1]) then TrimR(s[..|s| - 1]) else s
  }

  predicate CommentMark(c: char) {
    c == ';' || c == '#'
  }

  /** Where an inline comment begins at or after k: a mark behind a blank. */
  function CommentAt(v: string, k: nat): (p: nat)
    requires 1 <= k
    ensures p <= |v| && (k <= |v| ==> k <= p)
    ensures k <= p < |v| ==> CommentMark(v[p]) && Blank(v[p - 1])
    ensures forall q :: k <= q < p ==> !(CommentMark(v[q]) && Blank(v[q - 1]))
    decreases |v| - k
  {
    if k >= |v| then |v|
    else if CommentMark(v[k]) && Blank(v[k - 1]) then k
    else CommentAt(v, k + 1)
  }

  predicate Quote(c: char) {
    c == '\"' || c == '\''
  }

  /** The value in v, whose leading blanks are gone. */
  function Value(v: string): string {
    if v != "" && Quote(v[0]) then
      var close := Find(v, v[0], 1);
      if close < |v| then v[1..close] else TrimR(v)
    else TrimR(v[..CommentAt(v, 1)])
  }

  datatype Line =
    | BlankLine
    | Comment
    | BadHeader
    | Header(name: string)
    | Pair(key: string, value: string)

  function HeaderName(n: string): string
    requires n != ""
  {
    TrimR(n[..Find(n, ']', 1)])
  }

  function Key(s: string): string {
    TrimR(s[..Find(s, '=', 0)])
  }

  function ValueText(s: string): string {
    var e := Find(s, '=', 0);
    TrimL(if e < |s| then s[e + 1..] else "")
  }

  /** A line whose line end and leading blanks are gone. */
  function ParseTrimmed(s: string): Line {
    if s == "" then BlankLine
    else if CommentMark(s[0]) then Comment
    else if s[0] == '[' then
      var n := TrimL(s[1..]);
      if n == "" then BadHeader else Header(HeaderName(n))
    else Pair(Key(s), Value(ValueText(s)))
  }

  function Trimmed(line: string): string {
    TrimL(StripCR(CStr(line)))
  }

  function ParseLine(line: string): Line {
    ParseTrimmed(Trimmed(line))
  }

  // ----- loading -----

  /** The sections so far, and the one that key-value pairs go to, if any. */
  datatype Loading = Loading(sections: map<string, Section>, current: Option<string>)

  const EMPTY := Loading(map[], None)

  predicate WellSited(st: Loading) {
    st.current.Some? ==> st.current.value in st.sections
  }

  /** emplace: the first of two equal keys stays. */
  function Set(data: Section, key: string, value: string): Section {
    if key in data then data else data[key := value]
  }

  function Feed(st: Loading, l: Line): (r: Loading)
    requires WellSited(st)
    ensures WellSited(r)
  {
    match l
    case BlankLine => st
    case Comment => st
    case BadHeader => st.(current := None)
    case Header(name) =>
      if name in st.sections then st.(current := None)
      else Loading(st.sections[name := map[]], Some(name))
    case Pair(key, value) =>
      if st.current.None? then st
      else
        var name := st.current.value;
        st.(sections := st.sections[name := Set(st.sections[name], key, value)])
  }

  function FeedAll(st: Loading, ls: seq<Line>): (r: Loading)
    requires WellSited(st)
    ensures WellSited(r)
    decreases |ls|
  {
    if ls == [] then st else FeedAll(Feed(st, ls[0]), ls[1..])
  }

  function ParseAll(lines: seq<string>): (ls: seq<Line>)
    ensures |ls| == |lines|
  {
    if lines == [] then [] else [ParseLine(lines[0])] + ParseAll(lines[1..])
  }

  /** The lines std::getline reads. */
  function Lines(content: string): seq<string> {
    if content == "" then []
    else
      var p := Find(content, '\n', 0);
      if p == |content| then [content] else [content[..p]] + Lines(content[p + 1..])
  }

  function LoadText(content: string): map<string, Section> {
    FeedAll(EMPTY, ParseAll(Lines(content))).sections
  }

  // ----- small facts -----

  lemma FindIs(s: string, c: char, i: nat, p: nat)
    requires i <= p < |s| && s[p] == c && forall q :: i <= q < p ==> s[q] != c
    ensures Find(s, c, i) == p
  {
  }

  lemma FindNone(s: string, c: char, i: nat)
    requires i <= |s| && forall q :: i <= q < |s| ==> s[q] != c
    ensures Find(s, c, i) == |s|
  {
  }

  lemma CommentAtIs(v: string, k: nat, p: nat)
    requires 1 <= k && k <= p && p <= |v|
    requires forall q :: k <= q < p ==> !(CommentMark(v[q]) && Blank(v[q - 1]))
    requires p < |v| ==> CommentMark(v[p]) && Blank(v[p - 1])
    ensures CommentAt(v, k) == p
  {
  }

  lemma CStrClean(s: string)
    requires Lacks(s, NUL)
    ensures CStr(s) == s
  {
    FindNone(s, NUL, 0);
  }

  lemma {:induction false} TrimLIs(s: string, k: nat)
    requires k <= |s| && (forall j :: 0 <= j < k ==> Blank(s[j])) && (k < |s| ==> !Blank(s[k]))
    ensures TrimL(s) == s[k..]
    decreases k
  {
    if k > 0 {
      TrimLIs(s[1..], k - 1);
    }
  }

  lemma {:induction false} TrimRIs(s: string, k: nat)
    requires k <= |s| && (forall j :: k <= j < |s| ==> Blank(s[j])) && (k > 0 ==> !Blank(s[k - 1]))
    ensures TrimR(s) == s[..k]
    decreases |s|
  {
    if k < |s| {
      TrimRIs(s[..|s| - 1], k);
      assert s[..|s| - 1][..k] == s[..k];
    }
  }

  lemma TrimLKeeps(s: string)
    requires s == "" || !Blank(s[0])
    ensures TrimL(s) == s
  {
  }

  lemma TrimRKeeps(s: string)
    requires s == "" || !Blank(s[|s| - 1])
    ensures TrimR(s) == s
  {
  }

  // ----- line ends -----

  lemma CrTrimmed(l: string)
    ensures StripCR(CStr(l + "\r")) == StripCR(CStr(l))
  {
    var z := Find(l, NUL, 0);
    if z < |l| {
      FindIs(l + "\r", NUL, 0, z);
      assert CStr(l + "\r") == CStr(l);
    } else {
      FindNone(l + "\r", NUL, 0);
      assert CStr(l) == l && CStr(l + "\r") == l + "\r";
      assert (l + "\r")[..|l + "\r"| - 1] == l;
    }
  }

  /** A carriage return at the end of a line changes nothing. */
  lemma CrIgnored(l: string)
    ensures ParseLine(l + "\r") == ParseLine(l)
  {
    CrTrimmed(l);
  }

  function Crlf(s: string): string {
    if s == "" then ""
    else if s[0] == '\n' then "\r\n" + Crlf(s[1..])
    else [s[0]] + Crlf(s[1..])
  }

  lemma {:induction false} CrlfFirstLine(s: string, p: nat)
    requires p <= |s| && forall q :: 0 <= q < p ==> s[q] != '\n'
    ensures Crlf(s) == s[..p] + Crlf(s[p..])
    decreases p
  {
    if p > 0 {
      CrlfFirstLine(s[1..], p - 1);
      assert s[1..][p - 1..] == s[p..];
      assert s[..p] == [s[0]] + s[1..][..p - 1];
    }
  }

  lemma CrlfLines(s: string, p: nat)
    requires p < |s| && p == Find(s, '\n', 0)
    ensures Lines(s) == [s[..p]] + Lines(s[p + 1..])
    ensures Lines(Crlf(s)) == [s[..p] + "\r"] + Lines(Crlf(s[p + 1..]))
  {
    var t, line := Crlf(s[p + 1..]), s[..p] + "\r";
    CrlfFirstLine(s, p);
    assert s[p..][1..] == s[p + 1..];
    assert Crlf(s) == line + ("\n" + t);
    FindIs(Crlf(s), '\n', 0, p + 1);
    assert Crlf(s)[..p + 1] == line && Crlf(s)[p + 2..] == t;
  }

  lemma ParseCons(l: string, ls: seq<string>)
    ensures ParseAll([l] + ls) == [ParseLine(l)] + ParseAll(ls)
  {
    assert ([l] + ls)[1..] == ls;
  }

  lemma {:induction false} CrlfParses(s: string)
    ensures ParseAll(Lines(Crlf(s))) == ParseAll(Lines(s))
    decreases |s|
  {
    var p := Find(s, '\n', 0);
    if p == |s| {
      CrlfFirstLine(s, p);
      assert s[p..] == "";
      assert Crlf(s) == s;
    } else {
      var line, rest := s[..p], s[p + 1..];
      CrlfLines(s, p);
      CrIgnored(line);
      CrlfParses(rest);
      ParseCons(line + "\r", Lines(Crlf(rest)));
      ParseCons(line, Lines(rest));
    }
  }

  /** Turning every LF into CRLF never changes what is loaded. */
  lemma LoadIgnoresCrlf(s: string)
    ensures LoadText(Crlf(s)) == LoadText(s)
  {
    CrlfParses(s);
  }
}
