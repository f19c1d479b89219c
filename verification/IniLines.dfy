/** What single lines of a configuration file mean, by the characters they are made of. */
module IniLines {
  import opened IniSyntax
  import opened IniRoundTrip

  predicate Blanks(s: string) {
    forall k :: 0 <= k < |s| ==> s[k] == ' ' || s[k] == '\t'
  }

  // ----- how the parser cuts a line -----

  lemma CStrFront(f: string, x: string)
    requires Lacks(f, NUL)
    ensures CStr(f + x) == f + CStr(x)
  {
    var p := Find(x, NUL, 0);
    var s := f + x;
    if p < |x| {
      assert s[|f| + p] == x[p];
      FindIs(s, NUL, 0, |f| + p);
    } else {
      FindNone(s, NUL, 0);
    }
  }

  lemma {:induction false} StripCRFront(f: string, x: string)
    requires f != "" && f[|f| - 1] != '\r'
    ensures StripCR(f + x) == f + StripCR(x)
    decreases |x|
  {
    var s := f + x;
    if x == "" {
      assert s == f;
    } else if x[|x| - 1] == '\r' {
      assert s[..|s| - 1] == f + x[..|x| - 1];
      StripCRFront(f, x[..|x| - 1]);
    }
  }

  lemma {:induction false} TrimLSkips(a: string, s: string)
    requires Blanks(a)
    ensures TrimL(a + s) == TrimL(s)
    decreases |a|
  {
    if a == "" {
      assert a + s == s;
    } else {
      assert (a + s)[1..] == a[1..] + s;
      TrimLSkips(a[1..], s);
    }
  }

  lemma {:induction false} TrimRSkips(s: string, d: string)
    requires Blanks(d)
    ensures TrimR(s + d) == TrimR(s)
    decreases |d|
  {
    if d == "" {
      assert s + d == s;
    } else {
      assert (s + d)[..|s + d| - 1] == s + d[..|d| - 1];
      TrimRSkips(s, d[..|d| - 1]);
    }
  }

  /** Text that a line's ends cannot touch. */
  predicate Firm(f: string) {
    f != "" && Lacks(f, NUL) && Inked(f[0]) && f[|f| - 1] != '\r'
  }

  lemma TrimmedFront(a: string, f: string, x: string)
    requires Blanks(a) && Firm(f)
    ensures Trimmed(a + (f + x)) == f + StripCR(CStr(x))
  {
    CStrFront(f, x);
    CStrFront(a, f + x);
    StripCRFront(f, CStr(x));
    assert a + (f + CStr(x)) == (a + f) + CStr(x);
    StripCRFront(a + f, CStr(x));
    assert (a + f) + StripCR(CStr(x)) == a + (f + StripCR(CStr(x)));
    TrimLSkips(a, f + StripCR(CStr(x)));
    TrimLKeeps(f + StripCR(CStr(x)));
  }

  lemma TrimmedWhole(a: string, f: string)
    requires Blanks(a) && Firm(f)
    ensures Trimmed(a + f) == f
  {
    TrimmedFront(a, f, "");
    assert f + "" == f;
    assert CStr("") == "";
  }

  // ----- comments, blank lines, sections -----

  /** A mark makes the line a comment, and a line of blanks means nothing. */
  lemma CommentLine(a: string, m: char, x: string)
    requires Blanks(a) && (m == ';' || m == '#')
    ensures ParseLine(a + ([m] + x)) == Comment && ParseLine(a) == BlankLine
  {
    TrimmedFront(a, [m], x);
    TrimmedBlanks(a);
  }

  lemma TrimmedBlanks(a: string)
    requires Blanks(a)
    ensures Trimmed(a) == ""
  {
    CStrClean(a);
    assert StripCR(a) == a;
    TrimLIs(a, |a|);
  }

  lemma SectionFind(name: string, c: string, y: string)
    requires name != "" && Lacks(name[1..], ']') && Blanks(c) && (y == "" || y[0] == ']')
    ensures var n := name + (c + y);
            Find(n, ']', 1) == |name| + |c| && n[..|name| + |c|] == name + c
  {
    var n, p := name + (c + y), |name| + |c|;
    forall q | 1 <= q < p
      ensures n[q] != ']'
    {
      assert n[q] == if q < |name| then name[1..][q - 1] else c[q - |name|];
    }
    if y == "" {
      FindNone(n, ']', 1);
    } else {
      assert n[p] == y[0];
      FindIs(n, ']', 1, p);
    }
  }

  lemma NameOf(name: string, c: string, n: string)
    requires GoodName(name) && Blanks(c) && n != "" && n[..Find(n, ']', 1)] == name + c
    ensures HeaderName(n) == name
  {
    TrimRSkips(name, c);
    TrimRKeeps(name);
  }

  lemma InkedText(b: string, n: string)
    requires Blanks(b) && n != "" && Inked(n[0])
    ensures TrimL(b + n) == n
  {
    TrimLSkips(b, n);
    TrimLKeeps(n);
  }

  lemma SectionName(name: string, c: string, y: string)
    requires Blanks(c) && GoodName(name) && (y == "" || y[0] == ']')
    ensures var n := name + (c + y);
            n != "" && n[0] == name[0] && HeaderName(n) == name
  {
    SectionFind(name, c, y);
    NameOf(name, c, name + (c + y));
  }

  lemma BracketHolds(b: string, n: string)
    requires Blanks(b) && n != "" && Inked(n[0])
    ensures ParseTrimmed("[" + (b + n)) == Header(HeaderName(n))
  {
    assert ("[" + (b + n))[1..] == b + n;
    InkedText(b, n);
  }

  lemma BracketText(b: string, name: string, c: string, y: string)
    requires Blanks(b) && Blanks(c) && GoodName(name) && (y == "" || y[0] == ']')
    ensures ParseTrimmed("[" + (b + (name + (c + y)))) == Header(name)
  {
    SectionName(name, c, y);
    BracketHolds(b, name + (c + y));
  }

  lemma BracketIsFirm(n: string)
    requires Lacks(n, NUL) && (n == "" || n[|n| - 1] != '\r')
    ensures Firm("[" + n)
  {
  }

  lemma Regroup(b: string, name: string, c: string, y: string)
    ensures ("[" + (b + (name + (c + "]")))) + y == "[" + (b + (name + (c + ("]" + y))))
  {
  }

  /** What follows the bracket is ignored, and so are blanks around the name. */
  lemma SectionLine(a: string, b: string, name: string, c: string, x: string)
    requires Blanks(a) && Blanks(b) && Blanks(c) && GoodName(name)
    ensures ParseLine(a + (("[" + (b + (name + (c + "]")))) + x)) == Header(name)
  {
    var y := StripCR(CStr(x));
    BracketIsFirm(b + (name + (c + "]")));
    TrimmedFront(a, "[" + (b + (name + (c + "]"))), x);
    Regroup(b, name, c, y);
    BracketText(b, name, c, "]" + y);
  }

  /** Without a bracket the name is the rest of the line. */
  lemma OpenSectionLine(a: string, b: string, name: string, c: string)
    requires Blanks(a) && Blanks(b) && Blanks(c) && GoodName(name) && (c == "" ==> name[|name| - 1] != '\r')
    ensures ParseLine(a + ("[" + (b + (name + c)))) == Header(name)
  {
    LastOf(name, c);
    BracketIsFirm(b + (name + c));
    TrimmedWhole(a, "[" + (b + (name + c)));
    assert c + "" == c;
    BracketText(b, name, c, "");
  }

  lemma LastOf(s: string, c: string)
    requires s != "" && Blanks(c) && (c == "" ==> s[|s| - 1] != '\r')
    ensures (s + c)[|s + c| - 1] != '\r'
  {
    assert (s + c)[|s + c| - 1] == if c == "" then s[|s| - 1] else c[|c| - 1];
  }

  lemma EmptyBracket(b: string)
    requires Blanks(b)
    ensures ParseTrimmed("[" + b) == BadHeader
  {
    assert ("[" + b)[1..] == b;
    TrimLIs(b, |b|);
  }

  /** A bracket with nothing but blanks behind it names no section. */
  lemma EmptySectionLine(a: string, b: string)
    requires Blanks(a) && Blanks(b)
    ensures ParseLine(a + ("[" + b)) == BadHeader
  {
    BracketIsFirm(b);
    TrimmedWhole(a, "[" + b);
    EmptyBracket(b);
  }

  // ----- keys -----

  lemma TrimmedKey(key: string, b: string)
    requires GoodKey(key) && Blanks(b) && (key == "" ==> b == "")
    ensures TrimR(key + b) == key && Lacks(key + b, '=') && Lacks(key + b, NUL)
  {
    TrimRSkips(key, b);
    TrimRKeeps(key);
  }

  /** A trimmed line is split at its first '='. */
  lemma PairOf(s: string, k: string, w: string)
    requires s == k + ("=" + w) && Lacks(k, '=')
    requires s[0] != ';' && s[0] != '#' && s[0] != '['
    ensures ParseTrimmed(s) == Pair(TrimR(k), Value(TrimL(w)))
  {
    SplitAtEquals(k, w);
  }

  lemma BlanksThenText(c: string, r: string)
    requires Blanks(c)
    ensures StripCR(CStr(c + r)) == c + StripCR(CStr(r))
  {
    CStrFront(c, r);
    if c == "" {
      assert "" + CStr(r) == CStr(r) && "" + StripCR(CStr(r)) == StripCR(CStr(r));
    } else {
      StripCRFront(c, CStr(r));
    }
  }

  lemma Assoc(a: string, b: string, c: string)
    ensures (a + b) + c == a + (b + c)
  {
  }

  lemma KeyIsFirm(k: string)
    requires Lacks(k, NUL) && (k != "" ==> Inked(k[0]))
    ensures Firm(k + "=")
  {
    assert (k + "=")[0] == if k == "" then '=' else k[0];
  }

  lemma PairTrimmed(a: string, k: string, c: string, r: string)
    requires Blanks(a) && Blanks(c) && Lacks(k, NUL) && (k != "" ==> Inked(k[0]))
    ensures Trimmed(a + (k + ("=" + (c + r)))) == k + ("=" + (c + StripCR(CStr(r))))
  {
    KeyIsFirm(k);
    TrimmedFront(a, k + "=", c + r);
    BlanksThenText(c, r);
    Assoc(k, "=", c + r);
    Assoc(k, "=", c + StripCR(CStr(r)));
  }

  /** The value of the text behind '='. */
  function TextValue(r: string): string {
    Value(TrimL(StripCR(CStr(r))))
  }

  /** Blanks in front of the line, around the key and in front of the value do not count. */
  lemma PairLine(a: string, key: string, b: string, c: string, r: string)
    requires Blanks(a) && Blanks(b) && Blanks(c) && GoodKey(key) && (key == "" ==> b == "")
    ensures ParseLine(a + ((key + b) + ("=" + (c + r)))) == Pair(key, TextValue(r))
  {
    var y, k := StripCR(CStr(r)), key + b;
    TrimmedKey(key, b);
    assert k != "" ==> k[0] == key[0];
    PairTrimmed(a, k, c, r);
    assert (k + ("=" + (c + y)))[0] == if key == "" then '=' else key[0];
    PairOf(k + ("=" + (c + y)), k, c + y);
    TrimLSkips(c, y);
  }

  lemma NoEquals(f: string)
    requires Lacks(f, '=')
    ensures Key(f) == TrimR(f) && Value(ValueText(f)) == ""
  {
    FindNone(f, '=', 0);
    assert f[..|f|] == f;
  }

  lemma KeyOnly(f: string)
    requires Lacks(f, '=') && f != "" && f[0] != ';' && f[0] != '#' && f[0] != '['
    ensures ParseTrimmed(f) == Pair(TrimR(f), "")
  {
    NoEquals(f);
  }

  /** A line without '=' is a key with an empty value. */
  lemma KeyLine(a: string, key: string, d: string)
    requires Blanks(a) && Blanks(d) && GoodKey(key) && key != "" && (d == "" ==> key[|key| - 1] != '\r')
    ensures ParseLine(a + (key + d)) == Pair(key, "")
  {
    var f := key + d;
    LastOf(key, d);
    TrimmedKey(key, d);
    assert f[0] == key[0];
    TrimmedWhole(a, f);
    KeyOnly(f);
  }

  // ----- values -----

  lemma FrontText(u: string, x: string)
    requires u != "" && Lacks(u, NUL) && u[|u| - 1] != '\r' && Inked(u[0])
    ensures TrimL(StripCR(CStr(u + x))) == u + StripCR(CStr(x))
  {
    CStrFront(u, x);
    StripCRFront(u, CStr(x));
    TrimLKeeps(u + StripCR(CStr(x)));
  }

  lemma QuotedText(q: char, w: string, y: string)
    requires (q == '\"' || q == '\'') && Lacks(w, q)
    ensures Value(([q] + (w + [q])) + y) == w
  {
    var v := ([q] + (w + [q])) + y;
    assert v[|w| + 1] == q;
    assert forall k :: 0 <= k < |w| ==> v[k + 1] == w[k];
    FindIs(v, q, 1, |w| + 1);
    assert v[1..|w| + 1] == w;
  }

  /** A value between quotes of either kind; whatever follows the closing quote is ignored. */
  lemma QuotedValueReads(q: char, w: string, x: string)
    requires (q == '\"' || q == '\'') && Lacks(w, NUL) && Lacks(w, q)
    ensures TextValue(([q] + (w + [q])) + x) == w
  {
    FrontText([q] + (w + [q]), x);
    QuotedText(q, w, StripCR(CStr(x)));
  }

  /** No comment mark stands behind a blank. */
  predicate Unmarked(v: string) {
    forall k :: 1 <= k < |v| && (v[k] == ';' || v[k] == '#') ==> Inked(v[k - 1])
  }

  predicate QuoteFirst(v: string) {
    v != "" && (v[0] == '\"' || v[0] == '\'')
  }

  /** A value that needs no quotes; one that begins with a quote must not have it again. */
  predicate PlainValue(v: string) {
    && Lacks(v, NUL)
    && (v != "" ==> Inked(v[0]) && Inked(v[|v| - 1]) && v[|v| - 1] != '\r')
    && (if QuoteFirst(v) then Lacks(v[1..], v[0]) else Unmarked(v))
  }

  lemma PlainThenBlanks(v: string, d: string)
    requires PlainValue(v) && v != "" && Blanks(d)
    ensures Value(v + d) == v
  {
    TrimRSkips(v, d);
    TrimRKeeps(v);
    if QuoteFirst(v) {
      assert forall k :: 1 <= k < |v| ==> v[k] == v[1..][k - 1];
      FindNone(v + d, v[0], 1);
    } else {
      CommentAtIs(v + d, 1, |v + d|);
      assert (v + d)[..|v + d|] == v + d;
    }
  }

  lemma BlanksHoldNothing(d: string)
    requires Blanks(d)
    ensures TextValue(d) == ""
  {
    CStrClean(d);
    assert StripCR(d) == d;
    TrimLIs(d, |d|);
  }

  lemma UncutText(s: string)
    requires s != "" && Lacks(s, NUL) && Inked(s[0]) && s[|s| - 1] != '\r'
    ensures TrimL(StripCR(CStr(s))) == s
  {
    CStrClean(s);
    TrimLKeeps(s);
  }

  /** A plain value, with blanks behind it. */
  lemma PlainValueReads(v: string, d: string, r: string)
    requires PlainValue(v) && Blanks(d) && r == v + d
    ensures TextValue(r) == v
  {
    if v == "" {
      BlanksHoldNothing(r);
    } else {
      LastOf(v, d);
      UncutText(r);
      PlainThenBlanks(v, d);
    }
  }

  lemma PlainThenComment(v: string, d: string, y: string)
    requires PlainValue(v) && v != "" && !QuoteFirst(v) && Blanks(d) && d != ""
    requires y != "" && (y[0] == ';' || y[0] == '#')
    ensures Value((v + d) + y) == v
  {
    var s, p := (v + d) + y, |v + d|;
    CommentAtIs(s, 1, p);
    assert s[..p] == v + d;
    TrimRSkips(v, d);
    TrimRKeeps(v);
  }

  /** An inline comment behind a nonempty plain value changes nothing. */
  lemma CommentedValueReads(v: string, d: string, m: char, x: string)
    requires PlainValue(v) && v != "" && !QuoteFirst(v) && Blanks(d) && d != "" && (m == ';' || m == '#')
    ensures TextValue(((v + d) + [m]) + x) == v
  {
    var y := StripCR(CStr(x));
    FrontText((v + d) + [m], x);
    Assoc(v + d, [m], y);
    PlainThenComment(v, d, [m] + y);
  }

  // ----- exactly the plain values -----

  lemma ValueIsShort(v: string)
    ensures |Value(v)| <= |v|
  {
  }

  /** A value read as itself is plain. */
  lemma FixedIsPlain(v: string)
    requires Value(v) == v && Lacks(v, NUL) && (v != "" ==> Inked(v[0]) && v[|v| - 1] != '\r')
    ensures PlainValue(v)
  {
    if QuoteFirst(v) {
      assert Find(v, v[0], 1) == |v|;
      assert forall k :: 0 <= k < |v| - 1 ==> v[1..][k] == v[k + 1];
    } else if v != "" {
      assert CommentAt(v, 1) == |v|;
    }
  }

  lemma UncutIsClean(v: string)
    requires TrimL(StripCR(CStr(v))) == v
    ensures Lacks(v, NUL) && (v != "" ==> Inked(v[0]) && v[|v| - 1] != '\r')
  {
    assert |StripCR(CStr(v))| == |CStr(v)| == |v|;
    assert StripCR(CStr(v)) == CStr(v) == v;
  }

  lemma FixedTextIsPlain(v: string)
    requires TextValue(v) == v
    ensures PlainValue(v)
  {
    ValueIsShort(TrimL(StripCR(CStr(v))));
    assert TrimL(StripCR(CStr(v))) == v;
    UncutIsClean(v);
    FixedIsPlain(v);
  }

  lemma PlainExactly(v: string)
    ensures TextValue(v) == v <==> PlainValue(v)
  {
    if PlainValue(v) {
      PlainValueReads(v, "", v);
    } else if TextValue(v) == v {
      FixedTextIsPlain(v);
    }
  }

  lemma BarePairLine(key: string, v: string)
    requires GoodKey(key)
    ensures ParseLine(key + ("=" + v)) == Pair(key, TextValue(v))
  {
    PairLine("", key, "", "", v);
    assert key + "" == key && "" + v == v;
    assert "" + (key + ("=" + v)) == key + ("=" + v);
  }

  /** An unquoted pair is read back exactly if key and value are good. */
  lemma PlainRoundTrip(key: string, v: string)
    ensures ParseLine(key + ("=" + v)) == Pair(key, v) <==> GoodKey(key) && PlainValue(v)
  {
    if GoodKey(key) {
      BarePairLine(key, v);
      PlainExactly(v);
    } else {
      KeysReadAreGood(key + ("=" + v));
    }
  }

  lemma KeysReadAreGood(line: string)
    ensures ParseLine(line).Pair? ==> GoodKey(ParseLine(line).key)
  {
    var s := Trimmed(line);
    TrimmedIsReady(line);
    if s != "" && !CommentMark(s[0]) && s[0] != '[' {
      KeyIsGood(s);
    }
  }

  lemma QuoteInside(u: string, w: string, q: char)
    ensures ([q] + (u + [q])) + (w + [q]) == [q] + ((u + ([q] + w)) + [q])
  {
  }

  lemma QuoteBehind(w: string, q: char)
    ensures ([q] + (w + [q])) + "" == [q] + (w + [q])
  {
  }

  lemma SingleQuotedText(w: string)
    requires Lacks(w, NUL) && Lacks(w, '\'')
    ensures TextValue("\'" + (w + "\'")) == w
  {
    QuotedValueReads('\'', w, "");
    QuoteBehind(w, '\'');
  }

  /** Single quotes keep only the text up to the first single quote in it. */
  lemma SingleQuotedCut(u: string, w: string, r: string)
    requires Lacks(u, NUL) && Lacks(u, '\'') && w == u + ("\'" + r)
    ensures TextValue("\'" + (w + "\'")) == u
  {
    QuotedValueReads('\'', u, r + "\'");
    QuoteInside(u, r, '\'');
  }

  lemma FirstQuote(w: string) returns (u: string, r: string)
    requires !Lacks(w, '\'')
    ensures Lacks(u, '\'') && w == u + ("\'" + r)
  {
    var p := Find(w, '\'', 0);
    u, r := w[..p], w[p + 1..];
  }

  lemma SingleExactly(w: string)
    requires Lacks(w, NUL)
    ensures TextValue("\'" + (w + "\'")) == w <==> Lacks(w, '\'')
  {
    if Lacks(w, '\'') {
      SingleQuotedText(w);
    } else {
      var u, r := FirstQuote(w);
      assert forall k :: 0 <= k < |u| ==> u[k] == w[k];
      SingleQuotedCut(u, w, r);
    }
  }

  /** A single-quoted pair is read back exactly if its key is good and the quote is not in its value. */
  lemma SingleQuotedRoundTrip(key: string, w: string)
    ensures ParseLine(key + ("=" + ("\'" + (w + "\'")))) == Pair(key, w) <==>
              GoodKey(key) && Lacks(w, NUL) && Lacks(w, '\'')
  {
    var v := "\'" + (w + "\'");
    if !GoodKey(key) {
      KeysReadAreGood(key + ("=" + v));
    } else if !Lacks(w, NUL) {
      ValuesReadAreClean(key + ("=" + v));
    } else {
      BarePairLine(key, v);
      SingleExactly(w);
    }
  }

  lemma ValuesReadAreClean(line: string)
    ensures ParseLine(line).Pair? ==> Lacks(ParseLine(line).value, NUL)
  {
    var s := Trimmed(line);
    TrimmedIsReady(line);
    if s != "" && !CommentMark(s[0]) && s[0] != '[' {
      ValueOfReady(s);
    }
  }

  /** An inline comment behind blanks, whatever its text, changes nothing. */
  lemma CommentIgnored(key: string, v: string, d: string, m: char, x: string)
    requires GoodKey(key) && PlainValue(v) && v != "" && !QuoteFirst(v)
    requires Blanks(d) && d != "" && (m == ';' || m == '#')
    ensures ParseLine(key + ("=" + (((v + d) + [m]) + x))) == ParseLine(key + ("=" + v)) == Pair(key, v)
  {
    BarePairLine(key, ((v + d) + [m]) + x);
    CommentedValueReads(v, d, m, x);
    PlainRoundTrip(key, v);
  }

  /** Text behind the closing quote, of either kind, changes nothing. */
  lemma TextBehindQuoteIgnored(key: string, q: char, w: string, x: string)
    requires GoodKey(key) && (q == '\"' || q == '\'') && Lacks(w, NUL) && Lacks(w, q)
    ensures ParseLine(key + ("=" + (([q] + (w + [q])) + x))) == Pair(key, w)
  {
    BarePairLine(key, ([q] + (w + [q])) + x);
    QuotedValueReads(q, w, x);
  }

  /** Behind '=' and blanks a comment mark is no comment: it begins the value. */
  lemma MarkIsValue(key: string, c: string, m: char, x: string)
    requires GoodKey(key) && Blanks(c) && (m == ';' || m == '#') && PlainValue([m] + x)
    ensures ParseLine(key + ("=" + (c + ([m] + x)))) == Pair(key, [m] + x)
  {
    PairLine("", key, "", c, [m] + x);
    PlainExactly([m] + x);
    assert key + "" == key;
    assert "" + (key + ("=" + (c + ([m] + x)))) == key + ("=" + (c + ([m] + x)));
  }
}
