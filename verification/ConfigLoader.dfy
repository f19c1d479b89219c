/** Config::Load on its line buffer: pointers, lengths and terminators written in place. */
module ConfigLoader {
  import opened Options
  import opened IniSyntax

  /** The C string at p is s. */
  ghost predicate StrAt(buf: array<char>, p: nat, s: string)
    reads buf
  {
    && p + |s| < buf.Length && buf[p + |s|] == NUL && Lacks(s, NUL)
    && (forall k {:trigger s[k]} :: 0 <= k < |s| ==> buf[p + k] == s[k])
  }

  /** strlen, in a buffer that ends with a terminator. */
  method StrLen(buf: array<char>, p: nat) returns (n: nat)
    requires p < buf.Length && buf[buf.Length - 1] == NUL
    ensures p + n < buf.Length && StrAt(buf, p, buf[p..p + n])
    ensures buf[p..p + n] == CStr(buf[p..])
  {
    n := 0;
    while buf[p + n] != NUL
      invariant p + n < buf.Length && Lacks(buf[p..p + n], NUL)
      decreases buf.Length - n
    {
      n := n + 1;
    }
    FindIs(buf[p..], NUL, 0, n);
    assert buf[p..][..n] == buf[p..p + n];
  }

  /** strchr for a character other than the terminator, in the C string s at p. */
  method StrChr(buf: array<char>, p: nat, c: char, ghost s: string) returns (found: bool, at: nat)
    requires c != NUL && StrAt(buf, p, s)
    ensures found == (Find(s, c, 0) < |s|) && at == p + Find(s, c, 0)
  {
    at := p;
    while buf[at] != NUL && buf[at] != c
      invariant p <= at <= p + |s| && forall k :: 0 <= k < at - p ==> s[k] != c
      decreases buf.Length - at
    {
      assert buf[p + (at - p)] == s[at - p];
      at := at + 1;
    }
    found := buf[at] == c;
    assert at < p + |s| ==> buf[p + (at - p)] == s[at - p];
    if found {
      FindIs(s, c, 0, at - p);
    } else {
      FindNone(s, c, 0);
    }
  }

  lemma StrTail(buf: array<char>, p: nat, s: string, d: nat)
    requires StrAt(buf, p, s) && d <= |s|
    ensures StrAt(buf, p + d, s[d..])
  {
    forall k | 0 <= k < |s| - d
      ensures buf[p + d + k] == s[d..][k]
    {
      assert buf[p + (d + k)] == s[d + k];
    }
  }

  lemma StrSlice(buf: array<char>, p: nat, s: string)
    requires StrAt(buf, p, s)
    ensures buf[p..p + |s|] == s
  {
  }

  /** util::Trim: moves the start of the text s past its leading blanks. */
  method Trim(buf: array<char>, str: nat, len: nat, ghost s: string) returns (p: nat, n: nat)
    requires StrAt(buf, str, s) && len == |s|
    ensures n == |TrimL(s)| && p + n == str + len && StrAt(buf, p, TrimL(s))
  {
    p, n := SkipBlanks(buf, str, len, s);
    TrimmedStr(buf, str, s, len - n);
  }

  /** The loop of util::Trim. */
  method SkipBlanks(buf: array<char>, str: nat, len: nat, ghost s: string) returns (p: nat, n: nat)
    requires StrAt(buf, str, s) && len == |s|
    ensures n <= len && p == str + (len - n)
    ensures (forall j :: 0 <= j < len - n ==> Blank(s[j])) && (n > 0 ==> !Blank(s[len - n]))
  {
    p, n := str, len;
    while n > 0
      invariant n <= len && p == str + (len - n) && forall j :: 0 <= j < len - n ==> Blank(s[j])
      decreases n
    {
      assert buf[str + (len - n)] == s[len - n];
      if buf[p] != ' ' && buf[p] != '\t' {
        break;
      }
      p, n := p + 1, n - 1;
    }
  }

  lemma TrimmedStr(buf: array<char>, str: nat, s: string, k: nat)
    requires StrAt(buf, str, s) && k <= |s|
    requires (forall j :: 0 <= j < k ==> Blank(s[j])) && (k < |s| ==> !Blank(s[k]))
    ensures |TrimL(s)| == |s| - k && StrAt(buf, str + k, TrimL(s))
  {
    TrimLIs(s, k);
    StrTail(buf, str, s, k);
  }

  /** util::RTrim: cuts trailing blanks off the text of length len that ends at str, and terminates it. */
  method RTrim(buf: array<char>, str: nat, len: nat) returns (p: nat, n: nat)
    requires len <= str < buf.Length
    modifies buf
    ensures n == |TrimR(old(buf[str - len..str]))| <= len && p == str - len + n
    ensures buf[..] == if n > 0 then old(buf[..])[p := NUL] else old(buf[..])
  {
    ghost var s := buf[str - len..str];
    p, n := str, len;
    while n > 0
      invariant n <= len && p == str - len + n && buf[..] == old(buf[..])
      invariant forall j :: n <= j < len ==> Blank(s[j])
      decreases n
    {
      assert buf[p - 1] == s[n - 1];
      if buf[p - 1] != ' ' && buf[p - 1] != '\t' {
        buf[p] := NUL;
        break;
      }
      p, n := p - 1, n - 1;
    }
    TrimRIs(s, n);
  }

  /** RTrim on a terminated text leaves a terminated text and nothing else changed. */
  method TrimEnd(buf: array<char>, p: nat, n: nat, ghost s: string)
    requires StrAt(buf, p, s) && n == |s| && (s != "" ==> !Blank(s[0]))
    modifies buf
    ensures StrAt(buf, p, TrimR(s))
    ensures forall k :: 0 <= k < buf.Length && (k < p || k >= p + |s|) ==> buf[k] == old(buf[k])
  {
    StrSlice(buf, p, s);
    var term, len := RTrim(buf, p + n, n);
    forall k | 0 <= k < len
      ensures buf[p + k] == s[k]
    {
      assert buf[..][p + k] == old(buf[..])[p + k] == old(buf[p + k]);
    }
  }

  lemma StrIsCStr(buf: array<char>, p: nat, s: string)
    requires StrAt(buf, p, s)
    ensures CStr(buf[p..]) == s
  {
    assert forall k :: 0 <= k < |s| ==> buf[p..][k] == buf[p + k] == s[k];
    FindIs(buf[p..], NUL, 0, |s|);
  }

  lemma FindShift(n: string, c: char)
    requires n != ""
    ensures Find(n, c, 1) == 1 + Find(n[1..], c, 0)
  {
    var f := Find(n[1..], c, 0);
    assert forall q :: 1 <= q < 1 + f ==> n[q] == n[1..][q - 1];
    if f < |n| - 1 {
      FindIs(n, c, 1, 1 + f);
    } else {
      FindNone(n, c, 1);
    }
  }

  /**
   The section name branch of Load, for the text s at p. A name is never empty
   once its first character is not a blank, so the second test is dead.
   */
  method ReadHeader(buf: array<char>, p0: nat, len0: nat, ghost s: string) returns (l: Line)
    requires StrAt(buf, p0, s) && len0 == |s| > 0 && s[0] == '[' && buf[buf.Length - 1] == NUL
    modifies buf
    ensures l == ParseTrimmed(s)
  {
    StrTail(buf, p0, s, 1);
    var p, len := Trim(buf, p0 + 1, len0 - 1, s[1..]);
    if len == 0 {
      return BadHeader;
    }
    var term := FindBracket(buf, p, len, TrimL(s[1..]));
    var name := CutName(buf, p, term, TrimL(s[1..]));
    l := Header(name);
  }

  method FindBracket(buf: array<char>, p: nat, len: nat, ghost n: string) returns (term: nat)
    requires StrAt(buf, p, n) && len == |n| > 0
    ensures term == p + Find(n, ']', 1)
  {
    StrTail(buf, p, n, 1);
    FindShift(n, ']');
    var found, at := StrChr(buf, p + 1, ']', n[1..]);
    term := if found then at else p + len;
  }

  /** RTrim on the name between p and term, and the C string it leaves at p. */
  method CutName(buf: array<char>, p: nat, term: nat, ghost n: string) returns (name: string)
    requires StrAt(buf, p, n) && n != "" && !Blank(n[0]) && term == p + Find(n, ']', 1)
    requires buf[buf.Length - 1] == NUL
    modifies buf
    ensures name == HeaderName(n)
  {
    ghost var f := Find(n, ']', 1);
    assert buf[p..term] == n[..f];
    var end, segLen := RTrim(buf, term, term - p);
    assert n[..f][0] == n[0];
    if segLen == 0 {
      assert false;
    }
    assert StrAt(buf, p, HeaderName(n));
    StrIsCStr(buf, p, HeaderName(n));
    var m := StrLen(buf, p);
    name := buf[p..p + m];
  }

  // ----- key and value -----

  ghost function AfterEquals(s: string): string {
    var e := Find(s, '=', 0);
    if e < |s| then s[e + 1..] else ""
  }

  /** Writes a terminator into the text s at offset n, in front of the text t at q. */
  method CutAt(buf: array<char>, p: nat, n: nat, ghost s: string, ghost q: nat, ghost t: string)
    requires StrAt(buf, p, s) && n < |s| && p + n < q && StrAt(buf, q, t) && buf[buf.Length - 1] == NUL
    modifies buf
    ensures StrAt(buf, p, s[..n]) && StrAt(buf, q, t) && buf[buf.Length - 1] == NUL
  {
    buf[p + n] := NUL;
  }

  /** Splits the text at its first '=', or at its end; each half is then a C string of its own. */
  method SplitPair(buf: array<char>, p: nat, len: nat, ghost s: string) returns (keyTerm: nat, val: nat)
    requires StrAt(buf, p, s) && len == |s| && buf[buf.Length - 1] == NUL
    modifies buf
    ensures keyTerm == p + Find(s, '=', 0) && StrAt(buf, p, s[..Find(s, '=', 0)])
    ensures val >= keyTerm && StrAt(buf, val, AfterEquals(s)) && buf[buf.Length - 1] == NUL
  {
    ghost var e := Find(s, '=', 0);
    var found, at := StrChr(buf, p, '=', s);
    if found {
      StrTail(buf, p, s, e + 1);
      CutAt(buf, p, at - p, s, at + 1, s[e + 1..]);
      keyTerm, val := at, at + 1;
    } else {
      keyTerm, val := p + len, p + len;
    }
  }

  /** The key: RTrim before the value is looked at. */
  method CutKey(buf: array<char>, p: nat, keyTerm: nat, val: nat, ghost k: string, ghost v: string) returns (key: string)
    requires StrAt(buf, p, k) && keyTerm == p + |k| <= val && StrAt(buf, val, v) && (k != "" ==> !Blank(k[0]))
    requires buf[buf.Length - 1] == NUL
    modifies buf
    ensures key == TrimR(k) && StrAt(buf, val, v) && buf[buf.Length - 1] == NUL
  {
    var keyLen := StrLen(buf, p);
    StrIsCStr(buf, p, k);
    var at, n := Trim(buf, p, keyLen, k);
    TrimLKeeps(k);
    TrimEnd(buf, at, n, k);
    StrIsCStr(buf, p, TrimR(k));
    var m := StrLen(buf, p);
    key := buf[p..p + m];
  }

  /** The C string at p, as std::string copies it. */
  method Copy(buf: array<char>, p: nat, ghost s: string) returns (r: string)
    requires StrAt(buf, p, s) && buf[buf.Length - 1] == NUL
    ensures r == s
  {
    StrIsCStr(buf, p, s);
    var m := StrLen(buf, p);
    r := buf[p..p + m];
  }

  /** A value that begins with a quote: up to the closing one, or else to the end. */
  method ReadQuoted(buf: array<char>, val: nat, valLen: nat, ghost t: string) returns (value: string)
    requires StrAt(buf, val, t) && valLen == |t| > 0 && Quote(t[0]) && buf[buf.Length - 1] == NUL
    modifies buf
    ensures value == Value(t)
  {
    assert buf[val + 0] == t[0];
    StrTail(buf, val, t, 1);
    FindShift(t, t[0]);
    var found, close := StrChr(buf, val + 1, buf[val], t[1..]);
    ghost var c := Find(t, t[0], 1);
    if found {
      buf[close] := NUL;
      assert StrAt(buf, val + 1, t[1..c]) by {
        assert forall k :: 0 <= k < c - 1 ==> t[1..c][k] == t[1..][k];
      }
      value := Copy(buf, val + 1, t[1..c]);
    } else {
      TrimEnd(buf, val, valLen, t);
      value := Copy(buf, val, TrimR(t));
    }
  }

  /** Finds and cuts off an inline comment. */
  method CutComment(buf: array<char>, val: nat, valLen: nat, ghost t: string) returns (n: nat)
    requires StrAt(buf, val, t) && valLen == |t| && buf[buf.Length - 1] == NUL
    modifies buf
    ensures n == CommentAt(t, 1) && StrAt(buf, val, t[..n]) && buf[buf.Length - 1] == NUL
  {
    var k := 1;
    while k < valLen
      invariant 1 <= k && (k <= |t| || k == 1)
      invariant forall q :: 1 <= q < k && q < |t| ==> !(CommentMark(t[q]) && Blank(t[q - 1]))
      invariant StrAt(buf, val, t) && buf[buf.Length - 1] == NUL
      decreases valLen - k
    {
      assert buf[val + k] == t[k] && buf[val + (k - 1)] == t[k - 1];
      if CommentMark(buf[val + k]) && Blank(buf[val + k - 1]) {
        CommentAtIs(t, 1, k);
        buf[val + k] := NUL;
        return k;
      }
      k := k + 1;
    }
    if t != "" {
      CommentAtIs(t, 1, |t|);
    }
    assert t[..|t|] == t;
    n := valLen;
  }

  method ReadPlain(buf: array<char>, val: nat, valLen: nat, ghost t: string) returns (value: string)
    requires StrAt(buf, val, t) && valLen == |t| && buf[buf.Length - 1] == NUL
    requires t != "" ==> !Blank(t[0]) && !Quote(t[0])
    modifies buf
    ensures value == Value(t)
  {
    var n := CutComment(buf, val, valLen, t);
    TrimEnd(buf, val, n, t[..n]);
    value := Copy(buf, val, TrimR(t[..n]));
  }

  method ReadValue(buf: array<char>, p: nat, ghost v: string) returns (value: string)
    requires StrAt(buf, p, v) && buf[buf.Length - 1] == NUL
    modifies buf
    ensures value == Value(TrimL(v))
  {
    StrIsCStr(buf, p, v);
    var len := StrLen(buf, p);
    var val, valLen := Trim(buf, p, len, v);
    assert valLen > 0 ==> buf[val + 0] == TrimL(v)[0];
    if valLen > 0 && Quote(buf[val]) {
      value := ReadQuoted(buf, val, valLen, TrimL(v));
    } else {
      value := ReadPlain(buf, val, valLen, TrimL(v));
    }
  }

  /** The key-value branch of Load, for the text s at p. */
  method ReadPair(buf: array<char>, p: nat, len: nat, ghost s: string) returns (l: Line)
    requires StrAt(buf, p, s) && len == |s| > 0 && buf[buf.Length - 1] == NUL && !Blank(s[0])
    modifies buf
    ensures l == Pair(Key(s), Value(ValueText(s)))
  {
    ghost var e := Find(s, '=', 0);
    var keyTerm, val := SplitPair(buf, p, len, s);
    var key := CutKey(buf, p, keyTerm, val, s[..e], AfterEquals(s));
    var value := ReadValue(buf, val, AfterEquals(s));
    l := Pair(key, value);
  }

  /** Removes the carriage returns in front of the terminator. */
  method StripLineEnd(buf: array<char>, len0: nat, ghost s: string) returns (len: nat)
    requires StrAt(buf, 0, s) && len0 == |s| && buf[buf.Length - 1] == NUL
    modifies buf
    ensures len == |StripCR(s)| && StrAt(buf, 0, StripCR(s)) && buf[buf.Length - 1] == NUL
  {
    len := len0;
    assert s[..len] == s;
    while len > 0 && buf[len - 1] == '\r'
      invariant len <= |s| && StrAt(buf, 0, s[..len]) && StripCR(s[..len]) == StripCR(s)
      invariant buf[buf.Length - 1] == NUL
      decreases len
    {
      assert buf[0 + (len - 1)] == s[..len][len - 1];
      assert s[..len][..len - 1] == s[..len - 1];
      len := len - 1;
      buf[len] := NUL;
    }
    assert len > 0 ==> buf[0 + (len - 1)] == s[..len][len - 1];
  }

  /** What Load makes of one line, in a fresh line buffer. */
  method ReadLine(line: string) returns (l: Line)
    ensures l == ParseLine(line)
  {
    var buf := new char[|line| + 1](i => if 0 <= i < |line| then line[i] else NUL);
    assert buf[..][..|line|] == line;
    ghost var c := CStr(line);
    assert StrAt(buf, 0, c);
    StrIsCStr(buf, 0, c);
    var n := StrLen(buf, 0);
    n := StripLineEnd(buf, n, c);
    var p, len := Trim(buf, 0, n, StripCR(c));
    l := ReadTrimmed(buf, p, len, Trimmed(line));
  }

  method ReadTrimmed(buf: array<char>, p: nat, len: nat, ghost s: string) returns (l: Line)
    requires StrAt(buf, p, s) && len == |s| && buf[buf.Length - 1] == NUL && (s != "" ==> !Blank(s[0]))
    modifies buf
    ensures l == ParseTrimmed(s)
  {
    if len == 0 {
      return BlankLine;
    }
    assert buf[p + 0] == s[0];
    match buf[p] {
      case ';' => l := Comment;
      case '#' => l := Comment;
      case '[' => l := ReadHeader(buf, p, len, s);
      case _ => l := ReadPair(buf, p, len, s);
    }
  }

  class Config {
    var sections_: map<string, Section>

    constructor ()
      ensures sections_ == map[]
    {
      sections_ := map[];
    }

    /**
     Load adds what the file means to the sections already there; on a new object
     that is LoadText of the content. A file that cannot be opened changes nothing.
     */
    method Load(file: Option<string>) returns (ok: bool)
      modifies this
      ensures ok == file.Some?
      ensures !ok ==> sections_ == old(sections_)
      ensures ok ==> sections_ == FeedAll(Loading(old(sections_), None), ParseAll(Lines(file.value))).sections
      ensures ok && old(sections_) == map[] ==> sections_ == LoadText(file.value)
    {
      if file.None? {
        return false;
      }
      var sct: Option<string> := None;
      var lines := Lines(file.value);
      ghost var st := Loading(sections_, None);
      while lines != []
        invariant sct.Some? ==> sct.value in sections_
        invariant FeedAll(Loading(sections_, sct), ParseAll(lines)) == FeedAll(st, ParseAll(Lines(file.value)))
        decreases |lines|
      {
        var l := ReadLine(lines[0]);
        FeedFirst(Loading(sections_, sct), lines);
        lines := lines[1..];
        sct := Enter(l, sct);
      }
      ok := true;
    }

    /** The effect of one line on the sections and on the section pointer. */
    method Enter(l: Line, sct0: Option<string>) returns (sct: Option<string>)
      requires sct0.Some? ==> sct0.value in sections_
      modifies this
      ensures sct.Some? ==> sct.value in sections_
      ensures Loading(sections_, sct) == Feed(Loading(old(sections_), sct0), l)
    {
      sct := sct0;
      match l {
        case BlankLine =>
        case Comment =>
        case BadHeader =>
          sct := None;
        case Header(name) =>
          if name in sections_ {
            sct := None;
          } else {
            sections_ := sections_[name := map[]];
            sct := Some(name);
          }
        case Pair(key, value) =>
          if sct.Some? {
            var data := sections_[sct.value];
            if key !in data {
              data := data[key := value];
            }
            sections_ := sections_[sct.value := data];
          }
      }
    }
  }

  lemma FeedFirst(st: Loading, lines: seq<string>)
    requires WellSited(st) && lines != []
    ensures FeedAll(st, ParseAll(lines)) == FeedAll(Feed(st, ParseLine(lines[0])), ParseAll(lines[1..]))
  {
  }
}
