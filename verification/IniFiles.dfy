/** What a whole configuration file means: its lines, its sections, and which pair counts. */
module IniFiles {
  import opened Options
  import opened IniSyntax
  import opened IniRoundTrip

  // ----- lines -----

  /** Terminated lines and a last one that may lack its line end are read as they are. */
  lemma {:induction false} LinesRead(lines: seq<string>, last: string)
    requires SingleLines(lines) && Lacks(last, '\n')
    ensures Lines(Text(lines) + last) == lines + if last == "" then [] else [last]
    decreases |lines|
  {
    if lines == [] {
      assert Text(lines) + last == last;
      FindNone(last, '\n', 0);
    } else {
      LinesRead(lines[1..], last);
      FirstLine(lines[0], Text(lines[1..]) + last);
      TextCons(lines, last);
      assert [lines[0]] + (lines[1..] + if last == "" then [] else [last]) == lines + if last == "" then [] else [last];
    }
  }

  lemma TextCons(lines: seq<string>, last: string)
    requires lines != []
    ensures Text(lines) + last == lines[0] + ("\n" + (Text(lines[1..]) + last))
  {
  }

  lemma FirstLine(l: string, rest: string)
    requires Lacks(l, '\n')
    ensures Lines(l + ("\n" + rest)) == [l] + Lines(rest)
  {
    var s := l + ("\n" + rest);
    FindIs(s, '\n', 0, |l|);
    assert s[..|l|] == l && s[|l| + 1..] == rest;
  }

  /** Every text is of that form. */
  lemma {:induction false} EveryTextSplits(s: string) returns (lines: seq<string>, last: string)
    ensures s == Text(lines) + last && SingleLines(lines) && Lacks(last, '\n')
    decreases |s|
  {
    var p := Find(s, '\n', 0);
    if p == |s| {
      lines, last := [], s;
    } else {
      var rest;
      rest, last := EveryTextSplits(s[p + 1..]);
      lines := [s[..p]] + rest;
      assert lines[1..] == rest;
      assert s == s[..p] + ("\n" + s[p + 1..]);
    }
  }

  lemma {:induction false} TextEnds(lines: seq<string>, last: string)
    ensures Text(lines + [last]) == Text(lines) + (last + "\n")
    decreases |lines|
  {
    if lines == [] {
      assert lines + [last] == [last] && [last][1..] == [];
      assert last + ("\n" + "") == "" + (last + "\n");
    } else {
      assert (lines + [last])[1..] == lines[1..] + [last];
      TextEnds(lines[1..], last);
    }
  }

  /** A line end at the end of the file, or its lack, changes nothing. */
  lemma FinalNewline(s: string)
    ensures LoadText(s + "\n") == LoadText(s)
  {
    var lines, last := EveryTextSplits(s);
    LinesRead(lines, last);
    TextEnds(lines, last);
    assert s + "\n" == Text(lines + [last]) + "";
    LinesRead(lines + [last], "");
    assert (lines + [last]) + [] == lines + [last] && lines + [] == lines;
    if last == "" {
      EmptyLine(lines);
    }
  }

  lemma EmptyLine(lines: seq<string>)
    ensures FeedAll(EMPTY, ParseAll(lines + [""])) == FeedAll(EMPTY, ParseAll(lines))
  {
    ParseAppend(lines, [""]);
    ParseOne("");
    FeedAppend(EMPTY, ParseAll(lines), [BlankLine]);
    FeedOne(FeedAll(EMPTY, ParseAll(lines)), BlankLine);
  }

  // ----- sections and pairs -----

  /** The section of the lines from i on: the last heading before i, if it is the first of its name. */
  function SectionAt(ls: seq<Line>, i: nat): Option<string>
    requires i <= |ls|
  {
    if i == 0 then None
    else
      match ls[i - 1]
      case Header(n) => if ls[i - 1] in ls[..i - 1] then None else Some(n)
      case BadHeader => None
      case _ => SectionAt(ls, i - 1)
  }

  predicate Assigns(ls: seq<Line>, n: string, k: string, i: nat) {
    i < |ls| && SectionAt(ls, i) == Some(n) && ls[i].Pair? && ls[i].key == k
  }

  /** Line i is the first pair for key k in section n. */
  predicate FirstPair(ls: seq<Line>, n: string, k: string, i: nat) {
    Assigns(ls, n, k, i) && forall j :: 0 <= j < i ==> !Assigns(ls, n, k, j)
  }

  lemma {:induction false} SectionOfPrefix(ls: seq<Line>, m: nat, i: nat)
    requires i <= m <= |ls|
    ensures SectionAt(ls[..m], i) == SectionAt(ls, i)
    decreases i
  {
    if i > 0 {
      assert ls[..m][..i - 1] == ls[..i - 1];
      SectionOfPrefix(ls, m, i - 1);
    }
  }

  lemma PrefixAssigns(ls: seq<Line>, n: string, k: string, m: nat, i: nat)
    requires i < m <= |ls|
    ensures Assigns(ls[..m], n, k, i) <==> Assigns(ls, n, k, i)
  {
    SectionOfPrefix(ls, m, i);
  }

  lemma FeedLast(ls: seq<Line>)
    requires ls != []
    ensures FeedAll(EMPTY, ls) == Feed(FeedAll(EMPTY, ls[..|ls| - 1]), ls[|ls| - 1])
  {
    var front, last := ls[..|ls| - 1], ls[|ls| - 1];
    assert ls == front + [last];
    FeedAppend(EMPTY, front, [last]);
    FeedOne(FeedAll(EMPTY, front), last);
  }

  lemma FeedName(st: Loading, l: Line, n: string)
    requires WellSited(st)
    ensures n in Feed(st, l).sections <==> n in st.sections || l == Header(n)
  {
  }

  /** The sections loaded are those with a header. */
  lemma {:induction false} SectionsLoaded(ls: seq<Line>, n: string)
    ensures n in FeedAll(EMPTY, ls).sections <==> Header(n) in ls
    decreases |ls|
  {
    if ls != [] {
      var front, last := ls[..|ls| - 1], ls[|ls| - 1];
      SectionsLoaded(front, n);
      FeedLast(ls);
      FeedName(FeedAll(EMPTY, front), last, n);
      assert ls == front + [last];
    }
  }

  /** The last heading decides which section is current. */
  lemma {:induction false} CurrentSection(ls: seq<Line>)
    ensures FeedAll(EMPTY, ls).current == SectionAt(ls, |ls|)
    decreases |ls|
  {
    if ls != [] {
      var m := |ls| - 1;
      CurrentSection(ls[..m]);
      FeedLast(ls);
      SectionOfPrefix(ls, m, m);
      if ls[m].Header? {
        SectionsLoaded(ls[..m], ls[m].name);
      }
    }
  }

  predicate Holds(m: map<string, Section>, n: string, k: string) {
    n in m && k in m[n]
  }

  /** What one line does to one key. */
  lemma FeedKey(st: Loading, l: Line, n: string, k: string)
    requires WellSited(st)
    ensures Holds(st.sections, n, k) ==>
              Holds(Feed(st, l).sections, n, k) && Feed(st, l).sections[n][k] == st.sections[n][k]
    ensures !Holds(st.sections, n, k) ==>
              (Holds(Feed(st, l).sections, n, k) <==> st.current == Some(n) && l.Pair? && l.key == k)
    ensures !Holds(st.sections, n, k) && Holds(Feed(st, l).sections, n, k) ==> Feed(st, l).sections[n][k] == l.value
  {
  }

  /** Without a pair for it, a key is not loaded. */
  lemma {:induction false} UnassignedKey(ls: seq<Line>, n: string, k: string)
    requires forall j :: 0 <= j < |ls| ==> !Assigns(ls, n, k, j)
    ensures !Holds(FeedAll(EMPTY, ls).sections, n, k)
    decreases |ls|
  {
    if ls != [] {
      var m := |ls| - 1;
      forall j | 0 <= j < m
        ensures !Assigns(ls[..m], n, k, j)
      {
        PrefixAssigns(ls, n, k, m, j);
      }
      UnassignedKey(ls[..m], n, k);
      FeedLast(ls);
      FeedKey(FeedAll(EMPTY, ls[..m]), ls[m], n, k);
      CurrentSection(ls[..m]);
      SectionOfPrefix(ls, m, m);
      assert !Assigns(ls, n, k, m);
    }
  }

  /** The first pair for a key gives its value, and it stays. */
  lemma {:induction false} FirstPairCounts(ls: seq<Line>, n: string, k: string, i: nat)
    requires FirstPair(ls, n, k, i)
    ensures var m := FeedAll(EMPTY, ls).sections;
            Holds(m, n, k) && m[n][k] == ls[i].value
    decreases |ls|
  {
    var m := |ls| - 1;
    forall j | 0 <= j < m
      ensures Assigns(ls[..m], n, k, j) <==> Assigns(ls, n, k, j)
    {
      PrefixAssigns(ls, n, k, m, j);
    }
    FeedLast(ls);
    FeedKey(FeedAll(EMPTY, ls[..m]), ls[m], n, k);
    if i < m {
      FirstPairCounts(ls[..m], n, k, i);
    } else {
      UnassignedKey(ls[..m], n, k);
      CurrentSection(ls[..m]);
      SectionOfPrefix(ls, m, m);
    }
  }

  lemma {:induction false} FirstOfAll(ls: seq<Line>, n: string, k: string, j: nat) returns (i: nat)
    requires Assigns(ls, n, k, j)
    ensures FirstPair(ls, n, k, i)
    decreases j
  {
    if h: nat :| h < j && Assigns(ls, n, k, h) {
      i := FirstOfAll(ls, n, k, h);
    } else {
      i := j;
    }
  }

  /**
   What a file means, without the loader: a section is there exactly if a header names
   it, and a key exactly if there is a pair for it in a stretch of lines that belongs to
   the first header of that name; of several such pairs the first counts.
   */
  lemma LoadMeans(ls: seq<Line>, n: string, k: string)
    ensures var m := FeedAll(EMPTY, ls).sections;
            && (n in m <==> Header(n) in ls)
            && (Holds(m, n, k) <==> exists i: nat :: FirstPair(ls, n, k, i))
            && (forall i: nat :: FirstPair(ls, n, k, i) ==> Holds(m, n, k) && m[n][k] == ls[i].value)
  {
    SectionsLoaded(ls, n);
    forall i: nat | FirstPair(ls, n, k, i)
      ensures Holds(FeedAll(EMPTY, ls).sections, n, k)
      ensures FeedAll(EMPTY, ls).sections[n][k] == ls[i].value
    {
      FirstPairCounts(ls, n, k, i);
    }
    if forall j :: 0 <= j < |ls| ==> !Assigns(ls, n, k, j) {
      UnassignedKey(ls, n, k);
    } else {
      var j: nat :| Assigns(ls, n, k, j);
      var i := FirstOfAll(ls, n, k, j);
    }
  }
}
