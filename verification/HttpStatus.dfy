/**
 What recvHeader makes of a response that is given by its text: status codes as
 decimal numbers, "HTTP/" and the header's end as bytes, size limits as numbers.
 */
module HttpStatus {
  import opened Bytes
  import opened HttpHeader
  import opened HttpChunking

  // ----- numbers -----

  /** The decimal text of n. */
  function Decimal(n: nat): (s: seq<byte>)
    ensures s != [] && forall k :: 0 <= k < |s| ==> 48 <= s[k] <= 57
  {
    if n < 10 then [48 + n] else Decimal(n / 10) + [48 + n % 10]
  }

  lemma {:induction false} DigitsThrough(a: seq<byte>, t: seq<byte>, value: nat)
    requires forall k :: 0 <= k < |a| ==> 48 <= a[k] <= 57
    ensures Digits(a + t, value) == Digits(t, Digits(a, value))
    decreases |a|
  {
    if a == [] {
      assert a + t == t;
    } else {
      assert (a + t)[1..] == a[1..] + t;
      DigitsThrough(a[1..], t, 10 * value + (a[0] - 48));
    }
  }

  lemma {:induction false} DecimalReads(n: nat)
    ensures Digits(Decimal(n), 0) == n
  {
    var d: seq<byte> := [48 + n % 10];
    assert d[1..] == [];
    if n >= 10 {
      DecimalReads(n / 10);
      DigitsThrough(Decimal(n / 10), d, 0);
      assert Digits(d, n / 10) == Digits(d[1..], 10 * (n / 10) + n % 10);
    } else {
      assert Digits(d, 0) == Digits(d[1..], n);
    }
  }

  predicate NoDigitFirst(t: seq<byte>) {
    t == [] || t[0] < 48 || t[0] > 57
  }

  lemma DecimalThenTail(n: nat, t: seq<byte>)
    requires NoDigitFirst(t)
    ensures Digits(Decimal(n) + t, 0) == n
  {
    DigitsThrough(Decimal(n), t, 0);
    DecimalReads(n);
  }

  /** White space, a number in decimal and a tail that does not go on with a digit read as the number. */
  lemma AtoiOfDecimal(b: seq<byte>, n: nat, t: seq<byte>)
    requires (forall k :: 0 <= k < |b| ==> b[k] == 32 || 9 <= b[k] <= 13) && NoDigitFirst(t)
    ensures Atoi(b + (Decimal(n) + t)) == n
    ensures Atoi(b + ([43] + (Decimal(n) + t))) == n
    ensures Atoi(b + ([45] + (Decimal(n) + t))) == 0 - n
  {
    var s := Decimal(n) + t;
    DecimalThenTail(n, t);
    AtoiSkips(b, s);
    AtoiSkips(b, [43] + s);
    AtoiSkips(b, [45] + s);
    assert ([43] + s)[1..] == s && ([45] + s)[1..] == s;
  }

  /** Text that is no number reads as 0. */
  lemma AtoiOfNothing(b: seq<byte>, t: seq<byte>)
    requires forall k :: 0 <= k < |b| ==> b[k] == 32 || 9 <= b[k] <= 13
    requires t == [] || (NoDigitFirst(t) && t[0] != 43 && t[0] != 45 && t[0] != 32 && !(9 <= t[0] <= 13))
    ensures Atoi(b + t) == 0
  {
    AtoiSkips(b, t);
  }

  // ----- header blocks -----

  predicate EndsAt(b: seq<byte>, q: nat) {
    q + 4 <= |b| && b[q] == 13 && b[q + 1] == 10 && b[q + 2] == 13 && b[q + 3] == 10
  }

  /** A header block: it ends with CR LF CR LF, and nothing shorter of it does. */
  predicate IsBlock(b: seq<byte>) {
    |b| >= 4 && EndsAt(b, |b| - 4) && forall q :: 0 <= q < |b| - 4 ==> !EndsAt(b, q)
  }

  lemma BlockIsHead(b: seq<byte>)
    requires IsBlock(b)
    ensures HasTerm(b) && HeadLen(b) == |b| && Head(b) == b
  {
    forall q | 0 <= q < |b| - 4
      ensures !TermAt(b, q)
    {
      assert !EndsAt(b, q);
    }
    FindTermIs(b, |b| - 4);
  }

  lemma BlockBefore(b: seq<byte>, body: seq<byte>)
    requires IsBlock(b)
    ensures HasTerm(b + body) && HeadLen(b + body) == |b| && Head(b + body) == b && (b + body)[|b|..] == body
  {
    BlockIsHead(b);
    BlockIsStable(b, body);
  }

  /** A status line: "HTTP/" and a version without blanks, a blank, and what follows it. */
  function StatusLine(v: seq<byte>, c: seq<byte>): seq<byte> {
    [72, 84, 84, 80, 47] + (v + ([32] + c))
  }

  lemma FirstSpace(v: seq<byte>, c: seq<byte>)
    requires 32 !in v
    ensures FindSpace(StatusLine(v, c), 0) == |v| + 5 && StatusLine(v, c)[|v| + 6..] == c
    ensures HTTP_SLASH <= StatusLine(v, c)
  {
    FindSpaceIs(StatusLine(v, c), |v| + 5);
  }

  /** Where c begins with blanks and then a byte that is none, the block ends behind that byte. */
  lemma EndsAfter(v: seq<byte>, sp: seq<byte>, c: seq<byte>)
    requires IsBlock(StatusLine(v, sp + c)) && c != [] && c[0] != 13 && c[0] != 10
    ensures |v| + 6 + |sp| < |StatusLine(v, sp + c)| - 4 && StatusLine(v, sp + c)[|v| + 6 + |sp|] == c[0]
  {
    var b := StatusLine(v, sp + c);
    assert b[|v| + 6 + |sp|] == c[0];
  }

  /** A block is read by the code text behind its first blank. */
  lemma BlockReads(v: seq<byte>, c: seq<byte>, i: nat)
    requires 32 !in v && IsBlock(StatusLine(v, c))
    requires |v| + 6 <= i < |StatusLine(v, c)| - 4 && !IsSpace(StatusLine(v, c)[i])
    ensures var b := StatusLine(v, c);
            && HasTerm(b) && HeadLen(b) == |b| && !BlankStatus(b)
            && Classify(b) == if 100 <= Atoi(c) <= 199 then Interim else Final(Atoi(c))
  {
    var b := StatusLine(v, c);
    BlockIsHead(b);
    FirstSpace(v, c);
    assert b[|v| + 6..|b| - 4][i - (|v| + 6)] == b[i];
  }

  /** The number is read; white space may stand before it, and anything but a digit behind it. */
  lemma NumberedBlock(v: seq<byte>, sp: seq<byte>, n: nat, t: seq<byte>)
    requires 32 !in v && (forall k :: 0 <= k < |sp| ==> sp[k] == 32 || 9 <= sp[k] <= 13)
    requires NoDigitFirst(t) && IsBlock(StatusLine(v, sp + (Decimal(n) + t)))
    ensures var b := StatusLine(v, sp + (Decimal(n) + t));
            && HasTerm(b) && HeadLen(b) == |b| && !BlankStatus(b)
            && Classify(b) == if 100 <= n <= 199 then Interim else Final(n)
  {
    var c := Decimal(n) + t;
    AtoiOfDecimal(sp, n, t);
    assert c[0] == Decimal(n)[0];
    EndsAfter(v, sp, c);
    BlockReads(v, sp + c, |v| + 6 + |sp|);
  }

  /** Text that is no number reads as the code 0. */
  lemma UnnumberedBlock(v: seq<byte>, sp: seq<byte>, t: seq<byte>)
    requires 32 !in v && (forall k :: 0 <= k < |sp| ==> sp[k] == 32 || 9 <= sp[k] <= 13)
    requires t != [] && NoDigitFirst(t) && t[0] != 43 && t[0] != 45 && t[0] != 32 && !(9 <= t[0] <= 13)
    requires IsBlock(StatusLine(v, sp + t))
    ensures var b := StatusLine(v, sp + t);
            HasTerm(b) && !BlankStatus(b) && Classify(b) == Final(0)
  {
    AtoiOfNothing(sp, t);
    EndsAfter(v, sp, t);
    BlockReads(v, sp + t, |v| + 6 + |sp|);
  }

  /** A block is malformed exactly if it does not begin with "HTTP/" or has no blank. */
  lemma MalformedExactly(b: seq<byte>)
    requires IsBlock(b)
    ensures HasTerm(b)
    ensures Classify(b) == Malformed <==> !([72, 84, 84, 80, 47] <= b) || 32 !in b
  {
    BlockIsHead(b);
    assert forall k :: |b| - 4 <= k < |b| ==> b[k] != 32;
  }

  // ----- whole responses, for every chunking -----

  /** A numbered header block in front of anything, whatever the pieces. */
  lemma ResponseReads(v: seq<byte>, sp: seq<byte>, n: nat, t: seq<byte>, body: seq<byte>, chunks: seq<seq<byte>>, reset: bool)
    requires 32 !in v && (forall k :: 0 <= k < |sp| ==> sp[k] == 32 || 9 <= sp[k] <= 13)
    requires NoDigitFirst(t) && IsBlock(StatusLine(v, sp + (Decimal(n) + t)))
    requires Delivers(chunks, StatusLine(v, sp + (Decimal(n) + t)) + body)
    ensures var b, a := StatusLine(v, sp + (Decimal(n) + t)), Meaning(Receive([], chunks, reset));
            && (|b| <= 65537 && !(100 <= n <= 199) ==> a == Answer(n, b, body))
            && (|b| <= 65537 && 100 <= n <= 199 && Judge(body, reset).Definite? ==> a == Judge(body, reset).answer)
            && (|b| <= 65537 && 100 <= n <= 199 ==> Judge(b + body, reset) == Judge(body, reset))
            && (|b| > 113664 ==> a == NoAnswer(-1))
  {
    var b := StatusLine(v, sp + (Decimal(n) + t));
    NumberedBlock(v, sp, n, t);
    BlockBefore(b, body);
    if Judge(b + body, reset).Definite? {
      SettledAnswer(chunks, b + body, reset);
    }
  }

  /** Between the two sizes the pieces decide about a final block. */
  lemma SizeBand(v: seq<byte>, sp: seq<byte>, n: nat, t: seq<byte>, body: seq<byte>, reset: bool)
    requires 32 !in v && (forall k :: 0 <= k < |sp| ==> sp[k] == 32 || 9 <= sp[k] <= 13)
    requires NoDigitFirst(t) && IsBlock(StatusLine(v, sp + (Decimal(n) + t))) && !(100 <= n <= 199)
    ensures var b := StatusLine(v, sp + (Decimal(n) + t));
            ChunkingMatters(b + body, reset) <==> 65537 < |b| <= 113664
  {
    var b := StatusLine(v, sp + (Decimal(n) + t));
    NumberedBlock(v, sp, n, t);
    BlockBefore(b, body);
    ChunkingIndependence(b + body, reset);
  }

  /** A malformed block of any size is refused. */
  lemma MalformedRefused(b: seq<byte>, body: seq<byte>, chunks: seq<seq<byte>>, reset: bool)
    requires IsBlock(b) && (!([72, 84, 84, 80, 47] <= b) || 32 !in b) && Delivers(chunks, b + body)
    ensures Meaning(Receive([], chunks, reset)) == NoAnswer(-1)
  {
    MalformedExactly(b);
    BlockBefore(b, body);
    SettledAnswer(chunks, b + body, reset);
  }

  /** A stream without a complete block: too long, broken off or closed. */
  lemma NoBlockRefused(s: seq<byte>, chunks: seq<seq<byte>>, reset: bool)
    requires (forall q :: 0 <= q < |s| ==> !EndsAt(s, q)) && Delivers(chunks, s)
    ensures Meaning(Receive([], chunks, reset)) == NoAnswer(if |s| > 65536 || reset then -1 else -3)
  {
    assert forall q :: 0 <= q < |s| ==> (TermAt(s, q) <==> EndsAt(s, q));
    SettledAnswer(chunks, s, reset);
  }
}
