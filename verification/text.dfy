/** The few string facts the message bodies need: decimal numbers and line counting. */
module Text {

  function DigitChar(d: nat): (c: char)
    requires d < 10
    ensures '0' <= c <= '9'
  {
    ('0' as int + d) as char
  }

  /** The value a decimal digit character stands for. */
  function DigitValue(c: char): nat
    requires '0' <= c <= '9'
  {
    c as int - '0' as int
  }

  /** Whether every character of `s` is a decimal digit. */
  predicate AllDigits(s: string)
  {
    forall i :: 0 <= i < |s| ==> '0' <= s[i] <= '9'
  }

  /** The number a string of decimal digits spells, read left to right. */
  function DecimalValue(s: string): nat
    requires AllDigits(s)
  {
    if s == [] then 0 else 10 * DecimalValue(s[..|s| - 1]) + DigitValue(s[|s| - 1])
  }

  /**
   * The decimal digits of `n`, as a template literal `${n}` renders it: they
   * spell `n`, and only zero itself starts with `0`.
   */
  function NatToString(n: nat): (s: string)
    ensures |s| >= 1 && AllDigits(s)
    ensures DecimalValue(s) == n
    ensures |s| == 1 <==> n < 10
    ensures n > 0 ==> s[0] != '0'
    decreases n
  {
    if n < 10 then
      [DigitChar(n)]
    else
      var front := NatToString(n / 10);
      var s := front + [DigitChar(n % 10)];
      assert s[..|s| - 1] == front;
      s
  }

  /**
   * A signed integer in decimal: a leading `-` exactly when it is negative,
   * then digits that spell its magnitude, with no leading zero.
   */
  function IntToString(x: int): (s: string)
    ensures |s| >= 1
    ensures s[0] == '-' <==> x < 0
    ensures x >= 0 ==> '0' <= s[0] <= '9'
    ensures forall i :: 0 < i < |s| ==> '0' <= s[i] <= '9'
    ensures x >= 0 ==> AllDigits(s) && DecimalValue(s) == x
    ensures x < 0 ==> |s| >= 2 && AllDigits(s[1..]) && DecimalValue(s[1..]) == -x
    ensures x >= 0 && |s| > 1 ==> s[0] != '0'
    ensures x < 0 ==> s[1] != '0'
  {
    if x < 0 then
      var s := "-" + NatToString(-x);
      assert s[1..] == NatToString(-x);
      s
    else NatToString(x)
  }


  /** `piece` stands in `line` at offset `at`. */
  predicate At(line: string, at: nat, piece: string)
  {
    at + |piece| <= |line| && line[at..at + |piece|] == piece
  }

  /** A string that starts with `before + piece` holds `before` at 0 and `piece` right after it. */
  lemma PieceAt(line: string, before: string, piece: string)
    requires |before| + |piece| <= |line| && line[..|before| + |piece|] == before + piece
    ensures line[..|before|] == before
    ensures At(line, |before|, piece)
  {
    assert line[..|before|] == (before + piece)[..|before|];
    assert line[|before|..|before| + |piece|] == (before + piece)[|before|..];
  }

  /**
   * Each of eleven strings stands in their concatenation at the sum of the
   * lengths of those before it.
   */
  lemma {:induction false} PiecesAt(a: string, b: string, c: string, d: string, e: string, f: string,
               g: string, h: string, i: string, j: string, k: string)
    ensures var line := a + b + c + d + e + f + g + h + i + j + k;
            && |line| == |a| + |b| + |c| + |d| + |e| + |f| + |g| + |h| + |i| + |j| + |k|
            && At(line, 0, a)
            && At(line, |a|, b)
            && At(line, |a| + |b|, c)
            && At(line, |a| + |b| + |c|, d)
            && At(line, |a| + |b| + |c| + |d|, e)
            && At(line, |a| + |b| + |c| + |d| + |e|, f)
            && At(line, |a| + |b| + |c| + |d| + |e| + |f|, g)
            && At(line, |a| + |b| + |c| + |d| + |e| + |f| + |g|, h)
            && At(line, |a| + |b| + |c| + |d| + |e| + |f| + |g| + |h|, i)
            && At(line, |a| + |b| + |c| + |d| + |e| + |f| + |g| + |h| + |i|, j)
            && At(line, |a| + |b| + |c| + |d| + |e| + |f| + |g| + |h| + |i| + |j|, k)
  {
    var p1 := a + b;
    var p2 := p1 + c;
    var p3 := p2 + d;
    var p4 := p3 + e;
    var p5 := p4 + f;
    var p6 := p5 + g;
    var p7 := p6 + h;
    var p8 := p7 + i;
    var p9 := p8 + j;
    var line := p9 + k;
    assert line[..|line|] == line;
    PieceAt(line, p9, k);
    PieceAt(line, p8, j);
    PieceAt(line, p7, i);
    PieceAt(line, p6, h);
    PieceAt(line, p5, g);
    PieceAt(line, p4, f);
    PieceAt(line, p3, e);
    PieceAt(line, p2, d);
    PieceAt(line, p1, c);
    PieceAt(line, a, b);
    PieceAt(line, [], a);
  }

  /** The number of `\n` characters in `s`. */
  function NewlineCount(s: string): nat
  {
    if s == [] then 0
    else NewlineCount(s[..|s| - 1]) + (if s[|s| - 1] == '\n' then 1 else 0)
  }

  lemma {:induction false} NewlineCountAppend(a: string, b: string)
    ensures NewlineCount(a + b) == NewlineCount(a) + NewlineCount(b)
  {
    if b == [] {
      assert a + b == a;
    } else {
      var n := |b| - 1;
      assert (a + b)[..|a + b| - 1] == a + b[..n];
      assert (a + b)[|a + b| - 1] == b[n];
      NewlineCountAppend(a, b[..n]);
    }
  }

  /** A string without a `\n` character has no line break. */
  lemma {:induction false} NoNewline(s: string)
    requires forall i :: 0 <= i < |s| ==> s[i] != '\n'
    ensures NewlineCount(s) == 0
  {
    if s != [] {
      NoNewline(s[..|s| - 1]);
    }
  }

  /** Rendered numbers never break a line. */
  lemma IntToStringNoNewline(x: int)
    ensures NewlineCount(IntToString(x)) == 0
  {
    NoNewline(IntToString(x));
  }

  /** The parts joined in order, as a string grown by `+=` in a loop. */
  function Concat(parts: seq<string>): string
  {
    if parts == [] then "" else Concat(parts[..|parts| - 1]) + parts[|parts| - 1]
  }

  /** The sum of the lengths of the parts. */
  function TotalLength(parts: seq<string>): nat
  {
    if parts == [] then 0 else |parts[0]| + TotalLength(parts[1..])
  }

  lemma {:induction false} ConcatAppend(a: seq<string>, b: seq<string>)
    ensures Concat(a + b) == Concat(a) + Concat(b)
  {
    if b == [] {
      assert a + b == a;
    } else {
      var n := |b| - 1;
      assert (a + b)[..|a + b| - 1] == a + b[..n];
      assert (a + b)[|a + b| - 1] == b[n];
      ConcatAppend(a, b[..n]);
    }
  }

  lemma ConcatSingle(part: string)
    ensures Concat([part]) == part
  {
    assert [part][..0] == [];
  }

  /** Parts are only appended, never removed: the result is as long as all parts together. */
  lemma {:induction false} ConcatLength(parts: seq<string>)
    ensures |Concat(parts)| == TotalLength(parts)
  {
    if parts != [] {
      assert parts == [parts[0]] + parts[1..];
      ConcatAppend([parts[0]], parts[1..]);
      ConcatSingle(parts[0]);
      ConcatLength(parts[1..]);
    }
  }

  /** The i-th part stands, whole, between the parts before it and those after it. */
  lemma {:induction false} ConcatSplit(parts: seq<string>, i: nat)
    requires i < |parts|
    ensures Concat(parts) == Concat(parts[..i]) + parts[i] + Concat(parts[i + 1..])
  {
    var before, middle, after := parts[..i], [parts[i]], parts[i + 1..];
    assert parts == (before + middle) + after;
    ConcatAppend(before + middle, after);
    ConcatAppend(before, middle);
    ConcatSingle(parts[i]);
    assert Concat(before + middle) == Concat(before) + parts[i];
  }

  /** One line per element, in the order of the elements. */
  function Lines<T>(xs: seq<T>, line: T -> string): (lines: seq<string>)
    ensures |lines| == |xs|
    ensures forall i :: 0 <= i < |xs| ==> lines[i] == line(xs[i])
  {
    seq(|xs|, i requires 0 <= i < |xs| => line(xs[i]))
  }

  /** Rendering one more element appends its line to the text. */
  lemma LinesAppend<T>(xs: seq<T>, line: T -> string, i: nat)
    requires i < |xs|
    ensures Concat(Lines(xs[..i + 1], line)) == Concat(Lines(xs[..i], line)) + line(xs[i])
  {
    var lines := Lines(xs[..i + 1], line);
    assert lines[..i] == Lines(xs[..i], line);
  }

  /** The line of element i stands, whole, between the lines of the elements before and after it. */
  lemma LinesSplit<T>(xs: seq<T>, line: T -> string, i: nat)
    requires i < |xs|
    ensures Concat(Lines(xs, line)) == Concat(Lines(xs[..i], line)) + line(xs[i]) + Concat(Lines(xs[i + 1..], line))
  {
    var lines := Lines(xs, line);
    ConcatSplit(lines, i);
    assert lines[..i] == Lines(xs[..i], line);
    assert lines[i + 1..] == Lines(xs[i + 1..], line);
  }

  /** Parts that each hold one line break give as many line breaks as parts. */
  lemma {:induction false} ConcatNewlines(parts: seq<string>)
    requires forall i :: 0 <= i < |parts| ==> NewlineCount(parts[i]) == 1
    ensures NewlineCount(Concat(parts)) == |parts|
  {
    if parts != [] {
      var n := |parts| - 1;
      ConcatNewlines(parts[..n]);
      NewlineCountAppend(Concat(parts[..n]), parts[n]);
    }
  }
}
