/**
  Character-level reading and writing of the text the circuit exchanges
  with knowledge compilers: whitespace, decimal numbers as an input stream
  extracts them, lines as `getline` delivers them, and the words a shell
  splits a command line into.

  Readers take the remaining input as a string and hand back what is left
  after what they consumed, so that successive extractions chain.
*/
module Text {

  datatype Option<T> = None | Some(value: T)

  /** The characters a stream skips before a formatted extraction. */
  predicate IsSpace(ch: char) {
    ch == ' ' || ch == '\t' || ch == '\n' || ch == '\r' || ch == '\U{0B}' || ch == '\U{0C}'
  }

  predicate IsDigit(ch: char) {
    '0' <= ch <= '9'
  }

  predicate AllDigits(s: string) {
    forall k :: 0 <= k < |s| ==> IsDigit(s[k])
  }

  /** `s` holds no line break. */
  predicate OneLine(s: string) {
    forall k :: 0 <= k < |s| ==> s[k] != '\n'
  }

  /** `s` holds no blank. */
  predicate NoBlank(s: string) {
    forall k :: 0 <= k < |s| ==> s[k] != ' '
  }

  /** `s` is empty or does not start with a digit, so a number written before it ends there. */
  predicate EndsNumber(s: string) {
    s == [] || !IsDigit(s[0])
  }

  /** Drops the leading whitespace of `s`. */
  function SkipSpace(s: string): (r: string)
    ensures |r| <= |s|
    ensures r == [] || !IsSpace(r[0])
  {
    if s != [] && IsSpace(s[0]) then SkipSpace(s[1..]) else s
  }

  /** The length of the longest prefix of `s` made of digits. */
  function DigitRun(s: string): (n: nat)
    ensures n <= |s| && AllDigits(s[..n]) && EndsNumber(s[n..])
  {
    if s != [] && IsDigit(s[0]) then 1 + DigitRun(s[1..]) else 0
  }

  function DigitValue(ch: char): (d: nat)
    requires IsDigit(ch)
    ensures d < 10
  {
    (ch as int) - ('0' as int)
  }

  function DigitChar(d: nat): (ch: char)
    requires d < 10
    ensures IsDigit(ch) && DigitValue(ch) == d
  {
    ('0' as int + d) as char
  }

  /** The value of a string of decimal digits, most significant first. */
  function NatValue(ds: string): nat
    requires AllDigits(ds)
    decreases |ds|
  {
    if ds == [] then 0 else NatValue(ds[..|ds| - 1]) * 10 + DigitValue(ds[|ds| - 1])
  }

  /** Reads the longest run of digits at the start of `s`; fails when there is none. */
  function ReadDigits(s: string): (r: Option<(nat, string)>)
    ensures r.Some? ==> |r.value.1| < |s| && EndsNumber(r.value.1)
    ensures r.None? <==> EndsNumber(s)
  {
    var k := DigitRun(s);
    if k == 0 then None else Some((NatValue(s[..k]), s[k..]))
  }

  /**
    Extracts an unsigned decimal number: skips whitespace, then reads the
    longest run of digits; fails when no digit follows the whitespace.
  */
  function ReadNat(s: string): (r: Option<(nat, string)>)
    ensures r.Some? ==> |r.value.1| < |s| && EndsNumber(r.value.1)
  {
    ReadDigits(SkipSpace(s))
  }

  /**
    Extracts a signed decimal number: skips whitespace, takes an optional
    `+` or `-`, then the longest run of digits; fails when no digit follows.
  */
  function ReadInt(s: string): (r: Option<(int, string)>)
    ensures r.Some? ==> |r.value.1| < |s| && EndsNumber(r.value.1)
  {
    var t := SkipSpace(s);
    if t != [] && t[0] == '-' then
      match ReadDigits(t[1..])
      case None => None
      case Some((v, rest)) => Some((-(v as int), rest))
    else if t != [] && t[0] == '+' then
      match ReadDigits(t[1..])
      case None => None
      case Some((v, rest)) => Some((v as int, rest))
    else
      match ReadDigits(t)
      case None => None
      case Some((v, rest)) => Some((v as int, rest))
  }

  /** The largest value of a 32-bit `unsigned`. */
  const UnsignedMax: nat := 0xFFFF_FFFF

  /** What an extraction stores, whether it left the stream usable, and the input after it. */
  datatype Extraction = Extraction(stored: nat, ok: bool, rest: string)

  /**
    Extracts an `unsigned` from input that is not exhausted: skips
    whitespace, takes an optional sign and the longest run of digits. A
    negative number wraps around modulo 2^32. A magnitude beyond the largest
    `unsigned` stores that largest value and fails the stream, and so does
    the absence of any digit, which stores 0.
  */
  function ExtractUnsigned(s: string): (r: Extraction)
    ensures r.stored <= UnsignedMax
    ensures r.ok ==> |r.rest| < |s| && EndsNumber(r.rest)
  {
    match ReadInt(s)
    case None => Extraction(0, false, s)
    case Some((v, rest)) =>
      if -(UnsignedMax as int) <= v < 0 then Extraction(v + UnsignedMax + 1, true, rest)
      else if 0 <= v <= UnsignedMax as int then Extraction(v, true, rest)
      else Extraction(UnsignedMax, false, rest)
  }

  /** Extracts numbers from `s` for as long as extraction succeeds. */
  function ReadInts(s: string): seq<int>
    decreases |s|
  {
    match ReadInt(s)
    case None => []
    case Some((v, rest)) => [v] + ReadInts(rest)
  }

  /** The decimal representation of `n`, without leading zeros. */
  function ShowNat(n: nat): (s: string)
    ensures |s| >= 1 && AllDigits(s)
  {
    if n < 10 then [DigitChar(n)] else ShowNat(n / 10) + [DigitChar(n % 10)]
  }

  function ShowInt(x: int): (s: string)
    ensures |s| >= 1 && !IsSpace(s[0])
  {
    if x < 0 then "-" + ShowNat(-x) else ShowNat(x)
  }

  /** Each number preceded by one blank. */
  function ShowInts(xs: seq<int>): (s: string)
    ensures xs != [] ==> |s| > 0 && s[0] == ' '
  {
    if xs == [] then "" else " " + ShowInt(xs[0]) + ShowInts(xs[1..])
  }

  lemma OneLineJoin(a: string, b: string)
    requires OneLine(a) && OneLine(b)
    ensures OneLine(a + b)
  {
    assert forall k :: 0 <= k < |a + b| ==> (a + b)[k] == (if k < |a| then a[k] else b[k - |a|]);
  }

  /** Written numbers never break the line. */
  lemma {:induction false} ShowIntsOneLine(xs: seq<int>)
    ensures OneLine(ShowInts(xs))
  {
    if xs != [] {
      var x := xs[0];
      var m: nat := if x < 0 then -x else x;
      assert AllDigits(ShowNat(m));
      assert OneLine(ShowInt(x));
      ShowIntsOneLine(xs[1..]);
      OneLineJoin(" ", ShowInt(x));
      OneLineJoin(" " + ShowInt(x), ShowInts(xs[1..]));
    }
  }

  /** The digits of `ShowNat(n)` read back as `n`. */
  lemma {:induction false} NatValueShow(n: nat)
    ensures NatValue(ShowNat(n)) == n
  {
    if n >= 10 {
      NatValueShow(n / 10);
      var s := ShowNat(n);
      assert s[..|s| - 1] == ShowNat(n / 10);
    }
  }

  lemma {:induction false} DigitRunOf(ds: string, rest: string)
    requires AllDigits(ds) && EndsNumber(rest)
    ensures DigitRun(ds + rest) == |ds|
  {
    if ds != [] {
      assert (ds + rest)[1..] == ds[1..] + rest;
      DigitRunOf(ds[1..], rest);
    }
  }

  lemma SkipNoSpace(s: string)
    requires s != [] && !IsSpace(s[0])
    ensures SkipSpace(s) == s
  {
  }

  /** Decimal digits followed by a non-digit: the digit run is exactly the digits. */
  lemma DigitsThen(ds: string, rest: string)
    requires AllDigits(ds) && EndsNumber(rest)
    ensures var s := ds + rest; DigitRun(s) == |ds| && s[..|ds|] == ds && s[|ds|..] == rest
  {
    DigitRunOf(ds, rest);
  }

  /** A number written in decimal, then anything that is not a digit, reads back as that number. */
  lemma ReadDigitsShow(n: nat, rest: string)
    requires EndsNumber(rest)
    ensures ReadDigits(ShowNat(n) + rest) == Some((n, rest))
  {
    DigitsThen(ShowNat(n), rest);
    NatValueShow(n);
  }

  lemma ReadNatShow(n: nat, rest: string)
    requires EndsNumber(rest)
    ensures ReadNat(ShowNat(n) + rest) == Some((n, rest))
  {
    SkipNoSpace(ShowNat(n) + rest);
    ReadDigitsShow(n, rest);
  }

  /** The same with one blank in front. */
  lemma ReadNatShowBlank(n: nat, rest: string)
    requires EndsNumber(rest)
    ensures ReadNat(" " + ShowNat(n) + rest) == Some((n, rest))
  {
    var s := " " + ShowNat(n) + rest;
    assert SkipSpace(s) == SkipSpace(ShowNat(n) + rest) by {
      assert s[1..] == ShowNat(n) + rest;
    }
    ReadNatShow(n, rest);
  }

  /** A signed number written by `ShowInt`, then a non-digit, reads back as that number. */
  lemma ReadIntShow(x: int, rest: string)
    requires EndsNumber(rest)
    ensures ReadInt(ShowInt(x) + rest) == Some((x, rest))
  {
    if x < 0 {
      ReadNegativeShow(-x, rest);
    } else {
      ReadNonNegativeShow(x, rest);
    }
  }

  lemma ReadNegativeShow(n: nat, rest: string)
    requires EndsNumber(rest) && n > 0
    ensures ReadInt("-" + ShowNat(n) + rest) == Some((-(n as int), rest))
  {
    var d := ShowNat(n) + rest;
    assert "-" + ShowNat(n) + rest == "-" + d;
    ReadIntMinus(d);
    ReadDigitsShow(n, rest);
  }

  /** A minus sign in front of digits negates the number they read as. */
  lemma ReadIntMinus(d: string)
    ensures ReadDigits(d).None? ==> ReadInt("-" + d).None?
    ensures ReadDigits(d).Some? ==>
      ReadInt("-" + d) == Some((-(ReadDigits(d).value.0 as int), ReadDigits(d).value.1))
  {
    SkipNoSpace("-" + d);
    assert ("-" + d)[1..] == d;
  }

  lemma ReadNonNegativeShow(n: nat, rest: string)
    requires EndsNumber(rest)
    ensures ReadInt(ShowNat(n) + rest) == Some((n as int, rest))
  {
    var s := ShowNat(n) + rest;
    assert IsDigit(s[0]);
    SkipNoSpace(s);
    ReadDigitsShow(n, rest);
  }

  lemma SkipBlank(t: string)
    ensures SkipSpace(" " + t) == SkipSpace(t)
  {
    assert (" " + t)[1..] == t;
  }

  /** One blank-prefixed number read off the front of a sequence of them. */
  lemma ReadIntsCons(x: int, tail: string)
    requires EndsNumber(tail)
    ensures ReadInts(" " + ShowInt(x) + tail) == [x] + ReadInts(tail)
  {
    var s := " " + ShowInt(x) + tail;
    SkipBlank(ShowInt(x) + tail);
    assert s == " " + (ShowInt(x) + tail);
    ReadIntShow(x, tail);
    assert ReadInt(s) == ReadInt(ShowInt(x) + tail);
  }

  /** Numbers written by `ShowInts` read back as the same numbers. */
  lemma {:induction false} ReadIntsShow(xs: seq<int>)
    ensures ReadInts(ShowInts(xs)) == xs
  {
    if xs != [] {
      var tail := ShowInts(xs[1..]);
      ReadIntsCons(xs[0], tail);
      ReadIntsShow(xs[1..]);
    }
  }

  /** The position of the first line break in `s`, or `|s|` when there is none. */
  function LineEnd(s: string): (k: nat)
    ensures k <= |s| && OneLine(s[..k]) && (k < |s| ==> s[k] == '\n')
  {
    if s == [] || s[0] == '\n' then 0 else 1 + LineEnd(s[1..])
  }

  /**
    The lines successive `getline` calls deliver: the text up to each line
    break, and a last line after the final break only when it is not empty.
  */
  function Lines(s: string): (ls: seq<string>)
    ensures forall i :: 0 <= i < |ls| ==> OneLine(ls[i])
    decreases |s|
  {
    if s == [] then []
    else
      var k := LineEnd(s);
      if k == |s| then [s] else [s[..k]] + Lines(s[k + 1..])
  }

  /** What is left of `s` once the rest of the current line and its break are consumed. */
  function AfterLine(s: string): (r: string)
    ensures |r| <= |s|
  {
    var k := LineEnd(s);
    if k == |s| then [] else s[k + 1..]
  }

  /** Each line followed by a line break. */
  function Unlines(ls: seq<string>): string {
    if ls == [] then "" else ls[0] + "\n" + Unlines(ls[1..])
  }

  lemma {:induction false} LineEndOf(line: string, rest: string)
    requires OneLine(line)
    ensures LineEnd(line + "\n" + rest) == |line|
  {
    if line != [] {
      assert (line + "\n" + rest)[1..] == line[1..] + "\n" + rest;
      LineEndOf(line[1..], rest);
    }
  }

  /** Lines without breaks, each terminated by a break, come back as the same lines. */
  lemma {:induction false} LinesUnlines(ls: seq<string>)
    requires forall i :: 0 <= i < |ls| ==> OneLine(ls[i])
    ensures Lines(Unlines(ls)) == ls
  {
    if ls != [] {
      var s := Unlines(ls);
      LineEndOf(ls[0], Unlines(ls[1..]));
      assert s[..|ls[0]|] == ls[0];
      assert s[|ls[0]| + 1..] == Unlines(ls[1..]);
      LinesUnlines(ls[1..]);
    }
  }

  /** The rest of a line that holds no break ends at the break after it. */
  lemma AfterLineOf(line: string, rest: string)
    requires OneLine(line)
    ensures AfterLine(line + "\n" + rest) == rest
  {
    LineEndOf(line, rest);
    assert (line + "\n" + rest)[|line| + 1..] == rest;
  }

  /** The text of `s` before its first blank: what `getline` with a blank delimiter delivers. */
  function FirstToken(s: string): (t: string)
    ensures t <= s && NoBlank(t)
    ensures |t| < |s| ==> s[|t|] == ' '
  {
    if s == [] || s[0] == ' ' then [] else [s[0]] + FirstToken(s[1..])
  }

  /** The first token is `w` exactly when `s` is `w` alone or `w` followed by a blank. */
  lemma FirstTokenIs(s: string, w: string)
    requires NoBlank(w)
    ensures FirstToken(s) == w <==> s == w || (|s| > |w| && s[..|w| + 1] == w + " ")
  {
    if FirstToken(s) == w && s != w {
      FirstTokenShape(s);
    }
    if |s| > |w| && s[..|w| + 1] == w + " " {
      FirstTokenPrefix(s, w);
    }
  }

  /** A first token shorter than the text is followed by a blank. */
  lemma FirstTokenShape(s: string)
    requires FirstToken(s) != s
    ensures var t := FirstToken(s); |s| > |t| && s[..|t| + 1] == t + " "
  {
    var t := FirstToken(s);
    assert s[..|t|] == t;
    assert s[..|t| + 1] == s[..|t|] + [s[|t|]];
  }

  lemma {:induction false} FirstTokenPrefix(s: string, w: string)
    requires NoBlank(w) && |s| > |w| && s[..|w| + 1] == w + " "
    ensures FirstToken(s) == w
  {
    if w == [] {
      assert s[0] == ' ';
    } else {
      assert s[0] == w[0];
      assert s[1..][..|w[1..]| + 1] == w[1..] + " ";
      FirstTokenPrefix(s[1..], w[1..]);
    }
  }

  /** The position of the first blank in `s`, or `|s|` when there is none. */
  function WordEnd(s: string): (k: nat)
    ensures k <= |s| && NoBlank(s[..k]) && (k < |s| ==> s[k] == ' ')
  {
    if s == [] || s[0] == ' ' then 0 else 1 + WordEnd(s[1..])
  }

  /** The words of `s`: its maximal runs of non-blank characters, in order. */
  function Words(s: string): (ws: seq<string>)
    ensures forall i :: 0 <= i < |ws| ==> ws[i] != [] && NoBlank(ws[i])
    decreases |s|
  {
    if s == [] then []
    else if s[0] == ' ' then Words(s[1..])
    else
      var k := WordEnd(s);
      [s[..k]] + Words(s[k..])
  }

  /** The words separated by single blanks. */
  function JoinWords(ws: seq<string>): string {
    if ws == [] then "" else if |ws| == 1 then ws[0] else ws[0] + " " + JoinWords(ws[1..])
  }

  lemma {:induction false} WordEndOf(w: string, rest: string)
    requires NoBlank(w) && (rest == [] || rest[0] == ' ')
    ensures WordEnd(w + rest) == |w|
  {
    if w != [] {
      assert (w + rest)[1..] == w[1..] + rest;
      WordEndOf(w[1..], rest);
    }
  }

  /** A word followed by nothing or by a blank is the first word. */
  lemma WordsFirst(w: string, tail: string)
    requires w != [] && NoBlank(w) && (tail == [] || tail[0] == ' ')
    ensures Words(w + tail) == [w] + Words(tail)
  {
    var s := w + tail;
    WordEndOf(w, tail);
    assert s[..|w|] == w;
    assert s[|w|..] == tail;
  }

  /** Non-empty words without blanks, joined by blanks, split back into the same words. */
  lemma {:induction false} WordsJoin(ws: seq<string>)
    requires forall i :: 0 <= i < |ws| ==> ws[i] != [] && NoBlank(ws[i])
    ensures Words(JoinWords(ws)) == ws
  {
    if |ws| == 1 {
      WordsFirst(ws[0], []);
      assert ws[0] + [] == ws[0];
    } else if |ws| > 1 {
      var rest := JoinWords(ws[1..]);
      assert JoinWords(ws) == ws[0] + (" " + rest);
      WordsFirst(ws[0], " " + rest);
      assert (" " + rest)[1..] == rest;
      WordsJoin(ws[1..]);
    }
  }

  /** A blank in front changes nothing a signed extraction reads. */
  lemma ReadIntBlank(t: string)
    ensures ReadInt(" " + t) == ReadInt(t)
  {
    SkipBlank(t);
  }

  /** An extraction whose signed reading is a number in range stores that number modulo 2^32. */
  lemma ExtractInRange(s: string, v: int, rest: string)
    requires ReadInt(s) == Some((v, rest)) && -(UnsignedMax as int) <= v <= UnsignedMax as int
    ensures ExtractUnsigned(s) == Extraction(if v < 0 then v + UnsignedMax + 1 else v, true, rest)
  {
  }

  /** A count written in decimal, then a non-digit, extracts as that count. */
  lemma ExtractUnsignedShow(n: nat, rest: string)
    requires n <= UnsignedMax && EndsNumber(rest)
    ensures ExtractUnsigned(ShowNat(n) + rest) == Extraction(n, true, rest)
  {
    ReadNonNegativeShow(n, rest);
    ExtractInRange(ShowNat(n) + rest, n, rest);
  }

  /** The same with a blank in front, which leaves input to extract from. */
  lemma ExtractUnsignedShowBlank(n: nat, rest: string)
    requires n <= UnsignedMax && EndsNumber(rest)
    ensures ExtractUnsigned(" " + ShowNat(n) + rest) == Extraction(n, true, rest)
    ensures SkipSpace(" " + ShowNat(n) + rest) != []
  {
    var t := ShowNat(n) + rest;
    assert " " + ShowNat(n) + rest == " " + t;
    ReadNonNegativeShow(n, rest);
    ReadIntBlank(t);
    ExtractInRange(" " + t, n, rest);
    SkipBlank(t);
    assert t[0] == ShowNat(n)[0];
    SkipNoSpace(t);
  }

  /** A negative number extracts as its value modulo 2^32. */
  lemma ExtractUnsignedNegative(n: nat, rest: string)
    requires 0 < n <= UnsignedMax && EndsNumber(rest)
    ensures ExtractUnsigned(" -" + ShowNat(n) + rest) == Extraction(UnsignedMax + 1 - n, true, rest)
  {
    var t := "-" + ShowNat(n) + rest;
    assert " -" + ShowNat(n) + rest == " " + t;
    ReadNegativeShow(n, rest);
    ReadIntBlank(t);
    ExtractInRange(" " + t, -(n as int), rest);
  }

  /** Input that starts with neither a sign nor a digit extracts nothing, stores 0 and fails the stream. */
  lemma ExtractUnsignedNoDigit(s: string)
    requires s != [] && !IsSpace(s[0]) && !IsDigit(s[0]) && s[0] != '-' && s[0] != '+'
    ensures ExtractUnsigned(s) == Extraction(0, false, s)
    ensures ExtractUnsigned(" " + s) == Extraction(0, false, " " + s)
  {
    SkipNoSpace(s);
    ReadIntBlank(s);
  }
}
