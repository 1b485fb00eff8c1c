/**
 * The nom combinators the request-component parser is built from, re-modelled
 * on `seq<char>`. A parser takes the input and either fails or yields the value
 * it recognised together with the input it left unread. nom reports the error
 * kind and position of a failure; nothing in the parser looks at them, so a
 * failure is just `None` here. Only the "complete" (non-streaming) variants are
 * used, so running out of input is an ordinary failure.
 */
module Combinators {
  import opened Base

  /** A parser: input in, recognised value and unread input out, or failure. */
  type Parser<R> = string -> Option<(R, string)>

  /** `t` is what is left of `s` after a prefix has been read. */
  predicate Suffix(t: string, s: string) { |t| <= |s| && s[|s| - |t|..] == t }

  /** A parser that only ever reads a prefix of its input, as every nom parser does. */
  ghost predicate Consumes<R>(p: Parser<R>) {
    forall s :: p(s).Some? ==> Suffix(p(s).value.1, s)
  }

  /** What is left of what is left of `s` is what is left of `s`. */
  lemma SuffixOfSuffix(t: string, u: string, s: string)
    requires Suffix(u, s) && Suffix(t, u)
    ensures Suffix(t, s)
  {
    assert s[|s| - |u|..][|u| - |t|..] == s[|s| - |t|..];
  }

  /** `tag(t)`: the input must start with `t`, which is consumed. */
  function Tag(t: string, s: string): (r: Option<(string, string)>)
    ensures r.Some? <==> t <= s
    ensures r.Some? ==> r.value.0 == t && t + r.value.1 == s
  {
    if t <= s then Some((t, s[|t|..])) else None
  }

  /** How many characters at the start of `s` satisfy `p`. */
  function SpanLength(p: char -> bool, s: string): (n: nat)
    ensures n <= |s|
    ensures forall i :: 0 <= i < n ==> p(s[i])
    ensures n < |s| ==> !p(s[n])
  {
    if s == [] || !p(s[0]) then 0 else 1 + SpanLength(p, s[1..])
  }

  /** `take_while1(p)`: the longest non-empty run of characters satisfying `p`. */
  function TakeWhile1(p: char -> bool, s: string): (r: Option<(string, string)>)
    ensures r.Some? <==> s != [] && p(s[0])
    ensures r.Some? ==> r.value.0 != [] && r.value.0 + r.value.1 == s
    ensures r.Some? ==> forall i :: 0 <= i < |r.value.0| ==> p(r.value.0[i])
    ensures r.Some? ==> r.value.1 == [] || !p(r.value.1[0])
  {
    var n := SpanLength(p, s);
    if n == 0 then None else Some((s[..n], s[n..]))
  }

  /** A run `x` of characters satisfying `p` that `y` does not continue is exactly what `take_while1(p)` takes from `x + y`. */
  lemma {:induction false} TakeWhile1Split(p: char -> bool, x: string, y: string)
    requires forall i :: 0 <= i < |x| ==> p(x[i])
    requires y == [] || !p(y[0])
    ensures TakeWhile1(p, x + y) == if x == [] then None else Some((x, y))
  {
    SpanLengthSplit(p, x, y);
    assert (x + y)[..|x|] == x && (x + y)[|x|..] == y;
  }

  lemma SpanLengthSplit(p: char -> bool, x: string, y: string)
    requires forall i :: 0 <= i < |x| ==> p(x[i])
    requires y == [] || !p(y[0])
    ensures SpanLength(p, x + y) == |x|
  {
    SpanLengthAppend(p, x, y);
  }

  /** Appending text that does not start with a `p` character never lengthens the leading `p` run. */
  lemma {:induction false} SpanLengthAppend(p: char -> bool, x: string, y: string)
    requires y == [] || !p(y[0])
    ensures SpanLength(p, x + y) == SpanLength(p, x)
  {
    if x != [] {
      assert (x + y)[0] == x[0];
      assert (x + y)[1..] == x[1..] + y;
      SpanLengthAppend(p, x[1..], y);
    }
  }

  predicate IsDigit(c: char) { '0' <= c <= '9' }

  predicate AllDigits(d: string) { forall i :: 0 <= i < |d| ==> IsDigit(d[i]) }

  function DigitValue(c: char): (v: nat)
    requires IsDigit(c)
    ensures v < 10
  {
    (c as int) - ('0' as int)
  }

  /** The value reached by reading the digits `d` after `acc` has been read, as nom's loop does: `acc * 10 + digit` per digit, unbounded. */
  function Accumulate(acc: nat, d: string): (v: nat)
    requires AllDigits(d)
    ensures v >= acc
    ensures d != [] ==> v >= 10 * acc
    decreases |d|
  {
    if d == [] then acc else Accumulate(acc * 10 + DigitValue(d[0]), d[1..])
  }

  /** The value of a run of decimal digits; leading zeros are allowed. */
  function DecimalValue(d: string): nat
    requires AllDigits(d)
  {
    Accumulate(0, d)
  }

  /** The digits `d` spell a number that fits in a `u32`. */
  predicate FitsU32(d: string) { AllDigits(d) && DecimalValue(d) < U32_LIMIT }

  /**
   * nom's `u32` loop, entered with the value `acc` read so far: it stops at the
   * first non-digit and fails as soon as `acc * 10 + digit` leaves the 32-bit
   * range (`checked_mul` / `checked_add`).
   */
  function U32Loop(acc: uint32, s: string): (r: Option<(uint32, string)>)
    ensures var n := SpanLength(IsDigit, s);
      AllDigits(s[..n])
      && (r.Some? <==> Accumulate(acc, s[..n]) < U32_LIMIT)
      && (r.Some? ==> r.value == (Accumulate(acc, s[..n]), s[n..]))
    decreases |s|
  {
    if s == [] || !IsDigit(s[0]) then
      assert s[..0] == [];
      Some((acc, s))
    else
      var v := acc * 10 + DigitValue(s[0]);
      var n := SpanLength(IsDigit, s);
      assert s[..n][1..] == s[1..][..n - 1];
      if v >= U32_LIMIT then None else U32Loop(v, s[1..])
  }

  /**
   * `u32`: a non-empty run of decimal digits whose value fits in 32 bits. An
   * empty input, a first character that is not a digit, and a run that
   * overflows all fail.
   */
  function U32(s: string): (r: Option<(uint32, string)>)
    ensures var n := SpanLength(IsDigit, s);
      (r.Some? <==> 0 < n && FitsU32(s[..n]))
      && (r.Some? ==> r.value == (DecimalValue(s[..n]), s[n..]))
  {
    if s == [] || !IsDigit(s[0]) then None else U32Loop(0, s)
  }

  /** A maximal digit run `d` followed by `y` reads as `d`'s value when it fits, and fails otherwise. */
  lemma U32Split(d: string, y: string)
    requires AllDigits(d)
    requires y == [] || !IsDigit(y[0])
    ensures U32(d + y) == if d != [] && FitsU32(d) then Some((DecimalValue(d) as uint32, y)) else None
  {
    SpanLengthSplit(IsDigit, d, y);
    assert (d + y)[..|d|] == d && (d + y)[|d|..] == y;
  }

  /**
   * `alt((p, q))`: the result of the first alternative that succeeds, whatever
   * it leaves unread; it fails only when both fail.
   */
  function Alt<R>(p: Parser<R>, q: Parser<R>, s: string): (r: Option<(R, string)>)
    ensures r.Some? <==> p(s).Some? || q(s).Some?
    ensures r == p(s) || r == q(s)
    ensures p(s).Some? ==> r == p(s)
  {
    if p(s).Some? then p(s) else q(s)
  }

  /** `alt((p, q, u))`: the same for three alternatives, tried in order. */
  function Alt3<R>(p: Parser<R>, q: Parser<R>, u: Parser<R>, s: string): (r: Option<(R, string)>)
    ensures r.Some? <==> p(s).Some? || q(s).Some? || u(s).Some?
    ensures r == p(s) || r == q(s) || r == u(s)
    ensures p(s).Some? ==> r == p(s)
    ensures p(s).None? && q(s).Some? ==> r == q(s)
  {
    if p(s).Some? then p(s) else if q(s).Some? then q(s) else u(s)
  }

  /** Three alternatives behave as the first against the choice between the other two. */
  lemma Alt3Nested<R>(p: Parser<R>, q: Parser<R>, u: Parser<R>, s: string)
    ensures Alt3(p, q, u, s) == Alt(p, t => Alt(q, u, t), s)
  {
  }

  /** The order of two alternatives matters only on input both accept. */
  lemma AltSwap<R>(p: Parser<R>, q: Parser<R>, s: string)
    requires p(s).None? || q(s).None?
    ensures Alt(p, q, s) == Alt(q, p, s)
  {
  }

  /**
   * `preceded(first, p)`: run both in turn, keep what `p` recognised; it
   * succeeds exactly when `p` succeeds on what `first` left.
   */
  function Preceded<A, R>(first: Parser<A>, p: Parser<R>, s: string): (r: Option<(R, string)>)
    ensures r.Some? <==> first(s).Some? && p(first(s).value.1).Some?
    ensures r.Some? ==> r == p(first(s).value.1)
  {
    match first(s)
    case None => None
    case Some((_, rest)) => p(rest)
  }

  /**
   * `delimited(open, p, close)`: run all three in turn, keep what `p`
   * recognised; it succeeds exactly when each succeeds on what the one before left.
   */
  function Delimited<A, R, C>(open: Parser<A>, p: Parser<R>, close: Parser<C>, s: string): (r: Option<(R, string)>)
    ensures r.Some? <==>
      open(s).Some? && p(open(s).value.1).Some? && close(p(open(s).value.1).value.1).Some?
    ensures r.Some? ==>
      r.value == (p(open(s).value.1).value.0, close(p(open(s).value.1).value.1).value.1)
  {
    match open(s)
    case None => None
    case Some((_, rest)) =>
      match p(rest)
      case None => None
      case Some((x, rest')) =>
        match close(rest')
        case None => None
        case Some((_, rest'')) => Some((x, rest''))
  }

  /**
   * `separated_pair(p, sep, q)`: run all three in turn, keep what `p` and `q`
   * recognised; it succeeds exactly when each succeeds on what the one before left.
   */
  function SeparatedPair<A, B, C>(p: Parser<A>, sep: Parser<B>, q: Parser<C>, s: string): (r: Option<((A, C), string)>)
    ensures r.Some? <==>
      p(s).Some? && sep(p(s).value.1).Some? && q(sep(p(s).value.1).value.1).Some?
    ensures r.Some? ==>
      r.value == ((p(s).value.0, q(sep(p(s).value.1).value.1).value.0), q(sep(p(s).value.1).value.1).value.1)
  {
    match p(s)
    case None => None
    case Some((x, rest)) =>
      match sep(rest)
      case None => None
      case Some((_, rest')) =>
        match q(rest')
        case None => None
        case Some((y, rest'')) => Some(((x, y), rest''))
  }

  /**
   * Running parsers in turn reads only a prefix of the input when each of them
   * does: what `preceded`, `delimited` and `separated_pair` leave is a suffix.
   */
  lemma SequenceConsumes<A, B, C>(p: Parser<A>, q: Parser<B>, u: Parser<C>, s: string)
    requires Consumes(p) && Consumes(q) && Consumes(u)
    ensures Preceded(p, q, s).Some? ==> Suffix(Preceded(p, q, s).value.1, s)
    ensures Delimited(p, q, u, s).Some? ==> Suffix(Delimited(p, q, u, s).value.1, s)
    ensures SeparatedPair(p, q, u, s).Some? ==> Suffix(SeparatedPair(p, q, u, s).value.1, s)
  {
    if p(s).Some? {
      var rest := p(s).value.1;
      if q(rest).Some? {
        var rest' := q(rest).value.1;
        SuffixOfSuffix(rest', rest, s);
        if u(rest').Some? {
          SuffixOfSuffix(u(rest').value.1, rest', s);
        }
      }
    }
  }

  /** `value(v, p)`: run `p`, and yield `v` in place of what it recognised, leaving what `p` left. */
  function Value<V, R>(v: V, p: Parser<R>, s: string): (r: Option<(V, string)>)
    ensures r.Some? <==> p(s).Some?
    ensures r.Some? ==> r.value == (v, p(s).value.1)
  {
    match p(s)
    case None => None
    case Some((_, rest)) => Some((v, rest))
  }

  /**
   * `many0(p)`: apply `p` until it fails and collect its results; zero results
   * are fine. Like nom, it fails outright when `p` succeeds without consuming
   * anything (nom compares input lengths, and a parser never lengthens its input).
   */
  function Many0<R>(p: Parser<R>, s: string): (r: Option<(seq<R>, string)>)
    ensures r.Some? ==> |r.value.1| <= |s| && p(r.value.1).None?
    decreases |s|
  {
    match p(s)
    case None => Some(([], s))
    case Some((x, rest)) =>
      if |rest| >= |s| then None
      else
        match Many0(p, rest)
        case None => None
        case Some((xs, rest')) => Some(([x] + xs, rest'))
  }

  /** One step that shortens the input, in front of what `many0` reads from the rest, is read too. */
  lemma Many0Step<R>(p: Parser<R>, s: string, x: R, rest: string, xs: seq<R>, rest': string)
    requires p(s) == Some((x, rest)) && |rest| < |s|
    requires Many0(p, rest) == Some((xs, rest'))
    ensures Many0(p, s) == Some(([x] + xs, rest'))
  {
  }

  function DigitChar(n: nat): (c: char)
    requires n < 10
    ensures IsDigit(c) && DigitValue(c) == n
  {
    ('0' as int + n) as char
  }

  /** The decimal spelling of `n`, without leading zeros (Rust's `to_string` on an integer). */
  function Decimal(n: nat): (d: string)
    ensures d != [] && AllDigits(d)
  {
    if n < 10 then [DigitChar(n)] else Decimal(n / 10) + [DigitChar(n % 10)]
  }

  /** Reading one more digit multiplies what was read by ten and adds the digit. */
  lemma {:induction false} AccumulateSnoc(acc: nat, d: string, c: char)
    requires AllDigits(d) && IsDigit(c)
    ensures AllDigits(d + [c])
    ensures Accumulate(acc, d + [c]) == Accumulate(acc, d) * 10 + DigitValue(c)
    decreases |d|
  {
    assert AllDigits(d + [c]);
    if d != [] {
      assert (d + [c])[1..] == d[1..] + [c];
      AccumulateSnoc(acc * 10 + DigitValue(d[0]), d[1..], c);
    }
  }

  /** Reading back the decimal spelling of `n` gives `n`. */
  lemma {:induction false} DecimalRoundTrip(n: nat)
    ensures DecimalValue(Decimal(n)) == n
  {
    if n >= 10 {
      var d := Decimal(n / 10);
      DecimalRoundTrip(n / 10);
      AccumulateSnoc(0, d, DigitChar(n % 10));
      assert Decimal(n) == d + [DigitChar(n % 10)];
      assert DecimalValue(Decimal(n)) == Accumulate(0, d) * 10 + n % 10;
    } else {
      var d := Decimal(n);
      assert d == [DigitChar(n)] && d[1..] == [];
      assert Accumulate(0, d) == Accumulate(DigitValue(d[0]), []);
    }
  }
}
